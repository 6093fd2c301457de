/**
 * The room hub of the web server, web/internal/room/hub.go.
 *
 * A hub serves one event of its `Run` loop at a time; each `select` case is
 * a method here, and the helpers it calls are methods too. The package's
 * global maps live in a `Registry`. `go h.BroadcastMsg(...)` and the
 * goroutine that signals destruction are recorded in `pending`, and
 * `RunPending` runs one of them, in any order. A Go panic (a nil
 * dereference, a send on a closed channel) is the `Panic` outcome of the
 * event that raises it. Identifiers are parsed and printed by functions the
 * registry is given (the uuid package is foreign).
 */
module WebHub {
  import opened Wrappers
  import opened Uuids
  import opened Peers
  import opened WebMessages
  import WebPlaylist
  import WebPlayer

  type Member = Client<Frame>

  const NIL_DEREFERENCE := "invalid memory address or nil pointer dereference"
  const SEND_ON_CLOSED := "send on closed channel"

  /** A goroutine started by the hub: a `BroadcastMsg` call, or the signal that destroys the hub. */
  datatype Post = Announce(msg: WSMessage) | Shutdown

  /** What a message case of `Run` does with the message it received. */
  datatype Route<C> =
    | Crash(reason: string)
    | Drop
    | ToOne(to: C, frame: Frame)
    | ToAll(frame: Frame, except: Option<C>)

  /**
   * The checks every message case makes first: an encoding failure is
   * logged with `msg.Sender().ID` and skipped, a debug message is logged
   * with `msg.Sender().ID`. Either log line dereferences a nil sender.
   */
  function Prelude<C(==)>(m: WSMessage, clients: map<Uuid, C>, parse: string -> Option<Uuid>): (r: Option<Route<C>>)
    ensures r.Some? <==> Json(m).Failure? || (DebugMode(m) && Sender(m, clients, parse).None?)
    ensures r.Some? ==> (r.value.Crash? <==> Sender(m, clients, parse).None?) && (!r.value.Crash? ==> r.value.Drop?)
  {
    match Json(m)
    case Failure(_) =>
      if Sender(m, clients, parse).None? then Some(Crash(NIL_DEREFERENCE)) else Some(Drop)
    case Success(_) =>
      if DebugMode(m) && Sender(m, clients, parse).None? then Some(Crash(NIL_DEREFERENCE)) else None
  }

  /** The `broadcast` case: the frame goes to every member. */
  function BroadcastRoute<C(==)>(m: WSMessage, clients: map<Uuid, C>, parse: string -> Option<Uuid>): (r: Route<C>)
    ensures r.Crash? <==> (m.Direct? && m.To == NIL) || (DebugMode(m) && Sender(m, clients, parse).None?)
    ensures !r.Crash? ==> r == ToAll(Frame(m), None)
  {
    match Prelude(m, clients, parse)
    case Some(route) => route
    case None => ToAll(Frame(m), None)
  }

  /** The `direct` case: the frame goes to the receiver, which is looked up in the global client map, if any. */
  function DirectRoute<C(==)>(m: WSMessage, clients: map<Uuid, C>, parse: string -> Option<Uuid>): (r: Route<C>)
    ensures r.Crash? <==> (m.Direct? && m.To == NIL) || (DebugMode(m) && Sender(m, clients, parse).None?)
    ensures !r.Crash? ==> (r.ToOne? <==> Reciever(m, clients, parse).Some?) && !r.ToAll?
    ensures r.ToOne? ==> r == ToOne(Reciever(m, clients, parse).value, Frame(m))
  {
    match Prelude(m, clients, parse)
    case Some(route) => route
    case None =>
      match Reciever(m, clients, parse)
      case Some(c) => ToOne(c, Frame(m))
      case None => Drop
  }

  /**
   * The `peer` case: a message with a receiver goes to it alone; one
   * without goes to every member but its sender, and is dropped when it
   * has no sender.
   */
  function PeerRoute<C(==)>(m: WSMessage, clients: map<Uuid, C>, parse: string -> Option<Uuid>): (r: Route<C>)
    ensures r.Crash? <==> (m.Direct? && m.To == NIL) || (DebugMode(m) && Sender(m, clients, parse).None?)
    ensures !r.Crash? ==> (r.ToOne? <==> Reciever(m, clients, parse).Some?)
    ensures r.ToOne? ==> r == ToOne(Reciever(m, clients, parse).value, Frame(m))
    ensures !r.Crash? && Reciever(m, clients, parse).None? ==>
      (r.Drop? <==> Sender(m, clients, parse).None?)
    ensures r.ToAll? ==> r == ToAll(Frame(m), Sender(m, clients, parse)) && r.except.Some?
  {
    match Prelude(m, clients, parse)
    case Some(route) => route
    case None =>
      match Reciever(m, clients, parse)
      case Some(c) => ToOne(c, Frame(m))
      case None =>
        match Sender(m, clients, parse)
        case None => Drop
        case Some(s) => ToAll(Frame(m), Some(s))
  }

  /**
   * The room event a hub broadcasts about a member ("left", "host"). It
   * always encodes and is not a debug message, so the `broadcast` case
   * never logs it with a sender.
   */
  function RoomEvent(format: Uuid -> string, c: Member, event: string): (m: WSMessage)
    ensures Json(m).Success? && !DebugMode(m)
    ensures m.Broadcast? && m.Data == Event(event) && m.Username == c.Name
  {
    Broadcast(MSG_EVENT_ROOM, format(c.ID), c.Name, Event(event))
  }

  /** Whatever the client map, a room event reaches every member, with nobody skipped. */
  lemma RoomEventReachesAll(format: Uuid -> string, c: Member, event: string, clients: map<Uuid, Member>, parse: string -> Option<Uuid>)
    ensures BroadcastRoute(RoomEvent(format, c, event), clients, parse) == ToAll(Frame(RoomEvent(format, c, event)), None)
  {
  }

  /**
   * The player's notice through the hub's `direct` case: it goes to the
   * host's entry in the global client map alone, is dropped when the host
   * is unknown, and, when the host's identifier is nil, fails to encode and
   * panics on the log line that dereferences its missing sender.
   */
  lemma NoticeRoute(host: Uuid, node: WebPlaylist.MusicInfo, clients: map<Uuid, Member>, parse: string -> Option<Uuid>)
    ensures var m := WebPlayer.Notice(host, node);
      DirectRoute(m, clients, parse) ==
        if host == NIL then Crash(NIL_DEREFERENCE)
        else if host in clients then ToOne(clients[host], Frame(m))
        else Drop
  {
  }

  /**
   * The message `Read` passes to `SignalMsg` for a frame a client sent:
   * nothing when it does not decode; a peer-direct message when its `To`
   * is not the nil identifier, a peer message otherwise.
   */
  function PeerSignal(format: Uuid -> string, c: Member, to: Option<string>, text: string): (m: Option<WSMessage>)
    ensures m.None? <==> to.None?
    ensures m.Some? ==> m.value.MsgType == MSG_EVENT_PEER && m.value.Data == Signal(text)
    ensures m.Some? ==> !m.value.Direct? && !m.value.Broadcast? && m.value.UID == format(c.ID) && m.value.Username == c.Name
    ensures m.Some? ==> (m.value.PeerDirect? <==> to.value != NIL_TEXT)
    ensures m.Some? && m.value.PeerDirect? ==> m.value.PeerTo == to.value
  {
    match to
    case None => None
    case Some(t) =>
      if t != NIL_TEXT then Some(PeerDirect(MSG_EVENT_PEER, format(c.ID), c.Name, t, Signal(text)))
      else Some(Peer(MSG_EVENT_PEER, format(c.ID), c.Name, Signal(text)))
  }

  /** The client a route may send to alone. */
  function Reach<C>(route: Route<C>): (s: set<C>)
    ensures route.ToOne? <==> s != {}
  {
    if route.ToOne? then {route.to} else {}
  }

  /** The member a fan-out skips, if any. */
  function Skip(except: Option<Member>): (c: Client?<Frame>)
    ensures c == null <==> except.None?
    ensures except.Some? ==> c == except.value
  {
    if except.Some? then except.value else null
  }

  /** The package's global maps. */
  class Registry {
    /** uid to client */
    var ClientMap: map<Uuid, Member>
    /** session token to uid */
    var TokenMap: map<Uuid, Uuid>
    /** room id to hub */
    var HubMap: map<Uuid, Hub>
    /** session token to the hub it created and nobody has joined yet */
    var NewHubs: map<Uuid, Hub>
    const parse: string -> Option<Uuid>
    const format: Uuid -> string

    constructor (parse: string -> Option<Uuid>, format: Uuid -> string)
      ensures ClientMap == map[] && TokenMap == map[] && HubMap == map[] && NewHubs == map[]
      ensures this.parse == parse && this.format == format
    {
      ClientMap, TokenMap, HubMap, NewHubs := map[], map[], map[], map[];
      this.parse, this.format := parse, format;
    }
  }

  class Hub {
    const ID: Uuid
    var Host: Client?<Frame>
    /** the members and their permissions */
    var Clients: map<Member, int>
    /** `Run` has returned and `Destroy` is closed */
    var destroyed: bool
    /** goroutines started and not yet run */
    var pending: seq<Post>

    /** A room with members has a host, and every member's channel is open. */
    ghost predicate Valid()
      reads this, Clients.Keys
    {
      && (Host == null ==> Clients == map[])
      && forall c :: c in Clients ==> c.Open()
    }

    /** `CreateHub`: no host, no members. */
    constructor (id: Uuid)
      ensures Valid() && ID == id && Host == null && Clients == map[] && !destroyed && pending == []
    {
      ID := id;
      Host, Clients, destroyed, pending := null, map[], false, [];
    }

    /** `register`: the client joins with its permission and becomes host when there is none. */
    method Register(c: Member)
      requires Valid() && !destroyed && c.Open()
      modifies this`Clients, this`Host
      ensures Valid() && Clients == old(Clients)[c := c.Permission]
      ensures Host == if old(Host) == null then c else old(Host)
    {
      Clients := Clients[c := c.Permission];
      if Host == null {
        Host := c;
      }
    }

    /**
     * `unregister`: a member leaves the room and the global maps, its
     * channel is closed and its departure is announced. The last member
     * leaving starts the hub's destruction; a departing host hands over
     * to the member `NextHost` finds, which panics when there is none.
     */
    method Unregister(c: Member, reg: Registry) returns (r: Step)
      requires Valid() && !destroyed
      modifies this`Clients, this`Host, this`pending, c`closed, reg`ClientMap, reg`TokenMap
      ensures c !in old(Clients) ==>
        && r == Done && Clients == old(Clients) && Host == old(Host) && pending == old(pending)
        && c.closed == old(c.closed) && reg.ClientMap == old(reg.ClientMap) && reg.TokenMap == old(reg.TokenMap)
      ensures c in old(Clients) ==>
        && Clients == old(Clients) - {c} && c.closed
        && reg.ClientMap == old(reg.ClientMap) - {c.ID} && reg.TokenMap == old(reg.TokenMap) - {c.Token}
      ensures c in old(Clients) && Clients == map[] ==>
        r == Done && Host == old(Host) && pending == old(pending) + [Announce(RoomEvent(reg.format, c, "left")), Shutdown]
      ensures c in old(Clients) && Clients != map[] && old(Host).ID != c.ID ==>
        r == Done && Host == old(Host) && pending == old(pending) + [Announce(RoomEvent(reg.format, c, "left"))]
      ensures c in old(Clients) && Clients != map[] && old(Host).ID == c.ID ==>
        (r.Panic? <==> forall d :: d in Clients && d.ID != c.ID ==> d.JoinUnixMilli >= MAX_INT64)
      ensures c in old(Clients) && Clients != map[] && old(Host).ID == c.ID && r == Done ==>
        && Host in Clients && Host.ID != c.ID
        && (forall d :: d in Clients && d.ID != c.ID ==> Host.JoinUnixMilli <= d.JoinUnixMilli)
        && pending == old(pending) + [Announce(RoomEvent(reg.format, c, "left")), Announce(RoomEvent(reg.format, Host, "host"))]
      ensures r == Done ==> Valid()
    {
      if c !in Clients {
        return Done;
      }
      Leave(c, reg);
      if Clients == map[] {
        pending := pending + [Shutdown];
        return Done;
      }
      r := Done;
      if Host.ID == c.ID {
        r := HandOver(c.ID, reg);
      }
    }

    /** The clean-up of `unregister`: the departure is announced, the member leaves the room and the global maps, its channel is closed. */
    method Leave(c: Member, reg: Registry)
      requires Valid() && c in Clients
      modifies this`Clients, this`pending, c`closed, reg`ClientMap, reg`TokenMap
      ensures Valid() && Host == old(Host)
      ensures Clients == old(Clients) - {c} && c.closed
      ensures reg.ClientMap == old(reg.ClientMap) - {c.ID} && reg.TokenMap == old(reg.TokenMap) - {c.Token}
      ensures pending == old(pending) + [Announce(RoomEvent(reg.format, c, "left"))]
    {
      pending, Clients := pending + [Announce(RoomEvent(reg.format, c, "left"))], Clients - {c};
      reg.ClientMap, reg.TokenMap := reg.ClientMap - {c.ID}, reg.TokenMap - {c.Token};
      c.closed := true;
    }

    /** The host transfer of `unregister`: `h.Host = h.NextHost()`, then the new host is announced. */
    method HandOver(left: Uuid, reg: Registry) returns (r: Step)
      requires Valid() && Clients != map[] && Host.ID == left
      modifies this`Host, this`pending
      ensures r.Panic? <==> forall d :: d in Clients && d.ID != left ==> d.JoinUnixMilli >= MAX_INT64
      ensures r.Panic? ==> r.reason == NIL_DEREFERENCE
      ensures r == Done ==>
        && Valid() && Host in Clients && Host.ID != left
        && (forall d :: d in Clients && d.ID != left ==> Host.JoinUnixMilli <= d.JoinUnixMilli)
        && pending == old(pending) + [Announce(RoomEvent(reg.format, Host, "host"))]
    {
      Host := NextHost(Clients.Keys, Host.ID);
      if Host == null {
        return Panic(NIL_DEREFERENCE);
      }
      pending := pending + [Announce(RoomEvent(reg.format, Host, "host"))];
      return Done;
    }

    /** The `Destroy` case: `Run` returns, its deferred cleanup closes `Destroy` and drops the hub from `HubMap`. */
    method Destroy(reg: Registry)
      requires !destroyed
      modifies this`destroyed, reg`HubMap
      ensures destroyed && reg.HubMap == old(reg.HubMap) - {ID}
    {
      destroyed := true;
      reg.HubMap := reg.HubMap - {ID};
    }

    /**
     * `Timeout`, once the grace period has expired: the session's entry
     * leaves `NewHubs`, and a hub nobody joined is destroyed unless it
     * already is.
     */
    method Timeout(sid: Uuid, reg: Registry)
      modifies reg`NewHubs, reg`HubMap, this`destroyed
      ensures reg.NewHubs == old(reg.NewHubs) - {sid}
      ensures |Clients| == 0 && !old(destroyed) ==> destroyed && reg.HubMap == old(reg.HubMap) - {ID}
      ensures |Clients| > 0 || old(destroyed) ==> destroyed == old(destroyed) && reg.HubMap == old(reg.HubMap)
    {
      reg.NewHubs := reg.NewHubs - {sid};
      if |Clients| == 0 {
        if destroyed {
          return;
        }
        Destroy(reg);
      }
    }

    /** The non-blocking send of a frame to one client; a full channel is closed and its client leaves the room. */
    method Unicast(c: Member, f: Frame) returns (r: Step)
      requires Valid()
      modifies this`Clients, c
      ensures old(c.closed) <==> r.Panic?
      ensures r.Panic? ==> r.reason == SEND_ON_CLOSED && Clients == old(Clients) && c.Send == old(c.Send)
      ensures r == Done ==> (c.Send, c.closed) == Fed(old(c.Send), f)
      ensures r == Done ==> Clients == if c.closed then old(Clients) - {c} else old(Clients)
      ensures r == Done ==> Valid()
    {
      var d := c.Offer(f);
      if d == Panicked {
        return Panic(SEND_ON_CLOSED);
      }
      if d == Evicted {
        Clients := Clients - {c};
      }
      return Done;
    }

    /** The fan-out of a frame to every member but `except`, evicting those whose channel is full. */
    method Multicast(f: Frame, except: Option<Member>)
      requires Valid()
      modifies this`Clients, Clients.Keys
      ensures Valid() && Host == old(Host) && FannedOut(old(Clients), Clients, f, Skip(except))
    {
      Clients := FanOut(Clients, f, Skip(except));
    }

    /** What serving `route` did to the room that had the members `before`. */
    twostate predicate Served(before: map<Member, int>, route: Route<Member>, r: Step)
      reads this, before.Keys, Clients.Keys, Reach(route)
    {
      && Host == old(Host)
      && match route
        case Crash(reason) => r == Panic(reason) && Clients == before && unchanged(before.Keys)
        case Drop => r == Done && Clients == before && unchanged(before.Keys)
        case ToOne(to, f) =>
          && unchanged(before.Keys - {to})
          && (old(to.closed) <==> r.Panic?)
          && (r.Panic? ==> r.reason == SEND_ON_CLOSED && Clients == before && to.Send == old(to.Send))
          && (r == Done ==> Valid() && (to.Send, to.closed) == Fed(old(to.Send), f))
          && (r == Done ==> Clients == if to.closed then before - {to} else before)
        case ToAll(f, except) =>
          r == Done && Valid() && FannedOut(before, Clients, f, Skip(except))
    }

    /** Serving a routed message: a panic, nothing, the send to one client, or the fan-out. */
    method Dispatch(route: Route<Member>) returns (r: Step)
      requires Valid()
      modifies this`Clients, Clients.Keys, Reach(route)
      ensures Served(old(Clients), route, r)
    {
      match route
      case Crash(reason) => r := Panic(reason);
      case Drop => r := Done;
      case ToOne(to, f) => r := Unicast(to, f);
      case ToAll(f, except) => Multicast(f, except); r := Done;
    }

    /** The `broadcast` case of `Run`. */
    method BroadcastCase(m: WSMessage, reg: Registry) returns (r: Step)
      requires Valid()
      modifies this`Clients, Clients.Keys
      ensures Served(old(Clients), BroadcastRoute(m, reg.ClientMap, reg.parse), r)
    {
      r := Dispatch(BroadcastRoute(m, reg.ClientMap, reg.parse));
    }

    /** The `direct` case of `Run`. */
    method DirectCase(m: WSMessage, reg: Registry) returns (r: Step)
      requires Valid()
      modifies this`Clients, Clients.Keys, reg.ClientMap.Values
      ensures Served(old(Clients), DirectRoute(m, reg.ClientMap, reg.parse), r)
    {
      r := Dispatch(DirectRoute(m, reg.ClientMap, reg.parse));
    }

    /** The `peer` case of `Run`. */
    method PeerCase(m: WSMessage, reg: Registry) returns (r: Step)
      requires Valid()
      modifies this`Clients, Clients.Keys, reg.ClientMap.Values
      ensures Served(old(Clients), PeerRoute(m, reg.ClientMap, reg.parse), r)
    {
      r := Dispatch(PeerRoute(m, reg.ClientMap, reg.parse));
    }

    /** `BroadcastMsg`: a room without members, or one that is destroyed, ignores the message; otherwise `Run` serves it. */
    method BroadcastMsg(m: WSMessage, reg: Registry) returns (r: Step)
      requires Valid()
      modifies this`Clients, Clients.Keys
      ensures old(Clients) == map[] || destroyed ==> r == Done && Clients == old(Clients) && unchanged(old(Clients).Keys)
      ensures old(Clients) != map[] && !destroyed ==> Served(old(Clients), BroadcastRoute(m, reg.ClientMap, reg.parse), r)
    {
      r := Done;
      if Clients != map[] && !destroyed {
        r := BroadcastCase(m, reg);
      }
    }

    /** `DirectMsg`: the same guard before the `direct` case. */
    method DirectMsg(m: WSMessage, reg: Registry) returns (r: Step)
      requires Valid()
      modifies this`Clients, Clients.Keys, reg.ClientMap.Values
      ensures old(Clients) == map[] || destroyed ==> r == Done && Clients == old(Clients) && unchanged(old(Clients).Keys)
      ensures old(Clients) != map[] && !destroyed ==> Served(old(Clients), DirectRoute(m, reg.ClientMap, reg.parse), r)
    {
      r := Done;
      if Clients != map[] && !destroyed {
        r := DirectCase(m, reg);
      }
    }

    /** `SignalMsg`: the same guard before the `peer` case. */
    method SignalMsg(m: WSMessage, reg: Registry) returns (r: Step)
      requires Valid()
      modifies this`Clients, Clients.Keys, reg.ClientMap.Values
      ensures old(Clients) == map[] || destroyed ==> r == Done && Clients == old(Clients) && unchanged(old(Clients).Keys)
      ensures old(Clients) != map[] && !destroyed ==> Served(old(Clients), PeerRoute(m, reg.ClientMap, reg.parse), r)
    {
      r := Done;
      if Clients != map[] && !destroyed {
        r := PeerCase(m, reg);
      }
    }

    /** The scheduler picks one started goroutine to run. */
    method TakePending(i: nat) returns (p: Post)
      requires i < |pending|
      modifies this`pending
      ensures p == old(pending[i]) && pending == old(pending[..i] + pending[i + 1..])
    {
      p := pending[i];
      pending := pending[..i] + pending[i + 1..];
    }

    /**
     * Running a started goroutine: an announcement is `BroadcastMsg`; the
     * destruction signal does nothing once `Destroy` is closed and is
     * otherwise served by the `Destroy` case.
     */
    method Deliver(p: Post, reg: Registry) returns (r: Step)
      requires Valid()
      modifies this`Clients, Clients.Keys, this`destroyed, reg`HubMap
      ensures p.Shutdown? ==> r == Done && Clients == old(Clients) && unchanged(old(Clients).Keys) && destroyed
      ensures p.Shutdown? ==> reg.HubMap == if old(destroyed) then old(reg.HubMap) else old(reg.HubMap) - {ID}
      ensures p.Announce? ==> destroyed == old(destroyed) && reg.HubMap == old(reg.HubMap)
      ensures p.Announce? && (old(Clients) == map[] || destroyed) ==> r == Done && Clients == old(Clients) && unchanged(old(Clients).Keys)
      ensures p.Announce? && old(Clients) != map[] && !destroyed ==>
        Served(old(Clients), BroadcastRoute(p.msg, reg.ClientMap, reg.parse), r)
    {
      match p
      case Announce(m) => r := BroadcastMsg(m, reg);
      case Shutdown =>
        r := Done;
        if !destroyed {
          Destroy(reg);
        }
    }

    /**
     * A host whose channel is full is closed and dropped from the room by a
     * broadcast, but it stays host and stays in the global client map, so
     * the player's next status message to the host is a send on a closed
     * channel.
     */
    method EvictedHostNotice(m: WSMessage, guest: Member, nextID: int, reg: Registry) returns (r: Step)
      requires Valid() && !destroyed && Host in Clients && |Host.Send| == SEND_BUFFER
      requires guest in Clients && |guest.Send| < SEND_BUFFER
      requires Host.ID != NIL && Host.ID in reg.ClientMap && reg.ClientMap[Host.ID] == Host
      requires m.Broadcast? && m.MsgType != MSG_DEBUG
      modifies this`Clients, Clients.Keys, reg.ClientMap.Values
      ensures r == Panic(SEND_ON_CLOSED)
    {
      var host: Member := Host;
      assert BroadcastRoute(m, reg.ClientMap, reg.parse) == ToAll(Frame(m), None);
      var b := BroadcastMsg(m, reg);
      assert host.closed && guest in Clients && Host == host;
      var notice := Direct(MSG_EVENT_PLAYER, host.ID, MPStatus(nextID, true));
      assert DirectRoute(notice, reg.ClientMap, reg.parse) == ToOne(host, Frame(notice));
      r := DirectMsg(notice, reg);
    }
  }
}
