/**
 * The room hub of the earlier server, core/room/hub.go. Its `Run` loop
 * handles every event inline; each `select` case is a method here. The
 * last member leaving ends `Run`, whose deferred cleanup closes `Destroy`,
 * drops the hub from `HubMap` and clears the playlist. `go h.RoomEvtMsg(...)`
 * is recorded in `pending`.
 */
module CoreRoomHub {
  import opened Wrappers
  import opened Uuids
  import opened Peers
  import CoreRoomPlaylist

  /** Message type tags; the `iota` block skips the values 2 and 4. */
  type MsgType = int
  const MSG_DEBUG: MsgType := 0
  const MSG_EVENT_ROOM: MsgType := 1
  const MSG_EVENT_PLAYLIST: MsgType := 3
  const MSG_RESERVED: MsgType := 5

  /** `Message`, `RoomEventMessage`, `PlaylistEventMessage` and `DirectMessage`. */
  datatype Msg =
    | Message(MsgType: MsgType, UID: string, Username: string, Data: seq<bv8>)
    | RoomEventMessage(MsgType: MsgType, UID: string, Username: string, Event: string)
    | PlaylistEventMessage(MsgType: MsgType, UID: string, Username: string, ID: int)
    | DirectMessage(MsgType: MsgType, To: Uuid, Code: int, Task: int)

  /** A JSON frame as written to a client's send buffer. */
  datatype Frame = Frame(msg: Msg)

  type Member = Client<Frame>

  const NIL_DEREFERENCE := "invalid memory address or nil pointer dereference"
  const SEND_ON_CLOSED := "send on closed channel"

  /** The room event a hub sends about a member ("left", "host"). */
  function RoomEvent(format: Uuid -> string, c: Member, event: string): (m: Msg)
    ensures m.RoomEventMessage? && m.MsgType == MSG_EVENT_ROOM && m.Event == event
    ensures m.UID == format(c.ID) && m.Username == c.Name
  {
    RoomEventMessage(MSG_EVENT_ROOM, format(c.ID), c.Name, event)
  }

  /** The package's global maps. */
  class Registry {
    /** uid to client */
    var ClientMap: map<Uuid, Member>
    /** session token to uid */
    var TokenMap: map<Uuid, Uuid>
    /** room id to hub */
    var HubMap: map<Uuid, Hub>
    /** session token to the hub it created and nobody has joined yet */
    var NewHubs: map<Uuid, Hub>
    const format: Uuid -> string

    constructor (format: Uuid -> string)
      ensures ClientMap == map[] && TokenMap == map[] && HubMap == map[] && NewHubs == map[]
      ensures this.format == format
    {
      ClientMap, TokenMap, HubMap, NewHubs := map[], map[], map[], map[];
      this.format := format;
    }
  }

  class Hub {
    const ID: Uuid
    const Playlist: CoreRoomPlaylist.Playlist
    var Host: Client?<Frame>
    /** the members and their permissions */
    var Clients: map<Member, int>
    /** `Run` has returned and `Destroy` is closed */
    var destroyed: bool
    /** room events whose `RoomEvtMsg` goroutine has not yet run */
    var pending: seq<Msg>

    /** A room with members has a host, and every member's channel is open. */
    ghost predicate Valid()
      reads this, Clients.Keys
    {
      && (Host == null ==> Clients == map[])
      && forall c :: c in Clients ==> c.Open()
    }

    /** `CreateHub`: no host, no members, an empty playlist. */
    constructor (id: Uuid)
      ensures Valid() && ID == id && Host == null && Clients == map[] && !destroyed && pending == []
      ensures fresh(Playlist) && fresh(Playlist.nodeList) && Playlist.Valid() && Playlist.nodeList.elems == []
    {
      ID := id;
      Playlist := new CoreRoomPlaylist.Playlist();
      Host, Clients, destroyed, pending := null, map[], false, [];
    }

    /** The `Register` case: the client joins with its permission and becomes host when there is none. */
    method Register(c: Member)
      requires Valid() && !destroyed && c.Open()
      modifies this`Clients, this`Host
      ensures Valid() && Clients == old(Clients)[c := c.Permission]
      ensures Host == if old(Host) == null then c else old(Host)
    {
      Clients := Clients[c := c.Permission];
      if Host == null {
        Host := c;
      }
    }

    /**
     * The `Unregister` case: a member leaves the room and the global maps,
     * its channel is closed and its departure is announced. The last member
     * leaving ends `Run`; a departing host hands over to the member
     * `NextHost` finds, which panics when there is none.
     */
    method Unregister(c: Member, reg: Registry) returns (r: Step)
      requires Valid() && !destroyed && Playlist.Valid()
      modifies this`Clients, this`Host, this`pending, this`destroyed, c`closed
      modifies reg`ClientMap, reg`TokenMap, reg`HubMap, Playlist, Playlist.nodeList
      ensures Playlist.Valid()
      ensures c !in old(Clients) ==>
        && r == Done && Clients == old(Clients) && Host == old(Host) && pending == old(pending) && !destroyed
        && c.closed == old(c.closed) && reg.ClientMap == old(reg.ClientMap) && reg.TokenMap == old(reg.TokenMap)
        && reg.HubMap == old(reg.HubMap) && Playlist.nodeList.elems == old(Playlist.nodeList.elems)
      ensures c in old(Clients) ==>
        && Clients == old(Clients) - {c} && c.closed
        && reg.ClientMap == old(reg.ClientMap) - {c.ID} && reg.TokenMap == old(reg.TokenMap) - {c.Token}
      ensures c in old(Clients) && Clients == map[] ==>
        && r == Done && Host == old(Host) && pending == old(pending) + [RoomEvent(reg.format, c, "left")]
        && destroyed && reg.HubMap == old(reg.HubMap) - {ID} && Playlist.nodeList.elems == []
      ensures c in old(Clients) && Clients != map[] ==>
        && !destroyed && reg.HubMap == old(reg.HubMap) && Playlist.nodeList.elems == old(Playlist.nodeList.elems)
      ensures c in old(Clients) && Clients != map[] && old(Host).ID != c.ID ==>
        r == Done && Host == old(Host) && pending == old(pending) + [RoomEvent(reg.format, c, "left")]
      ensures c in old(Clients) && Clients != map[] && old(Host).ID == c.ID ==>
        (r.Panic? <==> forall d :: d in Clients && d.ID != c.ID ==> d.JoinUnixMilli >= MAX_INT64)
      ensures c in old(Clients) && Clients != map[] && old(Host).ID == c.ID && r == Done ==>
        && Host in Clients && Host.ID != c.ID
        && (forall d :: d in Clients && d.ID != c.ID ==> Host.JoinUnixMilli <= d.JoinUnixMilli)
        && pending == old(pending) + [RoomEvent(reg.format, c, "left"), RoomEvent(reg.format, Host, "host")]
      ensures r == Done ==> Valid()
    {
      if c !in Clients {
        return Done;
      }
      Leave(c, reg);
      if Clients == map[] {
        Finish(reg);
        return Done;
      }
      r := Done;
      if Host.ID == c.ID {
        r := HandOver(c.ID, reg);
      }
    }

    /** The clean-up of the `Unregister` case: the departure is announced, the member leaves the room and the global maps, its channel is closed. */
    method Leave(c: Member, reg: Registry)
      requires Valid() && c in Clients
      modifies this`Clients, this`pending, c`closed, reg`ClientMap, reg`TokenMap
      ensures Valid() && Host == old(Host)
      ensures Clients == old(Clients) - {c} && c.closed
      ensures reg.ClientMap == old(reg.ClientMap) - {c.ID} && reg.TokenMap == old(reg.TokenMap) - {c.Token}
      ensures pending == old(pending) + [RoomEvent(reg.format, c, "left")]
    {
      pending, Clients := pending + [RoomEvent(reg.format, c, "left")], Clients - {c};
      reg.ClientMap, reg.TokenMap := reg.ClientMap - {c.ID}, reg.TokenMap - {c.Token};
      c.closed := true;
    }

    /** The host transfer: `h.Host = h.NextHost()`, then the new host is announced. */
    method HandOver(left: Uuid, reg: Registry) returns (r: Step)
      requires Valid() && Clients != map[] && Host.ID == left
      modifies this`Host, this`pending
      ensures r.Panic? <==> forall d :: d in Clients && d.ID != left ==> d.JoinUnixMilli >= MAX_INT64
      ensures r.Panic? ==> r.reason == NIL_DEREFERENCE
      ensures r == Done ==>
        && Valid() && Host in Clients && Host.ID != left
        && (forall d :: d in Clients && d.ID != left ==> Host.JoinUnixMilli <= d.JoinUnixMilli)
        && pending == old(pending) + [RoomEvent(reg.format, Host, "host")]
    {
      Host := NextHost(Clients.Keys, Host.ID);
      if Host == null {
        return Panic(NIL_DEREFERENCE);
      }
      pending := pending + [RoomEvent(reg.format, Host, "host")];
      return Done;
    }

    /** The deferred cleanup of `Run`: `Destroy` is closed, the hub leaves `HubMap`, the playlist is cleared. */
    method Finish(reg: Registry)
      requires !destroyed && Playlist.Valid()
      modifies this`destroyed, reg`HubMap, Playlist, Playlist.nodeList
      ensures destroyed && reg.HubMap == old(reg.HubMap) - {ID}
      ensures Playlist.Valid() && Playlist.nodeList.elems == [] && Playlist.nodeMap == map[]
      ensures Playlist.tail == old(Playlist.tail)
    {
      destroyed := true;
      reg.HubMap := reg.HubMap - {ID};
      Playlist.Clear();
    }

    /** The `Destroy` case: `Run` returns. */
    method DestroyCase(reg: Registry)
      requires !destroyed && Playlist.Valid()
      modifies this`destroyed, reg`HubMap, Playlist, Playlist.nodeList
      ensures destroyed && reg.HubMap == old(reg.HubMap) - {ID}
      ensures Playlist.Valid() && Playlist.nodeList.elems == [] && Playlist.tail == old(Playlist.tail)
    {
      Finish(reg);
    }

    /**
     * `Timeout`, once the grace period has expired: the session's entry
     * leaves `NewHubs`, and a hub nobody joined is destroyed unless it
     * already is.
     */
    method Timeout(sid: Uuid, reg: Registry)
      requires Playlist.Valid()
      modifies reg`NewHubs, reg`HubMap, this`destroyed, Playlist, Playlist.nodeList
      ensures Playlist.Valid() && reg.NewHubs == old(reg.NewHubs) - {sid}
      ensures Clients == map[] && !old(destroyed) ==>
        destroyed && reg.HubMap == old(reg.HubMap) - {ID} && Playlist.nodeList.elems == []
      ensures Clients != map[] || old(destroyed) ==>
        destroyed == old(destroyed) && reg.HubMap == old(reg.HubMap) && Playlist.nodeList.elems == old(Playlist.nodeList.elems)
    {
      reg.NewHubs := reg.NewHubs - {sid};
      if Clients == map[] {
        if destroyed {
          return;
        }
        DestroyCase(reg);
      }
    }

    /**
     * The `broadcast`, `roomEvt` and `playlistEvt` cases: the frame goes to
     * every member, and a member whose channel is full is closed and leaves
     * the room. An encoding error is only logged.
     */
    method FanOutCase(m: Msg)
      requires Valid()
      modifies this`Clients, Clients.Keys
      ensures Valid() && Host == old(Host) && FannedOut(old(Clients), Clients, Frame(m), null)
    {
      Clients := FanOut(Clients, Frame(m), null);
    }

    /**
     * The `direct` case: a message without a receiver id is dropped; one
     * whose receiver is in the global client map is sent to it alone, and a
     * full channel is closed and its client leaves the room.
     */
    method DirectCase(m: Msg, reg: Registry) returns (r: Step)
      requires Valid() && m.DirectMessage?
      modifies this`Clients, reg.ClientMap.Values
      ensures m.To == NIL || m.To !in reg.ClientMap ==> r == Done && Clients == old(Clients) && unchanged(reg.ClientMap.Values)
      ensures m.To != NIL && m.To in reg.ClientMap ==> var to := reg.ClientMap[m.To];
        && unchanged(reg.ClientMap.Values - {to})
        && (old(to.closed) <==> r.Panic?)
        && (r.Panic? ==> r.reason == SEND_ON_CLOSED && Clients == old(Clients) && to.Send == old(to.Send))
        && (r == Done ==> Valid() && (to.Send, to.closed) == Fed(old(to.Send), Frame(m)))
        && (r == Done ==> Clients == if to.closed then old(Clients) - {to} else old(Clients))
    {
      if m.To == NIL {
        return Done;
      }
      r := Done;
      if m.To in reg.ClientMap {
        r := Unicast(reg.ClientMap[m.To], Frame(m));
      }
    }

    /** The non-blocking send of a frame to one client; a full channel is closed and its client leaves the room. */
    method Unicast(c: Member, f: Frame) returns (r: Step)
      requires Valid()
      modifies this`Clients, c
      ensures old(c.closed) <==> r.Panic?
      ensures r.Panic? ==> r.reason == SEND_ON_CLOSED && Clients == old(Clients) && c.Send == old(c.Send)
      ensures r == Done ==> (c.Send, c.closed) == Fed(old(c.Send), f)
      ensures r == Done ==> Clients == if c.closed then old(Clients) - {c} else old(Clients)
      ensures r == Done ==> Valid()
    {
      var d := c.Offer(f);
      if d == Panicked {
        return Panic(SEND_ON_CLOSED);
      }
      if d == Evicted {
        Clients := Clients - {c};
      }
      return Done;
    }

    /**
     * `BroadcastMsg`, `RoomEvtMsg` and `PlaylistMsg`: a room without
     * members, or one that is destroyed, ignores the message; otherwise
     * `Run` fans it out.
     */
    method FanOutMsg(m: Msg)
      requires Valid()
      modifies this`Clients, Clients.Keys
      ensures old(Clients) == map[] || destroyed ==> Clients == old(Clients) && unchanged(old(Clients).Keys)
      ensures old(Clients) != map[] && !destroyed ==>
        Valid() && Host == old(Host) && FannedOut(old(Clients), Clients, Frame(m), null)
    {
      if Clients != map[] && !destroyed {
        FanOutCase(m);
      }
    }

    /** `DirectMsg`: the same guard before the `direct` case. */
    method DirectMsg(m: Msg, reg: Registry) returns (r: Step)
      requires Valid() && m.DirectMessage?
      modifies this`Clients, reg.ClientMap.Values
      ensures old(Clients) == map[] || destroyed ==>
        r == Done && Clients == old(Clients) && unchanged(reg.ClientMap.Values)
      ensures old(Clients) != map[] && !destroyed && (m.To == NIL || m.To !in reg.ClientMap) ==>
        r == Done && Clients == old(Clients) && unchanged(reg.ClientMap.Values)
      ensures old(Clients) != map[] && !destroyed && m.To != NIL && m.To in reg.ClientMap ==> var to := reg.ClientMap[m.To];
        && unchanged(reg.ClientMap.Values - {to})
        && (old(to.closed) <==> r.Panic?)
        && (r == Done ==> Valid() && (to.Send, to.closed) == Fed(old(to.Send), Frame(m)))
        && (r == Done ==> Clients == if to.closed then old(Clients) - {to} else old(Clients))
    {
      r := Done;
      if Clients != map[] && !destroyed {
        r := DirectCase(m, reg);
      }
    }

    /** The scheduler picks one started `RoomEvtMsg` goroutine to run; the caller then runs `FanOutMsg` on it. */
    method TakePending(i: nat) returns (m: Msg)
      requires i < |pending|
      modifies this`pending
      ensures m == old(pending[i]) && pending == old(pending[..i] + pending[i + 1..])
    {
      m := pending[i];
      pending := pending[..i] + pending[i + 1..];
    }
  }
}
