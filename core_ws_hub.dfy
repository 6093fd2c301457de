/**
 * The websocket hub of the earliest server, core/corewebsocket/hub.go. Its
 * `Run` loop handles every event inline; each `select` case is a method
 * here. The last member leaving ends `Run`, whose deferred cleanup closes
 * `Destroy`, drops the hub from `HubMap` and clears the playlist.
 * `go h.BroadcastMsg(...)` is recorded in `pending`.
 */
module CoreWebsocketHub {
  import opened Wrappers
  import opened Uuids
  import opened Peers
  import CorePlaylist

  /** `Message`; `Data` is the text the hub itself sends ("left", "host"). */
  datatype Message = Message(MsgType: int, From: Uuid, To: Uuid, UID: string, Username: string, Data: string)

  /** A JSON frame as written to a client's send buffer. */
  datatype Frame = Frame(msg: Message)

  type Member = Client<Frame>

  const NIL_DEREFERENCE := "invalid memory address or nil pointer dereference"

  /** The room event a hub broadcasts about a member ("left", "host"): type 1, sender fields left nil. */
  function RoomEvent(format: Uuid -> string, c: Member, event: string): (m: Message)
    ensures m.MsgType == 1 && m.From == NIL && m.To == NIL && m.Data == event
    ensures m.UID == format(c.ID) && m.Username == c.Name
  {
    Message(1, NIL, NIL, format(c.ID), c.Name, event)
  }

  /** The package's global maps. */
  class Registry {
    /** uid to client */
    var ClientMap: map<Uuid, Member>
    /** session token to uid */
    var TokenMap: map<Uuid, Uuid>
    /** room id to hub */
    var HubMap: map<Uuid, Hub>
    /** session token to the hub it created and nobody has joined yet */
    var NewHubs: map<Uuid, Hub>
    const format: Uuid -> string

    constructor (format: Uuid -> string)
      ensures ClientMap == map[] && TokenMap == map[] && HubMap == map[] && NewHubs == map[]
      ensures this.format == format
    {
      ClientMap, TokenMap, HubMap, NewHubs := map[], map[], map[], map[];
      this.format := format;
    }
  }

  class Hub {
    const ID: Uuid
    const Playlist: CorePlaylist.Playlist
    var Host: Client?<Frame>
    /** the members and their permissions */
    var Clients: map<Member, int>
    /** `Run` has returned and `Destroy` is closed */
    var destroyed: bool
    /** messages whose `BroadcastMsg` goroutine has not yet run */
    var pending: seq<Message>

    /** A room with members has a host, and every member's channel is open. */
    ghost predicate Valid()
      reads this, Clients.Keys
    {
      && (Host == null ==> Clients == map[])
      && forall c :: c in Clients ==> c.Open()
    }

    /** `CreateHub`: no host, no members, an empty playlist. */
    constructor (id: Uuid)
      ensures Valid() && ID == id && Host == null && Clients == map[] && !destroyed && pending == []
      ensures fresh(Playlist) && fresh(Playlist.nodeList) && Playlist.Valid() && Playlist.nodeList.elems == []
    {
      ID := id;
      Playlist := new CorePlaylist.Playlist();
      Host, Clients, destroyed, pending := null, map[], false, [];
    }

    /** The `Register` case: the client joins with its permission and becomes host when there is none. */
    method Register(c: Member)
      requires Valid() && !destroyed && c.Open()
      modifies this`Clients, this`Host
      ensures Valid() && Clients == old(Clients)[c := c.Permission]
      ensures Host == if old(Host) == null then c else old(Host)
    {
      Clients := Clients[c := c.Permission];
      if Host == null {
        Host := c;
      }
    }

    /**
     * The `Unregister` case: a member leaves the room and the global maps,
     * its channel is closed and its departure is broadcast. The last member
     * leaving ends `Run`; a departing host hands over to the member
     * `NextHost` finds, which panics when there is none.
     */
    method Unregister(c: Member, reg: Registry) returns (r: Step)
      requires Valid() && !destroyed && Playlist.Valid()
      modifies this`Clients, this`Host, this`pending, this`destroyed, c`closed
      modifies reg`ClientMap, reg`TokenMap, reg`HubMap, Playlist, Playlist.nodeList
      ensures Playlist.Valid()
      ensures c !in old(Clients) ==>
        && r == Done && Clients == old(Clients) && Host == old(Host) && pending == old(pending) && !destroyed
        && c.closed == old(c.closed) && reg.ClientMap == old(reg.ClientMap) && reg.TokenMap == old(reg.TokenMap)
        && reg.HubMap == old(reg.HubMap) && Playlist.nodeList.elems == old(Playlist.nodeList.elems)
      ensures c in old(Clients) ==>
        && Clients == old(Clients) - {c} && c.closed
        && reg.ClientMap == old(reg.ClientMap) - {c.ID} && reg.TokenMap == old(reg.TokenMap) - {c.Token}
      ensures c in old(Clients) && Clients == map[] ==>
        && r == Done && Host == old(Host) && pending == old(pending) + [RoomEvent(reg.format, c, "left")]
        && destroyed && reg.HubMap == old(reg.HubMap) - {ID} && Playlist.nodeList.elems == []
      ensures c in old(Clients) && Clients != map[] ==>
        && !destroyed && reg.HubMap == old(reg.HubMap) && Playlist.nodeList.elems == old(Playlist.nodeList.elems)
      ensures c in old(Clients) && Clients != map[] && old(Host).ID != c.ID ==>
        r == Done && Host == old(Host) && pending == old(pending) + [RoomEvent(reg.format, c, "left")]
      ensures c in old(Clients) && Clients != map[] && old(Host).ID == c.ID ==>
        (r.Panic? <==> forall d :: d in Clients && d.ID != c.ID ==> d.JoinUnixMilli >= MAX_INT64)
      ensures c in old(Clients) && Clients != map[] && old(Host).ID == c.ID && r == Done ==>
        && Host in Clients && Host.ID != c.ID
        && (forall d :: d in Clients && d.ID != c.ID ==> Host.JoinUnixMilli <= d.JoinUnixMilli)
        && pending == old(pending) + [RoomEvent(reg.format, c, "left"), RoomEvent(reg.format, Host, "host")]
      ensures r == Done ==> Valid()
    {
      if c !in Clients {
        return Done;
      }
      Leave(c, reg);
      if Clients == map[] {
        Finish(reg);
        return Done;
      }
      r := Done;
      if Host.ID == c.ID {
        r := HandOver(c.ID, reg);
      }
    }

    /** The clean-up of the `Unregister` case: the departure is announced, the member leaves the room and the global maps, its channel is closed. */
    method Leave(c: Member, reg: Registry)
      requires Valid() && c in Clients
      modifies this`Clients, this`pending, c`closed, reg`ClientMap, reg`TokenMap
      ensures Valid() && Host == old(Host)
      ensures Clients == old(Clients) - {c} && c.closed
      ensures reg.ClientMap == old(reg.ClientMap) - {c.ID} && reg.TokenMap == old(reg.TokenMap) - {c.Token}
      ensures pending == old(pending) + [RoomEvent(reg.format, c, "left")]
    {
      pending, Clients := pending + [RoomEvent(reg.format, c, "left")], Clients - {c};
      reg.ClientMap, reg.TokenMap := reg.ClientMap - {c.ID}, reg.TokenMap - {c.Token};
      c.closed := true;
    }

    /** The host transfer: `h.Host = h.NextHost()`, then the new host is announced. */
    method HandOver(left: Uuid, reg: Registry) returns (r: Step)
      requires Valid() && Clients != map[] && Host.ID == left
      modifies this`Host, this`pending
      ensures r.Panic? <==> forall d :: d in Clients && d.ID != left ==> d.JoinUnixMilli >= MAX_INT64
      ensures r.Panic? ==> r.reason == NIL_DEREFERENCE
      ensures r == Done ==>
        && Valid() && Host in Clients && Host.ID != left
        && (forall d :: d in Clients && d.ID != left ==> Host.JoinUnixMilli <= d.JoinUnixMilli)
        && pending == old(pending) + [RoomEvent(reg.format, Host, "host")]
    {
      Host := NextHost(Clients.Keys, Host.ID);
      if Host == null {
        return Panic(NIL_DEREFERENCE);
      }
      pending := pending + [RoomEvent(reg.format, Host, "host")];
      return Done;
    }

    /** The deferred cleanup of `Run`: `Destroy` is closed, the hub leaves `HubMap`, the playlist is cleared. */
    method Finish(reg: Registry)
      requires !destroyed && Playlist.Valid()
      modifies this`destroyed, reg`HubMap, Playlist, Playlist.nodeList
      ensures destroyed && reg.HubMap == old(reg.HubMap) - {ID}
      ensures Playlist.Valid() && Playlist.nodeList.elems == [] && Playlist.nodeMap == map[]
      ensures Playlist.tail == old(Playlist.tail)
    {
      destroyed := true;
      reg.HubMap := reg.HubMap - {ID};
      Playlist.Clear();
    }

    /** The `Destroy` case: `Run` returns. */
    method DestroyCase(reg: Registry)
      requires !destroyed && Playlist.Valid()
      modifies this`destroyed, reg`HubMap, Playlist, Playlist.nodeList
      ensures destroyed && reg.HubMap == old(reg.HubMap) - {ID}
      ensures Playlist.Valid() && Playlist.nodeList.elems == [] && Playlist.tail == old(Playlist.tail)
    {
      Finish(reg);
    }

    /**
     * `Timeout`, once the grace period has expired: the session's entry
     * leaves `NewHubs`, and a hub nobody joined is destroyed unless it
     * already is.
     */
    method Timeout(sid: Uuid, reg: Registry)
      requires Playlist.Valid()
      modifies reg`NewHubs, reg`HubMap, this`destroyed, Playlist, Playlist.nodeList
      ensures Playlist.Valid() && reg.NewHubs == old(reg.NewHubs) - {sid}
      ensures Clients == map[] && !old(destroyed) ==>
        destroyed && reg.HubMap == old(reg.HubMap) - {ID} && Playlist.nodeList.elems == []
      ensures Clients != map[] || old(destroyed) ==>
        destroyed == old(destroyed) && reg.HubMap == old(reg.HubMap) && Playlist.nodeList.elems == old(Playlist.nodeList.elems)
    {
      reg.NewHubs := reg.NewHubs - {sid};
      if Clients == map[] {
        if destroyed {
          return;
        }
        DestroyCase(reg);
      }
    }

    /**
     * The `AddSong` case: the node is enqueued and the request is answered
     * with the playlist's error, or nil (`None`) on success.
     */
    method AddSong(node: CorePlaylist.MusicNode) returns (response: Option<string>)
      requires Playlist.Valid()
      modifies Playlist, Playlist.nodeList
      ensures Playlist.Valid()
      ensures old(|Playlist.nodeList.elems|) >= CorePlaylist.LIST_MAX_SIZE ==>
        && response == Some("enqueue err: playlist reached max size")
        && Playlist.nodeList.elems == old(Playlist.nodeList.elems) && Playlist.tail == old(Playlist.tail)
      ensures old(|Playlist.nodeList.elems|) < CorePlaylist.LIST_MAX_SIZE ==>
        && response.None? && Playlist.tail == old(Playlist.tail) + 1
        && Playlist.Ids() == old(Playlist.Ids()) + [old(Playlist.tail)]
        && Playlist.nodeList.elems[|Playlist.nodeList.elems| - 1].Value == node.(NodeID := old(Playlist.tail))
    {
      var r := Playlist.Enqueue(node);
      response := if r.Fail? then Some(r.error) else None;
    }

    /**
     * The `broadcast` case: the frame goes to every member, and a member
     * whose channel is full is closed and leaves the room. An encoding
     * error is only logged.
     */
    method BroadcastCase(m: Message)
      requires Valid()
      modifies this`Clients, Clients.Keys
      ensures Valid() && Host == old(Host) && FannedOut(old(Clients), Clients, Frame(m), null)
    {
      Clients := FanOut(Clients, Frame(m), null);
    }

    /**
     * `BroadcastMsg`: a room without members, or one that is destroyed,
     * ignores the message; otherwise `Run` broadcasts it.
     */
    method BroadcastMsg(m: Message)
      requires Valid()
      modifies this`Clients, Clients.Keys
      ensures old(Clients) == map[] || destroyed ==> Clients == old(Clients) && unchanged(old(Clients).Keys)
      ensures old(Clients) != map[] && !destroyed ==>
        Valid() && Host == old(Host) && FannedOut(old(Clients), Clients, Frame(m), null)
    {
      if Clients != map[] && !destroyed {
        BroadcastCase(m);
      }
    }

    /** The scheduler picks one started `BroadcastMsg` goroutine to run; the caller then runs `BroadcastMsg` on it. */
    method TakePending(i: nat) returns (m: Message)
      requires i < |pending|
      modifies this`pending
      ensures m == old(pending[i]) && pending == old(pending[..i] + pending[i + 1..])
    {
      m := pending[i];
      pending := pending[..i] + pending[i + 1..];
    }
  }
}
