/**
 * The messages routed by the room hub of the web server. Each Go message
 * struct is one variant of `WSMessage`; its getters are functions of the
 * message and of the global client map. `json.Marshal` is foreign: a frame
 * is the message it encodes, and encoding fails only on the nil-`To` check.
 */
module WebMessages {
  import opened Wrappers
  import opened Uuids

  /** Message type tags, numbered from 0 as the Go `iota` block does. */
  type MsgType = int
  const MSG_DEBUG: MsgType := 0
  const MSG_EVENT_ROOM: MsgType := 1
  const MSG_EVENT_PEER: MsgType := 2
  const MSG_EVENT_PLAYLIST: MsgType := 3
  const MSG_EVENT_PLAYER: MsgType := 4
  const MSG_RESERVED: MsgType := 5

  /** The data carried by a message: room events, task and player statuses, peer signals. */
  datatype Payload =
    | Event(name: string)
    | Info(ID: int, Cmd: string, MovedTo: int)
    | Bytes(bytes: seq<bv8>)
    | TaskStatus(code: int, task: int)
    | MPStatus(NextID: int, OK: bool)
    | Signal(text: string)

  /** `BroadcastMessage`, `DirectMessage`, `PeerMessage` and `PeerDirectMessage`. */
  datatype WSMessage =
    | Broadcast(MsgType: MsgType, UID: string, Username: string, Data: Payload)
    | Direct(MsgType: MsgType, To: Uuid, Data: Payload)
    | Peer(MsgType: MsgType, UID: string, Username: string, Data: Payload)
    | PeerDirect(MsgType: MsgType, UID: string, Username: string, PeerTo: string, Data: Payload)

  /** A JSON frame as written to a client's send buffer. */
  datatype Frame = Frame(msg: WSMessage)

  /** A textual identifier resolves when it is not the nil text and parses to a key of the client map. */
  ghost predicate Resolves<C>(text: string, clients: map<Uuid, C>, parse: string -> Option<Uuid>) {
    text != NIL_TEXT && parse(text).Some? && parse(text).value in clients
  }

  /** The client a resolving textual identifier names. */
  ghost predicate Names<C>(text: string, clients: map<Uuid, C>, parse: string -> Option<Uuid>, c: C) {
    Resolves(text, clients, parse) && clients[parse(text).value] == c
  }

  /** Resolution of a textual identifier against the client map, shared by senders and peer receivers. */
  function Lookup<C>(text: string, clients: map<Uuid, C>, parse: string -> Option<Uuid>): (r: Option<C>)
    ensures r.Some? ==> Names(text, clients, parse, r.value)
    ensures r.Some? <==> Resolves(text, clients, parse)
  {
    if text != NIL_TEXT then
      match parse(text)
      case None => None
      case Some(uid) => if uid in clients then Some(clients[uid]) else None
    else None
  }

  /** `Json()`: only a direct message without a receiver identifier fails to encode. */
  function Json(m: WSMessage): (r: Result<Frame, string>)
    ensures r.Failure? <==> m.Direct? && m.To == NIL
    ensures r.Success? ==> r.value.msg == m
  {
    match m
    case Direct(_, to, _) =>
      if to == NIL then Failure("uid is not set in direct message") else Success(Frame(m))
    case _ => Success(Frame(m))
  }

  /** `Sender()`: the client named by `UID`; a direct message has none. */
  function Sender<C(==)>(m: WSMessage, clients: map<Uuid, C>, parse: string -> Option<Uuid>): (r: Option<C>)
    ensures m.Direct? ==> r.None?
    ensures !m.Direct? ==> (r.Some? <==> Resolves(m.UID, clients, parse))
    ensures r.Some? ==> !m.Direct? && Names(m.UID, clients, parse, r.value) && r.value in clients.Values
  {
    match m
    case Broadcast(_, uid, _, _) => Lookup(uid, clients, parse)
    case Direct(_, _, _) => None
    case Peer(_, uid, _, _) => Lookup(uid, clients, parse)
    case PeerDirect(_, uid, _, _, _) => Lookup(uid, clients, parse)
  }

  /**
   * `Reciever()`: a direct message's `To` looked up in the global client
   * map (not in the room), a peer-direct message's `To` resolved like a
   * sender; broadcast and peer messages have none.
   */
  function Reciever<C(==)>(m: WSMessage, clients: map<Uuid, C>, parse: string -> Option<Uuid>): (r: Option<C>)
    ensures m.Broadcast? || m.Peer? ==> r.None?
    ensures m.Direct? ==> (r.Some? <==> m.To in clients) && (r.Some? ==> r.value == clients[m.To])
    ensures m.PeerDirect? ==> (r.Some? <==> Resolves(m.PeerTo, clients, parse))
    ensures m.PeerDirect? && r.Some? ==> Names(m.PeerTo, clients, parse, r.value)
    ensures r.Some? ==> r.value in clients.Values
  {
    match m
    case Broadcast(_, _, _, _) => None
    case Direct(_, to, _) => if to in clients then Some(clients[to]) else None
    case Peer(_, _, _, _) => None
    case PeerDirect(_, _, _, to, _) => Lookup(to, clients, parse)
  }

  /** `DebugMode()`: the same test in every variant. */
  function DebugMode(m: WSMessage): (r: bool)
    ensures r <==> m.MsgType == MSG_DEBUG
  {
    match m
    case Broadcast(t, _, _, _) => t == MSG_DEBUG
    case Direct(t, _, _) => t == MSG_DEBUG
    case Peer(t, _, _, _) => t == MSG_DEBUG
    case PeerDirect(t, _, _, _, _) => t == MSG_DEBUG
  }
}

/**
 * The messages of the earlier room package: broadcasts and direct messages
 * only, with a single `Client()` getter that resolves the receiver.
 */
module LegacyMessages {
  import opened Wrappers
  import opened Uuids

  /** Message type tags; the `iota` block skips the value 2. */
  type MsgType = int
  const MSG_DEBUG: MsgType := 0
  const MSG_EVENT_ROOM: MsgType := 1
  const MSG_EVENT_PLAYLIST: MsgType := 3
  const MSG_EVENT_PLAYER: MsgType := 4
  const MSG_RESERVED: MsgType := 5

  datatype Payload =
    | Event(name: string)
    | Info(ID: int, Cmd: string, MovedTo: int)
    | Bytes(bytes: seq<bv8>)
    | TaskStatus(code: int, task: int)
    | MPStatus(NextID: int, OK: bool)

  datatype WSMessage =
    | Broadcast(MsgType: MsgType, UID: string, Username: string, Data: Payload)
    | Direct(MsgType: MsgType, To: Uuid, Data: Payload)

  datatype Frame = Frame(msg: WSMessage)

  /** `Json()`: fails exactly for a direct message whose `To` is the nil identifier. */
  function Json(m: WSMessage): (r: Result<Frame, string>)
    ensures r.Failure? <==> m.Direct? && m.To == NIL
    ensures r.Success? ==> r.value.msg == m
  {
    match m
    case Broadcast(_, _, _, _) => Success(Frame(m))
    case Direct(_, to, _) =>
      if to == NIL then Failure("uid is not set in direct message") else Success(Frame(m))
  }

  /** `Client()`: none for a broadcast; the client map's entry for `To` when present. */
  function Client<C>(m: WSMessage, clients: map<Uuid, C>): (r: Option<C>)
    ensures m.Broadcast? ==> r.None?
    ensures m.Direct? ==> (r.Some? <==> m.To in clients)
    ensures r.Some? ==> m.Direct? && r.value == clients[m.To]
  {
    match m
    case Broadcast(_, _, _, _) => None
    case Direct(_, to, _) => if to in clients then Some(clients[to]) else None
  }

  /** `DebugMode()` of either variant. */
  function DebugMode(m: WSMessage): (r: bool)
    ensures r <==> m.MsgType == MSG_DEBUG
  {
    match m
    case Broadcast(t, _, _, _) => t == MSG_DEBUG
    case Direct(t, _, _) => t == MSG_DEBUG
  }
}
