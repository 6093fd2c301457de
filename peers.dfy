/**
 * The websocket clients of a room and the loops every hub version runs
 * over them: the non-blocking send of a frame to one client, the fan-out
 * to all members with slow-consumer eviction, and the search for the next
 * host. A client's send channel is a bounded buffer (`Send`) that can be
 * closed; the client's write loop, which drains it, is not part of this
 * model.
 */
module Peers {
  import opened Uuids

  /** Capacity of a client's send channel, as web/api/websocket_handler.go makes it. */
  const SEND_BUFFER: nat := 1024

  /** `math.MaxInt64`, the starting minimum of the host search. */
  const MAX_INT64: int := 0x7FFF_FFFF_FFFF_FFFF

  /** What the non-blocking send of one frame ends with. */
  datatype Delivery = Queued | Evicted | Panicked

  /** What serving one hub event ends with: done, or a Go panic that ends the process. */
  datatype Step = Done | Panic(reason: string)

  class Client<F> {
    const ID: Uuid
    const Token: Uuid
    const Name: string
    /** 1 guest, 3 trusted, 7 host */
    const Permission: int
    const JoinUnixMilli: int
    /** the frames waiting in the send channel, oldest first */
    var Send: seq<F>
    var closed: bool

    /** An open channel within its capacity: what every member of a hub has. */
    ghost predicate Open()
      reads this
    {
      !closed && |Send| <= SEND_BUFFER
    }

    constructor (id: Uuid, token: Uuid, name: string, permission: int, joined: int)
      ensures ID == id && Token == token && Name == name
      ensures Permission == permission && JoinUnixMilli == joined
      ensures Send == [] && !closed
    {
      ID, Token, Name, Permission, JoinUnixMilli := id, token, name, permission, joined;
      Send, closed := [], false;
    }

    /**
     * `select { case c.Send <- f: default: close(c.Send) }`: the frame is
     * queued when there is room, the channel is closed when it is full,
     * and a send on a closed channel panics.
     */
    method Offer(f: F) returns (r: Delivery)
      modifies this
      ensures old(closed) ==> r == Panicked && Send == old(Send) && closed
      ensures !old(closed) && |old(Send)| < SEND_BUFFER ==> r == Queued && Send == old(Send) + [f] && !closed
      ensures !old(closed) && |old(Send)| >= SEND_BUFFER ==> r == Evicted && Send == old(Send) && closed
    {
      if closed {
        return Panicked;
      }
      if |Send| < SEND_BUFFER {
        Send := Send + [f];
        return Queued;
      }
      closed := true;
      return Evicted;
    }

    /** `close(c.Send)` of an open channel; the frames already queued stay readable. */
    method Close()
      requires !closed
      modifies this`closed
      ensures closed
    {
      closed := true;
    }
  }

  /**
   * `NextHost`: over the members, skipping those with the current host's
   * id, the one with the smallest join time below `math.MaxInt64`; nil when
   * there is none. The members are visited in an order of the verifier's
   * choosing, as Go's map iteration is unordered.
   */
  method NextHost<F>(clients: set<Client<F>>, hostID: Uuid) returns (found: Client?<F>)
    ensures found != null ==> found in clients && found.ID != hostID && found.JoinUnixMilli < MAX_INT64
    ensures found != null ==> forall c :: c in clients && c.ID != hostID ==> found.JoinUnixMilli <= c.JoinUnixMilli
    ensures found == null <==> forall c :: c in clients && c.ID != hostID ==> c.JoinUnixMilli >= MAX_INT64
  {
    var min := MAX_INT64;
    found := null;
    var todo := clients;
    while todo != {}
      invariant todo <= clients
      invariant found == null ==> min == MAX_INT64
      invariant found != null ==> found in clients && found.ID != hostID && min == found.JoinUnixMilli < MAX_INT64
      invariant forall c :: c in clients - todo && c.ID != hostID ==> min <= c.JoinUnixMilli
      decreases |todo|
    {
      var c :| c in todo;
      todo := todo - {c};
      if c.ID == hostID {
        continue;
      }
      if c.JoinUnixMilli < min {
        min := c.JoinUnixMilli;
        found := c;
      }
    }
  }

  /** A member's channel after the fan-out offered it `f`: the frame appended, or the channel closed when full. */
  function Fed<F>(send: seq<F>, f: F): (after: (seq<F>, bool))
    ensures |send| < SEND_BUFFER ==> after == (send + [f], false)
    ensures |send| >= SEND_BUFFER ==> after == (send, true)
  {
    if |send| < SEND_BUFFER then (send + [f], false) else (send, true)
  }

  /**
   * What a fan-out of `f` over the members `before`, skipping `except`,
   * leaves behind: the members `after` are those that were skipped or had
   * room, still open; each of the others had its channel closed.
   */
  twostate predicate FannedOut<F>(before: map<Client<F>, int>, new after: map<Client<F>, int>, f: F, except: Client?<F>)
    reads before.Keys
  {
    && (forall c :: c in after ==> c in before && after[c] == before[c] && c.Open())
    && (forall c :: c in before ==> (c in after <==> c == except || |old(c.Send)| < SEND_BUFFER))
    && (forall c :: c in before ==>
         (c.Send, c.closed) == if c == except then (old(c.Send), false) else Fed(old(c.Send), f))
  }

  /**
   * The eviction loop `for client := range h.Clients { select { case
   * client.Send <- f: default: close(client.Send); delete(h.Clients,
   * client) } }`, skipping `except` (the sender of a peer message): every
   * other member with room gets the frame, every other member whose
   * channel is full has it closed and leaves the room.
   */
  method FanOut<F>(clients: map<Client<F>, int>, f: F, except: Client?<F>) returns (kept: map<Client<F>, int>)
    requires forall c :: c in clients ==> c.Open()
    modifies clients.Keys
    ensures FannedOut(clients, kept, f, except)
  {
    ghost var sent := map c | c in clients :: c.Send;
    kept := clients;
    var todo := clients.Keys;
    while todo != {}
      invariant todo <= clients.Keys
      invariant forall c :: c in kept ==> c in clients && kept[c] == clients[c]
      invariant forall c :: c in clients ==> (c in kept <==> c in todo || c == except || |sent[c]| < SEND_BUFFER)
      invariant forall c :: c in clients ==>
        (c.Send, c.closed) == if c in todo || c == except then (sent[c], false) else Fed(sent[c], f)
      decreases |todo|
    {
      var c :| c in todo;
      todo := todo - {c};
      if c == except {
        continue;
      }
      kept := Visit(kept, c, f);
    }
  }

  /** One turn of the fan-out loop: offer `f` to `c`, and drop `c` from the members when it is evicted. */
  method Visit<F>(kept: map<Client<F>, int>, c: Client<F>, f: F) returns (after: map<Client<F>, int>)
    requires !c.closed
    modifies c
    ensures (c.Send, c.closed) == Fed(old(c.Send), f)
    ensures after == if c.closed then kept - {c} else kept
  {
    var r := c.Offer(f);
    after := kept;
    if r == Evicted {
      after := kept - {c};
    }
  }
}
