/**
 * The music player of a room, web/internal/room/music_player.go.
 *
 * The player owns a playlist, the entry being played (`CurNode`) and a
 * reader over that entry's audio. The `Run` loop serves one event at a
 * time; each case is a method here. Fetching audio is foreign (a task
 * submitted to the extractor pool, answered on channels or by a timeout):
 * `download` takes its outcome as a parameter. The direct messages the
 * player passes to its hub's `DirectMsg` are recorded in `sent`; the host's
 * identifier they are addressed to is a parameter.
 */
module WebPlayer {
  import opened Wrappers
  import opened Seqs
  import opened Uuids
  import opened LinkedList
  import opened WebPlaylist
  import opened WebMessages

  /** What the audio request ends with: refused by the pool, timed out, failed, or the audio bytes. */
  datatype FetchOutcome = Rejected | TimedOut | Failed | Fetched(bytes: seq<bv8>)

  /** A copy of a `MusicInfo`, as `MusicInfoList` returns it. */
  datatype MusicInfoValue = MusicInfoValue(ID: int, URL: string, AudioByte: seq<bv8>)

  function ValueOf(e: MusicInfo): (v: MusicInfoValue)
    reads e
    ensures v.ID == e.ID && v.URL == e.URL && v.AudioByte == e.AudioByte
  {
    MusicInfoValue(e.ID, e.URL, e.AudioByte)
  }

  /** Copies of the entries, in order. */
  ghost function Copies(es: seq<MusicInfo?>): (vs: seq<MusicInfoValue>)
    requires NonNull(es)
    reads set k | 0 <= k < |es| :: es[k]
    ensures |vs| == |es|
    ensures forall k {:trigger vs[k]} :: 0 <= k < |es| ==> vs[k] == ValueOf(es[k])
  {
    if es == [] then [] else [ValueOf(es[0])] + Copies(es[1..])
  }

  /**
   * The status a successful download reports to the host: it tells which
   * entry is ready, is not a debug message, and fails to encode exactly
   * when the host's identifier is the nil UUID.
   */
  function Notice(host: Uuid, node: MusicInfo): (m: WSMessage)
    reads node
    ensures Json(m).Success? <==> host != NIL
    ensures !DebugMode(m) && m.Data == MPStatus(node.ID, true)
    ensures m.Direct? && m.To == host
  {
    Direct(MSG_EVENT_PLAYER, host, MPStatus(node.ID, true))
  }

  class MusicPlayer {
    const Playlist: Playlist
    var CurNode: MusicInfo?
    /** `AudioReader`: a reader over the bytes it was made from, or nil. */
    var AudioReader: Option<seq<bv8>>
    /** the messages passed to the hub's `DirectMsg`, in order */
    var sent: seq<WSMessage>

    ghost predicate Valid()
      reads this, Playlist, Playlist.list, Playlist.Repr()
    {
      Playlist.Valid() && this !in Playlist.Repr()
    }

    /** The entries waiting in the playlist. */
    ghost function Queue(): seq<MusicInfo?>
      requires Valid()
      reads this, Playlist, Playlist.list, Playlist.Repr()
    {
      Playlist.Entries()
    }

    /** `CreateMusicPlayer`: nothing playing, no reader, an empty playlist. */
    constructor ()
      ensures Valid() && fresh(Playlist.Repr())
      ensures CurNode == null && AudioReader == None && Queue() == [] && sent == []
      ensures Playlist.Unique()
    {
      Playlist := new WebPlaylist.Playlist();
      CurNode := null;
      AudioReader := None;
      sent := [];
    }

    /** `NewAudioReader`: a reader over the current entry's audio, nil when nothing is playing. */
    function NewAudioReader(): (r: Option<seq<bv8>>)
      reads this, CurNode
      ensures r.Some? <==> CurNode != null
      ensures r.Some? ==> r.value == CurNode.AudioByte
    {
      if CurNode != null then Some(CurNode.AudioByte) else None
    }

    /**
     * `download`: nothing for a nil node or a failed request; on success
     * the audio is stored in the node and the host is told its id is ready.
     */
    method Download(node: MusicInfo?, host: Uuid, outcome: FetchOutcome)
      modifies this`sent, node
      ensures node == null || !outcome.Fetched? ==> sent == old(sent) && (node != null ==> node.AudioByte == old(node.AudioByte))
      ensures node != null ==> node.ID == old(node.ID) && node.URL == old(node.URL)
      ensures node != null && outcome.Fetched? ==>
        node.AudioByte == outcome.bytes && sent == old(sent) + [Notice(host, node)]
    {
      if node == null {
        return;
      }
      match outcome
      case Fetched(bytes) =>
        node.AudioByte := bytes;
        sent := sent + [Notice(host, node)];
      case _ =>
    }

    /**
     * `next`: the head of the playlist becomes the current entry and the
     * reader is made over its audio; an empty playlist changes nothing.
     */
    method Next()
      requires Valid()
      modifies this`CurNode, this`AudioReader, Playlist.Repr()
      ensures Valid() && Playlist.Repr() <= old(Playlist.Repr())
      ensures old(Queue()) == [] ==>
        Queue() == [] && CurNode == old(CurNode) && AudioReader == old(AudioReader)
      ensures old(Queue()) != [] ==>
        && CurNode == old(Queue())[0] && Queue() == old(Queue())[1..]
        && AudioReader == Some(CurNode.AudioByte)
      ensures old(Playlist.Unique()) ==> Playlist.Unique()
    {
      var r := Playlist.Dequeue();
      if r.Failure? {
        return;
      }
      ghost var es, ids := Playlist.Entries(), Playlist.Ids();
      CurNode, AudioReader := r.value, Some(r.value.AudioByte);
      assert Playlist.Valid();
      assert Playlist.Entries() == es;
      assert Playlist.Ids() == ids by {
        forall k | 0 <= k < |ids| ensures Playlist.Ids()[k] == ids[k] {
        }
      }
    }

    /**
     * The AddedSong event, `lazyInit`: with nothing playing and a head
     * that has no audio, the head is downloaded and then promoted, whatever
     * the download ends with. An entry already playing, an empty playlist
     * or a head that already has audio leave the player as it is.
     */
    method LazyInit(host: Uuid, outcome: FetchOutcome)
      requires Valid()
      modifies this`CurNode, this`AudioReader, this`sent, Playlist.Repr(), Playlist.Head()
      ensures Valid() && Playlist.Repr() <= old(Playlist.Repr())
      ensures old(CurNode) != null || old(Queue()) == [] || |old(Queue()[0].AudioByte)| > 0 ==>
        && CurNode == old(CurNode) && AudioReader == old(AudioReader) && sent == old(sent)
        && Queue() == old(Queue()) && Playlist.Ids() == old(Playlist.Ids())
      ensures old(CurNode) == null && old(Queue()) != [] && |old(Queue()[0].AudioByte)| == 0 ==>
        && CurNode == old(Queue())[0] && Queue() == old(Queue())[1..]
        && CurNode.ID == old(Queue()[0].ID) && AudioReader == Some(CurNode.AudioByte)
        && (outcome.Fetched? ==> CurNode.AudioByte == outcome.bytes && sent == old(sent) + [Notice(host, CurNode)])
        && (!outcome.Fetched? ==> CurNode.AudioByte == [] && sent == old(sent))
      ensures old(Playlist.Unique()) ==> Playlist.Unique()
    {
      if CurNode != null {
        return;
      }
      var node := Playlist.Head();
      if node == null {
        return;
      }
      if |node.AudioByte| == 0 {
        Promote(node, host, outcome);
      }
      // The wait-group branch that follows is never taken: its counter always reads 0.
    }

    /** The download-then-`next` step of `lazyInit`, on the head `node`. */
    method Promote(node: MusicInfo, host: Uuid, outcome: FetchOutcome)
      requires Valid() && Queue() != [] && node == Queue()[0]
      modifies this`CurNode, this`AudioReader, this`sent, Playlist.Repr(), node
      ensures Valid() && Playlist.Repr() <= old(Playlist.Repr())
      ensures CurNode == node && Queue() == old(Queue())[1..]
      ensures node.ID == old(node.ID) && AudioReader == Some(node.AudioByte)
      ensures outcome.Fetched? ==> node.AudioByte == outcome.bytes && sent == old(sent) + [Notice(host, node)]
      ensures !outcome.Fetched? ==> node.AudioByte == old(node.AudioByte) && sent == old(sent)
      ensures old(Playlist.Unique()) ==> Playlist.Unique()
    {
      ghost var es, ids := Queue(), Playlist.Ids();
      Playlist.NoEntryInRepr();
      Download(node, host, outcome);
      assert Queue() == es;
      assert Playlist.Ids() == ids by {
        forall k | 0 <= k < |ids| ensures Playlist.Ids()[k] == ids[k] {
        }
      }
      Next();
    }

    /** The NextSong event: stop the current entry, then promote the head if there is one. */
    method NextSong()
      requires Valid()
      modifies this`CurNode, this`AudioReader, Playlist.Repr()
      ensures Valid() && Playlist.Repr() <= old(Playlist.Repr())
      ensures old(Queue()) == [] ==> CurNode == null && AudioReader == None && Queue() == []
      ensures old(Queue()) != [] ==>
        && CurNode == old(Queue())[0] && Queue() == old(Queue())[1..]
        && AudioReader == Some(CurNode.AudioByte)
      ensures old(Playlist.Unique()) ==> Playlist.Unique()
    {
      ghost var es, ids := Queue(), Playlist.Ids();
      CurNode, AudioReader := null, None;
      assert Queue() == es;
      assert Playlist.Ids() == ids by {
        forall k | 0 <= k < |ids| ensures Playlist.Ids()[k] == ids[k] {
        }
      }
      if Playlist.Size() > 0 {
        Next();
      }
    }

    /** The Preload event: download the head's audio, if there is a head. */
    method Preload(host: Uuid, outcome: FetchOutcome)
      requires Valid()
      modifies this`sent, Playlist.Head()
      ensures Valid() && Queue() == old(Queue()) && Playlist.Ids() == old(Playlist.Ids())
      ensures old(Queue()) == [] || !outcome.Fetched? ==> sent == old(sent)
      ensures old(Queue()) != [] && outcome.Fetched? ==>
        Queue()[0].AudioByte == outcome.bytes && sent == old(sent) + [Notice(host, Queue()[0])]
      ensures old(Queue()) != [] && !outcome.Fetched? ==> Queue()[0].AudioByte == old(Queue()[0].AudioByte)
    {
      if Playlist.Size() > 0 {
        var node := Playlist.Head();
        ghost var es, ids := Queue(), Playlist.Ids();
        Playlist.NoEntryInRepr();
        Download(node, host, outcome);
        assert Queue() == es;
        assert Playlist.Ids() == ids by {
          forall k | 0 <= k < |ids| ensures Playlist.Ids()[k] == ids[k] {
          }
        }
      }
    }

    /** What `Run` does as it returns: the playlist is cleared. */
    method Stop()
      requires Valid()
      modifies Playlist.Repr()
      ensures Valid() && Playlist.Repr() <= old(Playlist.Repr()) && Queue() == [] && Playlist.Unique()
    {
      Playlist.Clear();
    }

    /**
     * `MusicInfoList`: copies of the current entry, if any, followed by the
     * waiting entries from head to tail.
     */
    method MusicInfoList() returns (ret: seq<MusicInfoValue>)
      requires Valid()
      ensures ret == (if CurNode == null then [] else [ValueOf(CurNode)]) + Copies(Queue())
    {
      ret := [];
      if CurNode != null {
        ret := ret + [ValueOf(CurNode)];
      }
      var rest := EntryCopies(Playlist);
      ret := ret + rest;
    }
  }

  /** The walk of `MusicInfoList` over the playlist's list, from its head. */
  method EntryCopies(p: Playlist) returns (vs: seq<MusicInfoValue>)
    requires p.Valid()
    ensures vs == Copies(p.Entries())
  {
    ghost var ns, es := p.list.Nodes, p.Entries();
    ghost var all := Copies(es);
    vs := [];
    var n := p.list.Head();
    ghost var k := 0;
    while n != null
      invariant 0 <= k <= |ns|
      invariant n == (if k < |ns| then ns[k] else null)
      invariant vs == all[..k]
      decreases |ns| - k
    {
      var info := n.Val();
      assert info == es[k];
      vs := vs + [ValueOf(info)];
      assert all[..k + 1] == all[..k] + [all[k]];
      IndexOfDistinct(ns, k);
      n := n.Next();
      k := k + 1;
    }
    assert all[..k] == all;
  }
}
