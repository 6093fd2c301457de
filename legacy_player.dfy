/**
 * The music player of the older room package, internal/room/music_player.go.
 *
 * It behaves as the newer player without the wait-group counter and
 * without `MusicInfoList`; its AddedSong event calls `checkState`, its
 * direct messages are those of internal/room/message.go, and its `String`
 * reports whether the head has been prefetched. The package's own
 * playlist file is not part of this model: the player runs on the newer
 * playlist, whose operations it uses (`Head`, `Size`, `Dequeue`, `Clear`).
 */
module LegacyPlayer {
  import opened Wrappers
  import opened Uuids
  import opened LinkedList
  import opened WebPlaylist
  import opened LegacyMessages
  import WebPlayer

  /**
   * The status a successful download reports to the host: it tells which
   * entry is ready, is not a debug message, and fails to encode exactly
   * when the host's identifier is the nil UUID. It repeats `WebPlayer.Notice`
   * on purpose: the older package builds its own message type.
   */
  function Notice(host: Uuid, node: MusicInfo): (m: WSMessage)
    reads node
    ensures Json(m).Success? <==> host != NIL
    ensures !DebugMode(m) && m.Data == MPStatus(node.ID, true)
    ensures m.Direct? && m.To == host
  {
    Direct(MSG_EVENT_PLAYER, host, MPStatus(node.ID, true))
  }

  /** The notice's receiver is the client map's entry for the host, and there is none when the host is unknown. */
  lemma NoticeReceiver<C>(host: Uuid, node: MusicInfo, clients: map<Uuid, C>)
    ensures Client(Notice(host, node), clients) == if host in clients then Some(clients[host]) else None
  {
  }

  class MusicPlayer {
    const Playlist: Playlist
    var CurNode: MusicInfo?
    /** `AudioReader`: a reader over the bytes it was made from, or nil. */
    var AudioReader: Option<seq<bv8>>
    /** the messages passed to the hub's `DirectMsg`, in order */
    var sent: seq<WSMessage>

    ghost predicate Valid()
      reads this, Playlist, Playlist.list, Playlist.Repr()
    {
      Playlist.Valid() && this !in Playlist.Repr()
    }

    /** The entries waiting in the playlist. */
    ghost function Queue(): seq<MusicInfo?>
      requires Valid()
      reads this, Playlist, Playlist.list, Playlist.Repr()
    {
      Playlist.Entries()
    }

    /** `CreateMusicPlayer`: nothing playing, no reader, an empty playlist. */
    constructor ()
      ensures Valid() && fresh(Playlist.Repr())
      ensures CurNode == null && AudioReader == None && Queue() == [] && sent == []
      ensures Playlist.Unique()
    {
      Playlist := new WebPlaylist.Playlist();
      CurNode := null;
      AudioReader := None;
      sent := [];
    }

    /**
     * `NewAudioReader`: a reader over the current entry's audio, nil when
     * nothing is playing. The older package repeats the newer player's
     * method, and so does this model.
     */
    function NewAudioReader(): (r: Option<seq<bv8>>)
      reads this, CurNode
      ensures r.Some? <==> CurNode != null
      ensures r.Some? ==> r.value == CurNode.AudioByte
    {
      if CurNode != null then Some(CurNode.AudioByte) else None
    }

    /**
     * `download`: nothing for a nil node or a failed request; on success
     * the audio is stored in the node and the host is told its id is ready.
     */
    method Download(node: MusicInfo?, host: Uuid, outcome: WebPlayer.FetchOutcome)
      modifies this`sent, node
      ensures node == null || !outcome.Fetched? ==> sent == old(sent) && (node != null ==> node.AudioByte == old(node.AudioByte))
      ensures node != null ==> node.ID == old(node.ID) && node.URL == old(node.URL)
      ensures node != null && outcome.Fetched? ==>
        node.AudioByte == outcome.bytes && sent == old(sent) + [Notice(host, node)]
    {
      if node == null {
        return;
      }
      match outcome
      case Fetched(bytes) =>
        node.AudioByte := bytes;
        sent := sent + [Notice(host, node)];
      case _ =>
    }

    /**
     * `next`: the head of the playlist becomes the current entry and the
     * reader is made over its audio; an empty playlist changes nothing.
     */
    method Next()
      requires Valid()
      modifies this`CurNode, this`AudioReader, Playlist.Repr()
      ensures Valid() && Playlist.Repr() <= old(Playlist.Repr())
      ensures old(Queue()) == [] ==>
        Queue() == [] && CurNode == old(CurNode) && AudioReader == old(AudioReader)
      ensures old(Queue()) != [] ==>
        && CurNode == old(Queue())[0] && Queue() == old(Queue())[1..]
        && AudioReader == Some(CurNode.AudioByte)
      ensures old(Playlist.Unique()) ==> Playlist.Unique()
    {
      var r := Playlist.Dequeue();
      if r.Failure? {
        return;
      }
      ghost var es, ids := Playlist.Entries(), Playlist.Ids();
      CurNode, AudioReader := r.value, Some(r.value.AudioByte);
      assert Playlist.Valid();
      assert Playlist.Entries() == es;
      assert Playlist.Ids() == ids by {
        forall k | 0 <= k < |ids| ensures Playlist.Ids()[k] == ids[k] {
        }
      }
    }

    /**
     * The AddedSong event, `checkState`: with nothing playing and a head
     * that has no audio, the head is downloaded and then promoted, whatever
     * the download ends with. An entry already playing, an empty playlist
     * or a head that already has audio leave the player as it is.
     */
    method CheckState(host: Uuid, outcome: WebPlayer.FetchOutcome)
      requires Valid()
      modifies this`CurNode, this`AudioReader, this`sent, Playlist.Repr(), Playlist.Head()
      ensures Valid() && Playlist.Repr() <= old(Playlist.Repr())
      ensures old(CurNode) != null || old(Queue()) == [] || |old(Queue()[0].AudioByte)| > 0 ==>
        && CurNode == old(CurNode) && AudioReader == old(AudioReader) && sent == old(sent)
        && Queue() == old(Queue()) && Playlist.Ids() == old(Playlist.Ids())
      ensures old(CurNode) == null && old(Queue()) != [] && |old(Queue()[0].AudioByte)| == 0 ==>
        && CurNode == old(Queue())[0] && Queue() == old(Queue())[1..]
        && CurNode.ID == old(Queue()[0].ID) && AudioReader == Some(CurNode.AudioByte)
        && (outcome.Fetched? ==> CurNode.AudioByte == outcome.bytes && sent == old(sent) + [Notice(host, CurNode)])
        && (!outcome.Fetched? ==> CurNode.AudioByte == [] && sent == old(sent))
      ensures old(Playlist.Unique()) ==> Playlist.Unique()
    {
      if CurNode != null {
        return;
      }
      var node := Playlist.Head();
      if node == null {
        return;
      }
      if |node.AudioByte| == 0 {
        Promote(node, host, outcome);
      }
    }

    /** The download-then-`next` step of `checkState`, on the head `node`. */
    method Promote(node: MusicInfo, host: Uuid, outcome: WebPlayer.FetchOutcome)
      requires Valid() && Queue() != [] && node == Queue()[0]
      modifies this`CurNode, this`AudioReader, this`sent, Playlist.Repr(), node
      ensures Valid() && Playlist.Repr() <= old(Playlist.Repr())
      ensures CurNode == node && Queue() == old(Queue())[1..]
      ensures node.ID == old(node.ID) && AudioReader == Some(node.AudioByte)
      ensures outcome.Fetched? ==> node.AudioByte == outcome.bytes && sent == old(sent) + [Notice(host, node)]
      ensures !outcome.Fetched? ==> node.AudioByte == old(node.AudioByte) && sent == old(sent)
      ensures old(Playlist.Unique()) ==> Playlist.Unique()
    {
      ghost var es, ids := Queue(), Playlist.Ids();
      Playlist.NoEntryInRepr();
      Download(node, host, outcome);
      assert Queue() == es;
      assert Playlist.Ids() == ids by {
        forall k | 0 <= k < |ids| ensures Playlist.Ids()[k] == ids[k] {
        }
      }
      Next();
    }

    /** The NextSong event: stop the current entry, then promote the head if there is one. */
    method NextSong()
      requires Valid()
      modifies this`CurNode, this`AudioReader, Playlist.Repr()
      ensures Valid() && Playlist.Repr() <= old(Playlist.Repr())
      ensures old(Queue()) == [] ==> CurNode == null && AudioReader == None && Queue() == []
      ensures old(Queue()) != [] ==>
        && CurNode == old(Queue())[0] && Queue() == old(Queue())[1..]
        && AudioReader == Some(CurNode.AudioByte)
      ensures old(Playlist.Unique()) ==> Playlist.Unique()
    {
      ghost var es, ids := Queue(), Playlist.Ids();
      CurNode, AudioReader := null, None;
      assert Queue() == es;
      assert Playlist.Ids() == ids by {
        forall k | 0 <= k < |ids| ensures Playlist.Ids()[k] == ids[k] {
        }
      }
      if Playlist.Size() > 0 {
        Next();
      }
    }

    /** The Preload event: download the head's audio, if there is a head. */
    method Preload(host: Uuid, outcome: WebPlayer.FetchOutcome)
      requires Valid()
      modifies this`sent, Playlist.Head()
      ensures Valid() && Queue() == old(Queue()) && Playlist.Ids() == old(Playlist.Ids())
      ensures old(Queue()) == [] || !outcome.Fetched? ==> sent == old(sent)
      ensures old(Queue()) != [] && outcome.Fetched? ==>
        Queue()[0].AudioByte == outcome.bytes && sent == old(sent) + [Notice(host, Queue()[0])]
      ensures old(Queue()) != [] && !outcome.Fetched? ==> Queue()[0].AudioByte == old(Queue()[0].AudioByte)
    {
      if Playlist.Size() > 0 {
        var node := Playlist.Head();
        ghost var es, ids := Queue(), Playlist.Ids();
        Playlist.NoEntryInRepr();
        Download(node, host, outcome);
        assert Queue() == es;
        assert Playlist.Ids() == ids by {
          forall k | 0 <= k < |ids| ensures Playlist.Ids()[k] == ids[k] {
          }
        }
      }
    }

    /** What `Run` does as it returns: the playlist is cleared. */
    method Stop()
      requires Valid()
      modifies Playlist.Repr()
      ensures Valid() && Playlist.Repr() <= old(Playlist.Repr()) && Queue() == [] && Playlist.Unique()
    {
      Playlist.Clear();
    }

    /** The `prefetched` flag of `String`: the head exists and already has its audio. */
    function Prefetched(): (r: bool)
      requires Valid()
      reads this, Playlist, Playlist.list, Playlist.Repr(), Playlist.Head()
      ensures r <==> Queue() != [] && |Queue()[0].AudioByte| > 0
    {
      Playlist.Size() > 0 && |Playlist.Head().AudioByte| > 0
    }
  }
}
