# Jukebox room server: a Dafny model

Jukebox is a Go server for shared "music rooms". Each room has four parts:

- a websocket **hub** that keeps the room's members, elects a host, and routes broadcast, direct and WebRTC signalling messages to the members' bounded send buffers;
- a **playlist** of queued tracks;
- a **music player** that downloads the head of the playlist and promotes it to the current track;
- a **task pool** that admits download jobs into a bounded FIFO queue and hands them to workers.

Several parts exist in more than one snapshot of the program. The `web/...` tree is the newest. The `core/...` and `internal/...` trees are older. Each snapshot is modelled on its own.

This project models those parts as imperative Dafny. Go structs whose fields the code updates in place are classes. The ring-shaped linked list is a pointer structure with a ghost sequence of its nodes. The message getters are pure functions. Every method is proved against its contract: the new state as a function of the old one, the error cases, and the invariant the structure keeps.

Modules, one file each unless noted:

| file | module | models |
|---|---|---|
| `wrappers.dfy` | `Wrappers` | `Option`, `Outcome` (Go `error` results) and `Result` |
| `uuids.dfy` | `Uuids` | UUIDs as opaque numbers; the nil UUID and its text |
| `seqs.dfy` | `Seqs` | first index, distinctness and permutation lemmas on sequences |
| `linked_list.dfy` | `LinkedList` | `utils/linkedlist`: the sentinel-ring doubly-linked list |
| `web_playlist.dfy` | `WebPlaylist` | `web/internal/room/playlist.go`: bounded playlist with auto-increment ids and move-before |
| `core_playlists.dfy` | `GoList`, `IdIndex`, `CoreRoomPlaylist`, `CorePlaylist` | `container/list` (the part the playlists use), the id→element index they keep, `core/room/playlist.go` and `core/playlist/playlist.go` |
| `messages.dfy` | `WebMessages`, `LegacyMessages` | `web/internal/room/message.go` and `internal/room/message.go` |
| `peers.dfy` | `Peers` | the websocket client, its bounded send channel, the fan-out with eviction, and `NextHost` |
| `web_hub.dfy` | `WebHub` | `web/internal/room/hub.go` and the peer signal classification of `web/internal/room/client.go` |
| `core_room_hub.dfy` | `CoreRoomHub` | `core/room/hub.go` |
| `core_ws_hub.dfy` | `CoreWebsocketHub` | `core/corewebsocket/hub.go` |
| `web_player.dfy` | `WebPlayer` | `web/internal/room/music_player.go` |
| `legacy_player.dfy` | `LegacyPlayer` | `internal/room/music_player.go` |
| `pools.dfy` | `TaskQueue`, `MessageQueue` | `web/internal/taskq/pool.go` and `core/mq/pool.go` |
| `searches.dfy` | `Users`, `RoomEntry` | `User.Index` and `UserProfile.Index` |

Modelling choices:

- **Hub events.** A hub serves one event of its `select` loop at a time. Each case of `Run` becomes a method of the hub class.
  - The goroutines that hand a message back to the hub (`go h.BroadcastMsg(...)`, the destroy signal) are appended to a `pending` queue.
  - `TakePending` takes an entry out of that queue in any order, because the goroutines may run in any order.
- **Global maps.** `ClientMap`, `TokenMap`, `HubMap` and `NewHubs` are fields of a `Registry` object that the hub methods receive.
- **Send channels and panics.** A client's send channel is a bounded sequence of frames with a `closed` flag; its capacity is 1024.
  - A send on a closed channel is a Go panic, and so is a nil dereference. Both become the `Panic` step.
- **Map iteration.** Go iterates maps in an unspecified order, which the model leaves to the verifier. The new host is therefore "some remaining member of minimal join time".
- **Downloads.** A download ends in an abstract `FetchOutcome`: rejected, timeout, error, or fetched bytes.
- **Task pools.** Worker goroutines are an idle-worker count. The dispatch loop is one `Step` at a time, and the ctx and select choices are parameters.
- **Behaviour kept as written.** These are the program's own behaviour, not corrections:
  - A host evicted by a broadcast stays `Host`, and is never re-elected. `WebHub.Hub.EvictedHostNotice` shows that the next player notice to that host panics.
  - `Host` is not cleared when the room empties.
  - Direct receivers are looked up in the global `ClientMap`, not in the room's members.
  - A message whose encoding fails, or a debug message, is logged with its sender. When that sender is nil this is a nil dereference. For a direct message the sender is always nil.
  - `lazyInit` promotes the head after a failed download too, and never promotes a head that was already preloaded.

## Model

| member | source | states |
|---|---|---|
| LinkedList.Node.Next | utils/linkedlist/linked_list.go:21-26 | a detached node has no successor; a linked node's successor is the next node of its list, nil after the last (never the root) |
| LinkedList.Node.Prev | utils/linkedlist/linked_list.go:28-33 | a linked node's predecessor is the previous node of its list, nil before the first |
| LinkedList.Node.Val | utils/linkedlist/linked_list.go:35-37 | returns the value held by the node |
| LinkedList.Node.Set | utils/linkedlist/linked_list.go:39-41 | overwrites the node's value and no other position of its list; the list keeps its nodes and stays well formed |
| LinkedList.List.constructor | utils/linkedlist/linked_list.go:59-61 | `New` gives a well-formed empty list |
| LinkedList.List.Init | utils/linkedlist/linked_list.go:52-57 | afterwards the list is well formed and empty (size 0; `Head` and `Tail` are nil) |
| LinkedList.List.InsertAt | utils/linkedlist/linked_list.go:70-84 | fails and changes nothing exactly when the anchor is nil or unlinked; otherwise a fresh node with the value sits right after the anchor, every other value is in its old place, and the size grows by one |
| LinkedList.List.InsertHead | utils/linkedlist/linked_list.go:94-97 | succeeds; the values become the new value followed by the old values |
| LinkedList.List.InsertTail | utils/linkedlist/linked_list.go:99-102 | succeeds; the values become the old values followed by the new value |
| LinkedList.List.InsertAfter | utils/linkedlist/linked_list.go:104-107 | fails without change exactly when the node is nil or not in the list; otherwise the value lands immediately after the node and the other positions are unchanged |
| LinkedList.List.InsertBefore | utils/linkedlist/linked_list.go:109-112 | fails without change exactly when the node is not in the list; otherwise the value lands immediately before the node and the other positions are unchanged |
| LinkedList.List.Remove | utils/linkedlist/linked_list.go:114-131 | fails without change exactly on an empty list or a nil or unlinked node; otherwise exactly that node leaves the sequence and the values, and it ends detached with its value kept |
| LinkedList.List.Swap | utils/linkedlist/linked_list.go:133-179 | fails without change exactly on a nil or unlinked node or on nodes of two different lists; a node with itself is a no-op; otherwise the two positions exchange nodes and values and every other position and the size are kept, in the adjacent and the distant case |
| LinkedList.List.SwapAdjacent | utils/linkedlist/linked_list.go:145-161 | rewiring two neighbours keeps a well-formed ring whose node sequence has them exchanged |
| LinkedList.List.SwapApart | utils/linkedlist/linked_list.go:162-176 | rewiring two non-neighbours keeps a well-formed ring whose node sequence has them exchanged |
| LinkedList.List.Head | utils/linkedlist/linked_list.go:181-186 | nil on an empty list, otherwise the first node |
| LinkedList.List.Tail | utils/linkedlist/linked_list.go:188-193 | nil on an empty list, otherwise the last node |
| LinkedList.List.Size | utils/linkedlist/linked_list.go:195-197 | the number of nodes in the list |
| LinkedList.List.String | utils/linkedlist/linked_list.go:199-205 | the walk from `Head` along `Next` shows every value once, in list order, joined by commas |
| LinkedList.ValuesOfInsert | utils/linkedlist/linked_list.go:76-82 | inserting a node at a position inserts its value at that position of the values |
| LinkedList.ValuesOfRemove | utils/linkedlist/linked_list.go:120-128 | dropping a node drops its value from the values and keeps the others in order |
| LinkedList.ValuesOfSwap | utils/linkedlist/linked_list.go:133-179 | exchanging two nodes exchanges their values |
| LinkedList.ShownAppend | utils/linkedlist/linked_list.go:199-205 | showing one more value appends its text to the shown values |
| WebPlaylist.AutoIncId.ID | web/internal/room/playlist.go:20-25 | advances the counter by one and returns the new value |
| WebPlaylist.Playlist.constructor | web/internal/room/playlist.go:43-48 | an empty, well-formed playlist with counter -1, so the first id is 0 |
| WebPlaylist.Playlist.Enqueue | web/internal/room/playlist.go:50-64 | fails without change exactly when 1024 or more entries are queued; otherwise the entry is appended at the tail, receives the next id (one more than the last issued), and ids stay unique |
| WebPlaylist.Playlist.Find | web/internal/room/playlist.go:66-83 | the search loop finds no node exactly when no entry has the id, and otherwise the node of the first entry with it |
| WebPlaylist.Playlist.Remove | web/internal/room/playlist.go:66-83 | fails without change exactly when no entry has the id; otherwise the entry leaves and the others keep their order, so a second removal of the same id fails |
| WebPlaylist.Playlist.Move | web/internal/room/playlist.go:87-124 | fails without change exactly when either id is absent; otherwise the entries become the move-before of entry `id` to just ahead of entry `other`, with the id counter and uniqueness kept |
| WebPlaylist.Playlist.Relocate | web/internal/room/playlist.go:110-121 | the dummy-insert, swap, dummy-remove sequence leaves exactly the move-before of the entries |
| WebPlaylist.Playlist.Dequeue | web/internal/room/playlist.go:126-142 | fails without change exactly on an empty playlist; otherwise returns the former head and removes exactly it |
| WebPlaylist.Playlist.Head | web/internal/room/playlist.go:144-155 | nil when empty, otherwise the first entry; reads only |
| WebPlaylist.Playlist.Clear | web/internal/room/playlist.go:157-162 | the playlist is empty and the id counter is kept, so later ids are never reused |
| WebPlaylist.Playlist.Size | web/internal/room/playlist.go:164-169 | the number of queued entries |
| WebPlaylist.MoveBeforePlaces | web/internal/room/playlist.go:87-124 | after a move-before, entry `i` sits immediately before entry `j` (unless they are the same), and the other entries keep their order |
| WebPlaylist.MoveBeforePermutes | web/internal/room/playlist.go:87-124 | a move-before is a permutation: same entries, same size |
| WebPlaylist.MoveBeforeInPlace | web/internal/room/playlist.go:87-124 | moving an entry before itself or before its successor leaves the order unchanged |
| WebPlaylist.MoveBeforeAt | web/internal/room/playlist.go:87-124 | gives, for each position after a move-before, the position its entry came from |
| WebPlaylist.MoveByDummy | web/internal/room/playlist.go:110-121 | inserting a dummy before `other`, swapping it with `id` and removing the dummy equals the move-before |
| WebPlaylist.IdsOfMoveBefore | web/internal/room/playlist.go:87-124 | the ids of the moved entries are the move-before of the ids |
| WebPlaylist.IssuedAppend | web/internal/room/playlist.go:20-25 | appending the next counter value keeps the ids distinct and at most the counter |
| WebPlaylist.IssuedRemove | web/internal/room/playlist.go:66-83 | removing an id keeps the others distinct and issued, and the removed id is gone |
| WebPlaylist.IssuedMove | web/internal/room/playlist.go:87-124 | a move-before keeps the ids distinct and issued |
| GoList.List.PushBack | core/room/playlist.go:75 | `container/list` `PushBack`: a fresh element holding the value becomes the last element |
| GoList.List.Remove | core/room/playlist.go:90 | `container/list` `Remove`: the element leaves its place and the others keep their order; a foreign element changes nothing |
| GoList.List.Init | core/room/playlist.go:116 | `container/list` `Init`: the list is empty |
| GoList.WithoutAt | core/room/playlist.go:90 | removing the first occurrence of an element equals cutting it out at its position |
| IdIndex.IndexedIds | core/room/playlist.go:22-27 | when the list and the id map agree, the ids in the list are distinct, below the `tail` counter, and exactly the keys of the map |
| IdIndex.IndexedPush | core/room/playlist.go:74-77 | appending an element with id `tail`, indexing it and advancing `tail` keeps list and map in agreement |
| IdIndex.IndexedRemove | core/room/playlist.go:86-91 | removing an indexed id from list and map keeps them in agreement and removes the id from the ids in order |
| CoreRoomPlaylist.Playlist.constructor | core/room/playlist.go:35-46 | `CreatePlaylist`: empty list, empty map, `tail` 0 |
| CoreRoomPlaylist.Playlist.Enqueue | core/room/playlist.go:66-80 | fails without change at 1024 entries; otherwise the node gets id `tail`, its copy is the last element and `nodeMap[tail]` refers to it, `tail` grows by one, and the ids grow by that id |
| CoreRoomPlaylist.Playlist.Remove | core/room/playlist.go:82-94 | fails without change exactly when the id has no map entry; otherwise the element leaves both the list and the map, and the counter is kept |
| CoreRoomPlaylist.Playlist.Clear | core/room/playlist.go:112-118 | list and map become empty and `tail` is kept, so later ids are fresh |
| CorePlaylist.Playlist.constructor | core/playlist/playlist.go:26-33 | `New`: empty list, empty map, `tail` 0 |
| CorePlaylist.Playlist.Enqueue | core/playlist/playlist.go:35-49 | fails without change at 1024 entries; otherwise the copy pushed at the back carries `NodeID == tail`, is indexed in the map, and `tail` grows by one |
| CorePlaylist.Playlist.Remove | core/playlist/playlist.go:51-63 | fails without change on an unknown id; otherwise the element leaves both list and map |
| CorePlaylist.Playlist.Clear | core/playlist/playlist.go:81-87 | list and map become empty and `tail` is kept |
| WebMessages.Lookup | web/internal/room/message.go:73-85 | a client is found exactly when the text is not the nil UUID text, parses, and names a key of the client map, and it is that key's client |
| WebMessages.Json | web/internal/room/message.go:112-124 | encoding fails exactly for a direct message whose `To` is the nil UUID, and otherwise encodes the message |
| WebMessages.Sender | web/internal/room/message.go:73-85 | a direct message never has a sender; the other variants have one exactly when `UID` resolves in the client map, and it is the client it names |
| WebMessages.Reciever | web/internal/room/message.go:87-89 | broadcast and peer messages never have a receiver; a direct message's receiver is `ClientMap[To]` when present; a peer-direct message's is the client its `To` text resolves to |
| WebMessages.DebugMode | web/internal/room/message.go:95-100 | true exactly when the message type is `MSG_DEBUG`, for every variant |
| LegacyMessages.Json | internal/room/message.go:94-106 | encoding fails exactly for a direct message with the nil `To` |
| LegacyMessages.Client | internal/room/message.go:108-116 | a broadcast message has no client; a direct message's client is `ClientMap[To]` when present and nil otherwise |
| LegacyMessages.DebugMode | internal/room/message.go:77-82 | true exactly when the message type is `MSG_DEBUG` |
| Peers.Client.constructor | web/api/websocket_handler.go:71-80 | a client with its identity, permission and join time, and an empty open send channel |
| Peers.Client.Offer | web/internal/room/hub.go:125-131 | the non-blocking send: a closed channel panics and is unchanged; an open channel with room gets the frame appended; a full one is closed with its frames kept |
| Peers.Client.Close | web/internal/room/hub.go:230 | the channel is closed |
| Peers.NextHost | web/internal/room/hub.go:292-306 | nil exactly when every member other than the host's id has join time at least `MaxInt64`; otherwise a member other than the host whose join time is minimal among those members |
| Peers.Fed | web/internal/room/hub.go:126-131 | a channel with room gets the frame appended and stays open; a full one is closed unchanged |
| Peers.FanOut | web/internal/room/hub.go:125-132 | every member except the skipped one is offered the frame; the members kept are the skipped one and those that had room, all still open; each other member's channel is closed and it leaves |
| Peers.Visit | web/internal/room/hub.go:126-131 | one turn of the eviction loop: the member is fed, and it leaves the members exactly when its channel was closed |
| WebHub.Prelude | web/internal/room/hub.go:112-124 | the hub stops serving a message exactly when its encoding fails or it is a debug message without a sender; it crashes exactly when that log line dereferences a nil sender |
| WebHub.BroadcastRoute | web/internal/room/hub.go:111-132 | a broadcast crashes exactly on a nil-sender log; otherwise its frame goes to every member |
| WebHub.DirectRoute | web/internal/room/hub.go:134-155 | a direct message crashes exactly on a nil-sender log; otherwise it goes only to its resolved receiver and is dropped when there is none |
| WebHub.PeerRoute | web/internal/room/hub.go:157-195 | a peer message crashes exactly on a nil-sender log; with a receiver it goes only to the receiver; without one it is dropped exactly when there is no sender, and otherwise goes to every member but the sender |
| WebHub.RoomEvent | web/internal/room/hub.go:218-223 | the "left"/"host" announcement always encodes and is never a debug message, so serving it never logs a sender; it is a broadcast carrying the event and the member's name |
| WebHub.RoomEventReachesAll | web/internal/room/hub.go:111-132 | whatever the client map, the `broadcast` case sends a room event to every member and skips nobody |
| WebHub.PeerSignal | web/internal/room/client.go:82-99 | a decoded signal becomes a peer message from the client; it is peer-direct exactly when its `To` is not the nil UUID text, addressed to that text |
| WebHub.Reach | web/internal/room/hub.go:148-155 | the receivers a one-receiver route may write to: non-empty exactly for that route |
| WebHub.Registry.constructor | web/internal/room/hub.go:18-31 | the global maps start empty |
| WebHub.Hub.constructor | web/internal/room/hub.go:64-83 | `CreateHub`: no host, no members, not destroyed |
| WebHub.Hub.Register | web/internal/room/hub.go:204-210 | the client joins with its permission; it becomes host exactly when there was none |
| WebHub.Hub.Unregister | web/internal/room/hub.go:212-269 | a non-member changes nothing; a member leaves `Clients`, `ClientMap` and `TokenMap`, has its channel closed and is announced as "left"; an empty room then queues the destroy signal; a departing host with others left is replaced by a remaining member of minimal join time, announced as "host", or the hub panics when there is none |
| WebHub.Hub.Leave | web/internal/room/hub.go:216-230 | the member leaves the room and both global maps, its channel is closed, and "left" is queued; the host is kept |
| WebHub.Hub.HandOver | web/internal/room/hub.go:252-262 | the new host is a remaining member with another id and minimal join time, announced as "host"; a nil dereference exactly when there is none |
| WebHub.Hub.Destroy | web/internal/room/hub.go:86-103 | the hub is destroyed and removed from `HubMap` |
| WebHub.Hub.Timeout | web/internal/room/hub.go:271-290 | the `NewHubs` entry is removed; the hub is destroyed exactly when it has no members and is not destroyed yet |
| WebHub.Hub.Unicast | web/internal/room/hub.go:148-155 | a send to a closed channel panics and changes nothing; otherwise the receiver is fed, and is evicted from the room when full |
| WebHub.Hub.Multicast | web/internal/room/hub.go:125-132 | the fan-out over the room, skipping the given member; the host is kept even when evicted |
| WebHub.Hub.Dispatch | web/internal/room/hub.go:111-195 | serves a route: a crash or a drop changes nothing, a one-receiver route is a unicast, an all-members route is a fan-out |
| WebHub.Hub.BroadcastCase | web/internal/room/hub.go:111-132 | serves the broadcast route of the message |
| WebHub.Hub.DirectCase | web/internal/room/hub.go:134-155 | serves the direct route of the message |
| WebHub.Hub.PeerCase | web/internal/room/hub.go:157-195 | serves the peer route of the message |
| WebHub.Hub.BroadcastMsg | web/internal/room/hub.go:308-322 | nothing happens when the room is empty or destroyed; otherwise the broadcast is served |
| WebHub.Hub.DirectMsg | web/internal/room/hub.go:324-335 | nothing happens when the room is empty or destroyed; otherwise the direct message is served |
| WebHub.Hub.SignalMsg | web/internal/room/hub.go:337-348 | nothing happens when the room is empty or destroyed; otherwise the peer message is served |
| WebHub.Hub.TakePending | web/internal/room/hub.go:224 | runs one queued goroutine: returns its entry and removes exactly it from the queue |
| WebHub.Hub.Deliver | web/internal/room/hub.go:224-242 | a queued announcement is the guarded broadcast; a queued destroy signal destroys the hub unless it already is |
| WebHub.Hub.EvictedHostNotice | web/internal/room/hub.go:125-131 | a host evicted by a broadcast stays host, and the next player notice to it panics with a send on a closed channel |
| CoreRoomHub.Registry.constructor | core/room/hub.go:22-36 | the global maps start empty |
| CoreRoomHub.Hub.constructor | core/room/hub.go:63-94 | `CreateHub`: no host, no members, a fresh empty playlist |
| CoreRoomHub.Hub.Register | core/room/hub.go:112-117 | the client joins with its permission; it becomes host exactly when there was none |
| CoreRoomHub.Hub.Unregister | core/room/hub.go:118-162 | a non-member changes nothing; a member leaves the three maps, has its channel closed and emits "left"; the last member's departure ends `Run`, whose deferred cleanup removes the hub from `HubMap` and clears the playlist; a departing host with others left is replaced by a remaining member of minimal join time, announced as "host" |
| CoreRoomHub.Hub.Leave | core/room/hub.go:122-136 | the member leaves the room and both global maps, its channel is closed, and "left" is queued |
| CoreRoomHub.Hub.HandOver | core/room/hub.go:147-157 | the new host is a remaining member of minimal join time, announced as "host"; a nil dereference when there is none |
| CoreRoomHub.Hub.Finish | core/room/hub.go:97-102 | the deferred cleanup: destroyed, out of `HubMap`, playlist emptied with its counter kept |
| CoreRoomHub.Hub.DestroyCase | core/room/hub.go:236-238 | the destroy event ends `Run` with the deferred cleanup |
| CoreRoomHub.Hub.Timeout | core/room/hub.go:285-308 | the `NewHubs` entry is removed; the hub is destroyed, with cleanup, exactly when it has no members and is not destroyed yet |
| CoreRoomHub.Hub.FanOutCase | core/room/hub.go:163-212 | the broadcast, room-event and playlist-event cases: every member with room gets the frame, every full one is closed and evicted |
| CoreRoomHub.Hub.DirectCase | core/room/hub.go:214-235 | a nil `To` or an absent receiver is dropped; otherwise `ClientMap[To]` is sent the frame, panicking when its channel is closed and evicting it when full |
| CoreRoomHub.Hub.Unicast | core/room/hub.go:227-234 | a send to a closed channel panics; otherwise the receiver is fed and evicted when full |
| CoreRoomHub.Hub.FanOutMsg | core/room/hub.go:326-364 | `BroadcastMsg`, `RoomEvtMsg` and `PlaylistMsg`: nothing happens when the room is empty or destroyed; otherwise the fan-out runs |
| CoreRoomHub.Hub.DirectMsg | core/room/hub.go:366-380 | nothing happens when the room is empty or destroyed; otherwise the direct case runs |
| CoreRoomHub.Hub.TakePending | core/room/hub.go:130 | runs one queued goroutine: returns its message and removes exactly it from the queue |
| CoreWebsocketHub.Registry.constructor | core/corewebsocket/hub.go:15-29 | the global maps start empty |
| CoreWebsocketHub.Hub.constructor | core/corewebsocket/hub.go:73-95 | `CreateHub`: no host, no members, a fresh empty playlist |
| CoreWebsocketHub.Hub.Register | core/corewebsocket/hub.go:115-120 | the client joins with its permission; it becomes host exactly when there was none |
| CoreWebsocketHub.Hub.Unregister | core/corewebsocket/hub.go:121-165 | a non-member changes nothing; a member leaves the three maps, has `Send` closed and is announced as "left"; the last departure ends `Run` with cleanup of `HubMap` and the playlist; a departing host is replaced by a remaining member of minimal join time, announced as "host" |
| CoreWebsocketHub.Hub.Leave | core/corewebsocket/hub.go:125-139 | the member leaves the room and both global maps, its channel is closed, and "left" is queued |
| CoreWebsocketHub.Hub.HandOver | core/corewebsocket/hub.go:150-161 | the new host is a remaining member of minimal join time, announced as "host"; a nil dereference when there is none |
| CoreWebsocketHub.Hub.Finish | core/corewebsocket/hub.go:97-112 | the deferred cleanup: destroyed, out of `HubMap`, playlist emptied |
| CoreWebsocketHub.Hub.DestroyCase | core/corewebsocket/hub.go:188-190 | the destroy event ends `Run` with the deferred cleanup |
| CoreWebsocketHub.Hub.Timeout | core/corewebsocket/hub.go:195-218 | the `NewHubs` entry is removed; the hub is destroyed exactly when it has no members and is not destroyed yet |
| CoreWebsocketHub.Hub.AddSong | core/corewebsocket/hub.go:166-173 | replies with the enqueue error when the playlist is full, and with nil after appending the node with the next id |
| CoreWebsocketHub.Hub.BroadcastCase | core/corewebsocket/hub.go:174-187 | every member with room gets the frame, every full one is closed and evicted |
| CoreWebsocketHub.Hub.BroadcastMsg | core/corewebsocket/hub.go:236-251 | nothing happens when the room is empty or destroyed; otherwise the broadcast runs |
| CoreWebsocketHub.Hub.TakePending | core/corewebsocket/hub.go:133 | runs one queued goroutine: returns its message and removes exactly it from the queue |
| WebPlayer.Notice | web/internal/room/music_player.go:178-187 | the status for the host encodes exactly when the host's id is not the nil UUID, is not a debug message, and reports the downloaded entry's id as ready |
| WebHub.NoticeRoute | web/internal/room/music_player.go:178-187 | through the hub's `direct` case the notice reaches only the host's entry in the global client map, is dropped when the host id is unknown, and panics on the nil-sender log line when the host id is nil |
| WebPlayer.MusicPlayer.constructor | web/internal/room/music_player.go:51-65 | no current track, no audio reader, an empty playlist, nothing sent |
| WebPlayer.MusicPlayer.NewAudioReader | web/internal/room/music_player.go:67-74 | nil exactly when there is no current track, otherwise a reader over exactly its bytes |
| WebPlayer.MusicPlayer.Download | web/internal/room/music_player.go:144-189 | a nil node or a rejected, timed-out or failed fetch changes nothing; a fetch sets the node's audio to the bytes and sends the status notice to the host |
| WebPlayer.MusicPlayer.Next | web/internal/room/music_player.go:191-201 | on an empty playlist nothing changes; otherwise the former head becomes the current track and the reader reads exactly its bytes |
| WebPlayer.MusicPlayer.LazyInit | web/internal/room/music_player.go:124-142 | no effect with a current track, an empty playlist or a preloaded head; a head without audio is downloaded and then promoted, whatever the download's outcome |
| WebPlayer.MusicPlayer.Promote | web/internal/room/music_player.go:133-136 | a download of the head followed by `next`: the head becomes the current track, with the fetched bytes when the fetch succeeded |
| WebPlayer.MusicPlayer.NextSong | web/internal/room/music_player.go:96-107 | clears the current track and reader, then promotes the head when the playlist is non-empty |
| WebPlayer.MusicPlayer.Preload | web/internal/room/music_player.go:109-120 | on a non-empty playlist downloads the head in place; the queue is kept |
| WebPlayer.MusicPlayer.Stop | web/internal/room/music_player.go:77-80 | the deferred cleanup empties the playlist |
| WebPlayer.MusicPlayer.MusicInfoList | web/internal/room/music_player.go:203-217 | copies of the current track (when there is one) followed by the queued entries in queue order |
| WebPlayer.EntryCopies | web/internal/room/music_player.go:211-214 | the loop over the playlist copies every entry, in order |
| LegacyPlayer.Notice | internal/room/music_player.go:169-178 | the status for the host encodes exactly when the host's id is not the nil UUID, is not a debug message, and reports the downloaded entry's id as ready |
| LegacyPlayer.NoticeReceiver | internal/room/music_player.go:169-178 | the notice's receiver is the client map's entry for the host id, and there is none when that id is unknown |
| LegacyPlayer.MusicPlayer.constructor | internal/room/music_player.go:49-62 | no current track, no audio reader, an empty playlist, nothing sent |
| LegacyPlayer.MusicPlayer.NewAudioReader | internal/room/music_player.go:64-71 | nil exactly when there is no current track, otherwise a reader over its bytes |
| LegacyPlayer.MusicPlayer.Download | internal/room/music_player.go:135-180 | any failure leaves the node unchanged and sends nothing; a fetch stores the bytes and sends the status notice to the host |
| LegacyPlayer.MusicPlayer.Next | internal/room/music_player.go:182-192 | a no-op on an empty playlist; otherwise the dequeued head becomes the current track with a reader over its bytes |
| LegacyPlayer.MusicPlayer.CheckState | internal/room/music_player.go:117-133 | nothing changes with a current track, an empty playlist or a head with audio; otherwise the head is downloaded and promoted |
| LegacyPlayer.MusicPlayer.Promote | internal/room/music_player.go:127-130 | a download of the head followed by `next` |
| LegacyPlayer.MusicPlayer.NextSong | internal/room/music_player.go:91-100 | clears the current track and reader, then promotes the head when the playlist is non-empty |
| LegacyPlayer.MusicPlayer.Preload | internal/room/music_player.go:102-112 | on a non-empty playlist downloads the head in place; the queue is kept |
| LegacyPlayer.MusicPlayer.Stop | internal/room/music_player.go:74-77 | the deferred cleanup empties the playlist |
| LegacyPlayer.MusicPlayer.Prefetched | internal/room/music_player.go:21-24 | "prefetched" exactly when the playlist is non-empty and its head has audio bytes |
| TaskQueue.AutoIncId.ID | web/internal/taskq/pool.go:28-33 | advances the global pool counter by one and returns the new value, so pools get 0, 1, 2, … from the initial -1 |
| TaskQueue.NewWorkerPool | web/internal/taskq/pool.go:43-67 | errors for a non-positive worker count or buffer without drawing an id; otherwise draws the next pool id and succeeds exactly when it is a valid snowflake node number, with queue capacity `qbuffer` and `workernum` worker slots |
| TaskQueue.WorkerPool.constructor | web/internal/taskq/pool.go:60-66 | an empty pool with the given capacity and worker slots |
| TaskQueue.WorkerPool.Start | web/internal/taskq/pool.go:69-82 | a ctx without a name stops the pool; otherwise exactly `workernum` workers are started, all idle |
| TaskQueue.WorkerPool.Submit | web/internal/taskq/pool.go:99-115 | never blocks: 202 with a new, larger task id exactly when there was room and the ctx case was not chosen, the task then appended; 429 exactly when the queue was full and the ctx not done; otherwise 408; the 429 and 408 replies carry -1 and leave the queue unchanged |
| TaskQueue.WorkerPool.Step | web/internal/taskq/pool.go:83-96 | one turn of the dispatch loop: the task in hand goes to an idle worker, or the queue's first task is taken; accepted tasks are handed out exactly once, in FIFO order (the pool invariant) |
| TaskQueue.WorkerPool.WorkerDone | web/internal/taskq/worker.go:30-43 | a worker that finished its task is idle again |
| MessageQueue.PoolSizes | core/mq/pool.go:38-54 | errors exactly for a zero worker count or non-positive buffer; otherwise the worker count is `min(workernum, 2)` and the capacity `min(qbuffer - 1, 16)` |
| MessageQueue.PoolSizesBounds | core/mq/pool.go:45-52 | valid arguments are accepted; `qbuffer == 1` gives capacity 0, and the caps 2 and 16 apply above them |
| MessageQueue.NewWorkerPool | core/mq/pool.go:38-54 | fails exactly when the arguments are refused, with that error; otherwise an empty pool with the clamped sizes |
| MessageQueue.WorkerPool.constructor | core/mq/pool.go:48-53 | an empty pool with the given capacity and worker slots |
| MessageQueue.WorkerPool.Start | core/mq/pool.go:56-69 | a ctx without a name stops the pool; otherwise exactly the worker-count workers are started, all idle |
| MessageQueue.WorkerPool.Submit | core/mq/pool.go:86-99 | when the send can proceed (the ctx case not chosen), `Accepted` is signalled once: with buffer room the task is queued; on an unbuffered queue that `Run` is waiting on, `Run` takes it at once. When the send cannot proceed and the ctx is live, `Rejected` is signalled once and nothing else changes. A cancelled ctx that wins signals nothing |
| MessageQueue.UnbufferedSubmit | core/room/hub.go:66 | the room hub's pool, `NewWorkerPool(1, 1)`, has an unbuffered queue, and once running it accepts a submitted task |
| MessageQueue.WorkerPool.Step | core/mq/pool.go:70-83 | one turn of the dispatch loop; accepted tasks are handed to workers exactly once, in FIFO order |
| MessageQueue.WorkerPool.WorkerDone | core/mq/worker.go:30-43 | a worker that finished its task is idle again |
| Users.Index | types/internal.go:10-17 | -1 exactly when no user has the same `UserID`; otherwise the smallest index of a user that has it |
| RoomEntry.Index | api/room_entry_handler.go:31-38 | -1 exactly when no profile has the same `uid`; otherwise the smallest index of a profile that has it |

## Left out

- Locks and goroutine scheduling: the mutexes, `fetchLock` and the registry locks are dropped. Each hub, player and pool is modelled as serving one event at a time. `Playlist.Move` mutating under a read lock is therefore not visible.
- Channels are modelled by what crosses them. The hub's control channels become methods. A goroutine that posts back to the hub becomes a `pending` entry. The worker channels become an idle-worker count.
- The client's `Read` and `Write` loops, the websocket connection and the ping timers are not modelled. The peer signal classification they perform is `WebHub.PeerSignal`.
- Time: `Timeout`'s `time.After` and the download timeout are explicit events or outcomes, and join times are given to the client constructor.
- Foreign libraries:
  - `json.Marshal`/`Unmarshal`, UUID parsing and formatting, and base64 are parameters or opaque values.
  - Snowflake task ids are modelled only as increasing numbers.
  - The ytdlp extractor and its task types are reduced to an abstract fetch outcome.
- Logging and the debug `Traverse` dumps: only the nil dereference a log line can cause is kept.
- `List.lazyInit` of `utils/linkedlist` only repairs a zero-value list, and every list here is built by `New` or `Init`. It is not modelled.
- `WebPlaylist.Playlist.Enqueue`: an entry already in the playlist can be enqueued again, as in the code. The id and uniqueness clauses hold only for an entry not already queued.
- `NodeWGCnt` is left out. The branch of `lazyInit` that reads it (web/internal/room/music_player.go:138-140) is dead, because the counter's value receivers always report 0. The `mp.NodeWGCnt.Done()` call of `NextSong` (web/internal/room/music_player.go:104) only updates that counter.
- `String` of the legacy player: only the "prefetched" flag is modelled, not the rest of its text.
- The hub's `Player` reference, `hubctx`/`hubcancel` and starting the player goroutine are not modelled. Nor is `enqueuedPlaylist` of `core/room/hub.go`, which calls a playlist API that `core/room/playlist.go` does not provide.
- `Dequeue` of `core/room/playlist.go` and of `core/playlist/playlist.go` is not modelled. It asserts `*MusicNode` on values stored as `MusicNode`, and dereferences `Front()` without a nil check, so it has no success path.
- `CoreWebsocketHub.Hub.AddSong`: the debug `Traverse` call is not modelled.
- `core/corewebsocket/hub.go` calls `CreatePlaylist`, which `core/playlist/playlist.go` does not define. The model uses the playlist's `New`.
- Message payloads (`interface{}` or generic `Data`) are narrowed to the variants the hubs and the player send.
- `TaskQueue.WorkerPool.Submit` and `MessageQueue.WorkerPool.Submit`: when the ctx is done and the send could proceed, Go picks either case. The model takes that choice as a parameter rather than leaving it open.
- `Peers.NextHost`: Go's map iteration order is unspecified. The contract names "a member of minimal join time" rather than the one Go would pick.
- HTTP handlers, the frontend JavaScript, `main.go`, the vite configs, gzip, the views and the type-only files are outside this model. Of `api/room_entry_handler.go`, only `UserProfile.Index` is modelled.
- internal/room/playlist.go is not part of this model.
- `LinkedList.List.InsertBefore` takes a non-nil node. Go's `InsertBefore(v, nil)` panics on `node.prev` (utils/linkedlist/linked_list.go:110), and every call site passes a node.
- `LinkedList.List.InsertAt`, `InsertAfter` and `Remove` require a node that is nil, detached or in this list. Go also accepts a node of another list and corrupts both lists: the node is spliced into the foreign ring while this list's `size` changes (utils/linkedlist/linked_list.go:74-82, 114-131). Every call site passes the list's own nodes.
- `LinkedList.List.Swap` accepts nodes of other lists, and one node of another list paired with a node of this list or a detached one fails as in Go. It excludes only two distinct nodes that both belong to the same other list. Go never checks that `n1.l` is the receiver (utils/linkedlist/linked_list.go:133-179): it swaps the two nodes inside their own list and leaves this list and its `size` alone. The model does not cover that swap, because it changes a list outside the receiver's footprint. Every call site passes the list's own nodes.
- `WebPlayer.MusicPlayer.Download` and `LegacyPlayer.MusicPlayer.Download` take the host's id as a parameter. The nil dereference of `mp.hub.Host.ID` when the room has no host (web/internal/room/music_player.go:184, internal/room/music_player.go:175) is therefore not modelled.
- The `Task` interface of core/mq/worker.go:9-14 declares neither `Accepted` nor `Rejected`, so core/mq/pool.go:93 and 96 do not compile as written. The model assumes that both callbacks exist.
- `TaskQueue.NewWorkerPool` and `MessageQueue.PoolSizes`: the error texts leave out Go's formatted suffixes, `", given: %v"` after the argument errors (web/internal/taskq/pool.go:45, 48; core/mq/pool.go:40, 43) and `", err: %v"` after the snowflake error (web/internal/taskq/pool.go:55). Only the fixed part of each text is modelled, because the formatting of numbers and foreign errors is not.
- `WebPlaylist.Playlist.Move` and `LinkedList.List.Swap` leave out the formatted parts of their error texts in the same way. Go's `"node not found, id: %v"` and `"node not found, other: %v"` (web/internal/room/playlist.go:98, 107) become `"node not found, id"` and `"node not found, other"`. Go's `"null pointer error, n1: %v, n2: %v"` (utils/linkedlist/linked_list.go:135) prints the nodes and becomes `"null pointer error"`.
- `MusicInfo` embeds the extractor's `ytdlp.InfoJson` metadata (web/internal/room/playlist.go:31-32), and `MusicInfoList` copies it along with the rest. The model carries only `ID`, `URL` and `AudioByte`, because the metadata is the foreign extractor's and no operation here reads it.
