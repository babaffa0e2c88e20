# vibe_ns in Dafny

A model, with proofs, of the hard core of a thread-per-connection chat and BBS
server: the publish/subscribe bus between chat rooms, telnet sessions and
event streams; the telnet decoder and session state machine; the HTTP request
parser and its read loop; the JSON and event-stream text the server exchanges
with browsers; the shutdown registries; and the connection slots.

`dafny verify dfyconfig.toml` checks everything.

## How the model is laid out

| files | part of the server |
|---|---|
| `Store`, `ChatDb`, `Rooms`, `ChatView` | the message table, the room choke point and subscriber array, the chat screen |
| `Bus`, `BusInvariants`, `BusTheorems`, `BusHistory`, `BusScreens`, `BusRuns` | posters, event streams and telnet sessions as one interleaved step system; what a stream sends, told by its room's history; what a screen shows after each key; the runs in which a stream misses a message |
| `Iac`, `IacRoundTrip`, `Fsm`, `TelnetSpec`, `TelnetTheorems`, `TelnetReplay`, `TelnetSession` | decoder, transition table, session, poll loop; the games' world as a replay of the logged calls |
| `HttpProto`, `HttpStability`, `HttpRender`, `HttpVerdicts`, `HttpRead` | request parser, stability of its verdicts, round trip, refused and odd input, read loop |
| `Text`, `Json`, `JsonBuffers`, `Sse`, `Posting`, `ClientPayload`, `PostToStream`, `EndToEnd` | JSON text and buffers, event frames, the POST handler, what it makes of a client's payload, the way from a post to a stream, and the bus and the wire together |
| `Registry`, `Shutdown` | the session list, and shutdown against register, drain and unregister |
| `Connector` | slot accounting of the thread spawner |

Code that works in place is a class or a method with loops, proved against a
specification function; what the server promises is then proved about those
functions. Concurrency is a step system: one step is one lock section, one
database call, one pipe read or write, or thread-local work, and theorems
quantify over every sequence of enabled steps.

Conventions:

- A C `char` is a Dafny `char`, a buffer of received bytes is a `string`; a
  telnet byte is an `int` between 0 and 255. A NUL-terminated argument is a
  string without NUL.
- Flags that threads share (`shutdown_requested`, `active`) are read and
  written in step order, and a pipe write or read is one step. A pipe holds
  65536 bytes; a write to a full pipe changes nothing.
- Row ids grow by the shared counter and stay below 2^63 - 1, the value the
  paging query uses for "no bound".
- A game is an arbitrary deterministic handler on a world of its own.
- Bytes of the request buffer behind what was received never look like part of
  a number to the Content-Length scan.
- Clocks, storage failures, failing sends and what `poll` and `recv` report
  are parameters or steps.

## What was found

Where a property is false of the code, the code is modelled as it is, a
concrete run or input shows the failure, and the exact condition is proved:

- An event stream can wait on an empty pipe with a message undelivered, and no
  write to it ahead, in three ways only: the message was fanned out between the
  stream's tail read and its subscription; the last query returned a full batch
  of 64 rows; or the stream was refused a slot by a full room or has no pipe,
  and then never sends anything. All of them happen
  (`BusRuns.WindowStrandsAMessage`, `BusRuns.FullPullStrandsAMessage`,
  `BusRuns.FullRoomStrandsAMessage`, `BusRuns.NoPipeStrandsAMessage`);
  `BusTheorems.QuietStreamIsComplete` says for every waiting stream exactly when
  nothing is missing.
- A request verdict can change when more bytes arrive: a blank Content-Length
  value is read across line ends into the body
  (`HttpRender.BlankLengthIsUnstable`). `HttpStability.VerdictIsFinalExactly`
  says exactly when a verdict holds on every extension,
  `HttpRead.SplitsCannotBeSeen` exactly for which streams the read loop's answer
  does not depend on how they are cut.
- A telnet subnegotiation comes back unchanged exactly when neither its option
  nor its payload has a byte 255 and the payload has at most 254 bytes
  (`IacRoundTrip.ItemSurvives`): inside a block a doubled 255 is dropped, not
  kept (`IacRoundTrip.DoubledBytesAreLost`).
- A user named `body` cannot post (`ClientPayload.BodyCannotPost`): the quoted
  name is taken for the key. A line end next to a colon, which JSON allows,
  hides the value behind it. `ClientPayload.SpacedPostStores` gives the exact
  condition for every name, text and spacing (a name that ends in a quote and
  that word is hit as well), and `ClientPayload.PostStores` says that among
  legal names, as the browser client sends them, it is the only one.
- README.md:124 of the server says `since=0` gives the newest rows. The query
  in src/features/chat/chat_db.c:196-197 returns the oldest rows above the
  given id. `Store.SinceZeroShowsOldest` is a room of two messages in which the
  two differ; `Store.SinceZeroIsNewest` says that they agree exactly when the
  whole room fits the limit.

## Model

| member | source | states |
|---|---|---|
| `Store.RankSplits` | src/features/chat/chat_db.c:187-236 | in an id-ordered room a cursor cuts the messages into a prefix (the older query) and a suffix (the newer query) with nothing lost or doubled |
| `Store.AboveMembers` | src/features/chat/chat_db.c:187-208 | the newer query holds exactly the stored ids above the cursor |
| `Store.AboveAdvance` | src/features/chat/http_chat.c:246-253 | moving the cursor onto the next unseen message removes that message, and only it, from what is still to be seen |
| `Store.AboveTail` | src/features/chat/http_chat.c:229 | a stream that starts at the tail has nothing to send yet |
| `Store.SinceZeroIsNewest` | src/features/chat/chat_db.c:187-208 | the query from 0 gives the newest rows, as the documentation says, if and only if the whole room fits the limit (or the limit is 0) |
| `Store.SinceZeroShowsOldest` | src/features/chat/chat_db.c:196-197 | a room of two messages where the query from 0 with limit 1 gives the older one |
| `ChatDb.IdsValid` | src/features/chat/chat_db.c:152-174 | the shared counter makes every room's index strictly increasing, positive and below the paging sentinel |
| `ChatDb.Table.InsertMessage` | src/features/chat/chat_db.c:152-174 | success appends one row with a fresh, larger id; failure returns -1 and changes nothing; only the posted room's index grows |
| `ChatDb.Table.MessagesSince` | src/features/chat/chat_db.c:187-208 | the scan returns exactly the oldest `min(limit, max)` rows of the room above the id, oldest first |
| `ChatDb.Table.MessagesBefore` | src/features/chat/chat_db.c:210-236 | the scan returns exactly the newest `min(limit, max)` rows of the room below the id (0: no bound), oldest first |
| `ChatDb.Table.MaxMessageId` | src/features/chat/chat_db.c:238-258 | the room's greatest id, 0 for an empty room |
| `Rooms.CleanNameKeepsNames` | src/features/chat/room.c:110-123 | sanitizing a name leaves only name characters, never lengthens it, and leaves it alone exactly if it was clean |
| `Rooms.CleanNameAppend` | src/features/chat/room.c:110-123 | two names after each other are sanitized each for itself, so the order is kept |
| `Rooms.CleanNameKeepsEach` | src/features/chat/room.c:110-123 | every name character is kept as often as it occurs, and no other |
| `Rooms.SanitizeText` | src/features/chat/room.c:98-108 | the buffer holds the sanitized text cut to its room, terminated, and the length is returned |
| `Rooms.SanitizeUser` | src/features/chat/room.c:111-123 | the buffer holds the first name characters that fit, terminated |
| `Rooms.SwapRemovedIsRemoval` | src/features/chat/room.c:181-186 | swap-remove takes out exactly one occurrence, as a multiset, whatever the order becomes |
| `Rooms.Room.Subscribe` | src/features/chat/room.c:164-173 | the descriptor is appended unless 256 are listed, then nothing changes |
| `Rooms.Room.Unsubscribe` | src/features/chat/room.c:175-188 | the array becomes the swap-removal of the first match; a descriptor that is not listed changes nothing |
| `Rooms.Room.Post` | src/features/chat/room.c:129-158 | rejected exactly for an empty sanitized name, an empty text or a failed insert; otherwise one sanitized row is stored and every listed descriptor is written to once |
| `ChatView.LivePage` | src/features/chat/chat.c:167-180 | following live, a redraw shows exactly the newest page and remembers its first id |
| `ChatView.DrawnFresh` | src/features/chat/chat.c:167-180 | a redraw keeps mode, size and whether the reader follows; one who follows sees exactly the newest messages that fit |
| `ChatView.OnePageOlder` | src/features/chat/chat.c:348-355 | `p` shows exactly the page that ends before the oldest shown message, and does nothing at the first message |
| `ChatView.PageExtends` | src/features/chat/chat.c:348-355 | one press, after any posts and resize, lengthens the stretch shown by one page without gap or overlap |
| `ChatView.PagesTileHistory` | src/features/chat/chat.c:167-180 | all pages shown by any run of `p` presses, with posts and resizes in between, form one contiguous stretch ending at the message newest at the start |
| `ChatView.PagingStopsAtFirst` | src/features/chat/chat.c:348-355 | the oldest shown id strictly decreases with each press, and the walk stops exactly at the room's first message |
| `ChatView.PrintableIsClean` | src/features/chat/chat.c:394-401 | a composed line is stored unchanged by the sanitizer |
| `ChatView.ChatState.constructor` | src/features/chat/chat.c:410-428 | the feature starts outside any room, in the lobby if a name is known |
| `ChatView.ChatState.RenderRoom` | src/features/chat/chat.c:167-180 | the page read is the newest one when live, otherwise the one before the oldest shown |
| `ChatView.ChatState.EnterRoom` | src/features/chat/chat.c:237-255 | joining subscribes a session with a pipe before the newest page is drawn; afterwards it follows the room and shows its newest messages |
| `ChatView.ChatState.LeaveRoom` | src/features/chat/chat.c:257-270 | leaving gives the slot back, clears the notify hook and returns to the lobby |
| `ChatView.ChatState.OnNotify` | src/features/chat/chat.c:276-286 | a wake-up redraws exactly when the session is in a room and follows live, and then shows the newest messages |
| `ChatView.ChatState.HandleInRoom` | src/features/chat/chat.c:335-366 | what each key does to page, mode, room and subscription; `n` follows the room again and shows its newest messages, `p` stops following when there is something older; only `Q` ends the feature |
| `ChatView.ChatState.SendLine` | src/features/chat/chat.c:376-387 | Enter posts the typed line exactly once unless it is empty, the name has no name character or storing fails, and then changes neither table nor pipes; the session follows the room again and shows its newest messages |
| `ChatView.ChatState.EditLine` | src/features/chat/chat.c:389-402 | editing keeps the line printable and within its buffer |
| `ChatView.ChatState.HandleCompose` | src/features/chat/chat.c:368-403 | Esc abandons, Enter sends, every other key edits; only a sent line changes the table and wakes anyone |
| `ChatView.ChatState.Destroy` | src/features/chat/chat.c:445-456 | a session that ends inside a room gives its slot back |
| `BusInvariants.StepKeeps` | src/features/chat/http_chat.c:228-261 | every step of every thread keeps the bus invariant: slot ownership, pending wake-ups, stream contents, screen contents |
| `BusInvariants.RunKeeps` | src/features/chat/room.c:147-188 | the invariant holds after every run |
| `BusInvariants.InitOk` | src/features/chat/room.c:38-58 | it holds at start-up for any stored history |
| `BusInvariants.HolderIsListed` | src/features/chat/room.c:164-173 | a session that holds a slot is in its room's array |
| `BusTheorems.NoLostWakeUp` | src/features/chat/room.c:143-156 | on every run, when a stream waits on an empty pipe, each message above its cursor is still to be written to it, or was fanned out before it subscribed and nothing was pulled since, or was left by a full pull, or the stream has no slot or no pipe; a full pipe loses nothing |
| `BusTheorems.DeafStreamIsSilent` | src/features/chat/room.c:170-171 | on every run, a stream refused by a full room or without a pipe never queries and never sends |
| `BusTheorems.StreamIsContiguousPrefix` | src/features/chat/http_chat.c:228-253 | on every run, what a stream sent is a gap-free, duplicate-free, ordered prefix of the room above the cursor it started with; `BusHistory.OnlyNewMessages` says what that cursor means |
| `BusTheorems.QuietStreamIsComplete` | src/features/chat/http_chat.c:244-253 | in a quiet room a waiting stream has sent everything if and only if its last query left nothing behind (before the first one: nothing was fanned out ahead of its subscription; without a slot or a pipe: nothing was stored after its start) |
| `BusHistory.OnlyNewMessages` | src/features/chat/http_chat.c:228-253 | on every run, what a stream sent since it read the tail is a prefix of the messages its room gained since then, and none of those the room held at that moment |
| `BusHistory.AllNewMessages` | src/features/chat/http_chat.c:228-253 | in a quiet room a waiting stream has sent all of them if and only if its last query left nothing behind |
| `BusTheorems.LiveScreenIsFresh` | src/features/chat/chat.c:276-286 | on every run, an idle live telnet view shows exactly the newest page except for posts whose write to it is still ahead; in a quiet room exactly the newest page |
| `BusScreens.KeyDraws` | src/features/chat/chat.c:335-387 | in every state the bus can reach and whatever other threads do before the redraw: after `n` and a sent line a session shows the newest messages of that moment and follows the room, after `p` the page before the oldest message it showed, after Esc whichever it followed |
| `BusScreens.EnterDraws` | src/features/chat/chat.c:237-255 | entering a room ends, with any steps of others in between, in following it with its newest messages shown |
| `BusScreens.WakeUpDraws` | src/features/chat/chat.c:276-286 | a wake-up draws the newest messages of the moment of the redraw for a session that follows its room |
| `BusScreens.WakeUpIgnored` | src/features/chat/chat.c:276-286 | one that reads older pages keeps its screen |
| `BusScreens.LeaveReturns` | src/features/chat/chat.c:257-270 | leaving ends in the lobby, without room or slot |
| `BusTheorems.DescriptorsAreOwned` | src/features/chat/room.c:164-188 | on every run, a listed descriptor belongs to an open session in that room and occurs once across all rooms |
| `BusTheorems.SubscribersAreListedOnce` | src/features/chat/room.c:164-173 | on every run, a slot-holding session is listed exactly once |
| `BusTheorems.FanWrites` | src/features/chat/room.c:148-156 | between any two moments of a fan-out, whatever other threads do, a session gets one byte for each of its listings passed |
| `BusTheorems.PostWakesOnce` | src/features/chat/room.c:147-156 | on every run, between taking the lock and being ready to release it a post writes exactly one byte to each slot-holding session of its room |
| `BusRuns.WindowStrandsAMessage` | src/features/chat/http_chat.c:229-231 | a run: a post between the tail read and the subscription is never announced |
| `BusRuns.FullPullStrandsAMessage` | src/features/chat/http_chat.c:245-253 | a run: of 65 posts drained by one wake the last is not sent |
| `BusRuns.FullRoomStrandsAMessage` | src/features/chat/room.c:170-171 | a run: the 257th stream of a room waits although a message was posted after it asked for a slot |
| `BusRuns.NoPipeStrandsAMessage` | src/protocol/http/http_session.c:253-260 | a run: a stream whose pipe could not be made waits although a message was posted after it subscribed |
| `Iac.DecodeAppend` | src/protocol/telnet/telnet_proto.c:20-111 | feeding xs and then ys gives the state and events of feeding xs + ys |
| `Iac.DecodeKeepsWellformed` | src/protocol/telnet/telnet_proto.c:78-101 | the block buffer never passes 255 bytes, only the four commands are reported, no reported block holds a 255 |
| `Iac.LaidMeansSeparated` | src/protocol/telnet/telnet_proto.c:33-38 | slices lie inside the buffer, are non-empty, in order, and never touch |
| `Iac.IacParser.constructor` | src/protocol/telnet/telnet_proto.c:12-18 | a fresh parser is in the data state with an empty block |
| `Iac.IacParser.Keep` | src/protocol/telnet/telnet_proto.c:78-89 | the first block byte is the option, later ones are kept while the buffer has room |
| `Iac.IacParser.Control` | src/protocol/telnet/telnet_proto.c:43-107 | any byte that is not plain data steps the parser as the one-byte decoder does, whose answers `IacRoundTrip` fixes item by item, and makes at most one callback |
| `Iac.IacParser.Feed` | src/protocol/telnet/telnet_proto.c:20-111 | the slicing loop refines the one-byte decoder: its callbacks, flattened, are the decoder's events in order, and its slices are separated ranges of the input |
| `IacRoundTrip.ItemRoundTrip` | src/protocol/telnet/telnet_proto.c:40-107 | any data run, two-byte command, option command or block, also with 255 as option, decodes from the data state and back to it, as what is reported for it: nothing for a two-byte command |
| `IacRoundTrip.StreamRoundTrip` | src/protocol/telnet/telnet_proto.c:40-107 | so does any sequence of them; 255s inside blocks vanish, the first byte left is the option, and at most 254 more are reported |
| `IacRoundTrip.DecodeShort` | src/protocol/telnet/telnet_proto.c:56-68 | IAC and a byte that is neither IAC, SB nor an option command, such as NOP, reports nothing and leaves the decoder as it was |
| `IacRoundTrip.DecodeStray` | src/protocol/telnet/telnet_proto.c:92-101 | inside a block, IAC and a byte other than SE reports nothing and leaves the decoder as it was |
| `IacRoundTrip.StrayInBlock` | src/protocol/telnet/telnet_proto.c:78-101 | so a block with such a pair anywhere in it is reported as if the pair were not there |
| `IacRoundTrip.BlockSurvives` | src/protocol/telnet/telnet_proto.c:78-101 | what is reported for a block is the block if and only if it has no 255 as option or in the payload and at most 254 payload bytes |
| `IacRoundTrip.ItemSurvives` | src/protocol/telnet/telnet_proto.c:78-101 | from every state the decoder can be in, an item comes back as what it stands for if and only if it is no block or such a block |
| `IacRoundTrip.DoubledBytesAreLost` | src/protocol/telnet/telnet_proto.c:78-101 | two blocks that come back changed: a payload byte 255 is gone, and an option 255 gives way to the first payload byte |
| `IacRoundTrip.WindowSizeRecovered` | src/protocol/telnet/telnet_session.c:187-200 | a window size is recovered exactly if none of its four bytes is 255, and otherwise the report is ignored |
| `IacRoundTrip.WriteCommand` | src/protocol/telnet/telnet_proto.c:113-128 | three bytes and 3 if they fit, else -1 and nothing written |
| `IacRoundTrip.WriteNegotiations` | src/protocol/telnet/telnet_session.c:213-235 | the three opening offers in order |
| `IacRoundTrip.NegotiationStream` | src/protocol/telnet/telnet_session.c:213-235 | a peer with the same decoder reads those offers back |
| `Fsm.Lookup` | src/core/fsm.c:23-48 | the table scan returns the first row for state and event, or none |
| `TelnetSpec.TableIsTransition` | src/protocol/telnet/telnet_session.c:359-374 | scanning the 14-row table is one transition function, for every state and event; no pair occurs twice |
| `TelnetTheorems.ReachableInv` | src/protocol/telnet/telnet_session.c:132-164 | after every input: deferred flags clear, a game lives exactly in IN_GAME until closed, CLOSING and INIT unreachable, negotiating implies outstanding replies |
| `TelnetTheorems.EveryGameIsDestroyedOnce` | src/protocol/telnet/telnet_session.c:546-550 | over every session, each successful create of an item is matched by exactly one destroy of that item and the missing-game recovery never runs |
| `TelnetTheorems.LifeBalances` | src/protocol/telnet/telnet_session.c:286-339 | in a lifecycle-abiding log creates and destroys of an item differ by the one running |
| `TelnetTheorems.KeysOnlyWhileRunning` | src/protocol/telnet/telnet_session.c:313-339 | a key or a destroy reaches an item only while it runs, a create only while none runs |
| `TelnetTheorems.QuitItemUnreachable` | src/protocol/telnet/telnet_session.c:264-283 | no key selects the menu item without a game |
| `TelnetTheorems.SilenceEndsSession` | src/protocol/telnet/telnet_session.c:499-521 | from every reachable open state one poll timeout closes the session if and only if no reply is outstanding, and two always do |
| `TelnetTheorems.ClosedIsAbsorbing` | src/protocol/telnet/telnet_session.c:132-164 | a closed session stays closed and touches no game, whatever is still decoded from the buffer |
| `TelnetTheorems.FeedAppend` | src/protocol/telnet/telnet_session.c:543 | two chunks give the session and decoder of their concatenation |
| `TelnetTheorems.SplitRunsAlike` | src/protocol/telnet/telnet_session.c:486-544 | cutting every chunk into single bytes changes nothing observable |
| `TelnetTheorems.ChunkingIsInvisible` | src/protocol/telnet/telnet_session.c:486-544 | two input histories that differ only in how the bytes were cut into chunks give the same state, the same create, key and destroy calls in the same order and the same world, also with a quit in mid-chunk |
| `TelnetReplay.CallsMakeTheWorld` | src/protocol/telnet/telnet_session.c:286-339 | over every session, the games' world is what the logged create, key, notify and destroy calls, replayed in order with the logged keys and sizes, make of the first one; the log tells truly which creates succeeded and which keys ended a game, and never leaves an ended game undestroyed |
| `TelnetReplay.KeyReachesGame` | src/protocol/telnet/telnet_session.c:313-339 | a key typed in a game reaches that game's handler with the session's size; a game that ends is destroyed and the menu is shown |
| `TelnetReplay.TypingReachesGame` | src/protocol/telnet/telnet_session.c:132-164 | a chunk of typing, telnet-encoded, is given to a game that goes on key by key, in order and with NULs left out, and does nothing else |
| `TelnetReplay.MenuKeyStartsGame` | src/protocol/telnet/telnet_session.c:264-310 | a menu key creates its item's game with the session's size and enters it, or stays in the menu if that fails |
| `TelnetReplay.OtherMenuKeys` | src/protocol/telnet/telnet_session.c:264-283 | in the menu `q`, `Q` and Ctrl-C say goodbye and close, and every other key that is no item's does nothing |
| `TelnetReplay.WindowReport` | src/protocol/telnet/telnet_session.c:187-200 | an arriving window-size report sets the session's size and nothing else, unless one of its bytes is 255, and then it changes nothing |
| `TelnetReplay.LongWindowReport` | src/protocol/telnet/telnet_session.c:187-200 | bytes behind the four of a report do not matter |
| `TelnetReplay.OtherBlocks` | src/protocol/telnet/telnet_session.c:187-200 | a block for any other option, or with less than four bytes, changes nothing in the session |
| `TelnetReplay.WakeUpNotifies` | src/protocol/telnet/telnet_session.c:523-533 | a wake-up calls the notify hook once, with the session's size, and changes nothing else |
| `TelnetReplay.RepliesSettle` | src/protocol/telnet/telnet_session.c:167-184 | after any option replies the capabilities are those agreed to, and echo as the last word on it says |
| `TelnetReplay.ThirdReplyShowsMenu` | src/protocol/telnet/telnet_session.c:167-184 | a new session shows its menu once, at the third option reply and not before |
| `TelnetReplay.InterruptsAreInvisible` | src/protocol/telnet/telnet_session.c:506-509 | interrupted polls change nothing, wherever they fall |
| `TelnetReplay.HangUpCloses` | src/protocol/telnet/telnet_session.c:537-541 | a closed connection says goodbye and closes the session; a shutdown only leaves the loop |
| `TelnetSession.TelnetSession.constructor` | src/protocol/telnet/telnet_session.c:431-468 | a created session is in its initial state, 80 by 24, no game, no flags, with a fresh decoder |
| `TelnetSession.TelnetSession.MenuHandleKey` | src/protocol/telnet/telnet_session.c:264-283 | the first menu item with that key, or -1 |
| `TelnetSession.TelnetSession.StartGame` | src/protocol/telnet/telnet_session.c:286-310 | creates the item's game or reports failure, as the specification says |
| `TelnetSession.TelnetSession.GameKeyPressed` | src/protocol/telnet/telnet_session.c:313-339 | delivers the key as the specification does, which `TelnetReplay.KeyReachesGame` fixes; a finished game is destroyed at once and the end is deferred |
| `TelnetSession.TelnetSession.RunAction` | src/protocol/telnet/telnet_session.c:213-352 | each action changes the session as specified |
| `TelnetSession.TelnetSession.DispatchEvent` | src/core/fsm.c:23-48 | an event runs its row's action and then sets the next or the error state; without a row nothing changes |
| `TelnetSession.TelnetSession.ConsumeFlags` | src/protocol/telnet/telnet_session.c:146-163 | deferred game-over, quit and selection are consumed in this order |
| `TelnetSession.TelnetSession.OnData` | src/protocol/telnet/telnet_session.c:132-164 | a slice acts as its bytes one by one; NUL is skipped, nothing is delivered after close |
| `TelnetSession.TelnetSession.OptionReply` | src/protocol/telnet/telnet_session.c:167-184 | capability flags and the countdown of outstanding replies, the last of which ends negotiation |
| `TelnetSession.TelnetSession.Subneg` | src/protocol/telnet/telnet_session.c:187-200 | only a window-size block with at least four bytes changes the size |
| `TelnetSession.TelnetSession.Receive` | src/protocol/telnet/telnet_session.c:543 | one buffer through decoder and callbacks acts as the decoded events in order |
| `TelnetSession.TelnetSession.HandleInput` | src/protocol/telnet/telnet_session.c:505-543 | one turn of the poll loop is one step of the specification |
| `TelnetSession.TelnetSession.DestroyGame` | src/protocol/telnet/telnet_session.c:546-550 | a game still running after the loop is destroyed once |
| `TelnetSession.TelnetSession.RunSession` | src/protocol/telnet/telnet_session.c:486-550 | the whole loop and the teardown refine the specified run |
| `HttpProto.DecodeChar` | src/protocol/http/http_proto.c:42-54 | a valid percent triple is one character, any other percent sign stands for itself, plus is a space only in queries |
| `HttpProto.UrlDecodeInto` | src/protocol/http/http_proto.c:38-56 | the buffer holds the decoded text cut to its room, terminated |
| `HttpProto.ParseHeaders` | src/protocol/http/http_proto.c:140-159 | the header loop finds the end of the block, the last Content-Length and any keep-alive |
| `HttpProto.ParseRequest` | src/protocol/http/http_proto.c:124-170 | the parser returns the specified verdict with all fields |
| `HttpStability.VerdictExtends` | src/protocol/http/http_proto.c:124-170 | a verdict on a buffer whose length value is settled is the same, with identical fields, on every extension |
| `HttpStability.ExposedVerdictChanges` | src/protocol/http/http_proto.c:151-153 | with a length value still open at the end of the buffer one more digit changes the verdict |
| `HttpStability.VerdictIsFinalExactly` | src/protocol/http/http_proto.c:124-170 | a verdict holds on all extensions if and only if no length value is open |
| `HttpStability.SettledLength` | src/protocol/http/http_proto.c:151-153 | a Content-Length with a value on its own line is settled before the header block ends |
| `HttpStability.PrefixLength` | src/protocol/http/http_proto.c:151-153 | a shorter buffer never shows a larger length |
| `HttpStability.ShorterPrefixNeedsMore` | src/protocol/http/http_proto.c:124-170 | every shorter prefix of a complete request asks for more, where its length is read inside the header block or is 0 with all that follows |
| `HttpStability.UnsettledPrefix` | src/protocol/http/http_proto.c:151-165 | where it is not, the header block alone is accepted as a request without body and the whole stream is judged otherwise |
| `HttpStability.PrefixesNeedMoreExactly` | src/protocol/http/http_proto.c:124-170 | no shorter prefix of a complete request is taken for a request if and only if that condition on the length holds |
| `HttpStability.VerdictOfPrefix` | src/protocol/http/http_proto.c:124-170 | under that condition a verdict on any prefix of a stream is the verdict on the stream |
| `HttpRender.PathRoundTrip` | src/protocol/http/http_proto.c:38-56 | any path, percent-encoded at will wherever it need not be and with either case of hex digits, decodes to itself as far as the buffer goes |
| `HttpRender.RequestLineRoundTrip` | src/protocol/http/http_proto.c:86-121 | a request line written for a method, a path and a query, of any length, parses to that method and to the path and query cut to their buffers |
| `HttpRender.WrittenLine` | src/protocol/http/http_proto.c:71-83 | a line written with CRLF or LF is read back without its ending (section 3.5 of RFC 7230) |
| `HttpRender.LengthValueRead` | src/protocol/http/http_proto.c:151-153 | a Content-Length line, in any letter case, with any blanks and a plus sign, yields its number, saturated |
| `HttpRender.NumberRead` | src/protocol/http/http_proto.c:151-153 | a written number reads as itself or the largest long, a negative one as 0 |
| `HttpRender.LengthFieldIs` | src/protocol/http/http_proto.c:151 | a line is taken for a Content-Length exactly if it begins with that name in any mix of case |
| `HttpRender.KeepAliveIs` | src/protocol/http/http_proto.c:154-157 | a line asks for keep-alive exactly if it begins with `connection:` in any mix of case and has `keep-alive` behind that |
| `HttpRender.RequestRoundTrip` | src/protocol/http/http_proto.c:124-170 | any request, with any mix of line endings and other headers around its Content-Length (earlier ones are overruled), or with none and no body, parses to the same fields and to a total equal to its length |
| `HttpRender.BlankLengthIsUnstable` | src/protocol/http/http_proto.c:151-153 | a concrete request with a blank length that is accepted, and no longer once a digit follows |
| `HttpVerdicts.MalformedExactly` | src/protocol/http/http_proto.c:88-93 | a buffer is refused if and only if it has a first line and that line has no space |
| `HttpVerdicts.StrayPercentsStay` | src/protocol/http/http_proto.c:42-54 | a percent sign without two hex digits stands for itself, wherever it is |
| `HttpVerdicts.PlusIsSpace` | src/protocol/http/http_proto.c:42-54 | decoding a query is decoding it with its plus signs turned into spaces, however it is escaped |
| `HttpRead.VerdictIsDecided` | src/protocol/http/http_session.c:270-307 | for any parser whose verdicts are final, a verdict of the read loop is the verdict on the whole window |
| `HttpRead.BlindExactlyIfFinal` | src/protocol/http/http_session.c:270-307 | for any parser, the loop's outcome after full delivery is the same for every split if and only if a verdict on a prefix is always the verdict on the whole |
| `HttpRead.ParseIsFinal` | src/protocol/http/http_proto.c:124-170 | the request parser is such a parser on a stream if and only if the stream's length is read inside its header block or is 0 with all that follows |
| `HttpRead.EarlyVerdictsAreRight` | src/protocol/http/http_session.c:270-307 | on such streams, whatever the recv sizes and whenever the loop answers, accept, 400 or 413 is what one parse of everything would give |
| `HttpRead.SplitsCannotBeSeen` | src/protocol/http/http_session.c:270-307 | once everything has been delivered the outcome is the same for every split of the stream if and only if the stream is such a one |
| `HttpRead.ReadRequest` | src/protocol/http/http_session.c:270-307 | the loop answers as the first report that settles the matter demands: a malformed prefix 400, a complete one acceptance of that request, a full buffer that asks for more 413, a timeout 408, a closed or failed connection nothing; and recv is never called without room |
| `HttpRead.LoopAnswers` | src/protocol/http/http_session.c:270-307 | for any parser the specified loop gives such an answer |
| `HttpRead.OneAnswer` | src/protocol/http/http_session.c:270-307 | there is only one such answer |
| `HttpRead.AnswersAreEarned` | src/protocol/http/http_session.c:270-307 | 400 only for a received prefix that is malformed, acceptance only of a request that a received prefix holds, 413 only for a full buffer that is incomplete, 408 only at a timeout, silence only at a closed or failed connection |
| `HttpRead.FullDelivery` | src/protocol/http/http_session.c:270-307 | once a stream whose length is settled has been delivered, however it was cut, each of these answers is given if and only if its reason holds of the whole stream |
| `Json.EscapeAppend` | src/features/chat/http_chat.c:37-57 | escaping works character by character |
| `Json.EscapeHasNoControls` | src/features/chat/http_chat.c:37-57 | escaped text holds no control character, so it can neither end a line nor a frame |
| `Json.StringRoundTrip` | src/features/chat/http_chat.c:37-57 | a reader of section 7 of RFC 8259 reads an escaped string back as the original, for every string |
| `Json.NumberRoundTrip` | src/features/chat/http_chat.c:66-68 | a printed long reads back as the same number |
| `Json.ObjectRoundTrip` | src/features/chat/http_chat.c:60-69 | a message object reads back as its four members, in order, with the strings unescaped |
| `JsonBuffers.KeptFits` | src/features/chat/http_chat.c:41 | escaping keeps a prefix of whole characters that fits with its terminator, and drops nothing while eight bytes are free |
| `JsonBuffers.JsonEscape` | src/features/chat/http_chat.c:37-57 | the buffer holds the escape of exactly that prefix, terminated |
| `JsonBuffers.MsgToJson` | src/features/chat/http_chat.c:60-69 | the object text is written at the offset as far as it fits, and its full length is returned |
| `JsonBuffers.NameIsKept` | src/features/chat/http_chat.c:63-64 | a stored name is written whole and unescaped |
| `JsonBuffers.BodyIsKept` | src/features/chat/http_chat.c:63-65 | at least the first 509 characters of a stored text are written |
| `JsonBuffers.StoredMessageFits` | src/features/chat/http_chat.c:60-69 | every stored message is at most 1151 bytes of JSON, so neither the frame buffer nor an array slot cuts it |
| `JsonBuffers.StoredMessageReads` | src/features/chat/http_chat.c:60-69 | a stored message reads back with its id, name and time and the kept part of its text |
| `JsonBuffers.RenderArray` | src/features/chat/http_chat.c:150-163 | the whole array is written, and the offset never reaches the capacity |
| `JsonBuffers.GetMessages` | src/features/chat/http_chat.c:137-166 | the response is the array of exactly the oldest rows above `since`, with the limit clamped to 1..100 |
| `JsonBuffers.ArrayReads` | src/features/chat/http_chat.c:155-161 | that array reads back as the rows, one object each, in order |
| `Sse.FrameReads` | src/protocol/http/http_session.c:177-193 | a reader of sections 9.2.5 and 9.2.6 of the WHATWG HTML standard sees one frame as one event with exactly its text, and a comment as none |
| `Sse.WireReads` | src/protocol/http/http_session.c:177-193 | any mix of frames and comments reads back as the frames' texts in order |
| `Sse.CutWireReads` | src/protocol/http/http_session.c:177-193 | a stream broken off anywhere delivers whole messages, in order, from the first on |
| `Posting.Match` | src/features/chat/http_chat.c:84 | the first textual occurrence of the quoted key, or none if there is none |
| `Posting.JsonGetString` | src/features/chat/http_chat.c:78-109 | a found value is unescaped, cut to the buffer and terminated; otherwise the buffer is untouched |
| `Posting.HandlePost` | src/features/chat/http_chat.c:169-189 | 201 exactly if both values are found non-empty, the name has a name character and storing succeeds; then one sanitized row is stored and every subscriber written to, else nothing changes |
| `ClientPayload.UnquoteStringify` | src/features/chat/http_chat.c:94-108 | the scanner returns what the browser escaped, up to its room, if and only if the text has no control character other than newline, return and tab (for others even the sanitized text differs) |
| `ClientPayload.BodyIsShadowed` | src/features/chat/http_chat.c:84-92 | in a payload with any whitespace, an escaped name that is `body` or ends in a quote and `body` hides the key of the text, and no text is found |
| `ClientPayload.BodyIsFound` | src/features/chat/http_chat.c:84-92 | under every other name the key of the text is found, and its value if and only if no line ends around its colon |
| `ClientPayload.NameIsScanned` | src/features/chat/http_chat.c:94-108 | the scanned name is the first 31 characters sent exactly as far as the scanner can decode them |
| `ClientPayload.UserIsRead` | src/features/chat/http_chat.c:84-108 | the user is found and unescaped whatever whitespace surrounds it, if and only if no line ends around its colon |
| `ClientPayload.SpacedPostStores` | src/features/chat/http_chat.c:84-189 | for every name, text and whitespace that JSON allows: a post is accepted if and only if the text is not empty, the name does not hide the key, a name character of it is left and no line ends around a colon; then the stored text is the sanitized first 511 characters if and only if those have no odd control character |
| `ClientPayload.AnyPostStores` | src/features/chat/http_chat.c:169-189 | the same for the payload the browser client writes, which has no whitespace |
| `ClientPayload.PostStores` | src/features/chat/http_chat.c:169-189 | a post of the browser client by a legal name with a text is accepted if and only if the name is not `body`, and stored under that name |
| `PostToStream.EntryIsStored` | src/features/chat/room.c:98-141 | whatever a request body holds, what reaches the table is a stored message |
| `PostToStream.MessageIsOneLine` | src/features/chat/http_chat.c:60-69 | a message object is a single line whatever the row holds |
| `PostToStream.StreamShows` | src/features/chat/http_chat.c:247-253 | a stream of stored messages, with comments anywhere, shows those messages in order, each with at least 509 characters of its text |
| `ClientPayload.BodyCannotPost` | src/features/chat/http_chat.c:84-92 | whatever the text, a post by the user `body` stores nothing |
| `PostToStream.PostReachesStream` | src/features/chat/http_chat.c:60-69 | the row of a legal post, framed, reads back as one event with the poster's name and text |
| `PostToStream.OnlyTheNewRow` | src/features/chat/chat_db.c:187-208 | the query above the tail from before a post returns that post's row and nothing else |
| `PostToStream.WakeUp` | src/features/chat/http_chat.c:244-253 | a stream at the old tail that wakes after one post sends exactly one event, which shows the new row, and moves its cursor onto it |
| `PostToStream.PostAndStream` | src/features/chat/http_chat.c:169-253 | tail read, POST and wake in sequence, for any request body: an accepted post is stored as exactly one row, wakes every subscriber and leaves the wire as exactly one event that shows that row; a refused one changes and sends nothing |
| `PostToStream.LegalPostIsRow` | src/features/chat/room.c:98-141 | for a legal name and a decodable text that row holds the name and the sanitized first 511 characters |
| `PostToStream.RenderMessage` | src/features/chat/http_chat.c:250-252 | the frame buffer holds the whole object and its length is found |
| `PostToStream.Flush` | src/features/chat/http_chat.c:247-253 | one wake sends the batch in order up to the first failing send, and the cursor ends on the last message tried |
| `EndToEnd.BrowserReadsRoom` | src/features/chat/http_chat.c:228-253 | on every run, and wherever its bytes break off, a stream decodes to the messages its room gained after the tail was read, in order, without gap or repetition, from the first of them on; uncut, to exactly the messages sent |
| `Registry.Session.RequestStop` | src/protocol/telnet/telnet_session.c:73-79 | the flag is set and one byte written, unless the pipe is missing or full |
| `Registry.SessionList.Register` | src/protocol/telnet/telnet_session.c:42-51 | the session becomes the first entry, flagged if shutdown is under way |
| `Registry.SessionList.Unregister` | src/protocol/telnet/telnet_session.c:54-65 | exactly that session leaves the list, the order of the rest is kept; an unlisted one changes nothing |
| `Registry.SessionList.ShutdownAll` | src/protocol/telnet/telnet_session.c:68-81 | every listed session is flagged and gets exactly one byte into a working pipe that has room |
| `Shutdown.RunKeeps` | src/protocol/http/http_session.c:45-81 | on every run, a session the sweep has reached is flagged and, while it polls, has a byte pending; the list holds exactly the registered sessions |
| `Shutdown.ShutdownReachesEveryone` | src/protocol/telnet/telnet_session.c:68-81 | after shutdown_all, in every interleaving, each registered session is flagged, and one that polls on a working pipe has a byte to wake it; later registrants start flagged |
| `Shutdown.ShutdownLeavesAllAware` | src/protocol/telnet/telnet_session.c:68-81 | when shutdown_all has returned no registered session is unflagged |
| `Shutdown.AwareStep` | src/protocol/http/http_session.c:201-222 | from then on each step keeps all sessions flagged and lets none begin to poll |
| `Shutdown.NoPollAfterShutdown` | src/protocol/http/http_session.c:201-222 | so in every continuation the sessions that poll are among those that polled already |
| `Shutdown.FlaggedSessionsLeave` | src/protocol/telnet/telnet_session.c:486-533 | in every continuation a flagged session makes at most four more moves of its own, pipe reads aside, before it is out of its loop |
| `Shutdown.NobodyIsStuck` | src/protocol/http/http_session.c:201-222 | after shutdown_all a registered session with a working pipe that has not left can always move on its own |
| `Shutdown.SweepWritesToOpenPipes` | src/protocol/telnet/telnet_session.c:552-556 | shutdown_all only ever writes to a registered session, whose pipe is open |
| `Connector.StepKeeps` | src/core/connector.c:21-35 | every step keeps each slot in exactly one place and `active` equal to the threads at work |
| `Connector.SlotsAreConserved` | src/core/connector.c:58-95 | on every run free slots, threads yet to return one, spawners in progress and slots taken by the destroyer add up to the maximum, and `active` never exceeds the threads holding a slot |
| `Connector.DestroyWaitsForAll` | src/core/connector.c:97-111 | connector_destroy returns only when every thread has returned its slot and none is counted |
| `Connector.Slots.Spawn` | src/core/connector.c:58-95 | the error says which step failed, and only success keeps the slot |
| `Connector.Slots.ThreadBegins` | src/core/connector.c:30 | a thread that holds a slot counts itself in, and the count stays within the slots held |
| `Connector.Slots.ThreadEnds` | src/core/connector.c:32-34 | a finished thread takes back its count and gives back exactly its slot |

## Left out

- Sockets, accept and signal handling, process start-up and privileges: only what they report enters the model, as steps or parameters.
- SQLite itself, its schema and its error codes: a table with an ever-growing id counter stands for it, and a failed insert is a parameter.
- Presence (`chat_room_presence_set` and the users queries): time-based bookkeeping without a property that spans operations.
- The user-name and lobby screens of the chat feature and all drawing: the chat model starts when a room is entered, and a redraw is the page it reads.
- HTTP routing, static files, response headers, GET /api/rooms and GET /api/rooms/{id}/users: they would add only easy members.
- `http_query_get`: the `since` and `limit` values are parameters of the message query, as integers.
- `request_shutdown`: nothing in the server calls it; it appears only as a step that sets the flag.
- Sending inside a telnet session, buffering and partial sends: output is a log of what the session did, not bytes.
- Wall-clock deadlines: a poll timeout is an input that can come at any time, so the results do not depend on how long it takes.
- Weak memory ordering between threads: steps of one run are totally ordered.
- The integer width of the request total: the request buffer of 16384 bytes keeps it far below the range of an int.
- Text outside one byte per character: the browser's UTF-8 bytes are the characters of the model; surrogate escapes are not produced or joined.
- A byte order mark at the start of an event stream, and the event, id and retry fields: the server sends none of them.
- ReadRequest: takes the parser as a function argument and the received bytes as a growing string; the buffer it fills in place is not modelled as an array.
