/**
 The publish/subscribe bus as an interleaved step system: posters store a
 message and then, holding the room lock, write one byte per subscriber;
 SSE streams and telnet sessions poll their pipe, drain it and pull by id.
 Every step is one atomic action of one thread (a lock section, a database
 call, a pipe read or write, or thread-local work).
 */
module Bus {
  import opened Common
  import opened Store
  import Rooms
  import ChatView

  const SSE_BATCH: nat := 64

  /** A poster inside the lock: the message and the next slot to write to. */
  datatype Fan = Fan(id: nat, next: nat)

  /**
   A room: its stored messages, its subscriber array, the posts waiting for the
   lock, the post holding it, and the posts whose fan-out has finished.
   */
  datatype Room = Room(msgs: seq<nat>, subs: seq<int>, waiting: set<nat>, fan: Option<Fan>, done: set<nat>)

  /** Where a session thread stands. */
  datatype Pc =
    | AtTail        // SSE: about to read the room's tail
    | AtSubscribe   // about to take the lock to subscribe
    | AtPoll        // waiting, or free to handle input
    | Draining      // reading the pipe until it is empty
    | AtNotify      // telnet: drained, about to run on_notify
    | AtPull        // about to query the store
    | Sending       // SSE: writing out a pulled batch
    | AtPost(id: nat) // telnet: its own post is not finished
    | AtUnsubscribe // about to take the lock to unsubscribe
    | Finished      // SSE: handler returned

  /**
   What a session has seen. `sent` is all that went out on an SSE stream,
   `missed` the posts already fanned out when it subscribed, `pulled` the row
   count of its last query.
   */
  datatype Reader =
    | Sse(start: nat, cursor: nat, sent: seq<nat>, batch: seq<nat>, missed: set<nat>, pulled: Option<nat>, broken: bool)
    | Telnet(view: ChatView.View)

  /** `ack` holds the messages this session needs no further wake-up for; `stopping` is its shutdown flag. */
  datatype Client = Client(piped: bool, pipe: nat, room: Option<nat>, slot: bool, pc: Pc, ack: set<nat>, reader: Reader, stopping: bool)

  /** Sessions are named by the descriptor of their pipe; a closed one may be reused. */
  datatype State = State(rooms: seq<Room>, clients: map<nat, Client>, lastId: nat)

  function Wfd(sid: nat, c: Client): int {
    if c.piped then sid else -1
  }

  function Bump(c: Client): Client {
    c.(pipe := Min(c.pipe + 1, PIPE_CAPACITY))
  }

  datatype RoomStep =
    | Insert(id: nat)  // the message is stored
    | Lock(id: nat)    // its poster takes the lock
    | Write            // one byte to the next subscriber
    | Unlock

  /** Steps of one session that touch only its own state and read its room's messages. */
  datatype Local =
    | ReadTail
    | PollReady
    | ReadPipe
    | Hangup                       // peer closed, or shutdown noticed
    | Notify
    | Pull
    | Send(ok: bool)
    | Batched                      // batch written out, back to poll
    | SkipSubscribe                // telnet without a pipe never subscribes
    | KeyOlder | KeyLive | KeyCompose | KeyCancel | KeyLeave
    | KeySend                      // compose is empty or storing failed
    | KeyPosted                    // own post finished
    | Resize(rows: nat)
    | Poke                         // shutdown_all sets the flag and writes a byte

  datatype Step =
    | OnRoom(room: nat, what: RoomStep)
    | OnClient(sid: nat, act: Local)
    | Subscribe(sid: nat)
    | Unsubscribe(sid: nat)
    | KeyPost(sid: nat, id: nat)   // telnet Enter: the composed message is stored
    | EnterRoom(sid: nat, room: nat)
    | OpenSse(sid: nat, piped: bool, room: nat)
    | OpenTelnet(sid: nat, piped: bool, rows: nat)
    | Close(sid: nat)

  // ----- Room steps ---------------------------------------------------------------------

  ghost predicate RoomEnabled(r: Room, lastId: nat, what: RoomStep) {
    match what
    case Insert(id) => lastId < id < NO_BOUND
    case Lock(id) => id in r.waiting && r.fan.None?
    case Write => r.fan.Some? && r.fan.value.next < |r.subs|
    case Unlock => r.fan.Some? && r.fan.value.next >= |r.subs|
  }

  function RoomNext(r: Room, what: RoomStep): Room {
    match what
    case Insert(id) => r.(msgs := r.msgs + [id], waiting := r.waiting + {id})
    case Lock(id) => r.(waiting := r.waiting - {id}, fan := Some(Fan(id, 0)))
    case Write => if r.fan.Some? then r.(fan := Some(r.fan.value.(next := r.fan.value.next + 1))) else r
    case Unlock => if r.fan.Some? then r.(fan := None, done := r.done + {r.fan.value.id}) else r
  }

  /** The session a room step writes to, if any. */
  function Target(r: Room, what: RoomStep): int {
    if what.Write? && r.fan.Some? && r.fan.value.next < |r.subs| then r.subs[r.fan.value.next] else -1
  }

  // ----- Session steps ------------------------------------------------------------------

  predicate InRoom(c: Client) {
    c.room.Some?
  }

  ghost predicate LocalEnabled(c: Client, msgs: seq<nat>, done: set<nat>, act: Local) {
    match act
    case ReadTail => c.pc == AtTail && c.reader.Sse?
    case PollReady => c.pc == AtPoll && c.piped && c.pipe > 0
    case ReadPipe => c.pc == Draining
    case Hangup => InRoom(c) && (c.pc == AtPoll || c.pc == AtNotify || (c.pc == Draining && c.pipe == 0))
    case Notify => c.pc == AtNotify && c.reader.Telnet?
    case Pull => c.pc == AtPull && InRoom(c)
    case Send(_) => c.pc == Sending && c.reader.Sse? && c.reader.batch != []
    case Batched => c.pc == Sending && c.reader.Sse? && c.reader.batch == []
    case SkipSubscribe => c.pc == AtSubscribe && c.reader.Telnet? && !c.piped
    case KeyOlder => Key(c, ChatView.InRoom)
    case KeyLive => Key(c, ChatView.InRoom)
    case KeyCompose => Key(c, ChatView.InRoom)
    case KeyLeave => Key(c, ChatView.InRoom)
    case KeyCancel => Key(c, ChatView.Compose)
    case KeySend => Key(c, ChatView.Compose)
    case KeyPosted => c.pc.AtPost? && c.reader.Telnet? && c.pc.id in done
    case Resize(_) => c.pc == AtPoll && c.reader.Telnet?
    case Poke => c.piped
  }

  predicate Key(c: Client, mode: ChatView.Mode) {
    c.pc == AtPoll && c.reader.Telnet? && InRoom(c) && c.reader.view.mode == mode
  }

  function Pulled(c: Client, msgs: seq<nat>): Client {
    match c.reader
    case Sse(_, cursor, _, _, _, _, _) =>
      var batch := Since(msgs, cursor, SSE_BATCH);
      c.(pc := Sending, ack := Elements(msgs), reader := c.reader.(batch := batch, pulled := Some(|batch|)))
    case Telnet(view) =>
      c.(pc := AtPoll, ack := Elements(msgs), reader := Telnet(ChatView.Render(view, msgs)))
  }

  function SentOne(c: Client, ok: bool): Client
    requires c.reader.Sse? && c.reader.batch != []
  {
    var id := c.reader.batch[0];
    if ok then
      c.(reader := c.reader.(cursor := id, sent := c.reader.sent + [id], batch := c.reader.batch[1..]))
    else
      c.(pc := AtUnsubscribe, reader := c.reader.(cursor := id, batch := [], broken := true))
  }

  function WithView(c: Client, pc: Pc, view: ChatView.View): Client {
    c.(pc := pc, reader := Telnet(view))
  }

  function LocalNext(c: Client, msgs: seq<nat>, act: Local): Client {
    match act
    case ReadTail => if c.reader.Sse? then c.(pc := AtSubscribe, reader := c.reader.(start := Tail(msgs), cursor := Tail(msgs))) else c
    case PollReady => c.(pc := Draining)
    case ReadPipe =>
      if c.pipe > 0 then c.(pipe := c.pipe - Min(DRAIN_CHUNK, c.pipe))
      else if c.stopping && InRoom(c) then c.(pc := AtUnsubscribe)
      else c.(pc := if c.reader.Sse? then AtPull else AtNotify)
    case Hangup => c.(pc := AtUnsubscribe)
    case Notify =>
      if c.reader.Telnet? then c.(pc := if InRoom(c) && c.reader.view.atLive then AtPull else AtPoll) else c
    case Pull => Pulled(c, msgs)
    case Send(ok) => if c.reader.Sse? && c.reader.batch != [] then SentOne(c, ok) else c
    case Batched => c.(pc := AtPoll)
    case SkipSubscribe => c.(pc := AtPull)
    case KeyOlder =>
      if c.reader.Telnet? && ChatView.HasOlder(c.reader.view, msgs)
      then WithView(c, AtPull, c.reader.view.(atLive := false)) else c
    case KeyLive => if c.reader.Telnet? then WithView(c, AtPull, ChatView.Live(c.reader.view)) else c
    case KeyCompose => if c.reader.Telnet? then WithView(c, AtPoll, c.reader.view.(mode := ChatView.Compose)) else c
    case KeyCancel => if c.reader.Telnet? then WithView(c, AtPull, c.reader.view.(mode := ChatView.InRoom)) else c
    case KeyLeave => c.(pc := AtUnsubscribe)
    case KeySend => if c.reader.Telnet? then WithView(c, AtPull, ChatView.Sent(c.reader.view)) else c
    case KeyPosted => if c.reader.Telnet? then WithView(c, AtPull, ChatView.Sent(c.reader.view)) else c
    case Resize(rows) => if c.reader.Telnet? then WithView(c, c.pc, c.reader.view.(rows := rows)) else c
    case Poke => Bump(c).(stopping := true)
  }

  // ----- The system -----------------------------------------------------------------------

  function RoomOf(s: State, c: Client): Option<Room> {
    if c.room.Some? && c.room.value < |s.rooms| then Some(s.rooms[c.room.value]) else None
  }

  function MsgsOf(s: State, c: Client): seq<nat> {
    var r := RoomOf(s, c);
    if r.Some? then r.value.msgs else []
  }

  function DoneOf(s: State, c: Client): set<nat> {
    var r := RoomOf(s, c);
    if r.Some? then r.value.done else {}
  }

  ghost predicate Enabled(s: State, step: Step) {
    match step
    case OnRoom(r, what) => r < |s.rooms| && RoomEnabled(s.rooms[r], s.lastId, what)
    case OnClient(sid, act) =>
      sid in s.clients && LocalEnabled(s.clients[sid], MsgsOf(s, s.clients[sid]), DoneOf(s, s.clients[sid]), act)
    case Subscribe(sid) =>
      && sid in s.clients && s.clients[sid].pc == AtSubscribe && (s.clients[sid].reader.Telnet? ==> s.clients[sid].piped)
      && RoomOf(s, s.clients[sid]).Some? && RoomOf(s, s.clients[sid]).value.fan.None?
    case Unsubscribe(sid) =>
      && sid in s.clients && s.clients[sid].pc == AtUnsubscribe
      && RoomOf(s, s.clients[sid]).Some? && RoomOf(s, s.clients[sid]).value.fan.None?
    case KeyPost(sid, id) =>
      && sid in s.clients && Key(s.clients[sid], ChatView.Compose)
      && RoomOf(s, s.clients[sid]).Some? && s.lastId < id < NO_BOUND
    case EnterRoom(sid, r) =>
      && sid in s.clients && r < |s.rooms| && s.clients[sid].pc == AtPoll && s.clients[sid].reader.Telnet? && !InRoom(s.clients[sid])
    case OpenSse(sid, _, r) => sid !in s.clients && r < |s.rooms|
    case OpenTelnet(sid, _, _) => sid !in s.clients
    case Close(sid) =>
      sid in s.clients && (s.clients[sid].pc == Finished || (s.clients[sid].pc == AtPoll && !InRoom(s.clients[sid])))
  }

  function WithRoom(s: State, r: nat, room: Room): State
    requires r < |s.rooms|
  {
    s.(rooms := s.rooms[r := room])
  }

  function WithClient(s: State, sid: nat, c: Client): State {
    s.(clients := s.clients[sid := c])
  }

  /** A poster's action: storing the message, or one write of the fan-out. */
  function RoomMoves(s: State, r: nat, what: RoomStep): State
    requires r < |s.rooms|
  {
    var fd := Target(s.rooms[r], what);
    var s1 := if fd >= 0 && fd in s.clients then WithClient(s, fd, Bump(s.clients[fd])) else s;
    var s2 := WithRoom(s1, r, RoomNext(s.rooms[r], what));
    if what.Insert? then s2.(lastId := what.id) else s2
  }

  function Next(s: State, step: Step): State {
    match step
    case OnRoom(r, what) =>
      if r < |s.rooms| then RoomMoves(s, r, what) else s
    case OnClient(sid, act) =>
      if sid in s.clients then WithClient(s, sid, LocalNext(s.clients[sid], MsgsOf(s, s.clients[sid]), act)) else s
    case Subscribe(sid) =>
      if sid in s.clients && RoomOf(s, s.clients[sid]).Some? then Subscribing(s, sid) else s
    case Unsubscribe(sid) =>
      if sid in s.clients && RoomOf(s, s.clients[sid]).Some? then Unsubscribing(s, sid) else s
    case KeyPost(sid, id) =>
      if sid in s.clients && RoomOf(s, s.clients[sid]).Some? then
        WithClient(RoomMoves(s, s.clients[sid].room.value, Insert(id)), sid, s.clients[sid].(pc := AtPost(id)))
      else s
    case EnterRoom(sid, r) =>
      if sid in s.clients && s.clients[sid].reader.Telnet? then
        WithClient(s, sid, WithView(s.clients[sid], AtSubscribe, ChatView.Enter(s.clients[sid].reader.view)).(room := Some(r), slot := false, ack := {}))
      else s
    case OpenSse(sid, piped, r) =>
      WithClient(s, sid, Client(piped, 0, Some(r), false, AtTail, {}, Sse(0, 0, [], [], {}, None, false), false))
    case OpenTelnet(sid, piped, rows) =>
      WithClient(s, sid, Client(piped, 0, None, false, AtPoll, {}, Telnet(ChatView.View(ChatView.Lobby, false, 0, rows, [], 0, 0)), false))
    case Close(sid) => s.(clients := s.clients - {sid})
  }

  /** chat_room_subscribe, and the thread moves on to its first wait (SSE) or drawing (telnet). */
  function Subscribing(s: State, sid: nat): State
    requires sid in s.clients && RoomOf(s, s.clients[sid]).Some?
  {
    var c := s.clients[sid];
    var r := RoomOf(s, c).value;
    var subs := Rooms.Subscribed(r.subs, Wfd(sid, c));
    var accepted := |r.subs| < Rooms.MAX_SUBSCRIBERS;
    var reader := if c.reader.Sse? then c.reader.(missed := r.done) else c.reader;
    WithRoom(WithClient(s, sid, c.(slot := accepted, ack := r.done, reader := reader,
                                   pc := if c.reader.Sse? then AtPoll else AtPull)),
             c.room.value, r.(subs := subs))
  }

  /** chat_room_unsubscribe at the end of a stream, on leaving a room or in chat_destroy. */
  function Unsubscribing(s: State, sid: nat): State
    requires sid in s.clients && RoomOf(s, s.clients[sid]).Some?
  {
    var c := s.clients[sid];
    var r := RoomOf(s, c).value;
    var reader := if c.reader.Telnet? then Telnet(ChatView.Leave(c.reader.view)) else c.reader;
    WithRoom(WithClient(s, sid, c.(slot := false, room := if c.reader.Sse? then c.room else None, reader := reader,
                                   pc := if c.reader.Sse? then Finished else AtPoll)),
             c.room.value, r.(subs := Rooms.SwapRemoved(r.subs, Wfd(sid, c))))
  }

  /** Start-up: stored history, no sessions. */
  ghost predicate Init(s: State) {
    && s.clients == map[]
    && forall i | 0 <= i < |s.rooms| ::
         var r := s.rooms[i];
         && r.subs == [] && r.waiting == {} && r.fan.None?
         && ValidIds(r.msgs) && r.done == Elements(r.msgs) && Tail(r.msgs) <= s.lastId
  }

  ghost predicate ValidRun(s: State, steps: seq<Step>)
    decreases |steps|
  {
    steps == [] || (Enabled(s, steps[0]) && ValidRun(Next(s, steps[0]), steps[1..]))
  }

  function Run(s: State, steps: seq<Step>): State
    decreases |steps|
  {
    if steps == [] then s else Run(Next(s, steps[0]), steps[1..])
  }
}
