/**
 The telnet session of telnet_session.c as a value: what each callback, each
 FSM action and each turn of the poll loop does to it. Games are arbitrary
 deterministic handlers acting on a world of their own (their state, the
 chosen user name, what they have drawn).
 */
module TelnetSpec {
  import opened Common
  import opened Iac
  import opened IacRoundTrip
  import opened Fsm

  datatype State = Init | Negotiating | MainMenu | InGame | Closing | Closed

  datatype Signal = Connected | NegoDone | KeyInput | MenuSelect | GameOver | Naws | Disconnect | TimedOut

  datatype Action = SendNegotiations | ShowMainMenu | HandleMenuKey | StartGame | GameKey | CloseSession

  type Table = seq<Row<State, Signal, Action>>

  const TABLE: Table := [
    Row(Init,        Connected,  SendNegotiations, Negotiating, Closing),
    Row(Negotiating, NegoDone,   ShowMainMenu,     MainMenu,    Closing),
    Row(Negotiating, KeyInput,   ShowMainMenu,     MainMenu,    Closing),
    Row(MainMenu,    KeyInput,   HandleMenuKey,    MainMenu,    Closing),
    Row(MainMenu,    MenuSelect, StartGame,        InGame,      MainMenu),
    Row(InGame,      KeyInput,   GameKey,          InGame,      Closing),
    Row(InGame,      GameOver,   ShowMainMenu,     MainMenu,    Closing),
    Row(Init,        Disconnect, CloseSession,     Closed,      Closed),
    Row(Negotiating, Disconnect, CloseSession,     Closed,      Closed),
    Row(MainMenu,    Disconnect, CloseSession,     Closed,      Closed),
    Row(InGame,      Disconnect, CloseSession,     Closed,      Closed),
    Row(Closing,     Disconnect, CloseSession,     Closed,      Closed),
    Row(MainMenu,    TimedOut,   CloseSession,     Closed,      Closed),
    Row(InGame,      TimedOut,   CloseSession,     Closed,      Closed)
  ]

  /** The table as a function. */
  function Transition(s: State, e: Signal): Option<Row<State, Signal, Action>> {
    match (s, e)
    case (Init, Connected) => Some(Row(s, e, SendNegotiations, Negotiating, Closing))
    case (Negotiating, NegoDone) => Some(Row(s, e, ShowMainMenu, MainMenu, Closing))
    case (Negotiating, KeyInput) => Some(Row(s, e, ShowMainMenu, MainMenu, Closing))
    case (MainMenu, KeyInput) => Some(Row(s, e, HandleMenuKey, MainMenu, Closing))
    case (MainMenu, MenuSelect) => Some(Row(s, e, StartGame, InGame, MainMenu))
    case (InGame, KeyInput) => Some(Row(s, e, GameKey, InGame, Closing))
    case (InGame, GameOver) => Some(Row(s, e, ShowMainMenu, MainMenu, Closing))
    case (_, Disconnect) => if s == Closed then None else Some(Row(s, e, CloseSession, Closed, Closed))
    case (MainMenu, TimedOut) => Some(Row(s, e, CloseSession, Closed, Closed))
    case (InGame, TimedOut) => Some(Row(s, e, CloseSession, Closed, Closed))
    case _ => None
  }

  /** Where each pair of state and event stands in the table; no pair occurs twice. */
  function RowIndex(s: State, e: Signal): Option<nat> {
    match (s, e)
    case (Init, Connected) => Some(0)
    case (Negotiating, NegoDone) => Some(1)
    case (Negotiating, KeyInput) => Some(2)
    case (MainMenu, KeyInput) => Some(3)
    case (MainMenu, MenuSelect) => Some(4)
    case (InGame, KeyInput) => Some(5)
    case (InGame, GameOver) => Some(6)
    case (Init, Disconnect) => Some(7)
    case (Negotiating, Disconnect) => Some(8)
    case (MainMenu, Disconnect) => Some(9)
    case (InGame, Disconnect) => Some(10)
    case (Closing, Disconnect) => Some(11)
    case (MainMenu, TimedOut) => Some(12)
    case (InGame, TimedOut) => Some(13)
    case _ => None
  }

  lemma {:induction false} RowsAreIndexed(i: nat)
    requires i < |TABLE|
    ensures RowIndex(TABLE[i].state, TABLE[i].event) == Some(i)
    ensures Transition(TABLE[i].state, TABLE[i].event) == Some(TABLE[i])
  {
    assert i in [0, 1, 2, 3, 4, 5, 6, 7, 8, 9, 10, 11, 12, 13];
  }

  lemma {:induction false} TransitionHasRow(s: State, e: Signal)
    ensures Transition(s, e).Some? <==> RowIndex(s, e).Some?
    ensures RowIndex(s, e).Some? ==> RowIndex(s, e).value < |TABLE|
  {
  }

  /** Scanning the table gives that function, for every state and event. */
  lemma {:induction false} TableIsTransition(s: State, e: Signal)
    ensures Selects(TABLE, s, e, Transition(s, e))
  {
    TransitionHasRow(s, e);
    var t: Table := TABLE;
    forall j | 0 <= j < |t| && t[j].state == s && t[j].event == e
      ensures RowIndex(s, e) == Some(j) && Transition(s, e) == Some(t[j])
    {
      RowsAreIndexed(j);
    }
    if RowIndex(s, e).Some? {
      RowAtIndex(s, e);
      assert t[RowIndex(s, e).value] == Transition(s, e).value;
    }
  }

  lemma {:induction false} RowAtIndex(s: State, e: Signal)
    requires RowIndex(s, e).Some?
    ensures RowIndex(s, e).value < |TABLE|
    ensures TABLE[RowIndex(s, e).value].state == s && TABLE[RowIndex(s, e).value].event == e
  {
  }

  // ----- Games and the menu -------------------------------------------------------------------

  /** Menu items in order; the last one carries no game. */
  const MENU_KEYS: seq<byte> := [99, 98, 97, 116, 114, 119, 112, 110, 103, 109, 104, 113]
  const QUIT_ITEM: nat := 11

  /** create / handle_key / destroy of each menu item, and the notify hook, on the games' own world. */
  datatype Games<!W> = Games(
    create: (W, nat, Size) -> (W, bool),
    key: (W, nat, byte, Size) -> (W, bool),
    destroy: (W, nat) -> W,
    notify: (W, Size) -> W)

  /** menu_handle_key: the first item with that key, or -1. */
  function MenuIndex(keys: seq<byte>, key: byte): (i: int)
    ensures -1 <= i < |keys|
    ensures i >= 0 ==> keys[i] == key && key !in keys[..i]
    ensures i < 0 ==> key !in keys
  {
    if keys == [] then -1
    else if keys[0] == key then 0
    else
      var k := MenuIndex(keys[1..], key);
      if k < 0 then -1
      else
        assert keys[..k + 1] == [keys[0]] + keys[1..][..k];
        k + 1
  }

  // ----- The session ----------------------------------------------------------------------------

  /** What a session does to the outside, in order; a call into a game with its arguments. */
  datatype Mark =
    | Offered
    | MenuShown
    | Created(item: nat, size: Size)
    | CreateFailed(item: nat, size: Size)
    | KeyTo(item: nat, key: byte, size: Size)
    | Notified(size: Size)
    | Destroyed(item: nat)
    | Recovered              // act_game_key found no game
    | Bye

  datatype Session<W> = Session(
    state: State, nego: nat, selection: int, gameOver: bool, quit: bool,
    game: Option<nat>, gameState: bool,
    size: Size, nawsOk: bool, echoOk: bool, sgaOk: bool,
    world: W, log: seq<Mark>)

  datatype Payload = Nothing | KeyByte(b: byte) | Choice(item: nat)

  predicate IsQuit(b: byte) {
    b == 113 || b == 81 || b == 3
  }

  function Show<W>(s: Session<W>): Session<W> {
    s.(selection := -1, gameOver := false, log := s.log + [MenuShown])
  }

  function MenuKey<W>(s: Session<W>, b: byte): Session<W> {
    if IsQuit(b) then s.(quit := true)
    else
      var i := MenuIndex(MENU_KEYS, b);
      if i >= 0 then s.(selection := i) else s
  }

  function Start<W>(g: Games<W>, s: Session<W>, item: nat): (Session<W>, bool) {
    if item >= QUIT_ITEM then (s, false)
    else
      var (w, ok) := g.create(s.world, item, s.size);
      if ok then (s.(game := Some(item), gameState := true, world := w, log := s.log + [Created(item, s.size)]), true)
      else (s.(game := None, gameState := false, world := w, log := s.log + [CreateFailed(item, s.size)]), false)
  }

  function PlayKey<W>(g: Games<W>, s: Session<W>, b: byte): Session<W> {
    if s.game.None? then s.(gameOver := true, log := s.log + [Recovered])
    else
      var item := s.game.value;
      var (w, running) := g.key(s.world, item, b, s.size);
      var s1 := s.(world := w, log := s.log + [KeyTo(item, b, s.size)]);
      if running then s1
      else s1.(world := g.destroy(w, item), log := s1.log + [Destroyed(item)],
               gameState := false, game := None, gameOver := true)
  }

  /** The FSM actions; the flag is FSM_ACTION_OK. */
  function Act<W>(g: Games<W>, s: Session<W>, a: Action, x: Payload): (Session<W>, bool) {
    match a
    case SendNegotiations => (s.(nego := 3, log := s.log + [Offered]), true)
    case ShowMainMenu => (Show(s), true)
    case HandleMenuKey => (if x.KeyByte? then MenuKey(s, x.b) else s, true)
    case StartGame => if x.Choice? then Start(g, s, x.item) else (s, false)
    case GameKey => (if x.KeyByte? then PlayKey(g, s, x.b) else s, true)
    case CloseSession => (s.(log := s.log + [Bye]), true)
  }

  /** fsm_dispatch: unmatched events are ignored; the state is written after the action. */
  function Dispatch<W>(g: Games<W>, s: Session<W>, e: Signal, x: Payload): Session<W> {
    match Transition(s.state, e)
    case None => s
    case Some(row) =>
      var (s1, ok) := Act(g, s, row.action, x);
      s1.(state := if ok then row.next else row.error)
  }

  // ----- IAC callbacks ------------------------------------------------------------------------------

  function ConsumeGameOver<W>(g: Games<W>, s: Session<W>): Session<W> {
    if s.gameOver && s.state != Closed then Dispatch(g, s.(gameOver := false), GameOver, Nothing) else s
  }

  function ConsumeQuit<W>(g: Games<W>, s: Session<W>): Session<W> {
    if s.quit && s.state != Closed then Dispatch(g, s.(quit := false), Disconnect, Nothing) else s
  }

  function ConsumeSelection<W>(g: Games<W>, s: Session<W>): Session<W> {
    if s.selection >= 0 && s.state != Closed
    then Dispatch(g, s.(selection := -1), MenuSelect, Choice(s.selection)) else s
  }

  /** One turn of the loop in on_data. */
  function OnByte<W>(g: Games<W>, s: Session<W>, b: byte): Session<W> {
    if b == 0 || s.state == Closed then s
    else ConsumeSelection(g, ConsumeQuit(g, ConsumeGameOver(g, Dispatch(g, s, KeyInput, KeyByte(b)))))
  }

  /** The capability flags an option reply sets or clears. */
  function Agreed<W>(s: Session<W>, cmd: byte, opt: byte): Session<W> {
    s.(nawsOk := s.nawsOk || (cmd == WILL && opt == OPT_NAWS),
       echoOk := (s.echoOk || (cmd == DO && opt == OPT_ECHO)) && !(cmd == DONT && opt == OPT_ECHO),
       sgaOk := s.sgaOk || (cmd == DO && opt == OPT_SGA))
  }

  function OnOption<W>(g: Games<W>, s: Session<W>, cmd: byte, opt: byte): Session<W> {
    var s1 := Agreed(s, cmd, opt);
    if s1.nego == 0 then s1
    else
      var s2 := s1.(nego := s1.nego - 1);
      if s2.nego == 0 && s2.state != Closed then Dispatch(g, s2, NegoDone, Nothing) else s2
  }

  function OnEvent<W>(g: Games<W>, s: Session<W>, e: Event): Session<W> {
    match e
    case Byte(b) => OnByte(g, s, b)
    case Negotiation(cmd, opt) => OnOption(g, s, cmd, opt)
    case Subnegotiation(_, _) =>
      match NawsSize(e)
      case None => s
      case Some(size) => Dispatch(g, s.(size := size), Naws, Nothing)
  }

  function OnEvents<W>(g: Games<W>, s: Session<W>, es: seq<Event>): Session<W>
    decreases |es|
  {
    if es == [] then s else OnEvents(g, OnEvent(g, s, es[0]), es[1..])
  }

  // ----- The poll loop ---------------------------------------------------------------------------------

  /** What one poll can bring. Stop: shutdown noticed or poll failed. */
  datatype Input = Chunk(bytes: seq<byte>) | Timeout | PeerClosed | Notify | Interrupted | Stop

  /** A session with its decoder; `stopped` once the loop was left by `break`. */
  datatype Conn<W> = Conn(session: Session<W>, parser: Parser, stopped: bool)

  predicate Exited<W>(c: Conn<W>) {
    c.stopped || c.session.state == Closed
  }

  function Feed<W>(g: Games<W>, c: Conn<W>, bytes: seq<byte>): Conn<W> {
    var (p, es) := Decode(c.parser, bytes);
    c.(session := OnEvents(g, c.session, es), parser := p)
  }

  function OnTimeout<W>(g: Games<W>, s: Session<W>): Session<W> {
    if s.nego > 0 then Dispatch(g, s.(nego := 0), NegoDone, Nothing)
    else Dispatch(g, s, TimedOut, Nothing)
  }

  function OnInput<W>(g: Games<W>, c: Conn<W>, i: Input): Conn<W> {
    match i
    case Chunk(bytes) => Feed(g, c, bytes)
    case Timeout => c.(session := OnTimeout(g, c.session))
    case PeerClosed => c.(session := Dispatch(g, c.session, Disconnect, Nothing), stopped := true)
    case Notify =>
      var s := c.session;
      c.(session := s.(world := g.notify(s.world, s.size), log := s.log + [Notified(s.size)]))
    case Interrupted => c
    case Stop => c.(stopped := true)
  }

  function Loop<W>(g: Games<W>, c: Conn<W>, inputs: seq<Input>): Conn<W>
    decreases |inputs|
  {
    if inputs == [] || Exited(c) then c else Loop(g, OnInput(g, c, inputs[0]), inputs[1..])
  }

  /** telnet_create_session followed by TEV_CONNECTED. */
  function Open<W>(g: Games<W>, w: W): Conn<W> {
    var s := Session(Init, 0, -1, false, false, None, false, Size(80, 24), false, false, false, w, []);
    Conn(Dispatch(g, s, Connected, Nothing), FRESH, false)
  }

  /** After the loop: a game still running is destroyed. */
  function Teardown<W>(g: Games<W>, s: Session<W>): Session<W> {
    if s.game.Some? && s.gameState then
      s.(world := g.destroy(s.world, s.game.value), log := s.log + [Destroyed(s.game.value)], gameState := false, game := None)
    else s
  }
}
