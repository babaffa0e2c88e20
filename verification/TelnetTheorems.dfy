/** What holds of a telnet session over every run. */
module TelnetTheorems {
  import opened Common
  import opened Iac
  import opened IacRoundTrip
  import opened TelnetSpec

  // ----- Lifecycle -------------------------------------------------------------------------------

  /** What a log says about games: none running, one running, or the rules were broken. */
  datatype Life = Idle | Running(item: nat) | Broken

  function Advance(l: Life, m: Mark): Life {
    match m
    case Created(item, _) => if l == Idle then Running(item) else Broken
    case KeyTo(item, _, _) => if l == Running(item) then l else Broken
    case Destroyed(item) => if l == Running(item) then Idle else Broken
    case CreateFailed(_, _) => if l == Idle then Idle else Broken
    case Recovered => Broken
    case _ => l
  }

  function LifeOf(log: seq<Mark>): Life {
    if log == [] then Idle else Advance(LifeOf(log[..|log| - 1]), log[|log| - 1])
  }

  lemma {:induction false} LifeSnoc(log: seq<Mark>, m: Mark)
    ensures LifeOf(log + [m]) == Advance(LifeOf(log), m)
  {
    assert (log + [m])[..|log + [m]| - 1] == log;
  }

  /** Between input bytes: flags clear, a game lives exactly in InGame, and the log obeys the lifecycle. */
  ghost predicate Inv<W>(s: Session<W>) {
    && !s.gameOver && !s.quit && s.selection == -1
    && s.state != Init && s.state != Closing
    && (s.state != Closed ==> (s.game.Some? <==> s.state == InGame))
    && (s.game.Some? <==> s.gameState)
    && (s.state == Negotiating ==> s.nego > 0)
    && LifeOf(s.log) == if s.game.Some? then Running(s.game.value) else Idle
  }

  ghost predicate FlagsClear<W>(s: Session<W>) {
    !s.gameOver && !s.quit && s.selection == -1
  }

  lemma {:induction false} QuitByteIs<W>(g: Games<W>, s: Session<W>, b: byte)
    requires FlagsClear(s) && s.state == MainMenu && IsQuit(b)
    ensures OnByte(g, s, b) == s.(state := Closed, log := s.log + [Bye])
  {
    var s1 := Dispatch(g, s, KeyInput, KeyByte(b));
    assert s1 == s.(quit := true);
    assert ConsumeGameOver(g, s1) == s1;
    assert ConsumeQuit(g, s1) == s.(state := Closed, log := s.log + [Bye]);
  }

  /** The item without a game is behind a key that never reaches the menu. */
  lemma {:induction false} QuitItemUnreachable(b: byte)
    requires !IsQuit(b)
    ensures MenuIndex(MENU_KEYS, b) < QUIT_ITEM
  {
    assert |MENU_KEYS| == QUIT_ITEM + 1 && MENU_KEYS[QUIT_ITEM] == 113;
  }

  lemma {:induction false} SelectionIs<W>(g: Games<W>, s: Session<W>, i: nat)
    requires FlagsClear(s) && s.state == MainMenu
    ensures ConsumeSelection(g, ConsumeQuit(g, ConsumeGameOver(g, s.(selection := i))))
         == Start(g, s, i).0.(state := if Start(g, s, i).1 then InGame else MainMenu)
  {
    var s1 := s.(selection := i);
    assert ConsumeQuit(g, ConsumeGameOver(g, s1)) == s1;
    assert s1.(selection := -1) == s;
  }

  lemma {:induction false} MenuByteIs<W>(g: Games<W>, s: Session<W>, b: byte)
    requires FlagsClear(s) && s.state == MainMenu && b != 0 && !IsQuit(b)
    ensures var i := MenuIndex(MENU_KEYS, b);
      && (i < 0 ==> OnByte(g, s, b) == s)
      && (i >= 0 ==> OnByte(g, s, b) == Start(g, s, i).0.(state := if Start(g, s, i).1 then InGame else MainMenu))
  {
    var i := MenuIndex(MENU_KEYS, b);
    var s1 := Dispatch(g, s, KeyInput, KeyByte(b));
    assert s1 == if i >= 0 then s.(selection := i) else s;
    if i >= 0 {
      SelectionIs(g, s, i);
    }
  }

  lemma {:induction false} ByeKeeps<W>(s: Session<W>)
    requires Inv(s)
    ensures Inv(s.(state := Closed, log := s.log + [Bye]))
  {
    LifeSnoc(s.log, Bye);
  }

  lemma {:induction false} MenuKeeps<W>(s: Session<W>)
    requires Inv(s.(nego := 1)) && s.state == Negotiating
    ensures Inv(Show(s).(state := MainMenu))
  {
    LifeSnoc(s.log, MenuShown);
  }

  lemma {:induction false} CreatedKeeps<W>(s: Session<W>, i: nat, w: W)
    requires Inv(s) && s.state == MainMenu
    ensures Inv(s.(game := Some(i), gameState := true, world := w, log := s.log + [Created(i, s.size)], state := InGame))
  {
    LifeSnoc(s.log, Created(i, s.size));
  }

  lemma {:induction false} FailedKeeps<W>(s: Session<W>, i: nat, w: W)
    requires Inv(s) && s.state == MainMenu
    ensures Inv(s.(game := None, gameState := false, world := w, log := s.log + [CreateFailed(i, s.size)]))
  {
    LifeSnoc(s.log, CreateFailed(i, s.size));
  }

  lemma {:induction false} StartKeeps<W>(g: Games<W>, s: Session<W>, i: nat)
    requires Inv(s) && s.state == MainMenu && i < QUIT_ITEM
    ensures Inv(Start(g, s, i).0.(state := if Start(g, s, i).1 then InGame else MainMenu))
  {
    var (w, ok) := g.create(s.world, i, s.size);
    if ok {
      CreatedKeeps(s, i, w);
    } else {
      FailedKeeps(s, i, w);
    }
  }

  lemma {:induction false} MenuByteKeeps<W>(g: Games<W>, s: Session<W>, b: byte)
    requires Inv(s) && s.state == MainMenu && b != 0
    ensures Inv(OnByte(g, s, b))
  {
    if IsQuit(b) {
      QuitByteIs(g, s, b);
      ByeKeeps(s);
    } else {
      MenuByteIs(g, s, b);
      QuitItemUnreachable(b);
      var i := MenuIndex(MENU_KEYS, b);
      if i >= 0 {
        StartKeeps(g, s, i);
      }
    }
  }

  lemma {:induction false} GameKeyIs<W>(g: Games<W>, s: Session<W>, b: byte)
    requires FlagsClear(s) && s.state == InGame && s.game.Some?
    ensures var t := PlayKey(g, s, b);
      Dispatch(g, s, KeyInput, KeyByte(b)) == t && t.state == InGame && !t.quit && t.selection == -1
  {
  }

  /** A game that ended gives way to the menu; no other flag is up. */
  lemma {:induction false} GameOverIs<W>(g: Games<W>, t: Session<W>)
    requires t.state == InGame && !t.quit && t.selection == -1
    ensures ConsumeSelection(g, ConsumeQuit(g, ConsumeGameOver(g, t)))
         == if t.gameOver then Show(t.(gameOver := false)).(state := MainMenu) else t
  {
    var t1 := ConsumeGameOver(g, t);
    assert ConsumeQuit(g, t1) == t1;
    assert ConsumeSelection(g, t1) == t1;
  }

  lemma {:induction false} GameByteIs<W>(g: Games<W>, s: Session<W>, b: byte)
    requires FlagsClear(s) && s.state == InGame && s.game.Some? && b != 0
    ensures var t := PlayKey(g, s, b);
      OnByte(g, s, b) == if t.gameOver then Show(t.(gameOver := false)).(state := MainMenu) else t
  {
    GameKeyIs(g, s, b);
    GameOverIs(g, PlayKey(g, s, b));
  }

  lemma {:induction false} KeyLives(log: seq<Mark>, item: nat, b: byte, size: Size)
    requires LifeOf(log) == Running(item)
    ensures var keyed := log + [KeyTo(item, b, size)];
      LifeOf(keyed) == Running(item) && LifeOf(keyed + [Destroyed(item)] + [MenuShown]) == Idle
  {
    var keyed := log + [KeyTo(item, b, size)];
    LifeSnoc(log, KeyTo(item, b, size));
    LifeSnoc(keyed, Destroyed(item));
    LifeSnoc(keyed + [Destroyed(item)], MenuShown);
  }

  lemma {:induction false} PlayKeeps<W>(g: Games<W>, s: Session<W>, b: byte)
    requires Inv(s) && s.state == InGame
    ensures var t := PlayKey(g, s, b);
      Inv(if t.gameOver then Show(t.(gameOver := false)).(state := MainMenu) else t)
  {
    KeyLives(s.log, s.game.value, b, s.size);
  }

  lemma {:induction false} GameByteKeeps<W>(g: Games<W>, s: Session<W>, b: byte)
    requires Inv(s) && s.state == InGame && b != 0
    ensures Inv(OnByte(g, s, b))
  {
    GameByteIs(g, s, b);
    PlayKeeps(g, s, b);
  }

  /** A key during negotiation only brings the menu up. */
  lemma {:induction false} EarlyByteIs<W>(g: Games<W>, s: Session<W>, b: byte)
    requires FlagsClear(s) && s.state == Negotiating && b != 0
    ensures OnByte(g, s, b) == Show(s).(state := MainMenu)
  {
    var t := Dispatch(g, s, KeyInput, KeyByte(b));
    assert t == Show(s).(state := MainMenu);
  }

  lemma {:induction false} ByteKeeps<W>(g: Games<W>, s: Session<W>, b: byte)
    requires Inv(s)
    ensures Inv(OnByte(g, s, b))
  {
    if b != 0 && s.state == MainMenu {
      MenuByteKeeps(g, s, b);
    } else if b != 0 && s.state == InGame {
      GameByteKeeps(g, s, b);
    } else if b != 0 && s.state == Negotiating {
      EarlyByteIs(g, s, b);
      LifeSnoc(s.log, MenuShown);
    }
  }

  /** What the three signals without a payload do. */
  lemma {:induction false} NegoDoneIs<W>(g: Games<W>, s: Session<W>)
    ensures Dispatch(g, s, NegoDone, Nothing) == if s.state == Negotiating then Show(s).(state := MainMenu) else s
  {
    assert Transition(s.state, NegoDone).Some? <==> s.state == Negotiating;
  }

  lemma {:induction false} DisconnectIs<W>(g: Games<W>, s: Session<W>)
    ensures Dispatch(g, s, Disconnect, Nothing)
         == if s.state != Closed then s.(state := Closed, log := s.log + [Bye]) else s
  {
    assert Transition(s.state, Disconnect).Some? <==> s.state != Closed;
  }

  lemma {:induction false} TimedOutIs<W>(g: Games<W>, s: Session<W>)
    ensures Dispatch(g, s, TimedOut, Nothing)
         == if s.state == MainMenu || s.state == InGame then s.(state := Closed, log := s.log + [Bye]) else s
  {
    assert Transition(s.state, TimedOut).Some? <==> s.state == MainMenu || s.state == InGame;
  }

  lemma {:induction false} NegoDoneKeeps<W>(g: Games<W>, s: Session<W>)
    requires Inv(s.(nego := 1))
    ensures Inv(Dispatch(g, s, NegoDone, Nothing))
  {
    NegoDoneIs(g, s);
    if s.state == Negotiating {
      MenuKeeps(s);
    }
  }

  lemma {:induction false} EndKeeps<W>(g: Games<W>, s: Session<W>, e: Signal)
    requires Inv(s) && (e == TimedOut || e == Disconnect)
    ensures Inv(Dispatch(g, s, e, Nothing))
  {
    DisconnectIs(g, s);
    TimedOutIs(g, s);
    ByeKeeps(s);
  }

  lemma {:induction false} AgreedKeeps<W>(s: Session<W>, cmd: byte, opt: byte)
    requires Inv(s)
    ensures Inv(Agreed(s, cmd, opt))
  {
  }

  lemma {:induction false} CountdownKeeps<W>(s: Session<W>, n: nat)
    requires Inv(s) && n > 0
    ensures Inv(s.(nego := n))
  {
  }

  lemma {:induction false} OptionKeeps<W>(g: Games<W>, s: Session<W>, cmd: byte, opt: byte)
    requires Inv(s)
    ensures Inv(TelnetSpec.OnOption(g, s, cmd, opt))
  {
    var s1 := Agreed(s, cmd, opt);
    AgreedKeeps(s, cmd, opt);
    if s1.nego > 1 {
      CountdownKeeps(s1, s1.nego - 1);
    } else if s1.nego == 1 {
      assert s1.(nego := 0).(nego := 1) == s1;
      NegoDoneKeeps(g, s1.(nego := 0));
    }
  }

  lemma {:induction false} EventKeeps<W>(g: Games<W>, s: Session<W>, e: Event)
    requires Inv(s)
    ensures Inv(OnEvent(g, s, e))
  {
    match e
    case Byte(b) => ByteKeeps(g, s, b);
    case Negotiation(cmd, opt) => OptionKeeps(g, s, cmd, opt);
    case Subnegotiation(_, _) =>
  }

  lemma {:induction false} EventsKeep<W>(g: Games<W>, s: Session<W>, es: seq<Event>)
    requires Inv(s)
    ensures Inv(OnEvents(g, s, es))
    decreases |es|
  {
    if es != [] {
      EventKeeps(g, s, es[0]);
      EventsKeep(g, OnEvent(g, s, es[0]), es[1..]);
    }
  }

  lemma {:induction false} InputKeeps<W>(g: Games<W>, c: Conn<W>, i: Input)
    requires Inv(c.session)
    ensures Inv(OnInput(g, c, i).session)
  {
    match i
    case Chunk(bytes) => EventsKeep(g, c.session, Decode(c.parser, bytes).1);
    case Timeout =>
      if c.session.nego > 0 {
        NegoDoneKeeps(g, c.session.(nego := 0));
      } else {
        EndKeeps(g, c.session, TimedOut);
      }
    case PeerClosed => EndKeeps(g, c.session, Disconnect);
    case Notify => LifeSnoc(c.session.log, Notified(c.session.size));
    case _ =>
  }

  lemma {:induction false} LoopKeeps<W>(g: Games<W>, c: Conn<W>, inputs: seq<Input>)
    requires Inv(c.session)
    ensures Inv(Loop(g, c, inputs).session)
    decreases |inputs|
  {
    if inputs != [] && !Exited(c) {
      InputKeeps(g, c, inputs[0]);
      LoopKeeps(g, OnInput(g, c, inputs[0]), inputs[1..]);
    }
  }

  lemma {:induction false} OpenOk<W>(g: Games<W>, w: W)
    ensures Inv(Open(g, w).session) && !Exited(Open(g, w)) && Open(g, w).parser == FRESH
  {
    LifeSnoc([], Offered);
    assert [] + [Offered] == [Offered];
  }

  /** Every state a session can be in at its poll, whatever came in before. */
  lemma {:induction false} ReachableInv<W>(g: Games<W>, w: W, inputs: seq<Input>)
    ensures Inv(Loop(g, Open(g, w), inputs).session)
  {
    OpenOk(g, w);
    LoopKeeps(g, Open(g, w), inputs);
  }

  /** How often an item was created, and how often destroyed. */
  function Creates(log: seq<Mark>, item: nat): nat {
    if log == [] then 0 else Creates(log[..|log| - 1], item) + Ones(IsCreate(log[|log| - 1], item))
  }

  function Destroys(log: seq<Mark>, item: nat): nat {
    if log == [] then 0 else Destroys(log[..|log| - 1], item) + Ones(log[|log| - 1] == Destroyed(item))
  }

  predicate IsCreate(m: Mark, item: nat) {
    m.Created? && m.item == item
  }

  function Ones(b: bool): nat {
    if b then 1 else 0
  }

  lemma {:induction false} BalanceStep(l: Life, m: Mark, item: nat)
    requires Advance(l, m) != Broken
    ensures l != Broken && m != Recovered
    ensures Ones(l == Running(item)) + Ones(IsCreate(m, item)) == Ones(m == Destroyed(item)) + Ones(Advance(l, m) == Running(item))
  {
  }

  /** In a log that obeys the lifecycle, creations and destructions of an item differ only by the one running. */
  lemma {:induction false} LifeBalances(log: seq<Mark>, item: nat)
    requires LifeOf(log) != Broken
    ensures Creates(log, item) == Destroys(log, item) + Ones(LifeOf(log) == Running(item))
    ensures Recovered !in log
  {
    if log != [] {
      var front, m := log[..|log| - 1], log[|log| - 1];
      BalanceStep(LifeOf(front), m, item);
      LifeBalances(front, item);
      assert log == front + [m];
    }
  }

  /** Each successful create gets exactly one destroy by the end of the session; the recovery branch never runs. */
  lemma {:induction false} EveryGameIsDestroyedOnce<W>(g: Games<W>, w: W, inputs: seq<Input>, item: nat)
    ensures var log := Teardown(g, Loop(g, Open(g, w), inputs).session).log;
      && Creates(log, item) == Destroys(log, item)
      && LifeOf(log) == Idle
      && Recovered !in log
  {
    ReachableInv(g, w, inputs);
    var s := Loop(g, Open(g, w), inputs).session;
    if s.game.Some? {
      LifeSnoc(s.log, Destroyed(s.game.value));
    }
    LifeBalances(Teardown(g, s).log, item);
  }

  /** In a log that obeys the lifecycle, a key reaches an item only while that item runs. */
  lemma {:induction false} KeysOnlyWhileRunning(log: seq<Mark>, k: nat)
    requires LifeOf(log) != Broken && k < |log|
    ensures LifeOf(log[..k]) != Broken
    ensures log[k].KeyTo? || log[k].Destroyed? ==> LifeOf(log[..k]) == Running(log[k].item)
    ensures log[k].Created? ==> LifeOf(log[..k]) == Idle
  {
    var front := log[..|log| - 1];
    if k < |log| - 1 {
      KeysOnlyWhileRunning(front, k);
      assert front[..k] == log[..k];
    }
  }

  // ----- Silence ------------------------------------------------------------------------------------

  lemma {:induction false} TimeoutIs<W>(g: Games<W>, s: Session<W>)
    requires Inv(s) && s.state != Closed
    ensures OnTimeout(g, s).state == Closed <==> s.nego == 0
    ensures OnTimeout(g, OnTimeout(g, s)).state == Closed
  {
    var s1 := s.(nego := 0);
    NegoDoneIs(g, s1);
    TimedOutIs(g, s);
    var t := OnTimeout(g, s);
    assert t.nego == 0 && t.state in {MainMenu, InGame, Closed};
    TimedOutIs(g, t);
  }

  lemma {:induction false} LoopTimeouts<W>(g: Games<W>, c: Conn<W>)
    requires !Exited(c)
    ensures Loop(g, c, [Timeout]).session == OnTimeout(g, c.session)
    ensures var t := OnTimeout(g, c.session);
      Loop(g, c, [Timeout, Timeout]).session == if t.state == Closed then t else OnTimeout(g, t)
  {
    var c1 := OnInput(g, c, Timeout);
    assert [Timeout][1..] == [] && [Timeout, Timeout][1..] == [Timeout];
    assert Loop(g, c, [Timeout]) == Loop(g, c1, []) == c1;
    assert Loop(g, c, [Timeout, Timeout]) == Loop(g, c1, [Timeout]);
    if !Exited(c1) {
      assert Loop(g, c1, [Timeout]) == Loop(g, OnInput(g, c1, Timeout), []);
    }
  }

  /** One timeout closes a session exactly if no option reply is outstanding; two always do. */
  lemma {:induction false} SilenceEndsSession<W>(g: Games<W>, w: W, inputs: seq<Input>)
    requires !Exited(Loop(g, Open(g, w), inputs))
    ensures var c := Loop(g, Open(g, w), inputs);
      && (Loop(g, c, [Timeout]).session.state == Closed <==> c.session.nego == 0)
      && Loop(g, c, [Timeout, Timeout]).session.state == Closed
  {
    ReachableInv(g, w, inputs);
    var c := Loop(g, Open(g, w), inputs);
    LoopTimeouts(g, c);
    TimeoutIs(g, c.session);
  }

  // ----- Chunking --------------------------------------------------------------------------------------

  /** What the outside can tell about a session. */
  datatype Seen<W> = Seen(state: State, log: seq<Mark>, world: W, game: Option<nat>, gameState: bool)

  function Observe<W>(c: Conn<W>): Seen<W> {
    var s := c.session;
    Seen(s.state, s.log, s.world, s.game, s.gameState)
  }

  /** A closed session stays closed and does nothing more, whatever is still decoded from the buffer. */
  lemma {:induction false} ClosedIsAbsorbing<W>(g: Games<W>, s: Session<W>, es: seq<Event>)
    requires s.state == Closed
    ensures var t := OnEvents(g, s, es);
      t.state == Closed && t.log == s.log && t.world == s.world && t.game == s.game && t.gameState == s.gameState
    decreases |es|
  {
    if es != [] {
      ClosedIsAbsorbing(g, OnEvent(g, s, es[0]), es[1..]);
    }
  }

  lemma {:induction false} EventsAppend<W>(g: Games<W>, s: Session<W>, a: seq<Event>, b: seq<Event>)
    ensures OnEvents(g, s, a + b) == OnEvents(g, OnEvents(g, s, a), b)
    decreases |a|
  {
    if a == [] {
      assert a + b == b;
    } else {
      EventsAppend(g, OnEvent(g, s, a[0]), a[1..], b);
      assert (a + b)[0] == a[0] && (a + b)[1..] == a[1..] + b;
    }
  }

  /** One buffer, or its two parts after each other. */
  lemma {:induction false} FeedAppend<W>(g: Games<W>, c: Conn<W>, xs: seq<byte>, ys: seq<byte>)
    ensures Feed(g, c, xs + ys) == Feed(g, Feed(g, c, xs), ys)
  {
    DecodeAppend(c.parser, xs, ys);
    var (p, es) := Decode(c.parser, xs);
    EventsAppend(g, c.session, es, Decode(p, ys).1);
  }

  /** The same input with every chunk cut into single bytes. */
  function Singles(bytes: seq<byte>): seq<Input> {
    if bytes == [] then [] else [Chunk([bytes[0]])] + Singles(bytes[1..])
  }

  function Split(inputs: seq<Input>): seq<Input> {
    if inputs == [] then []
    else (if inputs[0].Chunk? then Singles(inputs[0].bytes) else [inputs[0]]) + Split(inputs[1..])
  }

  lemma {:induction false} ExitedStays<W>(g: Games<W>, c: Conn<W>, inputs: seq<Input>)
    requires Exited(c)
    ensures Loop(g, c, inputs) == c
  {
  }

  lemma {:induction false} LoopStep<W>(g: Games<W>, c: Conn<W>, i: Input, rest: seq<Input>)
    requires !Exited(c)
    ensures Loop(g, c, [i] + rest) == Loop(g, OnInput(g, c, i), rest)
  {
    assert ([i] + rest)[1..] == rest;
  }

  /** Byte by byte a chunk leads to the very same connection, unless it closes on the way. */
  lemma {:induction false} SinglesRun<W>(g: Games<W>, c: Conn<W>, bytes: seq<byte>, rest: seq<Input>)
    requires !Exited(c)
    ensures var whole := Feed(g, c, bytes);
      || (!Exited(whole) && Loop(g, c, Singles(bytes) + rest) == Loop(g, whole, rest))
      || (Exited(whole) && Observe(Loop(g, c, Singles(bytes) + rest)) == Observe(whole)
          && Exited(Loop(g, c, Singles(bytes) + rest)))
    decreases |bytes|
  {
    if bytes == [] {
      assert Singles(bytes) + rest == rest;
      assert Feed(g, c, bytes) == c;
    } else {
      var head, tail := [bytes[0]], bytes[1..];
      assert bytes == head + tail;
      FeedAppend(g, c, head, tail);
      var c1 := Feed(g, c, head);
      assert Singles(bytes) + rest == [Chunk(head)] + (Singles(tail) + rest);
      LoopStep(g, c, Chunk(head), Singles(tail) + rest);
      if Exited(c1) {
        ExitedStays(g, c1, Singles(tail) + rest);
        ClosedIsAbsorbing(g, c1.session, Decode(c1.parser, tail).1);
      } else {
        SinglesRun(g, c1, tail, rest);
      }
    }
  }

  /** A run and its byte-by-byte version are indistinguishable. */
  lemma {:induction false} SplitRunsAlike<W>(g: Games<W>, c: Conn<W>, inputs: seq<Input>)
    ensures Observe(Loop(g, c, inputs)) == Observe(Loop(g, c, Split(inputs)))
    decreases |inputs|
  {
    if Exited(c) || inputs == [] {
      assert inputs == [] ==> Split(inputs) == [];
    } else {
      var i, rest := inputs[0], inputs[1..];
      assert inputs == [i] + rest;
      LoopStep(g, c, i, rest);
      var c1 := OnInput(g, c, i);
      if i.Chunk? {
        SinglesRun(g, c, i.bytes, Split(rest));
      } else {
        LoopStep(g, c, i, Split(rest));
      }
      if Exited(c1) {
        ExitedStays(g, c1, rest);
        ExitedStays(g, c1, Split(rest));
      } else {
        SplitRunsAlike(g, c1, rest);
      }
    }
  }

  /** How recv cut the stream cannot be observed: inputs that agree byte by byte give the same session and teardown. */
  lemma {:induction false} ChunkingIsInvisible<W>(g: Games<W>, w: W, a: seq<Input>, b: seq<Input>)
    requires Split(a) == Split(b)
    ensures Observe(Loop(g, Open(g, w), a)) == Observe(Loop(g, Open(g, w), b))
    ensures Teardown(g, Loop(g, Open(g, w), a).session).log == Teardown(g, Loop(g, Open(g, w), b).session).log
  {
    SplitRunsAlike(g, Open(g, w), a);
    SplitRunsAlike(g, Open(g, w), b);
    assert Observe(Loop(g, Open(g, w), a)) == Observe(Loop(g, Open(g, w), b));
  }
}
