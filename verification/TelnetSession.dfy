/**
 telnet_session.c in its own form: the session object, its FSM actions, the IAC
 callbacks and the poll loop, each proved to do what TelnetSpec says.
 */
module TelnetSession {
  import opened Common
  import opened Iac
  import IacRoundTrip
  import Fsm
  import opened TelnetSpec
  import TelnetTheorems

  class TelnetSession<W> {
    const games: Games<W>
    const parser: IacParser
    var state: State
    var negoPending: nat
    var pendingSelection: int
    var gameOverPending: bool
    var quitPending: bool
    var activeGame: Option<nat>
    var gameState: bool
    var size: IacRoundTrip.Size
    var nawsOk: bool
    var echoOk: bool
    var sgaOk: bool
    var world: W
    var log: seq<Mark>

    ghost predicate Valid()
      reads this, parser, parser.sbBuf
    {
      parser.Valid()
    }

    ghost function View(): Session<W>
      reads this
    {
      Session(state, negoPending, pendingSelection, gameOverPending, quitPending, activeGame, gameState,
              size, nawsOk, echoOk, sgaOk, world, log)
    }

    /** telnet_create_session. */
    constructor (games: Games<W>, world: W)
      ensures Valid() && fresh(parser) && fresh(parser.sbBuf)
      ensures this.games == games && parser.View() == FRESH
      ensures View() == Session(Init, 0, -1, false, false, None, false, IacRoundTrip.Size(80, 24), false, false, false, world, [])
    {
      this.games := games;
      this.world := world;
      parser := new IacParser();
      state := Init;
      negoPending := 0;
      pendingSelection := -1;
      gameOverPending, quitPending := false, false;
      activeGame, gameState := None, false;
      size := IacRoundTrip.Size(80, 24);
      nawsOk, echoOk, sgaOk := false, false, false;
      log := [];
    }

    /** menu_handle_key. */
    method MenuHandleKey(key: byte) returns (item: int)
      ensures item == MenuIndex(MENU_KEYS, key)
    {
      var i := 0;
      while i < |MENU_KEYS|
        invariant 0 <= i <= |MENU_KEYS| && key !in MENU_KEYS[..i]
      {
        if MENU_KEYS[i] == key {
          return i;
        }
        i := i + 1;
      }
      return -1;
    }

    method StartGame(item: nat) returns (ok: bool)
      modifies this
      ensures (View(), ok) == Start(games, old(View()), item)
    {
      if item >= QUIT_ITEM {
        return false;
      }
      activeGame := Some(item);
      var (w, created) := games.create(world, item, size);
      world := w;
      gameState := created;
      if !gameState {
        activeGame := None;
        log := log + [CreateFailed(item, size)];
        return false;
      }
      log := log + [Created(item, size)];
      return true;
    }

    method GameKeyPressed(key: byte)
      modifies this
      ensures View() == PlayKey(games, old(View()), key)
    {
      if activeGame.None? {
        gameOverPending := true;
        log := log + [Recovered];
        return;
      }
      var item := activeGame.value;
      var (w, running) := games.key(world, item, key, size);
      world := w;
      log := log + [KeyTo(item, key, size)];
      if !running {
        world := games.destroy(world, item);
        log := log + [Destroyed(item)];
        gameState := false;
        activeGame := None;
        gameOverPending := true;
      }
    }

    /** The action callbacks of the table. */
    method RunAction(a: Action, x: Payload) returns (ok: bool)
      modifies this
      ensures View() == Act(games, old(View()), a, x).0
      ensures ok == Act(games, old(View()), a, x).1
    {
      ok := true;
      match a {
        case SendNegotiations =>
          negoPending := 3;
          log := log + [Offered];
        case ShowMainMenu =>
          pendingSelection := -1;
          gameOverPending := false;
          log := log + [MenuShown];
        case HandleMenuKey =>
          if x.KeyByte? {
            if x.b == 113 || x.b == 81 || x.b == 3 {
              quitPending := true;
            } else {
              var sel := MenuHandleKey(x.b);
              if sel >= 0 {
                pendingSelection := sel;
              }
            }
          }
        case StartGame =>
          if x.Choice? {
            ok := StartGame(x.item);
          } else {
            ok := false;
          }
        case GameKey =>
          if x.KeyByte? {
            GameKeyPressed(x.b);
          }
        case CloseSession =>
          log := log + [Bye];
      }
    }

    /** fsm_dispatch on the telnet table. */
    method DispatchEvent(e: Signal, x: Payload)
      modifies this
      ensures View() == Dispatch(games, old(View()), e, x)
    {
      var found := Fsm.Lookup(TABLE, state, e);
      TableIsTransition(state, e);
      Fsm.SelectsIsFunction(TABLE, state, e, found, Transition(state, e));
      if found.Some? {
        var ok := RunAction(found.value.action, x);
        state := if ok then found.value.next else found.value.error;
      }
    }

    /** The follow-up dispatches of on_data, in their order. */
    method ConsumeFlags()
      modifies this
      ensures View() == ConsumeSelection(games, ConsumeQuit(games, ConsumeGameOver(games, old(View()))))
    {
      if gameOverPending && state != Closed {
        gameOverPending := false;
        DispatchEvent(GameOver, Nothing);
      }
      if quitPending && state != Closed {
        quitPending := false;
        DispatchEvent(Disconnect, Nothing);
      }
      if pendingSelection >= 0 && state != Closed {
        var sel := pendingSelection;
        pendingSelection := -1;
        DispatchEvent(MenuSelect, Choice(sel));
      }
    }

    /** on_data: one slice of plain bytes. */
    method OnData(buf: seq<byte>)
      modifies this
      ensures View() == OnEvents(games, old(View()), DataEvents(buf))
    {
      ghost var s0 := View();
      assert DataEvents(buf[..0]) == [];
      var i := 0;
      while i < |buf|
        invariant 0 <= i <= |buf|
        invariant View() == OnEvents(games, s0, DataEvents(buf[..i]))
      {
        DataTakenOne(games, s0, buf, i);
        if buf[i] != 0 {
          if state == Closed {
            ClosedIgnoresData(games, View(), buf[i..]);
            assert DataEvents(buf) == DataEvents(buf[..i]) + DataEvents(buf[i..]);
            TelnetTheorems.EventsAppend(games, s0, DataEvents(buf[..i]), DataEvents(buf[i..]));
            return;
          }
          DispatchEvent(KeyInput, KeyByte(buf[i]));
          ConsumeFlags();
        }
        i := i + 1;
      }
      assert buf[..|buf|] == buf;
    }

    method Agree(cmd: byte, opt: byte)
      modifies this`nawsOk, this`echoOk, this`sgaOk
      ensures View() == Agreed(old(View()), cmd, opt)
    {
      if cmd == WILL && opt == OPT_NAWS { nawsOk := true; }
      if cmd == DO && opt == OPT_ECHO { echoOk := true; }
      if cmd == DO && opt == OPT_SGA { sgaOk := true; }
      if cmd == DONT && opt == OPT_ECHO { echoOk := false; }
    }

    /** on_option. */
    method OptionReply(cmd: byte, opt: byte)
      modifies this
      ensures View() == TelnetSpec.OnOption(games, old(View()), cmd, opt)
    {
      Agree(cmd, opt);
      if negoPending > 0 {
        negoPending := negoPending - 1;
        if negoPending == 0 && state != Closed {
          DispatchEvent(NegoDone, Nothing);
        }
      }
    }

    /** on_subneg: only a NAWS block with four bytes matters. */
    method Subneg(opt: byte, data: seq<byte>)
      modifies this
      ensures View() == OnEvent(games, old(View()), Subnegotiation(opt, data))
    {
      if opt == OPT_NAWS && |data| >= 4 {
        var reported := IacRoundTrip.Size(256 * (data[0] as int) + data[1], 256 * (data[2] as int) + data[3]);
        assert IacRoundTrip.NawsSize(Subnegotiation(opt, data)) == Some(reported);
        size := reported;
        DispatchEvent(Naws, Nothing);
      }
    }

    method Callback(call: Call, raw: seq<byte>)
      requires call.Slice? ==> call.start + call.len <= |raw|
      modifies this
      ensures View() == OnEvents(games, old(View()), CallEvents(call, raw))
    {
      ghost var s0 := View();
      match call {
        case Slice(start, len) => OnData(raw[start..start + len]);
        case EscapedIac =>
          OnData([IAC]);
          assert DataEvents([IAC]) == [Byte(IAC)];
        case OnOption(cmd, opt) =>
          OneEvent(games, s0, Negotiation(cmd, opt));
          OptionReply(cmd, opt);
        case OnSubneg(opt, payload) =>
          OneEvent(games, s0, Subnegotiation(opt, payload));
          Subneg(opt, payload);
      }
    }

    /** iac_parser_feed with the session's callbacks. */
    method Receive(raw: seq<byte>)
      requires Valid()
      modifies this, parser, parser.sbBuf
      ensures Valid()
      ensures View() == OnEvents(games, old(View()), Decode(old(parser.View()), raw).1)
      ensures parser.View() == Decode(old(parser.View()), raw).0
    {
      var calls := parser.Feed(raw);
      Deliver(calls, raw);
    }

    /** The callbacks one after the other. */
    method Deliver(calls: seq<Call>, raw: seq<byte>)
      requires Separated(calls, |raw| + 1)
      modifies this
      ensures View() == OnEvents(games, old(View()), Flatten(calls, raw))
    {
      ghost var s0 := View();
      var k := 0;
      while k < |calls|
        invariant 0 <= k <= |calls|
        invariant View() == OnEvents(games, s0, Flatten(calls[..k], raw))
      {
        OneCall(games, s0, calls, k, raw);
        Callback(calls[k], raw);
        k := k + 1;
      }
      assert calls[..|calls|] == calls;
    }

    /** What one return of poll brings; the result says whether the loop is left by break. */
    method HandleInput(i: Input) returns (stop: bool)
      requires Valid()
      modifies this, parser, parser.sbBuf
      ensures Valid()
      ensures Conn(View(), parser.View(), stop) == OnInput(games, Conn(old(View()), old(parser.View()), false), i)
    {
      stop := false;
      match i {
        case Chunk(bytes) => Receive(bytes);
        case Timeout =>
          if negoPending > 0 {
            negoPending := 0;
            DispatchEvent(NegoDone, Nothing);
          } else {
            DispatchEvent(TimedOut, Nothing);
          }
        case PeerClosed =>
          DispatchEvent(Disconnect, Nothing);
          stop := true;
        case Notify =>
          world := games.notify(world, size);
          log := log + [Notified(size)];
        case Interrupted =>
        case Stop => stop := true;
      }
    }

    /**
     telnet_run_session: connect, poll until the machine is closed or the loop is
     left, then destroy a game that is still running. When the inputs run out
     first, the session is still waiting at its poll.
     */
    method RunSession(inputs: seq<Input>) returns (left: bool)
      requires Valid() && parser.View() == FRESH
      requires View() == Session(Init, 0, -1, false, false, None, false, IacRoundTrip.Size(80, 24), false, false, false, world, [])
      modifies this, parser, parser.sbBuf
      ensures Valid()
      ensures var c := Loop(games, Open(games, old(world)), inputs);
        left == Exited(c) && View() == if left then Teardown(games, c.session) else c.session
    {
      ghost var c0 := Open(games, world);
      DispatchEvent(Connected, Nothing);
      var stopped := false;
      var k := 0;
      assert inputs[0..] == inputs;
      while k < |inputs| && !stopped && state != Closed
        invariant 0 <= k <= |inputs| && Valid()
        invariant Loop(games, c0, inputs) == Loop(games, Conn(View(), parser.View(), stopped), inputs[k..])
      {
        LoopTurn(games, Conn(View(), parser.View(), stopped), inputs, k);
        stopped := HandleInput(inputs[k]);
        k := k + 1;
      }
      left := stopped || state == Closed;
      if left {
        DestroyGame();
      }
    }

    /** After the loop: a game still running is destroyed. */
    method DestroyGame()
      modifies this
      ensures View() == Teardown(games, old(View()))
    {
      if activeGame.Some? && gameState {
        world := games.destroy(world, activeGame.value);
        log := log + [Destroyed(activeGame.value)];
        gameState := false;
        activeGame := None;
      }
    }
  }

  lemma {:induction false} OneCall<W>(g: Games<W>, s: Session<W>, calls: seq<Call>, k: nat, raw: seq<byte>)
    requires k < |calls|
    ensures OnEvents(g, s, Flatten(calls[..k + 1], raw)) == OnEvents(g, OnEvents(g, s, Flatten(calls[..k], raw)), CallEvents(calls[k], raw))
  {
    assert calls[..k + 1][..k] == calls[..k];
    TelnetTheorems.EventsAppend(g, s, Flatten(calls[..k], raw), CallEvents(calls[k], raw));
  }

  lemma {:induction false} LoopTurn<W>(g: Games<W>, c: Conn<W>, inputs: seq<Input>, k: nat)
    requires k < |inputs| && !Exited(c)
    ensures Loop(g, c, inputs[k..]) == Loop(g, OnInput(g, c, inputs[k]), inputs[k + 1..])
  {
    assert inputs[k..][0] == inputs[k] && inputs[k..][1..] == inputs[k + 1..];
  }

  lemma {:induction false} OneEvent<W>(g: Games<W>, s: Session<W>, e: Event)
    ensures OnEvents(g, s, [e]) == OnEvent(g, s, e)
  {
    assert [e][1..] == [];
    assert OnEvents(g, OnEvent(g, s, e), []) == OnEvent(g, s, e);
  }

  lemma {:induction false} DataTakenOne<W>(g: Games<W>, s: Session<W>, buf: seq<byte>, i: nat)
    requires i < |buf|
    ensures OnEvents(g, s, DataEvents(buf[..i + 1])) == OnByte(g, OnEvents(g, s, DataEvents(buf[..i])), buf[i])
  {
    assert DataEvents(buf[..i + 1]) == DataEvents(buf[..i]) + [Byte(buf[i])];
    TelnetTheorems.EventsAppend(g, s, DataEvents(buf[..i]), [Byte(buf[i])]);
    OneEvent(g, OnEvents(g, s, DataEvents(buf[..i])), Byte(buf[i]));
  }

  lemma {:induction false} ClosedIgnoresData<W>(g: Games<W>, s: Session<W>, buf: seq<byte>)
    requires s.state == Closed
    ensures OnEvents(g, s, DataEvents(buf)) == s
    decreases |buf|
  {
    if buf != [] {
      assert DataEvents(buf)[1..] == DataEvents(buf[1..]);
      ClosedIgnoresData(g, s, buf[1..]);
    }
  }
}
