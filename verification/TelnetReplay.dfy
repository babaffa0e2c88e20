/**
 What reaches the games: the world of a session is what the logged calls make of
 it, and the calls are the ones the input asks for.
 */
module TelnetReplay {
  import opened Common
  import opened Iac
  import opened IacRoundTrip
  import opened TelnetSpec
  import opened TelnetTheorems

  // ----- The log accounts for the world -----------------------------------------------------------

  /** What one logged call does to the games' world. */
  function Apply<W>(g: Games<W>, w: W, m: Mark): W {
    match m
    case Created(item, size) => g.create(w, item, size).0
    case CreateFailed(item, size) => g.create(w, item, size).0
    case KeyTo(item, key, size) => g.key(w, item, key, size).0
    case Destroyed(item) => g.destroy(w, item)
    case Notified(size) => g.notify(w, size)
    case _ => w
  }

  function Replay<W>(g: Games<W>, w: W, log: seq<Mark>): W {
    if log == [] then w else Apply(g, Replay(g, w, log[..|log| - 1]), log[|log| - 1])
  }

  /** The last call was a key that ended its game. */
  predicate Ended<W>(g: Games<W>, w: W, log: seq<Mark>) {
    log != [] &&
    var m := log[|log| - 1];
    m.KeyTo? && !g.key(Replay(g, w, log[..|log| - 1]), m.item, m.key, m.size).1
  }

  /** A logged creation says whether it succeeded. */
  predicate Honest<W>(g: Games<W>, w: W, m: Mark) {
    && (m.Created? ==> g.create(w, m.item, m.size).1)
    && (m.CreateFailed? ==> !g.create(w, m.item, m.size).1)
  }

  /** Every creation is logged by its result, and a game is destroyed at once exactly when its key ended it. */
  predicate Truthful<W>(g: Games<W>, w: W, log: seq<Mark>) {
    log == [] ||
    (var front, m := log[..|log| - 1], log[|log| - 1];
     Truthful(g, w, front) && Honest(g, Replay(g, w, front), m) && (Ended(g, w, front) <==> m.Destroyed?))
  }

  ghost predicate Told<W>(g: Games<W>, w: W, log: seq<Mark>, world: W) {
    Replay(g, w, log) == world && Truthful(g, w, log) && !Ended(g, w, log)
  }

  lemma {:induction false} ReplaySnoc<W>(g: Games<W>, w: W, log: seq<Mark>, m: Mark)
    ensures Replay(g, w, log + [m]) == Apply(g, Replay(g, w, log), m)
    ensures Truthful(g, w, log + [m]) <==>
      Truthful(g, w, log) && Honest(g, Replay(g, w, log), m) && (Ended(g, w, log) <==> m.Destroyed?)
    ensures Ended(g, w, log + [m]) <==> m.KeyTo? && !g.key(Replay(g, w, log), m.item, m.key, m.size).1
  {
    assert (log + [m])[..|log + [m]| - 1] == log;
  }

  lemma {:induction false} QuietMark<W>(g: Games<W>, w: W, log: seq<Mark>, world: W, m: Mark)
    requires Told(g, w, log, world) && (m.Bye? || m.MenuShown? || m.Offered?)
    ensures Told(g, w, log + [m], world)
  {
    ReplaySnoc(g, w, log, m);
  }

  lemma {:induction false} StartIsTold<W>(g: Games<W>, w: W, s: Session<W>, i: nat)
    requires Told(g, w, s.log, s.world)
    ensures var t := Start(g, s, i).0; Told(g, w, t.log, t.world)
  {
    ReplaySnoc(g, w, s.log, Created(i, s.size));
    ReplaySnoc(g, w, s.log, CreateFailed(i, s.size));
  }

  lemma {:induction false} KeyIsTold<W>(g: Games<W>, w: W, s: Session<W>, b: byte)
    requires Told(g, w, s.log, s.world) && s.game.Some?
    ensures var t := PlayKey(g, s, b); Told(g, w, t.log, t.world)
  {
    var item := s.game.value;
    var keyed := s.log + [KeyTo(item, b, s.size)];
    ReplaySnoc(g, w, s.log, KeyTo(item, b, s.size));
    ReplaySnoc(g, w, keyed, Destroyed(item));
  }

  lemma {:induction false} ByteIsTold<W>(g: Games<W>, w: W, s: Session<W>, b: byte)
    requires Inv(s) && Told(g, w, s.log, s.world)
    ensures var t := OnByte(g, s, b); Told(g, w, t.log, t.world)
  {
    if b == 0 || s.state == Closed {
    } else if s.state == Negotiating {
      EarlyByteIs(g, s, b);
      QuietMark(g, w, s.log, s.world, MenuShown);
    } else if s.state == InGame {
      GameByteIs(g, s, b);
      KeyIsTold(g, w, s, b);
      var t := PlayKey(g, s, b);
      QuietMark(g, w, t.log, t.world, MenuShown);
    } else if IsQuit(b) {
      QuitByteIs(g, s, b);
      QuietMark(g, w, s.log, s.world, Bye);
    } else {
      MenuByteIs(g, s, b);
      if MenuIndex(MENU_KEYS, b) >= 0 {
        StartIsTold(g, w, s, MenuIndex(MENU_KEYS, b));
      }
    }
  }

  lemma {:induction false} NegoDoneIsTold<W>(g: Games<W>, w: W, s: Session<W>)
    requires Told(g, w, s.log, s.world)
    ensures var t := Dispatch(g, s, NegoDone, Nothing); Told(g, w, t.log, t.world)
  {
    NegoDoneIs(g, s);
    QuietMark(g, w, s.log, s.world, MenuShown);
  }

  /** A reply sets its flag and counts down; the last one awaited brings up the menu. */
  lemma {:induction false} ReplyIs<W>(g: Games<W>, s: Session<W>, cmd: byte, opt: byte)
    ensures var s1 := Agreed(s, cmd, opt);
      OnEvent(g, s, Negotiation(cmd, opt)) ==
      if s.nego == 0 then s1
      else if s.nego == 1 && s.state == Negotiating then Show(s1.(nego := 0)).(state := MainMenu)
      else s1.(nego := s.nego - 1)
  {
    if s.nego > 0 {
      NegoDoneIs(g, Agreed(s, cmd, opt).(nego := s.nego - 1));
    }
  }

  lemma {:induction false} ReplyIsTold<W>(g: Games<W>, w: W, s: Session<W>, cmd: byte, opt: byte)
    requires Told(g, w, s.log, s.world)
    ensures var t := OnEvent(g, s, Negotiation(cmd, opt)); Told(g, w, t.log, t.world)
  {
    ReplyIs(g, s, cmd, opt);
    QuietMark(g, w, s.log, s.world, MenuShown);
  }

  /** A block changes at most the size. */
  lemma {:induction false} SubnegotiationIs<W>(g: Games<W>, s: Session<W>, e: Event)
    requires e.Subnegotiation?
    ensures OnEvent(g, s, e) == match NawsSize(e) case None => s case Some(size) => s.(size := size)
  {
    assert Transition(s.state, Naws) == None;
  }

  lemma {:induction false} EventIsTold<W>(g: Games<W>, w: W, s: Session<W>, e: Event)
    requires Inv(s) && Told(g, w, s.log, s.world)
    ensures var t := OnEvent(g, s, e); Told(g, w, t.log, t.world)
  {
    match e
    case Byte(b) => ByteIsTold(g, w, s, b);
    case Negotiation(cmd, opt) => ReplyIsTold(g, w, s, cmd, opt);
    case Subnegotiation(_, _) => SubnegotiationIs(g, s, e);
  }

  lemma {:induction false} EventsAreTold<W>(g: Games<W>, w: W, s: Session<W>, es: seq<Event>)
    requires Inv(s) && Told(g, w, s.log, s.world)
    ensures var t := OnEvents(g, s, es); Told(g, w, t.log, t.world)
    decreases |es|
  {
    if es != [] {
      EventKeeps(g, s, es[0]);
      EventIsTold(g, w, s, es[0]);
      EventsAreTold(g, w, OnEvent(g, s, es[0]), es[1..]);
    }
  }

  lemma {:induction false} TimeoutIsTold<W>(g: Games<W>, w: W, s: Session<W>)
    requires Told(g, w, s.log, s.world)
    ensures var t := OnTimeout(g, s); Told(g, w, t.log, t.world)
  {
    if s.nego > 0 {
      NegoDoneIsTold(g, w, s.(nego := 0));
    } else {
      TimedOutIs(g, s);
      QuietMark(g, w, s.log, s.world, Bye);
    }
  }

  lemma {:induction false} DisconnectIsTold<W>(g: Games<W>, w: W, s: Session<W>)
    requires Told(g, w, s.log, s.world)
    ensures var t := Dispatch(g, s, Disconnect, Nothing); Told(g, w, t.log, t.world)
  {
    DisconnectIs(g, s);
    QuietMark(g, w, s.log, s.world, Bye);
  }

  lemma {:induction false} InputIsTold<W>(g: Games<W>, w: W, c: Conn<W>, i: Input)
    requires Inv(c.session) && Told(g, w, c.session.log, c.session.world)
    ensures var t := OnInput(g, c, i).session; Told(g, w, t.log, t.world)
  {
    var s := c.session;
    match i
    case Chunk(bytes) => EventsAreTold(g, w, s, Decode(c.parser, bytes).1);
    case Timeout => TimeoutIsTold(g, w, s);
    case PeerClosed => DisconnectIsTold(g, w, s);
    case Notify => ReplaySnoc(g, w, s.log, Notified(s.size));
    case _ =>
  }

  lemma {:induction false} LoopIsTold<W>(g: Games<W>, w: W, c: Conn<W>, inputs: seq<Input>)
    requires Inv(c.session) && Told(g, w, c.session.log, c.session.world)
    ensures var t := Loop(g, c, inputs).session; Told(g, w, t.log, t.world)
    decreases |inputs|
  {
    if inputs != [] && !Exited(c) {
      InputKeeps(g, c, inputs[0]);
      InputIsTold(g, w, c, inputs[0]);
      LoopIsTold(g, w, OnInput(g, c, inputs[0]), inputs[1..]);
    }
  }

  /**
   Over every session the world is what the logged calls, with the logged
   arguments, make of the initial one; creations are logged by their result and
   a game is destroyed at once exactly when a key ended it.
   */
  lemma {:induction false} CallsMakeTheWorld<W>(g: Games<W>, w: W, inputs: seq<Input>)
    ensures var s := Loop(g, Open(g, w), inputs).session;
      && Replay(g, w, s.log) == s.world && Truthful(g, w, s.log) && !Ended(g, w, s.log)
      && Replay(g, w, Teardown(g, s).log) == Teardown(g, s).world
  {
    OpenOk(g, w);
    assert [] + [Offered] == [Offered];
    QuietMark(g, w, [], w, Offered);
    LoopIsTold(g, w, Open(g, w), inputs);
    var s := Loop(g, Open(g, w), inputs).session;
    if s.game.Some? {
      ReplaySnoc(g, w, s.log, Destroyed(s.game.value));
    }
  }

  // ----- Bytes reach what they are meant for ---------------------------------------------------------

  /** A key in a game: that game's handler gets that byte, and a game it ends is destroyed before the menu returns. */
  lemma {:induction false} KeyReachesGame<W>(g: Games<W>, s: Session<W>, b: byte)
    requires Inv(s) && s.state == InGame && b != 0
    ensures s.game.Some?
    ensures var item := s.game.value;
      var (w, running) := g.key(s.world, item, b, s.size);
      var t := OnByte(g, s, b);
      var keyed := s.log + [KeyTo(item, b, s.size)];
      && (running ==> t == s.(world := w, log := keyed))
      && (!running ==>
          && t.world == g.destroy(w, item) && t.state == MainMenu && t.game == None
          && t.log == keyed + [Destroyed(item)] + [MenuShown])
  {
    GameByteIs(g, s, b);
  }

  /** A menu key creates the game of its own place in the menu. */
  lemma {:induction false} MenuKeyStartsGame<W>(g: Games<W>, s: Session<W>, i: nat)
    requires Inv(s) && s.state == MainMenu && i < QUIT_ITEM
    ensures var (w, ok) := g.create(s.world, i, s.size);
      var t := OnByte(g, s, MENU_KEYS[i]);
      && t.world == w && t.state == (if ok then InGame else MainMenu) && t.game == (if ok then Some(i) else None)
      && t.log == s.log + [if ok then Created(i, s.size) else CreateFailed(i, s.size)]
  {
    MenuKeysDiffer(i, MenuIndex(MENU_KEYS, MENU_KEYS[i]));
    MenuByteIs(g, s, MENU_KEYS[i]);
  }

  lemma {:induction false} MenuKeysDiffer(i: nat, k: int)
    requires i < QUIT_ITEM && 0 <= k < |MENU_KEYS| && MENU_KEYS[k] == MENU_KEYS[i]
    ensures k == i && MENU_KEYS[i] != 0 && !IsQuit(MENU_KEYS[i])
  {
    assert i in [0, 1, 2, 3, 4, 5, 6, 7, 8, 9, 10];
    assert k in [0, 1, 2, 3, 4, 5, 6, 7, 8, 9, 10, 11];
  }

  /** Any other byte at the menu does nothing, except q, Q and Ctrl-C, which end the session. */
  lemma {:induction false} OtherMenuKeys<W>(g: Games<W>, s: Session<W>, b: byte)
    requires Inv(s) && s.state == MainMenu && b !in MENU_KEYS[..QUIT_ITEM]
    ensures OnByte(g, s, b) == if b in {113, 81, 3} then s.(state := Closed, log := s.log + [Bye]) else s
  {
    assert forall k | 0 <= k < QUIT_ITEM :: MENU_KEYS[..QUIT_ITEM][k] == MENU_KEYS[k];
    if b == 0 {
    } else if IsQuit(b) {
      QuitByteIs(g, s, b);
    } else {
      MenuByteIs(g, s, b);
      QuitItemUnreachable(b);
    }
  }

  /** A game that goes on through these bytes; NUL is not delivered. */
  predicate GoesOn<W>(g: Games<W>, w: W, item: nat, size: Size, bytes: seq<byte>) {
    bytes == []
    || (if bytes[0] == 0 then GoesOn(g, w, item, size, bytes[1..])
        else
          var (w1, running) := g.key(w, item, bytes[0], size);
          running && GoesOn(g, w1, item, size, bytes[1..]))
  }

  /** The world after each of these bytes but NUL was given to the game, in order. */
  function Played<W>(g: Games<W>, w: W, item: nat, size: Size, bytes: seq<byte>): W {
    if bytes == [] then w
    else Played(g, if bytes[0] == 0 then w else g.key(w, item, bytes[0], size).0, item, size, bytes[1..])
  }

  function KeyMarks(item: nat, size: Size, bytes: seq<byte>): seq<Mark> {
    if bytes == [] then []
    else (if bytes[0] == 0 then [] else [KeyTo(item, bytes[0], size)]) + KeyMarks(item, size, bytes[1..])
  }

  lemma {:induction false} EventsReachGame<W>(g: Games<W>, s: Session<W>, bytes: seq<byte>)
    requires Inv(s) && s.state == InGame
    requires s.game.Some? ==> GoesOn(g, s.world, s.game.value, s.size, bytes)
    ensures s.game.Some?
    ensures var item := s.game.value;
      OnEvents(g, s, DataEvents(bytes))
      == s.(world := Played(g, s.world, item, s.size, bytes), log := s.log + KeyMarks(item, s.size, bytes))
    decreases |bytes|
  {
    if bytes != [] {
      var b, rest := bytes[0], bytes[1..];
      assert DataEvents(bytes)[0] == Byte(b) && DataEvents(bytes)[1..] == DataEvents(rest);
      var t := OnByte(g, s, b);
      if b != 0 {
        KeyReachesGame(g, s, b);
      }
      ByteKeeps(g, s, b);
      EventsReachGame(g, t, rest);
      Regroup(s.log, if b == 0 then [] else [KeyTo(s.game.value, b, s.size)], KeyMarks(s.game.value, s.size, rest));
      assert s.log + [] == s.log;
    } else {
      assert s.log + [] == s.log;
    }
  }

  /** What a client types while a game goes on reaches that game: every byte but NUL, unchanged, once and in order. */
  lemma {:induction false} TypingReachesGame<W>(g: Games<W>, c: Conn<W>, bytes: seq<byte>)
    requires Inv(c.session) && c.session.state == InGame && !c.stopped && c.parser.mode == Data
    requires c.session.game.Some? ==> GoesOn(g, c.session.world, c.session.game.value, c.session.size, bytes)
    ensures c.session.game.Some?
    ensures var s, item := c.session, c.session.game.value;
      Loop(g, c, [Chunk(Encode(Run(bytes)))])
      == c.(session := s.(world := Played(g, s.world, item, s.size, bytes), log := s.log + KeyMarks(item, s.size, bytes)))
  {
    DecodeRun(c.parser, bytes);
    EventsReachGame(g, c.session, bytes);
    OneInput(g, c, Chunk(Encode(Run(bytes))));
  }

  lemma {:induction false} OneInput<W>(g: Games<W>, c: Conn<W>, i: Input)
    requires !Exited(c)
    ensures Loop(g, c, [i]) == OnInput(g, c, i)
  {
    assert [i][1..] == [];
  }

  // ----- Window size, replies, hang-up -----------------------------------------------------------------

  /** A window report that arrives sets the size every later call gets, exactly if it has no byte 255; nothing else changes. */
  lemma {:induction false} WindowReport<W>(g: Games<W>, c: Conn<W>, size: Size)
    requires !Exited(c) && c.parser.mode == Data && size.cols < 65536 && size.rows < 65536
    ensures var c' := Loop(g, c, [Chunk(Encode(Block(OPT_NAWS, NawsPayload(size))))]);
      && c'.session == (if IAC in NawsPayload(size) then c.session else c.session.(size := size))
      && c'.parser.mode == Data && c'.stopped == c.stopped
  {
    var item := Block(OPT_NAWS, NawsPayload(size));
    WindowSizeRecovered(c.parser, size);
    ItemRoundTrip(c.parser, item);
    var es := Decode(c.parser, Encode(item)).1;
    assert es == [es[0]] && es[1..] == [];
    SubnegotiationIs(g, c.session, es[0]);
    assert OnEvents(g, c.session, es) == OnEvents(g, OnEvent(g, c.session, es[0]), []);
    OneInput(g, c, Chunk(Encode(item)));
  }

  lemma {:induction false} BlockArrives<W>(g: Games<W>, c: Conn<W>, opt: byte, payload: seq<byte>)
    requires !Exited(c) && c.parser.mode == Data && Wellformed(c.parser) && Faithful(Block(opt, payload))
    ensures var e := Subnegotiation(opt, payload);
      Loop(g, c, [Chunk(Encode(Block(opt, payload)))]).session == OnEvent(g, c.session, e)
  {
    var item := Block(opt, payload);
    ItemSurvives(c.parser, item);
    var e := Subnegotiation(opt, payload);
    assert [e][1..] == [];
    assert OnEvents(g, c.session, [e]) == OnEvents(g, OnEvent(g, c.session, e), []);
    OneInput(g, c, Chunk(Encode(item)));
  }

  /** Bytes behind the four of a window report are ignored. */
  lemma {:induction false} LongWindowReport<W>(g: Games<W>, c: Conn<W>, size: Size, more: seq<byte>)
    requires !Exited(c) && c.parser.mode == Data && Wellformed(c.parser) && size.cols < 65536 && size.rows < 65536
    requires IAC !in NawsPayload(size) && IAC !in more && |more| <= 250
    ensures Loop(g, c, [Chunk(Encode(Block(OPT_NAWS, NawsPayload(size) + more)))]).session == c.session.(size := size)
  {
    var payload := NawsPayload(size) + more;
    BlockArrives(g, c, OPT_NAWS, payload);
    SubnegotiationIs(g, c.session, Subnegotiation(OPT_NAWS, payload));
  }

  /** Any other block, and a report of less than four bytes, changes nothing. */
  lemma {:induction false} OtherBlocks<W>(g: Games<W>, c: Conn<W>, opt: byte, payload: seq<byte>)
    requires !Exited(c) && c.parser.mode == Data && Wellformed(c.parser) && Faithful(Block(opt, payload))
    requires opt != OPT_NAWS || |payload| < 4
    ensures Loop(g, c, [Chunk(Encode(Block(opt, payload)))]).session == c.session
  {
    BlockArrives(g, c, opt, payload);
    SubnegotiationIs(g, c.session, Subnegotiation(opt, payload));
  }

  /** A wake-up runs the hook once, with the current size. */
  lemma {:induction false} WakeUpNotifies<W>(g: Games<W>, c: Conn<W>)
    requires !Exited(c)
    ensures var s, t := c.session, Loop(g, c, [Notify]).session;
      t == s.(world := g.notify(s.world, s.size), log := s.log + [Notified(s.size)])
  {
    OneInput(g, c, Notify);
  }

  ghost predicate AllReplies(es: seq<Event>) {
    forall e | e in es :: e.Negotiation?
  }

  /** DO after the last DONT. */
  predicate EchoWanted(es: seq<Event>, before: bool) {
    if es == [] then before
    else EchoWanted(es[1..], (before || es[0] == Negotiation(DO, OPT_ECHO)) && es[0] != Negotiation(DONT, OPT_ECHO))
  }

  lemma {:induction false} RepliesCount<W>(g: Games<W>, s: Session<W>, es: seq<Event>)
    requires AllReplies(es) && s.state == Negotiating && s.nego > 0
    ensures var t := OnEvents(g, s, es);
      && t.state == (if |es| < s.nego then Negotiating else MainMenu)
      && t.nego == (if |es| < s.nego then s.nego - |es| else 0)
      && t.log == (if |es| < s.nego then s.log else s.log + [MenuShown])
    decreases |es|
  {
    if es != [] {
      assert es[0] in es;
      var t := OnEvent(g, s, es[0]);
      ReplyIs(g, s, es[0].cmd, es[0].opt);
      assert forall e | e in es[1..] :: e in es;
      if t.state == Negotiating {
        RepliesCount(g, t, es[1..]);
      } else {
        LateReplies(g, t, es[1..]);
      }
    }
  }

  /** Replies after the last awaited one change only the capability flags. */
  lemma {:induction false} LateReplies<W>(g: Games<W>, s: Session<W>, es: seq<Event>)
    requires AllReplies(es) && s.nego == 0
    ensures var t := OnEvents(g, s, es); t == s.(nawsOk := t.nawsOk, echoOk := t.echoOk, sgaOk := t.sgaOk)
    decreases |es|
  {
    if es != [] {
      assert es[0] in es;
      assert forall e | e in es[1..] :: e in es;
      ReplyIs(g, s, es[0].cmd, es[0].opt);
      LateReplies(g, OnEvent(g, s, es[0]), es[1..]);
    }
  }

  lemma {:induction false} OneReply<W>(g: Games<W>, s: Session<W>, cmd: byte, opt: byte)
    ensures var t := OnEvent(g, s, Negotiation(cmd, opt));
      && t.nawsOk == (s.nawsOk || (cmd == WILL && opt == OPT_NAWS))
      && t.sgaOk == (s.sgaOk || (cmd == DO && opt == OPT_SGA))
      && t.echoOk == ((s.echoOk || (cmd == DO && opt == OPT_ECHO)) && !(cmd == DONT && opt == OPT_ECHO))
  {
    ReplyIs(g, s, cmd, opt);
  }

  /** What replies settle: NAWS by any WILL, suppress-go-ahead by any DO, echo by the last DO or DONT. */
  lemma {:induction false} RepliesSettle<W>(g: Games<W>, s: Session<W>, es: seq<Event>)
    requires AllReplies(es)
    ensures var t := OnEvents(g, s, es);
      && (t.nawsOk <==> s.nawsOk || Negotiation(WILL, OPT_NAWS) in es)
      && (t.sgaOk <==> s.sgaOk || Negotiation(DO, OPT_SGA) in es)
      && (t.echoOk <==> EchoWanted(es, s.echoOk))
    decreases |es|
  {
    if es != [] {
      assert es[0] in es;
      assert forall e | e in es[1..] :: e in es;
      OneReply(g, s, es[0].cmd, es[0].opt);
      RepliesSettle(g, OnEvent(g, s, es[0]), es[1..]);
      assert es == [es[0]] + es[1..];
    }
  }

  /** Three offers await three replies: the third, whatever it says, brings up the menu. */
  lemma {:induction false} ThirdReplyShowsMenu<W>(g: Games<W>, w: W, es: seq<Event>)
    requires AllReplies(es)
    ensures var t := OnEvents(g, Open(g, w).session, es);
      && t.state == (if |es| < 3 then Negotiating else MainMenu)
      && t.log == (if |es| < 3 then [Offered] else [Offered, MenuShown])
  {
    RepliesCount(g, Open(g, w).session, es);
    assert [] + [Offered] == [Offered] && [Offered] + [MenuShown] == [Offered, MenuShown];
  }

  function WithoutInterrupts(inputs: seq<Input>): seq<Input> {
    if inputs == [] then []
    else (if inputs[0] == Interrupted then [] else [inputs[0]]) + WithoutInterrupts(inputs[1..])
  }

  /** An interrupted poll is as if it had not returned. */
  lemma {:induction false} InterruptsAreInvisible<W>(g: Games<W>, c: Conn<W>, inputs: seq<Input>)
    ensures Loop(g, c, inputs) == Loop(g, c, WithoutInterrupts(inputs))
    decreases |inputs|
  {
    if Exited(c) {
      ExitedStays(g, c, inputs);
      ExitedStays(g, c, WithoutInterrupts(inputs));
    } else if inputs != [] {
      var i, rest := inputs[0], inputs[1..];
      assert inputs == [i] + rest;
      LoopStep(g, c, i, rest);
      if i == Interrupted {
        InterruptsAreInvisible(g, c, rest);
        assert WithoutInterrupts(inputs) == WithoutInterrupts(rest);
      } else {
        LoopStep(g, c, i, WithoutInterrupts(rest));
        InterruptsAreInvisible(g, OnInput(g, c, i), rest);
      }
    }
  }

  /** A peer that hangs up closes the session; a stop request only leaves the loop. */
  lemma {:induction false} HangUpCloses<W>(g: Games<W>, c: Conn<W>)
    requires !Exited(c)
    ensures Loop(g, c, [PeerClosed]).session == c.session.(state := Closed, log := c.session.log + [Bye])
    ensures Loop(g, c, [Stop]).session == c.session && Exited(Loop(g, c, [Stop])) && Exited(Loop(g, c, [PeerClosed]))
  {
    OneInput(g, c, PeerClosed);
    OneInput(g, c, Stop);
    DisconnectIs(g, c.session);
  }
}
