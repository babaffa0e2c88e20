/** What a telnet session shows after a key or a wake-up, whatever other threads do before it redraws. */
module BusScreens {
  import opened Common
  import opened Store
  import opened Bus
  import opened BusInvariants
  import opened ChatView

  /** The session stands at pc in room r with this view. */
  ghost predicate Parked(s: State, sid: nat, r: nat, pc: Pc, v: View) {
    && sid in s.clients && r < |s.rooms|
    && s.clients[sid].room == Some(r) && s.clients[sid].pc == pc && s.clients[sid].reader == Telnet(v)
  }

  /** The step a session takes next where it can take only one. */
  ghost predicate MovesOn(step: Step, sid: nat, pc: Pc) {
    match pc
    case AtPull => step == OnClient(sid, Pull)
    case AtSubscribe => step == Subscribe(sid) || step == OnClient(sid, SkipSubscribe)
    case AtUnsubscribe => step == Unsubscribe(sid)
    case _ => true
  }

  lemma {:induction false} StaysParked(s: State, step: Step, sid: nat, r: nat, pc: Pc, v: View)
    requires Parked(s, sid, r, pc, v) && Enabled(s, step) && !MovesOn(step, sid, pc)
    ensures Parked(Next(s, step), sid, r, pc, v)
  {
  }

  lemma {:induction false} StaysParkedOverRun(s: State, steps: seq<Step>, sid: nat, r: nat, pc: Pc, v: View)
    requires Parked(s, sid, r, pc, v) && ValidRun(s, steps) && forall step | step in steps :: !MovesOn(step, sid, pc)
    ensures Parked(Run(s, steps), sid, r, pc, v)
    decreases |steps|
  {
    if steps != [] {
      StaysParked(s, steps[0], sid, r, pc, v);
      StaysParkedOverRun(Next(s, steps[0]), steps[1..], sid, r, pc, v);
    }
  }

  /** What is on the screen of a session in room r that waits for input. */
  ghost predicate OnScreen(s: State, sid: nat, r: nat, v: View) {
    Parked(s, sid, r, AtPoll, v) && v.mode == InRoom
  }

  /** The page of the room that ends before a message. */
  ghost predicate ShowsBefore(v: View, ids: seq<nat>, oldest: nat) {
    !v.atLive && v.shown == Before(ids, oldest, Want(v.rows))
  }

  /** A session about to redraw draws the newest page, or the one before the oldest message it showed. */
  lemma {:induction false} Draws(s: State, sid: nat, r: nat, v: View) returns (w: View)
    requires Inv(s) && Parked(s, sid, r, AtPull, v) && v.mode == InRoom
    ensures Enabled(s, OnClient(sid, Pull))
    ensures var t := Next(s, OnClient(sid, Pull));
      && OnScreen(t, sid, r, w) && w.rows == v.rows && r < |t.rooms|
      && (v.atLive ==> ShowsNewest(w, t.rooms[r].msgs))
      && (!v.atLive ==> ShowsBefore(w, t.rooms[r].msgs, v.oldest))
  {
    var msgs := s.rooms[r].msgs;
    w := Render(v, msgs);
    assert RoomOk(s.rooms[r], s.lastId);
    if v.atLive {
      LivePage(v, msgs);
    }
  }

  /** Where the other threads have taken the system by the time the session redraws. */
  ghost predicate Meanwhiles(s: State, steps: seq<Step>, sid: nat, pc: Pc) {
    Inv(s) && ValidRun(s, steps) && forall step | step in steps :: !MovesOn(step, sid, pc)
  }

  lemma {:induction false} DrawsLater(s: State, mid: seq<Step>, sid: nat, r: nat, v: View) returns (w: View)
    requires Meanwhiles(s, mid, sid, AtPull) && Parked(s, sid, r, AtPull, v) && v.mode == InRoom
    ensures Enabled(Run(s, mid), OnClient(sid, Pull))
    ensures var t := Next(Run(s, mid), OnClient(sid, Pull));
      && OnScreen(t, sid, r, w) && w.rows == v.rows && r < |t.rooms|
      && (v.atLive ==> ShowsNewest(w, t.rooms[r].msgs))
      && (!v.atLive ==> ShowsBefore(w, t.rooms[r].msgs, v.oldest))
  {
    StaysParkedOverRun(s, mid, sid, r, AtPull, v);
    RunKeeps(s, mid);
    w := Draws(Run(s, mid), sid, r, v);
  }

  /** The keys after which the screen is drawn again. */
  predicate Redraws(act: Local, v: View, ids: seq<nat>) {
    act == KeyLive || act == KeyCancel || act == KeySend || act == KeyPosted || (act == KeyOlder && HasOlder(v, ids))
  }

  /** The view a key leaves to be drawn. */
  function ToDraw(act: Local, v: View): View {
    if act == KeyOlder then v.(atLive := false)
    else if act == KeyCancel then v.(mode := ChatView.InRoom)
    else v.(mode := ChatView.InRoom, atLive := true)
  }

  lemma {:induction false} KeyParks(s: State, act: Local, sid: nat, r: nat, v: View)
    requires Enabled(s, OnClient(sid, act)) && s.clients[sid].reader == Telnet(v) && s.clients[sid].room == Some(r) && r < |s.rooms|
    requires Redraws(act, v, MsgsOf(s, s.clients[sid]))
    ensures Parked(Next(s, OnClient(sid, act)), sid, r, AtPull, ToDraw(act, v)) && ToDraw(act, v).mode == ChatView.InRoom
  {
  }

  /**
   After 'n' and after a sent line the session shows the newest messages of the
   moment it draws; after 'p' the page before the oldest message it showed;
   after Esc whichever it was following.
   */
  lemma {:induction false} KeyDraws(s: State, act: Local, mid: seq<Step>, sid: nat, r: nat, v: View) returns (w: View)
    requires Inv(s) && Enabled(s, OnClient(sid, act)) && s.clients[sid].reader == Telnet(v) && s.clients[sid].room == Some(r)
    requires Redraws(act, v, MsgsOf(s, s.clients[sid])) && Meanwhiles(Next(s, OnClient(sid, act)), mid, sid, AtPull)
    ensures var t := Next(Run(Next(s, OnClient(sid, act)), mid), OnClient(sid, Pull));
      && OnScreen(t, sid, r, w) && w.rows == v.rows && r < |t.rooms|
      && (act in {KeyLive, KeySend, KeyPosted} || (act == KeyCancel && v.atLive) ==> ShowsNewest(w, t.rooms[r].msgs))
      && (act == KeyOlder || (act == KeyCancel && !v.atLive) ==> ShowsBefore(w, t.rooms[r].msgs, v.oldest))
  {
    assert ClientOk(s, sid);
    KeyParks(s, act, sid, r, v);
    w := DrawsLater(Next(s, OnClient(sid, act)), mid, sid, r, ToDraw(act, v));
  }

  /** A wake-up while an older page is shown changes no screen. */
  lemma {:induction false} WakeUpIgnored(s: State, sid: nat, v: View)
    requires Enabled(s, OnClient(sid, Notify)) && s.clients[sid].reader == Telnet(v) && !v.atLive
    ensures Next(s, OnClient(sid, Notify)).clients[sid].reader == Telnet(v)
    ensures Next(s, OnClient(sid, Notify)).clients[sid].pc == AtPoll
  {
    var c := s.clients[sid];
    assert LocalNext(c, MsgsOf(s, c), Notify) == c.(pc := AtPoll);
  }

  /** A wake-up draws the newest messages for a session in a room that follows it. */
  lemma {:induction false} WakeUpDraws(s: State, mid: seq<Step>, sid: nat, r: nat, v: View) returns (w: View)
    requires Inv(s) && Enabled(s, OnClient(sid, Notify)) && s.clients[sid].reader == Telnet(v) && s.clients[sid].room == Some(r)
    requires v.atLive && v.mode == InRoom && Meanwhiles(Next(s, OnClient(sid, Notify)), mid, sid, AtPull)
    ensures var t := Next(Run(Next(s, OnClient(sid, Notify)), mid), OnClient(sid, Pull));
      OnScreen(t, sid, r, w) && w.rows == v.rows && r < |t.rooms| && ShowsNewest(w, t.rooms[r].msgs)
  {
    assert ClientOk(s, sid);
    w := DrawsLater(Next(s, OnClient(sid, Notify)), mid, sid, r, v);
  }

  lemma {:induction false} Enters(s: State, sid: nat, r: nat, v: View)
    requires Enabled(s, EnterRoom(sid, r)) && s.clients[sid].reader == Telnet(v)
    ensures Parked(Next(s, EnterRoom(sid, r)), sid, r, AtSubscribe, Enter(v))
  {
  }

  lemma {:induction false} Joins(s: State, join: Step, sid: nat, r: nat, v: View)
    requires Parked(s, sid, r, AtSubscribe, v) && MovesOn(join, sid, AtSubscribe) && Enabled(s, join)
    ensures Parked(Next(s, join), sid, r, AtPull, v)
  {
  }

  /** A session that enters a room ends up following it, with its newest messages shown. */
  lemma {:induction false} EnterDraws(s: State, sid: nat, r: nat, wait: seq<Step>, join: Step, mid: seq<Step>) returns (w: View)
    requires Inv(s) && Enabled(s, EnterRoom(sid, r))
    requires Meanwhiles(Next(s, EnterRoom(sid, r)), wait, sid, AtSubscribe)
    requires MovesOn(join, sid, AtSubscribe) && Enabled(Run(Next(s, EnterRoom(sid, r)), wait), join)
    requires Meanwhiles(Next(Run(Next(s, EnterRoom(sid, r)), wait), join), mid, sid, AtPull)
    ensures var t := Next(Run(Next(Run(Next(s, EnterRoom(sid, r)), wait), join), mid), OnClient(sid, Pull));
      OnScreen(t, sid, r, w) && r < |t.rooms| && ShowsNewest(w, t.rooms[r].msgs)
  {
    var s1 := Next(s, EnterRoom(sid, r));
    var v1 := Enter(s.clients[sid].reader.view);
    Enters(s, sid, r, s.clients[sid].reader.view);
    StaysParkedOverRun(s1, wait, sid, r, AtSubscribe, v1);
    Joins(Run(s1, wait), join, sid, r, v1);
    w := DrawsLater(Next(Run(s1, wait), join), mid, sid, r, v1);
  }

  /** Leaving a room ends in the lobby, without room or slot. */
  lemma {:induction false} LeaveReturns(s: State, mid: seq<Step>, sid: nat, r: nat, v: View)
    requires Inv(s) && Enabled(s, OnClient(sid, KeyLeave)) && s.clients[sid].reader == Telnet(v) && s.clients[sid].room == Some(r)
    requires Meanwhiles(Next(s, OnClient(sid, KeyLeave)), mid, sid, AtUnsubscribe)
    ensures var t := Next(Run(Next(s, OnClient(sid, KeyLeave)), mid), Unsubscribe(sid));
      && sid in t.clients && t.clients[sid].room == None && !t.clients[sid].slot && t.clients[sid].pc == AtPoll
      && t.clients[sid].reader.Telnet? && t.clients[sid].reader.view.mode == Lobby
  {
    assert ClientOk(s, sid);
    var s1 := Next(s, OnClient(sid, KeyLeave));
    StaysParkedOverRun(s1, mid, sid, r, AtUnsubscribe, v);
  }
}
