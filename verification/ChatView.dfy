/**
 chat.c: the telnet room view. Rendering is reduced to the page of messages
 that was read for it; `seen` remembers how many messages the room had then.
 */
module ChatView {
  import opened Common
  import opened Store
  import ChatDb
  import Rooms

  const MSG_LINES: nat := 18

  datatype Mode = Username | Lobby | InRoom | Compose

  datatype View = View(mode: Mode, atLive: bool, oldest: nat, rows: nat,
                       shown: seq<nat>, want: nat, seen: nat)

  /** Message rows that fit the terminal: 2 header and 3 footer rows, at most MSG_LINES. */
  function Want(rows: nat): (w: nat)
    ensures 1 <= w <= MSG_LINES
    ensures rows > 6 ==> w + 5 <= rows && (w == MSG_LINES || w + 5 == rows)
    ensures rows <= 6 ==> w == MSG_LINES
  {
    var r := if rows > 6 then rows else 24;
    var avail := r - 5;
    if 0 < avail < MSG_LINES then avail else MSG_LINES
  }

  // ----- Effects of the handlers on the view, given the room's message ids ------------

  function Enter(v: View): View {
    v.(mode := InRoom, oldest := 0, atLive := true)
  }

  function Leave(v: View): View {
    v.(mode := Lobby)
  }

  function Render(v: View, ids: seq<nat>): View {
    var want := Want(v.rows);
    var page := Before(ids, if v.atLive then 0 else v.oldest, want);
    v.(shown := page, want := want, seen := |ids|, oldest := if page != [] then page[0] else v.oldest)
  }

  /** The 'p' key turns the page only if something older exists. */
  predicate HasOlder(v: View, ids: seq<nat>) {
    Before(ids, v.oldest, MSG_LINES) != []
  }

  function Older(v: View, ids: seq<nat>): View {
    if HasOlder(v, ids) then Render(v.(atLive := false), ids) else v
  }

  function Live(v: View): View {
    v.(atLive := true)
  }

  function Sent(v: View): View {
    v.(mode := InRoom, atLive := true)
  }

  // ----- History paging ---------------------------------------------------------------

  /** What happens between two presses of 'p': the room may have grown and the window changed. */
  datatype Meanwhile = Meanwhile(ids: seq<nat>, rows: nat)

  /** Each snapshot extends the one before it: messages are only ever appended. */
  ghost predicate Growing(ids: seq<nat>, between: seq<Meanwhile>)
    decreases |between|
  {
    between == [] || (ids <= between[0].ids && ValidIds(between[0].ids) && Growing(between[0].ids, between[1..]))
  }

  /** The view after pressing 'p' once per entry of `between`. */
  function Walk(v: View, between: seq<Meanwhile>): View {
    if between == [] then v
    else
      var front := Walk(v, between[..|between| - 1]);
      var last := between[|between| - 1];
      Older(front.(rows := last.rows), last.ids)
  }

  /** Everything shown since the live page, oldest message first. */
  function Trail(v: View, between: seq<Meanwhile>): seq<nat> {
    if between == [] then v.shown
    else
      var before := Walk(v, between[..|between| - 1]);
      var after := Walk(v, between);
      var trail := Trail(v, between[..|between| - 1]);
      if after.oldest == before.oldest then trail else after.shown + trail
  }

  /** Below a message's id lie exactly the messages before it. */
  lemma {:induction false} BelowMessage(ids: seq<nat>, k: nat)
    requires ValidIds(ids) && k < |ids|
    ensures Below(ids, ids[k]) == ids[..k]
  {
    assert forall i | 0 <= i < |ids| :: i < k <==> ids[i] <= ids[k] - 1;
    Store.BelowIsPrefix(ids, ids[k] - 1, k);
  }

  lemma {:induction false} BelowNoBound(ids: seq<nat>)
    requires ValidIds(ids)
    ensures Below(ids, NO_BOUND) == ids
  {
    RankSplits(ids, NO_BOUND - 1);
    if ids != [] {
      assert ids[|ids| - 1] <= NO_BOUND - 1;
    }
  }

  /** The live page is the newest part of the room. */
  lemma {:induction false} LivePage(v: View, ids: seq<nat>)
    requires ValidIds(ids) && v.atLive
    ensures Render(v, ids).shown == LastN(ids, Want(v.rows))
    ensures ids != [] ==> Render(v, ids).shown != [] && Render(v, ids).oldest == Render(v, ids).shown[0]
  {
    BelowNoBound(ids);
  }

  /** The view follows the room and shows its newest messages, as many as fit. */
  ghost predicate ShowsNewest(v: View, ids: seq<nat>) {
    v.atLive && v.shown == LastN(ids, Want(v.rows))
  }

  /** Drawing again keeps where the reader is; a reader who follows the room sees its newest messages. */
  lemma {:induction false} DrawnFresh(v: View, rows: seq<ChatDb.Row>, room: nat)
    requires ChatDb.Ordered(rows)
    ensures var ids := ChatDb.Ids(rows, room); var w := Render(v, ids);
      && w.mode == v.mode && w.rows == v.rows && w.atLive == v.atLive
      && (v.atLive ==> ShowsNewest(w, ids))
  {
    ChatDb.IdsValid(rows, room);
    if v.atLive {
      LivePage(v, ChatDb.Ids(rows, room));
    }
  }

  /** One press: the next page ends just before the oldest message shown so far. */
  lemma {:induction false} OnePageOlder(v: View, ids: seq<nat>, k: nat)
    requires ValidIds(ids) && k < |ids| && v.oldest == ids[k]
    ensures HasOlder(v, ids) <==> k > 0
    ensures k == 0 ==> Older(v, ids) == v
    ensures k > 0 ==>
              var n := Min(Want(v.rows), k);
              Older(v, ids).shown == ids[k - n..k] && Older(v, ids).oldest == ids[k - n] < ids[k]
  {
    BelowMessage(ids, k);
    assert ids[k] in ids;
  }

  ghost predicate ContiguousUpTo(trail: seq<nat>, ids: seq<nat>) {
    |trail| <= |ids| && trail == ids[|ids| - |trail|..]
  }

  lemma {:induction false} GrowingPrefix(ids: seq<nat>, between: seq<Meanwhile>, k: nat)
    requires Growing(ids, between) && k <= |between|
    ensures Growing(ids, between[..k])
    ensures k < |between| ==> ids <= between[k].ids && ValidIds(between[k].ids)
    decreases k
  {
    if k > 0 {
      GrowingPrefix(between[0].ids, between[1..], k - 1);
      assert between[..k][1..] == between[1..][..k - 1];
    } else {
      assert between[..0] == [];
    }
  }

  lemma {:induction false} TrailGrows(trail: seq<nat>, ids: seq<nat>, now: seq<nat>, k: nat, n: nat)
    requires ContiguousUpTo(trail, ids) && k == |ids| - |trail| && ids <= now && n <= k
    ensures ContiguousUpTo(now[k - n..k] + trail, ids)
  {
    assert now[k - n..k] == ids[k - n..k];
    assert ids[k - n..k] + ids[k..] == ids[k - n..];
  }

  /** One press extends the stretch shown so far by one page, or finds its front at the first message. */
  lemma {:induction false} PageExtends(at: View, trail: seq<nat>, ids: seq<nat>, next: Meanwhile)
    requires ValidIds(ids) && ValidIds(next.ids) && ids <= next.ids
    requires trail != [] && ContiguousUpTo(trail, ids) && at.oldest == trail[0]
    ensures var after := Older(at.(rows := next.rows), next.ids);
      var longer := if after.oldest == at.oldest then trail else after.shown + trail;
      && longer != [] && ContiguousUpTo(longer, ids) && after.oldest == longer[0]
      && (at.oldest == ids[0] ==> after == at.(rows := next.rows))
      && (at.oldest != ids[0] ==> after.oldest < at.oldest && !after.atLive)
  {
    var k := |ids| - |trail|;
    assert trail[0] == ids[k] == next.ids[k];
    OnePageOlder(at.(rows := next.rows), next.ids, k);
    if k > 0 {
      TrailGrows(trail, ids, next.ids, k, Min(Want(next.rows), k));
    }
  }

  /**
   From a non-empty live page, presses of 'p' show pages that tile the history
   backwards: all that was shown is one contiguous stretch of the room ending at
   the message that was newest at the start, whatever was posted meanwhile.
   */
  lemma {:induction false} PagesTileHistory(v: View, ids: seq<nat>, between: seq<Meanwhile>)
    requires ValidIds(ids) && ids != [] && v.atLive
    requires Growing(ids, between)
    ensures var start := Render(v, ids);
      && Trail(start, between) != []
      && ContiguousUpTo(Trail(start, between), ids)
      && Walk(start, between).oldest == Trail(start, between)[0]
    decreases |between|
  {
    var start := Render(v, ids);
    if between == [] {
      LivePage(v, ids);
    } else {
      var n := |between| - 1;
      var front := between[..n];
      GrowingPrefix(ids, between, n);
      PagesTileHistory(v, ids, front);
      PageExtends(Walk(start, front), Trail(start, front), ids, between[n]);
    }
  }

  lemma {:induction false} WalkOneMore(v: View, between: seq<Meanwhile>, next: Meanwhile)
    ensures Walk(v, between + [next]) == Older(Walk(v, between).(rows := next.rows), next.ids)
  {
    assert (between + [next])[..|between + [next]| - 1] == between;
  }

  /** The next press moves strictly back in the history, and stops exactly at the room's first message. */
  lemma {:induction false} PagingStopsAtFirst(v: View, ids: seq<nat>, between: seq<Meanwhile>, next: Meanwhile)
    requires ValidIds(ids) && ids != [] && v.atLive
    requires Growing(ids, between + [next])
    ensures var at := Walk(Render(v, ids), between);
      var after := Walk(Render(v, ids), between + [next]);
      && (at.oldest == ids[0] ==> after == at.(rows := next.rows))
      && (at.oldest != ids[0] ==> after.oldest < at.oldest && !after.atLive)
  {
    var start := Render(v, ids);
    GrowingPrefix(ids, between + [next], |between|);
    assert (between + [next])[..|between|] == between;
    PagesTileHistory(v, ids, between);
    WalkOneMore(start, between, next);
    PageExtends(Walk(start, between), Trail(start, between), ids, next);
  }

  // ----- The handlers -------------------------------------------------------------------

  const COMPOSE_MAX: nat := 512
  const ESC: char := 27 as char
  const CTRL_C: char := 3 as char
  const BACKSPACE: char := 8 as char
  const DELETE: char := 127 as char

  class ChatState {
    const notifyWfd: int
    const username: string
    var room: Option<Rooms.Room>
    var onNotify: bool
    var view: View
    var compose: string

    ghost predicate Valid()
      reads this
    {
      && (room.Some? <==> view.mode == InRoom || view.mode == Compose)
      && (room.Some? <==> onNotify)
      && |compose| < COMPOSE_MAX
      && (forall c | c in compose :: Rooms.Printable(c))
      && '\0' !in username
    }

    /** The room's message ids as any query sees them now. */
    ghost function RoomIds(r: Rooms.Room): seq<nat>
      reads r.table
    {
      ChatDb.Ids(r.table.rows, r.id)
    }

    constructor (notifyWfd: int, username: string, rows: nat)
      requires '\0' !in username
      ensures Valid() && room.None? && view.rows == rows
      ensures view.mode == if username == "" then Username else Lobby
    {
      this.notifyWfd := notifyWfd;
      this.username := username;
      room := None;
      onNotify := false;
      view := View(if username == "" then Username else Lobby, false, 0, rows, [], 0, 0);
      compose := "";
    }

    method RenderRoom()
      requires Valid() && room.Some? && room.value.Valid()
      modifies this`view
      ensures Valid() && view == Render(old(view), RoomIds(room.value))
      ensures view.atLive == old(view).atLive && view.mode == old(view).mode && view.rows == old(view).rows
      ensures view.atLive ==> ShowsNewest(view, RoomIds(room.value))
    {
      DrawnFresh(view, room.value.table.rows, room.value.id);
      var r := room.value;
      var want := Want(view.rows);
      var msgs := r.table.MessagesBefore(r.id, if view.atLive then 0 else view.oldest, want, MSG_LINES);
      var page := ChatDb.RowIds(msgs);
      if |msgs| > 0 {
        view := view.(oldest := msgs[0].id);
      }
      view := view.(shown := page, want := want, seen := CountRows(r.table.rows, r.id));
    }

    /** Join: subscribe before drawing, so no message can fall between the two. */
    method EnterRoom(r: Rooms.Room)
      requires Valid() && room.None? && r.Valid()
      modifies this, r`subCount, r.subFds
      ensures Valid() && room == Some(r) && compose == old(compose)
      ensures r.Valid() && view == Render(Enter(old(view)), RoomIds(r))
      ensures view.mode == InRoom && view.rows == old(view).rows && ShowsNewest(view, RoomIds(r))
      ensures r.Subs() == if notifyWfd >= 0 then Rooms.Subscribed(old(r.Subs()), notifyWfd) else old(r.Subs())
    {
      room := Some(r);
      view := Enter(view);
      onNotify := true;
      if notifyWfd >= 0 {
        r.Subscribe(notifyWfd);
      }
      RenderRoom();
    }

    method LeaveRoom()
      requires Valid() && room.Some? && room.value.Valid()
      modifies this, room.value`subCount, room.value.subFds
      ensures Valid() && room.None? && view == Leave(old(view)) && view.mode == Lobby
      ensures old(room).value.Valid() && old(room).value.Subs() == Rooms.SwapRemoved(old(room.value.Subs()), notifyWfd)
    {
      room.value.Unsubscribe(notifyWfd);
      room := None;
      onNotify := false;
      view := Leave(view);
    }

    /** Woken by the pipe: redraw only when following the newest page. */
    method OnNotify()
      requires Valid() && (room.Some? ==> room.value.Valid())
      modifies this`view
      ensures Valid()
      ensures view == if old(room).Some? && old(view).atLive then Render(old(view), RoomIds(room.value)) else old(view)
      ensures old(room).Some? && old(view).atLive ==> view.mode == old(view).mode && ShowsNewest(view, RoomIds(room.value))
    {
      if view.mode == Lobby || view.mode == Username {
        return;
      }
      if !view.atLive {
        return;
      }
      RenderRoom();
    }

    /** In-room keys; the result says whether the feature keeps running. */
    method HandleInRoom(key: char) returns (running: bool)
      requires Valid() && view.mode == InRoom && room.value.Valid()
      modifies this, room.value`subCount, room.value.subFds
      ensures Valid() && old(room).value.Valid()
      ensures running <==> key != 'Q'
      ensures key == 'Q' || key == 'q' ==>
                && room.None? && view == Leave(old(view)) && view.mode == Lobby
                && old(room).value.Subs() == Rooms.SwapRemoved(old(room.value.Subs()), notifyWfd)
      ensures key != 'Q' && key != 'q' ==>
                && room == old(room) && room.value.Subs() == old(room.value.Subs())
                && view == (match key
                            case '\r' => old(view).(mode := Compose)
                            case 'i' => old(view).(mode := Compose)
                            case 'p' => Older(old(view), RoomIds(room.value))
                            case 'n' => Render(Live(old(view)), RoomIds(room.value))
                            case _ => old(view))
      ensures key == 'n' ==> view.mode == InRoom && ShowsNewest(view, RoomIds(room.value))
      ensures key == 'p' ==> view.mode == InRoom && (HasOlder(old(view), RoomIds(room.value)) ==> !view.atLive)
    {
      if key == 'Q' {
        LeaveRoom();
        return false;
      }
      running := true;
      if key == 'q' {
        LeaveRoom();
      } else if key == '\r' || key == 'i' {
        view := view.(mode := Compose);
        compose := "";
      } else if key == 'p' {
        var r := room.value;
        var msgs := r.table.MessagesBefore(r.id, view.oldest, MSG_LINES, MSG_LINES);
        assert |ChatDb.RowIds(msgs)| == |msgs|;
        if |msgs| > 0 {
          view := view.(atLive := false);
          RenderRoom();
        }
      } else if key == 'n' {
        view := Live(view);
        RenderRoom();
      }
    }

    /** Enter in compose: an empty line is not posted; what is refused leaves the table alone. */
    method SendLine(ts: int, storageOk: bool) returns (woken: seq<int>)
      requires Valid() && view.mode == Compose && room.value.Valid()
      modifies this, room.value.table
      ensures Valid() && room == old(room) && room.value.Valid()
      ensures room.value.Subs() == old(room.value.Subs())
      ensures view == Render(Sent(old(view)), RoomIds(room.value)) && compose == ""
      ensures view.mode == InRoom && view.rows == old(view).rows && ShowsNewest(view, RoomIds(room.value))
      ensures var refused := old(compose) == "" || Rooms.CleanName(username) == "" || !storageOk
                             || old(room.value.table.lastId) + 1 >= NO_BOUND;
        && (refused ==> room.value.table.rows == old(room.value.table.rows) && woken == [])
        && (!refused ==>
              && woken == room.value.Subs()
              && room.value.table.rows == old(room.value.table.rows)
                 + [ChatDb.Row(old(room.value.table.lastId) + 1, room.value.id,
                               Take(Rooms.CleanName(username), Rooms.USER_MAX - 1), ts, old(compose))])
    {
      woken := [];
      if |compose| > 0 {
        var id;
        PrintableIsClean(compose);
        id, woken := room.value.Post(username, compose, ts, storageOk);
      }
      view := Sent(view);
      compose := "";
      RenderRoom();
    }

    /** Backspace and printable keys; everything else is ignored. */
    method EditLine(key: char)
      requires Valid() && view.mode == Compose
      modifies this`compose
      ensures Valid()
      ensures compose == (if (key == DELETE || key == BACKSPACE) && old(compose) != "" then old(compose)[..|old(compose)| - 1]
                          else if |old(compose)| < COMPOSE_MAX - 1 && Rooms.Printable(key) then old(compose) + [key]
                          else old(compose))
    {
      if (key == DELETE || key == BACKSPACE) && |compose| > 0 {
        compose := compose[..|compose| - 1];
      } else if |compose| < COMPOSE_MAX - 1 && ' ' <= key <= '~' {
        compose := compose + [key];
      }
    }

    /** Compose keys: Esc abandons, Enter sends what was typed, the rest edits. */
    method HandleCompose(key: char, ts: int, storageOk: bool) returns (woken: seq<int>)
      requires Valid() && view.mode == Compose && room.value.Valid()
      modifies this, room.value.table
      ensures Valid() && room == old(room) && room.value.Valid()
      ensures room.value.Subs() == old(room.value.Subs())
      ensures key == ESC || key == CTRL_C ==> view == Render(old(view).(mode := InRoom), RoomIds(room.value)) && view.mode == InRoom
      ensures key == '\r' || key == '\n' ==>
                && view == Render(Sent(old(view)), RoomIds(room.value)) && compose == ""
                && view.mode == InRoom && ShowsNewest(view, RoomIds(room.value))
      ensures var posted := (key == '\r' || key == '\n') && old(compose) != "" && Rooms.CleanName(username) != "" && storageOk
                            && old(room.value.table.lastId) + 1 < NO_BOUND;
        && (!posted ==> room.value.table.rows == old(room.value.table.rows) && woken == [])
        && (posted ==>
              && woken == room.value.Subs()
              && room.value.table.rows == old(room.value.table.rows)
                 + [ChatDb.Row(old(room.value.table.lastId) + 1, room.value.id,
                               Take(Rooms.CleanName(username), Rooms.USER_MAX - 1), ts, old(compose))])
      ensures key !in [ESC, CTRL_C, '\r', '\n'] ==>
                && view == old(view)
                && compose == (if (key == DELETE || key == BACKSPACE) && old(compose) != "" then old(compose)[..|old(compose)| - 1]
                               else if |old(compose)| < COMPOSE_MAX - 1 && Rooms.Printable(key) then old(compose) + [key]
                               else old(compose))
    {
      woken := [];
      if key == ESC || key == CTRL_C {
        view := view.(mode := InRoom);
        RenderRoom();
      } else if key == '\r' || key == '\n' {
        woken := SendLine(ts, storageOk);
      } else {
        EditLine(key);
      }
    }

    /** chat_destroy: a session that ends while in a room gives its slot back. */
    method Destroy()
      requires Valid() && (room.Some? ==> room.value.Valid())
      modifies this`onNotify, (if room.Some? then {room.value} else {})`subCount, (if room.Some? then {room.value.subFds} else {})
      ensures !onNotify
      ensures old(room).Some? ==>
                room.value.Valid() && room.value.Subs() == Rooms.SwapRemoved(old(room.value.Subs()), notifyWfd)
    {
      if room.Some? {
        room.value.Unsubscribe(notifyWfd);
      }
      onNotify := false;
    }
  }

  /** Number of messages a room has; only used to date a rendered page. */
  function CountRows(rows: seq<ChatDb.Row>, room: nat): (n: nat)
    ensures n == |ChatDb.Ids(rows, room)|
  {
    if rows == [] then 0
    else CountRows(rows[..|rows| - 1], room) + if rows[|rows| - 1].room == room then 1 else 0
  }

  /** Composed text is already clean: the choke point stores it unchanged. */
  lemma {:induction false} PrintableIsClean(s: string)
    requires forall c | c in s :: Rooms.Printable(c)
    ensures Rooms.CleanText(s) == s && '\0' !in s
    ensures |s| < Rooms.BODY_MAX ==> Take(Rooms.CleanText(s), Rooms.BODY_MAX - 1) == s
  {
    assert forall i | 0 <= i < |s| :: s[i] in s;
  }
}
