// The access-point list of the terminal UI: which entry the cursor is on and which
// part of the list is on screen, as messages arrive.
module Tui {
  import opened Text

  datatype AP = AP(id: string, signal: int)

  function Min(a: int, b: int): int {
    if a < b then a else b
  }

  function Max(a: int, b: int): int {
    if a < b then b else a
  }

  function Abs(a: int): int {
    if a < 0 then -a else a
  }

  // ---- the viewport -------------------------------------------------------------------

  const SCROLL_OFF := 5

  // Rows left for the list: the screen less the status bar, the interface header, the
  // divider and the column header, but always at least one.
  function VisibleRows(height: int): (rows: int)
    ensures rows >= 1
  {
    Max(Max(height - 1, 3) - 3, 1)
  }

  // The window starting at top lies within the n items and shows item i.
  predicate IsInView(n: int, rows: int, i: int, top: int) {
    0 <= top <= Max(0, n - rows) && top <= i < top + rows
  }

  // Ahead of item i, in the direction of travel, the window shows as much context as
  // the margin asks for and the list has.
  predicate HasMargin(n: int, rows: int, i: int, top: int, dir: int) {
    var off := Min(SCROLL_OFF, rows - 1);
    && (dir > 0 ==> Min(top + rows, n) - 1 - i >= Min(off, n - 1 - i))
    && (dir < 0 ==> i - top >= Min(off, i))
  }

  // The nearest acceptable window: none is reached by less scrolling from was.
  ghost predicate IsNearest(n: int, rows: int, i: int, dir: int, was: int, top: int) {
    && IsInView(n, rows, i, top) && HasMargin(n, rows, i, top, dir)
    && forall t :: IsInView(n, rows, i, t) && HasMargin(n, rows, i, t, dir) ==> Abs(top - was) <= Abs(t - was)
  }

  // The acceptable windows are an interval.
  function Lowest(n: int, rows: int, i: int, dir: int): int {
    Max(0, if dir > 0 then Min(i + Min(SCROLL_OFF, rows - 1), n - 1) - rows + 1 else i - rows + 1)
  }

  function Highest(n: int, rows: int, i: int, dir: int): int {
    Min(Max(0, n - rows), if dir < 0 then Max(i - Min(SCROLL_OFF, rows - 1), 0) else i)
  }

  lemma AcceptableIff(n: int, rows: int, i: int, dir: int, t: int)
    requires 0 <= i < n && rows >= 1
    ensures IsInView(n, rows, i, t) && HasMargin(n, rows, i, t, dir)
            <==> Lowest(n, rows, i, dir) <= t <= Highest(n, rows, i, dir)
    ensures Lowest(n, rows, i, dir) <= Highest(n, rows, i, dir)
  {
  }

  lemma ClampIsNearest(n: int, rows: int, i: int, dir: int, was: int, top: int)
    requires 0 <= i < n && rows >= 1
    requires top == Max(Lowest(n, rows, i, dir), Min(was, Highest(n, rows, i, dir)))
    ensures IsNearest(n, rows, i, dir, was, top)
  {
    forall t
      ensures IsInView(n, rows, i, t) && HasMargin(n, rows, i, t, dir)
              <==> Lowest(n, rows, i, dir) <= t <= Highest(n, rows, i, dir)
    {
      AcceptableIff(n, rows, i, dir, t);
    }
    AcceptableIff(n, rows, i, dir, top);
  }

  // The corrections applied one after another: context ahead, then visibility, then
  // the ends of the list.
  lemma CorrectionsClamp(n: int, rows: int, i: int, dir: int, was: int, t1: int, top: int)
    requires 0 <= i < n && rows >= 1
    requires var off := Min(SCROLL_OFF, rows - 1);
             t1 == if dir > 0 then Max(was, Min(i + off, n - 1) - rows + 1)
                   else if dir < 0 then Min(was, Max(i - off, 0))
                   else was
    requires top == Max(Min(Max(Min(t1, i), i - rows + 1), n - rows), 0)
    ensures IsNearest(n, rows, i, dir, was, top)
  {
    ClampIsNearest(n, rows, i, dir, was, top);
  }

  // After a move, five rows stand between the cursor and the edge it moves to, or as many
  // as the screen and the list have.
  lemma FiveRowsAhead(n: int, rows: int, i: int, was: int, top: int)
    requires 0 <= i < n && rows >= 1
    ensures IsNearest(n, rows, i, 1, was, top) ==> Min(top + rows, n) - 1 - i >= Min(5, Min(rows - 1, n - 1 - i))
    ensures IsNearest(n, rows, i, -1, was, top) ==> i - top >= Min(5, Min(rows - 1, i))
  {
  }

  // No more than that: a window that already has so many is left where it is, and one
  // that has not is moved until it has exactly so many.
  lemma FiveRowsSuffice(n: int, rows: int, i: int, was: int, top: int)
    requires 0 <= i < n && 1 <= rows && IsInView(n, rows, i, was)
    requires IsNearest(n, rows, i, 1, was, top)
    ensures Min(was + rows, n) - 1 - i >= Min(5, Min(rows - 1, n - 1 - i)) ==> top == was
    ensures Min(was + rows, n) - 1 - i < Min(5, Min(rows - 1, n - 1 - i)) ==>
              top > was && Min(top + rows, n) - 1 - i == Min(5, Min(rows - 1, n - 1 - i))
  {
    var off := Min(5, Min(rows - 1, n - 1 - i));
    if Min(was + rows, n) - 1 - i >= off {
      assert IsInView(n, rows, i, was) && HasMargin(n, rows, i, was, 1);
    } else {
      var t := i + off + 1 - rows;
      assert IsInView(n, rows, i, t) && HasMargin(n, rows, i, t, 1);
    }
  }

  // ---- sorting --------------------------------------------------------------------------

  // Puts x behind every item that is at least as strong.
  function Insert(s: seq<AP>, x: AP): seq<AP> {
    if s == [] then [x]
    else if s[0].signal < x.signal then [x] + s
    else [s[0]] + Insert(s[1..], x)
  }

  // sort.SliceStable by descending signal.
  function StableSort(items: seq<AP>): seq<AP> {
    if items == [] then [] else Insert(StableSort(items[..|items| - 1]), items[|items| - 1])
  }

  ghost predicate IsDescending(s: seq<AP>) {
    forall i, j :: 0 <= i < j < |s| ==> s[i].signal >= s[j].signal
  }

  // The items of one signal strength, in order.
  ghost function Level(s: seq<AP>, signal: int): seq<AP> {
    if s == [] then []
    else if s[0].signal == signal then [s[0]] + Level(s[1..], signal)
    else Level(s[1..], signal)
  }

  // The same items, those of equal strength in the same order.
  ghost predicate IsStablePermutation(s: seq<AP>, t: seq<AP>) {
    multiset(s) == multiset(t) && forall v :: Level(s, v) == Level(t, v)
  }

  lemma {:induction false} InsertMultiset(s: seq<AP>, x: AP)
    ensures multiset(Insert(s, x)) == multiset(s) + multiset{x}
  {
    if s != [] && s[0].signal >= x.signal {
      InsertMultiset(s[1..], x);
      assert s == [s[0]] + s[1..];
    }
  }

  lemma {:induction false} InsertDescending(s: seq<AP>, x: AP)
    requires IsDescending(s)
    ensures IsDescending(Insert(s, x))
  {
    if s != [] && s[0].signal >= x.signal {
      var rest, r := s[1..], Insert(s[1..], x);
      InsertDescending(rest, x);
      InsertMultiset(rest, x);
      forall j | 0 <= j < |r|
        ensures s[0].signal >= r[j].signal
      {
        assert r[j] in multiset(rest) + multiset{x};
        if r[j] != x {
          assert r[j] in rest;
        }
      }
    }
  }

  lemma {:induction false} InsertLevel(s: seq<AP>, x: AP, v: int)
    requires IsDescending(s)
    ensures Level(Insert(s, x), v) == Level(s, v) + if x.signal == v then [x] else []
  {
    if s == [] {
      assert [x][1..] == [];
    } else if s[0].signal < x.signal {
      assert ([x] + s)[1..] == s;
      if x.signal == v {
        WeakerLevel(s, v);
      }
    } else {
      InsertLevel(s[1..], x, v);
      assert ([s[0]] + Insert(s[1..], x))[1..] == Insert(s[1..], x);
    }
  }

  lemma {:induction false} WeakerLevel(s: seq<AP>, v: int)
    requires forall i :: 0 <= i < |s| ==> s[i].signal < v
    ensures Level(s, v) == []
  {
    if s != [] {
      WeakerLevel(s[1..], v);
    }
  }

  lemma {:induction false} LevelAppend(s: seq<AP>, x: AP, v: int)
    ensures Level(s + [x], v) == Level(s, v) + if x.signal == v then [x] else []
  {
    if s == [] {
      assert s + [x] == [x] && [x][1..] == [];
    } else {
      assert (s + [x])[1..] == s[1..] + [x];
      LevelAppend(s[1..], x, v);
    }
  }

  lemma {:induction false} SortIsStable(items: seq<AP>)
    ensures IsDescending(StableSort(items)) && IsStablePermutation(StableSort(items), items)
  {
    if items != [] {
      var init, x := items[..|items| - 1], items[|items| - 1];
      SortIsStable(init);
      assert items == init + [x];
      InsertDescending(StableSort(init), x);
      InsertMultiset(StableSort(init), x);
      forall v
        ensures Level(StableSort(items), v) == Level(items, v)
      {
        InsertLevel(StableSort(init), x, v);
        LevelAppend(init, x, v);
      }
    }
  }

  lemma {:induction false} LevelMember(s: seq<AP>, i: nat)
    requires i < |s|
    ensures Level(s, s[i].signal) != []
  {
    if i > 0 {
      LevelMember(s[1..], i - 1);
    }
  }

  lemma {:induction false} LevelFrom(s: seq<AP>, v: int)
    requires Level(s, v) != []
    ensures exists i :: 0 <= i < |s| && s[i].signal == v
  {
    if s[0].signal != v {
      LevelFrom(s[1..], v);
      var i :| 0 <= i < |s[1..]| && s[1..][i].signal == v;
      assert s[i + 1].signal == v;
    }
  }

  // Being descending and agreeing level by level leaves only one list.
  lemma {:induction false} DescendingIsUnique(s: seq<AP>, t: seq<AP>)
    requires IsDescending(s) && IsDescending(t) && forall v :: Level(s, v) == Level(t, v)
    ensures s == t
  {
    if s == [] {
      if t != [] {
        assert false;
      }
    } else {
      LevelMember(s, 0);
      LevelFrom(t, s[0].signal);
      LevelMember(t, 0);
      LevelFrom(s, t[0].signal);
      assert s[0].signal == t[0].signal;
      assert Level(s, s[0].signal)[0] == s[0] && Level(t, s[0].signal)[0] == t[0];
      forall v
        ensures Level(s[1..], v) == Level(t[1..], v)
      {
        assert Level(s, v) == Level(t, v);
        if v == s[0].signal {
          assert Level(s, v)[1..] == Level(s[1..], v) && Level(t, v)[1..] == Level(t[1..], v);
        }
      }
      DescendingIsUnique(s[1..], t[1..]);
    }
  }

  // The sorted list is the one stable descending arrangement of the items.
  lemma SortIsTheOnlyStableOrder(items: seq<AP>, t: seq<AP>)
    ensures t == StableSort(items) <==> IsDescending(t) && IsStablePermutation(t, items)
  {
    SortIsStable(items);
    if IsDescending(t) && IsStablePermutation(t, items) {
      DescendingIsUnique(t, StableSort(items));
    }
  }

  // ---- selection --------------------------------------------------------------------------

  function IdAt(aps: seq<AP>, i: int): string {
    if 0 <= i < |aps| then aps[i].id else ""
  }

  // Where the cursor goes when the list becomes aps: to the first item with the
  // selected id, if there is one, and otherwise as near as possible to where it was.
  ghost predicate Follows(aps: seq<AP>, selected: string, was: int, i: int) {
    if selected != "" && exists k :: 0 <= k < |aps| && aps[k].id == selected then
      0 <= i < |aps| && aps[i].id == selected && forall k :: 0 <= k < i ==> aps[k].id != selected
    else i == Max(Min(was, |aps| - 1), 0)
  }

  // An access point with an id of its own stays selected wherever a scan moves it; if it is
  // gone, the cursor stays where it is as far as the list goes.
  lemma FollowsIff(was: seq<AP>, i: nat, aps: seq<AP>, i': int)
    requires i < |was| && was[i].id != "" && Follows(aps, IdAt(was, i), i, i')
    requires forall j, k :: 0 <= j < k < |aps| ==> aps[j].id != aps[k].id
    ensures forall k :: 0 <= k < |aps| ==> (aps[k].id == was[i].id ==> i' == k)
    ensures (forall k :: 0 <= k < |aps| ==> aps[k].id != was[i].id) && aps != [] ==>
              0 <= i' < |aps| && i' <= i && (i < |aps| ==> i' == i) && (i >= |aps| ==> i' == |aps| - 1)
  {
  }

  // ---- the model ------------------------------------------------------------------------------

  datatype Key = Tab | Rescan | Up | Down | Quit | OtherKey

  datatype Msg =
    | WindowSize(height: int)
    | KeyPress(key: Key)
    | InterfacesLoaded(ids: seq<string>)
    | IfaceStatus(ifID: string, connected: Option<AP>)
    | SpinnerTick
    | ScanTick
    | ProfilesLoaded
    | ScanResult(ifID: string, items: seq<AP>)

  // A key that moves the cursor from item i of n items.
  predicate IsMove(key: Key, i: int, n: int) {
    (key == Up && i > 0) || (key == Down && i < n - 1)
  }

  // Up and down move the cursor by one within a list of n items, and the window follows
  // it with context ahead.
  ghost predicate HasStepped(key: Key, n: int, rows: int, i: int, top: int, i': int, top': int) {
    && (key == Up && n > 0 ==> i' == Max(i - 1, 0))
    && (key == Up && i > 0 ==> IsNearest(n, rows, i', -1, top, top'))
    && (key == Down && n > 0 ==> i' == Min(i + 1, n - 1))
    && (key == Down && i < n - 1 ==> IsNearest(n, rows, i', 1, top, top'))
  }

  // The messages on which the selected interface is to be scanned.
  predicate StartsScan(msg: Msg) {
    msg.ScanTick? || msg.InterfacesLoaded? || msg == KeyPress(Tab) || msg == KeyPress(Rescan)
  }

  // ---- scans in flight ------------------------------------------------------------------------

  // The part of the state that decides on scans, with the interface whose scan has been
  // sent and has not been answered yet.
  datatype Scans = Scans(ifaces: seq<string>, ifIndex: nat, scanning: bool, flight: Option<string>)

  function Selected(s: Scans): Option<string> {
    if s.ifIndex < |s.ifaces| then Some(s.ifaces[s.ifIndex]) else None
  }

  function StartScan(s: Scans): Scans {
    if s.scanning || Selected(s).None? then s else s.(scanning := true, flight := Selected(s))
  }

  function ScansAfter(s: Scans, msg: Msg): Scans {
    match msg
    case KeyPress(Tab) => if s.ifaces == [] then s else StartScan(s.(ifIndex := (s.ifIndex + 1) % |s.ifaces|))
    case KeyPress(Rescan) => StartScan(s)
    case ScanTick => StartScan(s)
    case InterfacesLoaded(ids) => StartScan(s.(ifaces := ids, ifIndex := if s.ifIndex < |ids| then s.ifIndex else 0))
    case ScanResult(ifID, _) =>
      s.(flight := if s.flight == Some(ifID) then None else s.flight,
         scanning := s.scanning && Selected(s) != Some(ifID))
    case _ => s
  }

  // Which interface is selected after a message, and whether a scan is under way: only a
  // result for the selected interface ends a scan, and one starts whenever the selection
  // is made or refreshed.
  ghost predicate HasScanned(s: Scans, msg: Msg, s': Scans) {
    && s'.ifaces == (if msg.InterfacesLoaded? then msg.ids else s.ifaces)
    && s'.ifIndex == (if msg == KeyPress(Tab) && s'.ifaces != [] then (s.ifIndex + 1) % |s'.ifaces|
                      else if msg.InterfacesLoaded? && s.ifIndex >= |s'.ifaces| then 0
                      else s.ifIndex)
    && s'.scanning == (if msg.ScanResult? then s.scanning && Selected(s) != Some(msg.ifID)
                       else s.scanning || (StartsScan(msg) && s'.ifaces != []))
  }

  lemma ScansHaveMoved(s: Scans, msg: Msg)
    requires s.ifaces == [] || s.ifIndex < |s.ifaces|
    ensures HasScanned(s, msg, ScansAfter(s, msg))
  {
  }

  ghost function ScansAfterAll(s: Scans, msgs: seq<Msg>): Scans {
    if msgs == [] then s else ScansAfter(ScansAfterAll(s, msgs[..|msgs| - 1]), msgs[|msgs| - 1])
  }

  // A result can only arrive for a scan that was sent.
  predicate CanArrive(s: Scans, msg: Msg) {
    msg.ScanResult? ==> s.flight == Some(msg.ifID)
  }

  predicate IsAccounted(s: Scans) {
    s.flight.Some? ==> s.scanning
  }

  // Waiting for a result that will not come.
  predicate IsStuck(s: Scans) {
    s.scanning && s.flight.None?
  }

  // The result that arrives is not for the selected interface, and is dropped.
  predicate IsDropped(s: Scans, msg: Msg) {
    msg.ScanResult? && Selected(s) != Some(msg.ifID)
  }

  lemma StuckStepIff(s: Scans, msg: Msg)
    requires IsAccounted(s) && CanArrive(s, msg)
    ensures IsAccounted(ScansAfter(s, msg))
    ensures IsStuck(ScansAfter(s, msg)) <==> IsStuck(s) || IsDropped(s, msg)
  {
  }

  ghost predicate IsScanRun(states: seq<Scans>, msgs: seq<Msg>) {
    && |states| == |msgs| + 1
    && states[0] == Scans([], 0, false, None)
    && forall i :: 0 <= i < |msgs| ==> CanArrive(states[i], msgs[i]) && states[i + 1] == ScansAfter(states[i], msgs[i])
  }

  ghost predicate HasDropped(states: seq<Scans>, msgs: seq<Msg>, upto: nat)
    requires |states| == |msgs| + 1
  {
    exists j :: 0 <= j < upto && j < |msgs| && IsDropped(states[j], msgs[j])
  }

  // In every run, the model waits for a result that will not come exactly if some
  // result has been dropped: from then on it never starts another scan.
  lemma {:induction false} StuckIff(states: seq<Scans>, msgs: seq<Msg>, i: nat)
    requires IsScanRun(states, msgs) && i < |states|
    ensures IsAccounted(states[i])
    ensures IsStuck(states[i]) <==> HasDropped(states, msgs, i)
  {
    if i > 0 {
      StuckIff(states, msgs, i - 1);
      StuckStepIff(states[i - 1], msgs[i - 1]);
      if HasDropped(states, msgs, i) && !IsDropped(states[i - 1], msgs[i - 1]) {
        assert HasDropped(states, msgs, i - 1);
      }
    }
  }

  lemma StuckForGood(states: seq<Scans>, msgs: seq<Msg>, i: nat, j: nat)
    requires IsScanRun(states, msgs) && i <= j < |states| && IsStuck(states[i])
    ensures IsStuck(states[j])
  {
    StuckIff(states, msgs, i);
    StuckIff(states, msgs, j);
  }

  // Switching to another interface while the first one is scanned is enough.
  lemma TabDuringScanSticks(a: string, b: string, items: seq<AP>) returns (states: seq<Scans>, msgs: seq<Msg>)
    requires a != b
    ensures IsScanRun(states, msgs) && IsStuck(states[|msgs|])
    ensures msgs == [InterfacesLoaded([a, b]), KeyPress(Tab), ScanResult(a, items)]
  {
    msgs := [InterfacesLoaded([a, b]), KeyPress(Tab), ScanResult(a, items)];
    var s0 := Scans([], 0, false, None);
    var s1 := ScansAfter(s0, msgs[0]);
    assert s1 == Scans([a, b], 0, true, Some(a));
    var s2 := ScansAfter(s1, msgs[1]);
    assert s2 == Scans([a, b], 1, true, Some(a));
    states := [s0, s1, s2, ScansAfter(s2, msgs[2])];
  }

  // ---- the state machine ----------------------------------------------------------------------

  class Model {
    var height: int
    var ifaces: seq<string>
    var ifIndex: nat
    var aps: seq<AP>
    var apIndex: int
    var top: int
    var scanning: bool
    ghost var flight: Option<string>

    ghost function Scanning(): Scans
      reads this
    {
      Scans(ifaces, ifIndex, scanning, flight)
    }

    // The cursor is on an item and the item is on screen.
    ghost predicate Valid()
      reads this
    {
      && (aps == [] ==> apIndex == 0 && top == 0)
      && (aps != [] ==> 0 <= apIndex < |aps| && IsInView(|aps|, VisibleRows(height), apIndex, top))
      && (ifaces != [] ==> ifIndex < |ifaces|) && (ifaces == [] ==> ifIndex == 0)
    }

    constructor ()
      ensures Valid() && aps == [] && Scanning() == Scans([], 0, false, None)
    {
      height, ifaces, ifIndex, aps, apIndex, top, scanning := 0, [], 0, [], 0, 0, false;
      flight := None;
    }

    function SelectedIface(): Option<string>
      reads this
    {
      if ifIndex < |ifaces| then Some(ifaces[ifIndex]) else None
    }

    function SelectedID(): string
      reads this
    {
      IdAt(aps, apIndex)
    }

    // Reveals up to a margin of rows ahead of the cursor in its direction of travel.
    method RevealAhead(rows: int, dir: int)
      requires rows >= 1
      modifies this`top
      ensures var off := Min(SCROLL_OFF, rows - 1);
              top == if dir > 0 then Max(old(top), Min(apIndex + off, |aps| - 1) - rows + 1)
                     else if dir < 0 then Min(old(top), Max(apIndex - off, 0))
                     else old(top)
    {
      var off := SCROLL_OFF;
      if off > rows - 1 {
        off := rows - 1;
      }
      if dir > 0 {
        var want := apIndex + off;
        if want > |aps| - 1 {
          want := |aps| - 1;
        }
        if top + rows - 1 < want {
          top := want - rows + 1;
        }
      } else if dir < 0 {
        var want := apIndex - off;
        if want < 0 {
          want := 0;
        }
        if top > want {
          top := want;
        }
      }
    }

    // Keeps the cursor within the viewport and the viewport within the list.
    method KeepVisible(rows: int)
      modifies this`top
      ensures top == Max(Min(Max(Min(old(top), apIndex), apIndex - rows + 1), |aps| - rows), 0)
    {
      if apIndex < top {
        top := apIndex;
      }
      if apIndex > top + rows - 1 {
        top := apIndex - rows + 1;
      }
      if top > |aps| - rows {
        top := |aps| - rows;
      }
      if top < 0 {
        top := 0;
      }
    }

    method Scroll(visible: int, dir: int)
      modifies this`top, this`apIndex
      ensures aps == [] ==> top == 0 && apIndex == old(apIndex)
      ensures aps != [] ==> apIndex == Max(0, Min(old(apIndex), |aps| - 1))
      ensures aps != [] ==> IsNearest(|aps|, Max(visible, 1), apIndex, dir, old(top), top)
    {
      var n, rows := |aps|, visible;
      if n == 0 {
        top := 0;
        return;
      }
      if rows < 1 {
        rows := 1;
      }
      if apIndex < 0 {
        apIndex := 0;
      }
      if apIndex > n - 1 {
        apIndex := n - 1;
      }
      RevealAhead(rows, dir);
      ghost var t1 := top;
      KeepVisible(rows);
      CorrectionsClamp(n, rows, apIndex, dir, old(top), t1, top);
    }

    // Starts a scan unless one is in flight; clear drops the list at once.
    method TriggerScan(ifID: string, clear: bool) returns (started: bool)
      modifies this
      ensures started == !old(scanning) && scanning
      ensures flight == if started then Some(ifID) else old(flight)
      ensures height == old(height) && ifaces == old(ifaces) && ifIndex == old(ifIndex)
      ensures if started && clear then aps == [] && apIndex == 0 && top == 0
              else aps == old(aps) && apIndex == old(apIndex) && top == old(top)
    {
      if scanning {
        return false;
      }
      scanning := true;
      flight := Some(ifID);
      if clear {
        aps, apIndex, top := [], 0, 0;
      }
      return true;
    }

    method ApplyScan(items: seq<AP>)
      requires Valid()
      modifies this`aps, this`apIndex, this`top
      ensures Valid()
      ensures aps == StableSort(items)
      ensures Follows(aps, old(IdAt(aps, apIndex)), old(apIndex), apIndex)
      ensures aps != [] ==> IsNearest(|aps|, VisibleRows(height), apIndex, 0, old(top), top)
    {
      var selID := SelectedID();
      aps := StableSort(items);
      var idx := apIndex;
      if selID != "" {
        for i := 0 to |aps|
          invariant idx == old(apIndex) && aps == StableSort(items)
          invariant forall k :: 0 <= k < i ==> aps[k].id != selID
        {
          if aps[i].id == selID {
            idx := i;
            break;
          }
        }
      }
      if idx > |aps| - 1 {
        idx := |aps| - 1;
      }
      if idx < 0 {
        idx := 0;
      }
      apIndex := idx;
      Scroll(VisibleRows(height), 0);
    }

    method HandleKey(key: Key)
      requires Valid()
      modifies this
      ensures Valid() && Scanning() == ScansAfter(old(Scanning()), KeyPress(key))
      ensures height == old(height) && ifaces == old(ifaces)
      ensures ifIndex == if key == Tab && ifaces != [] then (old(ifIndex) + 1) % |ifaces| else old(ifIndex)
      ensures scanning == (old(scanning) || (ifaces != [] && (key == Tab || key == Rescan)))
      ensures key == Tab && ifaces != [] && !old(scanning) ==> aps == []
      ensures !(key == Tab && ifaces != [] && !old(scanning)) ==> aps == old(aps)
      ensures HasStepped(key, |aps|, VisibleRows(height), old(apIndex), old(top), apIndex, top)
      ensures aps == old(aps) && !IsMove(key, old(apIndex), |aps|) ==> apIndex == old(apIndex) && top == old(top)
    {
      match key
      case Tab =>
        if |ifaces| == 0 {
          return;
        }
        ifIndex := (ifIndex + 1) % |ifaces|;
        var _ := TriggerScan(SelectedIface().value, true);
      case Rescan =>
        ScanAgain();
      case Up =>
        if apIndex > 0 {
          apIndex := apIndex - 1;
          Scroll(VisibleRows(height), -1);
        }
      case Down =>
        if apIndex < |aps| - 1 {
          apIndex := apIndex + 1;
          Scroll(VisibleRows(height), 1);
        }
      case Quit =>
      case OtherKey =>
    }

    // The interface list has been loaded: the selection stays if it can, and the
    // selected interface is scanned.
    method LoadInterfaces(ids: seq<string>)
      requires Valid()
      modifies this
      ensures Valid() && height == old(height) && Scanning() == ScansAfter(old(Scanning()), InterfacesLoaded(ids))
      ensures ifaces == ids && ifIndex == if old(ifIndex) < |ids| then old(ifIndex) else 0
      ensures scanning == (old(scanning) || ids != [])
      ensures if ids != [] && !old(scanning) then aps == []
              else aps == old(aps) && apIndex == old(apIndex) && top == old(top)
    {
      ifaces := ids;
      if ifIndex >= |ifaces| {
        ifIndex := 0;
      }
      if SelectedIface().Some? {
        var _ := TriggerScan(SelectedIface().value, true);
      }
    }

    // Shows the connected access point while the first scan is still under way.
    method ShowStatus(ifID: string, connected: Option<AP>)
      requires Valid()
      modifies this`aps, this`apIndex, this`top
      ensures Valid()
      ensures if SelectedIface() == Some(ifID) && connected.Some? && scanning && old(aps) == []
              then aps == [connected.value]
              else aps == old(aps) && apIndex == old(apIndex) && top == old(top)
    {
      if SelectedIface() != Some(ifID) {
        return;
      }
      if connected.Some? && scanning && |aps| == 0 {
        aps, apIndex, top := [connected.value], 0, 0;
      }
    }

    // A scan result counts only for the interface that is selected when it arrives.
    method FinishScan(ifID: string, items: seq<AP>)
      requires Valid()
      modifies this`aps, this`apIndex, this`top, this`scanning, this`flight
      ensures Valid() && Scanning() == ScansAfter(old(Scanning()), ScanResult(ifID, items))
      ensures if SelectedIface() == Some(ifID)
              then !scanning && aps == StableSort(items) && Follows(aps, old(IdAt(aps, apIndex)), old(apIndex), apIndex)
              else scanning == old(scanning) && aps == old(aps) && apIndex == old(apIndex) && top == old(top)
      ensures SelectedIface() == Some(ifID) && aps != [] ==>
                IsNearest(|aps|, VisibleRows(height), apIndex, 0, old(top), top)
    {
      flight := if flight == Some(ifID) then None else flight;
      if SelectedIface() != Some(ifID) {
        return;
      }
      scanning := false;
      ApplyScan(items);
    }

    method Resize(h: int)
      requires Valid()
      modifies this`height, this`top, this`apIndex
      ensures Valid() && height == h && apIndex == old(apIndex)
      ensures if aps == [] then top == old(top) else IsNearest(|aps|, VisibleRows(h), apIndex, 0, old(top), top)
    {
      height := h;
      Scroll(VisibleRows(height), 0);
    }

    // Scans the selected interface once more; the list stays until the result is there.
    method ScanAgain()
      requires Valid()
      modifies this
      ensures Valid() && Scanning() == StartScan(old(Scanning()))
      ensures height == old(height) && aps == old(aps) && apIndex == old(apIndex) && top == old(top)
    {
      if SelectedIface().Some? {
        var _ := TriggerScan(SelectedIface().value, false);
      }
    }

    // The messages that the backend and the scan timer send.
    method Receive(msg: Msg)
      requires Valid()
      requires msg.InterfacesLoaded? || msg.IfaceStatus? || msg.ScanTick? || msg.ScanResult?
      modifies this
      ensures Valid() && Scanning() == ScansAfter(old(Scanning()), msg) && height == old(height)
      ensures if msg.ScanResult? && old(SelectedIface()) == Some(msg.ifID)
              then && aps == StableSort(msg.items) && Follows(aps, old(IdAt(aps, apIndex)), old(apIndex), apIndex)
                   && (aps != [] ==> IsNearest(|aps|, VisibleRows(height), apIndex, 0, old(top), top))
              else if msg.InterfacesLoaded? && ifaces != [] && !old(scanning) then aps == []
              else if msg.IfaceStatus? && old(SelectedIface()) == Some(msg.ifID) && msg.connected.Some?
                      && old(scanning) && old(aps) == [] then aps == [msg.connected.value]
              else aps == old(aps) && apIndex == old(apIndex) && top == old(top)
    {
      match msg
      case InterfacesLoaded(ids) =>
        LoadInterfaces(ids);
      case IfaceStatus(ifID, connected) =>
        ShowStatus(ifID, connected);
      case ScanTick =>
        ScanAgain();
      case ScanResult(ifID, items) =>
        FinishScan(ifID, items);
    }

    method Update(msg: Msg)
      requires Valid()
      modifies this
      ensures Valid() && Scanning() == ScansAfter(old(Scanning()), msg)
      ensures height == if msg.WindowSize? then msg.height else old(height)
      ensures HasScanned(old(Scanning()), msg, Scanning())
      // The list changes only by a scan result, by dropping it as a scan of another
      // interface starts, or by showing the connected access point instead of nothing.
      ensures if msg.ScanResult? && old(SelectedIface()) == Some(msg.ifID)
              then aps == StableSort(msg.items) && Follows(aps, old(IdAt(aps, apIndex)), old(apIndex), apIndex)
              else if (msg == KeyPress(Tab) || msg.InterfacesLoaded?) && ifaces != [] && !old(scanning) then aps == []
              else if msg.IfaceStatus? && old(SelectedIface()) == Some(msg.ifID) && msg.connected.Some?
                      && old(scanning) && old(aps) == [] then aps == [msg.connected.value]
              else aps == old(aps)
      ensures msg.KeyPress? ==>
                HasStepped(msg.key, |aps|, VisibleRows(height), old(apIndex), old(top), apIndex, top)
      ensures msg.WindowSize? && aps != [] ==>
                apIndex == old(apIndex) && IsNearest(|aps|, VisibleRows(height), apIndex, 0, old(top), top)
      ensures msg.ScanResult? && old(SelectedIface()) == Some(msg.ifID) && aps != [] ==>
                IsNearest(|aps|, VisibleRows(height), apIndex, 0, old(top), top)
      // Nothing else moves the cursor or the window over a list that stays.
      ensures aps == old(aps) && !(msg.KeyPress? && IsMove(msg.key, old(apIndex), |aps|)) && !msg.WindowSize?
              && !(msg.ScanResult? && old(SelectedIface()) == Some(msg.ifID)) ==>
                apIndex == old(apIndex) && top == old(top)
    {
      ScansHaveMoved(Scanning(), msg);
      match msg
      case WindowSize(h) =>
        Resize(h);
      case KeyPress(key) =>
        HandleKey(key);
      case SpinnerTick =>
      case ProfilesLoaded =>
      case _ =>
        Receive(msg);
    }

    // Any sequence of messages, from the start or from any valid state.
    method Run(msgs: seq<Msg>)
      requires Valid()
      modifies this
      ensures Valid() && Scanning() == ScansAfterAll(old(Scanning()), msgs)
    {
      for i := 0 to |msgs|
        invariant Valid() && Scanning() == ScansAfterAll(old(Scanning()), msgs[..i])
      {
        Update(msgs[i]);
        assert msgs[..i + 1][..i] == msgs[..i];
      }
      assert msgs[..|msgs|] == msgs;
    }
  }

  // ---- drawing ------------------------------------------------------------------------------------

  // The rows that the table draws, start included and end excluded, in a body of the
  // given height: it moves the start if the cursor would not be visible.
  function DrawnWindow(n: int, i: int, top: int, height: int): (int, int) {
    var body := Max(height - 1, 3);
    var rows := Max(Max(body - 2, 1) - 1, 1);
    var s0 := Min(top, i);
    var s1 := if i >= s0 + rows then i - rows + 1 else s0;
    var start := Max(s1, 0);
    (start, Min(start + rows, n))
  }

  // The table's correction never fires: what is drawn starts at the scroll position,
  // fills the window as far as the list goes, and includes the cursor.
  lemma DrawnWindowIsViewport(n: int, i: int, top: int, height: int)
    requires 0 <= i < n && IsInView(n, VisibleRows(height), i, top)
    ensures DrawnWindow(n, i, top, height) == (top, Min(top + VisibleRows(height), n))
    ensures top <= i < DrawnWindow(n, i, top, height).1
    ensures DrawnWindow(n, i, top, height).1 - top == Min(VisibleRows(height), n)
  {
  }
}
