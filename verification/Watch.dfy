// Watching a connection: three backends turn what they observe into a stream of
// status reports that ends with the first terminal one.
module Watch {
  import opened Text
  import opened Wnet

  datatype Status = Status(state: ConnState, error: ConnError)

  predicate IsTerminal(s: ConnState) {
    s == Connected || s == Failed
  }

  // ---- what a stream should carry -------------------------------------------------------

  // Reports up to and including the first terminal one.
  ghost function UpToTerminal(reports: seq<Status>): seq<Status> {
    if reports == [] then []
    else if IsTerminal(reports[0].state) then [reports[0]]
    else [reports[0]] + UpToTerminal(reports[1..])
  }

  // A report whose state is that of the report before it is not repeated.
  ghost function Destutter(reports: seq<Status>): seq<Status>
    decreases |reports|
  {
    if |reports| <= 1 then reports
    else
      var init, last := reports[..|reports| - 1], reports[|reports| - 1];
      if last.state == init[|init| - 1].state then Destutter(init) else Destutter(init) + [last]
  }

  ghost function Stream(reports: seq<Status>): seq<Status> {
    Destutter(UpToTerminal(reports))
  }

  // ---- how a watcher computes it --------------------------------------------------------------

  // What is remembered between observations: the last state sent, if any, and
  // whether the stream has been closed.
  datatype Emitter = Emitter(last: Option<ConnState>, out: seq<Status>, closed: bool)

  const START := Emitter(None, [], false)

  function Report(m: Emitter, st: Status): Emitter {
    if m.closed then m
    else Emitter(Some(st.state), if m.last == Some(st.state) then m.out else m.out + [st], IsTerminal(st.state))
  }

  ghost function EmitAll(reports: seq<Status>): Emitter {
    if reports == [] then START
    else Report(EmitAll(reports[..|reports| - 1]), reports[|reports| - 1])
  }

  ghost predicate EndsTerminal(reports: seq<Status>) {
    reports != [] && IsTerminal(reports[|reports| - 1].state)
  }

  lemma {:induction false} UpToTerminalAppend(reports: seq<Status>, st: Status)
    ensures var cut := UpToTerminal(reports);
            UpToTerminal(reports + [st]) == if EndsTerminal(cut) then cut else cut + [st]
  {
    if reports == [] {
      assert (reports + [st])[1..] == [];
    } else {
      assert (reports + [st])[1..] == reports[1..] + [st];
      UpToTerminalAppend(reports[1..], st);
    }
  }

  lemma {:induction false} UpToTerminalShape(reports: seq<Status>)
    ensures var cut := UpToTerminal(reports);
            && cut <= reports && (reports != [] ==> cut != [])
            && (forall i :: 0 <= i < |cut| - 1 ==> !IsTerminal(cut[i].state))
            && (cut == reports || EndsTerminal(cut))
  {
    if reports != [] {
      UpToTerminalShape(reports[1..]);
      assert reports == [reports[0]] + reports[1..];
    }
  }

  lemma DestutterAppend(reports: seq<Status>, st: Status)
    ensures Destutter(reports + [st])
            == if reports != [] && reports[|reports| - 1].state == st.state then Destutter(reports)
               else Destutter(reports) + [st]
  {
    assert (reports + [st])[..|reports|] == reports;
  }

  lemma {:induction false} DestutterLast(reports: seq<Status>)
    ensures reports != [] ==>
              && Destutter(reports) != []
              && Destutter(reports)[|Destutter(reports)| - 1].state == reports[|reports| - 1].state
    decreases |reports|
  {
    if |reports| > 1 {
      DestutterLast(reports[..|reports| - 1]);
    }
  }

  // m is where a watcher stands once it has seen reports whose stream is made of cut.
  ghost predicate HasSent(m: Emitter, cut: seq<Status>) {
    && m.out == Destutter(cut)
    && m.last == (if cut == [] then None else Some(cut[|cut| - 1].state))
    && (m.closed <==> EndsTerminal(cut))
  }

  lemma ReportSends(m: Emitter, cut: seq<Status>, st: Status)
    requires HasSent(m, cut)
    ensures HasSent(Report(m, st), if EndsTerminal(cut) then cut else cut + [st])
  {
    DestutterAppend(cut, st);
  }

  // The incremental watcher sends exactly the destuttered prefix up to the first
  // terminal report, and is closed exactly when it has sent that one.
  lemma {:induction false} EmitterIsStream(reports: seq<Status>)
    ensures HasSent(EmitAll(reports), UpToTerminal(reports))
    ensures EmitAll(reports).out == Stream(reports)
    decreases |reports|
  {
    if reports != [] {
      var init, st := reports[..|reports| - 1], reports[|reports| - 1];
      assert reports == init + [st];
      EmitterIsStream(init);
      UpToTerminalAppend(init, st);
      ReportSends(EmitAll(init), UpToTerminal(init), st);
    }
  }

  ghost predicate NeverRepeats(s: seq<Status>) {
    forall i :: 0 < i < |s| ==> s[i - 1].state != s[i].state
  }

  ghost predicate IsTerminalOnlyLast(s: seq<Status>) {
    forall i :: 0 <= i < |s| - 1 ==> !IsTerminal(s[i].state)
  }

  // No two neighbours in a stream have the same state, and a terminal state can only
  // be the last one.
  lemma StreamShape(reports: seq<Status>)
    ensures NeverRepeats(Stream(reports)) && IsTerminalOnlyLast(Stream(reports))
  {
    UpToTerminalShape(reports);
    DestutterShape(UpToTerminal(reports));
  }

  lemma {:induction false} DestutterShape(reports: seq<Status>)
    ensures NeverRepeats(Destutter(reports))
    ensures forall x :: x in Destutter(reports) ==> x in reports
    ensures IsTerminalOnlyLast(reports) ==> IsTerminalOnlyLast(Destutter(reports))
    decreases |reports|
  {
    if |reports| > 1 {
      var init := reports[..|reports| - 1];
      DestutterShape(init);
      DestutterLast(init);
      if IsTerminalOnlyLast(reports) {
        forall x | x in Destutter(init)
          ensures !IsTerminal(x.state)
        {
          assert x in init;
        }
      }
    }
  }

  // ---- iwd -----------------------------------------------------------------------------------------

  function IwdState(s: string): ConnState {
    if s == "connected" || s == "roaming" then Connected
    else if s == "connecting" then Associating
    else if s == "disconnecting" then Disconnecting
    else if s == "disconnected" then Idle
    else Unspecified
  }

  // Some observation before the i-th one was of an association attempt.
  ghost predicate SawAssociating(obs: seq<string>, i: nat)
    requires i <= |obs|
  {
    exists j :: 0 <= j < i && IwdState(obs[j]) == Associating
  }

  lemma SawNext(obs: seq<string>, i: nat)
    requires i < |obs|
    ensures SawAssociating(obs, i + 1) <==> SawAssociating(obs, i) || IwdState(obs[i]) == Associating
  {
  }

  // The report for the i-th observed station state: falling back to idle after any
  // association attempt is a failure.
  ghost function IwdReport(obs: seq<string>, i: nat): Status
    requires i < |obs|
  {
    if IwdState(obs[i]) == Idle && SawAssociating(obs, i) then Status(Failed, UnknownError)
    else Status(IwdState(obs[i]), NoError)
  }

  ghost function IwdReports(obs: seq<string>): seq<Status> {
    seq(|obs|, i requires 0 <= i < |obs| => IwdReport(obs, i))
  }

  class IwdWatcher {
    var last: Option<ConnState>
    var sawAssociating: bool
    var out: seq<Status>

    constructor ()
      ensures last == None && !sawAssociating && out == []
    {
      last, sawAssociating, out := None, false, [];
    }

    method Emit(state: string) returns (closed: bool)
      requires last.Some? ==> !IsTerminal(last.value)
      modifies this
      ensures sawAssociating == (old(sawAssociating) || IwdState(state) == Associating)
      ensures var st := if IwdState(state) == Idle && old(sawAssociating) then Status(Failed, UnknownError)
                        else Status(IwdState(state), NoError);
              Emitter(last, out, closed) == Report(Emitter(old(last), old(out), false), st)
    {
      var st := Status(IwdState(state), NoError);
      if st.state == Associating {
        sawAssociating := true;
      }
      if st.state == Idle && sawAssociating {
        st := Status(Failed, UnknownError);
      }
      if last == Some(st.state) {
        return false;
      }
      last := Some(st.state);
      out := out + [st];
      return st.state == Connected || st.state == Failed;
    }
  }

  method IwdWatch(obs: seq<string>) returns (out: seq<Status>, closed: bool)
    ensures out == Stream(IwdReports(obs))
    ensures closed <==> EmitAll(IwdReports(obs)).closed
  {
    var w := new IwdWatcher();
    closed := false;
    ghost var reports := IwdReports(obs);
    EmitterIsStream([]);
    for i := 0 to |obs|
      invariant EmitAll(reports[..i]) == Emitter(w.last, w.out, closed)
      invariant !closed && (w.last.Some? ==> !IsTerminal(w.last.value))
      invariant w.sawAssociating <==> SawAssociating(obs, i)
    {
      SawNext(obs, i);
      EmitNext(reports, i);
      closed := w.Emit(obs[i]);
      if closed {
        ClosedForGood(reports, i + 1);
        EmitterIsStream(reports);
        return w.out, true;
      }
    }
    assert reports[..|obs|] == reports;
    EmitterIsStream(reports);
    out := w.out;
  }

  lemma {:induction false} ClosedForGood(reports: seq<Status>, k: nat)
    requires k <= |reports| && EmitAll(reports[..k]).closed
    ensures EmitAll(reports) == EmitAll(reports[..k])
    decreases |reports|
  {
    if k == |reports| {
      assert reports[..k] == reports;
    } else {
      var init := reports[..|reports| - 1];
      assert init[..k] == reports[..k];
      ClosedForGood(init, k);
    }
  }

  // A stream that ends in a terminal state ends with that very report, error included.
  lemma TerminalIsReported(reports: seq<Status>)
    ensures var cut, s := UpToTerminal(reports), Stream(reports);
            EndsTerminal(cut) ==> s != [] && s[|s| - 1] == cut[|cut| - 1]
  {
    UpToTerminalShape(reports);
  }

  // ---- nmcli ---------------------------------------------------------------------------------------

  datatype Device = Device(stateCode: int, reason: string)

  const NEED_AUTH := 60

  function NmState(code: int): ConnState {
    if code == 40 || code == 50 then Associating
    else if code == NEED_AUTH then Authenticating
    else if code == 70 || code == 80 || code == 90 then Configuring
    else if code == 100 then Connected
    else if code == 110 then Disconnecting
    else if code == 120 then Failed
    else if code == 30 then Idle
    else Unspecified
  }

  predicate BlamesAuth(reason: string) {
    Contains(Lower(reason), "secret") || Contains(Lower(reason), "auth")
  }

  function NmStatus(d: Device, sawNeedAuth: bool): Status {
    var state := NmState(d.stateCode);
    Status(state, if state != Failed then NoError
                  else if sawNeedAuth || BlamesAuth(d.reason) then AuthFailed
                  else UnknownError)
  }

  ghost predicate PolledNeedAuth(obs: seq<Device>, upto: nat) {
    exists j :: 0 <= j < |obs| && j <= upto && obs[j].stateCode == NEED_AUTH
  }

  ghost function NmReports(obs: seq<Device>): seq<Status> {
    seq(|obs|, i requires 0 <= i < |obs| => NmStatus(obs[i], PolledNeedAuth(obs, i)))
  }

  // Polls until a lookup fails.
  function BeforeError<T>(polls: seq<Option<T>>): (r: seq<T>)
    ensures |r| <= |polls| && forall i :: 0 <= i < |r| ==> polls[i] == Some(r[i])
    ensures |r| < |polls| ==> polls[|r|] == None
  {
    if polls == [] || polls[0].None? then [] else [polls[0].value] + BeforeError(polls[1..])
  }

  lemma PolledNext(obs: seq<Device>, i: nat)
    requires i < |obs|
    ensures PolledNeedAuth(obs, i) <==> (i > 0 && PolledNeedAuth(obs, i - 1)) || obs[i].stateCode == NEED_AUTH
  {
  }

  lemma EmitNext(reports: seq<Status>, i: nat)
    requires i < |reports|
    ensures EmitAll(reports[..i + 1]) == Report(EmitAll(reports[..i]), reports[i])
  {
    assert reports[..i + 1][..i] == reports[..i];
  }

  method NmWatch(polls: seq<Option<Device>>) returns (out: seq<Status>, closed: bool)
    ensures out == Stream(NmReports(BeforeError(polls)))
    ensures closed <==> EmitAll(NmReports(BeforeError(polls))).closed || |BeforeError(polls)| < |polls|
  {
    var sawNeedAuth, last := false, None;
    out := [];
    ghost var obs := BeforeError(polls);
    ghost var reports := NmReports(obs);
    EmitterIsStream(reports);
    for i := 0 to |polls|
      invariant i <= |obs| && EmitAll(reports[..i]) == Emitter(last, out, false)
      invariant sawNeedAuth <==> i > 0 && PolledNeedAuth(obs, i - 1)
    {
      if polls[i].None? {
        assert reports[..i] == reports;
        return out, true;
      }
      var d := polls[i].value;
      if d.stateCode == NEED_AUTH {
        sawNeedAuth := true;
      }
      PolledNext(obs, i);
      var st := NmStatus(d, sawNeedAuth);
      EmitNext(reports, i);
      if last != Some(st.state) {
        out := out + [st];
        last := Some(st.state);
      }
      if st.state == Connected || st.state == Failed {
        ClosedForGood(reports, i + 1);
        return out, true;
      }
    }
    assert reports[..|polls|] == reports;
    closed := false;
  }

  // A watch that ends in failure blames authentication exactly if a poll ever saw
  // the device ask for secrets, or the final reason says so.
  lemma NmFailureIsAuthIff(obs: seq<Device>)
    ensures var reports := NmReports(obs);
            var cut, s := UpToTerminal(reports), Stream(reports);
            cut != [] && cut[|cut| - 1].state == Failed ==>
              && |cut| <= |obs| && s != []
              && (s[|s| - 1].error == AuthFailed <==>
                  PolledNeedAuth(obs, |cut| - 1) || BlamesAuth(obs[|cut| - 1].reason))
  {
    var reports := NmReports(obs);
    TerminalIsReported(reports);
    UpToTerminalShape(reports);
  }

  // ---- ubus ----------------------------------------------------------------------------------------

  // The live side of a station: its device name ("" until it is up) and, if the
  // device answers, the SSID and BSSID it reports.
  datatype Runtime = Runtime(ssid: string, disabled: bool, ifname: string, info: Option<(string, string)>)

  const NO_BSSID := "00:00:00:00:00:00"

  predicate IsAssociated(bssid: string) {
    var b := Trim(bssid);
    b != "" && !(NO_BSSID <= b)
  }

  function UbusState(rt: Runtime): ConnState {
    if rt.disabled then Idle
    else if rt.ifname == "" then Associating
    else match rt.info
      case None => Idle
      case Some(i) => if i.0 == rt.ssid && IsAssociated(i.1) then Connected else Associating
  }

  // A poll and the time at which its outcome is judged, in nanoseconds.
  datatype Poll = Poll(rt: Runtime, now: int)

  const WINDOW := 30_000_000_000

  function UbusReport(p: Poll, deadline: int): Status {
    if UbusState(p.rt) != Connected && p.now > deadline then Status(Failed, UnknownError)
    else Status(UbusState(p.rt), NoError)
  }

  ghost function UbusReports(obs: seq<Poll>, deadline: int): seq<Status> {
    seq(|obs|, i requires 0 <= i < |obs| => UbusReport(obs[i], deadline))
  }

  // The status of a poll, replaced by a failure once the time is up.
  method Judge(p: Poll, deadline: int) returns (st: Status)
    ensures st == UbusReport(p, deadline)
  {
    st := Status(UbusState(p.rt), NoError);
    if st.state != Connected && p.now > deadline {
      st := Status(Failed, UnknownError);
    }
  }

  method UbusWatch(start: int, polls: seq<Option<Poll>>) returns (out: seq<Status>, closed: bool)
    ensures out == Stream(UbusReports(BeforeError(polls), start + WINDOW))
    ensures closed <==> || EmitAll(UbusReports(BeforeError(polls), start + WINDOW)).closed
                        || |BeforeError(polls)| < |polls|
  {
    var deadline := start + WINDOW;
    var last := None;
    out := [];
    ghost var reports := UbusReports(BeforeError(polls), deadline);
    EmitterIsStream(reports);
    for i := 0 to |polls|
      invariant i <= |reports| && EmitAll(reports[..i]) == Emitter(last, out, false)
    {
      if polls[i].None? {
        assert reports[..i] == reports;
        return out, true;
      }
      var st := Judge(polls[i].value, deadline);
      EmitNext(reports, i);
      if last != Some(st.state) {
        out := out + [st];
        last := Some(st.state);
      }
      if st.state == Connected || st.state == Failed {
        ClosedForGood(reports, i + 1);
        return out, true;
      }
    }
    assert reports[..|polls|] == reports;
    closed := false;
  }

  // ---- waiting for an activation -------------------------------------------------------------------

  // One look of the wait: the runtime state, if it could be read, and the time after.
  datatype Look = Look(rt: Option<Runtime>, now: int)

  predicate IsUp(rt: Runtime) {
    !rt.disabled && rt.ifname != "" && rt.info.Some? && rt.info.value.0 == rt.ssid && IsAssociated(rt.info.value.1)
  }

  // What ends an activation's wait is just what the watch reports as connected. A
  // station that is not up is idle if it is switched off or its device does not
  // answer, and associating otherwise.
  lemma UpIffConnected(rt: Runtime)
    ensures IsUp(rt) <==> UbusState(rt) == Connected
    ensures !IsUp(rt) ==> (UbusState(rt) == Idle <==> rt.disabled || (rt.ifname != "" && rt.info.None?))
    ensures !IsUp(rt) && UbusState(rt) != Idle ==> UbusState(rt) == Associating
  {
  }

  // The all-zero address that an idle device reports never counts as an association,
  // whatever white space stands before it and whatever follows.
  lemma PlaceholderIsNotUp(rt: Runtime, pad: string, rest: string)
    requires rt.info.Some? && rt.info.value.1 == pad + NO_BSSID + rest && AllSpace(pad)
    ensures UbusState(rt) != Connected
  {
    TrimKeepsPrefix(pad, NO_BSSID, rest);
  }

  // The first look at which the station is up, provided that no look before it came
  // after the deadline.
  ghost predicate AssociatesInTime(looks: seq<Look>, deadline: int, i: nat) {
    && i < |looks| && looks[i].rt.Some? && UbusState(looks[i].rt.value) == Connected
    && forall j :: 0 <= j < i ==> looks[j].now <= deadline
  }

  // Keeps looking until the station is up or the deadline has passed; None if the
  // looks end before that. A look that fails is no verdict.
  method WaitAssociated(looks: seq<Look>, deadline: int) returns (ok: Option<bool>)
    ensures ok == Some(true) <==> exists i :: AssociatesInTime(looks, deadline, i)
    ensures ok == Some(false) ==> exists i :: 0 <= i < |looks| && looks[i].now > deadline
    ensures (exists i :: 0 <= i < |looks| && looks[i].now > deadline) ==> ok.Some?
  {
    for i := 0 to |looks|
      invariant forall j :: 0 <= j < i ==> looks[j].now <= deadline
      invariant forall j :: 0 <= j < i ==> !AssociatesInTime(looks, deadline, j)
    {
      var rt := looks[i].rt;
      if rt.Some? {
        UpIffConnected(rt.value);
      }
      if rt.Some? && IsUp(rt.value) {
        assert AssociatesInTime(looks, deadline, i);
        return Some(true);
      }
      if looks[i].now > deadline {
        assert forall j :: i < j < |looks| ==> !AssociatesInTime(looks, deadline, j);
        return Some(false);
      }
    }
    return None;
  }

  lemma {:induction false} TerminalCloses(reports: seq<Status>, i: nat)
    requires i < |reports| && IsTerminal(reports[i].state)
    ensures var cut := UpToTerminal(reports);
            EndsTerminal(cut) && |cut| <= i + 1
  {
    if i > 0 && !IsTerminal(reports[0].state) {
      TerminalCloses(reports[1..], i - 1);
    }
  }

  // Once a poll is judged after the deadline the stream is over: it has ended, with
  // a terminal report, at that poll or before it.
  lemma UbusEndsByDeadline(obs: seq<Poll>, deadline: int, i: nat)
    requires i < |obs| && obs[i].now > deadline
    ensures var reports := UbusReports(obs, deadline);
            var s := Stream(reports);
            && EmitAll(reports).closed && EmitAll(reports[..i + 1]).closed
            && EndsTerminal(s) && s == Stream(reports[..i + 1])
  {
    var reports := UbusReports(obs, deadline);
    TerminalCloses(reports, i);
    TerminalCloses(reports[..i + 1], i);
    EmitterIsStream(reports);
    EmitterIsStream(reports[..i + 1]);
    ClosedForGood(reports, i + 1);
    TerminalIsReported(reports);
  }

  // iwd turns idle into failure exactly after an association was seen, so a watch
  // that saw one can no longer report idle.
  lemma IwdIdleAfterAssociatingFails(obs: seq<string>, j: nat, i: nat)
    requires j < i < |obs| && IwdState(obs[j]) == Associating
    ensures IwdReports(obs)[i].state != Idle
    ensures IwdState(obs[i]) == Idle ==> EmitAll(IwdReports(obs)).closed
  {
    if IwdState(obs[i]) == Idle {
      TerminalCloses(IwdReports(obs), i);
      EmitterIsStream(IwdReports(obs));
    }
  }
}
