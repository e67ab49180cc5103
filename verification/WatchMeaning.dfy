// What the streams of the three watchers say about the raw observations: which state is
// reported exactly when, from strings, state codes and runtime records.
module WatchMeaning {
  import opened Text
  import opened Wnet
  import opened Watch

  // ---- states in a stream -----------------------------------------------------------------

  ghost predicate Shows(s: seq<Status>, v: ConnState) {
    exists i :: 0 <= i < |s| && s[i].state == v
  }

  // Some report has that state, and no report before it ends the stream.
  ghost predicate IsReached(reports: seq<Status>, v: ConnState) {
    exists i :: IsReachedAt(reports, v, i)
  }

  ghost predicate IsReachedAt(reports: seq<Status>, v: ConnState, i: int) {
    && 0 <= i < |reports| && reports[i].state == v
    && forall j :: 0 <= j < i ==> !IsTerminal(reports[j].state)
  }

  lemma CutShows(reports: seq<Status>, v: ConnState)
    ensures Shows(UpToTerminal(reports), v) <==> IsReached(reports, v)
  {
    var cut := UpToTerminal(reports);
    UpToTerminalShape(reports);
    if i :| 0 <= i < |cut| && cut[i].state == v {
      assert IsReachedAt(reports, v, i);
    }
    if i :| IsReachedAt(reports, v, i) {
      assert i < |cut|;
      assert cut[i] == reports[i];
    }
  }

  lemma ShowsSnoc(s: seq<Status>, last: Status, v: ConnState)
    ensures Shows(s + [last], v) <==> Shows(s, v) || last.state == v
  {
    var t := s + [last];
    assert t[|s|] == last;
    assert forall i :: 0 <= i < |s| ==> t[i] == s[i];
  }

  lemma {:induction false} DestutterShows(reports: seq<Status>, v: ConnState)
    ensures Shows(Destutter(reports), v) <==> Shows(reports, v)
    decreases |reports|
  {
    if |reports| > 1 {
      var init, last := reports[..|reports| - 1], reports[|reports| - 1];
      assert reports == init + [last];
      DestutterShows(init, v);
      ShowsSnoc(init, last, v);
      ShowsSnoc(Destutter(init), last, v);
      if last.state == init[|init| - 1].state {
        assert last.state == v ==> Shows(init, v);
      }
    }
  }

  // A stream carries a state exactly if a report with it comes before, or is, the first
  // terminal one.
  lemma StreamShowsIff(reports: seq<Status>, v: ConnState)
    ensures Shows(Stream(reports), v) <==> IsReached(reports, v)
  {
    DestutterShows(UpToTerminal(reports), v);
    CutShows(reports, v);
  }

  // ---- iwd ----------------------------------------------------------------------------------

  // Disconnected, after an attempt to connect.
  ghost predicate FellBack(obs: seq<string>, i: nat)
    requires i < |obs|
  {
    obs[i] == "disconnected" && exists j :: 0 <= j < i && obs[j] == "connecting"
  }

  // What the i-th station state means, by the names iwd gives them.
  ghost predicate IwdSays(obs: seq<string>, i: nat, v: ConnState)
    requires i < |obs|
  {
    match v
    case Connected => obs[i] == "connected" || obs[i] == "roaming"
    case Associating => obs[i] == "connecting"
    case Disconnecting => obs[i] == "disconnecting"
    case Failed => FellBack(obs, i)
    case Idle => obs[i] == "disconnected" && !FellBack(obs, i)
    case Unspecified => obs[i] !in {"connected", "roaming", "connecting", "disconnecting", "disconnected"}
    case _ => false
  }

  // An observation says v, and none before it said that the connection is up or has
  // failed.
  ghost predicate IwdSaysFirst(obs: seq<string>, v: ConnState, i: int) {
    && 0 <= i < |obs| && IwdSays(obs, i, v)
    && forall j :: 0 <= j < i ==> !IwdSays(obs, j, Connected) && !IwdSays(obs, j, Failed)
  }

  lemma IwdNamesDiffer()
    ensures "connected" != "connecting" && "connected" != "roaming" && "connected" != "disconnecting"
    ensures "connected" != "disconnected" && "roaming" != "connecting" && "roaming" != "disconnecting"
    ensures "roaming" != "disconnected" && "connecting" != "disconnecting" && "connecting" != "disconnected"
    ensures "disconnecting" != "disconnected"
  {
    assert "connected"[7] == 'e' && "connecting"[7] == 'i';
  }

  lemma IwdReportSays(obs: seq<string>, i: nat, v: ConnState)
    requires i < |obs|
    ensures IwdReports(obs)[i].state == v <==> IwdSays(obs, i, v)
  {
    IwdNamesDiffer();
    assert SawAssociating(obs, i) <==> exists j :: 0 <= j < i && obs[j] == "connecting";
  }

  // The watch reports a state exactly if some observation says so before the watch ends;
  // in particular it ends as connected exactly if iwd reports connected or roaming before
  // it falls back to disconnected from an attempt.
  lemma IwdShowsIff(obs: seq<string>, v: ConnState)
    ensures Shows(Stream(IwdReports(obs)), v) <==> exists i :: IwdSaysFirst(obs, v, i)
  {
    var reports := IwdReports(obs);
    StreamShowsIff(reports, v);
    forall i | 0 <= i < |obs|
      ensures reports[i].state == v <==> IwdSays(obs, i, v)
      ensures IsTerminal(reports[i].state) <==> IwdSays(obs, i, Connected) || IwdSays(obs, i, Failed)
    {
      IwdReportSays(obs, i, v);
      IwdReportSays(obs, i, Connected);
      IwdReportSays(obs, i, Failed);
    }
    forall i
      ensures IsReachedAt(reports, v, i) <==> IwdSaysFirst(obs, v, i)
    {
      if IwdSaysFirst(obs, v, i) {
        assert reports[i].state == v;
      }
    }
  }

  // ---- nmcli --------------------------------------------------------------------------------

  // NetworkManager's device states, by number.
  predicate NmSays(code: int, v: ConnState) {
    match v
    case Idle => code == 30
    case Associating => code == 40 || code == 50
    case Authenticating => code == 60
    case Configuring => code == 70 || code == 80 || code == 90
    case Connected => code == 100
    case Disconnecting => code == 110
    case Failed => code == 120
    case Unspecified => code !in {30, 40, 50, 60, 70, 80, 90, 100, 110, 120}
  }

  ghost predicate NmSaysFirst(obs: seq<Device>, v: ConnState, i: int) {
    && 0 <= i < |obs| && NmSays(obs[i].stateCode, v)
    && forall j :: 0 <= j < i ==> obs[j].stateCode != 100 && obs[j].stateCode != 120
  }

  // The watch reports a state exactly if the device is polled in it before it is polled
  // as activated or failed.
  lemma NmShowsIff(obs: seq<Device>, v: ConnState)
    ensures Shows(Stream(NmReports(obs)), v) <==> exists i :: NmSaysFirst(obs, v, i)
  {
    var reports := NmReports(obs);
    StreamShowsIff(reports, v);
    forall i | 0 <= i < |obs|
      ensures reports[i].state == v <==> NmSays(obs[i].stateCode, v)
      ensures IsTerminal(reports[i].state) <==> obs[i].stateCode == 100 || obs[i].stateCode == 120
    {
    }
    forall i
      ensures IsReachedAt(reports, v, i) <==> NmSaysFirst(obs, v, i)
    {
      if NmSaysFirst(obs, v, i) {
        assert reports[i].state == v;
      }
    }
  }

  // A watch whose device fails blames authentication exactly if a poll up to then found
  // it waiting for secrets, or the reason mentions secrets or authentication.
  lemma NmBlamesAuthIff(obs: seq<Device>, i: nat)
    requires NmSaysFirst(obs, Failed, i)
    ensures var s := Stream(NmReports(obs));
            && s != [] && s[|s| - 1].state == Failed
            && s[|s| - 1].error in {AuthFailed, UnknownError}
            && (s[|s| - 1].error == AuthFailed <==>
                || (exists j :: 0 <= j < i && obs[j].stateCode == 60)
                || Mentions(obs[i].reason, "secret") || Mentions(obs[i].reason, "auth"))
  {
    var reports := NmReports(obs);
    CutAt(reports, i);
    TerminalIsReported(reports);
    ContainsIffMentions(obs[i].reason, "secret");
    ContainsIffMentions(obs[i].reason, "auth");
  }

  // The first terminal report is where a stream is cut.
  lemma {:induction false} CutAt(reports: seq<Status>, i: nat)
    requires i < |reports| && IsTerminal(reports[i].state)
    requires forall j :: 0 <= j < i ==> !IsTerminal(reports[j].state)
    ensures UpToTerminal(reports) == reports[..i + 1]
  {
    if i == 0 {
      assert reports[..1] == [reports[0]];
    } else {
      CutAt(reports[1..], i - 1);
      assert reports[..i + 1] == [reports[0]] + reports[1..][..i];
    }
  }

  // ---- ubus ---------------------------------------------------------------------------------

  // The address of a real access point: there is one, and it is not the all-zero one.
  ghost predicate IsReal(bssid: string) {
    exists pad, text ::
      && bssid == pad + text && AllSpace(pad) && text != "" && !IsSpace(text[0])
      && !("00:00:00:00:00:00" <= text)
  }

  lemma {:induction false} LeftPad(s: string) returns (pad: string)
    ensures s == pad + TrimLeft(s) && AllSpace(pad)
  {
    if s != "" && IsSpace(s[0]) {
      var rest := LeftPad(s[1..]);
      pad := [s[0]] + rest;
      assert s == [s[0]] + s[1..];
    } else {
      pad := "";
    }
  }

  lemma {:induction false} TrimRightStart(s: string)
    requires s != "" && !IsSpace(s[0])
    ensures TrimRight(s) != ""
  {
    if IsSpace(s[|s| - 1]) {
      TrimRightStart(s[..|s| - 1]);
    }
  }

  lemma PlaceholderSurvivesTrim(text: string)
    requires text != "" && !IsSpace(text[0])
    ensures TrimRight(text) != ""
    ensures NO_BSSID <= TrimRight(text) <==> "00:00:00:00:00:00" <= text
  {
    TrimRightStart(text);
    TrimRightEnds(text);
    if "00:00:00:00:00:00" <= text {
      assert text == NO_BSSID + text[|NO_BSSID|..];
      TrimRightKeeps(NO_BSSID, text[|NO_BSSID|..]);
    }
  }

  lemma AssociatedIff(bssid: string)
    ensures IsAssociated(bssid) <==> IsReal(bssid)
  {
    var left := TrimLeft(bssid);
    var p := LeftPad(bssid);
    TrimLeftStarts(bssid);
    if left != "" {
      PlaceholderSurvivesTrim(left);
    }
    if pad, text :| bssid == pad + text && AllSpace(pad) && text != "" && !IsSpace(text[0])
                    && !("00:00:00:00:00:00" <= text) {
      TrimLeftPad(pad, text);
    }
  }

  // The device is up and answers with the station's own SSID and a real address.
  ghost predicate IsOnline(rt: Runtime) {
    && !rt.disabled && rt.ifname != ""
    && rt.info.Some? && rt.info.value.0 == rt.ssid && IsReal(rt.info.value.1)
  }

  // What a poll says, with half a minute from the start of the watch to come up.
  ghost predicate UbusSays(p: Poll, start: int, v: ConnState) {
    var late := p.now > start + 30_000_000_000;
    var down := p.rt.disabled || (p.rt.ifname != "" && p.rt.info.None?);
    match v
    case Connected => IsOnline(p.rt)
    case Failed => !IsOnline(p.rt) && late
    case Idle => down && !late
    case Associating => !IsOnline(p.rt) && !down && !late
    case _ => false
  }

  ghost predicate UbusSaysFirst(obs: seq<Poll>, start: int, v: ConnState, i: int) {
    && 0 <= i < |obs| && UbusSays(obs[i], start, v)
    && forall j :: 0 <= j < i ==> !UbusSays(obs[j], start, Connected) && !UbusSays(obs[j], start, Failed)
  }

  lemma UbusReportSays(p: Poll, start: int, v: ConnState)
    ensures UbusReport(p, start + WINDOW).state == v <==> UbusSays(p, start, v)
  {
    if p.rt.info.Some? {
      AssociatedIff(p.rt.info.value.1);
    }
  }

  lemma UbusShowsIff(obs: seq<Poll>, start: int, v: ConnState)
    ensures Shows(Stream(UbusReports(obs, start + WINDOW)), v) <==> exists i :: UbusSaysFirst(obs, start, v, i)
  {
    var reports := UbusReports(obs, start + WINDOW);
    StreamShowsIff(reports, v);
    forall i | 0 <= i < |obs|
      ensures reports[i].state == v <==> UbusSays(obs[i], start, v)
      ensures IsTerminal(reports[i].state) <==> UbusSays(obs[i], start, Connected) || UbusSays(obs[i], start, Failed)
    {
      UbusReportSays(obs[i], start, v);
      UbusReportSays(obs[i], start, Connected);
      UbusReportSays(obs[i], start, Failed);
    }
    forall i
      ensures IsReachedAt(reports, v, i) <==> UbusSaysFirst(obs, start, v, i)
    {
      if UbusSaysFirst(obs, start, v, i) {
        assert reports[i].state == v;
      }
    }
  }

  // Nothing but a failure carries an error, and both of these watches can only say that
  // something is wrong.
  lemma FailuresAreUnknown(obs: seq<string>, polls: seq<Poll>, start: int)
    ensures forall st :: st in Stream(IwdReports(obs)) || st in Stream(UbusReports(polls, start + WINDOW)) ==>
              st.error == if st.state == Failed then UnknownError else NoError
  {
    StreamIsOfReports(IwdReports(obs));
    StreamIsOfReports(UbusReports(polls, start + WINDOW));
    forall i | 0 <= i < |obs|
      ensures var st := IwdReports(obs)[i]; st.error == if st.state == Failed then UnknownError else NoError
    {
      IwdReportSays(obs, i, Failed);
    }
  }

  lemma StreamIsOfReports(reports: seq<Status>)
    ensures forall st :: st in Stream(reports) ==> exists i :: 0 <= i < |reports| && reports[i] == st
  {
    UpToTerminalShape(reports);
    DestutterShape(UpToTerminal(reports));
    forall st | st in Stream(reports)
      ensures exists i :: 0 <= i < |reports| && reports[i] == st
    {
      var i :| 0 <= i < |UpToTerminal(reports)| && UpToTerminal(reports)[i] == st;
      assert reports[i] == st;
    }
  }

  // An activation's wait ends on the same condition.
  lemma WaitsForOnline(rt: Runtime)
    ensures IsUp(rt) <==> IsOnline(rt)
  {
    if rt.info.Some? {
      AssociatedIff(rt.info.value.1);
    }
  }
}
