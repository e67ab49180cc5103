// Activation of a station: peers on its radio are disabled, the station is enabled
// and pinned, and everything becomes permanent in one commit.
module UbusActivate {
  import opened Text
  import opened Uci
  import opened UbusStore
  import opened UbusRefinement

  const DISABLE := map["disabled" := "1"]

  function Pin(bssid: string): map<string, string> {
    map["disabled" := "0", "bssid" := Lower(bssid)]
  }

  // The config an activation is meant to commit, section by section.
  ghost function Activated(cfg: Config, cur: Iface, bssid: string): Config {
    map name | name in cfg ::
      if name == cur.section then Merge(cfg[name], Pin(bssid))
      else if IsStation(cfg[name]) && IsRival(cur, ToIface(name, cfg[name])) then Merge(cfg[name], DISABLE)
      else cfg[name]
  }

  ghost predicate IsHit(cur: Iface, stas: seq<Iface>, name: string) {
    exists w :: w in stas && w.section == name && IsRival(cur, w)
  }

  ghost function Disabled(cfg: Config, cur: Iface, stas: seq<Iface>): Config {
    map name | name in cfg :: if IsHit(cur, stas, name) then Merge(cfg[name], DISABLE) else cfg[name]
  }

  lemma MergeTwice(s: Section, values: map<string, string>)
    ensures Merge(Merge(s, values), values) == Merge(s, values)
  {
  }

  lemma HitCons(cur: Iface, stas: seq<Iface>, name: string)
    requires stas != []
    ensures IsHit(cur, stas, name) <==>
              (stas[0].section == name && IsRival(cur, stas[0])) || IsHit(cur, stas[1..], name)
  {
    if IsHit(cur, stas, name) {
      var w :| w in stas && w.section == name && IsRival(cur, w);
      assert w == stas[0] || w in stas[1..];
    }
  }

  lemma DisabledCons(cfg: Config, cur: Iface, stas: seq<Iface>)
    requires stas != [] && stas[0].section in cfg
    ensures var name := stas[0].section;
            var cfg1 := if IsRival(cur, stas[0]) then cfg[name := Merge(cfg[name], DISABLE)] else cfg;
            Disabled(cfg, cur, stas) == Disabled(cfg1, cur, stas[1..])
  {
    forall name
      ensures IsHit(cur, stas, name) <==>
              (stas[0].section == name && IsRival(cur, stas[0])) || IsHit(cur, stas[1..], name)
    {
      HitCons(cur, stas, name);
    }
    MergeTwice(cfg[stas[0].section], DISABLE);
  }

  lemma {:induction false} DisableEffect(n: Node, cur: Iface, stas: seq<Iface>)
    requires forall w :: w in stas ==> w.section in n.staged
    ensures After(n, DisablePlan(cur, stas)) == Node(Disabled(n.staged, cur, stas), n.committed)
    decreases |stas|
  {
    if stas == [] {
      assert Disabled(n.staged, cur, stas) == n.staged;
    } else {
      var w, rest := stas[0], DisablePlan(cur, stas[1..]);
      assert w in stas;
      DisabledCons(n.staged, cur, stas);
      if IsRival(cur, w) {
        var plan := [Set(w.section, DISABLE)] + rest;
        assert plan[1..] == rest;
        DisableEffect(Apply(n, plan[0]), cur, stas[1..]);
      } else {
        assert [] + rest == rest;
        DisableEffect(n, cur, stas[1..]);
      }
    }
  }

  lemma HitIff(cfg: Config, cur: Iface, order: seq<string>, name: string)
    requires IsOrder(order, cfg) && name in cfg
    ensures IsHit(cur, Stations(cfg, order), name) <==> IsStation(cfg[name]) && IsRival(cur, ToIface(name, cfg[name]))
  {
    StationsMeaning(cfg, order);
    if IsStation(cfg[name]) {
      assert ToIface(name, cfg[name]) in Stations(cfg, order);
    }
  }

  lemma DisabledAt(cfg: Config, cur: Iface, order: seq<string>, bssid: string, name: string)
    requires IsOrder(order, cfg) && name in cfg && name != cur.section
    ensures Disabled(cfg, cur, Stations(cfg, order))[name] == Activated(cfg, cur, bssid)[name]
  {
    HitIff(cfg, cur, order, name);
  }

  lemma TargetIsNoHit(cfg: Config, cur: Iface, stas: seq<Iface>)
    requires cur.section in cfg
    ensures Disabled(cfg, cur, stas)[cur.section] == cfg[cur.section]
  {
  }

  // The disabled config once the target is pinned as well.
  ghost function Pinned(cfg: Config, cur: Iface, stas: seq<Iface>, bssid: string): Config
    requires cur.section in cfg
  {
    Disabled(cfg, cur, stas)[cur.section := Merge(Disabled(cfg, cur, stas)[cur.section], Pin(bssid))]
  }

  lemma PinnedAt(cfg: Config, cur: Iface, order: seq<string>, bssid: string, name: string)
    requires IsOrder(order, cfg) && IsStationAt(cfg, cur) && name in cfg
    ensures Pinned(cfg, cur, Stations(cfg, order), bssid)[name] == Activated(cfg, cur, bssid)[name]
  {
    if name == cur.section {
      TargetIsNoHit(cfg, cur, Stations(cfg, order));
    } else {
      DisabledAt(cfg, cur, order, bssid, name);
    }
  }

  lemma DisabledThenPinned(cfg: Config, cur: Iface, order: seq<string>, bssid: string)
    requires IsOrder(order, cfg) && IsStationAt(cfg, cur)
    ensures Pinned(cfg, cur, Stations(cfg, order), bssid) == Activated(cfg, cur, bssid)
  {
    forall name | name in cfg
      ensures Pinned(cfg, cur, Stations(cfg, order), bssid)[name] == Activated(cfg, cur, bssid)[name]
    {
      PinnedAt(cfg, cur, order, bssid, name);
    }
    SameConfig(Pinned(cfg, cur, Stations(cfg, order), bssid), Activated(cfg, cur, bssid));
  }

  lemma SameConfig(a: Config, b: Config)
    requires a.Keys == b.Keys && forall name :: name in a.Keys ==> a[name] == b[name]
    ensures a == b
  {
  }

  // The complete plan commits the activated config, whatever order the stations
  // are visited in.
  lemma ActivateEffect(n: Node, cur: Iface, order: seq<string>, bssid: string)
    requires IsOrder(order, n.staged) && IsStationAt(n.staged, cur)
    ensures var cfg' := Activated(n.staged, cur, bssid);
            After(n, ActivatePlan(cur, Stations(n.staged, order), bssid)) == Node(cfg', cfg')
  {
    var stas := Stations(n.staged, order);
    StationsMeaning(n.staged, order);
    DisableEffect(n, cur, stas);
    DisabledThenPinned(n.staged, cur, order, bssid);
    AfterAppend(n, DisablePlan(cur, stas), [Set(cur.section, Pin(bssid)), Commit]);
    AfterTwo(After(n, DisablePlan(cur, stas)), Set(cur.section, Pin(bssid)));
  }

  lemma MergedOption(s: Section, values: map<string, string>, key: string)
    ensures Opt(Merge(s, values), key) == if key in values then values[key] else Opt(s, key)
  {
  }

  lemma PinnedOption(s: Section, bssid: string, key: string)
    ensures Opt(Merge(s, Pin(bssid)), key)
            == if key == "disabled" then "0" else if key == "bssid" then Lower(bssid) else Opt(s, key)
  {
    MergedOption(s, Pin(bssid), key);
  }

  lemma PinnedOptions(s: Section, bssid: string)
    ensures forall key :: Opt(Merge(s, Pin(bssid)), key)
                          == if key == "disabled" then "0" else if key == "bssid" then Lower(bssid) else Opt(s, key)
  {
    forall key
      ensures Opt(Merge(s, Pin(bssid)), key)
              == if key == "disabled" then "0" else if key == "bssid" then Lower(bssid) else Opt(s, key)
    {
      PinnedOption(s, bssid, key);
    }
  }

  lemma PinnedIface(name: string, s: Section, bssid: string)
    requires IsStation(s)
    ensures IsStation(Merge(s, Pin(bssid)))
    ensures ToIface(name, Merge(s, Pin(bssid))) == ToIface(name, s).(disabled := false, bssid := Lower(bssid))
  {
    UciBoolRoundTrip(false);
    PinnedOptions(s, bssid);
  }

  // The target is enabled and pinned (or unpinned) as asked, and keeps every other
  // option.
  lemma ActivatedTarget(cfg: Config, cur: Iface, bssid: string)
    requires IsStationAt(cfg, cur)
    ensures var cfg' := Activated(cfg, cur, bssid);
            && IsStationAt(cfg', cur.(disabled := false, bssid := Lower(bssid)))
            && (forall key :: key != "disabled" && key != "bssid" ==>
                  Opt(cfg'[cur.section], key) == Opt(cfg[cur.section], key))
  {
    PinnedIface(cur.section, cfg[cur.section], bssid);
  }

  lemma ActivatedElsewhere(cfg: Config, cur: Iface, bssid: string, name: string)
    requires name in cfg && name != cur.section
    ensures var s, s' := cfg[name], Activated(cfg, cur, bssid)[name];
            && s'.typ == s.typ && IsStation(s') == IsStation(s)
            && (forall key :: key != "disabled" ==> Opt(s', key) == Opt(s, key))
            && (IsStation(s) && Opt(s, "device") == cur.device ==> UciBool(Opt(s', "disabled")))
            && (!IsStation(s) || Opt(s, "device") != cur.device || UciBool(Opt(s, "disabled")) ==> s' == s)
  {
    UciBoolRoundTrip(true);
    var s' := Activated(cfg, cur, bssid)[name];
    assert Opt(s', "mode") == Opt(cfg[name], "mode");
  }

  // The target ends as the only enabled station on its radio; access points, stations
  // on other radios and stations that were disabled are exactly as staged before,
  // and a rival loses nothing but its enabled flag.
  lemma ActivatedIsExclusive(cfg: Config, cur: Iface, bssid: string)
    requires IsStationAt(cfg, cur)
    ensures var cfg' := Activated(cfg, cur, bssid);
            && cfg'.Keys == cfg.Keys
            && (forall name :: name in cfg' && IsStation(cfg'[name]) && Opt(cfg'[name], "device") == cur.device ==>
                  (UciBool(Opt(cfg'[name], "disabled")) <==> name != cur.section))
            && (forall name :: name in cfg && name != cur.section
                  && (|| !IsStation(cfg[name])
                      || Opt(cfg[name], "device") != cur.device
                      || UciBool(Opt(cfg[name], "disabled")))
                  ==> cfg'[name] == cfg[name])
            && (forall name, key :: name in cfg && name != cur.section && key != "disabled" ==>
                  cfg'[name].typ == cfg[name].typ && Opt(cfg'[name], key) == Opt(cfg[name], key))
  {
    ActivatedTarget(cfg, cur, bssid);
    forall name | name in cfg && name != cur.section
      ensures var s, s' := cfg[name], Activated(cfg, cur, bssid)[name];
              && s'.typ == s.typ && IsStation(s') == IsStation(s)
              && (forall key :: key != "disabled" ==> Opt(s', key) == Opt(s, key))
              && (IsStation(s) && Opt(s, "device") == cur.device ==> UciBool(Opt(s', "disabled")))
              && (!IsStation(s) || Opt(s, "device") != cur.device || UciBool(Opt(s, "disabled")) ==> s' == s)
    {
      ActivatedElsewhere(cfg, cur, bssid, name);
    }
  }

  // Before its last command an activation commits nothing, so the committed config
  // is the old one or the activated one, wherever the call fails.
  lemma ActivateIsAllOrNothing(n: Node, cur: Iface, order: seq<string>, bssid: string, k: nat)
    requires IsOrder(order, n.staged) && IsStationAt(n.staged, cur)
    requires k <= |ActivatePlan(cur, Stations(n.staged, order), bssid)|
    ensures var plan := ActivatePlan(cur, Stations(n.staged, order), bssid);
            After(n, plan[..k]).committed
            == if k < |plan| then n.committed else Activated(n.staged, cur, bssid)
  {
    var plan := ActivatePlan(cur, Stations(n.staged, order), bssid);
    if k == |plan| {
      assert plan[..k] == plan;
      ActivateEffect(n, cur, order, bssid);
    } else {
      DisablePlanHasNoCommit(cur, Stations(n.staged, order));
      NoCommit(n, plan[..k]);
    }
  }

  lemma {:induction false} DisablePlanHasNoCommit(cur: Iface, stas: seq<Iface>)
    ensures forall i :: 0 <= i < |DisablePlan(cur, stas)| ==> !DisablePlan(cur, stas)[i].Commit?
  {
    if stas != [] {
      DisablePlanHasNoCommit(cur, stas[1..]);
    }
  }

  lemma {:induction false} NoCommit(n: Node, plan: seq<Cmd>)
    requires forall i :: 0 <= i < |plan| ==> !plan[i].Commit?
    ensures After(n, plan).committed == n.committed
    decreases |plan|
  {
    if plan != [] {
      NoCommit(Apply(n, plan[0]), plan[1..]);
    }
  }

  // Deactivation clears one flag: its station is disabled, all else is as staged.
  lemma DeactivateEffect(n: Node, w: Iface)
    requires IsStationAt(n.staged, w)
    ensures var n' := After(n, DeactivatePlan(w));
            && n'.staged == n'.committed
            && n'.staged.Keys == n.staged.Keys
            && ToIface(w.section, n'.staged[w.section]) == w.(disabled := true)
            && SameElsewhere(n.staged, n'.staged, {w.section})
  {
    UciBoolRoundTrip(true);
    AfterTwo(n, Set(w.section, DISABLE));
  }

  // Of that section, every other option stays as well.
  lemma DeactivateKeepsOptions(n: Node, w: Iface)
    requires IsStationAt(n.staged, w)
    ensures var s, cfg' := n.staged[w.section], After(n, DeactivatePlan(w)).committed;
            && w.section in cfg' && cfg'[w.section].typ == s.typ
            && (forall key :: Opt(cfg'[w.section], key) == if key == "disabled" then "1" else Opt(s, key))
  {
    AfterTwo(n, Set(w.section, DISABLE));
  }
}
