// An activation that stops midway: what it leaves in the staged config, that repeating
// it makes up for that, and what any other request would commit along.
module UbusInterrupted {
  import opened Text
  import opened Wnet
  import opened Uci
  import opened UbusStore
  import opened UbusRefinement
  import opened UbusActivate
  import opened UbusBackend

  // ---- what a stopped activation leaves ---------------------------------------------------

  // The commands up to the k-th are those for the first few stations visited.
  lemma {:induction false} StoppedWithin(cur: Iface, stas: seq<Iface>, k: nat) returns (j: nat)
    requires k <= |DisablePlan(cur, stas)|
    ensures j <= |stas| && DisablePlan(cur, stas[..j]) == DisablePlan(cur, stas)[..k]
  {
    if k == 0 {
      j := 0;
      assert stas[..0] == [];
    } else {
      var head := if IsRival(cur, stas[0]) then [Set(stas[0].section, map["disabled" := "1"])] else [];
      var rest := DisablePlan(cur, stas[1..]);
      var i := StoppedWithin(cur, stas[1..], k - |head|);
      j := i + 1;
      assert stas[..j] == [stas[0]] + stas[1..][..i];
      assert stas[..j][1..] == stas[1..][..i];
      assert (head + rest)[..k] == head + rest[..k - |head|];
    }
  }

  // The stations whose flag the first k commands have set.
  ghost predicate IsSwitchedOff(cur: Iface, stas: seq<Iface>, k: nat, name: string)
    requires k <= |DisablePlan(cur, stas)|
  {
    exists i :: 0 <= i < k && DisablePlan(cur, stas)[i] == Set(name, DISABLE)
  }

  lemma {:induction false} PlanHits(cur: Iface, stas: seq<Iface>, name: string)
    ensures IsHit(cur, stas, name) <==> IsSwitchedOff(cur, stas, |DisablePlan(cur, stas)|, name)
  {
    if stas != [] {
      PlanHits(cur, stas[1..], name);
      HitCons(cur, stas, name);
      var rest := DisablePlan(cur, stas[1..]);
      var head := |DisablePlan(cur, stas)| - |rest|;
      if IsSwitchedOff(cur, stas[1..], |rest|, name) {
        var i :| 0 <= i < |rest| && rest[i] == Set(name, DISABLE);
        assert DisablePlan(cur, stas)[i + head] == rest[i];
      }
      if IsSwitchedOff(cur, stas, |DisablePlan(cur, stas)|, name) {
        var i :| 0 <= i < |DisablePlan(cur, stas)| && DisablePlan(cur, stas)[i] == Set(name, DISABLE);
        assert i >= head ==> rest[i - head] == Set(name, DISABLE);
      }
      if IsRival(cur, stas[0]) && stas[0].section == name {
        assert DisablePlan(cur, stas)[0] == Set(name, DISABLE);
      }
    }
  }

  lemma DisablingEffect(n: Node, cur: Iface, order: seq<string>, j: nat)
    requires IsOrder(order, n.staged) && j <= |Stations(n.staged, order)|
    ensures var visited := Stations(n.staged, order)[..j];
            After(n, DisablePlan(cur, visited)) == Node(Disabled(n.staged, cur, visited), n.committed)
  {
    StationsAreSections(n.staged, order);
    DisableEffect(n, cur, Stations(n.staged, order)[..j]);
  }

  lemma SwitchedOffIsHit(cur: Iface, stas: seq<Iface>, j: nat, k: nat, name: string)
    requires j <= |stas| && k <= |DisablePlan(cur, stas)|
    requires DisablePlan(cur, stas[..j]) == DisablePlan(cur, stas)[..k]
    ensures IsHit(cur, stas[..j], name) <==> IsSwitchedOff(cur, stas, k, name)
  {
    PlanHits(cur, stas[..j], name);
  }

  lemma StoppedIsDisabled(n: Node, cur: Iface, order: seq<string>, k: nat) returns (j: nat)
    requires IsOrder(order, n.staged) && k <= |DisablePlan(cur, Stations(n.staged, order))|
    ensures j <= |Stations(n.staged, order)|
    ensures After(n, DisablePlan(cur, Stations(n.staged, order))[..k])
            == Node(Disabled(n.staged, cur, Stations(n.staged, order)[..j]), n.committed)
    ensures forall name :: IsHit(cur, Stations(n.staged, order)[..j], name) <==>
                           IsSwitchedOff(cur, Stations(n.staged, order), k, name)
  {
    var stas := Stations(n.staged, order);
    j := StoppedWithin(cur, stas, k);
    DisablingEffect(n, cur, order, j);
    forall name
      ensures IsHit(cur, stas[..j], name) <==> IsSwitchedOff(cur, stas, k, name)
    {
      SwitchedOffIsHit(cur, stas, j, k, name);
    }
  }

  // hits are some of the stations of cfg.
  ghost predicate AreStationsOf(stas: seq<Iface>, cfg: Config) {
    forall w :: w in stas ==> IsStationAt(cfg, w)
  }

  lemma VisitedAreStations(cfg: Config, order: seq<string>, j: nat)
    requires IsOrder(order, cfg) && j <= |Stations(cfg, order)|
    ensures AreStationsOf(Stations(cfg, order)[..j], cfg)
  {
    StationsMeaning(cfg, order);
  }

  lemma HitIsRival(cfg: Config, cur: Iface, stas: seq<Iface>, name: string)
    requires AreStationsOf(stas, cfg) && IsHit(cur, stas, name)
    ensures name in cfg && IsStation(cfg[name]) && IsRival(cur, ToIface(name, cfg[name]))
  {
  }

  lemma DisabledIface(name: string, s: Section)
    ensures IsStation(Merge(s, DISABLE)) == IsStation(s) && Merge(s, DISABLE).typ == s.typ
    ensures ToIface(name, Merge(s, DISABLE)) == ToIface(name, s).(disabled := true)
  {
    UciBoolRoundTrip(true);
    forall key: string
      ensures Opt(Merge(s, DISABLE), key) == if key in DISABLE then DISABLE[key] else Opt(s, key)
    {
      MergedOption(s, DISABLE, key);
    }
  }

  // ---- repeating the activation -------------------------------------------------------------

  // The same target, as it may look by now.
  predicate IsSameTarget(a: Iface, b: Iface) {
    a.section == b.section && a.device == b.device
  }

  lemma ActivatedAgain(cfg: Config, cur: Iface, again: Iface, bssid: string)
    requires IsStationAt(cfg, cur) && IsSameTarget(again, cur)
    ensures Activated(Activated(cfg, cur, bssid), again, bssid) == Activated(cfg, cur, bssid)
  {
    var once := Activated(cfg, cur, bssid);
    forall name | name in cfg
      ensures Activated(once, again, bssid)[name] == once[name]
    {
      if name == cur.section {
        MergeTwice(cfg[name], Pin(bssid));
      } else {
        DisabledIface(name, cfg[name]);
        MergeTwice(cfg[name], DISABLE);
      }
    }
  }

  lemma ActivatedAfterDisabled(cfg: Config, cur: Iface, again: Iface, hits: seq<Iface>, bssid: string)
    requires IsStationAt(cfg, cur) && IsSameTarget(again, cur) && AreStationsOf(hits, cfg)
    ensures Activated(Disabled(cfg, cur, hits), again, bssid) == Activated(cfg, cur, bssid)
  {
    var cfg1 := Disabled(cfg, cur, hits);
    forall name | name in cfg
      ensures Activated(cfg1, again, bssid)[name] == Activated(cfg, cur, bssid)[name]
    {
      if IsHit(cur, hits, name) {
        HitIsRival(cfg, cur, hits, name);
        DisabledIface(name, cfg[name]);
      }
    }
  }

  lemma TargetRemains(cfg: Config, cur: Iface, hits: seq<Iface>)
    requires IsStationAt(cfg, cur)
    ensures IsStationAt(Disabled(cfg, cur, hits), cur)
  {
  }

  // Stopped before its commit, an activation has staged everything.
  lemma StoppedIsPinned(n: Node, cur: Iface, order: seq<string>, bssid: string)
    requires IsOrder(order, n.staged) && IsStationAt(n.staged, cur)
    ensures var plan := ActivatePlan(cur, Stations(n.staged, order), bssid);
            After(n, plan[..|plan| - 1]) == Node(Activated(n.staged, cur, bssid), n.committed)
  {
    var plan := ActivatePlan(cur, Stations(n.staged, order), bssid);
    var init := plan[..|plan| - 1];
    assert plan == init + [Commit];
    ActivateEffect(n, cur, order, bssid);
    AfterOne(n, init, Commit);
    ActivateIsAllOrNothing(n, cur, order, bssid, |init|);
  }

  // The config may be half activated, but activating the station in it has the result
  // that activating it before would have had.
  ghost predicate ActivatesAlike(half: Config, cfg: Config, cur: Iface, bssid: string)
    requires IsStationAt(cfg, cur)
  {
    && half.Keys == cfg.Keys && IsStation(half[cur.section])
    && var again := ToIface(cur.section, half[cur.section]);
       IsSameTarget(again, cur) && Activated(half, again, bssid) == Activated(cfg, cur, bssid)
  }

  lemma DisabledActivatesAlike(cfg: Config, cur: Iface, hits: seq<Iface>, bssid: string)
    requires IsStationAt(cfg, cur) && AreStationsOf(hits, cfg)
    ensures ActivatesAlike(Disabled(cfg, cur, hits), cfg, cur, bssid)
  {
    TargetRemains(cfg, cur, hits);
    ActivatedAfterDisabled(cfg, cur, cur, hits, bssid);
  }

  lemma PinnedActivatesAlike(cfg: Config, cur: Iface, bssid: string)
    requires IsStationAt(cfg, cur)
    ensures ActivatesAlike(Activated(cfg, cur, bssid), cfg, cur, bssid)
  {
    ActivatedTarget(cfg, cur, bssid);
    ActivatedAgain(cfg, cur, cur.(disabled := false, bssid := Lower(bssid)), bssid);
  }

  lemma DisablingActivatesAlike(n: Node, cur: Iface, order: seq<string>, bssid: string, k: nat)
    requires IsOrder(order, n.staged) && IsStationAt(n.staged, cur)
    requires k <= |DisablePlan(cur, Stations(n.staged, order))|
    ensures ActivatesAlike(After(n, DisablePlan(cur, Stations(n.staged, order))[..k]).staged, n.staged, cur, bssid)
  {
    var j := StoppedIsDisabled(n, cur, order, k);
    VisitedAreStations(n.staged, order, j);
    DisabledActivatesAlike(n.staged, cur, Stations(n.staged, order)[..j], bssid);
  }

  lemma PlanPrefix(cur: Iface, stas: seq<Iface>, bssid: string, k: nat)
    requires k <= |DisablePlan(cur, stas)|
    ensures ActivatePlan(cur, stas, bssid)[..k] == DisablePlan(cur, stas)[..k]
  {
  }

  lemma StoppedActivatesAlike(n: Node, cur: Iface, order: seq<string>, bssid: string, k: nat)
    requires IsOrder(order, n.staged) && IsStationAt(n.staged, cur)
    requires k < |ActivatePlan(cur, Stations(n.staged, order), bssid)|
    ensures var half := After(n, ActivatePlan(cur, Stations(n.staged, order), bssid)[..k]).staged;
            ActivatesAlike(half, n.staged, cur, bssid)
  {
    var stas := Stations(n.staged, order);
    if k <= |DisablePlan(cur, stas)| {
      PlanPrefix(cur, stas, bssid, k);
      DisablingActivatesAlike(n, cur, order, bssid, k);
    } else {
      assert k == |ActivatePlan(cur, stas, bssid)| - 1;
      StoppedIsPinned(n, cur, order, bssid);
      PinnedActivatesAlike(n.staged, cur, bssid);
    }
  }

  // Wherever an activation of the station had stopped, completing the same activation
  // later commits exactly what the first one would have.
  lemma RepeatedActivationHeals(n: Node, cur: Iface, order: seq<string>, bssid: string, k: nat, order2: seq<string>)
    requires IsOrder(order, n.staged) && IsOrder(order2, n.staged) && IsStationAt(n.staged, cur)
    requires k < |ActivatePlan(cur, Stations(n.staged, order), bssid)|
    ensures var n1 := After(n, ActivatePlan(cur, Stations(n.staged, order), bssid)[..k]);
            && IsOrder(order2, n1.staged) && cur.section in n1.staged
            && var again := ToIface(cur.section, n1.staged[cur.section]);
               After(n1, ActivatePlan(again, Stations(n1.staged, order2), bssid))
               == Node(Activated(n.staged, cur, bssid), Activated(n.staged, cur, bssid))
  {
    StoppedActivatesAlike(n, cur, order, bssid, k);
    var n1 := After(n, ActivatePlan(cur, Stations(n.staged, order), bssid)[..k]);
    assert IsOrder(order2, n1.staged) by {
      assert forall name :: name in n1.staged <==> name in n.staged.Keys;
    }
    ActivateEffect(n1, ToIface(cur.section, n1.staged[cur.section]), order2, bssid);
  }

  // ---- other requests: their edits ------------------------------------------------------------

  // What a request other than an activation does to the config.
  datatype Edit =
    | InPlace(section: string, values: map<string, string>)
    | New(name: string, values: map<string, string>)
    | Move(name: string, values: map<string, string>, section: string)
    | Drop(section: string)

  function EditPlan(e: Edit): seq<Cmd> {
    match e
    case InPlace(section, values) => [Set(section, values), Commit]
    case New(name, values) => [Add(name, values), Commit]
    case Move(name, values, section) => [Add(name, values), Commit] + [Delete(section), Commit]
    case Drop(section) => [Delete(section), Commit]
  }

  // The section that has to exist.
  predicate IsEditOf(e: Edit, cfg: Config) {
    match e
    case InPlace(section, _) => section in cfg
    case New(_, _) => true
    case Move(_, _, section) => section in cfg
    case Drop(section) => section in cfg
  }

  function Edited(cfg: Config, e: Edit): Config
    requires IsEditOf(e, cfg)
  {
    match e
    case InPlace(section, values) => cfg[section := Merge(cfg[section], values)]
    case New(name, values) => cfg[name := Section("wifi-iface", values)]
    case Move(name, values, section) => cfg[name := Section("wifi-iface", values)] - {section}
    case Drop(section) => cfg - {section}
  }

  predicate Writes(e: Edit, name: string) {
    match e
    case InPlace(section, _) => name == section
    case New(added, _) => name == added
    case Move(added, _, section) => name == added || name == section
    case Drop(section) => name == section
  }

  lemma EditEffect(n: Node, e: Edit)
    requires IsEditOf(e, n.staged)
    ensures After(n, EditPlan(e)) == Node(Edited(n.staged, e), Edited(n.staged, e))
  {
    match e
    case InPlace(section, values) => AfterTwo(n, Set(section, values));
    case New(name, values) => AfterTwo(n, Add(name, values));
    case Move(name, values, section) => AfterFour(n, name, values, section);
    case Drop(section) => AfterTwo(n, Delete(section));
  }

  predicate SetsFlag(e: Edit) {
    e.InPlace? ==> "disabled" in e.values
  }

  lemma HitShows(cfg: Config, cur: Iface, hits: seq<Iface>, e: Edit, name: string)
    requires AreStationsOf(hits, cfg) && IsEditOf(e, cfg) && IsHit(cur, hits, name) && !Writes(e, name)
    ensures name in Edited(cfg, e) && name in Edited(Disabled(cfg, cur, hits), e)
    ensures Edited(Disabled(cfg, cur, hits), e)[name] != Edited(cfg, e)[name]
  {
    HitIsRival(cfg, cur, hits, name);
    DisabledIface(name, cfg[name]);
  }

  // An edit hides the flags that were set before it exactly if it writes all of their
  // sections.
  lemma EditHidesIff(cfg: Config, cur: Iface, hits: seq<Iface>, e: Edit)
    requires AreStationsOf(hits, cfg) && IsEditOf(e, cfg) && SetsFlag(e)
    ensures Edited(Disabled(cfg, cur, hits), e) == Edited(cfg, e)
            <==> forall name :: IsHit(cur, hits, name) ==> Writes(e, name)
  {
    if name :| IsHit(cur, hits, name) && !Writes(e, name) {
      HitShows(cfg, cur, hits, e, name);
    } else {
      forall name | name in Edited(cfg, e)
        ensures name in Edited(Disabled(cfg, cur, hits), e)
        ensures Edited(Disabled(cfg, cur, hits), e)[name] == Edited(cfg, e)[name]
      {
        EditAt(cfg, cur, hits, e, name);
      }
    }
  }

  lemma EditAt(cfg: Config, cur: Iface, hits: seq<Iface>, e: Edit, name: string)
    requires IsEditOf(e, cfg) && SetsFlag(e) && name in Edited(cfg, e)
    requires IsHit(cur, hits, name) ==> Writes(e, name)
    ensures name in Edited(Disabled(cfg, cur, hits), e)
    ensures Edited(Disabled(cfg, cur, hits), e)[name] == Edited(cfg, e)[name]
  {
    if e.InPlace? && name == e.section {
      MergeOver(cfg[name], e.values);
    }
  }

  lemma MergeOver(s: Section, values: map<string, string>)
    requires "disabled" in values
    ensures Merge(Merge(s, DISABLE), values) == Merge(s, values)
  {
  }

  // ---- the edit a request leads to --------------------------------------------------------------

  ghost function AddEdit(o: Options, radio: string, found: Option<Iface>, spec: ProfileSpec): Edit {
    match found
    case Some(w) => InPlace(w.section, StationValues(o, spec.ssid, spec.security, spec.autoconnect, w.key))
    case None =>
      New(SectionName(Key(spec.ssid, spec.security.kind)),
          StationValues(o, spec.ssid, spec.security, spec.autoconnect, "")["device" := radio])
  }

  ghost function PatchEdit(o: Options, radio: string, w: Iface, patch: ProfilePatch): Edit {
    var t := PatchTarget(w, patch);
    if Renames(w, t) then
      Move(SectionName(Key(t.ssid, t.sec.kind)),
           StationValues(o, t.ssid, CarriedSecurity(w, t.sec), t.autoconnect, "")["device" := radio], w.section)
    else InPlace(w.section, StationValues(o, t.ssid, t.sec, t.autoconnect, w.key))
  }

  ghost function Radio(cfg: Config, order: seq<string>, o: Options): string
    requires IsOrder(order, cfg)
  {
    match RadioFor(cfg, order, o)
    case Some(radio) => radio
    case None => ""
  }

  lemma ValuesSetFlag(o: Options, ssid: string, sec: Security, autoconnect: bool, key: string)
    ensures var v := StationValues(o, ssid, sec, autoconnect, key);
            "disabled" in v && v["disabled"] == BoolToUci(!autoconnect)
  {
  }

  lemma AddPlanIsEdit(cfg: Config, first: seq<string>, second: seq<string>, o: Options, spec: ProfileSpec)
    requires IsOrder(first, cfg) && IsOrder(second, cfg) && PlanFor(cfg, first, second, o, AddRequest(spec)).Ok?
    ensures var found := FindById(Stations(cfg, first), IdOf(Key(spec.ssid, spec.security.kind)));
            var e := AddEdit(o, Radio(cfg, second, o), found, spec);
            PlanFor(cfg, first, second, o, AddRequest(spec)).value == EditPlan(e) && IsEditOf(e, cfg) && SetsFlag(e)
  {
    var id := IdOf(Key(spec.ssid, spec.security.kind));
    var found := FindById(Stations(cfg, first), id);
    if found.Some? {
      FoundStation(cfg, first, id);
      ValuesSetFlag(o, spec.ssid, spec.security, spec.autoconnect, found.value.key);
    }
  }

  lemma PatchPlanIsEdit(cfg: Config, first: seq<string>, second: seq<string>, o: Options,
                        id: ProfileId, patch: ProfilePatch)
    requires IsOrder(first, cfg) && IsOrder(second, cfg) && PlanFor(cfg, first, second, o, PatchRequest(id, patch)).Ok?
    ensures FindById(Stations(cfg, first), id).Some?
    ensures var w := FindById(Stations(cfg, first), id).value;
            var e := PatchEdit(o, Radio(cfg, second, o), w, patch);
            && PlanFor(cfg, first, second, o, PatchRequest(id, patch)).value == EditPlan(e)
            && IsEditOf(e, cfg) && SetsFlag(e)
  {
    FoundStation(cfg, first, id);
    var w := FindById(Stations(cfg, first), id).value;
    var t := PatchTarget(w, patch);
    ValuesSetFlag(o, t.ssid, t.sec, t.autoconnect, w.key);
  }

  // ---- what requests see of a stopped activation ---------------------------------------------------

  function Switched(w: Iface, off: bool): Iface {
    if off then w.(disabled := true) else w
  }

  lemma StationInDisabled(cfg: Config, cur: Iface, hits: seq<Iface>, name: string)
    requires name in cfg && AreStationsOf(hits, cfg)
    ensures var s, s' := cfg[name], Disabled(cfg, cur, hits)[name];
            IsStation(s') == IsStation(s) && ToIface(name, s') == Switched(ToIface(name, s), IsHit(cur, hits, name))
  {
    DisabledIface(name, cfg[name]);
  }

  lemma FindNext(cfg: Config, order: seq<string>, id: ProfileId)
    requires order != [] && forall name :: name in order ==> name in cfg
    ensures var w := ToIface(order[0], cfg[order[0]]);
            FindById(Stations(cfg, order), id)
            == if IsStation(cfg[order[0]]) && IdOf(KeyOf(w)) == id then Some(w)
               else FindById(Stations(cfg, order[1..]), id)
  {
    var rest := Stations(cfg, order[1..]);
    if IsStation(cfg[order[0]]) {
      assert ([ToIface(order[0], cfg[order[0]])] + rest)[1..] == rest;
    } else {
      assert [] + rest == rest;
    }
  }

  lemma {:induction false} FoundInDisabled(cfg: Config, cur: Iface, hits: seq<Iface>, order: seq<string>, id: ProfileId)
    requires (forall name :: name in order ==> name in cfg) && AreStationsOf(hits, cfg)
    ensures FindById(Stations(Disabled(cfg, cur, hits), order), id)
            == match FindById(Stations(cfg, order), id)
               case Some(w) => Some(Switched(w, IsHit(cur, hits, w.section)))
               case None => None
  {
    var cfg1 := Disabled(cfg, cur, hits);
    if order == [] {
      assert FindById(Stations(cfg1, order), id) == None == FindById(Stations(cfg, order), id);
    } else {
      FoundInDisabled(cfg, cur, hits, order[1..], id);
      FindNext(cfg, order, id);
      FindNext(cfg1, order, id);
      StationInDisabled(cfg, cur, hits, order[0]);
    }
  }

  lemma {:induction false} RadioInDisabled(cfg: Config, cur: Iface, hits: seq<Iface>, order: seq<string>)
    requires forall name :: name in order ==> name in cfg
    ensures FirstRadio(Disabled(cfg, cur, hits), order) == FirstRadio(cfg, order)
  {
    if order != [] {
      RadioInDisabled(cfg, cur, hits, order[1..]);
    }
  }

  lemma SameRadio(cfg: Config, cur: Iface, hits: seq<Iface>, order: seq<string>, o: Options)
    requires IsOrder(order, cfg) && IsOrder(order, Disabled(cfg, cur, hits))
    ensures Radio(Disabled(cfg, cur, hits), order, o) == Radio(cfg, order, o)
  {
    RadioInDisabled(cfg, cur, hits, order);
  }

  // ---- what a request commits along --------------------------------------------------------------

  // The id by which a request finds its station.
  function RequestId(q: Request): ProfileId {
    match q
    case AddRequest(spec) => IdOf(Key(spec.ssid, spec.security.kind))
    case _ => q.id
  }

  predicate IsOnRadio(cfg: Config, name: string, radio: string) {
    name in cfg && Opt(cfg[name], "device") == radio
  }

  // The request decides itself on the flag of a section of the given radio: an add, a
  // delete and a deactivation do for their own section; a patch does if it sets the
  // flag, and for the section that it renames to; an activation does for its own
  // section and, if its station is on that radio, for every other one there.
  predicate Decides(cfg: Config, radio: string, q: Request, k: Key, name: string) {
    match q
    case PatchRequest(_, patch) =>
      || (name == SectionName(k) && patch.autoconnect.Some?)
      || (name == SectionName(PatchedKey(k, patch)) && PatchedKey(k, patch) != k)
    case ActivateRequest(_, _) =>
      name == SectionName(k) || IsOnRadio(cfg, SectionName(k), radio)
    case _ => name == SectionName(k)
  }

  // The request decides on every flag that the hits had set.
  ghost predicate DecidesAll(cfg: Config, q: Request, k: Key, cur: Iface, hits: seq<Iface>) {
    forall name :: IsHit(cur, hits, name) ==> Decides(cfg, cur.device, q, k, name)
  }

  // A request carried out over cfg, and over the same config with some rivals
  // disabled.
  ghost predicate AreBothEdits(cfg: Config, cur: Iface, hits: seq<Iface>, first: seq<string>, second: seq<string>,
                               o: Options, q: Request)
  {
    && IsNamed(cfg) && AreStationsOf(hits, cfg)
    && IsOrder(first, cfg) && IsOrder(second, cfg)
    && IsOrder(first, Disabled(cfg, cur, hits)) && IsOrder(second, Disabled(cfg, cur, hits))
    && PlanFor(cfg, first, second, o, q).Ok? && PlanFor(Disabled(cfg, cur, hits), first, second, o, q).Ok?
  }

  ghost predicate AreEdits(cfg: Config, cur: Iface, hits: seq<Iface>, first: seq<string>, second: seq<string>,
                           o: Options, q: Request, e: Edit, e1: Edit)
    requires AreBothEdits(cfg, cur, hits, first, second, o, q)
  {
    && PlanFor(cfg, first, second, o, q).value == EditPlan(e) && IsEditOf(e, cfg)
    && PlanFor(Disabled(cfg, cur, hits), first, second, o, q).value == EditPlan(e1)
    && IsEditOf(e1, Disabled(cfg, cur, hits))
    && SetsFlag(e)
  }

  lemma AddEdits(cfg: Config, cur: Iface, hits: seq<Iface>, first: seq<string>, second: seq<string>,
                 o: Options, spec: ProfileSpec)
    returns (e: Edit)
    requires AreBothEdits(cfg, cur, hits, first, second, o, AddRequest(spec))
    ensures AreEdits(cfg, cur, hits, first, second, o, AddRequest(spec), e, e)
    ensures forall name :: Writes(e, name) <==> name == SectionName(Key(spec.ssid, spec.security.kind))
  {
    var k := Key(spec.ssid, spec.security.kind);
    AddPlanIsEdit(cfg, first, second, o, spec);
    AddPlanIsEdit(Disabled(cfg, cur, hits), first, second, o, spec);
    FoundInDisabled(cfg, cur, hits, first, IdOf(k));
    SameRadio(cfg, cur, hits, second, o);
    var found := FindById(Stations(cfg, first), IdOf(k));
    e := AddEdit(o, Radio(cfg, second, o), found, spec);
    if found.Some? {
      FoundStation(cfg, first, IdOf(k));
      IdInjective(KeyOf(found.value), k);
    }
  }

  // What the two requests that only name a station find.
  lemma FoundBoth(cfg: Config, cur: Iface, hits: seq<Iface>, first: seq<string>, k: Key)
    requires IsNamed(cfg) && AreStationsOf(hits, cfg) && IsOrder(first, cfg)
    requires FindById(Stations(cfg, first), IdOf(k)).Some?
    ensures var w := FindById(Stations(cfg, first), IdOf(k)).value;
            && IsStationAt(cfg, w) && KeyOf(w) == k && w.section == SectionName(k)
            && FindById(Stations(Disabled(cfg, cur, hits), first), IdOf(k))
               == Some(Switched(w, IsHit(cur, hits, w.section)))
  {
    FoundStation(cfg, first, IdOf(k));
    IdInjective(KeyOf(FindById(Stations(cfg, first), IdOf(k)).value), k);
    FoundInDisabled(cfg, cur, hits, first, IdOf(k));
  }

  lemma DeleteEdits(cfg: Config, cur: Iface, hits: seq<Iface>, first: seq<string>, second: seq<string>,
                    o: Options, k: Key)
    returns (e: Edit)
    requires AreBothEdits(cfg, cur, hits, first, second, o, DeleteRequest(IdOf(k)))
    ensures AreEdits(cfg, cur, hits, first, second, o, DeleteRequest(IdOf(k)), e, e)
    ensures forall name :: Writes(e, name) <==> name == SectionName(k)
  {
    FoundBoth(cfg, cur, hits, first, k);
    e := Drop(SectionName(k));
  }

  lemma FoundSections(cfg: Config, cur: Iface, hits: seq<Iface>, first: seq<string>, k: Key)
    requires IsNamed(cfg) && AreStationsOf(hits, cfg)
    requires IsOrder(first, cfg) && IsOrder(first, Disabled(cfg, cur, hits))
    requires FindById(Stations(cfg, first), IdOf(k)).Some?
    ensures FindById(Stations(cfg, first), IdOf(k)).value.section == SectionName(k)
    ensures var f := FindById(Stations(Disabled(cfg, cur, hits), first), IdOf(k));
            f.Some? && f.value.section == SectionName(k)
    ensures SectionName(k) in cfg && SectionName(k) in Disabled(cfg, cur, hits)
  {
    FoundBoth(cfg, cur, hits, first, k);
  }

  lemma DeactivatePlanFor(cfg: Config, first: seq<string>, second: seq<string>, o: Options, id: ProfileId, w: Iface)
    requires IsOrder(first, cfg) && IsOrder(second, cfg) && FindById(Stations(cfg, first), id) == Some(w)
    ensures PlanFor(cfg, first, second, o, DeactivateRequest(id)) == Ok(DeactivatePlan(w))
  {
  }

  lemma DeactivatePlanIsEdit(cfg: Config, first: seq<string>, second: seq<string>, o: Options, k: Key)
    requires IsOrder(first, cfg) && IsOrder(second, cfg)
    requires var f := FindById(Stations(cfg, first), IdOf(k)); f.Some? && f.value.section == SectionName(k)
    ensures var plan := PlanFor(cfg, first, second, o, DeactivateRequest(IdOf(k)));
            plan.Ok? && plan.value == EditPlan(InPlace(SectionName(k), DISABLE))
  {
    DeactivatePlanFor(cfg, first, second, o, IdOf(k), FindById(Stations(cfg, first), IdOf(k)).value);
  }

  lemma DeactivateEdits(cfg: Config, cur: Iface, hits: seq<Iface>, first: seq<string>, second: seq<string>,
                        o: Options, k: Key)
    returns (e: Edit)
    requires AreBothEdits(cfg, cur, hits, first, second, o, DeactivateRequest(IdOf(k)))
    ensures AreEdits(cfg, cur, hits, first, second, o, DeactivateRequest(IdOf(k)), e, e)
    ensures forall name :: Writes(e, name) <==> name == SectionName(k)
  {
    FoundSections(cfg, cur, hits, first, k);
    e := InPlace(SectionName(k), DISABLE);
    DeactivatePlanIsEdit(cfg, first, second, o, k);
    DeactivatePlanIsEdit(Disabled(cfg, cur, hits), first, second, o, k);
  }

  lemma PatchEdits(cfg: Config, cur: Iface, hits: seq<Iface>, first: seq<string>, second: seq<string>,
                   o: Options, k: Key, patch: ProfilePatch)
    returns (w: Iface, e: Edit, e1: Edit)
    requires AreBothEdits(cfg, cur, hits, first, second, o, PatchRequest(IdOf(k), patch))
    ensures AreEdits(cfg, cur, hits, first, second, o, PatchRequest(IdOf(k), patch), e, e1)
    ensures IsStationAt(cfg, w) && KeyOf(w) == k && w.section == SectionName(k)
    ensures var radio := Radio(cfg, second, o);
            && e == PatchEdit(o, radio, w, patch)
            && e1 == PatchEdit(o, radio, Switched(w, IsHit(cur, hits, w.section)), patch)
  {
    var q := PatchRequest(IdOf(k), patch);
    PatchPlanIsEdit(cfg, first, second, o, IdOf(k), patch);
    PatchPlanIsEdit(Disabled(cfg, cur, hits), first, second, o, IdOf(k), patch);
    FoundBoth(cfg, cur, hits, first, k);
    SameRadio(cfg, cur, hits, second, o);
    w := FindById(Stations(cfg, first), IdOf(k)).value;
    e := PatchEdit(o, Radio(cfg, second, o), w, patch);
    e1 := PatchEdit(o, Radio(cfg, second, o), Switched(w, IsHit(cur, hits, w.section)), patch);
  }

  lemma PatchWrites(o: Options, radio: string, w: Iface, patch: ProfilePatch, name: string)
    ensures var k, k' := KeyOf(w), PatchedKey(KeyOf(w), patch);
            Writes(PatchEdit(o, radio, w, patch), name) <==> name == w.section || (k' != k && name == SectionName(k'))
  {
  }

  lemma PatchSwitched(o: Options, radio: string, w: Iface, off: bool, patch: ProfilePatch)
    ensures patch.autoconnect.Some? || !off ==>
              PatchEdit(o, radio, Switched(w, off), patch) == PatchEdit(o, radio, w, patch)
  {
  }

  // A patch that leaves the flag alone writes it as it finds it.
  lemma PatchCopiesFlag(cfg: Config, cur: Iface, hits: seq<Iface>, o: Options, radio: string,
                        w: Iface, patch: ProfilePatch)
    requires AreStationsOf(hits, cfg) && IsStationAt(cfg, w) && w.section == SectionName(KeyOf(w))
    requires IsHit(cur, hits, w.section) && patch.autoconnect.None?
    requires IsEditOf(PatchEdit(o, radio, w, patch), cfg)
    requires IsEditOf(PatchEdit(o, radio, Switched(w, true), patch), Disabled(cfg, cur, hits))
    ensures Edited(Disabled(cfg, cur, hits), PatchEdit(o, radio, Switched(w, true), patch))
            != Edited(cfg, PatchEdit(o, radio, w, patch))
  {
    HitIsRival(cfg, cur, hits, w.section);
    var e, e1 := PatchEdit(o, radio, w, patch), PatchEdit(o, radio, Switched(w, true), patch);
    var t, k' := PatchTarget(w, patch), PatchedKey(KeyOf(w), patch);
    var name := if Renames(w, t) then SectionName(k') else w.section;
    SectionNameInjective(KeyOf(w), k');
    ValuesSetFlag(o, t.ssid, t.sec, true, w.key);
    ValuesSetFlag(o, t.ssid, t.sec, false, w.key);
    ValuesSetFlag(o, t.ssid, CarriedSecurity(w, t.sec), true, "");
    ValuesSetFlag(o, t.ssid, CarriedSecurity(w, t.sec), false, "");
    assert Opt(Edited(cfg, e)[name], "disabled") == "0";
    assert Opt(Edited(Disabled(cfg, cur, hits), e1)[name], "disabled") == "1";
  }

  lemma PatchHidesIff(cfg: Config, cur: Iface, hits: seq<Iface>, first: seq<string>, second: seq<string>,
                      o: Options, k: Key, patch: ProfilePatch)
    returns (e: Edit, e1: Edit)
    requires AreBothEdits(cfg, cur, hits, first, second, o, PatchRequest(IdOf(k), patch))
    ensures AreEdits(cfg, cur, hits, first, second, o, PatchRequest(IdOf(k), patch), e, e1)
    ensures Edited(Disabled(cfg, cur, hits), e1) == Edited(cfg, e)
            <==> DecidesAll(cfg, PatchRequest(IdOf(k), patch), k, cur, hits)
  {
    var q, radio := PatchRequest(IdOf(k), patch), Radio(cfg, second, o);
    var w;
    w, e, e1 := PatchEdits(cfg, cur, hits, first, second, o, k, patch);
    var off := IsHit(cur, hits, w.section);
    SectionNameInjective(k, PatchedKey(k, patch));
    if off && patch.autoconnect.None? {
      PatchCopiesFlag(cfg, cur, hits, o, radio, w, patch);
      assert !Decides(cfg, cur.device, q, k, w.section);
    } else {
      PatchSwitched(o, radio, w, off, patch);
      EditHidesIff(cfg, cur, hits, e);
      forall name | IsHit(cur, hits, name)
        ensures Writes(e, name) <==> Decides(cfg, cur.device, q, k, name)
      {
        PatchWrites(o, radio, w, patch, name);
      }
    }
  }

  // The two edits of a request, and when they end alike.
  lemma RequestHidesIff(cfg: Config, cur: Iface, hits: seq<Iface>, first: seq<string>, second: seq<string>,
                        o: Options, q: Request, k: Key)
    returns (e: Edit, e1: Edit)
    requires AreBothEdits(cfg, cur, hits, first, second, o, q) && !q.ActivateRequest? && RequestId(q) == IdOf(k)
    ensures AreEdits(cfg, cur, hits, first, second, o, q, e, e1)
    ensures Edited(Disabled(cfg, cur, hits), e1) == Edited(cfg, e) <==> DecidesAll(cfg, q, k, cur, hits)
  {
    match q
    case AddRequest(spec) =>
      IdInjective(Key(spec.ssid, spec.security.kind), k);
      e := AddEdits(cfg, cur, hits, first, second, o, spec);
      e1 := e;
      EditHidesIff(cfg, cur, hits, e);
    case PatchRequest(id, patch) =>
      e, e1 := PatchHidesIff(cfg, cur, hits, first, second, o, k, patch);
    case DeleteRequest(id) =>
      e := DeleteEdits(cfg, cur, hits, first, second, o, k);
      e1 := e;
      EditHidesIff(cfg, cur, hits, e);
    case DeactivateRequest(id) =>
      e := DeactivateEdits(cfg, cur, hits, first, second, o, k);
      e1 := e;
      EditHidesIff(cfg, cur, hits, e);
  }

  // ---- another activation -----------------------------------------------------------------------

  lemma HitOnOtherRadio(cfg: Config, cur: Iface, hits: seq<Iface>, other: Iface, bssid: string, name: string)
    requires AreStationsOf(hits, cfg) && IsStationAt(cfg, other) && IsHit(cur, hits, name)
    requires name != other.section && other.device != cur.device
    ensures name in cfg
    ensures Activated(Disabled(cfg, cur, hits), other, bssid)[name] != Activated(cfg, other, bssid)[name]
  {
    HitIsRival(cfg, cur, hits, name);
    DisabledIface(name, cfg[name]);
  }

  lemma ActivatedAt(cfg: Config, cur: Iface, hits: seq<Iface>, other: Iface, bssid: string, name: string)
    requires AreStationsOf(hits, cfg) && IsStationAt(cfg, other) && name in cfg
    requires IsHit(cur, hits, name) ==> name == other.section || other.device == cur.device
    ensures Activated(Disabled(cfg, cur, hits), other, bssid)[name] == Activated(cfg, other, bssid)[name]
  {
    if IsHit(cur, hits, name) {
      HitIsRival(cfg, cur, hits, name);
      DisabledIface(name, cfg[name]);
      MergeOver(cfg[name], Pin(bssid));
    }
  }

  // Another activation makes up for the flags that were set before it exactly if it is
  // of a station on the same radio, or they are its own.
  lemma ActivationHidesIff(cfg: Config, cur: Iface, hits: seq<Iface>, other: Iface, bssid: string)
    requires AreStationsOf(hits, cfg) && IsStationAt(cfg, other)
    ensures Activated(Disabled(cfg, cur, hits), other, bssid) == Activated(cfg, other, bssid)
            <==> forall name :: IsHit(cur, hits, name) ==> name == other.section || other.device == cur.device
  {
    if name :| IsHit(cur, hits, name) && name != other.section && other.device != cur.device {
      HitOnOtherRadio(cfg, cur, hits, other, bssid, name);
    } else {
      forall name | name in cfg
        ensures Activated(Disabled(cfg, cur, hits), other, bssid)[name] == Activated(cfg, other, bssid)[name]
      {
        ActivatedAt(cfg, cur, hits, other, bssid, name);
      }
    }
  }

  // An activation looks only at the section and the radio of its target.
  lemma ActivatedByTarget(cfg: Config, a: Iface, b: Iface, bssid: string)
    requires IsSameTarget(a, b)
    ensures Activated(cfg, a, bssid) == Activated(cfg, b, bssid)
  {
  }

  lemma ActivationCompletes(n: Node, o: Options, key: Key, bssid: string,
                            first: seq<string>, second: seq<string>, n': Node)
    returns (w: Iface)
    requires IsNamed(n.staged) && CompletesVia(n, o, ActivateRequest(IdOf(key), bssid), first, second, n')
    ensures FindById(Stations(n.staged, first), IdOf(key)) == Some(w)
    ensures IsStationAt(n.staged, w) && w.section == SectionName(key)
    ensures n' == Node(Activated(n.staged, w, bssid), Activated(n.staged, w, bssid))
  {
    w := FindById(Stations(n.staged, first), IdOf(key)).value;
    FoundStation(n.staged, first, IdOf(key));
    IdInjective(KeyOf(w), key);
    ActivationPlan(n.staged, o, IdOf(key), bssid, w, first, second);
    ActivateEffect(n, w, second, bssid);
  }

  lemma DisabledIsNamed(cfg: Config, cur: Iface, hits: seq<Iface>)
    requires IsNamed(cfg)
    ensures IsNamed(Disabled(cfg, cur, hits))
  {
    forall name | name in cfg
      ensures IsStation(Merge(cfg[name], DISABLE)) == IsStation(cfg[name])
      ensures StationKey(Merge(cfg[name], DISABLE)) == StationKey(cfg[name])
    {
      DisabledIface(name, cfg[name]);
    }
  }

  lemma TargetDecides(cfg: Config, w: Iface, key: Key, id: ProfileId, bssid: string, cur: Iface, hits: seq<Iface>)
    requires IsStationAt(cfg, w) && w.section == SectionName(key)
    ensures DecidesAll(cfg, ActivateRequest(id, bssid), key, cur, hits) <==>
              forall name :: IsHit(cur, hits, name) ==> name == w.section || w.device == cur.device
  {
  }

  lemma CompletesOverDisabled(n: Node, cur: Iface, hits: seq<Iface>, o: Options, key: Key, bssid: string,
                              first: seq<string>, second: seq<string>, w: Iface, after: Node)
    requires IsNamed(n.staged) && AreStationsOf(hits, n.staged) && IsOrder(first, n.staged)
    requires FindById(Stations(n.staged, first), IdOf(key)) == Some(w)
    requires CompletesVia(Node(Disabled(n.staged, cur, hits), n.committed), o, ActivateRequest(IdOf(key), bssid),
                          first, second, after)
    ensures after.committed == Activated(Disabled(n.staged, cur, hits), w, bssid)
  {
    var n1 := Node(Disabled(n.staged, cur, hits), n.committed);
    DisabledIsNamed(n.staged, cur, hits);
    var w1 := ActivationCompletes(n1, o, key, bssid, first, second, after);
    FoundInDisabled(n.staged, cur, hits, first, IdOf(key));
    ActivatedByTarget(n1.staged, w1, w, bssid);
  }

  lemma OtherActivationLeaksIff(n: Node, n1: Node, cur: Iface, hits: seq<Iface>, o: Options, key: Key, bssid: string,
                                first: seq<string>, second: seq<string>, alone: Node, after: Node)
    requires IsNamed(n.staged) && AreStationsOf(hits, n.staged)
    requires n1 == Node(Disabled(n.staged, cur, hits), n.committed)
    requires CompletesVia(n, o, ActivateRequest(IdOf(key), bssid), first, second, alone)
    requires CompletesVia(n1, o, ActivateRequest(IdOf(key), bssid), first, second, after)
    ensures after.committed == alone.committed <==>
              DecidesAll(n.staged, ActivateRequest(IdOf(key), bssid), key, cur, hits)
  {
    var w := ActivationCompletes(n, o, key, bssid, first, second, alone);
    CompletesOverDisabled(n, cur, hits, o, key, bssid, first, second, w, after);
    ActivationHidesIff(n.staged, cur, hits, w, bssid);
    TargetDecides(n.staged, w, key, IdOf(key), bssid, cur, hits);
  }

  // ---- any request -----------------------------------------------------------------------------------

  lemma EditLeaksIff(n: Node, n1: Node, cur: Iface, hits: seq<Iface>, o: Options, q: Request, key: Key,
                     first: seq<string>, second: seq<string>, alone: Node, after: Node)
    requires IsNamed(n.staged) && AreStationsOf(hits, n.staged)
    requires n1 == Node(Disabled(n.staged, cur, hits), n.committed)
    requires !q.ActivateRequest? && RequestId(q) == IdOf(key)
    requires CompletesVia(n, o, q, first, second, alone) && CompletesVia(n1, o, q, first, second, after)
    ensures after.committed == alone.committed <==> DecidesAll(n.staged, q, key, cur, hits)
  {
    var e, e1 := RequestHidesIff(n.staged, cur, hits, first, second, o, q, key);
    EditEffect(n, e);
    EditEffect(n1, e1);
  }

  // An activation that stops among its rivals leaves the flags it has set so far in
  // the staged config, and the next request to complete commits them. Its commit
  // is the one it would have made alone exactly if it decides on each of those
  // flags itself.
  lemma StoppedActivationLeaksIff(n: Node, cur: Iface, order: seq<string>, k: nat, o: Options, q: Request, key: Key,
                                  first: seq<string>, second: seq<string>, alone: Node, after: Node)
    requires IsOrder(order, n.staged) && IsNamed(n.staged) && k <= |DisablePlan(cur, Stations(n.staged, order))|
    requires RequestId(q) == IdOf(key) && CompletesVia(n, o, q, first, second, alone)
    requires CompletesVia(After(n, DisablePlan(cur, Stations(n.staged, order))[..k]), o, q, first, second, after)
    ensures after.committed == alone.committed <==>
              forall name :: IsSwitchedOff(cur, Stations(n.staged, order), k, name) ==>
                               Decides(n.staged, cur.device, q, key, name)
  {
    var j := StoppedIsDisabled(n, cur, order, k);
    var hits := Stations(n.staged, order)[..j];
    VisitedAreStations(n.staged, order, j);
    var n1 := Node(Disabled(n.staged, cur, hits), n.committed);
    match q
    case ActivateRequest(_, bssid) =>
      OtherActivationLeaksIff(n, n1, cur, hits, o, key, bssid, first, second, alone, after);
    case _ =>
      EditLeaksIff(n, n1, cur, hits, o, q, key, first, second, alone, after);
  }

  lemma DeactivatedStation(cfg: Config, first: seq<string>, second: seq<string>, o: Options, key: Key)
    returns (w: Iface)
    requires IsNamed(cfg) && IsOrder(first, cfg) && IsOrder(second, cfg)
    requires PlanFor(cfg, first, second, o, DeactivateRequest(IdOf(key))).Ok?
    ensures PlanFor(cfg, first, second, o, DeactivateRequest(IdOf(key))) == Ok(DeactivatePlan(w))
    ensures IsStationAt(cfg, w) && w.section == SectionName(key)
  {
    w := FindById(Stations(cfg, first), IdOf(key)).value;
    FoundStation(cfg, first, IdOf(key));
    IdInjective(KeyOf(w), key);
  }

  lemma DeactivateCommits(n: Node, o: Options, key: Key, first: seq<string>, second: seq<string>, after: Node)
    requires IsNamed(n.staged) && CompletesVia(n, o, DeactivateRequest(IdOf(key)), first, second, after)
    ensures CommitsStaged(n, DeactivateRequest(IdOf(key)), key, after)
  {
    var w := DeactivatedStation(n.staged, first, second, o, key);
    DeactivateEffect(n, w);
    SameButOwn(n.staged, after.staged, DeactivateRequest(IdOf(key)), key, {SectionName(key)});
  }

  // The sections that a request may write: its own, and an activation those on the
  // radio of its station.
  ghost predicate IsOwn(cfg: Config, q: Request, key: Key, name: string) {
    || name == SectionName(key)
    || (q.PatchRequest? && name == SectionName(PatchedKey(key, q.patch)))
    || (q.ActivateRequest? && SectionName(key) in cfg && name in cfg && IsStation(cfg[name])
        && Opt(cfg[name], "device") == Opt(cfg[SectionName(key)], "device"))
  }

  ghost predicate SameBut(cfg: Config, cfg': Config, q: Request, key: Key) {
    forall name ::
      !IsOwn(cfg, q, key, name)
      ==> (name in cfg <==> name in cfg') && (name in cfg ==> cfg'[name] == cfg[name])
  }

  lemma ActivateCommits(n: Node, o: Options, key: Key, bssid: string,
                        first: seq<string>, second: seq<string>, after: Node)
    requires IsNamed(n.staged) && CompletesVia(n, o, ActivateRequest(IdOf(key), bssid), first, second, after)
    ensures CommitsStaged(n, ActivateRequest(IdOf(key), bssid), key, after)
  {
    var w := ActivationCompletes(n, o, key, bssid, first, second, after);
  }

  lemma SameButOwn(cfg: Config, cfg': Config, q: Request, key: Key, names: set<string>)
    requires SameElsewhere(cfg, cfg', names) && forall name :: name in names ==> IsOwn(cfg, q, key, name)
    ensures SameBut(cfg, cfg', q, key)
  {
  }

  // What a request has committed when it completes.
  ghost predicate CommitsStaged(n: Node, q: Request, key: Key, after: Node) {
    after.staged == after.committed && SameBut(n.staged, after.staged, q, key)
  }

  lemma AddCommits(n: Node, o: Options, spec: ProfileSpec, first: seq<string>, second: seq<string>, after: Node)
    requires IsNamed(n.staged) && CompletesVia(n, o, AddRequest(spec), first, second, after)
    ensures CommitsStaged(n, AddRequest(spec), Key(spec.ssid, spec.security.kind), after)
  {
    var key := Key(spec.ssid, spec.security.kind);
    AddRefinesUpsert(n, first, second, o, spec);
    SameButOwn(n.staged, after.staged, AddRequest(spec), key, {SectionName(key)});
  }

  ghost function PatchedNames(key: Key, patch: ProfilePatch): set<string> {
    {SectionName(key), SectionName(PatchedKey(key, patch))}
  }

  lemma PatchedNamesAreOwn(cfg: Config, key: Key, patch: ProfilePatch)
    ensures forall name :: name in PatchedNames(key, patch) ==>
                             IsOwn(cfg, PatchRequest(IdOf(key), patch), key, name)
  {
  }

  lemma PatchCompletes(n: Node, o: Options, key: Key, patch: ProfilePatch,
                       first: seq<string>, second: seq<string>, after: Node)
    requires IsNamed(n.staged) && CompletesVia(n, o, PatchRequest(IdOf(key), patch), first, second, after)
    ensures after.staged == after.committed
    ensures SameElsewhere(n.staged, after.staged, PatchedNames(key, patch))
  {
    PatchRefinesMove(n, first, second, o, key, patch);
  }

  lemma PatchCommits(n: Node, o: Options, key: Key, patch: ProfilePatch,
                     first: seq<string>, second: seq<string>, after: Node)
    requires IsNamed(n.staged) && CompletesVia(n, o, PatchRequest(IdOf(key), patch), first, second, after)
    ensures CommitsStaged(n, PatchRequest(IdOf(key), patch), key, after)
  {
    PatchCompletes(n, o, key, patch, first, second, after);
    PatchedNamesAreOwn(n.staged, key, patch);
    SameButOwn(n.staged, after.staged, PatchRequest(IdOf(key), patch), key, PatchedNames(key, patch));
  }

  lemma DeleteCommits(n: Node, o: Options, key: Key, first: seq<string>, second: seq<string>, after: Node)
    requires IsNamed(n.staged) && CompletesVia(n, o, DeleteRequest(IdOf(key)), first, second, after)
    ensures CommitsStaged(n, DeleteRequest(IdOf(key)), key, after)
  {
    DeleteRefinesRemove(n, first, second, o, key);
    SameButOwn(n.staged, after.staged, DeleteRequest(IdOf(key)), key, {SectionName(key)});
  }

  // Quite generally, a request commits whatever is staged, by whomever: every section
  // that is not its own goes into the committed config as it stands.
  lemma CommitsAllThatIsStaged(n: Node, o: Options, q: Request, key: Key,
                               first: seq<string>, second: seq<string>, after: Node)
    requires IsNamed(n.staged) && RequestId(q) == IdOf(key) && CompletesVia(n, o, q, first, second, after)
    ensures CommitsStaged(n, q, key, after)
  {
    match q
    case AddRequest(spec) =>
      IdInjective(Key(spec.ssid, spec.security.kind), key);
      AddCommits(n, o, spec, first, second, after);
    case PatchRequest(_, patch) => PatchCommits(n, o, key, patch, first, second, after);
    case DeleteRequest(_) => DeleteCommits(n, o, key, first, second, after);
    case DeactivateRequest(_) => DeactivateCommits(n, o, key, first, second, after);
    case ActivateRequest(_, bssid) => ActivateCommits(n, o, key, bssid, first, second, after);
  }
}
