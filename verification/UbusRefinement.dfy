// The station store as a map: a naming invariant that every plan keeps at every
// step, and the map operations that complete plans amount to.
module UbusRefinement {
  import opened Text
  import opened Wnet
  import opened Uci
  import opened UbusStore

  // ---- the naming invariant -------------------------------------------------------------

  function StationKey(s: Section): Key {
    Key(Opt(s, "ssid"), EncToKind(Opt(s, "encryption")))
  }

  ghost predicate IsNamed(cfg: Config) {
    forall name :: name in cfg && IsStation(cfg[name]) ==> name == SectionName(StationKey(cfg[name]))
  }

  ghost predicate IsNamedNode(n: Node) {
    IsNamed(n.staged) && IsNamed(n.committed)
  }

  predicate KeepsIdentity(values: map<string, string>) {
    "mode" !in values && "ssid" !in values && "encryption" !in values
  }

  predicate Identifies(values: map<string, string>, section: string) {
    && "ssid" in values && "encryption" in values
    && section == SectionName(Key(values["ssid"], EncToKind(values["encryption"])))
  }

  // Commands that cannot give a station a wrong name, whatever the config is.
  predicate IsWellNamed(c: Cmd) {
    match c
    case Set(section, values) => KeepsIdentity(values) || Identifies(values, section)
    case Add(name, values) => Identifies(values, name)
    case Delete(_) => true
    case Commit => true
  }

  ghost predicate AreWellNamed(plan: seq<Cmd>) {
    forall i :: 0 <= i < |plan| ==> IsWellNamed(plan[i])
  }

  lemma ApplyKeepsNamed(n: Node, c: Cmd)
    requires IsNamedNode(n) && IsWellNamed(c)
    ensures IsNamedNode(Apply(n, c))
  {
    if Applies(n, c) {
      match c
      case Set(section, values) =>
        var s, s' := n.staged[section], Merge(n.staged[section], values);
        assert s'.options == s.options + values;
      case _ =>
    }
  }

  lemma {:induction false} AfterKeepsNamed(n: Node, plan: seq<Cmd>)
    requires IsNamedNode(n) && AreWellNamed(plan)
    ensures IsNamedNode(After(n, plan))
    decreases |plan|
  {
    if plan != [] {
      ApplyKeepsNamed(n, plan[0]);
      AfterKeepsNamed(Apply(n, plan[0]), plan[1..]);
    }
  }

  lemma StationValuesIdentify(o: Options, ssid: string, sec: Security, autoconnect: bool, oldKey: string)
    requires sec.kind != SecEnterprise
    ensures var v := StationValues(o, ssid, sec, autoconnect, oldKey);
            && "mode" in v && v["mode"] == "sta"
            && "ssid" in v && v["ssid"] == ssid
            && "encryption" in v && EncToKind(v["encryption"]) == sec.kind
            && "disabled" in v && UciBool(v["disabled"]) == !autoconnect
            && ("key" in v ==> v["key"] == if sec.kind == SecOpen then ""
                                           else if sec.passphrase != "" then sec.passphrase
                                           else oldKey)
            && ("key" !in v ==> sec.kind == SecPSK && sec.passphrase == "" && oldKey == "")
            && "device" !in v
  {
    KindRoundTripIff(sec.kind);
    UciBoolRoundTrip(!autoconnect);
  }

  // ---- every prefix of every plan -----------------------------------------------------------

  lemma {:induction false} DisablePlanIsWellNamed(cur: Iface, stas: seq<Iface>)
    ensures AreWellNamed(DisablePlan(cur, stas))
  {
    if stas != [] {
      DisablePlanIsWellNamed(cur, stas[1..]);
    }
  }

  lemma FoundStation(cfg: Config, order: seq<string>, id: ProfileId)
    requires IsOrder(order, cfg) && FindById(Stations(cfg, order), id).Some?
    ensures var w := FindById(Stations(cfg, order), id).value;
            && w.section in cfg && IsStation(cfg[w.section]) && w == ToIface(w.section, cfg[w.section])
            && KeyOf(w) == StationKey(cfg[w.section]) && IdOf(KeyOf(w)) == id
  {
    FindByIdMeaning(Stations(cfg, order), id);
    StationsMeaning(cfg, order);
  }

  lemma InPlaceIsWellNamed(w: Iface, o: Options, sec: Security, autoconnect: bool)
    requires w.section == SectionName(KeyOf(w)) && sec.kind == EncToKind(w.encryption) && sec.kind != SecEnterprise
    ensures AreWellNamed(InPlacePlan(w, o, w.ssid, sec, autoconnect))
  {
    StationValuesIdentify(o, w.ssid, sec, autoconnect, w.key);
  }

  lemma NewIsWellNamed(cfg: Config, order: seq<string>, o: Options, ssid: string, sec: Security, autoconnect: bool)
    requires IsOrder(order, cfg) && sec.kind != SecEnterprise
    ensures var plan := NewStationPlan(cfg, order, o, ssid, sec, autoconnect);
            plan.Ok? ==> AreWellNamed(plan.value)
  {
    StationValuesIdentify(o, ssid, sec, autoconnect, "");
  }

  lemma PatchIsWellNamed(cfg: Config, order: seq<string>, o: Options, w: Iface, patch: ProfilePatch)
    requires IsOrder(order, cfg) && w.section == SectionName(KeyOf(w))
    ensures PatchPlan(cfg, order, o, w, patch).Ok? ==> AreWellNamed(PatchPlan(cfg, order, o, w, patch).value)
  {
    var t := PatchTarget(w, patch);
    if !IsUnsupported(t.sec.kind, patch.ipv4, patch.ipv6) {
      if Renames(w, t) {
        NewIsWellNamed(cfg, order, o, t.ssid, CarriedSecurity(w, t.sec), t.autoconnect);
      } else {
        InPlaceIsWellNamed(w, o, t.sec, t.autoconnect);
      }
    }
  }

  lemma FoundIsNamed(cfg: Config, order: seq<string>, id: ProfileId)
    requires IsOrder(order, cfg) && IsNamed(cfg) && FindById(Stations(cfg, order), id).Some?
    ensures var w := FindById(Stations(cfg, order), id).value;
            w.section == SectionName(KeyOf(w)) && IdOf(KeyOf(w)) == id
  {
    FoundStation(cfg, order, id);
  }

  ghost predicate IsWellNamedPlan(plan: Result<seq<Cmd>>) {
    plan.Ok? ==> AreWellNamed(plan.value)
  }

  lemma AddIsWellNamed(cfg: Config, first: seq<string>, second: seq<string>, o: Options, spec: ProfileSpec)
    requires IsOrder(first, cfg) && IsOrder(second, cfg) && IsNamed(cfg)
    ensures IsWellNamedPlan(PlanFor(cfg, first, second, o, AddRequest(spec)))
  {
    var id := IdOf(Key(spec.ssid, spec.security.kind));
    var f := FindById(Stations(cfg, first), id);
    if !IsUnsupported(spec.security.kind, spec.ipv4, spec.ipv6) {
      if f.Some? {
        FoundIsNamed(cfg, first, id);
        IdInjective(KeyOf(f.value), Key(spec.ssid, spec.security.kind));
        InPlaceIsWellNamed(f.value, o, spec.security, spec.autoconnect);
      } else {
        NewIsWellNamed(cfg, second, o, spec.ssid, spec.security, spec.autoconnect);
      }
    }
  }

  lemma ActivateIsWellNamed(cur: Iface, stas: seq<Iface>, bssid: string)
    ensures AreWellNamed(ActivatePlan(cur, stas, bssid))
  {
    DisablePlanIsWellNamed(cur, stas);
  }

  lemma PatchRequestIsWellNamed(cfg: Config, first: seq<string>, second: seq<string>, o: Options,
                                id: ProfileId, patch: ProfilePatch)
    requires IsOrder(first, cfg) && IsOrder(second, cfg) && IsNamed(cfg)
    ensures IsWellNamedPlan(PlanFor(cfg, first, second, o, PatchRequest(id, patch)))
  {
    var f := FindById(Stations(cfg, first), id);
    if f.Some? {
      FoundIsNamed(cfg, first, id);
      PatchIsWellNamed(cfg, second, o, f.value, patch);
    }
  }

  lemma ActivateRequestIsWellNamed(cfg: Config, first: seq<string>, second: seq<string>, o: Options,
                                   id: ProfileId, bssid: string)
    requires IsOrder(first, cfg) && IsOrder(second, cfg)
    ensures IsWellNamedPlan(PlanFor(cfg, first, second, o, ActivateRequest(id, bssid)))
  {
    var f := FindById(Stations(cfg, first), id);
    if f.Some? {
      ActivateIsWellNamed(f.value, Stations(cfg, second), bssid);
    }
  }

  lemma DeleteRequestIsWellNamed(cfg: Config, first: seq<string>, second: seq<string>, o: Options, id: ProfileId)
    requires IsOrder(first, cfg) && IsOrder(second, cfg)
    ensures IsWellNamedPlan(PlanFor(cfg, first, second, o, DeleteRequest(id)))
  {
  }

  lemma DeactivateRequestIsWellNamed(cfg: Config, first: seq<string>, second: seq<string>, o: Options, id: ProfileId)
    requires IsOrder(first, cfg) && IsOrder(second, cfg)
    ensures IsWellNamedPlan(PlanFor(cfg, first, second, o, DeactivateRequest(id)))
  {
  }

  lemma PlanIsWellNamed(cfg: Config, first: seq<string>, second: seq<string>, o: Options, q: Request)
    requires IsOrder(first, cfg) && IsOrder(second, cfg) && IsNamed(cfg)
    ensures IsWellNamedPlan(PlanFor(cfg, first, second, o, q))
  {
    match q
    case AddRequest(spec) => AddIsWellNamed(cfg, first, second, o, spec);
    case PatchRequest(id, patch) => PatchRequestIsWellNamed(cfg, first, second, o, id, patch);
    case ActivateRequest(id, bssid) => ActivateRequestIsWellNamed(cfg, first, second, o, id, bssid);
    case DeleteRequest(id) => DeleteRequestIsWellNamed(cfg, first, second, o, id);
    case DeactivateRequest(id) => DeactivateRequestIsWellNamed(cfg, first, second, o, id);
  }

  // What a call leaves behind when its reads visit the sections in these orders and
  // it stops after k commands of its plan.
  ghost predicate StopsAfter(n: Node, o: Options, q: Request, first: seq<string>, second: seq<string>,
                             k: nat, n': Node)
  {
    && IsOrder(first, n.staged) && IsOrder(second, n.staged)
    && match PlanFor(n.staged, first, second, o, q)
       case Err(_) => n' == n
       case Ok(plan) => k <= |plan| && n' == After(n, plan[..k])
  }

  // A call that fails midway has carried out a prefix of its plan.
  ghost predicate Step(n: Node, o: Options, q: Request, n': Node) {
    exists first, second, k: nat :: StopsAfter(n, o, q, first, second, k, n')
  }

  lemma StepKeepsNamed(n: Node, o: Options, q: Request, n': Node)
    requires IsNamedNode(n) && Step(n, o, q, n')
    ensures IsNamedNode(n')
  {
    var first, second, k: nat :| StopsAfter(n, o, q, first, second, k, n');
    PlanIsWellNamed(n.staged, first, second, o, q);
    var plan := PlanFor(n.staged, first, second, o, q);
    if plan.Ok? {
      AfterKeepsNamed(n, plan.value[..k]);
    }
  }

  ghost predicate IsRun(states: seq<Node>, o: Options, requests: seq<Request>) {
    && |states| == |requests| + 1
    && forall i :: 0 <= i < |requests| ==> Step(states[i], o, requests[i], states[i + 1])
  }

  ghost predicate HasUniqueKeys(cfg: Config) {
    forall a, b ::
      (&& a in cfg && b in cfg && IsStation(cfg[a]) && IsStation(cfg[b])
       && StationKey(cfg[a]) == StationKey(cfg[b])) ==> a == b
  }

  lemma NamedHasUniqueKeys(cfg: Config)
    requires IsNamed(cfg)
    ensures HasUniqueKeys(cfg)
  {
  }

  // From a config whose stations carry their derived names, every run of requests
  // keeps that naming in the staged and in the committed config, even though any
  // call may stop midway; so no two stations ever share a profile id.
  lemma RunsStayNamed(states: seq<Node>, o: Options, requests: seq<Request>)
    requires IsRun(states, o, requests) && IsNamedNode(states[0])
    ensures forall i :: 0 <= i < |states| ==>
              IsNamedNode(states[i]) && HasUniqueKeys(states[i].staged) && HasUniqueKeys(states[i].committed)
  {
    for i := 0 to |requests|
      invariant forall j :: 0 <= j <= i ==> IsNamedNode(states[j])
    {
      StepKeepsNamed(states[i], o, requests[i], states[i + 1]);
    }
    forall i | 0 <= i < |states|
      ensures IsNamedNode(states[i]) && HasUniqueKeys(states[i].staged) && HasUniqueKeys(states[i].committed)
    {
      NamedHasUniqueKeys(states[i].staged);
      NamedHasUniqueKeys(states[i].committed);
    }
  }

  // With unique keys, the station that an id names does not depend on the order in
  // which the sections are visited.
  lemma LookupIsOrderFree(cfg: Config, e1: seq<string>, e2: seq<string>, id: ProfileId)
    requires HasUniqueKeys(cfg) && IsOrder(e1, cfg) && IsOrder(e2, cfg)
    ensures FindById(Stations(cfg, e1), id) == FindById(Stations(cfg, e2), id)
  {
    var f1, f2 := FindById(Stations(cfg, e1), id), FindById(Stations(cfg, e2), id);
    StationsMeaning(cfg, e1);
    StationsMeaning(cfg, e2);
    FindByIdMeaning(Stations(cfg, e1), id);
    FindByIdMeaning(Stations(cfg, e2), id);
    if f1.Some? && f2.Some? {
      IdInjective(KeyOf(f1.value), KeyOf(f2.value));
    }
  }

  // ---- the map ---------------------------------------------------------------------------

  datatype Entry = Entry(key: string, autoconnect: bool)

  function EntryOf(s: Section): Entry {
    Entry(Opt(s, "key"), !UciBool(Opt(s, "disabled")))
  }

  ghost function Keys(cfg: Config): set<Key> {
    set name | name in cfg && IsStation(cfg[name]) :: StationKey(cfg[name])
  }

  ghost function Abs(cfg: Config): map<Key, Entry>
    requires IsNamed(cfg)
  {
    map k | k in Keys(cfg) :: EntryOf(cfg[SectionName(k)])
  }

  lemma InAbs(cfg: Config, k: Key)
    requires IsNamed(cfg)
    ensures k in Abs(cfg) <==> SectionName(k) in cfg && IsStation(cfg[SectionName(k)])
    ensures k in Abs(cfg) ==> StationKey(cfg[SectionName(k)]) == k && Abs(cfg)[k] == EntryOf(cfg[SectionName(k)])
  {
    if k in Abs(cfg) {
      var name :| name in cfg && IsStation(cfg[name]) && StationKey(cfg[name]) == k;
    }
    if SectionName(k) in cfg && IsStation(cfg[SectionName(k)]) {
      SectionNameInjective(k, StationKey(cfg[SectionName(k)]));
    }
  }

  lemma PutStation(cfg: Config, k: Key, s: Section)
    requires IsNamed(cfg) && IsStation(s) && StationKey(s) == k
    ensures IsNamed(cfg[SectionName(k) := s])
    ensures Abs(cfg[SectionName(k) := s]) == Abs(cfg)[k := EntryOf(s)]
  {
    var cfg' := cfg[SectionName(k) := s];
    forall j: Key
      ensures j in Abs(cfg') <==> j in Abs(cfg)[k := EntryOf(s)]
      ensures j in Abs(cfg') ==> Abs(cfg')[j] == Abs(cfg)[k := EntryOf(s)][j]
    {
      InAbs(cfg, j);
      InAbs(cfg', j);
      SectionNameInjective(j, k);
    }
  }

  lemma DropStation(cfg: Config, k: Key)
    requires IsNamed(cfg)
    ensures IsNamed(cfg - {SectionName(k)})
    ensures Abs(cfg - {SectionName(k)}) == Abs(cfg) - {k}
  {
    var cfg' := cfg - {SectionName(k)};
    forall j: Key
      ensures j in Abs(cfg') <==> j in Abs(cfg) - {k}
      ensures j in Abs(cfg') ==> Abs(cfg')[j] == Abs(cfg)[j]
    {
      InAbs(cfg, j);
      InAbs(cfg', j);
      SectionNameInjective(j, k);
    }
  }

  // The key a write leaves in place: a new passphrase if there is one, the old key
  // otherwise, and none for an open network.
  function KeptKey(sec: Security, oldKey: string): string {
    if sec.kind == SecOpen then "" else if sec.passphrase != "" then sec.passphrase else oldKey
  }

  lemma WrittenStation(base: Section, o: Options, ssid: string, sec: Security, autoconnect: bool)
    requires base.typ == "wifi-iface" && sec.kind != SecEnterprise
    ensures var s := Merge(base, StationValues(o, ssid, sec, autoconnect, Opt(base, "key")));
            && IsStation(s) && StationKey(s) == Key(ssid, sec.kind)
            && EntryOf(s) == Entry(KeptKey(sec, Opt(base, "key")), autoconnect)
  {
    StationValuesIdentify(o, ssid, sec, autoconnect, Opt(base, "key"));
    assert Lower("sta") == "sta";
  }

  lemma NewStation(o: Options, ssid: string, sec: Security, autoconnect: bool, radio: string)
    requires sec.kind != SecEnterprise
    ensures var s := Section("wifi-iface", StationValues(o, ssid, sec, autoconnect, "")["device" := radio]);
            && IsStation(s) && StationKey(s) == Key(ssid, sec.kind)
            && EntryOf(s) == Entry(KeptKey(sec, ""), autoconnect) && Opt(s, "device") == radio
  {
    StationValuesIdentify(o, ssid, sec, autoconnect, "");
    assert Lower("sta") == "sta";
  }

  // Every section but one is as before.
  ghost predicate SameElsewhere(a: Config, b: Config, names: set<string>) {
    forall name :: name !in names ==> (name in a <==> name in b) && (name in a ==> a[name] == b[name])
  }

  lemma AfterTwo(n: Node, c: Cmd)
    ensures After(n, [c, Commit]) == Node(Apply(n, c).staged, Apply(n, c).staged)
  {
    assert [c, Commit][1..] == [Commit] && [Commit][1..] == [];
  }

  function OldKey(m: map<Key, Entry>, k: Key): string {
    if k in m then m[k].key else ""
  }

  lemma InPlaceEffect(n: Node, w: Iface, o: Options, sec: Security, autoconnect: bool)
    requires IsNamed(n.staged) && w.section in n.staged && IsStation(n.staged[w.section])
    requires w == ToIface(w.section, n.staged[w.section])
    requires sec.kind == EncToKind(w.encryption) && sec.kind != SecEnterprise
    ensures var n' := After(n, InPlacePlan(w, o, w.ssid, sec, autoconnect));
            && n'.staged == n'.committed && IsNamed(n'.staged)
            && Abs(n'.staged) == Abs(n.staged)[KeyOf(w) := Entry(KeptKey(sec, w.key), autoconnect)]
            && SameElsewhere(n.staged, n'.staged, {SectionName(KeyOf(w))})
  {
    var values := StationValues(o, w.ssid, sec, autoconnect, w.key);
    AfterTwo(n, Set(w.section, values));
    WrittenStation(n.staged[w.section], o, w.ssid, sec, autoconnect);
    PutStation(n.staged, KeyOf(w), Merge(n.staged[w.section], values));
  }

  lemma NewEffect(n: Node, o: Options, ssid: string, sec: Security, autoconnect: bool, radio: string)
    requires IsNamed(n.staged) && sec.kind != SecEnterprise
    ensures var k := Key(ssid, sec.kind);
            var values := StationValues(o, ssid, sec, autoconnect, "")["device" := radio];
            var n' := After(n, [Add(SectionName(k), values), Commit]);
            && n'.staged == n'.committed && IsNamed(n'.staged)
            && Abs(n'.staged) == Abs(n.staged)[k := Entry(KeptKey(sec, ""), autoconnect)]
            && SameElsewhere(n.staged, n'.staged, {SectionName(k)})
  {
    var values := StationValues(o, ssid, sec, autoconnect, "")["device" := radio];
    AfterTwo(n, Add(SectionName(Key(ssid, sec.kind)), values));
    NewStation(o, ssid, sec, autoconnect, radio);
    PutStation(n.staged, Key(ssid, sec.kind), Section("wifi-iface", values));
  }

  // ---- refinement --------------------------------------------------------------------------

  // Add is an upsert; without a passphrase it keeps the key that is stored.
  lemma AddRefinesUpsert(n: Node, first: seq<string>, second: seq<string>, o: Options, spec: ProfileSpec)
    requires IsOrder(first, n.staged) && IsOrder(second, n.staged) && IsNamed(n.staged)
    requires PlanFor(n.staged, first, second, o, AddRequest(spec)).Ok?
    ensures var n' := After(n, PlanFor(n.staged, first, second, o, AddRequest(spec)).value);
            var k := Key(spec.ssid, spec.security.kind);
            && n'.staged == n'.committed && IsNamed(n'.staged)
            && Abs(n'.staged)
               == Abs(n.staged)[k := Entry(KeptKey(spec.security, OldKey(Abs(n.staged), k)), spec.autoconnect)]
            && SameElsewhere(n.staged, n'.staged, {SectionName(k)})
  {
    var k := Key(spec.ssid, spec.security.kind);
    var f := FindById(Stations(n.staged, first), IdOf(k));
    InAbs(n.staged, k);
    if f.Some? {
      FoundStation(n.staged, first, IdOf(k));
      IdInjective(KeyOf(f.value), k);
      InPlaceEffect(n, f.value, o, spec.security, spec.autoconnect);
    } else {
      NotFoundMeansAbsent(n.staged, first, k);
      NewEffect(n, o, spec.ssid, spec.security, spec.autoconnect, RadioFor(n.staged, second, o).value);
    }
  }

  lemma NotFoundMeansAbsent(cfg: Config, order: seq<string>, k: Key)
    requires IsOrder(order, cfg) && IsNamed(cfg)
    ensures FindById(Stations(cfg, order), IdOf(k)).None? <==> k !in Abs(cfg)
  {
    InAbs(cfg, k);
    StationsMeaning(cfg, order);
    FindByIdMeaning(Stations(cfg, order), IdOf(k));
    var f := FindById(Stations(cfg, order), IdOf(k));
    if f.Some? {
      FoundStation(cfg, order, IdOf(k));
      IdInjective(KeyOf(f.value), k);
    }
  }

  // The map entry a patch turns an entry into.
  function PatchedKey(k: Key, patch: ProfilePatch): Key {
    Key(if patch.ssid.Some? then patch.ssid.value else k.ssid,
        if patch.security.Some? then patch.security.value.kind else k.kind)
  }

  function PatchedEntry(k: Key, e: Entry, patch: ProfilePatch): Entry {
    Entry(KeptKey(if patch.security.Some? then patch.security.value else Security(k.kind, ""), e.key),
          if patch.autoconnect.Some? then patch.autoconnect.value else e.autoconnect)
  }

  // The station w that a request was resolved to, over the config it was read from.
  ghost predicate IsStationAt(cfg: Config, w: Iface) {
    w.section in cfg && IsStation(cfg[w.section]) && w == ToIface(w.section, cfg[w.section])
  }

  lemma StationAtIsNamed(cfg: Config, w: Iface)
    requires IsNamed(cfg) && IsStationAt(cfg, w)
    ensures w.section == SectionName(KeyOf(w)) && KeyOf(w) in Abs(cfg)
    ensures Abs(cfg)[KeyOf(w)] == Entry(w.key, !w.disabled)
  {
    InAbs(cfg, KeyOf(w));
  }

  lemma MoveInMap<K, V>(m: map<K, V>, k: K, k': K, v: V)
    requires k != k'
    ensures m[k' := v] - {k} == (m - {k})[k' := v]
  {
  }

  lemma ReplaceInMap<K, V>(m: map<K, V>, k: K, v: V)
    ensures m[k := v] == (m - {k})[k := v]
  {
  }

  lemma AfterFour(n: Node, name: string, values: map<string, string>, section: string)
    requires section in n.staged[name := Section("wifi-iface", values)]
    ensures var cfg := n.staged[name := Section("wifi-iface", values)] - {section};
            After(n, [Add(name, values), Commit] + [Delete(section), Commit]) == Node(cfg, cfg)
  {
    var add := [Add(name, values), Commit];
    AfterTwo(n, add[0]);
    AfterAppend(n, add, [Delete(section), Commit]);
    AfterTwo(After(n, add), Delete(section));
  }

  lemma MoveConfig(cfg: Config, k: Key, k': Key, s: Section)
    requires IsNamed(cfg) && IsStation(s) && StationKey(s) == k' && k != k'
    ensures var cfg' := cfg[SectionName(k') := s] - {SectionName(k)};
            && IsNamed(cfg')
            && Abs(cfg') == (Abs(cfg) - {k})[k' := EntryOf(s)]
  {
    PutStation(cfg, k', s);
    DropStation(cfg[SectionName(k') := s], k);
    MoveInMap(Abs(cfg), k, k', EntryOf(s));
  }

  // Add a station section for k', then delete the section of w.
  lemma MoveEffect(n: Node, w: Iface, k': Key, values: map<string, string>)
    requires IsNamed(n.staged) && IsStationAt(n.staged, w) && k' != KeyOf(w)
    requires IsStation(Section("wifi-iface", values)) && StationKey(Section("wifi-iface", values)) == k'
    ensures var n' := After(n, [Add(SectionName(k'), values), Commit] + [Delete(w.section), Commit]);
            && n'.staged == n'.committed && IsNamed(n'.staged)
            && Abs(n'.staged) == (Abs(n.staged) - {KeyOf(w)})[k' := EntryOf(Section("wifi-iface", values))]
            && SameElsewhere(n.staged, n'.staged, {w.section, SectionName(k')})
  {
    StationAtIsNamed(n.staged, w);
    AfterFour(n, SectionName(k'), values, w.section);
    MoveConfig(n.staged, KeyOf(w), k', Section("wifi-iface", values));
  }

  lemma PatchRenameEffect(n: Node, w: Iface, order: seq<string>, o: Options, patch: ProfilePatch)
    requires IsOrder(order, n.staged) && IsNamed(n.staged) && IsStationAt(n.staged, w)
    requires Renames(w, PatchTarget(w, patch)) && PatchPlan(n.staged, order, o, w, patch).Ok?
    ensures var n' := After(n, PatchPlan(n.staged, order, o, w, patch).value);
            var k, k' := KeyOf(w), PatchedKey(KeyOf(w), patch);
            && n'.staged == n'.committed && IsNamed(n'.staged)
            && Abs(n'.staged) == (Abs(n.staged) - {k})[k' := PatchedEntry(k, Entry(w.key, !w.disabled), patch)]
            && SameElsewhere(n.staged, n'.staged, {w.section, SectionName(k')})
  {
    var t := PatchTarget(w, patch);
    var radio, sec := RadioFor(n.staged, order, o).value, CarriedSecurity(w, t.sec);
    NewStation(o, t.ssid, sec, t.autoconnect, radio);
    MoveEffect(n, w, Key(t.ssid, sec.kind), StationValues(o, t.ssid, sec, t.autoconnect, "")["device" := radio]);
  }

  lemma PatchEffect(n: Node, w: Iface, order: seq<string>, o: Options, patch: ProfilePatch)
    requires IsOrder(order, n.staged) && IsNamed(n.staged) && IsStationAt(n.staged, w)
    requires PatchPlan(n.staged, order, o, w, patch).Ok?
    ensures var n' := After(n, PatchPlan(n.staged, order, o, w, patch).value);
            var k, k' := KeyOf(w), PatchedKey(KeyOf(w), patch);
            && n'.staged == n'.committed && IsNamed(n'.staged)
            && Abs(n'.staged) == (Abs(n.staged) - {k})[k' := PatchedEntry(k, Entry(w.key, !w.disabled), patch)]
            && SameElsewhere(n.staged, n'.staged, {w.section, SectionName(k')})
  {
    var t := PatchTarget(w, patch);
    if Renames(w, t) {
      PatchRenameEffect(n, w, order, o, patch);
    } else {
      StationAtIsNamed(n.staged, w);
      InPlaceEffect(n, w, o, t.sec, t.autoconnect);
      ReplaceInMap(Abs(n.staged), KeyOf(w), Entry(KeptKey(t.sec, w.key), t.autoconnect));
    }
  }

  // Patch moves one entry, in place or across a rename, and the stored key goes
  // with it; an entry that already had the new key is replaced.
  lemma PatchRefinesMove(n: Node, first: seq<string>, second: seq<string>, o: Options, k: Key, patch: ProfilePatch)
    requires IsOrder(first, n.staged) && IsOrder(second, n.staged) && IsNamed(n.staged)
    requires PlanFor(n.staged, first, second, o, PatchRequest(IdOf(k), patch)).Ok?
    ensures var n' := After(n, PlanFor(n.staged, first, second, o, PatchRequest(IdOf(k), patch)).value);
            var k' := PatchedKey(k, patch);
            && k in Abs(n.staged)
            && n'.staged == n'.committed && IsNamed(n'.staged)
            && Abs(n'.staged) == (Abs(n.staged) - {k})[k' := PatchedEntry(k, Abs(n.staged)[k], patch)]
            && SameElsewhere(n.staged, n'.staged, {SectionName(k), SectionName(k')})
  {
    FoundStation(n.staged, first, IdOf(k));
    var w := FindById(Stations(n.staged, first), IdOf(k)).value;
    IdInjective(KeyOf(w), k);
    StationAtIsNamed(n.staged, w);
    PatchEffect(n, w, second, o, patch);
  }

  lemma DeleteEffect(n: Node, w: Iface)
    requires IsNamed(n.staged) && IsStationAt(n.staged, w)
    ensures var n' := After(n, DeletePlan(w));
            && n'.staged == n'.committed && IsNamed(n'.staged)
            && Abs(n'.staged) == Abs(n.staged) - {KeyOf(w)}
            && SameElsewhere(n.staged, n'.staged, {w.section})
  {
    StationAtIsNamed(n.staged, w);
    AfterTwo(n, Delete(w.section));
    DropStation(n.staged, KeyOf(w));
  }

  // Delete removes one entry, and is refused exactly for the ids of absent keys.
  lemma DeleteRefinesRemove(n: Node, first: seq<string>, second: seq<string>, o: Options, k: Key)
    requires IsOrder(first, n.staged) && IsOrder(second, n.staged) && IsNamed(n.staged)
    ensures var plan := PlanFor(n.staged, first, second, o, DeleteRequest(IdOf(k)));
            && (plan.Ok? <==> k in Abs(n.staged))
            && (plan.Ok? ==>
                  var n' := After(n, plan.value);
                  && n'.staged == n'.committed && IsNamed(n'.staged)
                  && Abs(n'.staged) == Abs(n.staged) - {k}
                  && SameElsewhere(n.staged, n'.staged, {SectionName(k)}))
  {
    NotFoundMeansAbsent(n.staged, first, k);
    if k in Abs(n.staged) {
      FoundStation(n.staged, first, IdOf(k));
      var w := FindById(Stations(n.staged, first), IdOf(k)).value;
      IdInjective(KeyOf(w), k);
      StationAtIsNamed(n.staged, w);
      DeleteEffect(n, w);
    }
  }

  // ---- reads -------------------------------------------------------------------------------

  ghost function Profiles(stas: seq<Iface>): seq<Profile> {
    seq(|stas|, i requires 0 <= i < |stas| => ToProfile(stas[i]))
  }

  ghost predicate HaveDistinctSections(stas: seq<Iface>) {
    forall i, j :: 0 <= i < j < |stas| ==> stas[i].section != stas[j].section
  }

  lemma {:induction false} StationsAreDistinct(cfg: Config, order: seq<string>)
    requires forall name :: name in order ==> name in cfg
    requires forall i, j :: 0 <= i < j < |order| ==> order[i] != order[j]
    ensures HaveDistinctSections(Stations(cfg, order))
  {
    if order != [] {
      var rest := Stations(cfg, order[1..]);
      StationsAreDistinct(cfg, order[1..]);
      StationsMeaning(cfg, order[1..]);
      forall j | 0 <= j < |rest|
        ensures rest[j].section != order[0]
      {
        assert rest[j] in rest;
        assert order[0] !in order[1..];
      }
    }
  }

  lemma ListedProfile(cfg: Config, order: seq<string>, i: nat)
    requires IsOrder(order, cfg) && IsNamed(cfg) && i < |Stations(cfg, order)|
    ensures var w := Stations(cfg, order)[i];
            && w.section == SectionName(KeyOf(w)) && KeyOf(w) in Abs(cfg)
            && Abs(cfg)[KeyOf(w)] == Entry(w.key, !w.disabled)
  {
    StationsMeaning(cfg, order);
    assert Stations(cfg, order)[i] in Stations(cfg, order);
    StationAtIsNamed(cfg, Stations(cfg, order)[i]);
  }

  lemma EveryKeyIsListed(cfg: Config, order: seq<string>, k: Key)
    requires IsOrder(order, cfg) && IsNamed(cfg) && k in Abs(cfg)
    ensures exists i :: 0 <= i < |Stations(cfg, order)| && KeyOf(Stations(cfg, order)[i]) == k
  {
    InAbs(cfg, k);
    StationsMeaning(cfg, order);
    var w := ToIface(SectionName(k), cfg[SectionName(k)]);
    assert w in Stations(cfg, order);
  }

  ghost predicate HaveDistinctIds(ps: seq<Profile>) {
    forall i, j :: 0 <= i < j < |ps| ==> ps[i].id != ps[j].id
  }

  // A profile is named after its SSID. It carries the flag and the kind, but neither the
  // key nor any addresses, and is never hidden.
  function ShownAs(k: Key, e: Entry): Profile {
    Profile(IdOf(k), k.ssid, k.ssid, false, e.autoconnect, Security(k.kind, ""), NO_CONFIG, NO_CONFIG)
  }

  ghost predicate Shows(p: Profile, m: map<Key, Entry>) {
    var k := Key(p.ssid, p.security.kind);
    k in m && p == ShownAs(k, m[k])
  }

  // One profile per key of the map, in some order, under pairwise distinct ids.
  ghost predicate Lists(ps: seq<Profile>, m: map<Key, Entry>) {
    && HaveDistinctIds(ps)
    && (forall i :: 0 <= i < |ps| ==> Shows(ps[i], m))
    && (forall k :: k in m ==> exists i :: 0 <= i < |ps| && ps[i].id == IdOf(k))
  }

  lemma ListedProfileShows(cfg: Config, order: seq<string>, i: nat)
    requires IsOrder(order, cfg) && IsNamed(cfg) && i < |Stations(cfg, order)|
    ensures Shows(Profiles(Stations(cfg, order))[i], Abs(cfg))
  {
    ListedProfile(cfg, order, i);
  }

  lemma ListedIdsAreDistinct(cfg: Config, order: seq<string>, i: nat, j: nat)
    requires IsOrder(order, cfg) && IsNamed(cfg) && i < j < |Stations(cfg, order)|
    ensures Profiles(Stations(cfg, order))[i].id != Profiles(Stations(cfg, order))[j].id
  {
    var stas := Stations(cfg, order);
    StationsAreDistinct(cfg, order);
    ListedProfile(cfg, order, i);
    ListedProfile(cfg, order, j);
    IdInjective(KeyOf(stas[i]), KeyOf(stas[j]));
  }

  lemma EveryKeyHasAProfile(cfg: Config, order: seq<string>, k: Key)
    requires IsOrder(order, cfg) && IsNamed(cfg) && k in Abs(cfg)
    ensures var ps := Profiles(Stations(cfg, order));
            exists i :: 0 <= i < |ps| && ps[i].id == IdOf(k)
  {
    EveryKeyIsListed(cfg, order, k);
    var stas := Stations(cfg, order);
    var i :| 0 <= i < |stas| && KeyOf(stas[i]) == k;
    assert Profiles(stas)[i].id == IdOf(k);
  }

  // Listing the profiles returns exactly the map.
  lemma ProfilesAreTheMap(cfg: Config, order: seq<string>)
    requires IsOrder(order, cfg) && IsNamed(cfg)
    ensures Lists(Profiles(Stations(cfg, order)), Abs(cfg))
  {
    var ps := Profiles(Stations(cfg, order));
    forall i, j | 0 <= i < j < |ps|
      ensures ps[i].id != ps[j].id
    {
      ListedIdsAreDistinct(cfg, order, i, j);
    }
    forall i | 0 <= i < |ps|
      ensures Shows(ps[i], Abs(cfg))
    {
      ListedProfileShows(cfg, order, i);
    }
    forall k | k in Abs(cfg)
      ensures exists i :: 0 <= i < |ps| && ps[i].id == IdOf(k)
    {
      EveryKeyHasAProfile(cfg, order, k);
    }
  }
}
