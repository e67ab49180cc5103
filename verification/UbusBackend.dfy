// The ubus backend as it runs: one remote call after another, each of which may be
// refused, or take effect and still be reported as failed.
module UbusBackend {
  import opened Text
  import opened Wnet
  import opened Uci
  import opened UbusStore
  import opened UbusRefinement
  import opened UbusActivate

  // n' is n after the first k commands of the plan.
  ghost predicate StoppedAt(n: Node, plan: seq<Cmd>, k: nat, n': Node) {
    k <= |plan| && n' == After(n, plan[..k])
  }

  ghost predicate CompletesVia(n: Node, o: Options, q: Request, first: seq<string>, second: seq<string>, n': Node) {
    && IsOrder(first, n.staged) && IsOrder(second, n.staged)
    && PlanFor(n.staged, first, second, o, q).Ok?
    && n' == After(n, PlanFor(n.staged, first, second, o, q).value)
  }

  // Some order of visits for which the request is carried out completely.
  ghost predicate Completes(n: Node, o: Options, q: Request, n': Node) {
    exists first, second :: CompletesVia(n, o, q, first, second, n')
  }

  ghost predicate RefusesVia(n: Node, o: Options, q: Request, first: seq<string>, second: seq<string>, e: Error) {
    IsOrder(first, n.staged) && IsOrder(second, n.staged) && PlanFor(n.staged, first, second, o, q) == Err(e)
  }

  // Some order of visits for which there is nothing to carry out, for that reason.
  ghost predicate Refuses(n: Node, o: Options, q: Request, e: Error) {
    exists first, second :: RefusesVia(n, o, q, first, second, e)
  }

  lemma StepAt(n: Node, o: Options, q: Request, first: seq<string>, second: seq<string>, k: nat, n': Node)
    requires IsOrder(first, n.staged) && IsOrder(second, n.staged)
    requires PlanFor(n.staged, first, second, o, q).Ok?
    requires StoppedAt(n, PlanFor(n.staged, first, second, o, q).value, k, n')
    ensures Step(n, o, q, n')
    ensures k == |PlanFor(n.staged, first, second, o, q).value| ==> Completes(n, o, q, n')
  {
    var plan := PlanFor(n.staged, first, second, o, q).value;
    assert StopsAfter(n, o, q, first, second, k, n');
    if k == |plan| {
      assert plan[..k] == plan;
      assert CompletesVia(n, o, q, first, second, n');
    }
  }

  lemma IdleStep(n: Node, o: Options, q: Request, first: seq<string>, second: seq<string>)
    requires IsOrder(first, n.staged) && IsOrder(second, n.staged)
    ensures Step(n, o, q, n)
    ensures PlanFor(n.staged, first, second, o, q).Err? ==>
              Refuses(n, o, q, PlanFor(n.staged, first, second, o, q).error)
  {
    assert StopsAfter(n, o, q, first, second, 0, n);
    if PlanFor(n.staged, first, second, o, q).Err? {
      assert RefusesVia(n, o, q, first, second, PlanFor(n.staged, first, second, o, q).error);
    }
  }

  lemma StoppedExtend(n: Node, plan: seq<Cmd>, k: nat, mid: Node, n': Node)
    requires StoppedAt(n, plan, k, mid) && k < |plan|
    requires n' == mid || n' == Apply(mid, plan[k])
    ensures StoppedAt(n, plan, if n' == mid then k else k + 1, n')
  {
    assert plan[..k + 1] == plan[..k] + [plan[k]];
    AfterOne(n, plan[..k], plan[k]);
  }

  lemma StoppedNext(n: Node, done: seq<Cmd>, c: Cmd, rest: seq<Cmd>, mid: Node, n': Node)
    requires mid == After(n, done) && (n' == mid || n' == Apply(mid, c))
    ensures StoppedAt(n, done + [c] + rest, if n' == mid then |done| else |done| + 1, n')
    ensures n' == Apply(mid, c) ==> n' == After(n, done + [c])
  {
    var plan := done + [c] + rest;
    assert plan[..|done|] == done && plan[|done|] == c;
    StoppedExtend(n, plan, |done|, mid, n');
    AfterOne(n, done, c);
  }

  lemma StoppedConcat(n: Node, a: seq<Cmd>, b: seq<Cmd>, k: nat, n': Node)
    requires StoppedAt(After(n, a), b, k, n')
    ensures StoppedAt(n, a + b, |a| + k, n')
  {
    assert (a + b)[..|a| + k] == a + b[..k];
    AfterAppend(n, a, b[..k]);
  }

  lemma NothingDone(n: Node, plan: seq<Cmd>)
    ensures StoppedAt(n, plan, 0, n)
  {
    assert plan[..0] == [];
  }

  lemma DoneAll(n: Node, plan: seq<Cmd>, n': Node)
    requires StoppedAt(n, plan, |plan|, n')
    ensures n' == After(n, plan)
  {
    assert plan[..|plan|] == plan;
  }

  lemma RivalsStopped(n: Node, cur: Iface, stas: seq<Iface>, bssid: string, k: nat, n': Node)
    requires StoppedAt(n, DisablePlan(cur, stas), k, n')
    ensures StoppedAt(n, ActivatePlan(cur, stas, bssid), k, n')
  {
    StoppedPrefix(n, DisablePlan(cur, stas), [Set(cur.section, Pin(bssid)), Commit], k, n');
  }

  lemma PinStopped(n: Node, mid: Node, cur: Iface, stas: seq<Iface>, bssid: string, k: nat, n': Node)
    requires StoppedAt(n, DisablePlan(cur, stas), |DisablePlan(cur, stas)|, mid)
    requires StoppedAt(mid, [Set(cur.section, Pin(bssid)), Commit], k, n')
    ensures StoppedAt(n, ActivatePlan(cur, stas, bssid), |DisablePlan(cur, stas)| + k, n')
    ensures |ActivatePlan(cur, stas, bssid)| == |DisablePlan(cur, stas)| + 2
  {
    DoneAll(n, DisablePlan(cur, stas), mid);
    StoppedConcat(n, DisablePlan(cur, stas), [Set(cur.section, Pin(bssid)), Commit], k, n');
  }

  lemma DisablePlanNext(cur: Iface, stas: seq<Iface>, i: nat)
    requires i < |stas|
    ensures DisablePlan(cur, stas[i..])
            == (if IsRival(cur, stas[i]) then [Set(stas[i].section, DISABLE)] else []) + DisablePlan(cur, stas[i + 1..])
  {
    assert stas[i..][1..] == stas[i + 1..];
  }

  lemma AppendNext(done: seq<Cmd>, next: seq<Cmd>, rest: seq<Cmd>)
    ensures done + (next + rest) == done + next + rest
    ensures next == [] ==> done + (next + rest) == done + rest
  {
  }

  lemma StationsAreSections(cfg: Config, order: seq<string>)
    requires IsOrder(order, cfg)
    ensures forall w :: w in Stations(cfg, order) ==> w.section in cfg
  {
    StationsMeaning(cfg, order);
  }

  lemma StoppedPrefix(n: Node, a: seq<Cmd>, b: seq<Cmd>, k: nat, n': Node)
    requires StoppedAt(n, a, k, n')
    ensures StoppedAt(n, a + b, k, n')
  {
    assert (a + b)[..k] == a[..k];
  }

  ghost function StationPlan(cfg: Config, order: seq<string>, o: Options, ssid: string, sec: Security,
                             autoconnect: bool, existing: Option<Iface>): Result<seq<Cmd>>
    requires IsOrder(order, cfg)
  {
    match existing
    case Some(w) => Ok(InPlacePlan(w, o, ssid, sec, autoconnect))
    case None => NewStationPlan(cfg, order, o, ssid, sec, autoconnect)
  }

  // The answer is the profile that the config holds under the id.
  ghost predicate ReadsBack(cfg: Config, id: ProfileId, p: Profile) {
    exists order :: IsOrder(order, cfg) && FindById(Stations(cfg, order), id).Some?
                    && p == ToProfile(FindById(Stations(cfg, order), id).value)
  }

  lemma AddStep(n: Node, o: Options, spec: ProfileSpec, first: seq<string>, second: seq<string>, k: nat, n': Node)
    requires IsOrder(first, n.staged) && IsOrder(second, n.staged)
    requires spec.ssid != "" && !IsUnsupported(spec.security.kind, spec.ipv4, spec.ipv6)
    requires var found := FindById(Stations(n.staged, first), IdOf(Key(spec.ssid, spec.security.kind)));
             var plan := StationPlan(n.staged, second, o, spec.ssid, spec.security, spec.autoconnect, found);
             if plan.Ok? then StoppedAt(n, plan.value, k, n') else n' == n
    ensures var found := FindById(Stations(n.staged, first), IdOf(Key(spec.ssid, spec.security.kind)));
            var plan := StationPlan(n.staged, second, o, spec.ssid, spec.security, spec.autoconnect, found);
            && PlanFor(n.staged, first, second, o, AddRequest(spec)) == plan
            && Step(n, o, AddRequest(spec), n')
            && (plan.Ok? && k == |plan.value| ==> Completes(n, o, AddRequest(spec), n'))
            && (plan.Err? ==> Refuses(n, o, AddRequest(spec), plan.error))
  {
    var plan := PlanFor(n.staged, first, second, o, AddRequest(spec));
    if plan.Ok? {
      StepAt(n, o, AddRequest(spec), first, second, k, n');
    } else {
      IdleStep(n, o, AddRequest(spec), first, second);
    }
  }

  lemma AddedIsStored(n: Node, o: Options, spec: ProfileSpec, n': Node)
    requires IsNamed(n.staged) && Completes(n, o, AddRequest(spec), n')
    ensures IsNamed(n'.staged) && Key(spec.ssid, spec.security.kind) in Abs(n'.staged)
  {
    var first, second :| CompletesVia(n, o, AddRequest(spec), first, second, n');
    AddRefinesUpsert(n, first, second, o, spec);
  }

  lemma PatchedIsStored(n: Node, o: Options, k: Key, patch: ProfilePatch, n': Node)
    requires IsNamed(n.staged) && Completes(n, o, PatchRequest(IdOf(k), patch), n')
    ensures IsNamed(n'.staged) && PatchedKey(k, patch) in Abs(n'.staged)
  {
    var first, second :| CompletesVia(n, o, PatchRequest(IdOf(k), patch), first, second, n');
    PatchRefinesMove(n, first, second, o, k, patch);
  }

  // The plan of a patch that renames.
  ghost function MovePlan(cfg: Config, order: seq<string>, o: Options, cur: Iface, t: Target): Result<seq<Cmd>>
    requires IsOrder(order, cfg)
  {
    match NewStationPlan(cfg, order, o, t.ssid, CarriedSecurity(cur, t.sec), t.autoconnect)
    case Err(e) => Err(e)
    case Ok(plan) => Ok(plan + [Delete(cur.section), Commit])
  }

  ghost function RetargetPlan(cfg: Config, order: seq<string>, o: Options, cur: Iface, t: Target): Result<seq<Cmd>>
    requires IsOrder(order, cfg)
  {
    if Renames(cur, t) then MovePlan(cfg, order, o, cur, t)
    else StationPlan(cfg, order, o, t.ssid, t.sec, t.autoconnect, Some(cur))
  }

  lemma PatchPlanIsRetarget(cfg: Config, o: Options, id: ProfileId, patch: ProfilePatch, cur: Iface,
                            first: seq<string>, second: seq<string>)
    requires IsOrder(first, cfg) && IsOrder(second, cfg)
    requires FindById(Stations(cfg, first), id) == Some(cur)
    requires !IsUnsupported(PatchTarget(cur, patch).sec.kind, patch.ipv4, patch.ipv6)
    ensures PlanFor(cfg, first, second, o, PatchRequest(id, patch))
            == RetargetPlan(cfg, second, o, cur, PatchTarget(cur, patch))
  {
  }

  lemma PatchStep(n: Node, o: Options, id: ProfileId, patch: ProfilePatch, cur: Iface,
                  first: seq<string>, second: seq<string>, k: nat, n': Node)
    requires IsOrder(first, n.staged) && IsOrder(second, n.staged)
    requires FindById(Stations(n.staged, first), id) == Some(cur)
    requires !IsUnsupported(PatchTarget(cur, patch).sec.kind, patch.ipv4, patch.ipv6)
    requires var plan := RetargetPlan(n.staged, second, o, cur, PatchTarget(cur, patch));
             if plan.Ok? then StoppedAt(n, plan.value, k, n') else n' == n
    ensures Step(n, o, PatchRequest(id, patch), n')
    ensures var plan := PlanFor(n.staged, first, second, o, PatchRequest(id, patch));
            && plan == RetargetPlan(n.staged, second, o, cur, PatchTarget(cur, patch))
            && (plan.Err? ==> plan.error == Remote)
            && (plan.Ok? && k == |plan.value| ==> Completes(n, o, PatchRequest(id, patch), n'))
            && (plan.Err? ==> Refuses(n, o, PatchRequest(id, patch), plan.error))
  {
    PatchPlanIsRetarget(n.staged, o, id, patch, cur, first, second);
    if PlanFor(n.staged, first, second, o, PatchRequest(id, patch)).Ok? {
      StepAt(n, o, PatchRequest(id, patch), first, second, k, n');
    } else {
      IdleStep(n, o, PatchRequest(id, patch), first, second);
    }
  }

  lemma DeactivationPlan(cfg: Config, o: Options, id: ProfileId, cur: Iface, first: seq<string>)
    requires IsOrder(first, cfg) && FindById(Stations(cfg, first), id) == Some(cur)
    ensures PlanFor(cfg, first, first, o, DeactivateRequest(id)) == Ok([Set(cur.section, DISABLE), Commit])
  {
  }

  lemma MissingPatchIsRefused(n: Node, o: Options, id: ProfileId, patch: ProfilePatch, first: seq<string>)
    requires IsOrder(first, n.staged) && FindById(Stations(n.staged, first), id).None?
    ensures Refuses(n, o, PatchRequest(id, patch), NotFound)
  {
    assert RefusesVia(n, o, PatchRequest(id, patch), first, first, NotFound);
  }

  lemma UnsupportedIsRefused(n: Node, o: Options, id: ProfileId, patch: ProfilePatch, cur: Iface, first: seq<string>)
    requires IsOrder(first, n.staged) && FindById(Stations(n.staged, first), id) == Some(cur)
    requires IsUnsupported(PatchTarget(cur, patch).sec.kind, patch.ipv4, patch.ipv6)
    ensures Refuses(n, o, PatchRequest(id, patch), Unsupported)
  {
    assert RefusesVia(n, o, PatchRequest(id, patch), first, first, Unsupported);
  }

  lemma MissingIsRefused(n: Node, o: Options, id: ProfileId, first: seq<string>)
    requires IsOrder(first, n.staged) && FindById(Stations(n.staged, first), id).None?
    ensures Refuses(n, o, DeactivateRequest(id), NotFound)
  {
    assert RefusesVia(n, o, DeactivateRequest(id), first, first, NotFound);
  }

  lemma StaysPut(n: Node, o: Options, q: Request, first: seq<string>)
    requires IsOrder(first, n.staged)
    ensures Step(n, o, q, n)
  {
    IdleStep(n, o, q, first, first);
  }

  lemma DeactivateStep(n: Node, o: Options, id: ProfileId, cur: Iface, first: seq<string>, k: nat, n': Node)
    requires IsOrder(first, n.staged) && FindById(Stations(n.staged, first), id) == Some(cur)
    requires StoppedAt(n, [Set(cur.section, DISABLE), Commit], k, n')
    ensures Step(n, o, DeactivateRequest(id), n')
    ensures k == 2 ==> Completes(n, o, DeactivateRequest(id), n')
  {
    DeactivationPlan(n.staged, o, id, cur, first);
    StepAt(n, o, DeactivateRequest(id), first, first, k, n');
  }

  lemma ActivationPlan(cfg: Config, o: Options, id: ProfileId, bssid: string, cur: Iface,
                       first: seq<string>, second: seq<string>)
    requires IsOrder(first, cfg) && IsOrder(second, cfg) && FindById(Stations(cfg, first), id) == Some(cur)
    ensures PlanFor(cfg, first, second, o, ActivateRequest(id, bssid))
            == Ok(ActivatePlan(cur, Stations(cfg, second), bssid))
  {
  }

  lemma ActivateStep(n: Node, o: Options, id: ProfileId, bssid: string, cur: Iface,
                     first: seq<string>, second: seq<string>, k: nat, n': Node)
    requires IsOrder(first, n.staged) && IsOrder(second, n.staged)
    requires FindById(Stations(n.staged, first), id) == Some(cur)
    requires StoppedAt(n, ActivatePlan(cur, Stations(n.staged, second), bssid), k, n')
    ensures Step(n, o, ActivateRequest(id, bssid), n')
    ensures k == |ActivatePlan(cur, Stations(n.staged, second), bssid)| ==>
              Completes(n, o, ActivateRequest(id, bssid), n')
  {
    var plan := ActivatePlan(cur, Stations(n.staged, second), bssid);
    ActivationPlan(n.staged, o, id, bssid, cur, first, second);
    StepAt(n, o, ActivateRequest(id, bssid), first, second, k, n');
  }

  method ToProfiles(stas: seq<Iface>) returns (out: seq<Profile>)
    ensures out == Profiles(stas)
  {
    out := [];
    for i := 0 to |stas|
      invariant |out| == i && forall j :: 0 <= j < i ==> out[j] == ToProfile(stas[j])
    {
      out := out + [ToProfile(stas[i])];
    }
  }

  class Backend {
    var node: Node
    const options: Options
    // Whether every call gets through.
    const reliable: bool

    constructor (n: Node, o: Options, reliable: bool)
      ensures node == n && options == o && this.reliable == reliable
    {
      node, options, this.reliable := n, o, reliable;
    }

    // One write. A success is never reported for a command that was not applied.
    method Call(c: Cmd) returns (ok: bool)
      modifies this
      ensures node == old(node) || node == Apply(old(node), c)
      ensures ok ==> Applies(old(node), c) && node == Apply(old(node), c)
      ensures reliable && Applies(old(node), c) ==> ok
    {
      var arrives, answered := true, true;
      if !reliable {
        arrives, answered := *, *;
      }
      ok := arrives && answered && Applies(node, c);
      if arrives {
        node := Apply(node, c);
      }
    }

    // One read of the staged config; its sections come in any order.
    method Get() returns (ok: bool, order: seq<string>)
      ensures reliable ==> ok
      ensures IsOrder(order, node.staged)
    {
      ok := reliable;
      if !reliable {
        ok := *;
      }
      order := [];
      var rest := node.staged.Keys;
      while rest != {}
        invariant rest <= node.staged.Keys
        invariant forall name :: name in order <==> name in node.staged && name !in rest
        invariant forall i, j :: 0 <= i < j < |order| ==> order[i] != order[j]
        decreases rest
      {
        var name :| name in rest;
        order, rest := order + [name], rest - {name};
      }
    }

    method FindByID(id: ProfileId) returns (ok: bool, found: Option<Iface>, ghost order: seq<string>)
      ensures reliable ==> ok
      ensures IsOrder(order, node.staged) && found == FindById(Stations(node.staged, order), id)
    {
      var read, visit := Get();
      var stas := StaIfaces(node.staged, visit);
      found := FindStation(stas, id);
      ok, order := read, visit;
    }

    method PickRadio() returns (radio: Result<string>, ghost order: seq<string>)
      ensures IsOrder(order, node.staged)
      ensures radio.Ok? ==> RadioFor(node.staged, order, options) == Some(radio.value)
      ensures reliable && radio.Err? ==> RadioFor(node.staged, order, options) == None
    {
      var read, visit := Get();
      order := visit;
      if options.radio != "" {
        return Ok(options.radio), order;
      }
      if !read {
        return Err(Remote), order;
      }
      for i := 0 to |visit|
        invariant FirstRadio(node.staged, visit) == FirstRadio(node.staged, visit[i..])
      {
        assert visit[i..][1..] == visit[i + 1..];
        if node.staged[visit[i]].typ == "wifi-device" {
          return Ok(visit[i]), order;
        }
      }
      return Err(Remote), order;
    }

    method Two(c: Cmd) returns (ok: bool, ghost k: nat)
      modifies this
      ensures StoppedAt(old(node), [c, Commit], k, node)
      ensures ok ==> k == 2 && Applies(old(node), c)
      ensures reliable && Applies(old(node), c) ==> ok
    {
      ghost var n, plan := node, [c, Commit];
      assert plan[..0] == [];
      k := 0;
      ok := Call(c);
      StoppedExtend(n, plan, 0, n, node);
      k := if node == n then 0 else 1;
      if !ok {
        return;
      }
      assert plan[..1] == [c];
      assert StoppedAt(n, plan, 1, node) by {
        assert [c][1..] == [];
      }
      k := 1;
      ghost var mid := node;
      ok := Call(Commit);
      StoppedExtend(n, plan, 1, mid, node);
      k := if node == mid && !ok then 1 else 2;
      if ok {
        assert plan[..2] == plan;
        AfterOne(n, [c], Commit);
        assert plan == [c] + [Commit];
      }
    }

    method SetAndCommit(section: string, values: map<string, string>) returns (ok: bool, ghost k: nat)
      modifies this
      ensures StoppedAt(old(node), [Set(section, values), Commit], k, node)
      ensures ok ==> k == 2
      ensures reliable && section in old(node.staged) ==> ok
    {
      ok, k := Two(Set(section, values));
    }

    method ReadProfile(id: ProfileId) returns (r: Result<Profile>, ghost order: seq<string>)
      ensures IsOrder(order, node.staged)
      ensures r.Ok? ==> ReadsBack(node.staged, id, r.value)
      ensures r.Err? ==> r.error == Remote || (r.error == NotFound && FindById(Stations(node.staged, order), id).None?)
      ensures reliable ==> (r.Ok? <==> FindById(Stations(node.staged, order), id).Some?)
    {
      var ok, found, visit := FindByID(id);
      order := visit;
      if !ok || found.None? {
        return Err(if ok then NotFound else Remote), order;
      }
      return Ok(ToProfile(found.value)), order;
    }

    method ListProfiles() returns (r: Result<seq<Profile>>, ghost order: seq<string>)
      ensures reliable ==> r.Ok?
      ensures IsOrder(order, node.staged)
      ensures r.Ok? ==> r.value == Profiles(Stations(node.staged, order))
    {
      var ok, visit := Get();
      order := visit;
      if !ok {
        return Err(Remote), order;
      }
      var stas := StaIfaces(node.staged, visit);
      var out := ToProfiles(stas);
      return Ok(out), order;
    }

    method WriteStation(ssid: string, sec: Security, autoconnect: bool, existing: Option<Iface>)
      returns (r: Result<()>, ghost order: seq<string>, ghost k: nat)
      modifies this
      ensures IsOrder(order, old(node.staged))
      ensures var plan := StationPlan(old(node.staged), order, options, ssid, sec, autoconnect, existing);
              && (plan.Err? ==> r.Err? && node == old(node))
              && (plan.Ok? ==> StoppedAt(old(node), plan.value, k, node) && (r.Ok? ==> k == |plan.value|))
              && (reliable && plan.Ok? && (existing.Some? ==> existing.value.section in old(node.staged)) ==> r.Ok?)
    {
      var values := map["mode" := "sta", "ssid" := ssid, "encryption" := KindToEnc(sec.kind),
                        "disabled" := BoolToUci(!autoconnect)];
      if options.network != "" {
        values := values["network" := options.network];
      }
      match sec.kind {
        case SecPSK =>
          if sec.passphrase != "" {
            values := values["key" := sec.passphrase];
          } else if existing.Some? && existing.value.key != "" {
            values := values["key" := existing.value.key];
          }
        case SecOpen =>
          values := values["key" := ""];
        case SecEnterprise =>
      }
      ghost var oldKey := if existing.Some? then existing.value.key else "";
      assert values == StationValues(options, ssid, sec, autoconnect, oldKey);
      k := 0;
      if existing.Some? {
        var _, visit := Get();
        order := visit;
        var ok;
        ok, k := SetAndCommit(existing.value.section, values);
        return if ok then Ok(()) else Err(Remote), order, k;
      }
      var radio, visit := PickRadio();
      order := visit;
      if radio.Err? {
        ghost var plan := StationPlan(node.staged, order, options, ssid, sec, autoconnect, existing);
        if plan.Ok? {
          assert plan.value[..0] == [];
        }
        return Err(Remote), order, 0;
      }
      var ok;
      ok, k := Two(Add(SectionName(Key(ssid, sec.kind)), values["device" := radio.value]));
      return if ok then Ok(()) else Err(Remote), order, k;
    }

    // Finds the profile's section and writes it.
    method PutStation(spec: ProfileSpec) returns (ok: bool)
      requires spec.ssid != "" && !IsUnsupported(spec.security.kind, spec.ipv4, spec.ipv6)
      modifies this
      ensures Step(old(node), options, AddRequest(spec), node)
      ensures ok ==> Completes(old(node), options, AddRequest(spec), node)
      ensures reliable && !ok ==> Refuses(old(node), options, AddRequest(spec), Remote) && node == old(node)
    {
      ghost var n := node;
      var key := Key(spec.ssid, spec.security.kind);
      var read, found, first := FindByID(IdOf(key));
      if !read {
        IdleStep(n, options, AddRequest(spec), first, first);
        return false;
      }
      if found.Some? {
        FoundStation(node.staged, first, IdOf(key));
      }
      var w, second, k := WriteStation(spec.ssid, spec.security, spec.autoconnect, found);
      AddStep(n, options, spec, first, second, k, node);
      return w.Ok?;
    }

    method AddProfile(spec: ProfileSpec) returns (r: Result<Profile>)
      modifies this
      ensures Step(old(node), options, AddRequest(spec), node)
      ensures r.Ok? ==> && Completes(old(node), options, AddRequest(spec), node)
                        && ReadsBack(node.staged, IdOf(Key(spec.ssid, spec.security.kind)), r.value)
      ensures r.Err? && (reliable || r.error != Remote) && IsNamed(old(node.staged)) ==>
                Refuses(old(node), options, AddRequest(spec), r.error) && node == old(node)
    {
      if spec.ssid == "" || IsUnsupported(spec.security.kind, spec.ipv4, spec.ipv6) {
        var _, order := Get();
        IdleStep(node, options, AddRequest(spec), order, order);
        return Err(if spec.ssid == "" then Invalid else Unsupported);
      }
      ghost var n := node;
      var ok := PutStation(spec);
      if !ok {
        return Err(Remote);
      }
      ghost var order;
      r, order := ReadProfile(IdOf(Key(spec.ssid, spec.security.kind)));
      if IsNamed(n.staged) {
        AddedIsStored(n, options, spec, node);
        NotFoundMeansAbsent(node.staged, order, Key(spec.ssid, spec.security.kind));
      }
    }

    method DeleteSection(section: string) returns (ok: bool, ghost k: nat)
      modifies this
      ensures StoppedAt(old(node), [Delete(section), Commit], k, node)
      ensures ok ==> k == 2
      ensures reliable && section in old(node.staged) ==> ok
    {
      ok, k := Two(Delete(section));
    }

    method DeleteProfile(id: ProfileId) returns (r: Result<()>)
      modifies this
      ensures Step(old(node), options, DeleteRequest(id), node)
      ensures r.Ok? ==> Completes(old(node), options, DeleteRequest(id), node)
      ensures r.Err? && (reliable || r.error != Remote) ==>
                Refuses(old(node), options, DeleteRequest(id), r.error) && node == old(node)
    {
      ghost var n, q := node, DeleteRequest(id);
      var ok, found, first := FindByID(id);
      IdleStep(n, options, q, first, first);
      if !ok || found.None? {
        return Err(if ok then NotFound else Remote);
      }
      FoundStation(node.staged, first, id);
      var done, k := DeleteSection(found.value.section);
      StepAt(n, options, q, first, first, k, node);
      return if done then Ok(()) else Err(Remote);
    }

    method DisableStation(id: ProfileId, cur: Iface, ghost first: seq<string>) returns (ok: bool)
      requires IsOrder(first, node.staged) && FindById(Stations(node.staged, first), id) == Some(cur)
      modifies this
      ensures Step(old(node), options, DeactivateRequest(id), node)
      ensures ok ==> Completes(old(node), options, DeactivateRequest(id), node)
      ensures reliable ==> ok
    {
      ghost var n := node;
      FoundStation(node.staged, first, id);
      ghost var k;
      ok, k := SetAndCommit(cur.section, DISABLE);
      DeactivateStep(n, options, id, cur, first, k, node);
    }

    method Deactivate(id: ProfileId) returns (r: Result<()>)
      modifies this
      ensures Step(old(node), options, DeactivateRequest(id), node)
      ensures r.Ok? ==> Completes(old(node), options, DeactivateRequest(id), node)
      ensures r.Err? && (reliable || r.error != Remote) ==>
                Refuses(old(node), options, DeactivateRequest(id), r.error) && node == old(node)
    {
      var ok, found, first := FindByID(id);
      if !ok || found.None? {
        StaysPut(node, options, DeactivateRequest(id), first);
        if found.None? {
          MissingIsRefused(node, options, id, first);
        }
        return Err(if ok then NotFound else Remote);
      }
      var done := DisableStation(id, found.value, first);
      if !done {
        return Err(Remote);
      }
      var reloaded := Reload();
      return if reloaded then Ok(()) else Err(Remote);
    }

    // Asking the node to apply its committed config edits nothing.
    method Reload() returns (ok: bool)
      ensures reliable ==> ok
    {
      ok := reliable;
      if !reliable {
        ok := *;
      }
    }

    // Writes the station under its new name, then drops the old section.
    method MoveStation(cur: Iface, t: Target) returns (r: Result<()>, ghost order: seq<string>, ghost k: nat)
      modifies this
      ensures IsOrder(order, old(node.staged))
      ensures var plan := MovePlan(old(node.staged), order, options, cur, t);
              && (plan.Err? ==> r.Err? && node == old(node))
              && (plan.Ok? ==> StoppedAt(old(node), plan.value, k, node) && (r.Ok? ==> k == |plan.value|))
              && (reliable && plan.Ok? && cur.section in old(node.staged) ==> r.Ok?)
    {
      ghost var n := node;
      var sec := t.sec;
      if sec.kind == SecPSK && sec.passphrase == "" {
        sec := Security(sec.kind, cur.key);
      }
      r, order, k := WriteStation(t.ssid, sec, t.autoconnect, None);
      ghost var add := NewStationPlan(n.staged, order, options, t.ssid, sec, t.autoconnect);
      ghost var drop := [Delete(cur.section), Commit];
      if add.Ok? {
        StoppedPrefix(n, add.value, drop, k, node);
      }
      if r.Err? {
        return;
      }
      assert add.value[..k] == add.value;
      AfterTwo(n, add.value[0]);
      var done, k2 := DeleteSection(cur.section);
      StoppedConcat(n, add.value, drop, k2, node);
      return if done then Ok(()) else Err(Remote), order, |add.value| + k2;
    }

    // Writes what a patch asks of the station it was resolved to.
    method Retarget(cur: Iface, t: Target) returns (ok: bool, ghost order: seq<string>, ghost k: nat)
      modifies this
      ensures IsOrder(order, old(node.staged))
      ensures var plan := RetargetPlan(old(node.staged), order, options, cur, t);
              && (plan.Err? ==> !ok && node == old(node))
              && (plan.Ok? ==> StoppedAt(old(node), plan.value, k, node) && (ok ==> k == |plan.value|))
              && (reliable && plan.Ok? && cur.section in old(node.staged) ==> ok)
    {
      var w;
      if t.ssid != cur.ssid || t.sec.kind != EncToKind(cur.encryption) {
        w, order, k := MoveStation(cur, t);
      } else {
        w, order, k := WriteStation(t.ssid, t.sec, t.autoconnect, Some(cur));
      }
      ok := w.Ok?;
    }

    method TargetOf(cur: Iface, patch: ProfilePatch) returns (t: Target)
      ensures t == PatchTarget(cur, patch)
    {
      var ssid := cur.ssid;
      if patch.ssid.Some? {
        ssid := patch.ssid.value;
      }
      var sec := Security(EncToKind(cur.encryption), "");
      if patch.security.Some? {
        sec := patch.security.value;
      }
      var autoconnect := !cur.disabled;
      if patch.autoconnect.Some? {
        autoconnect := patch.autoconnect.value;
      }
      t := Target(ssid, sec, autoconnect);
    }

    // Finds the section an id names and carries the patch out on it; key is what the
    // profile is called afterwards.
    method PatchStation(id: ProfileId, patch: ProfilePatch) returns (r: Result<Key>)
      modifies this
      ensures Step(old(node), options, PatchRequest(id, patch), node)
      ensures r.Ok? ==> && Completes(old(node), options, PatchRequest(id, patch), node)
                        && exists k :: id == IdOf(k) && r.value == PatchedKey(k, patch)
      ensures r.Err? && (reliable || r.error != Remote) ==>
                Refuses(old(node), options, PatchRequest(id, patch), r.error) && node == old(node)
    {
      ghost var n := node;
      var read, found, first := FindByID(id);
      StaysPut(n, options, PatchRequest(id, patch), first);
      if !read || found.None? {
        if found.None? {
          MissingPatchIsRefused(n, options, id, patch, first);
        }
        return Err(if read then NotFound else Remote);
      }
      FoundStation(n.staged, first, id);
      var t := TargetOf(found.value, patch);
      if IsUnsupported(t.sec.kind, patch.ipv4, patch.ipv6) {
        UnsupportedIsRefused(n, options, id, patch, found.value, first);
        return Err(Unsupported);
      }
      var ok, second, k := Retarget(found.value, t);
      PatchStep(n, options, id, patch, found.value, first, second, k, node);
      if !ok {
        return Err(Remote);
      }
      assert PatchedKey(KeyOf(found.value), patch) == Key(t.ssid, t.sec.kind);
      return Ok(Key(t.ssid, t.sec.kind));
    }

    method PatchProfile(id: ProfileId, patch: ProfilePatch) returns (r: Result<Profile>)
      modifies this
      ensures Step(old(node), options, PatchRequest(id, patch), node)
      ensures r.Ok? ==> && Completes(old(node), options, PatchRequest(id, patch), node)
                        && exists k :: id == IdOf(k) && ReadsBack(node.staged, IdOf(PatchedKey(k, patch)), r.value)
      ensures r.Err? && (reliable || r.error != Remote) && IsNamed(old(node.staged)) ==>
                Refuses(old(node), options, PatchRequest(id, patch), r.error) && node == old(node)
    {
      ghost var n := node;
      var key := PatchStation(id, patch);
      if key.Err? {
        return Err(key.error);
      }
      ghost var k :| id == IdOf(k) && key.value == PatchedKey(k, patch);
      ghost var order;
      r, order := ReadProfile(IdOf(key.value));
      if IsNamed(n.staged) {
        PatchedIsStored(n, options, k, patch, node);
        NotFoundMeansAbsent(node.staged, order, key.value);
      }
    }

    // One more command of a plan that has been followed so far.
    method Disable(section: string, ghost n: Node, ghost done: seq<Cmd>, ghost rest: seq<Cmd>)
      returns (ok: bool, ghost k: nat)
      requires section in node.staged && node == After(n, done)
      modifies this
      ensures StoppedAt(n, done + [Set(section, DISABLE)] + rest, k, node)
      ensures ok ==> node == After(n, done + [Set(section, DISABLE)]) && node.staged.Keys == old(node.staged.Keys)
      ensures reliable ==> ok
    {
      ghost var mid, c := node, Set(section, DISABLE);
      ok := Call(Set(section, DISABLE));
      StoppedNext(n, done, c, rest, mid, node);
      k := if node == mid then |done| else |done| + 1;
    }

    // Disables the rivals of a station one by one.
    method DisableRivals(cur: Iface, stas: seq<Iface>) returns (ok: bool, ghost k: nat)
      requires forall w :: w in stas ==> w.section in node.staged
      modifies this
      ensures StoppedAt(old(node), DisablePlan(cur, stas), k, node)
      ensures ok ==> k == |DisablePlan(cur, stas)| && node.staged.Keys == old(node.staged.Keys)
      ensures reliable ==> ok
    {
      ghost var n, done := node, [];
      ghost var plan := DisablePlan(cur, stas);
      for i := 0 to |stas|
        invariant plan == done + DisablePlan(cur, stas[i..])
        invariant node == After(n, done) && node.staged.Keys == n.staged.Keys
      {
        ghost var rest := DisablePlan(cur, stas[i + 1..]);
        DisablePlanNext(cur, stas, i);
        AppendNext(done, if IsRival(cur, stas[i]) then [Set(stas[i].section, DISABLE)] else [], rest);
        var other := stas[i];
        if other.section == cur.section || other.device != cur.device || other.disabled {
          continue;
        }
        assert other in stas;
        ok, k := Disable(other.section, n, done, rest);
        if !ok {
          return;
        }
        done := done + [Set(other.section, DISABLE)];
      }
      assert plan == done && plan[..|plan|] == plan;
      return true, |plan|;
    }

    method PinTarget(section: string, bssid: string) returns (ok: bool, ghost k: nat)
      modifies this
      ensures StoppedAt(old(node), [Set(section, Pin(bssid)), Commit], k, node)
      ensures ok ==> k == 2
      ensures reliable && section in old(node.staged) ==> ok
    {
      ok, k := SetAndCommit(section, map["disabled" := "0", "bssid" := Lower(bssid)]);
    }

    // Everything an activation writes.
    method WriteActivation(cur: Iface, bssid: string) returns (ok: bool, ghost order: seq<string>, ghost k: nat)
      modifies this
      ensures IsOrder(order, old(node.staged))
      ensures var plan := ActivatePlan(cur, Stations(old(node.staged), order), bssid);
              StoppedAt(old(node), plan, k, node) && (ok ==> k == |plan|)
      ensures reliable && cur.section in old(node.staged) ==> ok
    {
      ghost var n := node;
      var again, visit := Get();
      order, k := visit, 0;
      var stas := StaIfaces(node.staged, visit);
      if !again {
        NothingDone(n, ActivatePlan(cur, stas, bssid));
        return false, order, 0;
      }
      StationsAreSections(node.staged, visit);
      ghost var k1;
      ok, k1 := DisableRivals(cur, stas);
      if !ok {
        RivalsStopped(n, cur, stas, bssid, k1, node);
        return ok, order, k1;
      }
      ghost var mid, k2 := node, 0;
      ok, k2 := PinTarget(cur.section, bssid);
      PinStopped(n, mid, cur, stas, bssid, k2, node);
      k := k1 + k2;
    }

    // The station may still fail to associate after its config has been applied.
    method Activate(id: ProfileId, bssid: string) returns (r: Result<()>)
      modifies this
      ensures Step(old(node), options, ActivateRequest(id, bssid), node)
      ensures r.Ok? ==> Completes(old(node), options, ActivateRequest(id, bssid), node)
      ensures r.Err? && r.error != Remote ==>
                Refuses(old(node), options, ActivateRequest(id, bssid), r.error) && node == old(node)
      ensures reliable && r == Err(Remote) ==> Completes(old(node), options, ActivateRequest(id, bssid), node)
    {
      ghost var n, q := node, ActivateRequest(id, bssid);
      var read, found, first := FindByID(id);
      IdleStep(n, options, q, first, first);
      if !read || found.None? {
        return Err(if read then NotFound else Remote);
      }
      FoundStation(node.staged, first, id);
      var done, second, k := WriteActivation(found.value, bssid);
      ActivateStep(n, options, id, bssid, found.value, first, second, k, node);
      if !done {
        return Err(Remote);
      }
      var reloaded := Reload();
      var associated: bool := *;
      return if reloaded && associated then Ok(()) else Err(Remote);
    }
  }

  lemma ActivateStopped(n: Node, o: Options, id: ProfileId, bssid: string,
                        first: seq<string>, second: seq<string>, k: nat)
    requires IsOrder(first, n.staged) && IsOrder(second, n.staged)
    requires FindById(Stations(n.staged, first), id).Some?
    requires k <= |ActivatePlan(FindById(Stations(n.staged, first), id).value, Stations(n.staged, second), bssid)|
    ensures var cur := FindById(Stations(n.staged, first), id).value;
            var plan := ActivatePlan(cur, Stations(n.staged, second), bssid);
            && IsStationAt(n.staged, cur) && IdOf(KeyOf(cur)) == id
            && After(n, plan[..k]).committed == if k < |plan| then n.committed else Activated(n.staged, cur, bssid)
  {
    FoundStation(n.staged, first, id);
    ActivateIsAllOrNothing(n, FindById(Stations(n.staged, first), id).value, second, bssid, k);
  }

  // Whatever becomes of the call, the node's committed config is the one it had or
  // the activated one; and it is the activated one if the call succeeds.
  lemma ActivateCommitsAllOrNothing(n: Node, o: Options, id: ProfileId, bssid: string, n': Node)
    requires Step(n, o, ActivateRequest(id, bssid), n')
    ensures n'.committed == n.committed
            || exists cur :: IsStationAt(n.staged, cur) && IdOf(KeyOf(cur)) == id
                             && n'.committed == Activated(n.staged, cur, bssid)
  {
    var q := ActivateRequest(id, bssid);
    var first, second, k: nat :| StopsAfter(n, o, q, first, second, k, n');
    if FindById(Stations(n.staged, first), id).Some? {
      ActivateStopped(n, o, id, bssid, first, second, k);
    }
  }

  lemma ActivateSuccess(n: Node, o: Options, id: ProfileId, bssid: string, n': Node)
    requires Completes(n, o, ActivateRequest(id, bssid), n')
    ensures exists cur :: IsStationAt(n.staged, cur) && IdOf(KeyOf(cur)) == id
                          && n'.staged == n'.committed == Activated(n.staged, cur, bssid)
  {
    var q := ActivateRequest(id, bssid);
    var first, second :| CompletesVia(n, o, q, first, second, n');
    FoundStation(n.staged, first, id);
    ActivateEffect(n, FindById(Stations(n.staged, first), id).value, second, bssid);
  }
}
