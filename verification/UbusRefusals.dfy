// When the ubus backend refuses a request, exactly, and when a rename loses a profile.
module UbusRefusals {
  import opened Wnet
  import opened Uci
  import opened UbusStore
  import opened UbusRefinement
  import opened UbusBackend

  ghost predicate HasRadio(cfg: Config, o: Options) {
    o.radio != "" || exists name :: name in cfg && cfg[name].typ == "wifi-device"
  }

  ghost predicate HasStation(cfg: Config, id: ProfileId) {
    exists name :: name in cfg && IsStation(cfg[name]) && IdOf(StationKey(cfg[name])) == id
  }

  // The radio that is visited as the i-th section, with none before it.
  ghost predicate IsFirstRadio(cfg: Config, order: seq<string>, radio: string, i: nat)
    requires i < |order| && forall name :: name in order ==> name in cfg
  {
    && order[i] == radio && cfg[radio].typ == "wifi-device"
    && forall j :: 0 <= j < i ==> cfg[order[j]].typ != "wifi-device"
  }

  lemma {:induction false} FirstRadioMeaning(cfg: Config, order: seq<string>)
    requires forall name :: name in order ==> name in cfg
    ensures var r := FirstRadio(cfg, order);
            && (r.Some? ==> exists i :: 0 <= i < |order| && IsFirstRadio(cfg, order, r.value, i))
            && (r.Some? ==> r.value in order && cfg[r.value].typ == "wifi-device")
            && (r.None? ==> forall name :: name in order ==> cfg[name].typ != "wifi-device")
  {
    if order != [] && cfg[order[0]].typ == "wifi-device" {
      assert IsFirstRadio(cfg, order, order[0], 0);
    } else if order != [] {
      FirstRadioMeaning(cfg, order[1..]);
      var r := FirstRadio(cfg, order[1..]);
      if r.Some? {
        var i :| 0 <= i < |order[1..]| && IsFirstRadio(cfg, order[1..], r.value, i);
        assert forall j :: 0 < j <= i ==> order[j] == order[1..][j - 1];
        assert IsFirstRadio(cfg, order, r.value, i + 1);
      }
    }
  }

  lemma RadioIffHasRadio(cfg: Config, order: seq<string>, o: Options)
    requires IsOrder(order, cfg)
    ensures RadioFor(cfg, order, o).Some? <==> HasRadio(cfg, o)
  {
    FirstRadioMeaning(cfg, order);
  }

  lemma FoundIffHasStation(cfg: Config, order: seq<string>, id: ProfileId)
    requires IsOrder(order, cfg)
    ensures FindById(Stations(cfg, order), id).Some? <==> HasStation(cfg, id)
  {
    StationsMeaning(cfg, order);
    FindByIdMeaning(Stations(cfg, order), id);
    if HasStation(cfg, id) {
      var name :| name in cfg && IsStation(cfg[name]) && IdOf(StationKey(cfg[name])) == id;
      assert ToIface(name, cfg[name]) in Stations(cfg, order);
    }
  }

  // What an add needs: an SSID, security and addressing that the node can hold, and
  // a radio unless the station exists already.
  ghost predicate CanAdd(cfg: Config, o: Options, spec: ProfileSpec) {
    && spec.ssid != "" && spec.security.kind != SecEnterprise
    && (spec.ipv4.Some? ==> spec.ipv4.value.ipMethod != IPManual)
    && (spec.ipv6.Some? ==> spec.ipv6.value.ipMethod != IPManual)
    && (HasStation(cfg, IdOf(Key(spec.ssid, spec.security.kind))) || HasRadio(cfg, o))
  }

  // Why an add is refused: its own faults come first.
  ghost function AddFault(spec: ProfileSpec): Error {
    if spec.ssid == "" then Invalid
    else if || spec.security.kind == SecEnterprise
            || (spec.ipv4.Some? && spec.ipv4.value.ipMethod == IPManual)
            || (spec.ipv6.Some? && spec.ipv6.value.ipMethod == IPManual) then Unsupported
    else Remote
  }

  lemma AddPlanIff(cfg: Config, o: Options, spec: ProfileSpec, first: seq<string>, second: seq<string>)
    requires IsOrder(first, cfg) && IsOrder(second, cfg)
    ensures var plan := PlanFor(cfg, first, second, o, AddRequest(spec));
            (plan.Ok? <==> CanAdd(cfg, o, spec)) && (plan.Err? ==> plan.error == AddFault(spec))
  {
    FoundIffHasStation(cfg, first, IdOf(Key(spec.ssid, spec.security.kind)));
    RadioIffHasRadio(cfg, second, o);
  }

  // An add is refused exactly if it lacks what it needs, whatever the order of visits:
  // as invalid without an SSID, as unsupported if the node cannot hold it, and as failed
  // if there is no radio to put a new station on.
  lemma AddRefusedIff(n: Node, o: Options, spec: ProfileSpec, e: Error, order: seq<string>)
    requires IsOrder(order, n.staged)
    ensures Refuses(n, o, AddRequest(spec), e) <==> !CanAdd(n.staged, o, spec) && e == AddFault(spec)
  {
    AddPlanIff(n.staged, o, spec, order, order);
    if Refuses(n, o, AddRequest(spec), e) {
      var first, second :| RefusesVia(n, o, AddRequest(spec), first, second, e);
      AddPlanIff(n.staged, o, spec, first, second);
    } else {
      assert !RefusesVia(n, o, AddRequest(spec), order, order, e);
    }
  }

  predicate NamesStation(q: Request, id: ProfileId) {
    q == DeleteRequest(id) || q == DeactivateRequest(id) || (q.ActivateRequest? && q.id == id)
  }

  // A delete, an activation and a deactivation are refused exactly if no station has
  // the id, and as not found.
  lemma LookupRefusedIff(n: Node, o: Options, q: Request, id: ProfileId, e: Error, order: seq<string>)
    requires IsOrder(order, n.staged) && NamesStation(q, id)
    ensures Refuses(n, o, q, e) <==> !HasStation(n.staged, id) && e == NotFound
  {
    LookupPlanIff(n.staged, o, q, id, order, order);
    if Refuses(n, o, q, e) {
      var first, second :| RefusesVia(n, o, q, first, second, e);
      LookupPlanIff(n.staged, o, q, id, first, second);
    } else {
      assert !RefusesVia(n, o, q, order, order, e);
    }
  }

  lemma LookupPlanIff(cfg: Config, o: Options, q: Request, id: ProfileId, first: seq<string>, second: seq<string>)
    requires IsOrder(first, cfg) && IsOrder(second, cfg) && NamesStation(q, id)
    ensures var plan := PlanFor(cfg, first, second, o, q);
            (plan.Ok? <==> HasStation(cfg, id)) && (plan.Err? ==> plan.error == NotFound)
  {
    FoundIffHasStation(cfg, first, id);
    match q
    case DeleteRequest(_) =>
    case DeactivateRequest(_) =>
    case ActivateRequest(_, _) =>
    case _ =>
  }

  // What a patch of the profile k needs: a station, a result that the node can hold,
  // and a radio if it renames.
  ghost predicate CanPatch(cfg: Config, o: Options, k: Key, patch: ProfilePatch) {
    && HasStation(cfg, IdOf(k)) && PatchedKey(k, patch).kind != SecEnterprise
    && (patch.ipv4.Some? ==> patch.ipv4.value.ipMethod != IPManual)
    && (patch.ipv6.Some? ==> patch.ipv6.value.ipMethod != IPManual)
    && (PatchedKey(k, patch) == k || HasRadio(cfg, o))
  }

  // Why a patch is refused: a missing station comes first, then what it asks for.
  ghost function PatchFault(cfg: Config, k: Key, patch: ProfilePatch): Error {
    if !HasStation(cfg, IdOf(k)) then NotFound
    else if || (if patch.security.Some? then patch.security.value.kind else k.kind) == SecEnterprise
            || (patch.ipv4.Some? && patch.ipv4.value.ipMethod == IPManual)
            || (patch.ipv6.Some? && patch.ipv6.value.ipMethod == IPManual) then Unsupported
    else Remote
  }

  lemma RenamesIff(w: Iface, patch: ProfilePatch)
    ensures Renames(w, PatchTarget(w, patch)) <==> PatchedKey(KeyOf(w), patch) != KeyOf(w)
    ensures PatchTarget(w, patch).sec.kind == PatchedKey(KeyOf(w), patch).kind
  {
  }

  lemma PatchPlanIff(cfg: Config, o: Options, k: Key, patch: ProfilePatch, first: seq<string>, second: seq<string>)
    requires IsOrder(first, cfg) && IsOrder(second, cfg)
    ensures var plan := PlanFor(cfg, first, second, o, PatchRequest(IdOf(k), patch));
            (plan.Ok? <==> CanPatch(cfg, o, k, patch)) && (plan.Err? ==> plan.error == PatchFault(cfg, k, patch))
  {
    FoundIffHasStation(cfg, first, IdOf(k));
    RadioIffHasRadio(cfg, second, o);
    if FindById(Stations(cfg, first), IdOf(k)).Some? {
      FoundStation(cfg, first, IdOf(k));
      IdInjective(KeyOf(FindById(Stations(cfg, first), IdOf(k)).value), k);
      RenamesIff(FindById(Stations(cfg, first), IdOf(k)).value, patch);
    }
  }

  lemma PatchRefusedIff(n: Node, o: Options, k: Key, patch: ProfilePatch, e: Error, order: seq<string>)
    requires IsOrder(order, n.staged)
    ensures Refuses(n, o, PatchRequest(IdOf(k), patch), e) <==>
              !CanPatch(n.staged, o, k, patch) && e == PatchFault(n.staged, k, patch)
  {
    var q := PatchRequest(IdOf(k), patch);
    PatchPlanIff(n.staged, o, k, patch, order, order);
    if Refuses(n, o, q, e) {
      var first, second :| RefusesVia(n, o, q, first, second, e);
      PatchPlanIff(n.staged, o, k, patch, first, second);
    } else {
      assert !RefusesVia(n, o, q, order, order, e);
    }
  }

  // ---- what a rename leaves ---------------------------------------------------------------

  ghost predicate HasOther(cfg: Config, section: string, k: Key) {
    exists name :: name in cfg && name != section && IsStation(cfg[name]) && StationKey(cfg[name]) == k
  }

  lemma MovedStation(cfg: Config, section: string, name: string, s: Section, k: Key)
    requires IsStation(s) && StationKey(s) == k
    ensures HasStation(cfg[name := s] - {section}, IdOf(k)) <==> section != name || HasOther(cfg, section, k)
  {
    var cfg' := cfg[name := s] - {section};
    if section != name {
      assert name in cfg' && IsStation(cfg'[name]) && IdOf(StationKey(cfg'[name])) == IdOf(k);
    } else {
      if HasOther(cfg, section, k) {
        var x :| x in cfg && x != section && IsStation(cfg[x]) && StationKey(cfg[x]) == k;
        assert x in cfg' && IdOf(StationKey(cfg'[x])) == IdOf(k);
      }
      if HasStation(cfg', IdOf(k)) {
        var x :| x in cfg' && IsStation(cfg'[x]) && IdOf(StationKey(cfg'[x])) == IdOf(k);
        IdInjective(StationKey(cfg'[x]), k);
      }
    }
  }

  // A renaming patch writes the new section before it deletes the old one. In a config
  // without the naming invariant the two can be the same section. The renamed profile
  // is found afterwards exactly if they are not, or another station already has the
  // new SSID and kind.
  lemma RenameSurvivesIff(n: Node, w: Iface, order: seq<string>, o: Options, patch: ProfilePatch)
    requires IsOrder(order, n.staged) && IsStationAt(n.staged, w)
    requires Renames(w, PatchTarget(w, patch)) && PatchPlan(n.staged, order, o, w, patch).Ok?
    ensures var cfg' := After(n, PatchPlan(n.staged, order, o, w, patch).value).staged;
            var k' := PatchedKey(KeyOf(w), patch);
            HasStation(cfg', IdOf(k')) <==> w.section != SectionName(k') || HasOther(n.staged, w.section, k')
  {
    var t := PatchTarget(w, patch);
    var radio, sec := RadioFor(n.staged, order, o).value, CarriedSecurity(w, t.sec);
    var k', values := Key(t.ssid, sec.kind), StationValues(o, t.ssid, sec, t.autoconnect, "")["device" := radio];
    NewStation(o, t.ssid, sec, t.autoconnect, radio);
    AfterFour(n, SectionName(k'), values, w.section);
    MovedStation(n.staged, w.section, SectionName(k'), Section("wifi-iface", values), k');
  }
}
