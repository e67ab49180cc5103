// The profile store of the ubus backend: station sections of the wireless config,
// edited through a plan of uci commands, any of which may fail.
module UbusStore {
  import opened Text
  import opened Wnet
  import opened Uci

  // ---- names --------------------------------------------------------------------------

  // A profile of this store: what its id and its section name are derived from.
  datatype Key = Key(ssid: string, kind: SecurityKind)

  // Stands for the hexadecimal of the truncated SHA-1 digest. The digest is assumed
  // free of collisions, so its input serves as its value.
  function Digest(s: string): string {
    s
  }

  function SectionName(k: Key): string {
    "wfm_" + Digest(k.ssid + "\0" + SecType(k.kind))
  }

  function IdOf(k: Key): ProfileId {
    DeriveID(k.ssid, SecType(k.kind))
  }

  function KeyOf(w: Iface): Key {
    Key(w.ssid, EncToKind(w.encryption))
  }

  lemma IdInjective(a: Key, b: Key)
    ensures IdOf(a) == IdOf(b) <==> a == b
  {
    DeriveIDInjective(a.ssid, a.kind, b.ssid, b.kind);
  }

  lemma SectionNameInjective(a: Key, b: Key)
    ensures SectionName(a) == SectionName(b) <==> a == b
  {
    IdInjective(a, b);
    if SectionName(a) == SectionName(b) {
      var x, y := a.ssid + "\0" + SecType(a.kind), b.ssid + "\0" + SecType(b.kind);
      assert ("wfm_" + x)[4..] == x && ("wfm_" + y)[4..] == y;
    }
  }

  // ---- lookup -------------------------------------------------------------------------

  ghost function FindById(stas: seq<Iface>, id: ProfileId): Option<Iface> {
    if stas == [] then None
    else if IdOf(KeyOf(stas[0])) == id then Some(stas[0])
    else FindById(stas[1..], id)
  }

  lemma {:induction false} FindByIdMeaning(stas: seq<Iface>, id: ProfileId)
    ensures var f := FindById(stas, id);
            && (f.Some? ==> f.value in stas && IdOf(KeyOf(f.value)) == id)
            && (f.None? ==> forall w :: w in stas ==> IdOf(KeyOf(w)) != id)
  {
    if stas != [] && IdOf(KeyOf(stas[0])) != id {
      FindByIdMeaning(stas[1..], id);
    }
  }

  // The one that is found stands first among those with the id.
  ghost predicate IsFirstWithId(stas: seq<Iface>, id: ProfileId, w: Iface, i: int) {
    && 0 <= i < |stas| && stas[i] == w && IdOf(KeyOf(w)) == id
    && forall j :: 0 <= j < i ==> IdOf(KeyOf(stas[j])) != id
  }

  lemma ShiftFirst(stas: seq<Iface>, id: ProfileId, w: Iface, i: int)
    requires stas != [] && IdOf(KeyOf(stas[0])) != id
    ensures IsFirstWithId(stas[1..], id, w, i) <==> IsFirstWithId(stas, id, w, i + 1)
  {
    assert forall j :: 0 <= j < |stas[1..]| ==> stas[1..][j] == stas[j + 1];
    if IsFirstWithId(stas[1..], id, w, i) {
      assert forall j :: 0 < j <= i ==> stas[j] == stas[1..][j - 1];
    }
  }

  lemma {:induction false} FindByIdIff(stas: seq<Iface>, id: ProfileId, w: Iface)
    ensures FindById(stas, id) == Some(w) <==> exists i :: IsFirstWithId(stas, id, w, i)
  {
    if stas != [] {
      FindByIdIff(stas[1..], id, w);
      if IdOf(KeyOf(stas[0])) == id {
        assert IsFirstWithId(stas, id, stas[0], 0);
      } else {
        forall i
          ensures IsFirstWithId(stas[1..], id, w, i) <==> IsFirstWithId(stas, id, w, i + 1)
        {
          ShiftFirst(stas, id, w, i);
        }
        assert forall i :: IsFirstWithId(stas, id, w, i) ==> IsFirstWithId(stas[1..], id, w, i - 1);
      }
    }
  }

  method FindStation(stas: seq<Iface>, id: ProfileId) returns (found: Option<Iface>)
    ensures found == FindById(stas, id)
  {
    for i := 0 to |stas|
      invariant FindById(stas, id) == FindById(stas[i..], id)
    {
      assert stas[i..][1..] == stas[i + 1..];
      if IdOf(KeyOf(stas[i])) == id {
        return Some(stas[i]);
      }
    }
    return None;
  }

  // ---- plans ----------------------------------------------------------------------------

  // The backend's own settings: the radio for new stations ("" for the first one)
  // and the network a station binds to.
  datatype Options = Options(radio: string, network: string)

  ghost function FirstRadio(cfg: Config, order: seq<string>): Option<string>
    requires forall name :: name in order ==> name in cfg
  {
    if order == [] then None
    else if cfg[order[0]].typ == "wifi-device" then Some(order[0])
    else FirstRadio(cfg, order[1..])
  }

  ghost function RadioFor(cfg: Config, order: seq<string>, o: Options): Option<string>
    requires IsOrder(order, cfg)
  {
    if o.radio != "" then Some(o.radio) else FirstRadio(cfg, order)
  }

  predicate IsManual(c: Option<IPConfig>) {
    c.Some? && c.value.ipMethod == IPManual
  }

  predicate IsUnsupported(kind: SecurityKind, ipv4: Option<IPConfig>, ipv6: Option<IPConfig>) {
    kind == SecEnterprise || IsManual(ipv4) || IsManual(ipv6)
  }

  // The options written for a station; oldKey is the key of the section they are
  // merged into.
  function StationValues(o: Options, ssid: string, sec: Security, autoconnect: bool, oldKey: string)
    : map<string, string>
  {
    var values := map["mode" := "sta", "ssid" := ssid, "encryption" := KindToEnc(sec.kind),
                      "disabled" := BoolToUci(!autoconnect)];
    var bound := if o.network != "" then values["network" := o.network] else values;
    match sec.kind
    case SecPSK =>
      if sec.passphrase != "" then bound["key" := sec.passphrase]
      else if oldKey != "" then bound["key" := oldKey]
      else bound
    case SecOpen => bound["key" := ""]
    case SecEnterprise => bound
  }

  ghost function NewStationPlan(cfg: Config, order: seq<string>, o: Options, ssid: string, sec: Security,
                                autoconnect: bool)
    : Result<seq<Cmd>>
    requires IsOrder(order, cfg)
  {
    match RadioFor(cfg, order, o)
    case None => Err(Remote)
    case Some(radio) =>
      Ok([Add(SectionName(Key(ssid, sec.kind)), StationValues(o, ssid, sec, autoconnect, "")["device" := radio]),
          Commit])
  }

  ghost function InPlacePlan(w: Iface, o: Options, ssid: string, sec: Security, autoconnect: bool): seq<Cmd> {
    [Set(w.section, StationValues(o, ssid, sec, autoconnect, w.key)), Commit]
  }

  // What a patch asks of the station it was found at.
  datatype Target = Target(ssid: string, sec: Security, autoconnect: bool)

  function PatchTarget(w: Iface, patch: ProfilePatch): Target {
    Target(if patch.ssid.Some? then patch.ssid.value else w.ssid,
           if patch.security.Some? then patch.security.value else Security(EncToKind(w.encryption), ""),
           if patch.autoconnect.Some? then patch.autoconnect.value else !w.disabled)
  }

  function Renames(w: Iface, t: Target): bool {
    t.ssid != w.ssid || t.sec.kind != EncToKind(w.encryption)
  }

  // A rename carries the stored key along.
  function CarriedSecurity(w: Iface, sec: Security): Security {
    if sec.kind == SecPSK && sec.passphrase == "" then Security(sec.kind, w.key) else sec
  }

  ghost function PatchPlan(cfg: Config, order: seq<string>, o: Options, w: Iface, patch: ProfilePatch): Result<seq<Cmd>>
    requires IsOrder(order, cfg)
  {
    var t := PatchTarget(w, patch);
    if IsUnsupported(t.sec.kind, patch.ipv4, patch.ipv6) then Err(Unsupported)
    else if Renames(w, t) then
      match NewStationPlan(cfg, order, o, t.ssid, CarriedSecurity(w, t.sec), t.autoconnect)
      case Err(e) => Err(e)
      case Ok(plan) => Ok(plan + [Delete(w.section), Commit])
    else Ok(InPlacePlan(w, o, t.ssid, t.sec, t.autoconnect))
  }

  ghost function DeletePlan(w: Iface): seq<Cmd> {
    [Delete(w.section), Commit]
  }

  // Peers on the target's radio that are still enabled.
  predicate IsRival(cur: Iface, w: Iface) {
    w.section != cur.section && w.device == cur.device && !w.disabled
  }

  ghost function DisablePlan(cur: Iface, stas: seq<Iface>): seq<Cmd> {
    if stas == [] then []
    else
      (if IsRival(cur, stas[0]) then [Set(stas[0].section, map["disabled" := "1"])] else [])
      + DisablePlan(cur, stas[1..])
  }

  ghost function ActivatePlan(cur: Iface, stas: seq<Iface>, bssid: string): seq<Cmd> {
    DisablePlan(cur, stas) + [Set(cur.section, map["disabled" := "0", "bssid" := Lower(bssid)]), Commit]
  }

  ghost function DeactivatePlan(w: Iface): seq<Cmd> {
    [Set(w.section, map["disabled" := "1"]), Commit]
  }

  // ---- requests ---------------------------------------------------------------------------

  datatype Request =
    | AddRequest(spec: ProfileSpec)
    | PatchRequest(id: ProfileId, patch: ProfilePatch)
    | DeleteRequest(id: ProfileId)
    | ActivateRequest(id: ProfileId, bssid: string)
    | DeactivateRequest(id: ProfileId)

  // The plan a request leads to over the staged config that it reads; first and
  // second are the orders in which its two reads visit the sections.
  ghost function PlanFor(cfg: Config, first: seq<string>, second: seq<string>, o: Options, q: Request): Result<seq<Cmd>>
    requires IsOrder(first, cfg) && IsOrder(second, cfg)
  {
    match q
    case AddRequest(spec) =>
      if spec.ssid == "" then Err(Invalid)
      else if IsUnsupported(spec.security.kind, spec.ipv4, spec.ipv6) then Err(Unsupported)
      else (match FindById(Stations(cfg, first), IdOf(Key(spec.ssid, spec.security.kind)))
            case Some(w) => Ok(InPlacePlan(w, o, spec.ssid, spec.security, spec.autoconnect))
            case None => NewStationPlan(cfg, second, o, spec.ssid, spec.security, spec.autoconnect))
    case PatchRequest(id, patch) =>
      (match FindById(Stations(cfg, first), id)
       case None => Err(NotFound)
       case Some(w) => PatchPlan(cfg, second, o, w, patch))
    case DeleteRequest(id) =>
      (match FindById(Stations(cfg, first), id)
       case None => Err(NotFound)
       case Some(w) => Ok(DeletePlan(w)))
    case ActivateRequest(id, bssid) =>
      (match FindById(Stations(cfg, first), id)
       case None => Err(NotFound)
       case Some(w) => Ok(ActivatePlan(w, Stations(cfg, second), bssid)))
    case DeactivateRequest(id) =>
      (match FindById(Stations(cfg, first), id)
       case None => Err(NotFound)
       case Some(w) => Ok(DeactivatePlan(w)))
  }

  function ToProfile(w: Iface): Profile {
    Profile(IdOf(KeyOf(w)), w.ssid, w.ssid, false, !w.disabled, Security(EncToKind(w.encryption), ""),
            NO_CONFIG, NO_CONFIG)
  }
}
