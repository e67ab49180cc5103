// What a completed add or patch leaves in the section it writes, option by option, and
// what the call answers with.
module UbusWrites {
  import opened Wnet
  import opened Uci
  import opened UbusStore
  import opened UbusRefinement
  import opened UbusBackend
  import opened UbusRefusals

  // ---- one section ------------------------------------------------------------------------

  // What a station section is to say about its network; passphrase is the new one.
  datatype Wish = Wish(ssid: string, kind: SecurityKind, passphrase: string, autoconnect: bool)

  // The options that a write decides on.
  const WRITTEN := {"mode", "ssid", "encryption", "disabled", "key", "network"}

  // A key belongs to a network with a passphrase: without a new one the old one stays.
  function WishedKey(w: Wish, oldKey: string): string {
    if w.kind != SecPSK then "" else if w.passphrase == "" then oldKey else w.passphrase
  }

  ghost predicate Says(s: Section, w: Wish, oldKey: string) {
    && s.typ == "wifi-iface" && Opt(s, "mode") == "sta" && Opt(s, "ssid") == w.ssid
    && Opt(s, "encryption") == (if w.kind == SecPSK then "psk2" else "none")
    && Opt(s, "disabled") == (if w.autoconnect then "0" else "1")
    && Opt(s, "key") == WishedKey(w, oldKey)
  }

  // A section written in place: it is bound to the configured network, if there is one,
  // and keeps its radio and whatever else it says.
  ghost predicate IsRewritten(s: Section, base: Section, w: Wish, o: Options) {
    && Says(s, w, Opt(base, "key"))
    && Opt(s, "network") == (if o.network != "" then o.network else Opt(base, "network"))
    && Opt(s, "device") == Opt(base, "device")
    && forall x :: x !in WRITTEN ==> Opt(s, x) == Opt(base, x)
  }

  // A new section: it is on the configured radio, or on some radio of the node, is bound
  // to the configured network, if there is one, and says nothing else.
  ghost predicate IsNew(s: Section, cfg: Config, w: Wish, oldKey: string, o: Options) {
    && Says(s, w, oldKey)
    && Opt(s, "network") == o.network
    && (if o.radio != "" then Opt(s, "device") == o.radio
        else Opt(s, "device") in cfg && cfg[Opt(s, "device")].typ == "wifi-device")
    && forall x :: x !in WRITTEN && x != "device" ==> x !in s.options
  }

  function WishOf(ssid: string, sec: Security, autoconnect: bool): Wish {
    Wish(ssid, sec.kind, sec.passphrase, autoconnect)
  }

  lemma ValuesSay(o: Options, ssid: string, sec: Security, autoconnect: bool, oldKey: string)
    requires sec.kind != SecEnterprise
    ensures var v := StationValues(o, ssid, sec, autoconnect, oldKey);
            && v.Keys <= WRITTEN && {"mode", "ssid", "encryption", "disabled"} <= v.Keys
            && v["mode"] == "sta" && v["ssid"] == ssid
            && v["encryption"] == (if sec.kind == SecPSK then "psk2" else "none")
            && v["disabled"] == (if autoconnect then "0" else "1")
            && ("network" in v <==> o.network != "") && ("network" in v ==> v["network"] == o.network)
            && (if "key" in v then v["key"] else oldKey) == WishedKey(WishOf(ssid, sec, autoconnect), oldKey)
  {
  }

  lemma RewrittenSection(base: Section, o: Options, ssid: string, sec: Security, autoconnect: bool)
    requires base.typ == "wifi-iface" && sec.kind != SecEnterprise
    ensures IsRewritten(Merge(base, StationValues(o, ssid, sec, autoconnect, Opt(base, "key"))), base,
                        WishOf(ssid, sec, autoconnect), o)
  {
    ValuesSay(o, ssid, sec, autoconnect, Opt(base, "key"));
  }

  lemma NewSection(cfg: Config, order: seq<string>, o: Options, ssid: string, sec: Security, autoconnect: bool)
    requires IsOrder(order, cfg) && sec.kind != SecEnterprise && RadioFor(cfg, order, o).Some?
    ensures var values := StationValues(o, ssid, sec, autoconnect, "")["device" := RadioFor(cfg, order, o).value];
            IsNew(Section("wifi-iface", values), cfg, WishOf(ssid, sec, autoconnect), "", o)
  {
    ValuesSay(o, ssid, sec, autoconnect, "");
    FirstRadioMeaning(cfg, order);
  }

  // ---- a completed add -----------------------------------------------------------------------

  // The state after a plan that writes one section.
  ghost predicate HasWritten(n: Node, n': Node, name: string) {
    n'.staged == n'.committed && name in n'.committed && SameElsewhere(n.staged, n'.committed, {name})
  }

  lemma WritesInPlace(n: Node, w: Iface, o: Options, ssid: string, sec: Security, autoconnect: bool)
    requires IsStationAt(n.staged, w) && sec.kind != SecEnterprise
    ensures var n' := After(n, InPlacePlan(w, o, ssid, sec, autoconnect));
            && HasWritten(n, n', w.section)
            && IsRewritten(n'.committed[w.section], n.staged[w.section], WishOf(ssid, sec, autoconnect), o)
  {
    AfterTwo(n, Set(w.section, StationValues(o, ssid, sec, autoconnect, w.key)));
    RewrittenSection(n.staged[w.section], o, ssid, sec, autoconnect);
  }

  lemma WritesNew(n: Node, order: seq<string>, o: Options, ssid: string, sec: Security, autoconnect: bool)
    requires IsOrder(order, n.staged) && sec.kind != SecEnterprise
    requires NewStationPlan(n.staged, order, o, ssid, sec, autoconnect).Ok?
    ensures var n' := After(n, NewStationPlan(n.staged, order, o, ssid, sec, autoconnect).value);
            var name := SectionName(Key(ssid, sec.kind));
            && HasWritten(n, n', name)
            && IsNew(n'.committed[name], n.staged, WishOf(ssid, sec, autoconnect), "", o)
  {
    AfterTwo(n, NewStationPlan(n.staged, order, o, ssid, sec, autoconnect).value[0]);
    NewSection(n.staged, order, o, ssid, sec, autoconnect);
  }

  // An add rewrites the station of that SSID and kind, whatever its section is called, or
  // creates one; it touches nothing else.
  lemma AddWrites(n: Node, o: Options, spec: ProfileSpec, n': Node) returns (name: string)
    requires Completes(n, o, AddRequest(spec), n')
    ensures HasWritten(n, n', name)
    ensures var k, w := Key(spec.ssid, spec.security.kind), WishOf(spec.ssid, spec.security, spec.autoconnect);
            if HasStation(n.staged, IdOf(k)) then
              && name in n.staged && IsStation(n.staged[name]) && StationKey(n.staged[name]) == k
              && IsRewritten(n'.committed[name], n.staged[name], w, o)
            else name == SectionName(k) && IsNew(n'.committed[name], n.staged, w, "", o)
  {
    var first, second :| CompletesVia(n, o, AddRequest(spec), first, second, n');
    var k := Key(spec.ssid, spec.security.kind);
    FoundIffHasStation(n.staged, first, IdOf(k));
    var f := FindById(Stations(n.staged, first), IdOf(k));
    if f.Some? {
      FoundStation(n.staged, first, IdOf(k));
      IdInjective(KeyOf(f.value), k);
      WritesInPlace(n, f.value, o, spec.ssid, spec.security, spec.autoconnect);
      name := f.value.section;
    } else {
      WritesNew(n, second, o, spec.ssid, spec.security, spec.autoconnect);
      name := SectionName(k);
    }
  }

  // ---- a completed patch ---------------------------------------------------------------------

  // What a patch of that section asks for.
  function PatchWish(s: Section, patch: ProfilePatch): Wish {
    Wish(if patch.ssid.Some? then patch.ssid.value else Opt(s, "ssid"),
         if patch.security.Some? then patch.security.value.kind else EncToKind(Opt(s, "encryption")),
         if patch.security.Some? then patch.security.value.passphrase else "",
         if patch.autoconnect.Some? then patch.autoconnect.value else !UciBool(Opt(s, "disabled")))
  }

  lemma TargetIsWish(cfg: Config, w: Iface, patch: ProfilePatch)
    requires IsStationAt(cfg, w)
    ensures var t, wish := PatchTarget(w, patch), PatchWish(cfg[w.section], patch);
            && wish == WishOf(t.ssid, t.sec, t.autoconnect)
            && (Renames(w, t) <==> Key(wish.ssid, wish.kind) != StationKey(cfg[w.section]))
  {
  }

  // A rename carries the key along by writing it as if it were new.
  lemma CarriedKeyIsKept(s: Section, cfg: Config, w: Iface, t: Target, o: Options)
    requires IsNew(s, cfg, WishOf(t.ssid, CarriedSecurity(w, t.sec), t.autoconnect), "", o)
    ensures IsNew(s, cfg, WishOf(t.ssid, t.sec, t.autoconnect), w.key, o)
  {
  }

  // The state after a section has been written under a new name and the old one dropped;
  // if both are the same, it is gone.
  ghost predicate HasMoved(n: Node, n': Node, was: string, name: string) {
    && n'.staged == n'.committed && was !in n'.committed
    && (was != name ==> name in n'.committed)
    && SameElsewhere(n.staged, n'.committed, {was, name})
  }

  ghost function MovedValues(cfg: Config, w: Iface, order: seq<string>, o: Options, t: Target): map<string, string>
    requires IsOrder(order, cfg) && RadioFor(cfg, order, o).Some?
  {
    StationValues(o, t.ssid, CarriedSecurity(w, t.sec), t.autoconnect, "")["device" := RadioFor(cfg, order, o).value]
  }

  lemma MovePlanMeaning(cfg: Config, w: Iface, order: seq<string>, o: Options, t: Target)
    requires IsOrder(order, cfg) && MovePlan(cfg, order, o, w, t).Ok?
    ensures RadioFor(cfg, order, o).Some?
    ensures MovePlan(cfg, order, o, w, t).value
            == [Add(SectionName(Key(t.ssid, t.sec.kind)), MovedValues(cfg, w, order, o, t)), Commit]
               + [Delete(w.section), Commit]
  {
  }

  lemma MovedSection(cfg: Config, w: Iface, order: seq<string>, o: Options, t: Target)
    requires IsOrder(order, cfg) && RadioFor(cfg, order, o).Some? && t.sec.kind != SecEnterprise
    ensures IsNew(Section("wifi-iface", MovedValues(cfg, w, order, o, t)), cfg,
                  WishOf(t.ssid, t.sec, t.autoconnect), w.key, o)
  {
    NewSection(cfg, order, o, t.ssid, CarriedSecurity(w, t.sec), t.autoconnect);
    CarriedKeyIsKept(Section("wifi-iface", MovedValues(cfg, w, order, o, t)), cfg, w, t, o);
  }

  lemma WritesMoved(n: Node, w: Iface, order: seq<string>, o: Options, t: Target)
    requires IsStationAt(n.staged, w) && IsOrder(order, n.staged) && t.sec.kind != SecEnterprise
    requires MovePlan(n.staged, order, o, w, t).Ok?
    ensures var n' := After(n, MovePlan(n.staged, order, o, w, t).value);
            var name := SectionName(Key(t.ssid, t.sec.kind));
            && HasMoved(n, n', w.section, name)
            && (w.section != name ==>
                  IsNew(n'.committed[name], n.staged, WishOf(t.ssid, t.sec, t.autoconnect), w.key, o))
  {
    MovePlanMeaning(n.staged, w, order, o, t);
    MovedSection(n.staged, w, order, o, t);
    AfterFour(n, SectionName(Key(t.ssid, t.sec.kind)), MovedValues(n.staged, w, order, o, t), w.section);
  }

  // A patch rewrites the section of its profile in place if SSID and kind stay. Otherwise
  // it drops that section and creates one for the new SSID and kind, with the stored key
  // if it brings none, on the radio and network a new station gets.
  lemma PatchWrites(n: Node, o: Options, k: Key, patch: ProfilePatch, n': Node) returns (was: string)
    requires Completes(n, o, PatchRequest(IdOf(k), patch), n')
    ensures was in n.staged && IsStation(n.staged[was]) && StationKey(n.staged[was]) == k
    ensures var base, w := n.staged[was], PatchWish(n.staged[was], patch);
            var k', name := Key(w.ssid, w.kind), SectionName(Key(w.ssid, w.kind));
            if k' == k then HasWritten(n, n', was) && IsRewritten(n'.committed[was], base, w, o)
            else && HasMoved(n, n', was, name)
                 && (was != name ==> IsNew(n'.committed[name], n.staged, w, Opt(base, "key"), o))
  {
    var first, second :| CompletesVia(n, o, PatchRequest(IdOf(k), patch), first, second, n');
    FoundStation(n.staged, first, IdOf(k));
    var w := FindById(Stations(n.staged, first), IdOf(k)).value;
    IdInjective(KeyOf(w), k);
    TargetIsWish(n.staged, w, patch);
    var t := PatchTarget(w, patch);
    PatchPlanIsRetarget(n.staged, o, IdOf(k), patch, w, first, second);
    was := w.section;
    if Renames(w, t) {
      WritesMoved(n, w, second, o, t);
    } else {
      WritesInPlace(n, w, o, t.ssid, t.sec, t.autoconnect);
    }
  }

  // ---- answers -----------------------------------------------------------------------------------

  lemma AnswerShows(cfg: Config, k: Key, p: Profile)
    requires IsNamed(cfg) && ReadsBack(cfg, IdOf(k), p)
    ensures Shows(p, Abs(cfg)) && p.id == IdOf(k)
  {
    var order :| IsOrder(order, cfg) && FindById(Stations(cfg, order), IdOf(k)).Some?
                 && p == ToProfile(FindById(Stations(cfg, order), IdOf(k)).value);
    FoundStation(cfg, order, IdOf(k));
    StationAtIsNamed(cfg, FindById(Stations(cfg, order), IdOf(k)).value);
  }

  // A completed add answers with the spec's SSID, flag and kind; the passphrase, the name,
  // the hidden flag and the addresses of the spec are not answered.
  lemma AddAnswers(n: Node, o: Options, spec: ProfileSpec, n': Node, p: Profile)
    requires IsNamed(n.staged) && Completes(n, o, AddRequest(spec), n')
    requires ReadsBack(n'.staged, IdOf(Key(spec.ssid, spec.security.kind)), p)
    ensures p == Profile(IdOf(Key(spec.ssid, spec.security.kind)), spec.ssid, spec.ssid, false, spec.autoconnect,
                         Security(spec.security.kind, ""), NO_CONFIG, NO_CONFIG)
  {
    var first, second :| CompletesVia(n, o, AddRequest(spec), first, second, n');
    var k := Key(spec.ssid, spec.security.kind);
    AddRefinesUpsert(n, first, second, o, spec);
    AnswerShows(n'.staged, k, p);
    IdInjective(Key(p.ssid, p.security.kind), k);
  }

  // A completed patch answers with the new SSID and kind, and the flag it asks for or the
  // one that was stored.
  lemma PatchAnswers(n: Node, o: Options, k: Key, patch: ProfilePatch, n': Node, p: Profile)
    requires IsNamed(n.staged) && Completes(n, o, PatchRequest(IdOf(k), patch), n')
    requires ReadsBack(n'.staged, IdOf(PatchedKey(k, patch)), p)
    ensures k in Abs(n.staged)
    ensures var ssid := if patch.ssid.Some? then patch.ssid.value else k.ssid;
            var kind := if patch.security.Some? then patch.security.value.kind else k.kind;
            var stored := Abs(n.staged)[k];
            var autoconnect := if patch.autoconnect.Some? then patch.autoconnect.value else stored.autoconnect;
            p == Profile(IdOf(Key(ssid, kind)), ssid, ssid, false, autoconnect, Security(kind, ""),
                         NO_CONFIG, NO_CONFIG)
  {
    var first, second :| CompletesVia(n, o, PatchRequest(IdOf(k), patch), first, second, n');
    PatchRefinesMove(n, first, second, o, k, patch);
    AnswerShows(n'.staged, PatchedKey(k, patch), p);
    IdInjective(Key(p.ssid, p.security.kind), PatchedKey(k, patch));
  }
}
