// A node on which other tools keep stations too, under names of their own: how far the
// station store still is a map there.
module UbusShared {
  import opened Wnet
  import opened Uci
  import opened UbusStore
  import opened UbusRefinement
  import opened UbusInterrupted
  import opened UbusRefusals

  // The stations of the config, whatever their sections are called, are the entries of
  // the map.
  ghost predicate IsView(cfg: Config, m: map<Key, Entry>) {
    AreEntries(cfg, m) && AreStations(m, cfg)
  }

  ghost predicate AreEntries(cfg: Config, m: map<Key, Entry>) {
    forall name :: name in cfg && IsStation(cfg[name]) ==>
                     StationKey(cfg[name]) in m && m[StationKey(cfg[name])] == EntryOf(cfg[name])
  }

  ghost predicate AreStations(m: map<Key, Entry>, cfg: Config) {
    forall k :: k in m ==> HasStation(cfg, IdOf(k))
  }

  lemma StationOfKey(cfg: Config, k: Key) returns (name: string)
    requires HasStation(cfg, IdOf(k))
    ensures name in cfg && IsStation(cfg[name]) && StationKey(cfg[name]) == k
  {
    name :| name in cfg && IsStation(cfg[name]) && IdOf(StationKey(cfg[name])) == IdOf(k);
    IdInjective(StationKey(cfg[name]), k);
  }

  lemma IsStationOfKey(cfg: Config, name: string)
    requires name in cfg && IsStation(cfg[name])
    ensures HasStation(cfg, IdOf(StationKey(cfg[name])))
  {
  }

  // With derived names, the map is the one of the naming invariant.
  lemma NamedView(cfg: Config)
    requires IsNamed(cfg)
    ensures IsView(cfg, Abs(cfg)) && HasUniqueKeys(cfg)
  {
    forall k | k in Abs(cfg)
      ensures HasStation(cfg, IdOf(k))
    {
      InAbs(cfg, k);
      IsStationOfKey(cfg, SectionName(k));
    }
    forall name | name in cfg && IsStation(cfg[name])
      ensures StationKey(cfg[name]) in Abs(cfg) && Abs(cfg)[StationKey(cfg[name])] == EntryOf(cfg[name])
    {
      InAbs(cfg, StationKey(cfg[name]));
    }
  }

  // ---- edits on the map ---------------------------------------------------------------------

  lemma OnlyHolder(cfg: Config, name: string, s: Section, x: string)
    requires !HasOther(cfg, name, StationKey(s)) && x in cfg[name := s] && IsStation(cfg[name := s][x]) && x != name
    ensures x in cfg && cfg[name := s][x] == cfg[x] && StationKey(cfg[x]) != StationKey(s)
  {
  }

  lemma PutKeepsUnique(cfg: Config, name: string, s: Section)
    requires HasUniqueKeys(cfg) && !HasOther(cfg, name, StationKey(s))
    ensures HasUniqueKeys(cfg[name := s])
  {
    forall x | x in cfg[name := s] && IsStation(cfg[name := s][x]) && x != name
      ensures x in cfg && cfg[name := s][x] == cfg[x] && StationKey(cfg[x]) != StationKey(s)
    {
      OnlyHolder(cfg, name, s, x);
    }
  }

  lemma PutKeepsStation(cfg: Config, m: map<Key, Entry>, name: string, s: Section, k: Key)
    requires IsView(cfg, m) && IsStation(s) && (k in m || k == StationKey(s))
    requires name in cfg && IsStation(cfg[name]) ==> StationKey(cfg[name]) == StationKey(s)
    ensures HasStation(cfg[name := s], IdOf(k))
  {
    if k == StationKey(s) {
      IsStationOfKey(cfg[name := s], name);
    } else {
      var x := StationOfKey(cfg, k);
      assert x != name;
      IsStationOfKey(cfg[name := s], x);
    }
  }

  lemma PutKeepsEntries(cfg: Config, m: map<Key, Entry>, name: string, s: Section)
    requires AreEntries(cfg, m) && IsStation(s) && !HasOther(cfg, name, StationKey(s))
    ensures AreEntries(cfg[name := s], m[StationKey(s) := EntryOf(s)])
  {
    forall x | x in cfg[name := s] && IsStation(cfg[name := s][x]) && x != name
      ensures x in cfg && cfg[name := s][x] == cfg[x] && StationKey(cfg[x]) != StationKey(s)
    {
      OnlyHolder(cfg, name, s, x);
    }
  }

  // Writing a section whose present key, if it is a station, is the new one.
  lemma PutView(cfg: Config, m: map<Key, Entry>, name: string, s: Section)
    requires IsView(cfg, m) && HasUniqueKeys(cfg) && IsStation(s)
    requires name in cfg && IsStation(cfg[name]) ==> StationKey(cfg[name]) == StationKey(s)
    requires !HasOther(cfg, name, StationKey(s))
    ensures IsView(cfg[name := s], m[StationKey(s) := EntryOf(s)]) && HasUniqueKeys(cfg[name := s])
  {
    PutKeepsUnique(cfg, name, s);
    PutKeepsEntries(cfg, m, name, s);
    forall k | k in m[StationKey(s) := EntryOf(s)]
      ensures HasStation(cfg[name := s], IdOf(k))
    {
      PutKeepsStation(cfg, m, name, s, k);
    }
  }

  lemma DropView(cfg: Config, m: map<Key, Entry>, name: string)
    requires IsView(cfg, m) && HasUniqueKeys(cfg) && name in cfg && IsStation(cfg[name])
    ensures IsView(cfg - {name}, m - {StationKey(cfg[name])}) && HasUniqueKeys(cfg - {name})
  {
    var cfg', k := cfg - {name}, StationKey(cfg[name]);
    forall j | j in m && j != k
      ensures HasStation(cfg', IdOf(j))
    {
      var x := StationOfKey(cfg, j);
      IsStationOfKey(cfg', x);
    }
  }

  lemma InView(cfg: Config, m: map<Key, Entry>, k: Key)
    requires IsView(cfg, m)
    ensures k in m <==> HasStation(cfg, IdOf(k))
  {
    if HasStation(cfg, IdOf(k)) {
      var name := StationOfKey(cfg, k);
    }
  }

  lemma StationInView(cfg: Config, m: map<Key, Entry>, w: Iface)
    requires IsView(cfg, m) && HasUniqueKeys(cfg) && IsStationAt(cfg, w)
    ensures KeyOf(w) in m && m[KeyOf(w)] == Entry(w.key, !w.disabled)
    ensures !HasOther(cfg, w.section, KeyOf(w))
  {
  }

  // ---- add ------------------------------------------------------------------------------------

  // A new profile would take the name of another profile's section.
  ghost predicate Collides(cfg: Config, k: Key) {
    var name := SectionName(k);
    && name in cfg && IsStation(cfg[name]) && StationKey(cfg[name]) != k
    && !HasStation(cfg, IdOf(k))
  }

  lemma InPlaceView(n: Node, m: map<Key, Entry>, w: Iface, o: Options, sec: Security, autoconnect: bool)
    requires IsView(n.staged, m) && HasUniqueKeys(n.staged) && IsStationAt(n.staged, w)
    requires sec.kind == EncToKind(w.encryption) && sec.kind != SecEnterprise
    ensures var n' := After(n, InPlacePlan(w, o, w.ssid, sec, autoconnect));
            && n'.staged == n'.committed && HasUniqueKeys(n'.staged)
            && IsView(n'.staged, m[KeyOf(w) := Entry(KeptKey(sec, w.key), autoconnect)])
  {
    var values := StationValues(o, w.ssid, sec, autoconnect, w.key);
    AfterTwo(n, Set(w.section, values));
    WrittenStation(n.staged[w.section], o, w.ssid, sec, autoconnect);
    StationInView(n.staged, m, w);
    PutView(n.staged, m, w.section, Merge(n.staged[w.section], values));
  }

  lemma NewView(n: Node, m: map<Key, Entry>, o: Options, ssid: string, sec: Security, autoconnect: bool, radio: string)
    requires IsView(n.staged, m) && HasUniqueKeys(n.staged) && sec.kind != SecEnterprise
    requires !HasStation(n.staged, IdOf(Key(ssid, sec.kind)))
    ensures var k := Key(ssid, sec.kind);
            var values := StationValues(o, ssid, sec, autoconnect, "")["device" := radio];
            var n' := After(n, [Add(SectionName(k), values), Commit]);
            && n'.staged == n'.committed
            && (IsView(n'.staged, m[k := Entry(KeptKey(sec, ""), autoconnect)]) <==> !Collides(n.staged, k))
            && (!Collides(n.staged, k) ==> HasUniqueKeys(n'.staged))
  {
    var k := Key(ssid, sec.kind);
    var values := StationValues(o, ssid, sec, autoconnect, "")["device" := radio];
    AfterTwo(n, Add(SectionName(k), values));
    NewStation(o, ssid, sec, autoconnect, radio);
    NoOther(n.staged, SectionName(k), k);
    if Collides(n.staged, k) {
      VictimIsLost(n.staged, m, SectionName(k), Section("wifi-iface", values),
                   Entry(KeptKey(sec, ""), autoconnect));
    } else {
      if SectionName(k) in n.staged && IsStation(n.staged[SectionName(k)]) {
        IsStationOfKey(n.staged, SectionName(k));
      }
      PutView(n.staged, m, SectionName(k), Section("wifi-iface", values));
    }
  }

  lemma NoOther(cfg: Config, name: string, k: Key)
    requires !HasStation(cfg, IdOf(k))
    ensures !HasOther(cfg, name, k)
  {
  }

  lemma VictimIsLost(cfg: Config, m: map<Key, Entry>, name: string, s: Section, e: Entry)
    requires IsView(cfg, m) && HasUniqueKeys(cfg) && name in cfg && IsStation(cfg[name])
    requires StationKey(cfg[name]) != StationKey(s)
    ensures !IsView(cfg[name := s], m[StationKey(s) := e])
  {
    var k := StationKey(cfg[name]);
    if HasStation(cfg[name := s], IdOf(k)) {
      var x := StationOfKey(cfg[name := s], k);
    }
  }

  // On a node whose stations have different keys, under whatever names, an add is an
  // upsert exactly if it does not take the name of another profile's section.
  lemma AddOnSharedIff(n: Node, m: map<Key, Entry>,
                       first: seq<string>, second: seq<string>, o: Options, spec: ProfileSpec)
    requires IsOrder(first, n.staged) && IsOrder(second, n.staged)
    requires IsView(n.staged, m) && HasUniqueKeys(n.staged)
    requires PlanFor(n.staged, first, second, o, AddRequest(spec)).Ok?
    ensures var n' := After(n, PlanFor(n.staged, first, second, o, AddRequest(spec)).value);
            var k := Key(spec.ssid, spec.security.kind);
            && n'.staged == n'.committed
            && (IsView(n'.staged, m[k := Entry(KeptKey(spec.security, OldKey(m, k)), spec.autoconnect)])
                <==> !Collides(n.staged, k))
            && (!Collides(n.staged, k) ==> HasUniqueKeys(n'.staged))
  {
    var k := Key(spec.ssid, spec.security.kind);
    var f := FindById(Stations(n.staged, first), IdOf(k));
    FoundIffHasStation(n.staged, first, IdOf(k));
    InView(n.staged, m, k);
    if f.Some? {
      FoundStation(n.staged, first, IdOf(k));
      IdInjective(KeyOf(f.value), k);
      StationInView(n.staged, m, f.value);
      InPlaceView(n, m, f.value, o, spec.security, spec.autoconnect);
    } else {
      NewView(n, m, o, spec.ssid, spec.security, spec.autoconnect, RadioFor(n.staged, second, o).value);
    }
  }

  // ---- delete ---------------------------------------------------------------------------------

  lemma DropEffect(n: Node, m: map<Key, Entry>, w: Iface)
    requires IsView(n.staged, m) && HasUniqueKeys(n.staged) && IsStationAt(n.staged, w)
    ensures var n' := After(n, DeletePlan(w));
            n'.staged == n'.committed && IsView(n'.staged, m - {KeyOf(w)}) && HasUniqueKeys(n'.staged)
  {
    AfterTwo(n, Delete(w.section));
    DropView(n.staged, m, w.section);
  }

  lemma DeletePlanIff(cfg: Config, m: map<Key, Entry>, first: seq<string>, second: seq<string>, o: Options, k: Key)
    requires IsOrder(first, cfg) && IsOrder(second, cfg) && IsView(cfg, m)
    ensures PlanFor(cfg, first, second, o, DeleteRequest(IdOf(k))).Ok? <==> k in m
    ensures k in m ==> FindById(Stations(cfg, first), IdOf(k)).Some?
                       && PlanFor(cfg, first, second, o, DeleteRequest(IdOf(k)))
                          == Ok(DeletePlan(FindById(Stations(cfg, first), IdOf(k)).value))
  {
    FoundIffHasStation(cfg, first, IdOf(k));
    InView(cfg, m, k);
  }

  // On such a node a delete removes one key, and is refused exactly for an absent one.
  lemma DeleteOnShared(n: Node, m: map<Key, Entry>, first: seq<string>, second: seq<string>, o: Options, k: Key)
    requires IsOrder(first, n.staged) && IsOrder(second, n.staged)
    requires IsView(n.staged, m) && HasUniqueKeys(n.staged)
    ensures var plan := PlanFor(n.staged, first, second, o, DeleteRequest(IdOf(k)));
            && (plan.Ok? <==> k in m)
            && (plan.Ok? ==>
                  var n' := After(n, plan.value);
                  n'.staged == n'.committed && IsView(n'.staged, m - {k}) && HasUniqueKeys(n'.staged))
  {
    DeletePlanIff(n.staged, m, first, second, o, k);
    if k in m {
      FoundStation(n.staged, first, IdOf(k));
      var w := FindById(Stations(n.staged, first), IdOf(k)).value;
      IdInjective(KeyOf(w), k);
      DropEffect(n, m, w);
    }
  }

  // ---- patch ----------------------------------------------------------------------------------

  // The section that a renaming patch writes.
  ghost function RenamedSection(cfg: Config, order: seq<string>, o: Options, w: Iface, patch: ProfilePatch): Section
    requires IsOrder(order, cfg)
  {
    var t := PatchTarget(w, patch);
    var values := StationValues(o, t.ssid, CarriedSecurity(w, t.sec), t.autoconnect, "");
    Section("wifi-iface", values["device" := Radio(cfg, order, o)])
  }

  lemma RenameIsMove(n: Node, w: Iface, order: seq<string>, o: Options, patch: ProfilePatch)
    requires IsOrder(order, n.staged) && IsStationAt(n.staged, w)
    requires Renames(w, PatchTarget(w, patch)) && PatchPlan(n.staged, order, o, w, patch).Ok?
    ensures var s, k' := RenamedSection(n.staged, order, o, w, patch), PatchedKey(KeyOf(w), patch);
            var cfg' := n.staged[SectionName(k') := s] - {w.section};
            After(n, PatchPlan(n.staged, order, o, w, patch).value) == Node(cfg', cfg')
  {
    var t := PatchTarget(w, patch);
    var values := StationValues(o, t.ssid, CarriedSecurity(w, t.sec), t.autoconnect, "");
    AfterFour(n, SectionName(Key(t.ssid, t.sec.kind)), values["device" := Radio(n.staged, order, o)], w.section);
  }

  lemma RenamedStation(cfg: Config, order: seq<string>, o: Options, w: Iface, patch: ProfilePatch)
    requires IsOrder(order, cfg) && PatchTarget(w, patch).sec.kind != SecEnterprise
    ensures var s := RenamedSection(cfg, order, o, w, patch);
            && IsStation(s) && StationKey(s) == PatchedKey(KeyOf(w), patch)
            && EntryOf(s) == PatchedEntry(KeyOf(w), Entry(w.key, !w.disabled), patch)
  {
    var t := PatchTarget(w, patch);
    NewStation(o, t.ssid, CarriedSecurity(w, t.sec), t.autoconnect, Radio(cfg, order, o));
  }

  // A renaming patch leaves two stations with one key exactly if another section than
  // the one it writes has the new key, and the one it writes is not the one it drops.
  lemma RenameKeepsUniqueIff(n: Node, w: Iface, order: seq<string>, o: Options, patch: ProfilePatch)
    requires IsOrder(order, n.staged) && IsStationAt(n.staged, w) && HasUniqueKeys(n.staged)
    requires Renames(w, PatchTarget(w, patch)) && PatchPlan(n.staged, order, o, w, patch).Ok?
    ensures var cfg' := After(n, PatchPlan(n.staged, order, o, w, patch).value).staged;
            var k' := PatchedKey(KeyOf(w), patch);
            HasUniqueKeys(cfg') <==> w.section == SectionName(k') || !HasOther(n.staged, SectionName(k'), k')
  {
    RenamesIff(w, patch);
    RenameIsMove(n, w, order, o, patch);
    RenamedStation(n.staged, order, o, w, patch);
    MoveKeepsUniqueIff(n.staged, w.section, SectionName(PatchedKey(KeyOf(w), patch)),
                       RenamedSection(n.staged, order, o, w, patch));
  }

  lemma MoveKeepsUniqueIff(cfg: Config, section: string, name: string, s: Section)
    requires HasUniqueKeys(cfg) && IsStation(s) && section in cfg && IsStation(cfg[section])
    requires StationKey(cfg[section]) != StationKey(s)
    ensures HasUniqueKeys(cfg[name := s] - {section}) <==> section == name || !HasOther(cfg, name, StationKey(s))
  {
    var cfg' := cfg[name := s] - {section};
    if section != name {
      if HasOther(cfg, name, StationKey(s)) {
        var x :| x in cfg && x != name && IsStation(cfg[x]) && StationKey(cfg[x]) == StationKey(s);
        assert x in cfg' && name in cfg' && StationKey(cfg'[x]) == StationKey(cfg'[name]);
      } else {
        PutKeepsUnique(cfg, name, s);
      }
    }
  }

  lemma NoOtherWithout(cfg: Config, section: string, name: string, k: Key)
    requires !HasOther(cfg, name, k)
    ensures !HasOther(cfg - {section}, name, k)
  {
  }

  lemma DropBeforePut(cfg: Config, section: string, name: string, s: Section)
    requires section != name
    ensures cfg[name := s] - {section} == (cfg - {section})[name := s]
  {
  }

  lemma MoveView(cfg: Config, m: map<Key, Entry>, w: Iface, name: string, s: Section)
    requires IsView(cfg, m) && HasUniqueKeys(cfg) && IsStationAt(cfg, w) && IsStation(s) && w.section != name
    requires name in cfg && IsStation(cfg[name]) ==> StationKey(cfg[name]) == StationKey(s)
    requires !HasOther(cfg, name, StationKey(s))
    ensures IsView(cfg[name := s] - {w.section}, (m - {KeyOf(w)})[StationKey(s) := EntryOf(s)])
    ensures HasUniqueKeys(cfg[name := s] - {w.section})
  {
    DropView(cfg, m, w.section);
    NoOtherWithout(cfg, w.section, name, StationKey(s));
    PutView(cfg - {w.section}, m - {KeyOf(w)}, name, s);
    DropBeforePut(cfg, w.section, name, s);
  }

  // What a renaming patch needs of the other sections: the one it writes is not the one
  // it drops and holds no third profile, and no other one has the new key.
  ghost predicate HasRoom(cfg: Config, w: Iface, k': Key) {
    var name := SectionName(k');
    && w.section != name && !HasOther(cfg, name, k')
    && (name in cfg && IsStation(cfg[name]) ==> StationKey(cfg[name]) == k')
  }

  lemma RenameOnShared(n: Node, m: map<Key, Entry>, w: Iface, order: seq<string>, o: Options, patch: ProfilePatch)
    requires IsOrder(order, n.staged) && IsStationAt(n.staged, w) && IsView(n.staged, m) && HasUniqueKeys(n.staged)
    requires Renames(w, PatchTarget(w, patch)) && PatchPlan(n.staged, order, o, w, patch).Ok?
    requires HasRoom(n.staged, w, PatchedKey(KeyOf(w), patch))
    ensures var n' := After(n, PatchPlan(n.staged, order, o, w, patch).value);
            var k, k' := KeyOf(w), PatchedKey(KeyOf(w), patch);
            && n'.staged == n'.committed && HasUniqueKeys(n'.staged)
            && IsView(n'.staged, (m - {k})[k' := PatchedEntry(k, Entry(w.key, !w.disabled), patch)])
  {
    RenameIsMove(n, w, order, o, patch);
    RenamedStation(n.staged, order, o, w, patch);
    MoveView(n.staged, m, w, SectionName(PatchedKey(KeyOf(w), patch)), RenamedSection(n.staged, order, o, w, patch));
  }

  lemma PatchOnStation(n: Node, m: map<Key, Entry>, w: Iface, order: seq<string>, o: Options, patch: ProfilePatch)
    requires IsOrder(order, n.staged) && IsStationAt(n.staged, w) && IsView(n.staged, m) && HasUniqueKeys(n.staged)
    requires PatchPlan(n.staged, order, o, w, patch).Ok?
    requires PatchedKey(KeyOf(w), patch) == KeyOf(w) || HasRoom(n.staged, w, PatchedKey(KeyOf(w), patch))
    ensures var n' := After(n, PatchPlan(n.staged, order, o, w, patch).value);
            var k, k' := KeyOf(w), PatchedKey(KeyOf(w), patch);
            && n'.staged == n'.committed && HasUniqueKeys(n'.staged)
            && IsView(n'.staged, (m - {k})[k' := PatchedEntry(k, Entry(w.key, !w.disabled), patch)])
  {
    var t := PatchTarget(w, patch);
    RenamesIff(w, patch);
    if Renames(w, t) {
      RenameOnShared(n, m, w, order, o, patch);
    } else {
      InPlaceView(n, m, w, o, t.sec, t.autoconnect);
      ReplaceInMap(m, KeyOf(w), Entry(KeptKey(t.sec, w.key), t.autoconnect));
    }
  }

  // On such a node a patch in place always updates one entry, and a rename moves it if
  // the other sections leave room.
  lemma PatchOnShared(n: Node, m: map<Key, Entry>, first: seq<string>, second: seq<string>, o: Options,
                      k: Key, patch: ProfilePatch)
    returns (w: Iface)
    requires IsOrder(first, n.staged) && IsOrder(second, n.staged)
    requires IsView(n.staged, m) && HasUniqueKeys(n.staged)
    requires PlanFor(n.staged, first, second, o, PatchRequest(IdOf(k), patch)).Ok?
    ensures IsStationAt(n.staged, w) && KeyOf(w) == k && k in m
    ensures var n' := After(n, PlanFor(n.staged, first, second, o, PatchRequest(IdOf(k), patch)).value);
            var k' := PatchedKey(k, patch);
            k' == k || HasRoom(n.staged, w, k') ==>
              && n'.staged == n'.committed && HasUniqueKeys(n'.staged)
              && IsView(n'.staged, (m - {k})[k' := PatchedEntry(k, m[k], patch)])
  {
    FoundStation(n.staged, first, IdOf(k));
    w := FindById(Stations(n.staged, first), IdOf(k)).value;
    IdInjective(KeyOf(w), k);
    StationInView(n.staged, m, w);
    if PatchedKey(k, patch) == k || HasRoom(n.staged, w, PatchedKey(k, patch)) {
      PatchOnStation(n, m, w, second, o, patch);
    }
  }

  // ---- reads ----------------------------------------------------------------------------------

  lemma ListedIds(cfg: Config, order: seq<string>, i: nat, j: nat)
    requires IsOrder(order, cfg) && HasUniqueKeys(cfg) && i < j < |Stations(cfg, order)|
    ensures Profiles(Stations(cfg, order))[i].id != Profiles(Stations(cfg, order))[j].id
  {
    var stas := Stations(cfg, order);
    StationsAreDistinct(cfg, order);
    StationsMeaning(cfg, order);
    assert stas[i] in stas && stas[j] in stas;
    IdInjective(KeyOf(stas[i]), KeyOf(stas[j]));
  }

  lemma ListedInView(cfg: Config, m: map<Key, Entry>, order: seq<string>, i: nat)
    requires IsOrder(order, cfg) && HasUniqueKeys(cfg) && IsView(cfg, m) && i < |Stations(cfg, order)|
    ensures Shows(Profiles(Stations(cfg, order))[i], m)
  {
    StationsMeaning(cfg, order);
    assert Stations(cfg, order)[i] in Stations(cfg, order);
    StationInView(cfg, m, Stations(cfg, order)[i]);
  }

  lemma ViewIsListed(cfg: Config, m: map<Key, Entry>, order: seq<string>, k: Key)
    requires IsOrder(order, cfg) && IsView(cfg, m) && k in m
    ensures exists i :: 0 <= i < |Profiles(Stations(cfg, order))| && Profiles(Stations(cfg, order))[i].id == IdOf(k)
  {
    var stas := Stations(cfg, order);
    var name := StationOfKey(cfg, k);
    StationsMeaning(cfg, order);
    assert ToIface(name, cfg[name]) in stas;
    var i :| 0 <= i < |stas| && stas[i] == ToIface(name, cfg[name]);
    assert Profiles(stas)[i].id == IdOf(k);
  }

  // On such a node the listing shows exactly the map.
  lemma ProfilesOnShared(cfg: Config, m: map<Key, Entry>, order: seq<string>)
    requires IsOrder(order, cfg) && HasUniqueKeys(cfg) && IsView(cfg, m)
    ensures Lists(Profiles(Stations(cfg, order)), m)
  {
    var ps := Profiles(Stations(cfg, order));
    forall i, j | 0 <= i < j < |ps|
      ensures ps[i].id != ps[j].id
    {
      ListedIds(cfg, order, i, j);
    }
    forall i | 0 <= i < |ps|
      ensures Shows(ps[i], m)
    {
      ListedInView(cfg, m, order, i);
    }
    forall k | k in m
      ensures exists i :: 0 <= i < |ps| && ps[i].id == IdOf(k)
    {
      ViewIsListed(cfg, m, order, k);
    }
  }
}
