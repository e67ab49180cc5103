// Reading the iwd profile store: one profile by id, all profiles, and what a reader
// sees after a write.
module IwdReads {
  import opened Text
  import opened Wnet
  import opened IwdFilename
  import opened IwdProfile
  import opened IwdStore

  ghost function ProfileIn(files: Files, name: string): Option<Profile>
    requires name in files
  {
    match ParseFilename(name)
    case Some(n) => Some(ToProfile(n, Decode(files[name])))
    case None => None
  }

  ghost function ReadProfile(entries: seq<string>, files: Files, id: ProfileId): Result<Profile>
    requires IsListing(entries, files)
  {
    FindFileMeaning(entries, id);
    match FindFile(entries, id)
    case Some(name) => Ok(ProfileIn(files, name).value)
    case None => Err(NotFound)
  }

  method GetProfile(entries: seq<string>, files: Files, id: ProfileId) returns (r: Result<Profile>)
    requires IsListing(entries, files)
    ensures r == ReadProfile(entries, files, id)
  {
    FindFileMeaning(entries, id);
    var found := FindProfileFile(entries, id);
    if found.None? {
      return Err(NotFound);
    }
    var p, _ := ParseProfile(found.value.1, files[found.value.0]);
    return Ok(p);
  }

  ghost function ReadAll(entries: seq<string>, files: Files): seq<Profile>
    requires forall name :: name in entries ==> name in files
  {
    if entries == [] then []
    else
      var init, last := entries[..|entries| - 1], entries[|entries| - 1];
      ReadAll(init, files) + match ProfileIn(files, last) case Some(p) => [p] case None => []
  }

  method ListProfiles(entries: seq<string>, files: Files) returns (out: seq<Profile>)
    requires IsListing(entries, files)
    ensures out == ReadAll(entries, files)
  {
    out := [];
    for i := 0 to |entries|
      invariant out == ReadAll(entries[..i], files)
    {
      assert entries[..i + 1][..i] == entries[..i];
      var n := ParseFilename(entries[i]);
      if n.None? {
        continue;
      }
      var p, _ := ParseProfile(n.value, files[entries[i]]);
      out := out + [p];
    }
    assert entries[..|entries|] == entries;
  }

  // ---- the listing is the map ---------------------------------------------------------

  function NetworkOf(p: Profile): Network {
    Network(p.ssid, SecType(p.security.kind))
  }

  // p is what the map holds for its network.
  ghost predicate Shows(p: Profile, m: map<Network, string>) {
    NetworkOf(p) in m && p == ToProfile(NetworkOf(p), Decode(m[NetworkOf(p)]))
  }

  lemma ProfileNetwork(files: Files, name: string)
    requires name in files && ParseFilename(name).Some?
    ensures NetworkOf(ProfileIn(files, name).value) == ParseFilename(name).value
  {
    ParsedNetwork(name);
  }

  lemma ShownProfile(files: Files, name: string)
    requires IsCanonicalStore(files) && name in files && ParseFilename(name).Some?
    ensures Shows(ProfileIn(files, name).value, Abs(files))
  {
    var n := ParseFilename(name).value;
    ProfileNetwork(files, name);
    assert IsCanonical(name);
    InAbs(files, n);
  }

  lemma MappedProfile(files: Files, n: Network)
    requires IsCanonicalStore(files) && n in Abs(files)
    ensures Filename(n) in files && ParseFilename(Filename(n)).Some?
    ensures ProfileIn(files, Filename(n)) == Some(ToProfile(n, Decode(Abs(files)[n])))
  {
    KeysAreNetworks(files, n);
    InAbs(files, n);
    FilenameRoundTrip(n);
  }

  lemma {:induction false} ReadAllMeaning(entries: seq<string>, files: Files)
    requires forall name :: name in entries ==> name in files
    ensures forall p :: p in ReadAll(entries, files) ==>
              exists name :: name in entries && ProfileIn(files, name) == Some(p)
    ensures forall name :: name in entries && ParseFilename(name).Some? ==>
              ProfileIn(files, name).value in ReadAll(entries, files)
  {
    if entries != [] {
      var init, last := entries[..|entries| - 1], entries[|entries| - 1];
      assert entries == init + [last];
      ReadAllMeaning(init, files);
      forall p | p in ReadAll(entries, files)
        ensures exists name :: name in entries && ProfileIn(files, name) == Some(p)
      {
        if p in ReadAll(init, files) {
          var name :| name in init && ProfileIn(files, name) == Some(p);
          assert name in entries;
        } else {
          assert ProfileIn(files, last) == Some(p);
        }
      }
    }
  }

  ghost predicate HaveDistinctIds(ps: seq<Profile>) {
    forall i, j :: 0 <= i < j < |ps| ==> ps[i].id != ps[j].id
  }

  lemma ShownIds(files: Files, a: string, b: string)
    requires IsCanonicalStore(files) && a in files && b in files && a != b
    requires ParseFilename(a).Some? && ParseFilename(b).Some?
    ensures ProfileIn(files, a).value.id != ProfileIn(files, b).value.id
  {
    ParsedNetwork(a);
    ParsedNetwork(b);
    assert IsCanonical(a) && IsCanonical(b);
    NetworkIdInjective(ParseFilename(a).value, ParseFilename(b).value);
  }

  lemma NewId(files: Files, listed: seq<string>, name: string)
    requires IsCanonicalStore(files) && (forall x :: x in listed ==> x in files)
    requires name in files && name !in listed && ParseFilename(name).Some?
    ensures forall p :: p in ReadAll(listed, files) ==> p.id != ProfileIn(files, name).value.id
  {
    ReadAllMeaning(listed, files);
    forall p | p in ReadAll(listed, files)
      ensures p.id != ProfileIn(files, name).value.id
    {
      var x :| x in listed && ProfileIn(files, x) == Some(p);
      ShownIds(files, x, name);
    }
  }

  lemma {:induction false} ReadAllIsDistinct(entries: seq<string>, files: Files)
    requires IsCanonicalStore(files) && forall name :: name in entries ==> name in files
    requires forall i, j :: 0 <= i < j < |entries| ==> entries[i] != entries[j]
    ensures HaveDistinctIds(ReadAll(entries, files))
  {
    if entries != [] {
      var init, last := entries[..|entries| - 1], entries[|entries| - 1];
      assert last !in init;
      ReadAllIsDistinct(init, files);
      if ParseFilename(last).Some? {
        NewId(files, init, last);
      }
    }
  }

  lemma ListedIsShown(entries: seq<string>, files: Files, p: Profile)
    requires IsListing(entries, files) && IsCanonicalStore(files) && p in ReadAll(entries, files)
    ensures Shows(p, Abs(files))
  {
    ReadAllMeaning(entries, files);
    var name :| name in entries && ProfileIn(files, name) == Some(p);
    ShownProfile(files, name);
  }

  lemma MappedIsListed(entries: seq<string>, files: Files, n: Network)
    requires IsListing(entries, files) && IsCanonicalStore(files) && n in Abs(files)
    ensures ToProfile(n, Decode(Abs(files)[n])) in ReadAll(entries, files)
  {
    MappedProfile(files, n);
    ReadAllMeaning(entries, files);
  }

  // The listing shows exactly the map: the profile of every network, once, in some
  // order, under distinct ids.
  lemma ProfilesAreTheMap(entries: seq<string>, files: Files)
    requires IsListing(entries, files) && IsCanonicalStore(files)
    ensures HaveDistinctIds(ReadAll(entries, files))
    ensures forall p :: p in ReadAll(entries, files) ==> Shows(p, Abs(files))
    ensures forall n :: n in Abs(files) ==> ToProfile(n, Decode(Abs(files)[n])) in ReadAll(entries, files)
  {
    ReadAllIsDistinct(entries, files);
    forall p | p in ReadAll(entries, files)
      ensures Shows(p, Abs(files))
    {
      ListedIsShown(entries, files, p);
    }
    forall n | n in Abs(files)
      ensures ToProfile(n, Decode(Abs(files)[n])) in ReadAll(entries, files)
    {
      MappedIsListed(entries, files, n);
    }
  }

  // ---- reading after a write ------------------------------------------------------------

  // In a canonical store an id reads as the profile of its network, or as nothing.
  lemma ReadIsLookup(entries: seq<string>, files: Files, n: Network)
    requires IsListing(entries, files) && IsCanonicalStore(files) && IsNetwork(n)
    ensures ReadProfile(entries, files, DeriveID(n.ssid, n.typ))
            == if n in Abs(files) then Ok(ToProfile(n, Decode(Abs(files)[n]))) else Err(NotFound)
  {
    FindIsLookup(entries, files, n);
    InAbs(files, n);
    FilenameRoundTrip(n);
  }

  // A successful add answers with the very profile that is read back under its id,
  // in whatever order the directory is listed.
  lemma AddIsReadBack(files: Files, spec: ProfileSpec, entries: seq<string>)
    requires IsCanonicalStore(files) && IsBytes(spec.ssid)
    requires spec.ssid != "" && spec.security.kind != SecEnterprise
    requires IsListing(entries, AfterAdd(files, spec, WriteOk).0)
    ensures var (files', r) := AfterAdd(files, spec, WriteOk);
            r.Ok? && NetworkOf(r.value) == SpecNetwork(spec) && ReadProfile(entries, files', r.value.id) == r
  {
    AddRefinesUpsert(files, spec, WriteOk);
    SecTypeKind(spec.security.kind);
    ReadIsLookup(entries, AfterAdd(files, spec, WriteOk).0, SpecNetwork(spec));
  }

  // What it answers with is the spec, as far as the file keeps it, if the file can
  // carry the spec at all; the passphrase never comes back.
  lemma AddAnswersSpec(files: Files, spec: ProfileSpec)
    requires IsBytes(spec.ssid) && spec.ssid != "" && spec.security.kind != SecEnterprise
    requires CanStore(spec.security.kind, SpecSettings(spec))
    ensures var r := AfterAdd(files, spec, WriteOk).1;
            && r.Ok? && r.value.ssid == spec.ssid && r.value.name == spec.ssid
            && r.value.hidden == spec.hidden && r.value.autoconnect == spec.autoconnect
            && r.value.security == Security(spec.security.kind, "")
            && r.value.ipv4 == KeptV4(spec.ipv4) && r.value.ipv6 == KeptV6(spec.ipv6)
  {
    SecTypeKind(spec.security.kind);
    RoundTripIff(spec.security.kind, SpecSettings(spec));
  }

  // So does a successful patch; and if it renamed, nothing is left under the old id.
  lemma PatchIsReadBack(files: Files, n: Network, patch: ProfilePatch, entries: seq<string>)
    requires IsCanonicalStore(files) && IsNetwork(n) && n in Abs(files) && IsBytesPatch(patch)
    requires PatchedSpec(n, Decode(Abs(files)[n]), patch).security.kind != SecEnterprise
    requires Filename(n) in files && ParseFilename(Filename(n)) == Some(n) && IsBytes(Filename(n))
    requires IsListing(entries, AfterPatch(files, Filename(n), patch, IO(false, WriteOk)).0)
    ensures var (files', r) := AfterPatch(files, Filename(n), patch, IO(false, WriteOk));
            var n' := SpecNetwork(PatchedSpec(n, Decode(Abs(files)[n]), patch));
            && r.Ok? && NetworkOf(r.value) == n' && ReadProfile(entries, files', r.value.id) == r
            && (n' != n ==> ReadProfile(entries, files', DeriveID(n.ssid, n.typ)) == Err(NotFound))
  {
    PatchRefinesMove(files, n, patch, IO(false, WriteOk));
    InAbs(files, n);
    var files' := AfterPatch(files, Filename(n), patch, IO(false, WriteOk)).0;
    var spec := PatchedSpec(n, Decode(Abs(files)[n]), patch);
    SecTypeKind(spec.security.kind);
    ReadIsLookup(entries, files', SpecNetwork(spec));
    ReadIsLookup(entries, files', n);
  }
}
