// The iwd profile store: a directory of provisioning files, seen as a map keyed by
// network.
module IwdStore {
  import opened Text
  import opened Wnet
  import opened IwdFilename
  import Ini
  import opened IwdProfile

  // The regular files of the store directory, by name.
  type Files = map<string, string>

  // How one os.WriteFile ends: a failed write may leave a prefix of the content.
  datatype WriteOutcome = WriteOk | OpenFails | Torn(written: nat)

  datatype IO = IO(removeFails: bool, write: WriteOutcome)

  // ---- lookup by id -----------------------------------------------------------------

  // A directory listing: every file once, in whatever order.
  ghost predicate IsListing(entries: seq<string>, files: Files) {
    && (forall name :: name in files <==> name in entries)
    && (forall i, j :: 0 <= i < j < |entries| ==> entries[i] != entries[j])
  }

  predicate HasId(name: string, id: ProfileId) {
    ParseFilename(name).Some? &&
    DeriveID(ParseFilename(name).value.ssid, ParseFilename(name).value.typ) == id
  }

  ghost function FindFile(entries: seq<string>, id: ProfileId): Option<string> {
    if entries == [] then None
    else if HasId(entries[0], id) then Some(entries[0])
    else FindFile(entries[1..], id)
  }

  method FindProfileFile(entries: seq<string>, id: ProfileId) returns (found: Option<(string, Network)>)
    ensures found.Some? <==> FindFile(entries, id).Some?
    ensures found.Some? ==> && found.value.0 == FindFile(entries, id).value
                            && ParseFilename(found.value.0) == Some(found.value.1)
  {
    for i := 0 to |entries|
      invariant FindFile(entries, id) == FindFile(entries[i..], id)
    {
      assert entries[i..][1..] == entries[i + 1..];
      var n := ParseFilename(entries[i]);
      if n.Some? && DeriveID(n.value.ssid, n.value.typ) == id {
        return Some((entries[i], n.value));
      }
    }
    return None;
  }

  lemma {:induction false} FindFileMeaning(entries: seq<string>, id: ProfileId)
    ensures var f := FindFile(entries, id);
            && (f.Some? ==> f.value in entries && HasId(f.value, id))
            && (f.None? ==> forall name :: name in entries ==> !HasId(name, id))
  {
    if entries != [] && !HasId(entries[0], id) {
      FindFileMeaning(entries[1..], id);
    }
  }

  ghost predicate IsFirstWithId(entries: seq<string>, id: ProfileId, name: string, i: int) {
    && 0 <= i < |entries| && entries[i] == name && HasId(name, id)
    && forall j :: 0 <= j < i ==> !HasId(entries[j], id)
  }

  lemma ShiftFirst(entries: seq<string>, id: ProfileId, name: string, i: int)
    requires entries != [] && !HasId(entries[0], id)
    ensures IsFirstWithId(entries[1..], id, name, i) <==> IsFirstWithId(entries, id, name, i + 1)
  {
    assert forall j :: 0 <= j < |entries[1..]| ==> entries[1..][j] == entries[j + 1];
    if IsFirstWithId(entries[1..], id, name, i) {
      assert forall j :: 0 < j <= i ==> entries[j] == entries[1..][j - 1];
    }
  }

  // The file that is found is listed first among those with the id.
  lemma {:induction false} FindFileIff(entries: seq<string>, id: ProfileId, name: string)
    ensures FindFile(entries, id) == Some(name) <==> exists i :: IsFirstWithId(entries, id, name, i)
  {
    if entries != [] {
      FindFileIff(entries[1..], id, name);
      if HasId(entries[0], id) {
        assert IsFirstWithId(entries, id, entries[0], 0);
      } else {
        forall i
          ensures IsFirstWithId(entries[1..], id, name, i) <==> IsFirstWithId(entries, id, name, i + 1)
        {
          ShiftFirst(entries, id, name, i);
        }
        assert forall i :: IsFirstWithId(entries, id, name, i) ==> IsFirstWithId(entries[1..], id, name, i - 1);
      }
    }
  }

  // No two readable names denote the same network.
  ghost predicate HasNoTwins(files: Files) {
    forall a, b :: a in files && b in files && ParseFilename(a).Some? && ParseFilename(a) == ParseFilename(b) ==> a == b
  }

  lemma ParsedNetwork(name: string)
    requires ParseFilename(name).Some?
    ensures IsType(ParseFilename(name).value.typ)
  {
  }

  lemma SameIdSameNetwork(a: string, b: string, id: ProfileId)
    requires HasId(a, id) && HasId(b, id)
    ensures ParseFilename(a) == ParseFilename(b)
  {
    NetworkIdInjective(ParseFilename(a).value, ParseFilename(b).value);
  }

  // The k-th entry first, the others as they were.
  ghost function Promoted(entries: seq<string>, k: nat): (r: seq<string>)
    requires k < |entries|
    ensures |r| == |entries| && r[0] == entries[k]
    ensures forall i :: 0 < i < |r| ==> r[i] == if i <= k then entries[i - 1] else entries[i]
  {
    seq(|entries|, i requires 0 <= i < |entries| =>
      if i == 0 then entries[k] else if i <= k then entries[i - 1] else entries[i])
  }

  lemma PromotedMembers(entries: seq<string>, k: nat, x: string)
    requires k < |entries|
    ensures x in entries <==> x in Promoted(entries, k)
  {
    var r := Promoted(entries, k);
    if x in entries {
      var i :| 0 <= i < |entries| && entries[i] == x;
      assert r[if i == k then 0 else if i < k then i + 1 else i] == x;
    }
  }

  lemma PromotedDistinct(entries: seq<string>, k: nat)
    requires k < |entries| && forall i, j :: 0 <= i < j < |entries| ==> entries[i] != entries[j]
    ensures forall i, j :: 0 <= i < j < |entries| ==> Promoted(entries, k)[i] != Promoted(entries, k)[j]
  {
  }

  lemma MoveToFront(entries: seq<string>, files: Files, name: string) returns (moved: seq<string>)
    requires IsListing(entries, files) && name in files
    ensures IsListing(moved, files) && moved != [] && moved[0] == name
  {
    var k :| 0 <= k < |entries| && entries[k] == name;
    moved := Promoted(entries, k);
    PromotedDistinct(entries, k);
    forall x
      ensures x in entries <==> x in moved
    {
      PromotedMembers(entries, k, x);
    }
  }

  ghost predicate OrderFree(files: Files) {
    forall e1, e2, id :: IsListing(e1, files) && IsListing(e2, files) ==> FindFile(e1, id) == FindFile(e2, id)
  }

  // Lookup by id is independent of the order in which the directory is listed
  // exactly when no network has two files.
  lemma LookupIsOrderFreeIff(entries: seq<string>, files: Files)
    requires IsListing(entries, files)
    ensures OrderFree(files) <==> HasNoTwins(files)
  {
    if HasNoTwins(files) {
      forall e1, e2, id | IsListing(e1, files) && IsListing(e2, files)
        ensures FindFile(e1, id) == FindFile(e2, id)
      {
        FindFileMeaning(e1, id);
        FindFileMeaning(e2, id);
        if FindFile(e1, id).Some? && FindFile(e2, id).Some? {
          SameIdSameNetwork(FindFile(e1, id).value, FindFile(e2, id).value, id);
        }
      }
    } else {
      var a, b :| a in files && b in files && ParseFilename(a).Some? && ParseFilename(a) == ParseFilename(b) && a != b;
      var e1 := MoveToFront(entries, files, a);
      var e2 := MoveToFront(entries, files, b);
      var n := ParseFilename(a).value;
      var id := DeriveID(n.ssid, n.typ);
      assert FindFile(e1, id) == Some(a) && FindFile(e2, id) == Some(b);
    }
  }

  // ---- the operations ---------------------------------------------------------------

  // What a failed write leaves in a file it could open.
  function Residue(content: string, w: WriteOutcome): string
    requires w.Torn?
  {
    if w.written < |content| then content[..w.written] else content
  }

  function Write(files: Files, name: string, content: string, w: WriteOutcome): Files {
    match w
    case WriteOk => files[name := content]
    case OpenFails => files
    case Torn(_) => files[name := Residue(content, w)]
  }

  // The profile an operation answers with.
  ghost function Answer(n: Network, content: string, w: WriteOutcome): Result<Profile> {
    if w.WriteOk? then Ok(ToProfile(n, Decode(content))) else Err(Remote)
  }

  function SpecSettings(spec: ProfileSpec): Settings {
    Settings(spec.security.passphrase, spec.autoconnect, spec.hidden, spec.ipv4, spec.ipv6)
  }

  function SpecNetwork(spec: ProfileSpec): Network {
    Network(spec.ssid, SecType(spec.security.kind))
  }

  ghost function AfterAdd(files: Files, spec: ProfileSpec, w: WriteOutcome): (Files, Result<Profile>)
    requires IsBytes(spec.ssid)
  {
    if spec.ssid == "" then (files, Err(Invalid))
    else if spec.security.kind == SecEnterprise then (files, Err(Unsupported))
    else
      var n, content := SpecNetwork(spec), Content(spec.security.kind, SpecSettings(spec));
      (Write(files, Filename(n), content, w), Answer(n, content, w))
  }

  // A security change without a passphrase keeps the stored one, if the kind stays.
  function MergedSecurity(kind: SecurityKind, passphrase: string, change: Option<Security>): Security {
    match change
    case None => Security(kind, passphrase)
    case Some(s) => if s.passphrase == "" && s.kind == kind then Security(s.kind, passphrase) else s
  }

  method MergeSecurity(kind: SecurityKind, passphrase: string, change: Option<Security>) returns (sec: Security)
    ensures sec == MergedSecurity(kind, passphrase, change)
  {
    sec := Security(kind, passphrase);
    if change.Some? {
      sec := change.value;
      if sec.passphrase == "" && change.value.kind == kind {
        sec := Security(sec.kind, passphrase);
      }
    }
  }

  // The spec a patch amounts to, over the network and settings read from the file.
  function PatchedSpec(n: Network, cur: Settings, patch: ProfilePatch): ProfileSpec {
    var sec := MergedSecurity(TypeToKind(n.typ), cur.passphrase, patch.security);
    ProfileSpec("",
                if patch.ssid.Some? then patch.ssid.value else n.ssid,
                if patch.hidden.Some? then patch.hidden.value else cur.hidden,
                if patch.autoconnect.Some? then patch.autoconnect.value else cur.autoconnect,
                sec,
                if patch.ipv4.Some? then patch.ipv4 else cur.ipv4,
                if patch.ipv6.Some? then patch.ipv6 else cur.ipv6)
  }

  // The spec is put together field by field.
  method MergePatch(n: Network, cur: Settings, patch: ProfilePatch) returns (spec: ProfileSpec)
    ensures spec == PatchedSpec(n, cur, patch)
  {
    var sec := MergeSecurity(TypeToKind(n.typ), cur.passphrase, patch.security);
    spec := ProfileSpec("", n.ssid, cur.hidden, cur.autoconnect, sec, cur.ipv4, cur.ipv6);
    if patch.ssid.Some? {
      spec := spec.(ssid := patch.ssid.value);
    }
    if patch.hidden.Some? {
      spec := spec.(hidden := patch.hidden.value);
    }
    if patch.autoconnect.Some? {
      spec := spec.(autoconnect := patch.autoconnect.value);
    }
    if patch.ipv4.Some? {
      spec := spec.(ipv4 := patch.ipv4);
    }
    if patch.ipv6.Some? {
      spec := spec.(ipv6 := patch.ipv6);
    }
  }

  ghost predicate IsBytesPatch(patch: ProfilePatch) {
    patch.ssid.Some? ==> IsBytes(patch.ssid.value)
  }

  ghost predicate AreByteNames(files: Files) {
    forall name :: name in files ==> IsBytes(name)
  }

  lemma ParsedBytes(name: string)
    requires IsBytes(name) && ParseFilename(name).Some?
    ensures IsNetwork(ParseFilename(name).value)
  {
  }

  ghost function AfterPatch(files: Files, name: string, patch: ProfilePatch, io: IO): (Files, Result<Profile>)
    requires name in files && ParseFilename(name).Some? && IsBytes(name) && IsBytesPatch(patch)
  {
    ParsedBytes(name);
    var spec := PatchedSpec(ParseFilename(name).value, Decode(files[name]), patch);
    if spec.security.kind == SecEnterprise then (files, Err(Unsupported))
    else
      var n, content := SpecNetwork(spec), Content(spec.security.kind, SpecSettings(spec));
      var rest := if Filename(n) != name && !io.removeFails then files - {name} else files;
      (Write(rest, Filename(n), content, io.write), Answer(n, content, io.write))
  }

  class Store {
    var files: Files

    constructor (initial: Files)
      ensures files == initial
    {
      files := initial;
    }

    method WriteProfile(name: string, content: string, w: WriteOutcome) returns (ok: bool)
      modifies this
      ensures files == Write(old(files), name, content, w) && ok == w.WriteOk?
    {
      files := Write(files, name, content, w);
      ok := w.WriteOk?;
    }

    method Remove(name: string, fails: bool) returns (ok: bool)
      modifies this
      ensures files == (if fails then old(files) else old(files) - {name}) && ok == !fails
    {
      if !fails {
        files := files - {name};
      }
      ok := !fails;
    }

    method AddProfile(spec: ProfileSpec, w: WriteOutcome) returns (r: Result<Profile>)
      requires IsBytes(spec.ssid)
      modifies this
      ensures (files, r) == AfterAdd(old(files), spec, w)
    {
      if spec.ssid == "" {
        return Err(Invalid);
      }
      if spec.security.kind == SecEnterprise {
        return Err(Unsupported);
      }
      var typ := SecType(spec.security.kind);
      var content := RenderProfile(spec.security.kind, SpecSettings(spec));
      var name := ProfileFilename(spec.ssid, typ);
      var ok := WriteProfile(name, content, w);
      if !ok {
        return Err(Remote);
      }
      var p, _ := ParseProfile(Network(spec.ssid, typ), content);
      return Ok(p);
    }

    method PatchProfile(entries: seq<string>, id: ProfileId, patch: ProfilePatch, io: IO) returns (r: Result<Profile>)
      requires IsListing(entries, files) && AreByteNames(files) && IsBytesPatch(patch)
      modifies this
      ensures FindFile(entries, id).None? ==> files == old(files) && r == Err(NotFound)
      ensures FindFile(entries, id).Some? ==>
                && FindFile(entries, id).value in old(files)
                && ParseFilename(FindFile(entries, id).value).Some?
                && (files, r) == AfterPatch(old(files), FindFile(entries, id).value, patch, io)
    {
      FindFileMeaning(entries, id);
      var found := FindProfileFile(entries, id);
      if found.None? {
        return Err(NotFound);
      }
      var (name, n) := found.value;
      ParsedBytes(name);
      var cur, stored := ParseProfile(n, files[name]);
      var spec := MergePatch(n, stored, patch);
      if spec.security.kind == SecEnterprise {
        return Err(Unsupported);
      }
      var newType := SecType(spec.security.kind);
      var newName := ProfileFilename(spec.ssid, newType);
      var content := RenderProfile(spec.security.kind, SpecSettings(spec));
      if newName != name {
        var _ := Remove(name, io.removeFails);
      }
      var ok := WriteProfile(newName, content, io.write);
      if !ok {
        return Err(Remote);
      }
      var p, _ := ParseProfile(Network(spec.ssid, newType), content);
      return Ok(p);
    }

    method DeleteProfile(entries: seq<string>, id: ProfileId, fails: bool) returns (r: Result<()>)
      requires IsListing(entries, files)
      modifies this
      ensures var f := FindFile(entries, id);
              if f.None? then files == old(files) && r == Err(NotFound)
              else if fails then files == old(files) && r == Err(Remote)
              else files == old(files) - {f.value} && r == Ok(())
    {
      var found := FindProfileFile(entries, id);
      if found.None? {
        return Err(NotFound);
      }
      var ok := Remove(found.value.0, fails);
      return if ok then Ok(()) else Err(Remote);
    }
  }

  // ---- the store as a map ---------------------------------------------------------

  // Every readable name is the one the backend would choose.
  ghost predicate IsCanonicalStore(files: Files) {
    AreByteNames(files) && forall name :: name in files && ParseFilename(name).Some? ==> IsCanonical(name)
  }

  ghost function Networks(files: Files): set<Network> {
    set name | name in files && ParseFilename(name).Some? :: ParseFilename(name).value
  }

  ghost function Abs(files: Files): map<Network, string>
    requires IsCanonicalStore(files)
  {
    map n | n in Networks(files) :: files[Filename(n)]
  }

  // The files that are not provisioning files.
  ghost function Foreign(files: Files): Files {
    map name | name in files && ParseFilename(name).None? :: files[name]
  }

  lemma CanonicalHasNoTwins(files: Files)
    requires IsCanonicalStore(files)
    ensures HasNoTwins(files)
  {
  }

  lemma InAbs(files: Files, n: Network)
    requires IsCanonicalStore(files) && IsNetwork(n)
    ensures n in Abs(files) <==> Filename(n) in files
    ensures n in Abs(files) ==> Abs(files)[n] == files[Filename(n)]
  {
    FilenameRoundTrip(n);
    if n in Abs(files) {
      var name :| name in files && ParseFilename(name) == Some(n);
    }
  }

  // In a canonical store an id is found exactly when its network is in the map, and
  // then under the network's own file name.
  lemma FindIsLookup(entries: seq<string>, files: Files, n: Network)
    requires IsCanonicalStore(files) && IsListing(entries, files) && IsNetwork(n)
    ensures FindFile(entries, DeriveID(n.ssid, n.typ)) == if n in Abs(files) then Some(Filename(n)) else None
  {
    var id := DeriveID(n.ssid, n.typ);
    FindFileMeaning(entries, id);
    FilenameRoundTrip(n);
    InAbs(files, n);
    var f := FindFile(entries, id);
    if f.Some? {
      SameIdSameNetwork(f.value, Filename(n), id);
      assert IsCanonical(f.value);
    }
    if n in Abs(files) {
      assert HasId(Filename(n), id);
    }
  }

  lemma FilenameIsBytes(n: Network)
    requires IsNetwork(n)
    ensures IsBytes(Filename(n))
  {
    StemChars(n.ssid);
  }

  lemma InsertFile(files: Files, n: Network, content: string)
    requires IsCanonicalStore(files) && IsNetwork(n)
    ensures var files' := files[Filename(n) := content];
            && IsCanonicalStore(files')
            && Abs(files') == Abs(files)[n := content]
            && Foreign(files') == Foreign(files)
  {
    FilenameRoundTrip(n);
    FilenameIsBytes(n);
    InsertKeepsCanonical(files, Filename(n), content);
    InsertKeepsForeign(files, Filename(n), content);
    InsertIntoAbs(files, n, content);
  }

  lemma InsertKeepsCanonical(files: Files, name: string, content: string)
    requires IsCanonicalStore(files) && IsBytes(name)
    requires ParseFilename(name).Some? && IsCanonical(name)
    ensures IsCanonicalStore(files[name := content])
  {
  }

  lemma InsertKeepsForeign(files: Files, name: string, content: string)
    requires ParseFilename(name).Some?
    ensures Foreign(files[name := content]) == Foreign(files)
  {
  }

  lemma InsertIntoAbs(files: Files, n: Network, content: string)
    requires IsCanonicalStore(files) && IsNetwork(n) && IsCanonicalStore(files[Filename(n) := content])
    ensures Abs(files[Filename(n) := content]) == Abs(files)[n := content]
  {
    var files' := files[Filename(n) := content];
    forall m | m in Abs(files') || m in Abs(files)[n := content]
      ensures m in Abs(files') && m in Abs(files)[n := content] && Abs(files')[m] == Abs(files)[n := content][m]
    {
      InsertFileAt(files, n, content, m);
    }
  }

  lemma InsertFileAt(files: Files, n: Network, content: string, m: Network)
    requires IsCanonicalStore(files) && IsNetwork(n) && IsCanonicalStore(files[Filename(n) := content])
    requires m in Abs(files[Filename(n) := content]) || m in Abs(files)[n := content]
    ensures var files' := files[Filename(n) := content];
            m in Abs(files') && m in Abs(files)[n := content] && Abs(files')[m] == Abs(files)[n := content][m]
  {
    var files' := files[Filename(n) := content];
    KeysAreNetworks(files, m);
    KeysAreNetworks(files', m);
    InAbs(files, m);
    InAbs(files', m);
    FilenameInjective(m, n);
  }

  lemma KeysAreNetworks(files: Files, m: Network)
    requires IsCanonicalStore(files)
    ensures m in Abs(files) ==> IsNetwork(m)
  {
    if m in Abs(files) {
      var name :| name in files && ParseFilename(name) == Some(m);
      assert IsCanonical(name);
    }
  }

  lemma RemoveFile(files: Files, n: Network)
    requires IsCanonicalStore(files) && IsNetwork(n)
    ensures var files' := files - {Filename(n)};
            && IsCanonicalStore(files')
            && Abs(files') == Abs(files) - {n}
            && Foreign(files') == Foreign(files)
  {
    var name := Filename(n);
    FilenameRoundTrip(n);
    RemoveKeepsCanonical(files, name);
    RemoveKeepsForeign(files, name);
    RemoveFromAbs(files, n);
  }

  lemma RemoveKeepsCanonical(files: Files, name: string)
    requires IsCanonicalStore(files)
    ensures IsCanonicalStore(files - {name})
  {
  }

  lemma RemoveKeepsForeign(files: Files, name: string)
    requires ParseFilename(name).Some?
    ensures Foreign(files - {name}) == Foreign(files)
  {
  }

  lemma RemoveFromAbs(files: Files, n: Network)
    requires IsCanonicalStore(files) && IsNetwork(n) && IsCanonicalStore(files - {Filename(n)})
    ensures Abs(files - {Filename(n)}) == Abs(files) - {n}
  {
    forall m | m in Abs(files - {Filename(n)}) || m in Abs(files) - {n}
      ensures var files' := files - {Filename(n)};
              m in Abs(files') && m in Abs(files) - {n} && Abs(files')[m] == Abs(files)[m]
    {
      RemoveFileAt(files, n, m);
    }
  }

  lemma RemoveFileAt(files: Files, n: Network, m: Network)
    requires IsCanonicalStore(files) && IsNetwork(n) && IsCanonicalStore(files - {Filename(n)})
    requires m in Abs(files - {Filename(n)}) || m in Abs(files) - {n}
    ensures var files' := files - {Filename(n)};
            m in Abs(files') && m in Abs(files) - {n} && Abs(files')[m] == Abs(files)[m]
  {
    var files' := files - {Filename(n)};
    KeysAreNetworks(files, m);
    KeysAreNetworks(files', m);
    InAbs(files, m);
    InAbs(files', m);
    FilenameInjective(m, n);
  }

  // ---- refinement -----------------------------------------------------------------

  // The map after one write of n, whatever its outcome.
  function Stored(m: map<Network, string>, n: Network, content: string, w: WriteOutcome): map<Network, string> {
    match w
    case WriteOk => m[n := content]
    case OpenFails => m
    case Torn(_) => m[n := Residue(content, w)]
  }

  lemma WriteRefines(files: Files, n: Network, content: string, w: WriteOutcome)
    requires IsCanonicalStore(files) && IsNetwork(n)
    ensures var files' := Write(files, Filename(n), content, w);
            && IsCanonicalStore(files')
            && Abs(files') == Stored(Abs(files), n, content, w)
            && Foreign(files') == Foreign(files)
  {
    InsertFile(files, n, content);
    match w
    case Torn(_) => InsertFile(files, n, Residue(content, w));
    case _ =>
  }

  lemma SecTypeKind(k: SecurityKind)
    ensures IsType(SecType(k)) && TypeToKind(SecType(k)) == k
  {
  }

  // Add is an upsert of the spec's network, and what is stored is read back as far
  // as the file format can keep it.
  lemma AddRefinesUpsert(files: Files, spec: ProfileSpec, w: WriteOutcome)
    requires IsCanonicalStore(files) && IsBytes(spec.ssid)
    requires spec.ssid != "" && spec.security.kind != SecEnterprise
    ensures var (files', r) := AfterAdd(files, spec, w);
            var n := SpecNetwork(spec);
            && IsCanonicalStore(files')
            && Foreign(files') == Foreign(files)
            && Abs(files') == Stored(Abs(files), n, Content(spec.security.kind, SpecSettings(spec)), w)
            && (w.WriteOk? ==>
                  (CanStore(spec.security.kind, SpecSettings(spec)) <==>
                   Decode(Abs(files')[n]) == Kept(spec.security.kind, SpecSettings(spec))))
            && (r.Ok? <==> w.WriteOk?)
  {
    SecTypeKind(spec.security.kind);
    var n, content := SpecNetwork(spec), Content(spec.security.kind, SpecSettings(spec));
    WriteRefines(files, n, content, w);
    RoundTripIff(spec.security.kind, SpecSettings(spec));
  }

  // Patch moves the entry to its new network and rewrites it; the entry that the
  // new network had before, if any, is replaced.
  lemma PatchRefinesMove(files: Files, n: Network, patch: ProfilePatch, io: IO)
    requires IsCanonicalStore(files) && IsNetwork(n) && n in Abs(files) && IsBytesPatch(patch)
    requires PatchedSpec(n, Decode(Abs(files)[n]), patch).security.kind != SecEnterprise
    ensures Filename(n) in files && ParseFilename(Filename(n)) == Some(n) && IsBytes(Filename(n))
    ensures var (files', r) := AfterPatch(files, Filename(n), patch, io);
            var spec := PatchedSpec(n, Decode(Abs(files)[n]), patch);
            var n', content := SpecNetwork(spec), Content(spec.security.kind, SpecSettings(spec));
            && IsCanonicalStore(files')
            && Foreign(files') == Foreign(files)
            && Abs(files') == Stored(if n' != n && !io.removeFails then Abs(files) - {n} else Abs(files),
                                     n', content, io.write)
            && (io.write.WriteOk? ==>
                  (CanStore(spec.security.kind, SpecSettings(spec)) <==>
                   Decode(Abs(files')[n']) == Kept(spec.security.kind, SpecSettings(spec))))
            && (r.Ok? <==> io.write.WriteOk?)
  {
    FilenameRoundTrip(n);
    FilenameIsBytes(n);
    InAbs(files, n);
    var spec := PatchedSpec(n, Decode(Abs(files)[n]), patch);
    SecTypeKind(spec.security.kind);
    var n', content := SpecNetwork(spec), Content(spec.security.kind, SpecSettings(spec));
    FilenameInjective(n', n);
    RemoveFile(files, n);
    var rest := if n' != n && !io.removeFails then files - {Filename(n)} else files;
    WriteRefines(rest, n', content, io.write);
    RoundTripIff(spec.security.kind, SpecSettings(spec));
  }

  // ---- what is stored, field by field -------------------------------------------------

  // The part of a patch that has to fit the file format: a new passphrase and new
  // addresses. What is read from the store always fits.
  predicate IsStorablePatch(kind: SecurityKind, patch: ProfilePatch) {
    && (kind == SecPSK && patch.security.Some? ==> Ini.IsClean(patch.security.value.passphrase))
    && CanStore(SecOpen, Settings("", false, false, patch.ipv4, patch.ipv6))
  }

  // d' is d with what the patch gives in place of what it had. A passphrase belongs to
  // a network of its kind: it stays if the patch names no security, or names the stored
  // kind without a passphrase; and each family keeps what the file has room for.
  ghost predicate IsPatched(d: Settings, kind: SecurityKind, d': Settings, kind': SecurityKind, patch: ProfilePatch) {
    && d'.passphrase == (if kind' != SecPSK then ""
                         else if patch.security == None || patch.security.value == Security(kind, "") then d.passphrase
                         else patch.security.value.passphrase)
    && d'.hidden == (if patch.hidden.Some? then patch.hidden.value else d.hidden)
    && d'.autoconnect == (if patch.autoconnect.Some? then patch.autoconnect.value else d.autoconnect)
    && d'.ipv4 == Some(KeptV4(if patch.ipv4.Some? then patch.ipv4 else d.ipv4))
    && d'.ipv6 == Some(KeptV6(if patch.ipv6.Some? then patch.ipv6 else d.ipv6))
  }

  lemma PatchTarget(n: Network, d: Settings, patch: ProfilePatch)
    ensures var spec := PatchedSpec(n, d, patch);
            && spec.security.kind == (if patch.security.Some? then patch.security.value.kind else TypeToKind(n.typ))
            && spec.ssid == (if patch.ssid.Some? then patch.ssid.value else n.ssid)
            && SpecNetwork(spec) == Network(spec.ssid, SecType(spec.security.kind))
  {
  }

  lemma KeptIsPatched(n: Network, d: Settings, d': Settings, patch: ProfilePatch)
    ensures var spec := PatchedSpec(n, d, patch);
            d' == Kept(spec.security.kind, SpecSettings(spec))
            <==> IsPatched(d, TypeToKind(n.typ), d', spec.security.kind, patch)
  {
  }

  lemma StorablePatch(n: Network, content: string, patch: ProfilePatch)
    ensures var spec := PatchedSpec(n, Decode(content), patch);
            CanStore(spec.security.kind, SpecSettings(spec)) <==> IsStorablePatch(spec.security.kind, patch)
  {
    DecodedValuesAreClean(content);
  }

  // The network a patch leads to: SSID and kind are the patch's where it gives them.
  ghost predicate IsTarget(n: Network, n': Network, kind': SecurityKind, patch: ProfilePatch) {
    && n'.ssid == (if patch.ssid.Some? then patch.ssid.value else n.ssid)
    && kind' == (if patch.security.Some? then patch.security.value.kind else TypeToKind(n.typ))
    && n'.typ == (match kind' case SecPSK => "psk" case SecOpen => "open" case SecEnterprise => "8021x")
  }

  // The entry that a patch writes: p is what it stores, before the format drops any of it.
  lemma PatchWrites(files: Files, n: Network, patch: ProfilePatch, n': Network, kind': SecurityKind)
    returns (p: Settings)
    requires IsCanonicalStore(files) && IsNetwork(n) && n in Abs(files) && IsBytesPatch(patch)
    requires IsTarget(n, n', kind', patch) && kind' != SecEnterprise
    ensures Filename(n) in files && ParseFilename(Filename(n)) == Some(n) && IsBytes(Filename(n))
    ensures var files' := AfterPatch(files, Filename(n), patch, IO(false, WriteOk)).0;
            && IsCanonicalStore(files')
            && Abs(files') == (if n' != n then Abs(files) - {n} else Abs(files))[n' := Content(kind', p)]
    ensures IsPatched(Decode(Abs(files)[n]), TypeToKind(n.typ), Decode(Content(kind', p)), kind', patch)
            <==> IsStorablePatch(kind', patch)
  {
    var d := Decode(Abs(files)[n]);
    PatchTarget(n, d, patch);
    PatchRefinesMove(files, n, patch, IO(false, WriteOk));
    StorablePatch(n, Abs(files)[n], patch);
    p := SpecSettings(PatchedSpec(n, d, patch));
    KeptIsPatched(n, d, Decode(Content(kind', p)), patch);
    RoundTripIff(kind', p);
  }

  // m' is m with the entry of n patched and moved to n', as far as the file can hold it.
  ghost predicate HasPatched(m: map<Network, string>, n: Network, m': map<Network, string>, n': Network,
                             kind': SecurityKind, patch: ProfilePatch)
    requires n in m
  {
    && m'.Keys == m.Keys - {n} + {n'}
    && (IsPatched(Decode(m[n]), TypeToKind(n.typ), Decode(m'[n']), kind', patch) <==> IsStorablePatch(kind', patch))
    && (forall x :: x in m && x != n && x != n' ==> m'[x] == m[x])
  }

  lemma MovedEntry(m: map<Network, string>, n: Network, n': Network, content: string,
                   kind': SecurityKind, patch: ProfilePatch)
    requires n in m
    requires IsPatched(Decode(m[n]), TypeToKind(n.typ), Decode(content), kind', patch)
             <==> IsStorablePatch(kind', patch)
    ensures HasPatched(m, n, (if n' != n then m - {n} else m)[n' := content], n', kind', patch)
  {
    var m' := (if n' != n then m - {n} else m)[n' := content];
    assert m'[n'] == content;
  }

  // A patch that is carried out leaves, under the network it leads to, the stored
  // settings with its own in place of them, exactly if its own fit the file; and the
  // old network is gone if that is another one.
  lemma PatchStoresIff(files: Files, n: Network, patch: ProfilePatch, n': Network, kind': SecurityKind)
    requires IsCanonicalStore(files) && IsNetwork(n) && n in Abs(files) && IsBytesPatch(patch)
    requires IsTarget(n, n', kind', patch) && kind' != SecEnterprise
    ensures Filename(n) in files && ParseFilename(Filename(n)) == Some(n) && IsBytes(Filename(n))
    ensures var files' := AfterPatch(files, Filename(n), patch, IO(false, WriteOk)).0;
            IsCanonicalStore(files') && HasPatched(Abs(files), n, Abs(files'), n', kind', patch)
  {
    var p := PatchWrites(files, n, patch, n', kind');
    MovedEntry(Abs(files), n, n', Content(kind', p), kind', patch);
  }

  // A patch is refused exactly if the network would be an enterprise one, and then
  // nothing changes.
  lemma PatchRefusedIff(files: Files, n: Network, patch: ProfilePatch, io: IO, n': Network, kind': SecurityKind)
    requires IsCanonicalStore(files) && IsNetwork(n) && n in Abs(files) && IsBytesPatch(patch)
    requires IsTarget(n, n', kind', patch)
    ensures Filename(n) in files && ParseFilename(Filename(n)) == Some(n) && IsBytes(Filename(n))
    ensures var (files', r) := AfterPatch(files, Filename(n), patch, io);
            && (r == Err(Unsupported) <==> kind' == SecEnterprise)
            && (kind' == SecEnterprise ==> files' == files)
  {
    InAbs(files, n);
    FilenameRoundTrip(n);
    FilenameIsBytes(n);
    PatchTarget(n, Decode(files[Filename(n)]), patch);
  }

  // An add is refused exactly without an SSID or for an enterprise network, and then
  // nothing changes.
  lemma AddRefusedIff(files: Files, spec: ProfileSpec, w: WriteOutcome)
    requires IsBytes(spec.ssid)
    ensures var (files', r) := AfterAdd(files, spec, w);
            && (r == Err(Invalid) <==> spec.ssid == "")
            && (r == Err(Unsupported) <==> spec.ssid != "" && spec.security.kind == SecEnterprise)
            && (r == Err(Remote) <==> spec.ssid != "" && spec.security.kind != SecEnterprise && !w.WriteOk?)
            && (r == Err(Invalid) || r == Err(Unsupported) ==> files' == files) && r != Err(NotFound)
  {
  }

  // What an add leaves under the spec's network is the spec, as far as the file has
  // room for it, exactly if the spec fits the file.
  lemma AddStoresIff(files: Files, spec: ProfileSpec)
    requires IsCanonicalStore(files) && IsBytes(spec.ssid)
    requires spec.ssid != "" && spec.security.kind != SecEnterprise
    ensures var files' := AfterAdd(files, spec, WriteOk).0;
            var n := Network(spec.ssid, if spec.security.kind == SecPSK then "psk" else "open");
            && IsCanonicalStore(files') && n in Abs(files')
            && (Decode(Abs(files')[n])
                == Settings(if spec.security.kind == SecPSK then spec.security.passphrase else "",
                            spec.autoconnect, spec.hidden, Some(KeptV4(spec.ipv4)), Some(KeptV6(spec.ipv6)))
                <==> CanStore(spec.security.kind,
                              Settings(spec.security.passphrase, false, false, spec.ipv4, spec.ipv6)))
  {
    AddRefinesUpsert(files, spec, WriteOk);
  }

  // ---- writes that fail -----------------------------------------------------------------

  // The patched entry comes through a write that fails.
  ghost predicate KeepsEntry(m: map<Network, string>, n: Network, n': Network, content: string, io: IO)
    requires n in m && !io.write.WriteOk?
  {
    if n' != n then io.removeFails
    else io.write.OpenFails? || Residue(content, io.write) == m[n]
  }

  // So does everything that was under the new name.
  ghost predicate KeepsTarget(m: map<Network, string>, n': Network, content: string, w: WriteOutcome)
    requires !w.WriteOk?
  {
    w.OpenFails? || (n' in m && Residue(content, w) == m[n'])
  }

  lemma FailedWriteOnMap(m: map<Network, string>, n: Network, n': Network, content: string, io: IO)
    requires n in m && !io.write.WriteOk?
    ensures var m' := Stored(if n' != n && !io.removeFails then m - {n} else m, n', content, io.write);
            && ((n in m' && m'[n] == m[n]) <==> KeepsEntry(m, n, n', content, io))
            && (m' == m <==> KeepsEntry(m, n, n', content, io) && KeepsTarget(m, n', content, io.write))
  {
    var m' := Stored(if n' != n && !io.removeFails then m - {n} else m, n', content, io.write);
    if m' == m && io.write.Torn? {
      assert n' in m' && m'[n'] == Residue(content, io.write);
    }
  }

  // A patch removes the old file if it renames, and truncates the file it writes. When
  // the write fails, in any of the ways it can, the old entry is intact exactly if
  // the renamed file could not be removed, or the file in place could not be opened
  // or happened to be left with the content it had; and nothing at all has changed
  // exactly if the entry under the new name is intact too.
  lemma FailedPatchKeepsEntryIff(files: Files, n: Network, patch: ProfilePatch, io: IO)
    requires IsCanonicalStore(files) && IsNetwork(n) && n in Abs(files) && IsBytesPatch(patch)
    requires PatchedSpec(n, Decode(Abs(files)[n]), patch).security.kind != SecEnterprise
    requires !io.write.WriteOk?
    ensures Filename(n) in files && ParseFilename(Filename(n)) == Some(n) && IsBytes(Filename(n))
    ensures var files' := AfterPatch(files, Filename(n), patch, io).0;
            var spec := PatchedSpec(n, Decode(Abs(files)[n]), patch);
            var n', content := SpecNetwork(spec), Content(spec.security.kind, SpecSettings(spec));
            && IsCanonicalStore(files')
            && ((n in Abs(files') && Abs(files')[n] == Abs(files)[n]) <==> KeepsEntry(Abs(files), n, n', content, io))
            && (Abs(files') == Abs(files) <==>
                KeepsEntry(Abs(files), n, n', content, io) && KeepsTarget(Abs(files), n', content, io.write))
  {
    PatchRefinesMove(files, n, patch, io);
    var spec := PatchedSpec(n, Decode(Abs(files)[n]), patch);
    var n', content := SpecNetwork(spec), Content(spec.security.kind, SpecSettings(spec));
    FailedWriteOnMap(Abs(files), n, n', content, io);
  }

  lemma EmptyPatchTarget(n: Network, cur: Settings)
    requires IsNetwork(n)
    ensures var spec := PatchedSpec(n, cur, EMPTY_PATCH);
            SpecNetwork(spec) == n && SpecSettings(spec) == cur && spec.security.kind == TypeToKind(n.typ)
  {
  }

  lemma TornAtOnce(m: map<Network, string>, n: Network, content: string)
    ensures Stored(m, n, content, Torn(0)) == m[n := ""]
  {
  }

  // Even an empty patch, which has nothing to change, destroys the profile if its
  // write fails right after truncating the file.
  lemma TornEmptyPatchLosesProfile(files: Files, n: Network)
    requires IsCanonicalStore(files) && IsNetwork(n) && n in Abs(files) && Abs(files)[n] != ""
    requires TypeToKind(n.typ) != SecEnterprise
    ensures Filename(n) in files && ParseFilename(Filename(n)) == Some(n) && IsBytes(Filename(n))
    ensures var files' := AfterPatch(files, Filename(n), EMPTY_PATCH, IO(false, Torn(0))).0;
            IsCanonicalStore(files') && n in Abs(files') && Abs(files')[n] == "" != Abs(files)[n]
  {
    var cur := Decode(Abs(files)[n]);
    EmptyPatchTarget(n, cur);
    PatchRefinesMove(files, n, EMPTY_PATCH, IO(false, Torn(0)));
    TornAtOnce(Abs(files), n, Content(TypeToKind(n.typ), cur));
  }

  lemma DeleteRefinesRemove(entries: seq<string>, files: Files, n: Network)
    requires IsCanonicalStore(files) && IsListing(entries, files) && IsNetwork(n) && n in Abs(files)
    ensures FindFile(entries, DeriveID(n.ssid, n.typ)) == Some(Filename(n))
    ensures var files' := files - {Filename(n)};
            IsCanonicalStore(files') && Abs(files') == Abs(files) - {n} && Foreign(files') == Foreign(files)
  {
    FindIsLookup(entries, files, n);
    RemoveFile(files, n);
  }

  // ---- empty patches ---------------------------------------------------------------

  // Whatever was read from a file can be stored again.
  lemma DecodedCanBeStored(kind: SecurityKind, content: string)
    ensures CanStore(kind, Decode(content))
  {
    DecodedValuesAreClean(content);
  }

  lemma EmptyPatchInPlace(files: Files, n: Network)
    requires IsNetwork(n) && TypeToKind(n.typ) != SecEnterprise && Filename(n) in files
    requires ParseFilename(Filename(n)) == Some(n) && IsBytes(Filename(n))
    ensures AfterPatch(files, Filename(n), EMPTY_PATCH, IO(false, WriteOk)).0
            == files[Filename(n) := Content(TypeToKind(n.typ), Decode(files[Filename(n)]))]
  {
    var cur := Decode(files[Filename(n)]);
    EmptyPatchTarget(n, cur);
  }

  // An empty patch rewrites a file that the backend wrote, byte for byte.
  lemma EmptyPatchIsIdentity(files: Files, n: Network, s: Settings)
    requires IsCanonicalStore(files) && IsNetwork(n) && n in Abs(files)
    requires TypeToKind(n.typ) != SecEnterprise
    requires CanStore(TypeToKind(n.typ), s) && Abs(files)[n] == Content(TypeToKind(n.typ), s)
    ensures Filename(n) in files && ParseFilename(Filename(n)) == Some(n) && IsBytes(Filename(n))
    ensures AfterPatch(files, Filename(n), EMPTY_PATCH, IO(false, WriteOk)).0 == files
  {
    assert Filename(n) in files && files[Filename(n)] == Content(TypeToKind(n.typ), s) by {
      InAbs(files, n);
    }
    FilenameRoundTrip(n);
    FilenameIsBytes(n);
    EmptyPatchInPlace(files, n);
    RewriteIsIdentity(TypeToKind(n.typ), s);
    SameUpdate(files, Filename(n), Content(TypeToKind(n.typ), Decode(files[Filename(n)])));
  }

  lemma SameUpdate(files: Files, name: string, content: string)
    requires name in files && files[name] == content
    ensures files[name := content] == files
  {
  }

  // A file of any other origin is brought to that form by its first empty patch;
  // the second one changes nothing more.
  lemma EmptyPatchNormalises(files: Files, n: Network)
    requires IsCanonicalStore(files) && IsNetwork(n) && n in Abs(files) && TypeToKind(n.typ) != SecEnterprise
    ensures Filename(n) in files && ParseFilename(Filename(n)) == Some(n) && IsBytes(Filename(n))
    ensures var once := AfterPatch(files, Filename(n), EMPTY_PATCH, IO(false, WriteOk)).0;
            && Filename(n) in once
            && AfterPatch(once, Filename(n), EMPTY_PATCH, IO(false, WriteOk)).0 == once
  {
    PatchRefinesMove(files, n, EMPTY_PATCH, IO(false, WriteOk));
    var kind, cur := TypeToKind(n.typ), Decode(Abs(files)[n]);
    DecodedCanBeStored(kind, Abs(files)[n]);
    InAbs(files, n);
    EmptyPatchInPlace(files, n);
    InsertFile(files, n, Content(kind, cur));
    var once := AfterPatch(files, Filename(n), EMPTY_PATCH, IO(false, WriteOk)).0;
    InAbs(once, n);
    EmptyPatchIsIdentity(once, n, cur);
  }

  // ---- whole runs -------------------------------------------------------------------

  datatype Op =
    | Add(spec: ProfileSpec, w: WriteOutcome)
    | Patch(id: ProfileId, patch: ProfilePatch, io: IO)
    | Delete(id: ProfileId, fails: bool)

  // One call of the Store, for some order in which the directory is listed.
  ghost predicate Step(files: Files, op: Op, entries: seq<string>, files': Files) {
    IsListing(entries, files) && AreByteNames(files) &&
    match op
    case Add(spec, w) => IsBytes(spec.ssid) && files' == AfterAdd(files, spec, w).0
    case Patch(id, patch, io) =>
      && IsBytesPatch(patch)
      && var f := FindFile(entries, id);
         if f.None? then files' == files
         else && f.value in files && ParseFilename(f.value).Some?
              && files' == AfterPatch(files, f.value, patch, io).0
    case Delete(id, fails) =>
      var f := FindFile(entries, id);
      files' == if f.None? || fails then files else files - {f.value}
  }

  lemma StepKeepsCanonical(files: Files, op: Op, entries: seq<string>, files': Files)
    requires IsCanonicalStore(files) && Step(files, op, entries, files')
    ensures IsCanonicalStore(files') && Foreign(files') == Foreign(files)
  {
    match op
    case Add(spec, w) =>
      if spec.ssid != "" && spec.security.kind != SecEnterprise {
        AddRefinesUpsert(files, spec, w);
      }
    case Patch(id, patch, io) =>
      var f := FindFile(entries, id);
      if f.Some? {
        var n := ParseFilename(f.value).value;
        assert IsCanonical(f.value);
        InAbs(files, n);
        if PatchedSpec(n, Decode(Abs(files)[n]), patch).security.kind != SecEnterprise {
          PatchRefinesMove(files, n, patch, io);
        }
      }
    case Delete(id, fails) =>
      FindFileMeaning(entries, id);
      var f := FindFile(entries, id);
      if f.Some? {
        var n := ParseFilename(f.value).value;
        assert IsCanonical(f.value);
        RemoveFile(files, n);
      }
  }

  ghost predicate IsRun(states: seq<Files>, ops: seq<Op>, listings: seq<seq<string>>) {
    && |states| == |ops| + 1 && |listings| == |ops|
    && forall i :: 0 <= i < |ops| ==> Step(states[i], ops[i], listings[i], states[i + 1])
  }

  // Through any calls, with any faults, a canonical store stays canonical, no
  // network ever has two files, and files of other kinds are never touched.
  lemma {:induction false} RunsStayCanonical(states: seq<Files>, ops: seq<Op>, listings: seq<seq<string>>)
    requires IsRun(states, ops, listings) && IsCanonicalStore(states[0])
    ensures forall i :: 0 <= i < |states| ==>
              IsCanonicalStore(states[i]) && HasNoTwins(states[i]) && Foreign(states[i]) == Foreign(states[0])
  {
    for i := 0 to |ops|
      invariant forall j :: 0 <= j <= i ==>
                  IsCanonicalStore(states[j]) && HasNoTwins(states[j]) && Foreign(states[j]) == Foreign(states[0])
    {
      StepKeepsCanonical(states[i], ops[i], listings[i], states[i + 1]);
      CanonicalHasNoTwins(states[i + 1]);
    }
  }
}
