// The scan cache: the latest access-point scan of each interface, kept in a list,
// served while it is fresh and reloaded from a file after a restart.
module ScanCache {
  import opened Text

  datatype AccessPoint = AccessPoint(id: string, ssid: string, signal: int)

  // Times and the TTL are whole nanoseconds. A stored entry may lack its timestamp.
  datatype Entry = Entry(iface: string, scannedAt: Option<int>, aps: seq<AccessPoint>)

  type Data = seq<Entry>

  predicate IsFresh(e: Entry, now: int, ttl: int) {
    e.scannedAt.Some? && now - e.scannedAt.value <= ttl
  }

  // ---- lookups and upserts on the list ------------------------------------------------

  ghost function Find(d: Data, iface: string): Option<Entry> {
    if d == [] then None
    else if d[0].iface == iface then Some(d[0])
    else Find(d[1..], iface)
  }

  ghost function Upsert(d: Data, e: Entry): Data {
    if d == [] then [e]
    else if d[0].iface == e.iface then [e] + d[1..]
    else [d[0]] + Upsert(d[1..], e)
  }

  lemma {:induction false} UpsertAt(d: Data, e: Entry, i: nat)
    requires i <= |d| && forall j :: 0 <= j < i ==> d[j].iface != e.iface
    requires i < |d| ==> d[i].iface == e.iface
    ensures Upsert(d, e) == if i < |d| then d[i := e] else d + [e]
  {
    if i > 0 {
      var rest := d[1..];
      assert d == [d[0]] + rest && forall j :: 0 <= j < i - 1 ==> rest[j] == d[j + 1];
      UpsertAt(rest, e, i - 1);
      if i < |d| {
        assert d[i := e] == [d[0]] + rest[i - 1 := e];
      }
    }
  }

  // What a request for an interface is served with, if anything.
  ghost function Serve(d: Data, iface: string, now: int, ttl: int): Option<seq<AccessPoint>> {
    match Find(d, iface)
    case Some(e) => if IsFresh(e, now, ttl) then Some(e.aps) else None
    case None => None
  }

  ghost function FreshOnly(d: Data, now: int, ttl: int): Data {
    if d == [] then []
    else if IsFresh(d[0], now, ttl) then [d[0]] + FreshOnly(d[1..], now, ttl)
    else FreshOnly(d[1..], now, ttl)
  }

  lemma {:induction false} FreshOnlyAppend(a: Data, e: Entry, now: int, ttl: int)
    ensures FreshOnly(a + [e], now, ttl) == FreshOnly(a, now, ttl) + if IsFresh(e, now, ttl) then [e] else []
  {
    if a == [] {
      assert a + [e] == [e] && [e][1..] == [];
    } else {
      assert (a + [e])[1..] == a[1..] + [e];
      FreshOnlyAppend(a[1..], e, now, ttl);
    }
  }

  // ---- the file encoding ------------------------------------------------------------------

  type Bytes = seq<bv8>

  // Protobuf encoding, of which only the round trip matters. Encoding can fail, and
  // bytes of another origin need not decode.
  datatype Codec = Codec(marshal: Data -> Option<Bytes>, unmarshal: Bytes -> Option<Data>)

  ghost predicate RoundTrips(c: Codec) {
    forall d :: c.marshal(d).Some? ==> c.unmarshal(c.marshal(d).value) == Some(d)
  }

  // The cache after loading a file: a missing or unreadable one changes nothing.
  ghost function Loaded(c: Codec, file: Option<Bytes>, d: Data, now: int, ttl: int): Data {
    if file.None? || c.unmarshal(file.value).None? then d
    else FreshOnly(c.unmarshal(file.value).value, now, ttl)
  }

  class Cache {
    const ttl: int
    const codec: Codec
    var data: Data
    // The cache file and the temporary files next to it.
    var file: Option<Bytes>
    var temps: map<string, Bytes>

    constructor (codec: Codec, ttl: int, file: Option<Bytes>)
      ensures this.codec == codec && this.ttl == ttl && data == [] && this.file == file && temps == map[]
    {
      this.codec, this.ttl := codec, ttl;
      data, this.file, temps := [], file, map[];
    }

    method FindScan(iface: string) returns (found: Option<Entry>)
      ensures found == Find(data, iface)
    {
      for i := 0 to |data|
        invariant Find(data, iface) == Find(data[i..], iface)
      {
        assert data[i..][1..] == data[i + 1..];
        if data[i].iface == iface {
          return Some(data[i]);
        }
      }
      return None;
    }

    method Get(iface: string, now: int) returns (aps: Option<seq<AccessPoint>>)
      ensures aps == Serve(data, iface, now, ttl)
    {
      var e := FindScan(iface);
      if e.None? || !IsFresh(e.value, now, ttl) {
        return None;
      }
      return Some(e.value.aps);
    }

    // Overwrites the interface's entry in place, or appends one.
    method PutScan(iface: string, at: int, aps: seq<AccessPoint>)
      modifies this`data
      ensures data == Upsert(old(data), Entry(iface, Some(at), aps))
    {
      var e := Entry(iface, Some(at), aps);
      for i := 0 to |data|
        invariant data == old(data)
        invariant forall j :: 0 <= j < i ==> data[j].iface != iface
      {
        if data[i].iface == iface {
          UpsertAt(data, e, i);
          data := data[i := e];
          return;
        }
      }
      UpsertAt(data, e, |data|);
      data := data + [e];
    }

    // Replaces the file by way of a temporary one; disk says which steps go wrong.
    method WriteFileAtomic(blob: Bytes, name: string, disk: Disk) returns (ok: bool)
      requires name !in temps
      modifies this`file, this`temps
      ensures ok <==> disk == DiskOk
      ensures file == if ok then Some(blob) else old(file)
      ensures temps == old(temps)
    {
      if disk.CreateFails? {
        return false;
      }
      temps := temps[name := []];
      if disk.WriteFails? {
        temps := temps[name := if disk.written < |blob| then blob[..disk.written] else blob];
        temps := temps - {name};
        return false;
      }
      temps := temps[name := blob];
      if disk.RenameFails? {
        temps := temps - {name};
        return false;
      }
      file := Some(temps[name]);
      temps := temps - {name};
      return true;
    }

    // The cache is updated even when the write fails.
    method Put(iface: string, at: int, aps: seq<AccessPoint>, name: string, disk: Disk) returns (ok: bool)
      requires name !in temps
      modifies this
      ensures data == Upsert(old(data), Entry(iface, Some(at), aps))
      ensures ok ==> file == codec.marshal(data) && file.Some?
      ensures !ok ==> file == old(file)
      ensures ok <==> disk == DiskOk && codec.marshal(data).Some?
    {
      PutScan(iface, at, aps);
      var blob := codec.marshal(data);
      if blob.None? {
        return false;
      }
      ok := WriteFileAtomic(blob.value, name, disk);
    }

    // Compacts the fresh entries to the front of the slice that was decoded.
    method KeepFresh(stored: array<Entry>, now: int) returns (kept: nat)
      modifies stored
      ensures kept <= stored.Length
      ensures stored[..kept] == FreshOnly(old(stored[..]), now, ttl)
    {
      kept := 0;
      for i := 0 to stored.Length
        invariant kept <= i
        invariant stored[..kept] == FreshOnly(old(stored[..i]), now, ttl)
        invariant stored[i..] == old(stored[i..])
      {
        assert stored[i] == stored[i..][0] == old(stored[i]);
        FreshOnlyAppend(old(stored[..i]), old(stored[i]), now, ttl);
        assert old(stored[..i + 1]) == old(stored[..i]) + [old(stored[i])];
        assert stored[i + 1..] == stored[i..][1..];
        if IsFresh(stored[i], now, ttl) {
          ghost var before := stored[..kept];
          stored[kept] := stored[i];
          kept := kept + 1;
          assert stored[..kept] == before + [stored[kept - 1]];
        }
      }
      assert old(stored[..stored.Length]) == old(stored[..]);
    }

    method Load(now: int) returns (ok: bool)
      modifies this`data
      ensures data == Loaded(codec, file, old(data), now, ttl)
      ensures ok <==> file.None? || codec.unmarshal(file.value).Some?
    {
      if file.None? {
        return true;
      }
      var decoded := codec.unmarshal(file.value);
      if decoded.None? {
        return false;
      }
      var d := decoded.value;
      var slice := new Entry[|d|](i requires 0 <= i < |d| => d[i]);
      assert slice[..] == d;
      var kept := KeepFresh(slice, now);
      data := slice[..kept];
      return true;
    }
  }

  datatype Disk = DiskOk | CreateFails | WriteFails(written: nat) | RenameFails

  // ---- one entry per interface ---------------------------------------------------------

  ghost predicate IsUnique(d: Data) {
    forall i, j :: 0 <= i < j < |d| ==> d[i].iface != d[j].iface
  }

  ghost function AsMap(d: Data): map<string, Entry> {
    if d == [] then map[] else AsMap(d[1..])[d[0].iface := d[0]]
  }

  lemma {:induction false} FindIsLookup(d: Data, iface: string)
    ensures Find(d, iface) == if iface in AsMap(d) then Some(AsMap(d)[iface]) else None
    ensures iface in AsMap(d) <==> exists i :: 0 <= i < |d| && d[i].iface == iface
  {
    if d != [] {
      FindIsLookup(d[1..], iface);
      if iface in AsMap(d[1..]) {
        var i :| 0 <= i < |d[1..]| && d[1..][i].iface == iface;
        assert d[i + 1].iface == iface;
      }
    }
  }

  lemma UpsertPlaces(d: Data, e: Entry)
    requires IsUnique(d)
    ensures var u := Upsert(d, e);
            && |d| <= |u| <= |d| + 1
            && (forall i :: 0 <= i < |d| ==> u[i] == if d[i].iface == e.iface then e else d[i])
            && (|u| == |d| + 1 ==> u[|d|] == e && forall i :: 0 <= i < |d| ==> d[i].iface != e.iface)
            && (|u| == |d| ==> exists i :: 0 <= i < |d| && d[i].iface == e.iface)
  {
    if i :| 0 <= i < |d| && d[i].iface == e.iface {
      UpsertAt(d, e, i);
    } else {
      UpsertAt(d, e, |d|);
    }
  }

  lemma {:induction false} UpsertMap(d: Data, e: Entry)
    ensures AsMap(Upsert(d, e)) == AsMap(d)[e.iface := e]
  {
    if d != [] {
      if d[0].iface == e.iface {
        assert ([e] + d[1..])[1..] == d[1..];
      } else {
        UpsertMap(d[1..], e);
        assert ([d[0]] + Upsert(d[1..], e))[1..] == Upsert(d[1..], e);
      }
    }
  }

  lemma UpsertKeepsUnique(d: Data, e: Entry)
    requires IsUnique(d)
    ensures IsUnique(Upsert(d, e))
  {
    UpsertPlaces(d, e);
  }

  lemma UpsertLength(d: Data, e: Entry)
    requires IsUnique(d)
    ensures |Upsert(d, e)| == if e.iface in AsMap(d) then |d| else |d| + 1
  {
    UpsertPlaces(d, e);
    FindIsLookup(d, e.iface);
  }

  // The upsert keeps one entry per interface, in place, and is a map update.
  lemma UpsertIsUpdate(d: Data, e: Entry)
    requires IsUnique(d)
    ensures IsUnique(Upsert(d, e))
    ensures AsMap(Upsert(d, e)) == AsMap(d)[e.iface := e]
    ensures |Upsert(d, e)| == if e.iface in AsMap(d) then |d| else |d| + 1
    ensures forall i :: 0 <= i < |d| ==> Upsert(d, e)[i] == if d[i].iface == e.iface then e else d[i]
  {
    UpsertKeepsUnique(d, e);
    UpsertLength(d, e);
    UpsertMap(d, e);
    UpsertPlaces(d, e);
  }

  // ---- reloading ------------------------------------------------------------------------------

  ghost predicate IsSubsequence(a: Data, b: Data)
    decreases |b|
  {
    if a == [] then true
    else if b == [] then false
    else if a[0] == b[0] then IsSubsequence(a[1..], b[1..])
    else IsSubsequence(a, b[1..])
  }

  // The filter keeps precisely the fresh entries of any list, in their order.
  lemma {:induction false} FreshOnlyMeaning(d: Data, now: int, ttl: int)
    ensures forall e :: e in FreshOnly(d, now, ttl) <==> e in d && IsFresh(e, now, ttl)
    ensures IsSubsequence(FreshOnly(d, now, ttl), d)
  {
    if d != [] {
      var rest := FreshOnly(d[1..], now, ttl);
      FreshOnlyMeaning(d[1..], now, ttl);
      if IsFresh(d[0], now, ttl) {
        assert FreshOnly(d, now, ttl)[1..] == rest;
      } else if rest != [] {
        assert rest[0] in rest && rest[0] != d[0];
      }
    }
  }

  lemma {:induction false} FreshOnlyIsUnique(d: Data, now: int, ttl: int)
    requires IsUnique(d)
    ensures IsUnique(FreshOnly(d, now, ttl))
  {
    if d != [] {
      var rest := FreshOnly(d[1..], now, ttl);
      FreshOnlyIsUnique(d[1..], now, ttl);
      FreshOnlyMeaning(d[1..], now, ttl);
      forall j | 0 <= j < |rest|
        ensures rest[j].iface != d[0].iface
      {
        assert rest[j] in rest && rest[j] in d[1..];
      }
    }
  }

  lemma {:induction false} FindInFresh(d: Data, iface: string, now: int, ttl: int)
    requires IsUnique(d)
    ensures var f := Find(d, iface);
            Find(FreshOnly(d, now, ttl), iface) == if f.Some? && IsFresh(f.value, now, ttl) then f else None
  {
    if d != [] {
      FindInFresh(d[1..], iface, now, ttl);
      if d[0].iface == iface {
        FindIsLookup(d[1..], iface);
      }
    }
  }

  // From the loading time on, a reloaded cache answers every request as the cache
  // that was saved would.
  lemma ReloadServesTheSame(d: Data, iface: string, now: int, t: int, ttl: int)
    requires IsUnique(d) && now <= t
    ensures Serve(FreshOnly(d, now, ttl), iface, t, ttl) == Serve(d, iface, t, ttl)
  {
    FindInFresh(d, iface, now, ttl);
  }

  ghost function PutAll(d: Data, puts: seq<Entry>): Data {
    if puts == [] then d else Upsert(PutAll(d, puts[..|puts| - 1]), puts[|puts| - 1])
  }

  lemma {:induction false} PutsStayUnique(d: Data, puts: seq<Entry>)
    requires IsUnique(d)
    ensures IsUnique(PutAll(d, puts))
  {
    if puts != [] {
      PutsStayUnique(d, puts[..|puts| - 1]);
      UpsertIsUpdate(PutAll(d, puts[..|puts| - 1]), puts[|puts| - 1]);
    }
  }

  // After any sequence of puts of which the last one was saved, a new process that
  // loads the file serves what the old one would, whatever the old one had loaded
  // itself when it started.
  lemma RestartIsTransparent(c: Codec, start: Data, puts: seq<Entry>, iface: string, now: int, t: int, ttl: int)
    requires RoundTrips(c) && IsUnique(start) && c.marshal(PutAll(start, puts)).Some? && now <= t
    ensures Serve(Loaded(c, c.marshal(PutAll(start, puts)), [], now, ttl), iface, t, ttl)
            == Serve(PutAll(start, puts), iface, t, ttl)
  {
    PutsStayUnique(start, puts);
    ReloadServesTheSame(PutAll(start, puts), iface, now, t, ttl);
  }

  // What a process has loaded is a start that qualifies, if the file held one entry
  // per interface.
  lemma LoadedIsUnique(c: Codec, file: Option<Bytes>, now: int, ttl: int)
    requires file.Some? && c.unmarshal(file.value).Some? ==> IsUnique(c.unmarshal(file.value).value)
    ensures IsUnique(Loaded(c, file, [], now, ttl))
  {
    if file.Some? && c.unmarshal(file.value).Some? {
      FreshOnlyIsUnique(c.unmarshal(file.value).value, now, ttl);
    }
  }

  // ---- lists with duplicates --------------------------------------------------------------

  ghost predicate HasFresh(d: Data, iface: string, now: int, ttl: int) {
    exists i :: 0 <= i < |d| && d[i].iface == iface && IsFresh(d[i], now, ttl)
  }

  lemma {:induction false} FreshIsFound(d: Data, iface: string, now: int, ttl: int)
    ensures Find(FreshOnly(d, now, ttl), iface).Some? <==> HasFresh(d, iface, now, ttl)
  {
    if d != [] {
      FreshIsFound(d[1..], iface, now, ttl);
      if HasFresh(d[1..], iface, now, ttl) {
        var i :| 0 <= i < |d[1..]| && d[1..][i].iface == iface && IsFresh(d[1..][i], now, ttl);
        assert d[i + 1] == d[1..][i];
      }
      if HasFresh(d, iface, now, ttl) && !(d[0].iface == iface && IsFresh(d[0], now, ttl)) {
        var i :| 0 <= i < |d| && d[i].iface == iface && IsFresh(d[i], now, ttl);
        assert d[1..][i - 1] == d[i];
      }
      if IsFresh(d[0], now, ttl) {
        assert FreshOnly(d, now, ttl)[1..] == FreshOnly(d[1..], now, ttl);
      }
    }
  }

  lemma {:induction false} FreshFirstIsFound(d: Data, iface: string, now: int, ttl: int)
    requires Find(d, iface).Some? && IsFresh(Find(d, iface).value, now, ttl)
    ensures Find(FreshOnly(d, now, ttl), iface) == Find(d, iface)
  {
    if d[0].iface != iface {
      FreshFirstIsFound(d[1..], iface, now, ttl);
      if IsFresh(d[0], now, ttl) {
        assert FreshOnly(d, now, ttl)[1..] == FreshOnly(d[1..], now, ttl);
      }
    }
  }

  lemma {:induction false} FoundIsFresh(d: Data, iface: string, now: int, ttl: int)
    ensures Find(FreshOnly(d, now, ttl), iface).Some? ==>
              IsFresh(Find(FreshOnly(d, now, ttl), iface).value, now, ttl) && Find(d, iface).Some?
  {
    if d != [] {
      FoundIsFresh(d[1..], iface, now, ttl);
      if IsFresh(d[0], now, ttl) {
        assert FreshOnly(d, now, ttl)[1..] == FreshOnly(d[1..], now, ttl);
      }
    }
  }

  // For a list of any origin, duplicates included: the reloaded cache answers for an
  // interface as the saved one would, at every later time, exactly if dropping stale
  // entries brings no fresh one to light.
  lemma ReloadServesTheSameIff(d: Data, iface: string, now: int, ttl: int)
    ensures (forall t :: now <= t ==> Serve(FreshOnly(d, now, ttl), iface, t, ttl) == Serve(d, iface, t, ttl))
            <==> !(Find(d, iface).Some? && !IsFresh(Find(d, iface).value, now, ttl) && HasFresh(d, iface, now, ttl))
  {
    FreshIsFound(d, iface, now, ttl);
    FoundIsFresh(d, iface, now, ttl);
    var f, g := Find(d, iface), Find(FreshOnly(d, now, ttl), iface);
    if f.Some? && IsFresh(f.value, now, ttl) {
      FreshFirstIsFound(d, iface, now, ttl);
    } else if g.Some? {
      assert Serve(FreshOnly(d, now, ttl), iface, now, ttl) != Serve(d, iface, now, ttl);
    }
  }
}
