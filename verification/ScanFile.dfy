// The cache file under concurrent writers and crashes: puts encode the cache under
// the mutex, but write and rename outside it.
module ScanFile {
  import opened Text
  import opened ScanCache

  type Tid = nat

  // A put after it has left the mutex: its encoded cache, then its temporary file.
  datatype Pc =
    | Encoded(blob: Bytes)
    | Writing(blob: Bytes, tmp: string, written: nat)
    | Closed(blob: Bytes, tmp: string)
    | Done(ok: bool)

  // memory is the cache of the running process; memories lists what it was right
  // after each put of any process so far. Temporary files outlive a crash.
  datatype State = State(memory: Data, file: Option<Bytes>, temps: map<string, Bytes>, threads: map<Tid, Pc>,
                         memories: seq<Data>)

  datatype Event =
    | Put(t: Tid, e: Entry)
    | CreateTemp(t: Tid, tmp: string)
    | WriteSome(t: Tid, upto: nat)
    | Close(t: Tid)
    | Rename(t: Tid)
    | Fail(t: Tid, removed: bool)
    | Crash
    | Load(now: int)

  predicate Enabled(c: Codec, s: State, e: Event) {
    match e
    case Put(t, _) => t !in s.threads
    case CreateTemp(t, tmp) => t in s.threads && s.threads[t].Encoded? && tmp !in s.temps
    case WriteSome(t, upto) =>
      t in s.threads && s.threads[t].Writing? && s.threads[t].written <= upto <= |s.threads[t].blob|
    case Close(t) => t in s.threads && s.threads[t].Writing? && s.threads[t].written == |s.threads[t].blob|
    case Rename(t) => t in s.threads && s.threads[t].Closed? && s.threads[t].tmp in s.temps
    case Fail(t, _) => t in s.threads && !s.threads[t].Done?
    case Crash => true
    // Loading happens at start, before any put.
    case Load(_) => s.threads == map[]
  }

  function TempOf(pc: Pc): set<string> {
    match pc
    case Writing(_, tmp, _) => {tmp}
    case Closed(_, tmp) => {tmp}
    case _ => {}
  }

  ghost function Apply(c: Codec, ttl: int, s: State, e: Event): State
    requires Enabled(c, s, e)
  {
    match e
    case Put(t, entry) =>
      var d := Upsert(s.memory, entry);
      var pc := match c.marshal(d) case Some(b) => Encoded(b) case None => Done(false);
      s.(memory := d, memories := s.memories + [d], threads := s.threads[t := pc])
    case CreateTemp(t, tmp) =>
      s.(temps := s.temps[tmp := []], threads := s.threads[t := Writing(s.threads[t].blob, tmp, 0)])
    case WriteSome(t, upto) =>
      var pc := s.threads[t];
      s.(temps := s.temps[pc.tmp := pc.blob[..upto]], threads := s.threads[t := pc.(written := upto)])
    case Close(t) =>
      s.(threads := s.threads[t := Closed(s.threads[t].blob, s.threads[t].tmp)])
    case Rename(t) =>
      var tmp := s.threads[t].tmp;
      s.(file := Some(s.temps[tmp]), temps := s.temps - {tmp}, threads := s.threads[t := Done(true)])
    case Fail(t, removed) =>
      s.(temps := if removed then s.temps - TempOf(s.threads[t]) else s.temps, threads := s.threads[t := Done(false)])
    case Crash =>
      s.(memory := [], threads := map[])
    case Load(now) =>
      s.(memory := Loaded(c, s.file, s.memory, now, ttl))
  }

  // ---- the invariant ------------------------------------------------------------------------------

  // A blob that is the whole cache as it stood right after some put.
  ghost predicate IsSnapshot(c: Codec, s: State, b: Bytes) {
    exists i :: 0 <= i < |s.memories| && c.marshal(s.memories[i]) == Some(b)
  }

  ghost predicate FileOk(c: Codec, s: State, init: Option<Bytes>) {
    s.file == init || (s.file.Some? && IsSnapshot(c, s, s.file.value))
  }

  ghost predicate ThreadOk(c: Codec, s: State, pc: Pc) {
    match pc
    case Encoded(b) => IsSnapshot(c, s, b)
    case Writing(b, tmp, n) => IsSnapshot(c, s, b) && n <= |b| && tmp in s.temps && s.temps[tmp] == b[..n]
    case Closed(b, tmp) => IsSnapshot(c, s, b) && tmp in s.temps && s.temps[tmp] == b
    case Done(_) => true
  }

  ghost predicate OwnTemps(s: State) {
    forall t, u :: t in s.threads && u in s.threads && t != u ==> TempOf(s.threads[t]) !! TempOf(s.threads[u])
  }

  // What concerns the files; it needs nothing of the codec or of the initial file.
  ghost predicate FilesOk(c: Codec, s: State, init: Option<Bytes>) {
    && FileOk(c, s, init)
    && (forall t :: t in s.threads ==> ThreadOk(c, s, s.threads[t]))
    && OwnTemps(s)
  }

  // What concerns the memories.
  ghost predicate AreUnique(s: State) {
    IsUnique(s.memory) && forall i :: 0 <= i < |s.memories| ==> IsUnique(s.memories[i])
  }

  // A file of another origin, if it decodes at all, holds one entry per interface.
  ghost predicate InitOk(c: Codec, init: Option<Bytes>) {
    init.Some? && c.unmarshal(init.value).Some? ==> IsUnique(c.unmarshal(init.value).value)
  }

  lemma SnapshotsLast(c: Codec, s: State, s': State, b: Bytes)
    requires s.memories <= s'.memories && IsSnapshot(c, s, b)
    ensures IsSnapshot(c, s', b)
  {
    var i :| 0 <= i < |s.memories| && c.marshal(s.memories[i]) == Some(b);
    assert s'.memories[i] == s.memories[i];
  }

  lemma PutKeepsFiles(c: Codec, ttl: int, s: State, init: Option<Bytes>, t: Tid, e: Entry)
    requires FilesOk(c, s, init) && Enabled(c, s, Put(t, e))
    ensures FilesOk(c, Apply(c, ttl, s, Put(t, e)), init)
  {
    var s' := Apply(c, ttl, s, Put(t, e));
    assert s'.memories[|s.memories|] == Upsert(s.memory, e);
    if s.file.Some? && IsSnapshot(c, s, s.file.value) {
      SnapshotsLast(c, s, s', s.file.value);
    }
    forall u | u in s'.threads
      ensures ThreadOk(c, s', s'.threads[u])
    {
      if u != t && !s.threads[u].Done? {
        assert ThreadOk(c, s, s.threads[u]);
        SnapshotsLast(c, s, s', s.threads[u].blob);
      }
    }
  }

  // Steps of one writer that touch its own temporary file only.
  lemma WriterKeepsFiles(c: Codec, ttl: int, s: State, init: Option<Bytes>, e: Event)
    requires FilesOk(c, s, init) && Enabled(c, s, e) && (e.CreateTemp? || e.WriteSome? || e.Close? || e.Fail?)
    ensures FilesOk(c, Apply(c, ttl, s, e), init)
  {
    var s' := Apply(c, ttl, s, e);
    assert s'.memories == s.memories;
    assert ThreadOk(c, s, s.threads[e.t]);
    forall u | u in s'.threads
      ensures ThreadOk(c, s', s'.threads[u])
    {
      assert ThreadOk(c, s, s.threads[u]);
      if u != e.t {
        assert TempOf(s.threads[u]) !! TempOf(s.threads[e.t]);
      }
    }
    if e.CreateTemp? {
      forall u | u in s.threads
        ensures e.tmp !in TempOf(s.threads[u])
      {
        assert ThreadOk(c, s, s.threads[u]);
      }
    }
  }

  lemma RenameKeepsFiles(c: Codec, ttl: int, s: State, init: Option<Bytes>, t: Tid)
    requires FilesOk(c, s, init) && Enabled(c, s, Rename(t))
    ensures FilesOk(c, Apply(c, ttl, s, Rename(t)), init)
  {
    var s' := Apply(c, ttl, s, Rename(t));
    assert s'.memories == s.memories;
    assert ThreadOk(c, s, s.threads[t]);
    forall u | u in s'.threads
      ensures ThreadOk(c, s', s'.threads[u])
    {
      assert ThreadOk(c, s, s.threads[u]);
      if u != t {
        assert TempOf(s.threads[u]) !! TempOf(s.threads[t]);
      }
    }
  }

  lemma StepKeepsFiles(c: Codec, ttl: int, s: State, init: Option<Bytes>, e: Event)
    requires FilesOk(c, s, init) && Enabled(c, s, e)
    ensures FilesOk(c, Apply(c, ttl, s, e), init)
  {
    match e
    case Put(t, entry) => PutKeepsFiles(c, ttl, s, init, t, entry);
    case Rename(t) => RenameKeepsFiles(c, ttl, s, init, t);
    case Load(_) =>
    case Crash =>
    case _ => WriterKeepsFiles(c, ttl, s, init, e);
  }

  // A process holds one entry per interface, provided that a file it may find at
  // first does.
  lemma StepKeepsUnique(c: Codec, ttl: int, s: State, init: Option<Bytes>, e: Event)
    requires FileOk(c, s, init) && AreUnique(s) && Enabled(c, s, e) && RoundTrips(c) && InitOk(c, init)
    ensures AreUnique(Apply(c, ttl, s, e))
  {
    match e
    case Put(t, entry) =>
      UpsertIsUpdate(s.memory, entry);
    case Load(now) =>
      if s.file.Some? && c.unmarshal(s.file.value).Some? {
        var d := c.unmarshal(s.file.value).value;
        if s.file != init {
          var i :| 0 <= i < |s.memories| && c.marshal(s.memories[i]) == Some(s.file.value);
          assert d == s.memories[i];
        }
        FreshOnlyIsUnique(d, now, ttl);
      }
    case _ =>
  }

  // ---- runs -----------------------------------------------------------------------------------------

  ghost predicate IsRun(c: Codec, ttl: int, states: seq<State>, events: seq<Event>) {
    && |states| == |events| + 1
    && forall i :: 0 <= i < |events| ==>
         Enabled(c, states[i], events[i]) && states[i + 1] == Apply(c, ttl, states[i], events[i])
  }

  ghost predicate IsStart(s: State) {
    s == State([], s.file, map[], map[], [])
  }

  // Through any interleaving of puts, with failures and crashes at any point, the
  // cache file is what it was at first or the complete cache as it stood right after
  // some put: never a part of one, never a mixture.
  lemma FileIsAlwaysWhole(c: Codec, ttl: int, states: seq<State>, events: seq<Event>)
    requires IsRun(c, ttl, states, events) && IsStart(states[0])
    ensures forall i :: 0 <= i < |states| ==> FilesOk(c, states[i], states[0].file)
  {
    for i := 0 to |events|
      invariant forall j :: 0 <= j <= i ==> FilesOk(c, states[j], states[0].file)
    {
      StepKeepsFiles(c, ttl, states[i], states[0].file, events[i]);
    }
  }

  // If the initial file is no list with duplicates, neither is any cache.
  lemma CachesAreUnique(c: Codec, ttl: int, states: seq<State>, events: seq<Event>)
    requires IsRun(c, ttl, states, events) && IsStart(states[0]) && RoundTrips(c) && InitOk(c, states[0].file)
    ensures forall i :: 0 <= i < |states| ==> AreUnique(states[i])
  {
    FileIsAlwaysWhole(c, ttl, states, events);
    for i := 0 to |events|
      invariant forall j :: 0 <= j <= i ==> AreUnique(states[j])
    {
      assert FilesOk(c, states[i], states[0].file);
      StepKeepsUnique(c, ttl, states[i], states[0].file, events[i]);
    }
  }

  // What a process serves after a crash and a reload is what the cache served right
  // after some earlier put, if the file is not the initial one.
  lemma ReloadedCacheIsAMemory(c: Codec, ttl: int, s: State, init: Option<Bytes>, now: int)
    requires FileOk(c, s, init) && AreUnique(s) && RoundTrips(c) && s.file != init
    ensures var s' := Apply(c, ttl, Apply(c, ttl, s, Crash), Load(now));
            exists i :: 0 <= i < |s.memories| &&
              forall iface, t :: now <= t ==> Serve(s'.memory, iface, t, ttl) == Serve(s.memories[i], iface, t, ttl)
  {
    var s' := Apply(c, ttl, Apply(c, ttl, s, Crash), Load(now));
    var i :| 0 <= i < |s.memories| && c.marshal(s.memories[i]) == Some(s.file.value);
    forall iface, t | now <= t
      ensures Serve(s'.memory, iface, t, ttl) == Serve(s.memories[i], iface, t, ttl)
    {
      ReloadServesTheSame(s.memories[i], iface, now, t, ttl);
    }
  }

  // ---- temporary files --------------------------------------------------------------------------

  // Every temporary file belongs to a writer that is still at work.
  ghost predicate IsTidy(s: State) {
    forall tmp :: tmp in s.temps ==> exists t :: t in s.threads && tmp in TempOf(s.threads[t])
  }

  // Nothing goes wrong that the writer cannot clean up after.
  predicate IsCleanedUp(e: Event) {
    e != Crash && !(e.Fail? && !e.removed)
  }

  lemma StepKeepsTidy(c: Codec, ttl: int, s: State, e: Event)
    requires IsTidy(s) && Enabled(c, s, e) && IsCleanedUp(e)
    ensures IsTidy(Apply(c, ttl, s, e))
  {
    var s' := Apply(c, ttl, s, e);
    forall tmp | tmp in s'.temps
      ensures exists t :: t in s'.threads && tmp in TempOf(s'.threads[t])
    {
      if e.CreateTemp? && tmp == e.tmp {
        assert tmp in TempOf(s'.threads[e.t]);
      } else {
        var t :| t in s.threads && tmp in TempOf(s.threads[t]);
        assert t in s'.threads && tmp in TempOf(s'.threads[t]);
      }
    }
  }

  // Without crashes and failed removals, a directory in which every put is done
  // holds no temporary file.
  lemma NoLitter(c: Codec, ttl: int, states: seq<State>, events: seq<Event>)
    requires IsRun(c, ttl, states, events) && states[0].temps == map[]
    requires forall i :: 0 <= i < |events| ==> IsCleanedUp(events[i])
    ensures var last := states[|events|];
            (forall t :: t in last.threads ==> last.threads[t].Done?) ==> last.temps == map[]
  {
    for i := 0 to |events|
      invariant IsTidy(states[i])
    {
      StepKeepsTidy(c, ttl, states[i], events[i]);
    }
    var last := states[|events|];
    if forall t :: t in last.threads ==> last.threads[t].Done? {
      assert forall tmp :: tmp !in last.temps;
    }
  }
}
