// Scan requests answered through the cache.
module ScanServer {
  import opened Text
  import opened Wnet
  import opened ScanCache

  // One request: when it looked into the cache, what the radio would answer, and when
  // that answer was stored.
  datatype ScanRequest = ScanRequest(iface: string, asked: int, radio: Option<seq<AccessPoint>>, stored: int)

  datatype Response = Response(items: Result<seq<AccessPoint>>, radioUsed: bool)

  ghost function Respond(d: Data, q: ScanRequest, ttl: int): (Data, Response) {
    if q.iface == "" then (d, Response(Err(Invalid), false))
    else match Serve(d, q.iface, q.asked, ttl)
      case Some(aps) => (d, Response(Ok(aps), false))
      case None =>
        match q.radio
        case None => (d, Response(Err(Remote), true))
        case Some(aps) => (Upsert(d, Entry(q.iface, Some(q.stored), aps)), Response(Ok(aps), true))
  }

  class AccessPointServer {
    const cache: Cache?

    constructor (cache: Cache?)
      ensures this.cache == cache
    {
      this.cache := cache;
    }

    // A cache write that fails does not fail the scan. A server without a cache answers
    // as one whose cache is always empty.
    method Scan(q: ScanRequest, name: string, disk: Disk) returns (r: Response)
      requires cache != null ==> name !in cache.temps
      modifies cache
      ensures cache != null ==> (cache.data, r) == Respond(old(cache.data), q, cache.ttl)
      ensures cache == null ==> r == Respond([], q, 0).1
      ensures cache == null ==>
                r == if q.iface == "" then Response(Err(Invalid), false)
                     else if q.radio.None? then Response(Err(Remote), true)
                     else Response(Ok(q.radio.value), true)
    {
      if q.iface == "" {
        return Response(Err(Invalid), false);
      }
      if cache != null {
        var hit := cache.Get(q.iface, q.asked);
        if hit.Some? {
          return Response(Ok(hit.value), false);
        }
      }
      if q.radio.None? {
        return Response(Err(Remote), true);
      }
      if cache != null {
        var _ := cache.Put(q.iface, q.stored, q.radio.value, name, disk);
      }
      return Response(Ok(q.radio.value), true);
    }
  }

  // ---- runs -----------------------------------------------------------------------------------

  // The latest successful radio scan of each interface, read off the requests and
  // responses alone.
  ghost function Latest(start: map<string, Entry>, qs: seq<ScanRequest>, rs: seq<Response>): map<string, Entry>
    requires |qs| == |rs|
  {
    if qs == [] then start
    else
      var n := |qs| - 1;
      var before := Latest(start, qs[..n], rs[..n]);
      if rs[n].radioUsed && rs[n].items.Ok?
      then before[qs[n].iface := Entry(qs[n].iface, Some(qs[n].stored), rs[n].items.value)]
      else before
  }

  ghost predicate IsRun(ds: seq<Data>, qs: seq<ScanRequest>, rs: seq<Response>, ttl: int) {
    && |ds| == |qs| + 1 && |rs| == |qs|
    && forall i :: 0 <= i < |qs| ==> (ds[i + 1], rs[i]) == Respond(ds[i], qs[i], ttl)
  }

  lemma {:induction false} ListIsLatest(ds: seq<Data>, qs: seq<ScanRequest>, rs: seq<Response>, ttl: int)
    requires IsRun(ds, qs, rs, ttl) && IsUnique(ds[0])
    ensures IsUnique(ds[|qs|]) && AsMap(ds[|qs|]) == Latest(AsMap(ds[0]), qs, rs)
    decreases |qs|
  {
    if qs != [] {
      var n := |qs| - 1;
      ListIsLatest(ds[..n + 1], qs[..n], rs[..n], ttl);
      assert (ds[n + 1], rs[n]) == Respond(ds[n], qs[n], ttl);
      if rs[n].radioUsed && rs[n].items.Ok? {
        UpsertIsUpdate(ds[n], Entry(qs[n].iface, Some(qs[n].stored), rs[n].items.value));
      }
    }
  }

  // No scan time is on record, or one that lies back further than the TTL.
  predicate IsOlder(e: Entry, now: int, ttl: int) {
    e.scannedAt.None? || now - e.scannedAt.value > ttl
  }

  // In every run of requests the list holds exactly the latest radio scan of each
  // interface, once; every good response is that scan; and the radio is used exactly
  // when no scan is on record or the one on record is older than the TTL. A request
  // without an interface is invalid and leaves everything alone.
  lemma RunServesLatest(ds: seq<Data>, qs: seq<ScanRequest>, rs: seq<Response>, ttl: int, i: nat)
    requires IsRun(ds, qs, rs, ttl) && IsUnique(ds[0]) && i < |qs|
    ensures IsUnique(ds[i + 1])
    ensures var before := Latest(AsMap(ds[0]), qs[..i], rs[..i]);
            var after := Latest(AsMap(ds[0]), qs[..i + 1], rs[..i + 1]);
            && AsMap(ds[i]) == before && AsMap(ds[i + 1]) == after
            && (rs[i].items.Ok? ==> qs[i].iface in after && rs[i].items.value == after[qs[i].iface].aps)
            && (rs[i].radioUsed <==>
                qs[i].iface != "" && (qs[i].iface !in before || IsOlder(before[qs[i].iface], qs[i].asked, ttl)))
            && (rs[i].radioUsed ==>
                  rs[i].items == if qs[i].radio.Some? then Ok(qs[i].radio.value) else Err(Remote))
            && (!rs[i].radioUsed ==>
                  && after == before
                  && (rs[i].items.Err? <==> qs[i].iface == "") && (rs[i].items.Err? ==> rs[i].items.error == Invalid))
            && (rs[i].items.Err? ==> after == before)
  {
    ListIsLatest(ds[..i + 1], qs[..i], rs[..i], ttl);
    ListIsLatest(ds[..i + 2], qs[..i + 1], rs[..i + 1], ttl);
    FindIsLookup(ds[i], qs[i].iface);
    assert (ds[i + 1], rs[i]) == Respond(ds[i], qs[i], ttl);
    assert qs[..i + 1][..i] == qs[..i] && rs[..i + 1][..i] == rs[..i];
  }
}
