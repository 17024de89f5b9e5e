/** The gateway's bucket usage, listed in bulk or page by page with a marker. The
    gateway returns buckets in name order, those after the marker when one is
    given, at most `max-entries` of them. */
module BucketStats {
  import opened Prelude

  datatype Category = Category(numObjects: Option<nat>, sizeActual: Option<nat>)

  /** `main` is the `rgw.main` category of the entry's usage, if any. */
  datatype Entry = Entry(bucket: string, main: Option<Category>)

  datatype Stats = Stats(bucket: string, objects: nat, bytes: nat)

  function OrZero(o: Option<nat>): nat {
    match o case Some(n) => n case None => 0
  }

  function ToStats(e: Entry): Stats {
    match e.main
    case Some(c) => Stats(e.bucket, OrZero(c.numObjects), OrZero(c.sizeActual))
    case None => Stats(e.bucket, 0, 0)
  }

  function AllStats(es: seq<Entry>): seq<Stats> {
    seq(|es|, i requires 0 <= i < |es| => ToStats(es[i]))
  }

  /** The bucket's name, its number of objects and their actual size, 0 if missing. */
  predicate Describes(e: Entry, s: Stats) {
    && s.bucket == e.bucket
    && (if e.main.Some? && e.main.value.numObjects.Some? then s.objects == e.main.value.numObjects.value else s.objects == 0)
    && (if e.main.Some? && e.main.value.sizeActual.Some? then s.bytes == e.main.value.sizeActual.value else s.bytes == 0)
  }

  /** Order of names by their characters. */
  predicate Less(a: string, b: string) {
    b != "" && (a == "" || a[0] < b[0] || (a[0] == b[0] && Less(a[1..], b[1..])))
  }

  lemma {:induction false} LessAsymmetric(a: string, b: string)
    ensures !(Less(a, b) && Less(b, a))
  {
    if a != "" && b != "" { LessAsymmetric(a[1..], b[1..]); }
  }

  ghost predicate Listing(buckets: seq<Entry>) {
    && (forall i, j :: 0 <= i < j < |buckets| ==> Less(buckets[i].bucket, buckets[j].bucket))
    && (forall e | e in buckets :: e.bucket != "")
  }

  function Behind(marker: string): Entry -> bool {
    (e: Entry) => marker == "" || Less(marker, e.bucket)
  }

  function After(buckets: seq<Entry>, marker: string): seq<Entry> {
    Filter(buckets, Behind(marker))
  }

  function Request(buckets: seq<Entry>, marker: string, maxEntries: nat): seq<Entry> {
    var rest := After(buckets, marker);
    if |rest| <= maxEntries then rest else rest[..maxEntries]
  }

  lemma NotBehind(buckets: seq<Entry>, k: nat, i: nat)
    requires Listing(buckets) && i < k <= |buckets|
    ensures buckets[k - 1].bucket != "" && !Less(buckets[k - 1].bucket, buckets[i].bucket)
  {
    assert buckets[k - 1] in buckets;
    LessAsymmetric(buckets[k - 1].bucket, buckets[i].bucket);
  }

  /** The marker after the first `k` buckets. */
  function MarkerAt(buckets: seq<Entry>, k: nat): string
    requires k <= |buckets|
  {
    if k == 0 then "" else buckets[k - 1].bucket
  }

  /** After a bucket's name come exactly the buckets behind it. */
  lemma AfterIsSuffix(buckets: seq<Entry>, k: nat)
    requires Listing(buckets) && k <= |buckets|
    ensures After(buckets, MarkerAt(buckets, k)) == buckets[k..]
  {
    var p := Behind(MarkerAt(buckets, k));
    forall i | 0 <= i < k ensures !p(buckets[i]) { NotBehind(buckets, k, i); }
    assert forall i | k <= i < |buckets| :: p(buckets[i]);
    SplitFilter(buckets, p, k);
  }

  /** The bulk listing tells every bucket once, in order. */
  lemma AllStatsDescribe(buckets: seq<Entry>)
    ensures |AllStats(buckets)| == |buckets|
    ensures forall i | 0 <= i < |buckets| :: Describes(buckets[i], AllStats(buckets)[i])
  {
  }

  lemma {:induction false} SplitFilter(xs: seq<Entry>, p: Entry -> bool, k: nat)
    requires k <= |xs|
    requires forall i | 0 <= i < |xs| :: p(xs[i]) <==> k <= i
    ensures Filter(xs, p) == xs[k..]
  {
    if k == 0 {
      FilterAll(xs, p);
    } else {
      assert !p(xs[0]);
      SplitFilter(xs[1..], p, k - 1);
      assert xs[1..][k - 1..] == xs[k..];
    }
  }

  lemma AllStatsAppend(a: seq<Entry>, b: seq<Entry>)
    ensures AllStats(a + b) == AllStats(a) + AllStats(b)
  {
  }

  lemma RequestIsNextPage(buckets: seq<Entry>, k: nat, pageSize: nat)
    requires Listing(buckets) && k <= |buckets|
    ensures var entries := Request(buckets, MarkerAt(buckets, k), pageSize); var m := k + |entries|;
      && m <= |buckets| && |entries| <= pageSize && entries == buckets[k..m]
      && (|entries| < pageSize || (entries == [] && pageSize >= 1) ==> m == |buckets|)
      && (entries != [] ==> entries[|entries| - 1].bucket == MarkerAt(buckets, m))
  {
    AfterIsSuffix(buckets, k);
  }

  /** What the stream has yielded after `k` buckets. */
  function StatsUpTo(buckets: seq<Entry>, k: nat): seq<Stats>
    requires k <= |buckets|
  {
    AllStats(buckets[..k])
  }

  lemma NextStats(buckets: seq<Entry>, k: nat, entries: seq<Entry>)
    requires k + |entries| <= |buckets| && entries == buckets[k..k + |entries|]
    ensures StatsUpTo(buckets, k) + AllStats(entries) == StatsUpTo(buckets, k + |entries|)
  {
    AllStatsAppend(buckets[..k], entries);
    assert buckets[..k + |entries|] == buckets[..k] + entries;
  }

  /** One turn of the loop, from the marker after `k` buckets. */
  lemma NextTurn(buckets: seq<Entry>, k: nat, entries: seq<Entry>, pageSize: nat)
    requires Listing(buckets) && k <= |buckets| && pageSize >= 1
    requires entries == Request(buckets, MarkerAt(buckets, k), pageSize)
    ensures var m := k + |entries|;
      && m <= |buckets| && StatsUpTo(buckets, k) + AllStats(entries) == StatsUpTo(buckets, m)
      && (if |entries| < pageSize then m == |buckets| else m > k && entries[|entries| - 1].bucket == MarkerAt(buckets, m))
  {
    RequestIsNextPage(buckets, k, pageSize);
    NextStats(buckets, k, entries);
  }

  lemma StatsEnds(buckets: seq<Entry>)
    ensures StatsUpTo(buckets, 0) == [] && StatsUpTo(buckets, |buckets|) == AllStats(buckets)
  {
    assert buckets[..|buckets|] == buckets;
  }

  method GetBucketStats(buckets: seq<Entry>) returns (out: seq<Stats>)
    ensures out == AllStats(buckets)
  {
    out := [];
    for i := 0 to |buckets|
      invariant out == AllStats(buckets[..i])
    {
      out := out + [ToStats(buckets[i])];
      assert buckets[..i + 1] == buckets[..i] + [buckets[i]];
      AllStatsAppend(buckets[..i], [buckets[i]]);
    }
    assert buckets[..|buckets|] == buckets;
  }

  /** Whatever the page size, the paged stream yields the bulk listing. */
  method GetBucketStatsStream(buckets: seq<Entry>, pageSize: nat) returns (out: seq<Stats>)
    requires Listing(buckets) && pageSize >= 1
    ensures out == AllStats(buckets)
  {
    out := [];
    var marker := "";
    ghost var k := 0;
    StatsEnds(buckets);
    while true
      invariant k <= |buckets| && out == StatsUpTo(buckets, k)
      invariant marker == MarkerAt(buckets, k)
      decreases |buckets| - k
    {
      var entries := Request(buckets, marker, pageSize);
      NextTurn(buckets, k, entries, pageSize);
      var page := GetBucketStats(entries);
      out := out + page;
      if entries == [] || |entries| < pageSize {
        return;
      }
      marker := entries[|entries| - 1].bucket;
      k := k + |entries|;
    }
  }
}
