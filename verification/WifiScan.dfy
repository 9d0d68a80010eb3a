/** The list of known access points: lws_wifi_scan_rssi(), lws_wifi_scan_insert_trim() and the
    accumulation loop of scan_finished() in `plugins/protocol_esp32_lws_scan.c`. */
module WifiScan {
  import opened SelectionSort
  import opened Sequences

  const MAX_APS := 12
  const AP_RECORDS := 10
  const SSID_SIZE := 32

  datatype Key = Key(ssid: string, bssid: string)

  /** struct lws_wifi_scan: `rssi` is the sum of the `count` samples taken */
  datatype Ap = Ap(key: Key, rssi: int, count: nat, channel: nat, authmode: nat)

  /** C's division: towards zero */
  function TruncDiv(a: int, b: nat): (q: int)
    requires b > 0
  {
    if a >= 0 then a / b else -((-a) / b)
  }

  /** lws_wifi_scan_rssi() */
  function Average(p: Ap): (db: int) {
    if p.count == 0 then -127 else TruncDiv(p.rssi, p.count)
  }

  // ----- one entry -----

  /** Another sample of a known access point.  `count` is a uint8_t: it is halved, and the sum with it,
      before it could pass 128. */
  function Merged(p: Ap, sample: int): (p': Ap) {
    var half := Halved(p);
    half.(rssi := half.rssi + sample, count := half.count + 1)
  }

  function Halved(p: Ap): (p': Ap) {
    if p.count > 127 then p.(count := p.count / 2, rssi := TruncDiv(p.rssi, 2)) else p
  }

  /** The sum is that of `count` values no lower than `lo` and no higher than `hi`. */
  predicate Within(p: Ap, lo: int, hi: int) {
    1 <= p.count <= 128 && lo <= hi <= 0 && lo * p.count <= p.rssi <= hi * p.count
  }

  lemma WithinWider(lo: int, lo': int, n: nat)
    requires lo' <= lo
    ensures lo' * n <= lo * n
  {
    assert (lo - lo') * n >= 0;
    assert lo * n == lo' * n + (lo - lo') * n;
  }

  /** Halving loses precision, but not the bounds. */
  lemma MergedStaysWithin(p: Ap, lo: int, hi: int, sample: int, lo': int, hi': int)
    requires Within(p, lo, hi) && sample <= 0
    requires lo' == (if sample < lo then sample else lo) && hi' == (if sample > hi then sample else hi)
    ensures Within(Merged(p, sample), lo', hi')
  {
    var half := Halved(p);
    HalvedStaysWithin(p, lo, hi);
    WithinWider(lo, lo', half.count);
    WithinWider(hi', hi, half.count);
    OneMoreTimes(lo', half.count);
    OneMoreTimes(hi', half.count);
  }

  lemma HalvedStaysWithin(p: Ap, lo: int, hi: int)
    requires Within(p, lo, hi)
    ensures Within(Halved(p), lo, hi) && Halved(p).count < 128
  {
  }

  lemma OneMoreTimes(a: int, n: nat)
    ensures a * (n + 1) == a * n + a
  {
  }

  lemma QuotientBounds(a: nat, b: nat, lo: nat, hi: nat)
    requires b > 0 && lo * b <= a <= hi * b
    ensures lo <= a / b <= hi
  {
    var q := a / b;
    assert a == b * q + a % b;
    assert (q + 1) * b == q * b + b && (hi + 1) * b == hi * b + b;
    if q < lo {
      WithinWider(lo, q + 1, b);
    } else if q > hi {
      WithinWider(q, hi + 1, b);
    }
  }

  /** The running average lies between the lowest and the highest sample. */
  lemma AverageIsBetween(p: Ap, lo: int, hi: int)
    requires Within(p, lo, hi)
    ensures lo <= Average(p) <= hi
  {
    assert (-hi) * p.count == -(hi * p.count) && (-lo) * p.count == -(lo * p.count);
    WithinWider(0, hi, p.count);
    QuotientBounds(-p.rssi, p.count, -hi, -lo);
  }

  // ----- the list -----

  /** Where an access point is on the list, or the list's length */
  function Find(list: seq<Ap>, key: Key): (k: nat)
    ensures k <= |list|
    ensures k < |list| ==> list[k].key == key
    ensures forall j :: 0 <= j < k ==> list[j].key != key
  {
    if list == [] || list[0].key == key then 0 else 1 + Find(list[1..], key)
  }

  /** At most one less than the limit is kept when a newcomer is to go on. */
  function Trimmed(list: seq<Ap>): (kept: seq<Ap>) {
    if |list| > MAX_APS - 1 then list[..MAX_APS - 1] else list
  }

  /** The list with a sample in it, before it is sorted */
  function Unsorted(list: seq<Ap>, ns: Ap): (list': seq<Ap>) {
    var k := Find(list, ns.key);
    if k < |list| then list[k := Merged(list[k], ns.rssi)] else [ns] + Trimmed(list)
  }

  /** There is something to sort: a known access point, or a newcomer with memory for it. */
  predicate GoesOn(list: seq<Ap>, ns: Ap, memory: bool) {
    Find(list, ns.key) < |list| || memory
  }

  /** The list after a sample.  Without memory for a newcomer, the list is left trimmed. */
  function Sampled(list: seq<Ap>, ns: Ap, memory: bool): (list': seq<Ap>) {
    if GoesOn(list, ns, memory) then Sort(Average, Unsorted(list, ns)) else Trimmed(list)
  }

  ghost predicate Unique(list: seq<Ap>) {
    forall i, j :: 0 <= i < j < |list| ==> list[i].key != list[j].key
  }

  function Keys(list: seq<Ap>): (keys: set<Key>) {
    set p | p in list :: p.key
  }

  lemma KeysCons(p: Ap, rest: seq<Ap>)
    ensures Keys([p] + rest) == {p.key} + Keys(rest)
  {
    assert forall q :: q in [p] + rest <==> q == p || q in rest;
  }

  lemma RestIsUnique(p: Ap, rest: seq<Ap>)
    requires Unique([p] + rest)
    ensures Unique(rest) && p.key !in Keys(rest)
  {
    var list := [p] + rest;
    forall i, j | 0 <= i < j < |rest| ensures rest[i].key != rest[j].key {
      assert list[i + 1].key != list[j + 1].key;
    }
    forall q | q in rest ensures q.key != p.key {
      var j :| 0 <= j < |rest| && rest[j] == q;
      assert list[0].key != list[j + 1].key;
    }
  }

  lemma UniqueCons(p: Ap, rest: seq<Ap>)
    ensures Unique([p] + rest) <==> Unique(rest) && p.key !in Keys(rest)
  {
    var list := [p] + rest;
    if Unique(list) {
      RestIsUnique(p, rest);
    } else if Unique(rest) && p.key !in Keys(rest) {
      forall i, j | 0 <= i < j < |list| ensures list[i].key != list[j].key {
        assert list[j] == rest[j - 1] && rest[j - 1] in rest;
        assert i > 0 ==> list[i] == rest[i - 1];
      }
    }
  }

  lemma {:induction false} UniqueIffAsManyKeys(list: seq<Ap>)
    ensures |Keys(list)| <= |list|
    ensures Unique(list) <==> |Keys(list)| == |list|
  {
    if list != [] {
      assert list == [list[0]] + list[1..];
      UniqueCons(list[0], list[1..]);
      KeysCons(list[0], list[1..]);
      UniqueIffAsManyKeys(list[1..]);
    }
  }

  /** A sort neither adds, loses nor repeats an entry. */
  lemma SortKeepsEntries(list: seq<Ap>)
    ensures forall p :: p in Sort(Average, list) <==> p in list
    ensures |Sort(Average, list)| == |list| && BestFirst(Average, Sort(Average, list))
    ensures Unique(list) ==> Unique(Sort(Average, list))
  {
    var sorted := Sort(Average, list);
    SortIsStable(Average, list);
    forall p ensures p in sorted <==> p in list {
      assert p in sorted <==> p in multiset(sorted);
      assert p in list <==> p in multiset(list);
    }
    assert Keys(sorted) == Keys(list);
    UniqueIffAsManyKeys(list);
    UniqueIffAsManyKeys(sorted);
  }

  /** What is trimmed off is no better than anything kept, and is at most one entry of a list within the
      limit. */
  lemma TrimDropsOnlyAWorst(list: seq<Ap>, i: nat, j: nat)
    requires BestFirst(Average, list) && |list| <= MAX_APS
    requires i < |Trimmed(list)| <= j < |list|
    ensures Trimmed(list)[i] == list[i] && Average(list[j]) <= Average(list[i])
    ensures j == MAX_APS - 1
  {
  }

  // ----- runs of samples -----

  /** wifi_ap_record_t, as far as it is used */
  datatype ApRecord = ApRecord(ssid: string, bssid: string, rssi: int, primary: nat, authmode: nat)

  /** Which access point a record is of: lws_strncpy() keeps all but the last of SSID_SIZE. */
  function KeyOf(r: ApRecord): (key: Key)
    ensures key.bssid == r.bssid && key.ssid <= r.ssid
    ensures |key.ssid| == if |r.ssid| <= 31 then |r.ssid| else 31
  {
    Key(if |r.ssid| < SSID_SIZE then r.ssid else r.ssid[..SSID_SIZE - 1], r.bssid)
  }

  /** The sample scan_finished() makes of a record */
  function ToSample(r: ApRecord): (ns: Ap) {
    Ap(KeyOf(r), r.rssi, 1, r.primary, r.authmode)
  }

  /** A record, and whether there is memory for it should it be of a newcomer */
  datatype Sample = Sample(record: ApRecord, memory: bool)

  function Taken(list: seq<Ap>, sample: Sample): (list': seq<Ap>) {
    Sampled(list, ToSample(sample.record), sample.memory)
  }

  /** The list after each of the samples in turn */
  function Run(list: seq<Ap>, samples: seq<Sample>): (list': seq<Ap>) {
    if samples == [] then list else Taken(Run(list, samples[..|samples| - 1]), samples[|samples| - 1])
  }

  lemma {:induction false} RunOneMore(list: seq<Ap>, samples: seq<Sample>, sample: Sample)
    ensures Run(list, samples + [sample]) == Taken(Run(list, samples), sample)
  {
    assert (samples + [sample])[..|samples|] == samples;
  }

  lemma {:induction false} RunUpTo(list: seq<Ap>, samples: seq<Sample>, m: nat)
    requires m < |samples|
    ensures Run(list, samples[..m + 1]) == Taken(Run(list, samples[..m]), samples[m])
  {
    OneMore(samples, 0, m);
    RunOneMore(list, samples[..m], samples[m]);
  }

  /** As many of the records of a scan as count */
  function Counted(samples: seq<Sample>): (counted: seq<Sample>)
    ensures counted <= samples && |counted| <= AP_RECORDS
    ensures |counted| < |samples| ==> |counted| == AP_RECORDS
  {
    if |samples| < AP_RECORDS then samples else samples[..AP_RECORDS]
  }

  /** One scan after another is one run. */
  lemma {:induction false} ScansFollowOn(list: seq<Ap>, before: seq<Sample>, scan: seq<Sample>)
    ensures Run(Run(list, before), scan) == Run(list, before + scan)
  {
    if scan == [] {
      assert before + scan == before;
    } else {
      var rest, last := scan[..|scan| - 1], scan[|scan| - 1];
      ScansFollowOn(list, before, rest);
      assert scan == rest + [last];
      Assoc(before, rest, [last]);
      RunOneMore(list, before + rest, last);
    }
  }

  ghost predicate Inv(list: seq<Ap>) {
    Unique(list) && |list| <= MAX_APS && BestFirst(Average, list)
  }

  lemma KnownSampleKeepsInv(list: seq<Ap>, ns: Ap, memory: bool)
    requires Inv(list) && Find(list, ns.key) < |list|
    ensures Inv(Sampled(list, ns, memory))
  {
    SortKeepsEntries(Unsorted(list, ns));
  }

  lemma NewSampleKeepsInv(list: seq<Ap>, ns: Ap, memory: bool)
    requires Inv(list) && Find(list, ns.key) == |list|
    ensures Inv(Sampled(list, ns, memory))
  {
    var kept := Trimmed(list);
    assert forall p :: p in kept ==> p in list;
    assert forall p :: p in list ==> p.key != ns.key;
    assert Unique(kept) && BestFirst(Average, kept);
    if memory {
      UniqueCons(ns, kept);
      SortKeepsEntries([ns] + kept);
    }
  }

  lemma SampleKeepsInv(list: seq<Ap>, ns: Ap, memory: bool)
    requires Inv(list)
    ensures Inv(Sampled(list, ns, memory))
  {
    if Find(list, ns.key) < |list| {
      KnownSampleKeepsInv(list, ns, memory);
    } else {
      NewSampleKeepsInv(list, ns, memory);
    }
  }

  lemma {:induction false} RunKeepsInv(list: seq<Ap>, samples: seq<Sample>)
    requires Inv(list)
    ensures Inv(Run(list, samples))
  {
    if samples != [] {
      var before, last := samples[..|samples| - 1], samples[|samples| - 1];
      RunKeepsInv(list, before);
      SampleKeepsInv(Run(list, before), ToSample(last.record), last.memory);
    }
  }

  // ----- the code -----

  ghost predicate NonPositive(list: seq<Ap>) {
    forall i :: 0 <= i < |list| ==> list[i].rssi <= 0
  }

  /** The sort that follows a sample, if one does, comes to an end. */
  ghost predicate SortEnds(list: seq<Ap>, ns: Ap, memory: bool) {
    var list' := Unsorted(list, ns);
    GoesOn(list, ns, memory) ==> forall i :: 0 <= i < |list'| ==> Average(list'[i]) <= 0
  }

  lemma NonPositiveAverage(p: Ap)
    requires p.rssi <= 0
    ensures Average(p) <= 0
  {
  }

  lemma SampledIsNonPositive(list: seq<Ap>, ns: Ap, memory: bool)
    requires NonPositive(list) && ns.rssi <= 0
    ensures NonPositive(Sampled(list, ns, memory)) && SortEnds(list, ns, memory)
  {
    assert NonPositive(Unsorted(list, ns));
    SortIsNonPositive(Unsorted(list, ns));
    forall i | 0 <= i < |Unsorted(list, ns)| ensures Average(Unsorted(list, ns)[i]) <= 0 {
      NonPositiveAverage(Unsorted(list, ns)[i]);
    }
  }

  lemma SortIsNonPositive(list: seq<Ap>)
    requires NonPositive(list)
    ensures NonPositive(Sort(Average, list))
  {
    SortKeepsEntries(list);
    var sorted := Sort(Average, list);
    forall i | 0 <= i < |sorted| ensures sorted[i].rssi <= 0 {
      assert sorted[i] in list;
    }
  }

  /** The i-th of the sorts of a run comes to an end. */
  ghost predicate EndsAt(list: seq<Ap>, samples: seq<Sample>, i: nat)
    requires i < |samples|
  {
    SortEnds(Run(list, samples[..i]), ToSample(samples[i].record), samples[i].memory)
  }

  ghost predicate SortsEnd(list: seq<Ap>, samples: seq<Sample>) {
    forall i :: 0 <= i < |samples| ==> EndsAt(list, samples, i)
  }

  ghost predicate NoSignalIsPositive(samples: seq<Sample>) {
    forall i :: 0 <= i < |samples| ==> samples[i].record.rssi <= 0
  }

  lemma {:induction false} RunIsNonPositive(list: seq<Ap>, samples: seq<Sample>)
    requires NonPositive(list) && NoSignalIsPositive(samples)
    ensures NonPositive(Run(list, samples))
  {
    if samples != [] {
      var before, last := samples[..|samples| - 1], samples[|samples| - 1];
      RunIsNonPositive(list, before);
      SampledIsNonPositive(Run(list, before), ToSample(last.record), last.memory);
    }
  }

  /** All of them do if no signal strength is positive. */
  lemma NonPositiveSortsEnd(list: seq<Ap>, samples: seq<Sample>)
    requires NonPositive(list) && NoSignalIsPositive(samples)
    ensures SortsEnd(list, samples)
  {
    forall i | 0 <= i < |samples| ensures EndsAt(list, samples, i) {
      RunIsNonPositive(list, samples[..i]);
      SampledIsNonPositive(Run(list, samples[..i]), ToSample(samples[i].record), samples[i].memory);
    }
  }

  class ApList {
    var known: seq<Ap>

    /** lws_wifi_scan_insert_trim(), where the sort at its end comes to an end */
    method InsertTrim(ns: Ap, memory: bool) returns (ret: int)
      requires SortEnds(known, ns, memory)
      modifies this
      ensures known == Sampled(old(known), ns, memory)
      ensures ret == if GoesOn(old(known), ns, memory) then 0 else -1
    {
      var k := Search(ns.key);
      if k < |known| {
        known := known[k := Merged(known[k], ns.rssi)];
      } else {
        Trim();
        if !memory {
          return -1;
        }
        known := [ns] + known;
      }
      assert known == Unsorted(old(known), ns);
      forall i | 0 <= i < |known| ensures Average(known[i]) <= 0 {
        assert known[i] == Unsorted(old(known), ns)[i];
      }
      known := SelectionSort.SelectionSort(Average, known);
      ret := 0;
    }

    method Search(key: Key) returns (k: nat)
      ensures k == Find(known, key)
    {
      k := 0;
      while k < |known|
        invariant 0 <= k <= |known|
        invariant Find(known, key) == k + Find(known[k..], key)
      {
        if known[k].key == key {
          return;
        }
        k := k + 1;
      }
    }

    /** The trimming loop: stay in place while taking entries out */
    method Trim()
      modifies this
      ensures known == Trimmed(old(known))
    {
      var count, i := 0, 0;
      while i < |known|
        invariant 0 <= i <= |known| && i <= MAX_APS - 1
        invariant i == if count < MAX_APS - 1 then count else MAX_APS - 1
        invariant |known| == |old(known)| - (count - i) && count >= i
        invariant known[..i] == old(known)[..i]
        invariant count < MAX_APS ==> known == old(known)
        decreases |known| - i
      {
        if count >= MAX_APS - 1 {
          known := known[..i] + known[i + 1..];
        } else {
          i := i + 1;
        }
        count := count + 1;
      }
      assert known == known[..i];
    }

    /** One turn of the accumulation loop */
    method TakeIn(ghost before: seq<Ap>, samples: seq<Sample>, m: nat)
      requires m < |samples| && EndsAt(before, samples, m)
      requires known == Run(before, samples[..m])
      modifies this
      ensures known == Run(before, samples[..m + 1])
    {
      RunUpTo(before, samples, m);
      var _ := InsertTrim(ToSample(samples[m].record), samples[m].memory);
    }

    /** The accumulation loop of scan_finished() */
    method Accumulate(apRecords: seq<Sample>)
      requires SortsEnd(known, apRecords)
      modifies this
      ensures known == Run(old(known), apRecords)
    {
      for m := 0 to |apRecords|
        invariant known == Run(old(known), apRecords[..m])
      {
        TakeIn(old(known), apRecords, m);
      }
      assert apRecords[..|apRecords|] == apRecords;
    }

    /** scan_finished(): at most AP_RECORDS records are copied, and so count. */
    method ScanFinished(samples: seq<Sample>)
      requires SortsEnd(known, Counted(samples))
      modifies this
      ensures known == Run(old(known), Counted(samples))
    {
      var countApRecords := if |samples| < AP_RECORDS then |samples| else AP_RECORDS;
      var apRecords := samples[..countApRecords];
      assert apRecords == Counted(samples);
      Accumulate(apRecords);
    }
  }
}
