/** What the list of known access points amounts to: each entry is worked out from the records that have
    been taken in of its access point since it came onto the list. */
module WifiReference {
  import opened SelectionSort
  import opened WifiScan

  // ----- the sum of many samples -----

  function Sum(signals: seq<int>): (n: int) {
    if signals == [] then 0 else Sum(signals[..|signals| - 1]) + signals[|signals| - 1]
  }

  /** How many of `n` samples count in full: all up to the first halving, which comes with the 129th; after
      that, those since the last halving, which comes with every 64th. */
  function InFull(n: nat): (k: nat)
    ensures k <= n && (n > 128 ==> 1 <= k <= 64)
  {
    if n <= 128 then n else 1 + (n - 129) % 64
  }

  /** The number of samples an entry stands for */
  function Weight(n: nat): (k: nat) {
    if n <= 128 then n else 64 + InFull(n)
  }

  /** The sum an entry holds: what came before a halving counts for half. */
  function Total(signals: seq<int>): (n: int)
    decreases |signals|
  {
    if |signals| <= 128 then Sum(signals)
    else
      var halved := |signals| - InFull(|signals|);
      TruncDiv(Total(signals[..halved]), 2) + Sum(signals[halved..])
  }

  /** Division towards zero: what is left over has the sign of `a`, and is less than `b`. */
  lemma {:induction false} TruncDivIsTowardsZero(a: int, b: nat)
    requires b > 0
    ensures var rest := a - TruncDiv(a, b) * b;
            if a >= 0 then 0 <= rest < b else 0 <= -rest < b
  {
    var m := if a >= 0 then a else -a;
    assert m == (m / b) * b + m % b;
    assert (-(m / b)) * b == -((m / b) * b);
  }

  lemma {:induction false} SumOneMore(signals: seq<int>, x: int)
    ensures Sum(signals + [x]) == Sum(signals) + x
  {
    assert (signals + [x])[..|signals|] == signals;
  }

  lemma {:induction false} InFullOneMore(n: nat)
    ensures n < 128 ==> InFull(n + 1) == n + 1
    ensures n >= 128 ==> InFull(n + 1) == if Weight(n) > 127 then 1 else InFull(n) + 1
  {
  }

  lemma {:induction false} WeightOneMore(n: nat)
    ensures Weight(n + 1) == (if Weight(n) > 127 then Weight(n) / 2 else Weight(n)) + 1
  {
  }

  lemma {:induction false} TotalFrom(signals: seq<int>, halved: nat)
    requires |signals| > 128 && halved == |signals| - InFull(|signals|)
    ensures Total(signals) == TruncDiv(Total(signals[..halved]), 2) + Sum(signals[halved..])
  {
  }

  lemma {:induction false} TotalAfterHalving(signals: seq<int>, x: int)
    requires |signals| >= 128 && InFull(|signals| + 1) == 1
    ensures Total(signals + [x]) == TruncDiv(Total(signals), 2) + x
  {
    var n, more := |signals|, signals + [x];
    TotalFrom(more, n);
    assert more[..n] == signals && more[n..] == [] + [x];
    SumOneMore([], x);
  }

  lemma {:induction false} TotalSinceHalving(signals: seq<int>, x: int)
    requires |signals| > 128 && InFull(|signals| + 1) == InFull(|signals|) + 1
    ensures Total(signals + [x]) == Total(signals) + x
  {
    var more, halved := signals + [x], |signals| - InFull(|signals|);
    TotalFrom(more, halved);
    TotalFrom(signals, halved);
    assert more[..halved] == signals[..halved];
    assert more[halved..] == signals[halved..] + [x];
    SumOneMore(signals[halved..], x);
  }

  /** One more sample, with the halving that goes before it when the weight would pass 128 */
  lemma {:induction false} TotalOneMore(signals: seq<int>, x: int)
    ensures Total(signals + [x])
         == (if Weight(|signals|) > 127 then TruncDiv(Total(signals), 2) else Total(signals)) + x
  {
    InFullOneMore(|signals|);
    if |signals| < 128 {
      SumOneMore(signals, x);
    } else if Weight(|signals|) > 127 {
      TotalAfterHalving(signals, x);
    } else {
      TotalSinceHalving(signals, x);
    }
  }

  // ----- what has been seen -----

  /** An access point: the record that put it on the list, and those of it since */
  datatype Seen = Seen(first: ApRecord, later: seq<ApRecord>)

  function History(s: Seen): (records: seq<ApRecord>) {
    [s.first] + s.later
  }

  function Signals(records: seq<ApRecord>): (signals: seq<int>)
    ensures |signals| == |records|
    ensures forall i :: 0 <= i < |records| ==> signals[i] == records[i].rssi
  {
    seq(|records|, i requires 0 <= i < |records| => records[i].rssi)
  }

  function Strength(s: Seen): (db: int) {
    TruncDiv(Total(Signals(History(s))), Weight(1 + |s.later|))
  }

  function Place(seen: seq<Seen>, key: Key): (k: nat)
    ensures k <= |seen|
    ensures k < |seen| ==> KeyOf(seen[k].first) == key
    ensures forall j :: 0 <= j < k ==> KeyOf(seen[j].first) != key
  {
    if seen == [] || KeyOf(seen[0].first) == key then 0 else 1 + Place(seen[1..], key)
  }

  /** A record of a known access point joins its history.  Any other makes room if there is none, by taking
      the last one off, and then starts a history if there is memory for it.  The strongest come first. */
  function See(seen: seq<Seen>, sample: Sample): (seen': seq<Seen>) {
    var r := sample.record;
    var k := Place(seen, KeyOf(r));
    var room := if |seen| < MAX_APS then seen else seen[..MAX_APS - 1];
    if k < |seen| then Sort(Strength, seen[k := seen[k].(later := seen[k].later + [r])])
    else if sample.memory then Sort(Strength, [Seen(r, [])] + room)
    else room
  }

  function SeenIn(samples: seq<Sample>): (seen: seq<Seen>) {
    if samples == [] then [] else See(SeenIn(samples[..|samples| - 1]), samples[|samples| - 1])
  }

  // ----- the list is what has been seen -----

  /** The entry for an access point */
  function Summary(s: Seen): (p: Ap) {
    Ap(KeyOf(s.first), Total(Signals(History(s))), Weight(1 + |s.later|), s.first.primary, s.first.authmode)
  }

  function Summaries(seen: seq<Seen>): (list: seq<Ap>)
    ensures |list| == |seen|
    ensures forall i :: 0 <= i < |seen| ==> list[i] == Summary(seen[i])
  {
    seq(|seen|, i requires 0 <= i < |seen| => Summary(seen[i]))
  }

  lemma {:induction false} FirstSummary(r: ApRecord)
    ensures Summary(Seen(r, [])) == ToSample(r)
  {
    assert Signals(History(Seen(r, []))) == [r.rssi];
    assert Sum([r.rssi]) == r.rssi by {
      SumOneMore([], r.rssi);
      assert [] + [r.rssi] == [r.rssi];
    }
  }

  lemma {:induction false} SignalsOneMore(s: Seen, r: ApRecord)
    ensures Signals(History(s.(later := s.later + [r]))) == Signals(History(s)) + [r.rssi]
  {
  }

  lemma {:induction false} NextSummary(s: Seen, r: ApRecord)
    ensures Summary(s.(later := s.later + [r])) == Merged(Summary(s), r.rssi)
  {
    SignalsOneMore(s, r);
    TotalOneMore(Signals(History(s)), r.rssi);
    WeightOneMore(1 + |s.later|);
  }

  lemma {:induction false} PlaceIsFind(seen: seq<Seen>, key: Key)
    ensures Find(Summaries(seen), key) == Place(seen, key)
  {
    if seen != [] {
      PlaceIsFind(seen[1..], key);
      assert Summaries(seen)[1..] == Summaries(seen[1..]);
    }
  }

  lemma {:induction false} StrengthIsAverage(s: Seen)
    ensures Average(Summary(s)) == Strength(s)
  {
  }

  lemma {:induction false} SummariesCons(s: Seen, rest: seq<Seen>)
    ensures Summaries([s] + rest) == [Summary(s)] + Summaries(rest)
  {
  }

  lemma {:induction false} InsertSummaries(s: Seen, sorted: seq<Seen>)
    ensures InsertInto(Average, Summary(s), Summaries(sorted)) == Summaries(InsertInto(Strength, s, sorted))
  {
    SummariesCons(s, sorted);
    if sorted != [] {
      var rest := sorted[1..];
      StrengthIsAverage(s);
      StrengthIsAverage(sorted[0]);
      InsertSummaries(s, rest);
      SummariesCons(sorted[0], InsertInto(Strength, s, rest));
      assert Summaries(sorted)[1..] == Summaries(rest);
    }
  }

  lemma {:induction false} SortSummaries(seen: seq<Seen>)
    ensures Sort(Average, Summaries(seen)) == Summaries(Sort(Strength, seen))
  {
    if seen != [] {
      SortSummaries(seen[1..]);
      assert Summaries(seen)[1..] == Summaries(seen[1..]);
      InsertSummaries(seen[0], Sort(Strength, seen[1..]));
    }
  }

  lemma {:induction false} KnownIsSeen(seen: seq<Seen>, sample: Sample, k: nat)
    requires k == Place(seen, KeyOf(sample.record)) < |seen|
    ensures Taken(Summaries(seen), sample) == Summaries(See(seen, sample))
  {
    var r := sample.record;
    PlaceIsFind(seen, KeyOf(r));
    var next := seen[k := seen[k].(later := seen[k].later + [r])];
    NextSummary(seen[k], r);
    assert Unsorted(Summaries(seen), ToSample(r)) == Summaries(next);
    SortSummaries(next);
  }

  lemma {:induction false} TrimmedSummaries(seen: seq<Seen>)
    ensures Trimmed(Summaries(seen)) == Summaries(if |seen| < MAX_APS then seen else seen[..MAX_APS - 1])
  {
  }

  lemma {:induction false} NewIsSeen(seen: seq<Seen>, sample: Sample)
    requires Place(seen, KeyOf(sample.record)) == |seen|
    ensures Taken(Summaries(seen), sample) == Summaries(See(seen, sample))
  {
    var r := sample.record;
    PlaceIsFind(seen, KeyOf(r));
    var room := if |seen| < MAX_APS then seen else seen[..MAX_APS - 1];
    TrimmedSummaries(seen);
    if sample.memory {
      FirstSummary(r);
      SummariesCons(Seen(r, []), room);
      SortSummaries([Seen(r, [])] + room);
    }
  }

  /** Over every run of samples, the list is entry for entry what the records taken in amount to: the halved
      running sum and count are those of the entry's own history, and its channel and authentication mode are
      those of its first record. */
  lemma {:induction false} TheListIsWhatWasSeen(samples: seq<Sample>)
    ensures Run([], samples) == Summaries(SeenIn(samples))
  {
    if samples != [] {
      var before, last := samples[..|samples| - 1], samples[|samples| - 1];
      TheListIsWhatWasSeen(before);
      var k := Place(SeenIn(before), KeyOf(last.record));
      if k < |SeenIn(before)| {
        KnownIsSeen(SeenIn(before), last, k);
      } else {
        NewIsSeen(SeenIn(before), last);
      }
    }
  }

  // ----- histories, from the samples alone -----

  /** Every record of an access point, in order */
  function RecordsOf(samples: seq<Sample>, key: Key): (records: seq<ApRecord>) {
    if samples == [] then []
    else
      var last := |samples| - 1;
      RecordsOf(samples[..last], key)
      + if KeyOf(samples[last].record) == key then [samples[last].record] else []
  }

  /** The history is the latest of the access point's records. */
  ghost predicate Latest(s: Seen, samples: seq<Sample>) {
    var all := RecordsOf(samples, KeyOf(s.first));
    |History(s)| <= |all| && History(s) == all[|all| - |History(s)|..]
  }

  lemma {:induction false} SortKeepsMembers(seen: seq<Seen>)
    ensures forall s :: s in Sort(Strength, seen) <==> s in seen
  {
    SortIsStable(Strength, seen);
    forall s ensures s in Sort(Strength, seen) <==> s in seen {
      assert s in Sort(Strength, seen) <==> s in multiset(Sort(Strength, seen));
      assert s in seen <==> s in multiset(seen);
    }
  }

  /** The histories after a sample: the others' are as they were, and the record's own access point, if listed,
      has the record at the end of what it had, or alone. */
  lemma {:induction false} SeeComesFrom(seen: seq<Seen>, sample: Sample, s: Seen)
    requires Unique(Summaries(seen)) && s in See(seen, sample)
    ensures var key := KeyOf(sample.record);
            var k := Place(seen, key);
            if KeyOf(s.first) != key then s in seen
            else if k < |seen| then s == seen[k].(later := seen[k].later + [sample.record])
            else s == Seen(sample.record, [])
  {
    var list := Summaries(seen);
    var k := Place(seen, KeyOf(sample.record));
    if k < |seen| {
      var next := seen[k := seen[k].(later := seen[k].later + [sample.record])];
      SortKeepsMembers(next);
      var j :| 0 <= j < |next| && next[j] == s;
      assert j != k ==> list[j].key != list[k].key;
    } else if sample.memory {
      SortKeepsMembers([Seen(sample.record, [])] + if |seen| < MAX_APS then seen else seen[..MAX_APS - 1]);
    }
  }

  lemma {:induction false} RecordsOneMore(samples: seq<Sample>, sample: Sample, key: Key)
    ensures RecordsOf(samples + [sample], key)
         == RecordsOf(samples, key) + if KeyOf(sample.record) == key then [sample.record] else []
  {
    assert (samples + [sample])[..|samples|] == samples;
  }

  lemma {:induction false} LatestElsewhere(s: Seen, samples: seq<Sample>, sample: Sample)
    requires Latest(s, samples) && KeyOf(s.first) != KeyOf(sample.record)
    ensures Latest(s, samples + [sample])
  {
    RecordsOneMore(samples, sample, KeyOf(s.first));
  }

  lemma {:induction false} LatestOneMore(s: Seen, samples: seq<Sample>, sample: Sample)
    requires Latest(s, samples) && KeyOf(s.first) == KeyOf(sample.record)
    ensures Latest(s.(later := s.later + [sample.record]), samples + [sample])
  {
    RecordsOneMore(samples, sample, KeyOf(s.first));
    var all, r := RecordsOf(samples, KeyOf(s.first)), sample.record;
    var from := |all| - |History(s)|;
    assert (all + [r])[from..] == all[from..] + [r];
    assert History(s.(later := s.later + [r])) == History(s) + [r];
  }

  lemma {:induction false} LatestAlone(samples: seq<Sample>, sample: Sample)
    ensures Latest(Seen(sample.record, []), samples + [sample])
  {
    RecordsOneMore(samples, sample, KeyOf(sample.record));
    var all, r := RecordsOf(samples, KeyOf(sample.record)), sample.record;
    assert (all + [r])[|all|..] == [r];
    assert History(Seen(r, [])) == [r];
  }

  lemma {:induction false} SeenIsUnique(samples: seq<Sample>)
    ensures Unique(Summaries(SeenIn(samples))) && |SeenIn(samples)| <= MAX_APS
  {
    RunKeepsInv([], samples);
    TheListIsWhatWasSeen(samples);
  }

  lemma {:induction false} StepIsLatest(seen: seq<Seen>, samples: seq<Sample>, sample: Sample, s: Seen)
    requires Unique(Summaries(seen)) && forall t :: t in seen ==> Latest(t, samples)
    ensures s in See(seen, sample) ==> Latest(s, samples + [sample])
  {
    if s in See(seen, sample) {
      SeeComesFrom(seen, sample, s);
      var k := Place(seen, KeyOf(sample.record));
      if KeyOf(s.first) != KeyOf(sample.record) {
        LatestElsewhere(s, samples, sample);
      } else if k < |seen| {
        assert seen[k] in seen;
        LatestOneMore(seen[k], samples, sample);
      } else {
        LatestAlone(samples, sample);
      }
    }
  }

  /** Over every run, an entry's history is the latest records of its access point: none since the first of them is
      left out. */
  lemma {:induction false} HistoriesAreTheLatest(samples: seq<Sample>)
    ensures forall s :: s in SeenIn(samples) ==> Latest(s, samples)
  {
    if samples != [] {
      var before, last := samples[..|samples| - 1], samples[|samples| - 1];
      assert samples == before + [last];
      HistoriesAreTheLatest(before);
      SeenIsUnique(before);
      forall s | s in SeenIn(samples) ensures Latest(s, samples) {
        StepIsLatest(SeenIn(before), before, last, s);
      }
    }
  }

  // ----- the averages -----

  function Least(signals: seq<int>): (m: int)
    requires signals != []
  {
    if |signals| == 1 then signals[0]
    else var m := Least(signals[..|signals| - 1]); var s := signals[|signals| - 1]; if s < m then s else m
  }

  function Greatest(signals: seq<int>): (m: int)
    requires signals != []
  {
    if |signals| == 1 then signals[0]
    else var m := Greatest(signals[..|signals| - 1]); var s := signals[|signals| - 1]; if s > m then s else m
  }

  ghost predicate NonePositive(records: seq<ApRecord>) {
    forall i :: 0 <= i < |records| ==> records[i].rssi <= 0
  }

  /** However often it has been halved, the sum is within the bounds of the samples. */
  lemma {:induction false} SummaryStaysWithin(s: Seen)
    requires NonePositive(History(s))
    ensures Within(Summary(s), Least(Signals(History(s))), Greatest(Signals(History(s))))
    decreases |s.later|
  {
    if s.later == [] {
      assert s == Seen(s.first, []);
      FirstSummary(s.first);
    } else {
      var last := |s.later| - 1;
      var before, r := s.(later := s.later[..last]), s.later[last];
      assert History(s) == History(before) + [r];
      assert r.rssi <= 0 by {
        assert History(s)[last + 1] == r;
      }
      assert NonePositive(History(before)) by {
        assert forall i :: 0 <= i < |History(before)| ==> History(before)[i] == History(s)[i];
      }
      SummaryStaysWithin(before);
      assert s == before.(later := before.later + [r]);
      NextSummary(before, r);
      var signals := Signals(History(before));
      assert Signals(History(s)) == signals + [r.rssi];
      BoundsOneMore(signals, r.rssi);
      MergedStaysWithin(Summary(before), Least(signals), Greatest(signals), r.rssi,
                        Least(signals + [r.rssi]), Greatest(signals + [r.rssi]));
    }
  }

  lemma {:induction false} BoundsOneMore(signals: seq<int>, x: int)
    requires signals != []
    ensures Least(signals + [x]) == if x < Least(signals) then x else Least(signals)
    ensures Greatest(signals + [x]) == if x > Greatest(signals) then x else Greatest(signals)
  {
    assert (signals + [x])[..|signals|] == signals;
  }

  lemma {:induction false} RecordsAreNotPositive(samples: seq<Sample>, key: Key)
    requires NoSignalIsPositive(samples)
    ensures NonePositive(RecordsOf(samples, key))
  {
    if samples != [] {
      RecordsAreNotPositive(samples[..|samples| - 1], key);
    }
  }

  /** The entry is that of the history's access point, with the first record's channel and authentication mode.
      Its sum and count are those of the whole history until that is longer than 128; its average always lies
      between the history's lowest and highest. */
  predicate Fits(p: Ap, s: Seen) {
    var signals := Signals(History(s));
    && p.key == KeyOf(s.first) && p.channel == s.first.primary && p.authmode == s.first.authmode
    && 1 <= p.count <= 128
    && Least(signals) <= Average(p) <= Greatest(signals)
    && (|signals| <= 128 ==> p.count == |signals| && p.rssi == Sum(signals))
  }

  lemma {:induction false} SummaryFits(s: Seen)
    requires NonePositive(History(s))
    ensures Fits(Summary(s), s)
  {
    var signals := Signals(History(s));
    SummaryStaysWithin(s);
    AverageIsBetween(Summary(s), Least(signals), Greatest(signals));
  }

  /** Over every run of scans with non-positive signal strengths: no access point is listed twice, the limit is
      kept, the best come first, and every entry fits the latest records of its access point. */
  lemma {:induction false} KnownApsStayInOrder(samples: seq<Sample>)
    requires NoSignalIsPositive(samples)
    ensures var list, seen := Run([], samples), SeenIn(samples);
            && |list| == |seen| <= MAX_APS
            && (forall i, j :: 0 <= i < j < |list| ==>
                  list[i].key != list[j].key && Average(list[i]) >= Average(list[j]))
            && (forall i :: 0 <= i < |list| ==> Fits(list[i], seen[i]) && Latest(seen[i], samples))
  {
    RunKeepsInv([], samples);
    TheListIsWhatWasSeen(samples);
    HistoriesAreTheLatest(samples);
    var seen := SeenIn(samples);
    forall i | 0 <= i < |seen| ensures Fits(Summary(seen[i]), seen[i]) && Latest(seen[i], samples) {
      assert seen[i] in seen;
      RecordsAreNotPositive(samples, KeyOf(seen[i].first));
      SummaryFits(seen[i]);
    }
  }

  // ----- nothing is forgotten while there is room -----

  function KeysIn(samples: seq<Sample>): (keys: set<Key>) {
    if samples == [] then {} else KeysIn(samples[..|samples| - 1]) + {KeyOf(samples[|samples| - 1].record)}
  }

  /** A record of a known access point is added to its history, and a newcomer with memory is listed, whoever has
      to make room for it. */
  lemma {:induction false} SeeTakesIn(seen: seq<Seen>, sample: Sample)
    ensures var k := Place(seen, KeyOf(sample.record));
            if k < |seen| then seen[k].(later := seen[k].later + [sample.record]) in See(seen, sample)
            else sample.memory ==> Seen(sample.record, []) in See(seen, sample)
  {
    var r := sample.record;
    var k := Place(seen, KeyOf(r));
    if k < |seen| {
      var next := seen[k := seen[k].(later := seen[k].later + [r])];
      SortKeepsMembers(next);
      assert next[k] in next;
    } else if sample.memory {
      SortKeepsMembers([Seen(r, [])] + if |seen| < MAX_APS then seen else seen[..MAX_APS - 1]);
    }
  }

  /** Nobody else goes, unless room has to be made. */
  lemma {:induction false} SeeKeeps(seen: seq<Seen>, sample: Sample, t: Seen)
    requires t in seen && KeyOf(t.first) != KeyOf(sample.record)
    requires Place(seen, KeyOf(sample.record)) < |seen| || |seen| < MAX_APS
    ensures t in See(seen, sample)
  {
    var r := sample.record;
    var k := Place(seen, KeyOf(r));
    var j :| 0 <= j < |seen| && seen[j] == t;
    if k < |seen| {
      var next := seen[k := seen[k].(later := seen[k].later + [r])];
      SortKeepsMembers(next);
      assert next[j] == t;
    } else if sample.memory {
      SortKeepsMembers([Seen(r, [])] + seen);
    }
  }

  /** The newcomer's entry is its record's own. */
  lemma {:induction false} NewcomerIsListed(samples: seq<Sample>, sample: Sample)
    requires sample.memory && forall p :: p in Run([], samples) ==> p.key != KeyOf(sample.record)
    ensures var r := sample.record;
            Ap(KeyOf(r), r.rssi, 1, r.primary, r.authmode) in Run([], samples + [sample])
  {
    var seen, r := SeenIn(samples), sample.record;
    TheListIsWhatWasSeen(samples);
    TheListIsWhatWasSeen(samples + [sample]);
    assert (samples + [sample])[..|samples|] == samples;
    forall i | 0 <= i < |seen| ensures KeyOf(seen[i].first) != KeyOf(r) {
      assert Run([], samples)[i] in Run([], samples);
    }
    SeeTakesIn(seen, sample);
    FirstSummary(r);
    var i :| 0 <= i < |See(seen, sample)| && See(seen, sample)[i] == Seen(r, []);
    assert Run([], samples + [sample])[i] == Summary(Seen(r, []));
  }

  /** The access point is listed with all its records. */
  ghost predicate Complete(seen: seq<Seen>, samples: seq<Sample>, key: Key) {
    exists s :: s in seen && KeyOf(s.first) == key && History(s) == RecordsOf(samples, key)
  }

  lemma {:induction false} CompleteElsewhere(seen: seq<Seen>, samples: seq<Sample>, sample: Sample, key: Key)
    requires Complete(seen, samples, key) && key != KeyOf(sample.record)
    requires Place(seen, KeyOf(sample.record)) < |seen| || |seen| < MAX_APS
    ensures Complete(See(seen, sample), samples + [sample], key)
  {
    var t :| t in seen && KeyOf(t.first) == key && History(t) == RecordsOf(samples, key);
    SeeKeeps(seen, sample, t);
    RecordsOneMore(samples, sample, key);
    assert RecordsOf(samples, key) + [] == RecordsOf(samples, key);
  }

  lemma {:induction false} PlaceOf(seen: seq<Seen>, t: Seen)
    requires Unique(Summaries(seen)) && t in seen
    ensures Place(seen, KeyOf(t.first)) < |seen| && seen[Place(seen, KeyOf(t.first))] == t
  {
    var j :| 0 <= j < |seen| && seen[j] == t;
    var list := Summaries(seen);
    assert list[j].key == list[Place(seen, KeyOf(t.first))].key;
  }

  lemma {:induction false} CompleteOneMore(seen: seq<Seen>, samples: seq<Sample>, sample: Sample)
    requires Unique(Summaries(seen)) && Complete(seen, samples, KeyOf(sample.record))
    ensures Complete(See(seen, sample), samples + [sample], KeyOf(sample.record))
  {
    var key, r := KeyOf(sample.record), sample.record;
    var t :| t in seen && KeyOf(t.first) == key && History(t) == RecordsOf(samples, key);
    PlaceOf(seen, t);
    SeeTakesIn(seen, sample);
    RecordsOneMore(samples, sample, key);
    var t' := t.(later := t.later + [r]);
    assert t' in See(seen, sample) && KeyOf(t'.first) == key;
    assert History(t') == History(t) + [r];
  }

  lemma {:induction false} CompleteAlone(seen: seq<Seen>, samples: seq<Sample>, sample: Sample)
    requires Place(seen, KeyOf(sample.record)) == |seen| && sample.memory
    requires RecordsOf(samples, KeyOf(sample.record)) == []
    ensures Complete(See(seen, sample), samples + [sample], KeyOf(sample.record))
  {
    SeeTakesIn(seen, sample);
    RecordsOneMore(samples, sample, KeyOf(sample.record));
    assert History(Seen(sample.record, [])) == [sample.record];
  }

  lemma {:induction false} RecordsOfNobody(samples: seq<Sample>, key: Key)
    ensures RecordsOf(samples, key) == [] <==> key !in KeysIn(samples)
  {
    if samples != [] {
      RecordsOfNobody(samples[..|samples| - 1], key);
    }
  }

  /** As long as fewer access points than the limit have been heard of, there is room for another. */
  lemma {:induction false} FewerThanKeys(samples: seq<Sample>)
    ensures |SeenIn(samples)| <= |KeysIn(samples)|
  {
    var seen := SeenIn(samples);
    var list := Summaries(seen);
    SeenIsUnique(samples);
    HistoriesAreTheLatest(samples);
    UniqueIffAsManyKeys(list);
    forall p | p in list ensures p.key in KeysIn(samples) {
      var i :| 0 <= i < |list| && list[i] == p;
      assert seen[i] in seen;
      RecordsOfNobody(samples, p.key);
    }
    assert Keys(list) <= KeysIn(samples);
    SubsetIsNoLarger(Keys(list), KeysIn(samples));
  }

  lemma {:induction false} SubsetIsNoLarger(a: set<Key>, b: set<Key>)
    requires a <= b
    ensures |a| <= |b|
  {
    assert b == a + (b - a);
  }

  lemma {:induction false} ListedIffHeardOf(samples: seq<Sample>, key: Key)
    requires forall k :: k in KeysIn(samples) ==> Complete(SeenIn(samples), samples, k)
    ensures key in KeysIn(samples) <==> Place(SeenIn(samples), key) < |SeenIn(samples)|
  {
    var seen := SeenIn(samples);
    if key in KeysIn(samples) {
      var t :| t in seen && KeyOf(t.first) == key && History(t) == RecordsOf(samples, key);
    } else {
      HistoriesAreTheLatest(samples);
      RecordsOfNobody(samples, key);
      forall i | 0 <= i < |seen| ensures KeyOf(seen[i].first) != key {
        assert seen[i] in seen;
      }
    }
  }

  lemma {:induction false} StepForgetsNothing(samples: seq<Sample>, sample: Sample, key: Key)
    requires sample.memory && (key in KeysIn(samples) || key == KeyOf(sample.record))
    ensures (forall k :: k in KeysIn(samples) ==> Complete(SeenIn(samples), samples, k)) &&
            (KeyOf(sample.record) in KeysIn(samples) || |SeenIn(samples)| < MAX_APS)
            ==> Complete(See(SeenIn(samples), sample), samples + [sample], key)
  {
    var seen, now := SeenIn(samples), KeyOf(sample.record);
    if (forall k :: k in KeysIn(samples) ==> Complete(seen, samples, k)) &&
       (now in KeysIn(samples) || |seen| < MAX_APS) {
      ListedIffHeardOf(samples, now);
      if key != now {
        CompleteElsewhere(seen, samples, sample, key);
      } else if key in KeysIn(samples) {
        SeenIsUnique(samples);
        CompleteOneMore(seen, samples, sample);
      } else {
        RecordsOfNobody(samples, now);
        CompleteAlone(seen, samples, sample);
      }
    }
  }

  lemma {:induction false} OneMoreKey(samples: seq<Sample>, sample: Sample)
    ensures KeysIn(samples + [sample]) == KeysIn(samples) + {KeyOf(sample.record)}
    ensures SeenIn(samples + [sample]) == See(SeenIn(samples), sample)
  {
    assert (samples + [sample])[..|samples|] == samples;
  }

  /** With memory for every newcomer, and no more access points than the limit, every one heard of is listed, and
      with every record of it there has been. */
  lemma {:induction false} NothingIsForgotten(samples: seq<Sample>)
    requires |KeysIn(samples)| <= MAX_APS && forall i :: 0 <= i < |samples| ==> samples[i].memory
    ensures forall key :: key in KeysIn(samples) ==> Complete(SeenIn(samples), samples, key)
  {
    if samples != [] {
      var before, last := samples[..|samples| - 1], samples[|samples| - 1];
      assert samples == before + [last];
      OneMoreKey(before, last);
      SubsetIsNoLarger(KeysIn(before), KeysIn(samples));
      NothingIsForgotten(before);
      FewerThanKeys(before);
      forall key | key in KeysIn(samples) ensures Complete(SeenIn(samples), samples, key) {
        StepForgetsNothing(before, last, key);
      }
    }
  }
}
