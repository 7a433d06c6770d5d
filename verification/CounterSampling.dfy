/** The canonical form of a request: std::sort over std::string. */
module RequestOrder {

  /** Lexicographic order on counter names. */
  predicate Leq(a: string, b: string) {
    a == [] || (b != [] && (a[0] < b[0] || (a[0] == b[0] && Leq(a[1..], b[1..]))))
  }

  /** The order in full: a is a prefix of b, or smaller at the first place where they differ. */
  lemma {:induction false} LeqIsLexicographic(a: string, b: string)
    ensures Leq(a, b) <==> a <= b || exists i :: 0 <= i < |a| && i < |b| && a[..i] == b[..i] && a[i] < b[i]
  {
    if a != [] && b != [] {
      LeqIsLexicographic(a[1..], b[1..]);
      if a[0] < b[0] {
        assert a[..0] == b[..0];
      } else if a[0] == b[0] {
        assert a == [a[0]] + a[1..] && b == [b[0]] + b[1..];
        assert a <= b <==> a[1..] <= b[1..];
        forall i | 0 < i < |a| && i < |b| && a[i] < b[i]
          ensures a[..i] == b[..i] <==> a[1..][..i - 1] == b[1..][..i - 1]
        {
          assert a[..i] == [a[0]] + a[1..][..i - 1] && b[..i] == [b[0]] + b[1..][..i - 1];
          assert a[..i][1..] == a[1..][..i - 1] && b[..i][1..] == b[1..][..i - 1];
        }
        if i :| 0 <= i < |a| && i < |b| && a[..i] == b[..i] && a[i] < b[i] {
          assert a[1..][i - 1] < b[1..][i - 1] && a[1..][..i - 1] == b[1..][..i - 1];
        }
        if i :| 0 <= i < |a[1..]| && i < |b[1..]| && a[1..][..i] == b[1..][..i] && a[1..][i] < b[1..][i] {
          assert a[i + 1] < b[i + 1] && a[..i + 1] == b[..i + 1];
        }
      } else {
        assert forall i :: 0 < i < |a| && i < |b| && a[..i] == b[..i] ==> a[..i][0] == b[..i][0];
      }
    }
  }

  lemma {:induction false} LeqTotal(a: string, b: string)
    ensures Leq(a, b) || Leq(b, a)
    ensures Leq(a, b) && Leq(b, a) ==> a == b
  {
    if a != [] && b != [] {
      LeqTotal(a[1..], b[1..]);
      assert a == [a[0]] + a[1..] && b == [b[0]] + b[1..];
    }
  }

  lemma {:induction false} LeqTransitive(a: string, b: string, c: string)
    requires Leq(a, b) && Leq(b, c)
    ensures Leq(a, c)
  {
    if a != [] && a[0] == b[0] == c[0] {
      LeqTransitive(a[1..], b[1..], c[1..]);
    }
  }

  predicate Sorted(names: seq<string>) {
    forall i, j :: 0 <= i < j < |names| ==> Leq(names[i], names[j])
  }

  function Insert(name: string, names: seq<string>): (r: seq<string>)
    ensures multiset(r) == multiset(names) + multiset{name}
  {
    if names == [] then [name]
    else if Leq(name, names[0]) then [name] + names
    else
      assert names == [names[0]] + names[1..];
      [names[0]] + Insert(name, names[1..])
  }

  /** A sorted permutation of the names; SortedIsUnique shows it is the only one, so it is
      the result of any correct sort. */
  function Sort(names: seq<string>): (r: seq<string>)
    ensures multiset(r) == multiset(names)
  {
    if names == [] then []
    else
      assert names == [names[0]] + names[1..];
      Insert(names[0], Sort(names[1..]))
  }

  lemma {:induction false} InsertSorts(name: string, names: seq<string>)
    requires Sorted(names)
    ensures Sorted(Insert(name, names))
  {
    if names != [] {
      LeqTotal(name, names[0]);
      if Leq(name, names[0]) {
        forall j | 0 <= j < |names| ensures Leq(name, names[j]) {
          if j > 0 { LeqTransitive(name, names[0], names[j]); }
        }
      } else {
        InsertSorts(name, names[1..]);
        InsertKeepsBound(names[0], name, names[1..]);
      }
    }
  }

  lemma InsertKeepsBound(low: string, name: string, names: seq<string>)
    requires Leq(low, name) && forall j :: 0 <= j < |names| ==> Leq(low, names[j])
    ensures forall j :: 0 <= j < |Insert(name, names)| ==> Leq(low, Insert(name, names)[j])
  {
    var r := Insert(name, names);
    forall j | 0 <= j < |r| ensures Leq(low, r[j]) {
      assert r[j] in multiset(r);
      assert r[j] == name || r[j] in multiset(names);
    }
  }

  lemma {:induction false} SortSorts(names: seq<string>)
    ensures Sorted(Sort(names))
  {
    if names != [] {
      SortSorts(names[1..]);
      InsertSorts(names[0], Sort(names[1..]));
    }
  }

  lemma {:induction false} SortedIsUnique(a: seq<string>, b: seq<string>)
    requires Sorted(a) && Sorted(b) && multiset(a) == multiset(b)
    ensures a == b
  {
    assert |a| == |multiset(a)| == |multiset(b)| == |b|;
    if a != [] {
      HeadIsLeast(a, b);
      HeadIsLeast(b, a);
      LeqTotal(a[0], b[0]);
      TailMultiset(a);
      TailMultiset(b);
      SortedIsUnique(a[1..], b[1..]);
      assert a == [a[0]] + a[1..] && b == [b[0]] + b[1..];
    }
  }

  lemma TailMultiset(a: seq<string>)
    requires a != []
    ensures multiset(a[1..]) == multiset(a) - multiset{a[0]}
  {
    assert a == [a[0]] + a[1..];
  }

  lemma HeadIsLeast(a: seq<string>, b: seq<string>)
    requires Sorted(a) && multiset(a) == multiset(b) && a != [] && b != []
    ensures Leq(a[0], b[0])
  {
    assert b[0] in multiset(b);
    var i :| 0 <= i < |a| && a[i] == b[0];
    LeqTotal(a[0], a[0]);
  }

  /** Two requests have the same canonical form exactly when they are permutations. */
  lemma SameKeyIff(a: seq<string>, b: seq<string>)
    ensures Sort(a) == Sort(b) <==> multiset(a) == multiset(b)
  {
    SortSorts(a);
    SortSorts(b);
    if multiset(a) == multiset(b) {
      SortedIsUnique(Sort(a), Sort(b));
    }
  }
}

/** Sampling through cached profile sets and adding up the records
    (rocprofilerclient/rocpclient.cpp). */
module CounterSampling {
  import opened CounterPacking
  import opened PackingTheorems
  import opened RequestOrder
  import opened Wrappers

  /** One sampled record: the counter it belongs to and its value. */
  datatype Record = Record(counter: CounterId, value: real)

  const UNKNOWN_COUNTER := "UNKNOWN_COUNTER"

  function NameOf(hw: Hardware, counter: CounterId): string {
    match hw.nameOf(counter)
    case Some(name) => name
    case None => UNKNOWN_COUNTER
  }

  /** What a fresh packing of a sorted request keeps. */
  function FreshProfiles(hw: Hardware, key: seq<string>): seq<Profile> {
    SavedProfiles(hw, Packed(hw, key).bins)
  }

  /** What the hardware returns: the records of the k-th sampling, which depend on the
      configuration selected at that time. */
  type SampleSource = (nat, nat) -> seq<Record>

  /** The records of each profile, sampled in order under its own configuration. */
  function Batches(samples: SampleSource, profiles: seq<Profile>): (batches: seq<seq<Record>>)
    ensures |batches| == |profiles|
    ensures forall k :: 0 <= k < |profiles| ==> batches[k] == samples(k, profiles[k].config)
  {
    seq(|profiles|, k requires 0 <= k < |profiles| => samples(k, profiles[k].config))
  }

  function Concat(batches: seq<seq<Record>>): seq<Record> {
    if batches == [] then [] else batches[0] + Concat(batches[1..])
  }

  function SumFor(hw: Hardware, name: string, records: seq<Record>): real {
    if records == [] then 0.0
    else
      var last := records[|records| - 1];
      SumFor(hw, name, records[..|records| - 1]) + if NameOf(hw, last.counter) == name then last.value else 0.0
  }

  function GrandTotal(records: seq<Record>): real {
    if records == [] then 0.0 else GrandTotal(records[..|records| - 1]) + records[|records| - 1].value
  }

  /** The values are the per-name sums of the records, for exactly the names that occur. */
  ghost predicate Aggregates(hw: Hardware, values: map<string, real>, records: seq<Record>) {
    && (forall n :: n in values <==> exists i :: 0 <= i < |records| && NameOf(hw, records[i].counter) == n)
    && (forall n :: n in values ==> values[n] == SumFor(hw, n, records))
  }

  function AddTo(values: map<string, real>, name: string, v: real): map<string, real> {
    values[name := (if name in values then values[name] else 0.0) + v]
  }

  lemma {:induction false} AbsentSumIsZero(hw: Hardware, name: string, records: seq<Record>)
    requires forall i :: 0 <= i < |records| ==> NameOf(hw, records[i].counter) != name
    ensures SumFor(hw, name, records) == 0.0
  {
    if records != [] {
      AbsentSumIsZero(hw, name, records[..|records| - 1]);
    }
  }

  lemma AggregateStep(hw: Hardware, values: map<string, real>, records: seq<Record>, r: Record)
    requires Aggregates(hw, values, records)
    ensures Aggregates(hw, AddTo(values, NameOf(hw, r.counter), r.value), records + [r])
  {
    var name := NameOf(hw, r.counter);
    var values', records' := AddTo(values, name, r.value), records + [r];
    assert records'[..|records|] == records && records'[|records|] == r;
    if name !in values {
      AbsentSumIsZero(hw, name, records);
    }
    forall n ensures n in values' <==> exists i :: 0 <= i < |records'| && NameOf(hw, records'[i].counter) == n {
      if n in values {
        var i :| 0 <= i < |records| && NameOf(hw, records[i].counter) == n;
        assert records'[i] == records[i];
      }
    }
  }

  /** The values aggregate the earlier records and the first i of the new ones. */
  ghost predicate AggregatesUpTo(hw: Hardware, values: map<string, real>, earlier: seq<Record>,
                                 records: seq<Record>, i: nat)
  {
    i <= |records| && Aggregates(hw, values, earlier + records[..i])
  }

  lemma AggregateOneMore(hw: Hardware, values: map<string, real>, earlier: seq<Record>, records: seq<Record>, i: nat)
    requires i < |records| && AggregatesUpTo(hw, values, earlier, records, i)
    ensures AggregatesUpTo(hw, AddTo(values, NameOf(hw, records[i].counter), records[i].value), earlier, records, i + 1)
  {
    AggregateStep(hw, values, earlier + records[..i], records[i]);
    assert (earlier + records[..i]) + [records[i]] == earlier + records[..i + 1];
  }

  lemma AggregateEnds(hw: Hardware, values: map<string, real>, earlier: seq<Record>, records: seq<Record>)
    ensures AggregatesUpTo(hw, values, earlier, records, 0) <==> Aggregates(hw, values, earlier)
    ensures AggregatesUpTo(hw, values, earlier, records, |records|) <==> Aggregates(hw, values, earlier + records)
  {
    assert earlier + records[..0] == earlier;
    assert records[..|records|] == records;
  }

  // ----------------------------------------------------------- the grand total

  ghost function SumOver(keys: set<string>, values: map<string, real>): real
    requires keys <= values.Keys
  {
    if keys == {} then 0.0 else var k :| k in keys; values[k] + SumOver(keys - {k}, values)
  }

  lemma {:induction false} SumOverRemove(keys: set<string>, values: map<string, real>, k: string)
    requires keys <= values.Keys && k in keys
    ensures SumOver(keys, values) == values[k] + SumOver(keys - {k}, values)
    decreases |keys|
  {
    var p :| p in keys && SumOver(keys, values) == values[p] + SumOver(keys - {p}, values);
    if p != k {
      SumOverRemove(keys - {p}, values, k);
      SumOverRemove(keys - {k}, values, p);
      assert keys - {p} - {k} == keys - {k} - {p};
    }
  }

  lemma {:induction false} SumOverAgree(keys: set<string>, a: map<string, real>, b: map<string, real>)
    requires keys <= a.Keys && keys <= b.Keys && forall k :: k in keys ==> a[k] == b[k]
    ensures SumOver(keys, a) == SumOver(keys, b)
    decreases |keys|
  {
    if keys != {} {
      var k :| k in keys;
      SumOverRemove(keys, a, k);
      SumOverRemove(keys, b, k);
      SumOverAgree(keys - {k}, a, b);
    }
  }

  lemma AddToTotal(values: map<string, real>, name: string, v: real)
    ensures SumOver(AddTo(values, name, v).Keys, AddTo(values, name, v)) == SumOver(values.Keys, values) + v
  {
    var values' := AddTo(values, name, v);
    SumOverRemove(values'.Keys, values', name);
    SumOverAgree(values.Keys - {name}, values, values');
    if name in values {
      assert values'.Keys == values.Keys;
      SumOverRemove(values.Keys, values, name);
    } else {
      assert values'.Keys - {name} == values.Keys;
      assert values.Keys - {name} == values.Keys;
    }
  }

  lemma AggregateUnique(hw: Hardware, a: map<string, real>, b: map<string, real>, records: seq<Record>)
    requires Aggregates(hw, a, records) && Aggregates(hw, b, records)
    ensures a == b
  {
    assert a.Keys == b.Keys;
  }

  function AddAll(hw: Hardware, records: seq<Record>): map<string, real> {
    if records == [] then map[]
    else
      var last := records[|records| - 1];
      AddTo(AddAll(hw, records[..|records| - 1]), NameOf(hw, last.counter), last.value)
  }

  lemma {:induction false} AddAllAggregates(hw: Hardware, records: seq<Record>)
    ensures Aggregates(hw, AddAll(hw, records), records)
    ensures SumOver(AddAll(hw, records).Keys, AddAll(hw, records)) == GrandTotal(records)
  {
    if records != [] {
      var head, last := records[..|records| - 1], records[|records| - 1];
      assert records == head + [last];
      AddAllAggregates(hw, head);
      AggregateStep(hw, AddAll(hw, head), head, last);
      AddToTotal(AddAll(hw, head), NameOf(hw, last.counter), last.value);
    }
  }

  /** Splitting the records by name loses no value: the reported values add up to the sum
      of all records. */
  lemma GrandTotalConserved(hw: Hardware, values: map<string, real>, records: seq<Record>)
    requires Aggregates(hw, values, records)
    ensures SumOver(values.Keys, values) == GrandTotal(records)
  {
    AddAllAggregates(hw, records);
    AggregateUnique(hw, values, AddAll(hw, records), records);
  }

  // ----------------------------------------------------------- several profiles

  function SumOfBatches(hw: Hardware, name: string, batches: seq<seq<Record>>): real {
    if batches == [] then 0.0 else SumFor(hw, name, batches[0]) + SumOfBatches(hw, name, batches[1..])
  }

  function TotalOfBatches(batches: seq<seq<Record>>): real {
    if batches == [] then 0.0 else GrandTotal(batches[0]) + TotalOfBatches(batches[1..])
  }

  ghost predicate Occurs(hw: Hardware, name: string, records: seq<Record>) {
    exists i :: 0 <= i < |records| && NameOf(hw, records[i].counter) == name
  }

  /** The report of a whole profile set: exactly the names that occur in some profile's records,
      each with its sum over all profiles, and in total the sum of all records. */
  ghost predicate Reports(hw: Hardware, values: map<string, real>, batches: seq<seq<Record>>) {
    && (forall name :: name in values <==> exists k :: 0 <= k < |batches| && Occurs(hw, name, batches[k]))
    && (forall name :: name in values ==> values[name] == SumOfBatches(hw, name, batches))
    && SumOver(values.Keys, values) == TotalOfBatches(batches)
  }

  lemma {:induction false} SumsOfConcat(hw: Hardware, name: string, a: seq<Record>, b: seq<Record>)
    ensures SumFor(hw, name, a + b) == SumFor(hw, name, a) + SumFor(hw, name, b)
    ensures GrandTotal(a + b) == GrandTotal(a) + GrandTotal(b)
    decreases |b|
  {
    if b == [] {
      assert a + b == a;
    } else {
      assert (a + b)[..|a + b| - 1] == a + b[..|b| - 1];
      SumsOfConcat(hw, name, a, b[..|b| - 1]);
    }
  }

  lemma {:induction false} SumsOfBatches(hw: Hardware, name: string, batches: seq<seq<Record>>)
    ensures SumFor(hw, name, Concat(batches)) == SumOfBatches(hw, name, batches)
    ensures GrandTotal(Concat(batches)) == TotalOfBatches(batches)
  {
    if batches != [] {
      SumsOfBatches(hw, name, batches[1..]);
      SumsOfConcat(hw, name, batches[0], Concat(batches[1..]));
    }
  }

  lemma OccursInEither(hw: Hardware, name: string, a: seq<Record>, b: seq<Record>)
    ensures Occurs(hw, name, a + b) <==> Occurs(hw, name, a) || Occurs(hw, name, b)
  {
    if i :| 0 <= i < |a| && NameOf(hw, a[i].counter) == name {
      assert (a + b)[i] == a[i];
    }
    if i :| 0 <= i < |b| && NameOf(hw, b[i].counter) == name {
      assert (a + b)[|a| + i] == b[i];
    }
  }

  lemma {:induction false} OccursInSome(hw: Hardware, name: string, batches: seq<seq<Record>>)
    ensures Occurs(hw, name, Concat(batches)) <==> exists k :: 0 <= k < |batches| && Occurs(hw, name, batches[k])
  {
    if batches != [] {
      var rest := batches[1..];
      OccursInSome(hw, name, rest);
      OccursInEither(hw, name, batches[0], Concat(rest));
      if k :| 0 <= k < |rest| && Occurs(hw, name, rest[k]) {
        assert batches[k + 1] == rest[k];
      }
      if k :| 0 <= k < |batches| && Occurs(hw, name, batches[k]) && k > 0 {
        assert rest[k - 1] == batches[k];
      }
    }
  }

  lemma {:induction false} ConcatSnoc(batches: seq<seq<Record>>, i: nat)
    requires i < |batches|
    ensures Concat(batches[..i + 1]) == Concat(batches[..i]) + batches[i]
  {
    if i > 0 {
      ConcatSnoc(batches[1..], i - 1);
      assert batches[1..][..i] == batches[..i + 1][1..] && batches[1..][..i - 1] == batches[..i][1..];
    }
  }

  /** Aggregating all records one after the other gives the report of the profile set. */
  lemma AggregateReports(hw: Hardware, values: map<string, real>, batches: seq<seq<Record>>)
    requires Aggregates(hw, values, Concat(batches))
    ensures Reports(hw, values, batches)
  {
    GrandTotalConserved(hw, values, Concat(batches));
    SumsOfBatches(hw, "", batches);
    forall name ensures name in values <==> exists k :: 0 <= k < |batches| && Occurs(hw, name, batches[k]) {
      OccursInSome(hw, name, batches);
      assert name in values <==> Occurs(hw, name, Concat(batches));
    }
    forall name | name in values ensures values[name] == SumOfBatches(hw, name, batches) {
      SumsOfBatches(hw, name, batches);
    }
  }

  // ----------------------------------------------------------- the sampler

  class CounterSampler {
    const hw: Hardware
    var cachedProfileSets: map<seq<string>, seq<Profile>>
    var idToName: map<CounterId, string>
    var activeConfig: nat

    /** Every cached profile set is what a fresh packing of its sorted key gives, and the
        name memo agrees with the library. */
    ghost predicate Valid()
      reads this
    {
      CacheCoherent(hw, cachedProfileSets) && MemoCoherent(hw, idToName)
    }

    constructor (hw: Hardware)
      ensures Valid() && this.hw == hw && cachedProfileSets == map[]
    {
      this.hw := hw;
      cachedProfileSets, idToName, activeConfig := map[], map[], 0;
    }

    method DecodeRecordName(r: Record) returns (name: string)
      requires Valid()
      modifies this`idToName
      ensures Valid() && name == NameOf(hw, r.counter)
      ensures hw.nameOf(r.counter).Some? ==> name == hw.nameOf(r.counter).value
      ensures hw.nameOf(r.counter).None? ==> name == "UNKNOWN_COUNTER"
    {
      if r.counter in idToName {
        return idToName[r.counter];
      }
      match hw.nameOf(r.counter)
      case Some(found) =>
        idToName := idToName[r.counter := found];
        return found;
      case None =>
        return UNKNOWN_COUNTER;
    }

    /** Adds the records of one profile to the output. */
    method Accumulate(before: map<string, real>, records: seq<Record>, ghost earlier: seq<Record>)
      returns (values: map<string, real>)
      requires Valid() && Aggregates(hw, before, earlier)
      modifies this`idToName
      ensures Valid() && Aggregates(hw, values, earlier + records)
    {
      values := before;
      AggregateEnds(hw, values, earlier, records);
      for i := 0 to |records|
        invariant Valid() && AggregatesUpTo(hw, values, earlier, records, i)
      {
        var name := DecodeRecordName(records[i]);
        AggregateOneMore(hw, values, earlier, records, i);
        values := AddTo(values, name, records[i].value);
      }
      AggregateEnds(hw, values, earlier, records);
    }

    /** Samples the profiles of a set one after the other. */
    method SampleProfiles(profiles: seq<Profile>, samples: SampleSource) returns (values: map<string, real>)
      requires Valid()
      modifies this`idToName, this`activeConfig
      ensures Valid() && Reports(hw, values, Batches(samples, profiles))
      ensures activeConfig == LastConfig(profiles, old(activeConfig))
    {
      values := map[];
      ghost var batches := Batches(samples, profiles);
      for i := 0 to |profiles|
        invariant Valid() && Aggregates(hw, values, Concat(batches[..i]))
        invariant activeConfig == if i == 0 then old(activeConfig) else profiles[i - 1].config
      {
        activeConfig := profiles[i].config;
        ConcatSnoc(batches, i);
        values := Accumulate(values, samples(i, activeConfig), Concat(batches[..i]));
      }
      assert batches[..|profiles|] == batches;
      AggregateReports(hw, values, batches);
    }

    /** The cached profile set of a request, packed first if there is none. */
    method ProfilesFor(counters: seq<string>) returns (profiles: seq<Profile>)
      requires Valid()
      modifies this`cachedProfileSets
      ensures Valid() && profiles == FreshProfiles(hw, Sort(counters))
      ensures cachedProfileSets == CacheStep(hw, old(cachedProfileSets), counters)
    {
      var key := Sort(counters);
      SortSorts(counters);
      if key !in cachedProfileSets {
        var created := CreateProfiles(hw, key);
        cachedProfileSets := cachedProfileSets[key := created];
      }
      profiles := cachedProfileSets[key];
    }

    /** sample_counters_with_packing. The records the hardware returns for each configuration
        are an arbitrary input. */
    method SampleCountersWithPacking(counters: seq<string>, samples: SampleSource) returns (values: map<string, real>)
      requires Valid()
      modifies this
      ensures Valid()
      ensures cachedProfileSets == CacheStep(hw, old(cachedProfileSets), counters)
      ensures Reports(hw, values, Batches(samples, FreshProfiles(hw, Sort(counters))))
      ensures activeConfig == LastConfig(FreshProfiles(hw, Sort(counters)), old(activeConfig))
    {
      var profiles := ProfilesFor(counters);
      values := SampleProfiles(profiles, samples);
    }
  }

  /** The configuration left selected after sampling a profile set. */
  function LastConfig(profiles: seq<Profile>, before: nat): nat {
    if profiles == [] then before else profiles[|profiles| - 1].config
  }

  ghost predicate CacheCoherent(hw: Hardware, cache: map<seq<string>, seq<Profile>>) {
    forall key :: key in cache ==> Sorted(key) && cache[key] == FreshProfiles(hw, key)
  }

  ghost predicate MemoCoherent(hw: Hardware, memo: map<CounterId, string>) {
    forall id :: id in memo ==> hw.nameOf(id) == Some(memo[id])
  }

  /** The cache after a request: a key already present keeps the very entry it has. */
  function CacheStep(hw: Hardware, cache: map<seq<string>, seq<Profile>>, counters: seq<string>)
    : map<seq<string>, seq<Profile>>
  {
    if Sort(counters) in cache then cache else cache[Sort(counters) := FreshProfiles(hw, Sort(counters))]
  }

  function CacheAfter(hw: Hardware, requests: seq<seq<string>>): map<seq<string>, seq<Profile>> {
    if requests == [] then map[]
    else CacheStep(hw, CacheAfter(hw, requests[..|requests| - 1]), requests[|requests| - 1])
  }

  ghost predicate Seen(requests: seq<seq<string>>, counters: seq<string>) {
    exists i :: 0 <= i < |requests| && multiset(requests[i]) == multiset(counters)
  }

  lemma SeenStep(requests: seq<seq<string>>, counters: seq<string>)
    requires requests != []
    ensures Seen(requests, counters) <==>
            Seen(requests[..|requests| - 1], counters) || multiset(requests[|requests| - 1]) == multiset(counters)
  {
    var head, n := requests[..|requests| - 1], |requests| - 1;
    if Seen(head, counters) {
      var i :| 0 <= i < |head| && multiset(head[i]) == multiset(counters);
      assert requests[i] == head[i];
    }
    if Seen(requests, counters) {
      var i :| 0 <= i < |requests| && multiset(requests[i]) == multiset(counters);
      if i < n { assert head[i] == requests[i]; }
    }
  }

  lemma CacheStepEffect(hw: Hardware, cache: map<seq<string>, seq<Profile>>, counters: seq<string>)
    requires CacheCoherent(hw, cache)
    ensures CacheCoherent(hw, CacheStep(hw, cache, counters))
    ensures CacheStep(hw, cache, counters).Keys == cache.Keys + {Sort(counters)}
  {
    SortSorts(counters);
  }

  /** After any sequence of requests the cache answers a request exactly when a permutation
      of it was seen before, and the answer is the fresh packing of the sorted request. */
  lemma {:induction false} CacheAfterRequests(hw: Hardware, requests: seq<seq<string>>, counters: seq<string>)
    ensures CacheCoherent(hw, CacheAfter(hw, requests))
    ensures Sort(counters) in CacheAfter(hw, requests) <==> Seen(requests, counters)
  {
    if requests != [] {
      var head, last := requests[..|requests| - 1], requests[|requests| - 1];
      CacheAfterRequests(hw, head, counters);
      CacheStepEffect(hw, CacheAfter(hw, head), last);
      SameKeyIff(last, counters);
      SeenStep(requests, counters);
    }
  }
}
