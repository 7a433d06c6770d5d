/** Greedy packing of hardware counters into sampling profiles
    (rocprofilerclient/rocpclient.cpp).

    The sampler asks the profiler library whether a list of counters fits into one
    hardware configuration. That call is an arbitrary function here; everything below
    holds whatever it answers. The packer works in passes: each pass fills one profile
    and carries the counters that did not fit to the next pass. The main result is that
    the passes build exactly the bins of online First-Fit. */
module CounterPacking {
  import opened Wrappers
  import Sequences

  const MAX_COUNTERS_PER_PROFILE: nat := 10

  /** The range of size_t, whose arithmetic wraps around. */
  const SIZE_RANGE: nat := 0x1_0000_0000_0000_0000

  type CounterId = nat
  type Bin = seq<string>

  /** Outcome of asking the library for a counter configuration. */
  datatype ConfigStatus = Success(handle: nat) | ExceedsHwLimit | OtherError

  /** The profiler library as seen by one sampler: supported counter names, the answer to
      every configuration request, the dimensions of a counter, and its name. */
  datatype Hardware = Hardware(
    supported: map<string, CounterId>,
    create: seq<CounterId> -> ConfigStatus,
    dims: CounterId -> seq<nat>,
    nameOf: CounterId -> Option<string>)

  datatype Profile = Profile(config: nat, counterNames: Bin, expectedSize: nat)

  // ---------------------------------------------------------------- one configuration

  function Product(dims: seq<nat>): nat {
    if dims == [] then 1 else Product(dims[..|dims| - 1]) * dims[|dims| - 1]
  }

  /** One choice of an instance in every dimension. */
  predicate IsInstance(dims: seq<nat>, choice: seq<nat>) {
    |choice| == |dims| && forall i :: 0 <= i < |dims| ==> choice[i] < dims[i]
  }

  /** The position of a choice when all of them are counted, the last dimension fastest. */
  function Rank(dims: seq<nat>, choice: seq<nat>): nat
    requires |choice| == |dims|
  {
    if dims == [] then 0
    else
      var n := |dims| - 1;
      Rank(dims[..n], choice[..n]) * dims[n] + choice[n]
  }

  lemma SameRemainder(q: nat, q': nat, d: nat, m: nat, m': nat)
    requires m < d && m' < d && q * d + m == q' * d + m'
    ensures q == q' && m == m'
  {
    assert q < q' ==> (q + 1) * d <= q' * d;
    assert q' < q ==> (q' + 1) * d <= q * d;
  }

  lemma RankBelow(q: nat, p: nat, d: nat, m: nat)
    requires m < d
    ensures q * d + m < p * d <==> q < p
  {
    assert q < p ==> (q + 1) * d <= p * d;
    assert q >= p ==> p * d <= q * d;
  }

  lemma {:induction false} RankInRange(dims: seq<nat>, choice: seq<nat>)
    requires IsInstance(dims, choice)
    ensures Rank(dims, choice) < Product(dims)
  {
    if dims != [] {
      var n := |dims| - 1;
      RankInRange(dims[..n], choice[..n]);
      RankBelow(Rank(dims[..n], choice[..n]), Product(dims[..n]), dims[n], choice[n]);
    }
  }

  lemma {:induction false} RankIsInjective(dims: seq<nat>, a: seq<nat>, b: seq<nat>)
    requires IsInstance(dims, a) && IsInstance(dims, b) && Rank(dims, a) == Rank(dims, b)
    ensures a == b
  {
    if dims != [] {
      var n := |dims| - 1;
      SameRemainder(Rank(dims[..n], a[..n]), Rank(dims[..n], b[..n]), dims[n], a[n], b[n]);
      RankIsInjective(dims[..n], a[..n], b[..n]);
      assert a == a[..n] + [a[n]] && b == b[..n] + [b[n]];
    }
  }

  lemma {:induction false} RankIsOnto(dims: seq<nat>, r: nat) returns (choice: seq<nat>)
    requires r < Product(dims)
    ensures IsInstance(dims, choice) && Rank(dims, choice) == r
  {
    if dims == [] {
      choice := [];
    } else {
      var n := |dims| - 1;
      var d := dims[n];
      assert d > 0;
      var q, m := r / d, r % d;
      RankBelow(q, Product(dims[..n]), d, m);
      var head := RankIsOnto(dims[..n], q);
      choice := head + [m];
      assert choice[..n] == head;
    }
  }

  ghost predicate IsRank(dims: seq<nat>, r: nat) {
    exists choice :: IsInstance(dims, choice) && Rank(dims, choice) == r
  }

  /** The choices are numbered without gaps and without repetition from zero up to the product
      of the dimension sizes, so the product counts them. */
  lemma ProductCounts(dims: seq<nat>)
    ensures forall r: nat :: IsRank(dims, r) <==> r < Product(dims)
    ensures forall a, b :: IsInstance(dims, a) && IsInstance(dims, b) && Rank(dims, a) == Rank(dims, b) ==> a == b
  {
    forall r: nat ensures IsRank(dims, r) <==> r < Product(dims) {
      if r < Product(dims) {
        var choice := RankIsOnto(dims, r);
      }
      if choice :| IsInstance(dims, choice) && Rank(dims, choice) == r {
        RankInRange(dims, choice);
      }
    }
    forall a, b | IsInstance(dims, a) && IsInstance(dims, b) && Rank(dims, a) == Rank(dims, b) ensures a == b {
      RankIsInjective(dims, a, b);
    }
  }

  lemma WrapFactor(x: nat, d: nat)
    ensures x % SIZE_RANGE * d % SIZE_RANGE == x * d % SIZE_RANGE
  {
    var q, m := x / SIZE_RANGE, x % SIZE_RANGE;
    assert x * d == (q * d) * SIZE_RANGE + m * d;
  }

  lemma WrapSum(x: nat, y: nat)
    ensures (x % SIZE_RANGE + y % SIZE_RANGE) % SIZE_RANGE == (x + y) % SIZE_RANGE
  {
  }

  /** Number of records of one counter: one per combination of dimension instances. */
  method CounterSize(hw: Hardware, counter: CounterId) returns (size: nat)
    ensures size == Product(hw.dims(counter)) % SIZE_RANGE
  {
    var dims := hw.dims(counter);
    size := 1;
    for i := 0 to |dims|
      invariant size == Product(dims[..i]) % SIZE_RANGE
    {
      assert dims[..i + 1][..i] == dims[..i];
      WrapFactor(Product(dims[..i]), dims[i]);
      size := size * dims[i] % SIZE_RANGE;
    }
    assert dims[..|dims|] == dims;
  }

  function Ids(hw: Hardware, names: Bin): seq<CounterId> {
    if names == [] then []
    else
      var last := names[|names| - 1];
      Ids(hw, names[..|names| - 1]) + if last in hw.supported then [hw.supported[last]] else []
  }

  function RecordCount(hw: Hardware, names: Bin): nat {
    if names == [] then 0
    else
      var last := names[|names| - 1];
      RecordCount(hw, names[..|names| - 1]) +
      if last in hw.supported then Product(hw.dims(hw.supported[last])) else 0
  }

  /** Builds the ID list of a tentative profile together with its record count. */
  method BuildRequest(hw: Hardware, names: Bin) returns (ids: seq<CounterId>, expectedSize: nat)
    ensures ids == Ids(hw, names) && expectedSize == RecordCount(hw, names) % SIZE_RANGE
  {
    ids, expectedSize := [], 0;
    for i := 0 to |names|
      invariant ids == Ids(hw, names[..i]) && expectedSize == RecordCount(hw, names[..i]) % SIZE_RANGE
    {
      assert names[..i + 1][..i] == names[..i];
      if names[i] in hw.supported {
        var id := hw.supported[names[i]];
        ids := ids + [id];
        var size := CounterSize(hw, id);
        WrapSum(RecordCount(hw, names[..i]), Product(hw.dims(id)));
        assert RecordCount(hw, names[..i + 1]) == RecordCount(hw, names[..i]) + Product(hw.dims(id));
        expectedSize := (expectedSize + size) % SIZE_RANGE;
      }
    }
    assert names[..|names|] == names;
  }

  /** A bin accepts a counter when it is below the static limit and the library can
      configure the bin with the counter added. */
  predicate Fits(hw: Hardware, bin: Bin, counter: string) {
    |bin| < MAX_COUNTERS_PER_PROFILE && hw.create(Ids(hw, bin + [counter])).Success?
  }

  predicate AllSupported(hw: Hardware, names: seq<string>) {
    forall i :: 0 <= i < |names| ==> names[i] in hw.supported
  }

  function SupportedPart(hw: Hardware, names: seq<string>): (r: seq<string>)
    ensures AllSupported(hw, r) && |r| <= |names|
    ensures AllSupported(hw, names) ==> r == names
  {
    if names == [] then []
    else if names[0] in hw.supported then [names[0]] + SupportedPart(hw, names[1..])
    else SupportedPart(hw, names[1..])
  }

  // ------------------------------------------------------------------ the passes

  /** One pass over the counters: the filled bin and the counters carried over. */
  function Pass(hw: Hardware, bin: Bin, counters: seq<string>): (r: (Bin, seq<string>))
    ensures |r.0| + |r.1| == |bin| + |counters|
    decreases |counters|
  {
    if counters == [] then (bin, [])
    else if Fits(hw, bin, counters[0]) then Pass(hw, bin + [counters[0]], counters[1..])
    else
      var rest := Pass(hw, bin, counters[1..]);
      (rest.0, [counters[0]] + rest.1)
  }

  datatype Packing = Packing(bins: seq<Bin>, leftover: seq<string>)

  function MultiPass(hw: Hardware, counters: seq<string>): Packing
    decreases |counters|
  {
    if counters == [] then Packing([], [])
    else
      var (bin, failed) := Pass(hw, [], counters);
      if bin == [] then Packing([], failed)
      else
        var rest := MultiPass(hw, failed);
        Packing([bin] + rest.bins, rest.leftover)
  }

  function ConfigOf(hw: Hardware, bin: Bin): nat {
    match hw.create(Ids(hw, bin))
    case Success(handle) => handle
    case _ => 0
  }

  function ProfileOf(hw: Hardware, bin: Bin): Profile {
    Profile(ConfigOf(hw, bin), bin, RecordCount(hw, bin) % SIZE_RANGE)
  }

  /** The profiles kept for a list of bins: a bin whose handle is zero is not kept. */
  function SavedProfiles(hw: Hardware, bins: seq<Bin>): seq<Profile> {
    if bins == [] then []
    else (if ConfigOf(hw, bins[0]) != 0 then [ProfileOf(hw, bins[0])] else []) + SavedProfiles(hw, bins[1..])
  }

  ghost function Kept(hw: Hardware, counters: seq<string>): seq<Profile> {
    SavedProfiles(hw, MultiPass(hw, counters).bins)
  }

  /** Tries the current profile with one more counter. The library is asked even when the
      static limit is already exceeded, as in the source. */
  method TryAdd(hw: Hardware, bin: Bin, name: string) returns (fits: bool, config: nat, expectedSize: nat)
    ensures fits == Fits(hw, bin, name)
    ensures fits ==> Profile(config, bin + [name], expectedSize) == ProfileOf(hw, bin + [name])
  {
    var candidate := bin + [name];
    var ids, size := BuildRequest(hw, candidate);
    var status := hw.create(ids);
    fits, config, expectedSize := false, 0, 0;
    if status == ExceedsHwLimit || |candidate| > MAX_COUNTERS_PER_PROFILE {
      // the counter does not fit
    } else if status.Success? {
      fits, config, expectedSize := true, status.handle, size;
    } else {
      // unexpected error: treated as not fitting
    }
  }

  /** The pass so far, continued on the counters still to do, ends in the given result. */
  ghost predicate OnTrack(hw: Hardware, current: Bin, failed: seq<string>, todo: seq<string>,
                          goal: (Bin, seq<string>))
  {
    Pass(hw, current, todo).0 == goal.0 && failed + Pass(hw, current, todo).1 == goal.1
  }

  lemma PassStep(hw: Hardware, current: Bin, failed: seq<string>, name: string, rest: seq<string>,
                 goal: (Bin, seq<string>))
    requires OnTrack(hw, current, failed, [name] + rest, goal)
    ensures Fits(hw, current, name) ==> OnTrack(hw, current + [name], failed, rest, goal)
    ensures !Fits(hw, current, name) ==> OnTrack(hw, current, failed + [name], rest, goal)
  {
    assert ([name] + rest)[1..] == rest;
    assert (failed + [name]) + Pass(hw, current, rest).1 == failed + ([name] + Pass(hw, current, rest).1);
  }

  /** The state of the inner loop before the i-th remaining counter. */
  ghost predicate FillInv(hw: Hardware, remaining: seq<string>, i: nat, current: Bin, failed: seq<string>)
    requires i <= |remaining|
  {
    && |current| + |failed| <= i && AllSupported(hw, failed)
    && OnTrack(hw, current, failed, SupportedPart(hw, remaining[i..]), Pass(hw, [], SupportedPart(hw, remaining)))
  }

  lemma FillStart(hw: Hardware, remaining: seq<string>)
    ensures FillInv(hw, remaining, 0, [], [])
  {
    assert remaining[0..] == remaining;
    var failed := Pass(hw, [], SupportedPart(hw, remaining)).1;
    assert [] + failed == failed;
  }

  lemma FillStep(hw: Hardware, remaining: seq<string>, i: nat, current: Bin, failed: seq<string>)
    requires i < |remaining| && FillInv(hw, remaining, i, current, failed)
    ensures var name := remaining[i];
            && (name !in hw.supported ==> FillInv(hw, remaining, i + 1, current, failed))
            && (name in hw.supported && Fits(hw, current, name) ==>
                  FillInv(hw, remaining, i + 1, current + [name], failed))
            && (name in hw.supported && !Fits(hw, current, name) ==>
                  FillInv(hw, remaining, i + 1, current, failed + [name]))
  {
    SupportedStep(hw, remaining, i);
    var name, rest := remaining[i], SupportedPart(hw, remaining[i + 1..]);
    var goal := Pass(hw, [], SupportedPart(hw, remaining));
    if name in hw.supported {
      PassStep(hw, current, failed, name, rest, goal);
    } else {
      assert [] + rest == rest;
    }
  }

  lemma FillEnd(hw: Hardware, remaining: seq<string>, current: Bin, failed: seq<string>)
    requires FillInv(hw, remaining, |remaining|, current, failed)
    ensures (current, failed) == Pass(hw, [], SupportedPart(hw, remaining))
  {
    assert remaining[|remaining|..] == [];
    assert failed + [] == failed;
  }

  lemma SupportedStep(hw: Hardware, names: seq<string>, i: nat)
    requires i < |names|
    ensures SupportedPart(hw, names[i..]) ==
            (if names[i] in hw.supported then [names[i]] else []) + SupportedPart(hw, names[i + 1..])
  {
    assert names[i..][1..] == names[i + 1..];
  }

  /** The inner loop of create_profiles_for_counters: fills one profile. */
  method FillProfile(hw: Hardware, remaining: seq<string>)
    returns (current: Bin, failed: seq<string>, lastConfig: nat, lastSize: nat)
    ensures (current, failed) == Pass(hw, [], SupportedPart(hw, remaining))
    ensures |current| + |failed| <= |remaining| && AllSupported(hw, failed)
    ensures current == [] ==> lastConfig == 0
    ensures current != [] ==> Profile(lastConfig, current, lastSize) == ProfileOf(hw, current)
  {
    current, failed, lastConfig, lastSize := [], [], 0, 0;
    FillStart(hw, remaining);
    for i := 0 to |remaining|
      invariant FillInv(hw, remaining, i, current, failed)
      invariant current == [] ==> lastConfig == 0
      invariant current != [] ==> Profile(lastConfig, current, lastSize) == ProfileOf(hw, current)
    {
      FillStep(hw, remaining, i, current, failed);
      var name := remaining[i];
      if name !in hw.supported {
        continue;
      }
      var fits, config, size := TryAdd(hw, current, name);
      if fits {
        current, lastConfig, lastSize := current + [name], config, size;
      } else {
        failed := failed + [name];
      }
    }
    FillEnd(hw, remaining, current, failed);
  }

  lemma SavedSplit(hw: Hardware, bin: Bin, bins: seq<Bin>)
    ensures SavedProfiles(hw, [bin] + bins) ==
            (if ConfigOf(hw, bin) != 0 then [ProfileOf(hw, bin)] else []) + SavedProfiles(hw, bins)
  {
    assert ([bin] + bins)[1..] == bins;
  }

  /** What one pass adds to the kept profiles; nothing is left to add once a pass fills nothing. */
  lemma PassPeelsProfile(hw: Hardware, counters: seq<string>)
    ensures var (bin, failed) := Pass(hw, [], counters);
            Kept(hw, counters) ==
            (if bin != [] && ConfigOf(hw, bin) != 0 then [ProfileOf(hw, bin)] else []) + Kept(hw, failed)
    ensures var (bin, failed) := Pass(hw, [], counters);
            bin == [] ==> Kept(hw, failed) == []
  {
    var (bin, failed) := Pass(hw, [], counters);
    PassKeepsAll(hw, [], counters);
    if bin != [] {
      SavedSplit(hw, bin, MultiPass(hw, failed).bins);
    }
  }

  /** create_profiles_for_counters. The result is stated through online First-Fit, an
      algorithm that never looks at a counter twice. */
  method CreateProfiles(hw: Hardware, counters: seq<string>) returns (profiles: seq<Profile>)
    ensures profiles == SavedProfiles(hw, FirstFit(hw, Packing([], []), SupportedPart(hw, counters)).bins)
  {
    profiles := [];
    var remaining := counters;
    ghost var goal := Kept(hw, SupportedPart(hw, counters));
    ghost var todo := goal;
    while remaining != []
      invariant todo == Kept(hw, SupportedPart(hw, remaining))
      invariant profiles + todo == goal
      decreases |remaining|
    {
      var current, failed, lastConfig, lastSize := FillProfile(hw, remaining);
      PassPeelsProfile(hw, SupportedPart(hw, remaining));
      ghost var kept := if current != [] && lastConfig != 0 then [Profile(lastConfig, current, lastSize)] else [];
      Sequences.Regroup(profiles, kept, Kept(hw, failed));
      todo := Kept(hw, failed);
      if current != [] && lastConfig != 0 {
        profiles := profiles + [Profile(lastConfig, current, lastSize)];
      }
      remaining := failed;
      if current == [] && remaining != [] {
        break;
      }
    }
    MultiPassIsFirstFit(hw, SupportedPart(hw, counters), []);
  }

  /** A pass that fills nothing carries everything over unchanged. */
  lemma {:induction false} PassKeepsAll(hw: Hardware, bin: Bin, counters: seq<string>)
    ensures bin <= Pass(hw, bin, counters).0
    ensures Pass(hw, bin, counters).0 == bin ==> Pass(hw, bin, counters).1 == counters
    decreases |counters|
  {
    if counters != [] {
      if Fits(hw, bin, counters[0]) {
        PassKeepsAll(hw, bin + [counters[0]], counters[1..]);
      } else {
        PassKeepsAll(hw, bin, counters[1..]);
      }
    }
  }

  // ------------------------------------------------------------- online First-Fit

  /** Index of the first bin that accepts the counter, or the number of bins. */
  function FirstAccepting(hw: Hardware, bins: seq<Bin>, counter: string): (i: nat)
    ensures i <= |bins|
    ensures i < |bins| ==> Fits(hw, bins[i], counter)
    ensures forall j :: 0 <= j < i ==> !Fits(hw, bins[j], counter)
  {
    if bins == [] || Fits(hw, bins[0], counter) then 0
    else 1 + FirstAccepting(hw, bins[1..], counter)
  }

  /** Puts one counter into the first accepting bin, else into a fresh bin, else aside. */
  function Place(hw: Hardware, p: Packing, counter: string): Packing {
    var i := FirstAccepting(hw, p.bins, counter);
    if i < |p.bins| then p.(bins := p.bins[i := p.bins[i] + [counter]])
    else if Fits(hw, [], counter) then p.(bins := p.bins + [[counter]])
    else p.(leftover := p.leftover + [counter])
  }

  function FirstFit(hw: Hardware, p: Packing, counters: seq<string>): Packing
    decreases |counters|
  {
    if counters == [] then p else FirstFit(hw, Place(hw, p, counters[0]), counters[1..])
  }

  function Prepend(bin: Bin, p: Packing): Packing {
    p.(bins := [bin] + p.bins)
  }

  lemma PlaceBehindFirstBin(hw: Hardware, bin: Bin, p: Packing, counter: string)
    ensures Place(hw, Prepend(bin, p), counter) ==
            if Fits(hw, bin, counter) then Prepend(bin + [counter], p) else Prepend(bin, Place(hw, p, counter))
  {
    var q := Prepend(bin, p);
    assert q.bins[1..] == p.bins;
    var i := FirstAccepting(hw, p.bins, counter);
    if Fits(hw, bin, counter) {
      assert q.bins[0 := bin + [counter]] == [bin + [counter]] + p.bins;
    } else if i < |p.bins| {
      var grown := p.bins[i] + [counter];
      assert q.bins[i + 1 := grown] == [bin] + p.bins[i := grown];
    } else {
      assert q.bins + [[counter]] == [bin] + (p.bins + [[counter]]);
    }
  }

  /** First-Fit treats its first bin like a pass and the other bins like First-Fit on what
      that pass rejects. */
  lemma {:induction false} FirstFitPeelsFirstBin(hw: Hardware, bin: Bin, p: Packing, counters: seq<string>)
    ensures var (full, failed) := Pass(hw, bin, counters);
            FirstFit(hw, Prepend(bin, p), counters) == Prepend(full, FirstFit(hw, p, failed))
    decreases |counters|
  {
    if counters != [] {
      var c, rest := counters[0], counters[1..];
      PlaceBehindFirstBin(hw, bin, p, c);
      if Fits(hw, bin, c) {
        FirstFitPeelsFirstBin(hw, bin + [c], p, rest);
      } else {
        FirstFitPeelsFirstBin(hw, bin, Place(hw, p, c), rest);
        var failed := Pass(hw, bin, rest).1;
        assert ([c] + failed)[1..] == failed;
      }
    }
  }

  /** First-Fit without open bins sets aside the counters a fresh bin rejects; the first
      counter a fresh bin accepts opens the bin that a pass would fill. */
  lemma {:induction false} FirstFitOpensBin(hw: Hardware, aside: seq<string>, counters: seq<string>)
    ensures OpensBin(hw, aside, counters)
    decreases |counters|
  {
    if counters == [] {
      assert aside + counters == aside;
    } else if Fits(hw, [], counters[0]) {
      OpensBinNow(hw, aside, counters);
    } else {
      FirstFitOpensBin(hw, aside + [counters[0]], counters[1..]);
      OpensBinLater(hw, aside, counters);
    }
  }

  ghost predicate OpensBin(hw: Hardware, aside: seq<string>, counters: seq<string>) {
    var (full, failed) := Pass(hw, [], counters);
    FirstFit(hw, Packing([], aside), counters) ==
    if full == [] then Packing([], aside + counters) else Prepend(full, FirstFit(hw, Packing([], aside), failed))
  }

  lemma OpensBinNow(hw: Hardware, aside: seq<string>, counters: seq<string>)
    requires counters != [] && Fits(hw, [], counters[0])
    ensures OpensBin(hw, aside, counters)
  {
    var c, rest := counters[0], counters[1..];
    assert [] + [c] == [c];
    assert Place(hw, Packing([], aside), c) == Prepend([c], Packing([], aside));
    FirstFitPeelsFirstBin(hw, [c], Packing([], aside), rest);
    PassKeepsAll(hw, [c], rest);
  }

  lemma OpensBinLater(hw: Hardware, aside: seq<string>, counters: seq<string>)
    requires counters != [] && !Fits(hw, [], counters[0])
    requires OpensBin(hw, aside + [counters[0]], counters[1..])
    ensures OpensBin(hw, aside, counters)
  {
    var c, rest := counters[0], counters[1..];
    var failed := Pass(hw, [], rest).1;
    assert (aside + [c]) + rest == aside + counters;
    assert ([c] + failed)[1..] == failed;
    assert Place(hw, Packing([], aside), c) == Packing([], aside + [c]);
  }

  /** The passes of the packer compute online First-Fit. */
  lemma {:induction false} MultiPassIsFirstFit(hw: Hardware, counters: seq<string>, aside: seq<string>)
    ensures var p := MultiPass(hw, counters);
            FirstFit(hw, Packing([], aside), counters) == Packing(p.bins, aside + p.leftover)
    decreases |counters|
  {
    FirstFitOpensBin(hw, aside, counters);
    var (full, failed) := Pass(hw, [], counters);
    if counters == [] {
      assert aside + [] == aside;
    } else if full == [] {
      PassKeepsAll(hw, [], counters);
    } else {
      MultiPassIsFirstFit(hw, failed, aside);
    }
  }
}
