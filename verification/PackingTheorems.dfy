/** What the packer guarantees about the profiles it creates, for every request and every
    answer of the profiler library. */
module PackingTheorems {
  import opened CounterPacking
  import opened Wrappers

  /** The First-Fit packing of the supported part of a request; CreateProfiles keeps the
      bins of this packing. */
  function Packed(hw: Hardware, counters: seq<string>): Packing {
    FirstFit(hw, Packing([], []), SupportedPart(hw, counters))
  }

  function Flatten(bins: seq<Bin>): seq<string> {
    if bins == [] then [] else bins[0] + Flatten(bins[1..])
  }

  function ProfileNames(profiles: seq<Profile>): seq<string> {
    if profiles == [] then [] else profiles[0].counterNames + ProfileNames(profiles[1..])
  }

  lemma PackedIsMultiPass(hw: Hardware, counters: seq<string>)
    ensures Packed(hw, counters) == MultiPass(hw, SupportedPart(hw, counters))
  {
    var p := MultiPass(hw, SupportedPart(hw, counters));
    MultiPassIsFirstFit(hw, SupportedPart(hw, counters), []);
    assert [] + p.leftover == p.leftover;
  }

  // ------------------------------------------------------------------ conservation

  lemma {:induction false} PassConserves(hw: Hardware, bin: Bin, counters: seq<string>)
    ensures var (full, failed) := Pass(hw, bin, counters);
            multiset(full) + multiset(failed) == multiset(bin) + multiset(counters)
    decreases |counters|
  {
    if counters != [] {
      var c, rest := counters[0], counters[1..];
      assert counters == [c] + rest;
      assert multiset(counters) == multiset{c} + multiset(rest);
      if Fits(hw, bin, c) {
        PassConserves(hw, bin + [c], rest);
      } else {
        PassConserves(hw, bin, rest);
        var failed := Pass(hw, bin, rest).1;
        assert multiset([c] + failed) == multiset{c} + multiset(failed);
        var full := Pass(hw, bin, rest).0;
        assert multiset(full) + multiset([c] + failed) == (multiset(full) + multiset(failed)) + multiset{c};
        assert multiset(bin) + multiset(counters) == (multiset(bin) + multiset(rest)) + multiset{c};
      }
    }
  }

  lemma {:induction false} MultiPassConserves(hw: Hardware, counters: seq<string>)
    ensures var p := MultiPass(hw, counters);
            multiset(Flatten(p.bins)) + multiset(p.leftover) == multiset(counters)
    decreases |counters|
  {
    if counters != [] {
      var (full, failed) := Pass(hw, [], counters);
      PassConserves(hw, [], counters);
      assert multiset(full) + multiset(failed) == multiset(counters);
      if full != [] {
        MultiPassConserves(hw, failed);
        var rest := MultiPass(hw, failed).bins;
        assert ([full] + rest)[1..] == rest;
        assert multiset(full + Flatten(rest)) == multiset(full) + multiset(Flatten(rest));
      } else {
        PassKeepsAll(hw, [], counters);
      }
    }
  }

  lemma {:induction false} SupportedMultiplicity(hw: Hardware, counters: seq<string>, c: string)
    ensures multiset(SupportedPart(hw, counters))[c] == if c in hw.supported then multiset(counters)[c] else 0
  {
    if counters != [] {
      SupportedMultiplicity(hw, counters[1..], c);
      assert counters == [counters[0]] + counters[1..];
    }
  }

  /** No supported counter is lost or duplicated: bins and leftovers hold exactly the
      supported part of the request, with multiplicity. */
  lemma PackingConserves(hw: Hardware, counters: seq<string>)
    ensures var p := Packed(hw, counters);
            && multiset(Flatten(p.bins)) + multiset(p.leftover) == multiset(SupportedPart(hw, counters))
            && (forall c :: multiset(Flatten(p.bins))[c] + multiset(p.leftover)[c] ==
                            if c in hw.supported then multiset(counters)[c] else 0)
  {
    PackedIsMultiPass(hw, counters);
    MultiPassConserves(hw, SupportedPart(hw, counters));
    var p := Packed(hw, counters);
    forall c ensures multiset(Flatten(p.bins))[c] + multiset(p.leftover)[c] ==
                     if c in hw.supported then multiset(counters)[c] else 0
    {
      SupportedMultiplicity(hw, counters, c);
      assert (multiset(Flatten(p.bins)) + multiset(p.leftover))[c] ==
             multiset(Flatten(p.bins))[c] + multiset(p.leftover)[c];
    }
  }

  // ------------------------------------------------------------------ every bin

  predicate Configured(hw: Hardware, bin: Bin) {
    0 < |bin| <= MAX_COUNTERS_PER_PROFILE && hw.create(Ids(hw, bin)).Success?
  }

  lemma {:induction false} PassConfigures(hw: Hardware, bin: Bin, counters: seq<string>)
    requires bin == [] || Configured(hw, bin)
    ensures var full := Pass(hw, bin, counters).0; full == [] || Configured(hw, full)
    decreases |counters|
  {
    if counters != [] {
      if Fits(hw, bin, counters[0]) {
        PassConfigures(hw, bin + [counters[0]], counters[1..]);
      } else {
        PassConfigures(hw, bin, counters[1..]);
      }
    }
  }

  lemma {:induction false} PassRejects(hw: Hardware, counters: seq<string>)
    requires Pass(hw, [], counters).0 == []
    ensures forall c :: c in counters ==> !Fits(hw, [], c)
    decreases |counters|
  {
    if counters != [] {
      PassKeepsAll(hw, [] + [counters[0]], counters[1..]);
      PassRejects(hw, counters[1..]);
      assert counters == [counters[0]] + counters[1..];
    }
  }

  lemma {:induction false} MultiPassConfigures(hw: Hardware, counters: seq<string>)
    ensures var p := MultiPass(hw, counters);
            && (forall b :: b in p.bins ==> Configured(hw, b))
            && (forall c :: c in p.leftover ==> !Fits(hw, [], c))
    decreases |counters|
  {
    if counters != [] {
      var (full, failed) := Pass(hw, [], counters);
      PassConfigures(hw, [], counters);
      if full == [] {
        PassKeepsAll(hw, [], counters);
        PassRejects(hw, counters);
      } else {
        MultiPassConfigures(hw, failed);
      }
    }
  }

  lemma {:induction false} SavedComeFromBins(hw: Hardware, bins: seq<Bin>)
    ensures forall q :: q in SavedProfiles(hw, bins) ==>
                          q.config != 0 && q.counterNames in bins && q == ProfileOf(hw, q.counterNames)
  {
    if bins != [] {
      SavedComeFromBins(hw, bins[1..]);
    }
  }

  /** Sum of the dimension products of the named counters. */
  function TotalSize(hw: Hardware, names: seq<string>): nat
    requires AllSupported(hw, names)
  {
    if names == [] then 0 else Product(hw.dims(hw.supported[names[0]])) + TotalSize(hw, names[1..])
  }

  lemma {:induction false} RecordCountIsTotalSize(hw: Hardware, names: seq<string>)
    requires AllSupported(hw, names)
    ensures RecordCount(hw, names) == TotalSize(hw, names)
    decreases |names|
  {
    if |names| == 1 {
      assert names[..0] == [];
    } else if names != [] {
      var head, last := names[..|names| - 1], names[|names| - 1];
      RecordCountIsTotalSize(hw, head);
      RecordCountIsTotalSize(hw, names[1..]);
      RecordCountIsTotalSize(hw, head[1..]);
      assert names[1..][..|names| - 2] == head[1..];
      assert AllSupported(hw, head[1..]);
    }
  }

  /** The counter IDs of the named counters, in order. */
  function IdList(hw: Hardware, names: seq<string>): seq<CounterId>
    requires AllSupported(hw, names)
  {
    seq(|names|, i requires 0 <= i < |names| => hw.supported[names[i]])
  }

  lemma {:induction false} IdsAreIdList(hw: Hardware, names: seq<string>)
    requires AllSupported(hw, names)
    ensures Ids(hw, names) == IdList(hw, names)
  {
    if names != [] {
      var head, last := names[..|names| - 1], names[|names| - 1];
      IdsAreIdList(hw, head);
      assert names == head + [last] && last in hw.supported;
    }
  }

  lemma {:induction false} FlattenHolds(bins: seq<Bin>, b: Bin, c: string)
    requires b in bins && c in b
    ensures c in Flatten(bins)
  {
    if b != bins[0] {
      FlattenHolds(bins[1..], b, c);
    }
  }

  lemma BinsAreSupported(hw: Hardware, counters: seq<string>, b: Bin)
    requires b in Packed(hw, counters).bins
    ensures AllSupported(hw, b)
  {
    PackingConserves(hw, counters);
    forall i | 0 <= i < |b| ensures b[i] in hw.supported {
      var bins := Packed(hw, counters).bins;
      FlattenHolds(bins, b, b[i]);
      assert b[i] in multiset(Flatten(bins));
      assert b[i] in multiset(SupportedPart(hw, counters));
    }
  }

  /** Every kept profile names between one and ten supported counters, its configuration is
      the non-zero answer to a successful request for exactly those counters, and it
      expects one record per dimension instance of each of them, up to wrap-around. */
  lemma ProfilesAreConfigured(hw: Hardware, counters: seq<string>, q: Profile)
    requires q in SavedProfiles(hw, Packed(hw, counters).bins)
    ensures 0 < |q.counterNames| <= MAX_COUNTERS_PER_PROFILE && AllSupported(hw, q.counterNames)
    ensures q.config != 0 && hw.create(IdList(hw, q.counterNames)) == Success(q.config)
    ensures q.expectedSize == TotalSize(hw, q.counterNames) % SIZE_RANGE
  {
    PackedIsMultiPass(hw, counters);
    MultiPassConfigures(hw, SupportedPart(hw, counters));
    SavedComeFromBins(hw, Packed(hw, counters).bins);
    BinsAreSupported(hw, counters, q.counterNames);
    RecordCountIsTotalSize(hw, q.counterNames);
    IdsAreIdList(hw, q.counterNames);
    assert Configured(hw, q.counterNames);
  }

  /** A counter is left over only when a profile of its own is refused. */
  lemma LeftoversFitNowhere(hw: Hardware, counters: seq<string>, c: string)
    requires c in Packed(hw, counters).leftover
    ensures !Fits(hw, [], c)
  {
    PackedIsMultiPass(hw, counters);
    MultiPassConfigures(hw, SupportedPart(hw, counters));
  }

  // ------------------------------------------------ zero handles lose counters

  ghost predicate AllHandlesNonZero(hw: Hardware, bins: seq<Bin>) {
    forall b :: b in bins ==> ConfigOf(hw, b) != 0
  }

  lemma {:induction false} SavedNames(hw: Hardware, bins: seq<Bin>)
    requires forall b :: b in bins ==> b != []
    ensures |ProfileNames(SavedProfiles(hw, bins))| <= |Flatten(bins)|
    ensures AllHandlesNonZero(hw, bins) ==>
              ProfileNames(SavedProfiles(hw, bins)) == Flatten(bins) && |SavedProfiles(hw, bins)| == |bins|
    ensures !AllHandlesNonZero(hw, bins) ==> |ProfileNames(SavedProfiles(hw, bins))| < |Flatten(bins)|
  {
    if bins != [] {
      assert bins == [bins[0]] + bins[1..];
      assert forall b :: b in bins[1..] ==> b in bins;
      SavedNames(hw, bins[1..]);
      var rest := SavedProfiles(hw, bins[1..]);
      assert ([ProfileOf(hw, bins[0])] + rest)[1..] == rest;
      assert [] + rest == rest;
    }
  }

  lemma SizesDecide(a: seq<string>, b: seq<string>, common: seq<string>)
    ensures |a| < |b| ==> multiset(a) + multiset(common) != multiset(b) + multiset(common)
  {
    assert |multiset(a) + multiset(common)| == |a| + |common|;
    assert |multiset(b) + multiset(common)| == |b| + |common|;
  }

  /** The kept profiles together with the leftovers account for every supported counter
      exactly when no bin was answered with the handle zero. */
  lemma ProfilesConserveIff(hw: Hardware, counters: seq<string>)
    ensures multiset(ProfileNames(SavedProfiles(hw, Packed(hw, counters).bins))) +
            multiset(Packed(hw, counters).leftover) == multiset(SupportedPart(hw, counters))
            <==> AllHandlesNonZero(hw, Packed(hw, counters).bins)
  {
    var p := Packed(hw, counters);
    PackedIsMultiPass(hw, counters);
    MultiPassConfigures(hw, SupportedPart(hw, counters));
    PackingConserves(hw, counters);
    SavedNames(hw, p.bins);
    SizesDecide(ProfileNames(SavedProfiles(hw, p.bins)), Flatten(p.bins), p.leftover);
  }

  /** A library that reports success with handle zero makes the packer drop a counter that
      is neither in a profile nor left over. */
  lemma ZeroHandleDropsCounter()
    ensures exists hw: Hardware, counters: seq<string> ::
              SavedProfiles(hw, Packed(hw, counters).bins) == [] && Packed(hw, counters).leftover == [] &&
              SupportedPart(hw, counters) == counters != []
  {
    var hw := Hardware(map["SQ_WAVES" := 1], ids => Success(0), id => [], id => None);
    var counters := ["SQ_WAVES"];
    assert Fits(hw, [], "SQ_WAVES");
    assert SupportedPart(hw, counters) == counters;
    assert counters[1..] == [];
    assert Packed(hw, counters) == Packing([["SQ_WAVES"]], []);
    assert SavedProfiles(hw, [["SQ_WAVES"]]) == [];
  }

  // ------------------------------------------------------------------ maximality

  /** A list of names the packer may ask the library for. */
  predicate Requested(hw: Hardware, names: Bin) {
    0 < |names| <= MAX_COUNTERS_PER_PROFILE && AllSupported(hw, names)
  }

  /** Rejection is monotone: whatever contains a refused list, in any order, is refused. */
  ghost predicate MonotoneRejection(hw: Hardware) {
    forall a: Bin, b: Bin {:trigger Ids(hw, a), Ids(hw, b)} ::
      Requested(hw, a) && Requested(hw, b) && multiset(a) <= multiset(b) ==>
      hw.create(Ids(hw, b)).Success? ==> hw.create(Ids(hw, a)).Success?
  }

  lemma RejectionPersists(hw: Hardware, bin: Bin, larger: Bin, c: string)
    requires MonotoneRejection(hw) && bin <= larger && !Fits(hw, bin, c)
    requires AllSupported(hw, larger) && c in hw.supported
    ensures !Fits(hw, larger, c)
  {
    if |larger| < MAX_COUNTERS_PER_PROFILE {
      var a, b := bin + [c], larger + [c];
      assert larger == bin + larger[|bin|..];
      assert multiset(b) == multiset(a) + multiset(larger[|bin|..]);
      assert Requested(hw, a) && Requested(hw, b);
      assert Ids(hw, a) == Ids(hw, a) && Ids(hw, b) == Ids(hw, b);
    }
  }

  lemma PartIsSupported(hw: Hardware, part: seq<string>, rest: seq<string>, whole: seq<string>)
    requires AllSupported(hw, whole) && multiset(part) + multiset(rest) == multiset(whole)
    ensures AllSupported(hw, part) && AllSupported(hw, rest)
  {
    forall c | c in part || c in rest ensures c in hw.supported {
      assert c in multiset(part) + multiset(rest);
      assert c in whole;
    }
  }

  lemma PassIsSupported(hw: Hardware, bin: Bin, counters: seq<string>)
    requires AllSupported(hw, bin) && AllSupported(hw, counters)
    ensures AllSupported(hw, Pass(hw, bin, counters).0) && AllSupported(hw, Pass(hw, bin, counters).1)
  {
    PassConserves(hw, bin, counters);
    assert multiset(bin + counters) == multiset(bin) + multiset(counters);
    PartIsSupported(hw, Pass(hw, bin, counters).0, Pass(hw, bin, counters).1, bin + counters);
  }

  ghost predicate RejectsAll(hw: Hardware, bin: Bin, counters: seq<string>) {
    forall c :: c in counters ==> !Fits(hw, bin, c)
  }

  lemma {:induction false} PassIsMaximal(hw: Hardware, bin: Bin, counters: seq<string>)
    requires MonotoneRejection(hw) && AllSupported(hw, bin) && AllSupported(hw, counters)
    ensures RejectsAll(hw, Pass(hw, bin, counters).0, Pass(hw, bin, counters).1)
    decreases |counters|
  {
    if counters != [] {
      var c := counters[0];
      if Fits(hw, bin, c) {
        PassIsMaximal(hw, bin + [c], counters[1..]);
      } else {
        PassIsMaximal(hw, bin, counters[1..]);
        PassKeepsAll(hw, bin, counters[1..]);
        PassIsSupported(hw, bin, counters[1..]);
        RejectionPersists(hw, bin, Pass(hw, bin, counters[1..]).0, c);
      }
    }
  }

  /** An earlier bin accepts no counter of a later bin and no leftover. */
  ghost predicate Maximal(hw: Hardware, p: Packing) {
    && (forall i, j, c :: 0 <= i < j < |p.bins| && c in p.bins[j] ==> !Fits(hw, p.bins[i], c))
    && (forall i, c :: 0 <= i < |p.bins| && c in p.leftover ==> !Fits(hw, p.bins[i], c))
  }

  lemma {:induction false} MultiPassIsMaximal(hw: Hardware, counters: seq<string>)
    requires MonotoneRejection(hw) && AllSupported(hw, counters)
    ensures Maximal(hw, MultiPass(hw, counters))
    decreases |counters|
  {
    if counters != [] {
      var (full, failed) := Pass(hw, [], counters);
      if full != [] {
        var rest := MultiPass(hw, failed);
        PassIsSupported(hw, [], counters);
        MultiPassIsMaximal(hw, failed);
        MultiPassConserves(hw, failed);
        PassIsMaximal(hw, [], counters);
        MaximalGrows(hw, full, failed, rest);
      }
    }
  }

  lemma MaximalGrows(hw: Hardware, full: Bin, failed: seq<string>, rest: Packing)
    requires RejectsAll(hw, full, failed) && Maximal(hw, rest)
    requires multiset(Flatten(rest.bins)) + multiset(rest.leftover) == multiset(failed)
    ensures Maximal(hw, Packing([full] + rest.bins, rest.leftover))
  {
    var bins := [full] + rest.bins;
    forall i, j, c | 0 <= i < j < |bins| && c in bins[j] ensures !Fits(hw, bins[i], c) {
      if i == 0 {
        FlattenHolds(rest.bins, rest.bins[j - 1], c);
        assert c in multiset(failed);
      }
    }
    forall i, c | 0 <= i < |bins| && c in rest.leftover ensures !Fits(hw, bins[i], c) {
      if i == 0 {
        assert c in multiset(failed);
      }
    }
  }

  /** With monotone rejection every profile is maximal. */
  lemma PackingIsMaximal(hw: Hardware, counters: seq<string>)
    requires MonotoneRejection(hw)
    ensures Maximal(hw, Packed(hw, counters))
  {
    PackedIsMultiPass(hw, counters);
    MultiPassIsMaximal(hw, SupportedPart(hw, counters));
  }

  // ------------------------------------------------------------------ profile count

  /** Every list the packer may ask for is accepted, with a usable handle. */
  ghost predicate AcceptsEverything(hw: Hardware) {
    forall bin: Bin :: Requested(hw, bin) ==> hw.create(Ids(hw, bin)).Success? && ConfigOf(hw, bin) != 0
  }

  lemma {:induction false} PassTakesTen(hw: Hardware, bin: Bin, counters: seq<string>)
    requires AcceptsEverything(hw) && |bin| <= MAX_COUNTERS_PER_PROFILE
    requires AllSupported(hw, bin) && AllSupported(hw, counters)
    ensures var room := MAX_COUNTERS_PER_PROFILE - |bin|;
            |Pass(hw, bin, counters).0| == |bin| + if |counters| <= room then |counters| else room
    decreases |counters|
  {
    if counters != [] {
      if |bin| < MAX_COUNTERS_PER_PROFILE {
        assert Requested(hw, bin + [counters[0]]);
        assert Fits(hw, bin, counters[0]);
        PassTakesTen(hw, bin + [counters[0]], counters[1..]);
      } else {
        PassTakesTen(hw, bin, counters[1..]);
      }
    }
  }

  function CeilTenth(n: nat): nat {
    (n + (MAX_COUNTERS_PER_PROFILE - 1)) / MAX_COUNTERS_PER_PROFILE
  }

  lemma {:induction false} MultiPassCount(hw: Hardware, counters: seq<string>)
    requires AcceptsEverything(hw) && AllSupported(hw, counters)
    ensures |MultiPass(hw, counters).bins| == CeilTenth(|counters|) && MultiPass(hw, counters).leftover == []
    decreases |counters|
  {
    if counters != [] {
      PassTakesTen(hw, [], counters);
      PassIsSupported(hw, [], counters);
      MultiPassCount(hw, Pass(hw, [], counters).1);
    }
  }

  lemma AllConfigured(hw: Hardware, counters: seq<string>)
    requires AcceptsEverything(hw)
    ensures AllHandlesNonZero(hw, Packed(hw, counters).bins)
    ensures forall b :: b in Packed(hw, counters).bins ==> b != []
  {
    PackedIsMultiPass(hw, counters);
    MultiPassConfigures(hw, SupportedPart(hw, counters));
    forall b | b in Packed(hw, counters).bins ensures ConfigOf(hw, b) != 0 {
      BinsAreSupported(hw, counters, b);
      assert Configured(hw, b);
      assert Requested(hw, b);
    }
  }

  /** If the library accepts everything, exactly ceil(n / 10) profiles are kept for n
      supported counters and nothing is left over. */
  lemma ProfileCountIsCeil(hw: Hardware, counters: seq<string>)
    requires AcceptsEverything(hw)
    ensures |SavedProfiles(hw, Packed(hw, counters).bins)| == CeilTenth(|SupportedPart(hw, counters)|)
    ensures Packed(hw, counters).leftover == []
  {
    PackedIsMultiPass(hw, counters);
    MultiPassCount(hw, SupportedPart(hw, counters));
    AllConfigured(hw, counters);
    SavedNames(hw, Packed(hw, counters).bins);
  }

  lemma {:induction false} CeilIsOptimal(bins: seq<Bin>)
    requires forall b :: b in bins ==> |b| <= MAX_COUNTERS_PER_PROFILE
    ensures CeilTenth(|Flatten(bins)|) <= |bins|
  {
    if bins != [] {
      CeilIsOptimal(bins[1..]);
    }
  }

  /** If the library accepts everything, the packer loses no counter and keeps the fewest
      profiles: no distribution of the supported counters over bins of at most ten has fewer. */
  lemma FewestProfiles(hw: Hardware, counters: seq<string>, bins: seq<Bin>)
    requires AcceptsEverything(hw)
    requires forall b :: b in bins ==> |b| <= MAX_COUNTERS_PER_PROFILE
    requires multiset(Flatten(bins)) == multiset(SupportedPart(hw, counters))
    ensures var profiles := SavedProfiles(hw, Packed(hw, counters).bins);
            && |profiles| <= |bins|
            && multiset(ProfileNames(profiles)) == multiset(SupportedPart(hw, counters))
  {
    ProfileCountIsCeil(hw, counters);
    CeilIsOptimal(bins);
    assert |Flatten(bins)| == |multiset(Flatten(bins))|;
    assert |SupportedPart(hw, counters)| == |multiset(SupportedPart(hw, counters))|;
    AllConfigured(hw, counters);
    ProfilesConserveIff(hw, counters);
  }
}
