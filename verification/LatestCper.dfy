/** The most recent CPER record of each GPU (pkg/amdgpu/gpuagent/gpuagent_gpu.go). */
module LatestCper {
  import opened Wrappers
  import Sequences

  datatype Severity = Fatal | NonFatal

  datatype CperEntry = CperEntry(recordId: string, severity: Severity, timestamp: string)

  /** The records of one GPU in a response; a GPU may occur several times. */
  datatype GpuCper = GpuCper(gpu: string, entries: seq<CperEntry>)

  /** The parser of the timestamp layout; any partial function from text to a point in time. */
  type TimeParser = string -> Option<int>

  function Timestamp(parse: TimeParser, e: CperEntry): Option<int> {
    if e.timestamp == "" then None else parse(e.timestamp)
  }

  // ------------------------------------------------------------- the specification

  type Stream = seq<(string, CperEntry)>

  function Tag(gpu: string, entries: seq<CperEntry>): Stream {
    seq(|entries|, i requires 0 <= i < |entries| => (gpu, entries[i]))
  }

  /** All records of a response in the order they are read, each with its GPU. */
  function Flatten(cpers: seq<GpuCper>): Stream {
    if cpers == [] then []
    else
      var last := cpers[|cpers| - 1];
      Flatten(cpers[..|cpers| - 1]) + Tag(last.gpu, last.entries)
  }

  function RecordsOf(stream: Stream, gpu: string): seq<CperEntry> {
    if stream == [] then []
    else
      var last := stream[|stream| - 1];
      RecordsOf(stream[..|stream| - 1], gpu) + if last.0 == gpu then [last.1] else []
  }

  predicate HasTimestamp(parse: TimeParser, records: seq<CperEntry>) {
    exists i :: 0 <= i < |records| && Timestamp(parse, records[i]).Some?
  }

  /** Index i holds the latest record: the earliest-seen one with the greatest timestamp, or
      the last-seen record when none has a timestamp. */
  ghost predicate LatestAt(parse: TimeParser, records: seq<CperEntry>, i: int) {
    && 0 <= i < |records|
    && if HasTimestamp(parse, records) then
         && Timestamp(parse, records[i]).Some?
         && forall j :: 0 <= j < |records| && Timestamp(parse, records[j]).Some? ==>
              && Timestamp(parse, records[j]).value <= Timestamp(parse, records[i]).value
              && (j < i ==> Timestamp(parse, records[j]).value < Timestamp(parse, records[i]).value)
       else i == |records| - 1
  }

  ghost predicate IsLatest(parse: TimeParser, records: seq<CperEntry>, e: CperEntry) {
    exists i :: LatestAt(parse, records, i) && records[i] == e
  }

  /** The map holds the latest record of exactly the GPUs that have records. */
  ghost predicate IsLatestPerGpu(parse: TimeParser, stream: Stream, latest: map<string, CperEntry>) {
    && (forall gpu :: gpu in latest <==> RecordsOf(stream, gpu) != [])
    && (forall gpu :: gpu in latest ==> IsLatest(parse, RecordsOf(stream, gpu), latest[gpu]))
  }

  // ------------------------------------------------------------- the fold

  /** Whether a record replaces the one kept so far. */
  predicate Replaces(parse: TimeParser, existing: CperEntry, e: CperEntry) {
    var old_, new_ := Timestamp(parse, existing), Timestamp(parse, e);
    if new_.Some? then old_.None? || new_.value > old_.value else old_.None?
  }

  lemma ReplaceKeepsLatest(parse: TimeParser, records: seq<CperEntry>, existing: CperEntry, e: CperEntry)
    requires IsLatest(parse, records, existing)
    ensures IsLatest(parse, records + [e], if Replaces(parse, existing, e) then e else existing)
  {
    var more, n := records + [e], |records|;
    var i :| LatestAt(parse, records, i) && records[i] == existing;
    assert more[n] == e && forall j :: 0 <= j < n ==> more[j] == records[j];
    assert HasTimestamp(parse, more) <==> HasTimestamp(parse, records) || Timestamp(parse, e).Some? by {
      if j :| 0 <= j < n && Timestamp(parse, records[j]).Some? {
        assert Timestamp(parse, more[j]).Some?;
      }
      assert Timestamp(parse, more[n]) == Timestamp(parse, e);
    }
    if Replaces(parse, existing, e) {
      assert LatestAt(parse, more, n);
    } else {
      assert LatestAt(parse, more, i);
    }
  }

  lemma FirstIsLatest(parse: TimeParser, e: CperEntry)
    ensures IsLatest(parse, [e], e)
  {
    assert LatestAt(parse, [e], 0);
  }

  lemma RecordsOfSnoc(stream: Stream, gpu: string, e: CperEntry, other: string)
    ensures RecordsOf(stream + [(gpu, e)], other) == RecordsOf(stream, other) + if gpu == other then [e] else []
  {
    assert (stream + [(gpu, e)])[..|stream|] == stream;
  }

  function Keep(parse: TimeParser, latest: map<string, CperEntry>, gpu: string, e: CperEntry): map<string, CperEntry> {
    if gpu !in latest || Replaces(parse, latest[gpu], e) then latest[gpu := e] else latest
  }

  lemma FoldStep(parse: TimeParser, latest: map<string, CperEntry>, stream: Stream, gpu: string, e: CperEntry)
    requires IsLatestPerGpu(parse, stream, latest)
    ensures IsLatestPerGpu(parse, stream + [(gpu, e)], Keep(parse, latest, gpu, e))
  {
    var latest', stream' := Keep(parse, latest, gpu, e), stream + [(gpu, e)];
    forall g ensures g in latest' <==> RecordsOf(stream', g) != [] {
      RecordsOfSnoc(stream, gpu, e, g);
    }
    forall g | g in latest' ensures IsLatest(parse, RecordsOf(stream', g), latest'[g]) {
      RecordsOfSnoc(stream, gpu, e, g);
      if g == gpu {
        if gpu in latest {
          ReplaceKeepsLatest(parse, RecordsOf(stream, gpu), latest[gpu], e);
        } else {
          assert RecordsOf(stream, gpu) == [];
          assert [] + [e] == [e];
          FirstIsLatest(parse, e);
        }
      } else {
        assert g in latest;
        assert RecordsOf(stream', g) == RecordsOf(stream, g) + [] == RecordsOf(stream, g);
      }
    }
  }

  lemma TagSnoc(stream: Stream, c: GpuCper, j: nat)
    requires j < |c.entries|
    ensures (stream + Tag(c.gpu, c.entries[..j])) + [(c.gpu, c.entries[j])] == stream + Tag(c.gpu, c.entries[..j + 1])
  {
  }

  lemma FlattenStep(cpers: seq<GpuCper>, k: nat)
    requires k < |cpers|
    ensures Flatten(cpers[..k + 1]) == Flatten(cpers[..k]) + Tag(cpers[k].gpu, cpers[k].entries)
  {
    assert cpers[..k + 1][..k] == cpers[..k];
  }

  /** The inner loop: folds the records of one list entry into the map. */
  method FoldEntries(parse: TimeParser, c: GpuCper, before: map<string, CperEntry>, ghost stream: Stream)
    returns (latest: map<string, CperEntry>)
    requires IsLatestPerGpu(parse, stream, before)
    ensures IsLatestPerGpu(parse, stream + Tag(c.gpu, c.entries), latest)
  {
    latest := before;
    ghost var done := stream;
    assert stream + Tag(c.gpu, c.entries[..0]) == stream;
    for j := 0 to |c.entries|
      invariant done == stream + Tag(c.gpu, c.entries[..j]) && IsLatestPerGpu(parse, done, latest)
    {
      var record := c.entries[j];
      var currentTS := Timestamp(parse, record);
      FoldStep(parse, latest, done, c.gpu, record);
      TagSnoc(stream, c, j);
      done := done + [(c.gpu, record)];
      if c.gpu !in latest {
        latest := latest[c.gpu := record];
      } else {
        var existing := Timestamp(parse, latest[c.gpu]);
        if currentTS.Some? && (existing.None? || currentTS.value > existing.value) {
          latest := latest[c.gpu := record];
        } else if currentTS.None? && existing.None? {
          latest := latest[c.gpu := record];
        }
      }
    }
    assert c.entries[..|c.entries|] == c.entries;
  }

  /** latestCPERPerGPU; the absent response gives the absent map. */
  method LatestCperPerGpu(parse: TimeParser, response: Option<seq<GpuCper>>)
    returns (latest: Option<map<string, CperEntry>>)
    ensures latest.Some? <==> response.Some?
    ensures response.Some? ==> IsLatestPerGpu(parse, Flatten(response.value), latest.value)
  {
    if response.None? {
      return None;
    }
    var cpers := response.value;
    var found: map<string, CperEntry> := map[];
    for k := 0 to |cpers|
      invariant IsLatestPerGpu(parse, Flatten(cpers[..k]), found)
    {
      FlattenStep(cpers, k);
      found := FoldEntries(parse, cpers[k], found, Flatten(cpers[..k]));
    }
    assert cpers[..|cpers|] == cpers;
    return Some(found);
  }

  // ------------------------------------------------------------- consequences

  /** The specification determines the record. */
  lemma LatestIsUnique(parse: TimeParser, records: seq<CperEntry>, a: CperEntry, b: CperEntry)
    requires IsLatest(parse, records, a) && IsLatest(parse, records, b)
    ensures a == b
  {
    var i :| LatestAt(parse, records, i) && records[i] == a;
    var j :| LatestAt(parse, records, j) && records[j] == b;
    assert HasTimestamp(parse, records) ==> i == j;
  }

  /** The result for one GPU depends on that GPU's records alone: it is the same for two
      responses that interleave other GPUs' records differently. */
  lemma InterleavingIrrelevant(parse: TimeParser, s1: Stream, s2: Stream,
                               l1: map<string, CperEntry>, l2: map<string, CperEntry>, gpu: string)
    requires IsLatestPerGpu(parse, s1, l1) && IsLatestPerGpu(parse, s2, l2)
    requires RecordsOf(s1, gpu) == RecordsOf(s2, gpu)
    ensures gpu in l1 <==> gpu in l2
    ensures gpu in l1 ==> l1[gpu] == l2[gpu]
  {
    if gpu in l1 {
      LatestIsUnique(parse, RecordsOf(s1, gpu), l1[gpu], l2[gpu]);
    }
  }

  /** A record without a readable timestamp is only a fallback: it is kept exactly when no
      record of the GPU has a timestamp. */
  lemma UntimedOnlyAsFallback(parse: TimeParser, records: seq<CperEntry>, e: CperEntry)
    requires IsLatest(parse, records, e)
    ensures Timestamp(parse, e).None? <==> !HasTimestamp(parse, records)
  {
    var i :| LatestAt(parse, records, i) && records[i] == e;
  }

  // ------------------------------------------------------------- in terms of the response

  /** The records of one GPU, list by list. */
  function EntriesOf(cpers: seq<GpuCper>, gpu: string): seq<CperEntry> {
    if cpers == [] then []
    else (if cpers[0].gpu == gpu then cpers[0].entries else []) + EntriesOf(cpers[1..], gpu)
  }

  lemma {:induction false} EntriesOfSnoc(cpers: seq<GpuCper>, gpu: string)
    requires cpers != []
    ensures var last := cpers[|cpers| - 1];
            EntriesOf(cpers, gpu) ==
            EntriesOf(cpers[..|cpers| - 1], gpu) + if last.gpu == gpu then last.entries else []
  {
    if |cpers| > 1 {
      EntriesOfSnoc(cpers[1..], gpu);
      assert cpers[1..][..|cpers| - 2] == cpers[..|cpers| - 1][1..];
    }
  }

  lemma RecordsOfSnocTagged(stream: Stream, c: GpuCper, gpu: string, n: nat)
    requires n < |c.entries|
    ensures RecordsOf(stream + Tag(c.gpu, c.entries[..n + 1]), gpu) ==
            RecordsOf(stream + Tag(c.gpu, c.entries[..n]), gpu) + if c.gpu == gpu then [c.entries[n]] else []
  {
    TagSnoc(stream, c, n);
    RecordsOfSnoc(stream + Tag(c.gpu, c.entries[..n]), c.gpu, c.entries[n], gpu);
  }

  lemma {:induction false} RecordsOfTagged(stream: Stream, c: GpuCper, gpu: string, n: nat)
    requires n <= |c.entries|
    ensures RecordsOf(stream + Tag(c.gpu, c.entries[..n]), gpu) ==
            RecordsOf(stream, gpu) + if c.gpu == gpu then c.entries[..n] else []
  {
    var records := RecordsOf(stream, gpu);
    if n == 0 {
      assert stream + Tag(c.gpu, c.entries[..0]) == stream;
    } else {
      RecordsOfTagged(stream, c, gpu, n - 1);
      RecordsOfSnocTagged(stream, c, gpu, n - 1);
      if c.gpu == gpu {
        Sequences.Regroup(records, c.entries[..n - 1], [c.entries[n - 1]]);
        assert c.entries[..n] == c.entries[..n - 1] + [c.entries[n - 1]];
      } else {
        Sequences.Regroup(records, [], []);
      }
    }
  }

  /** The fold sees every record of the response, in order. */
  lemma {:induction false} RecordsAreEntries(cpers: seq<GpuCper>, gpu: string)
    ensures RecordsOf(Flatten(cpers), gpu) == EntriesOf(cpers, gpu)
  {
    if cpers != [] {
      var head, last := cpers[..|cpers| - 1], cpers[|cpers| - 1];
      RecordsAreEntries(head, gpu);
      RecordsOfTagged(Flatten(head), last, gpu, |last.entries|);
      assert last.entries[..|last.entries|] == last.entries;
      EntriesOfSnoc(cpers, gpu);
    }
  }

  /** No record of the GPU with a readable timestamp is later than the kept one, and if there is
      one at all the kept one has a readable timestamp. */
  lemma LatestHasGreatestTime(parse: TimeParser, records: seq<CperEntry>, e: CperEntry, j: nat)
    requires IsLatest(parse, records, e) && j < |records|
    requires records[j].timestamp != "" && parse(records[j].timestamp).Some?
    ensures e in records && e.timestamp != "" && parse(e.timestamp).Some?
    ensures parse(records[j].timestamp).value <= parse(e.timestamp).value
  {
    assert Timestamp(parse, records[j]) == parse(records[j].timestamp);
  }
}
