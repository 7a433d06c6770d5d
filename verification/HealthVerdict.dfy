/** The health verdict of each GPU (pkg/amdgpu/gpuagent/gpuagent_health.go). */
module HealthVerdict {
  import opened LatestCper
  import opened Wrappers

  datatype Health = Healthy | Unhealthy

  datatype GpuState = GpuState(id: string, uuid: string, health: Health, device: string, workload: seq<string>)

  /** A GPU as reported by the agent; count gives its normalized error count per ECC field. */
  datatype Gpu = Gpu(index: string, uuid: string, device: string, count: string -> real)

  datatype Event = Event(gpu: string, critical: bool)

  datatype GpuReply = GpuError | Gpus(apiStatus: int, gpus: seq<Gpu>)
  datatype EventReply = EventError | Events(apiStatus: int, events: seq<Event>)
  datatype CperReply = CperError | NotCached | Cpers(apiStatus: int, cpers: seq<GpuCper>)

  /** Everything a validation reads from outside: agent replies, configuration, workloads
      and the clock. */
  datatype Inputs = Inputs(
    workloads: string -> seq<string>,
    gpus: GpuReply,
    sriovOrSim: bool,
    eventsDisabled: bool,
    events: EventReply,
    cper: CperReply,
    threshold: string -> nat,
    maxAge: int,
    now: int,
    parse: TimeParser)

  datatype Outcome = Validated | ComputeNodeUnhealthy | ZeroGpus | AgentUnreachable

  type States = map<string, GpuState>
  type MockErrors = map<string, map<string, nat>>

  const ECC_FIELDS: seq<string> := [
    "GPU_ECC_UNCORRECT_SDMA", "GPU_ECC_UNCORRECT_GFX", "GPU_ECC_UNCORRECT_MMHUB", "GPU_ECC_UNCORRECT_ATHUB",
    "GPU_ECC_UNCORRECT_BIF", "GPU_ECC_UNCORRECT_HDP", "GPU_ECC_UNCORRECT_XGMI_WAFL", "GPU_ECC_UNCORRECT_DF",
    "GPU_ECC_UNCORRECT_SMN", "GPU_ECC_UNCORRECT_SEM", "GPU_ECC_UNCORRECT_MP0", "GPU_ECC_UNCORRECT_MP1",
    "GPU_ECC_UNCORRECT_FUSE", "GPU_ECC_UNCORRECT_UMC", "GPU_ECC_UNCORRECT_MCA", "GPU_ECC_UNCORRECT_VCN",
    "GPU_ECC_UNCORRECT_JPEG", "GPU_ECC_UNCORRECT_IH", "GPU_ECC_UNCORRECT_MPIO"]

  // ------------------------------------------------------------- the three reasons

  function MockError(mock: MockErrors, gpuid: string, field: string): nat {
    if gpuid in mock && field in mock[gpuid] then mock[gpuid][field] else 0
  }

  /** A positive mock value overrides the measured count. */
  function EffectiveCount(mock: MockErrors, gpu: Gpu, field: string): real {
    var mockVal := MockError(mock, gpu.index, field);
    if mockVal > 0 then mockVal as real else gpu.count(field)
  }

  predicate FieldExceeded(inp: Inputs, mock: MockErrors, gpu: Gpu, field: string) {
    EffectiveCount(mock, gpu, field) > inp.threshold(field) as real
  }

  predicate EccExceeded(inp: Inputs, mock: MockErrors, gpu: Gpu) {
    exists f :: 0 <= f < |ECC_FIELDS| && FieldExceeded(inp, mock, gpu, ECC_FIELDS[f])
  }

  predicate EventsUsed(inp: Inputs) {
    !inp.sriovOrSim && !inp.eventsDisabled && inp.events.Events? && inp.events.apiStatus == 0
  }

  predicate CriticalEvent(inp: Inputs, uuid: string) {
    EventsUsed(inp) && exists i :: 0 <= i < |inp.events.events| && inp.events.events[i] == Event(uuid, true)
  }

  predicate CperUsed(inp: Inputs) {
    !inp.sriovOrSim && inp.cper.Cpers? && inp.cper.apiStatus == 0
  }

  /** isFatalCPERActionable: a fatal record counts until it is older than the maximum age;
      without an age limit or a readable timestamp it always counts. */
  predicate Actionable(inp: Inputs, record: CperEntry) {
    record.severity == Fatal &&
    (inp.maxAge == 0 || Timestamp(inp.parse, record).None? ||
     inp.now - Timestamp(inp.parse, record).value <= inp.maxAge)
  }

  ghost predicate FatalCper(inp: Inputs, uuid: string) {
    CperUsed(inp) &&
    exists r :: IsLatest(inp.parse, RecordsOf(Flatten(inp.cper.cpers), uuid), r) && Actionable(inp, r)
  }

  // ------------------------------------------------------------- state after a validation

  function EccState(inp: Inputs, mock: MockErrors, gpu: Gpu): GpuState {
    GpuState(gpu.index, gpu.uuid, if EccExceeded(inp, mock, gpu) then Unhealthy else Healthy,
             gpu.device, inp.workloads(gpu.index))
  }

  function EccStates(inp: Inputs, mock: MockErrors, gpus: seq<Gpu>): States {
    if gpus == [] then map[]
    else
      var last := gpus[|gpus| - 1];
      EccStates(inp, mock, gpus[..|gpus| - 1])[last.index := EccState(inp, mock, last)]
  }

  function UuidMap(gpus: seq<Gpu>): map<string, string> {
    if gpus == [] then map[]
    else
      var last := gpus[|gpus| - 1];
      UuidMap(gpus[..|gpus| - 1])[last.uuid := last.index]
  }

  function Mark(states: States, ids: set<string>): States {
    map id | id in states :: if id in ids then states[id].(health := Unhealthy) else states[id]
  }

  function EventIds(uuids: map<string, string>, events: seq<Event>): set<string> {
    set i | 0 <= i < |events| && events[i].critical && events[i].gpu in uuids :: uuids[events[i].gpu]
  }

  ghost function CperIds(inp: Inputs, uuids: map<string, string>): set<string> {
    set u | u in uuids && FatalCper(inp, u) :: uuids[u]
  }

  ghost function MarkedIds(inp: Inputs, uuids: map<string, string>): set<string> {
    (if EventsUsed(inp) then EventIds(uuids, inp.events.events) else {}) + CperIds(inp, uuids)
  }

  /** The new health map of a successful validation. */
  ghost function NewStates(inp: Inputs, mock: MockErrors): States
    requires inp.gpus.Gpus?
  {
    var uuids := UuidMap(inp.gpus.gpus);
    Mark(EccStates(inp, mock, inp.gpus.gpus), MarkedIds(inp, uuids))
  }

  function AllUnhealthy(inp: Inputs, states: States): States {
    map id | id in states :: states[id].(health := Unhealthy, workload := inp.workloads(states[id].id))
  }

  // ------------------------------------------------------------- the loops

  method CheckFields(inp: Inputs, mock: MockErrors, gpu: Gpu) returns (health: Health)
    ensures health == if EccExceeded(inp, mock, gpu) then Unhealthy else Healthy
  {
    health := Healthy;
    for f := 0 to |ECC_FIELDS|
      invariant health == Unhealthy <==> exists k :: 0 <= k < f && FieldExceeded(inp, mock, gpu, ECC_FIELDS[k])
    {
      var field := ECC_FIELDS[f];
      var count := gpu.count(field);
      var mockVal := MockError(mock, gpu.index, field);
      if mockVal > 0 {
        count := mockVal as real;
      }
      if count > inp.threshold(field) as real {
        assert FieldExceeded(inp, mock, gpu, ECC_FIELDS[f]);
        health := Unhealthy;
      }
    }
  }

  method ProcessEccErrorMetrics(inp: Inputs, mock: MockErrors, gpus: seq<Gpu>) returns (states: States)
    ensures states == EccStates(inp, mock, gpus)
  {
    states := map[];
    for i := 0 to |gpus|
      invariant states == EccStates(inp, mock, gpus[..i])
    {
      var gpu := gpus[i];
      var health := CheckFields(inp, mock, gpu);
      assert gpus[..i + 1][..i] == gpus[..i];
      states := states[gpu.index := GpuState(gpu.index, gpu.uuid, health, gpu.device, inp.workloads(gpu.index))];
    }
    assert gpus[..|gpus|] == gpus;
  }

  method BuildUuidMap(gpus: seq<Gpu>) returns (uuids: map<string, string>)
    ensures uuids == UuidMap(gpus)
  {
    uuids := map[];
    for i := 0 to |gpus|
      invariant uuids == UuidMap(gpus[..i])
    {
      assert gpus[..i + 1][..i] == gpus[..i];
      uuids := uuids[gpus[i].uuid := gpus[i].index];
    }
    assert gpus[..|gpus|] == gpus;
  }

  lemma MarkOneMore(states: States, ids: set<string>, id: string)
    requires id in states
    ensures Mark(states, ids + {id}) == Mark(states, ids)[id := Mark(states, ids)[id].(health := Unhealthy)]
  {
  }

  lemma MarkTwice(states: States, a: set<string>, b: set<string>)
    ensures Mark(Mark(states, a), b) == Mark(states, a + b) && Mark(states, {}) == states
  {
  }

  ghost predicate Resolves(uuids: map<string, string>, states: States) {
    forall u :: u in uuids ==> uuids[u] in states
  }

  lemma EventStep(uuids: map<string, string>, events: seq<Event>, i: nat)
    requires i < |events|
    ensures EventIds(uuids, events[..i + 1]) ==
            EventIds(uuids, events[..i]) +
            if events[i].critical && events[i].gpu in uuids then {uuids[events[i].gpu]} else {}
  {
    var less, more := events[..i], events[..i + 1];
    forall id | id in EventIds(uuids, less) ensures id in EventIds(uuids, more) {
      var k :| 0 <= k < |less| && less[k].critical && less[k].gpu in uuids && uuids[less[k].gpu] == id;
      assert more[k] == less[k];
    }
    if events[i].critical && events[i].gpu in uuids {
      assert more[i] == events[i];
    }
  }

  method ApplyEvents(events: seq<Event>, uuids: map<string, string>, before: States) returns (states: States)
    requires Resolves(uuids, before)
    ensures states == Mark(before, EventIds(uuids, events))
  {
    states := before;
    MarkTwice(before, {}, {});
    for i := 0 to |events|
      invariant states == Mark(before, EventIds(uuids, events[..i]))
    {
      EventStep(uuids, events, i);
      if events[i].critical && events[i].gpu in uuids {
        var gpuid := uuids[events[i].gpu];
        MarkOneMore(before, EventIds(uuids, events[..i]), gpuid);
        states := states[gpuid := states[gpuid].(health := Unhealthy)];
      }
    }
    assert events[..|events|] == events;
  }

  ghost function ActedOn(inp: Inputs, uuids: map<string, string>, latest: map<string, CperEntry>,
                         done: set<string>): set<string>
    requires done <= latest.Keys
  {
    set u | u in done && Actionable(inp, latest[u]) && u in uuids :: uuids[u]
  }

  lemma ActedOnStep(inp: Inputs, uuids: map<string, string>, latest: map<string, CperEntry>,
                    done: set<string>, u: string)
    requires done <= latest.Keys && u in latest
    ensures ActedOn(inp, uuids, latest, done + {u}) ==
            ActedOn(inp, uuids, latest, done) + if Actionable(inp, latest[u]) && u in uuids then {uuids[u]} else {}
  {
  }

  lemma CperIdsFromLatest(inp: Inputs, uuids: map<string, string>, latest: map<string, CperEntry>)
    requires CperUsed(inp) && IsLatestPerGpu(inp.parse, Flatten(inp.cper.cpers), latest)
    ensures CperIds(inp, uuids) == ActedOn(inp, uuids, latest, latest.Keys)
  {
    forall u ensures FatalCper(inp, u) <==> u in latest && Actionable(inp, latest[u]) {
      var records := RecordsOf(Flatten(inp.cper.cpers), u);
      if FatalCper(inp, u) {
        var r :| IsLatest(inp.parse, records, r) && Actionable(inp, r);
        LatestIsUnique(inp.parse, records, r, latest[u]);
      }
    }
  }

  /** The treatment of one latest record. */
  function MarkIfFatal(inp: Inputs, uuids: map<string, string>, states: States, record: CperEntry, uuid: string): States
    requires Resolves(uuids, states)
  {
    if Actionable(inp, record) && uuid in uuids
    then states[uuids[uuid] := states[uuids[uuid]].(health := Unhealthy)]
    else states
  }

  /** The states after the latest records of the given GPUs were applied. */
  ghost predicate AppliedTo(inp: Inputs, uuids: map<string, string>, before: States, latest: map<string, CperEntry>,
                            done: set<string>, states: States)
  {
    && done <= latest.Keys && Resolves(uuids, states)
    && states == Mark(before, ActedOn(inp, uuids, latest, done))
  }

  /** Walks the latest records in an arbitrary order. */
  method MarkFatal(inp: Inputs, uuids: map<string, string>, before: States, latest: map<string, CperEntry>)
    returns (states: States)
    requires Resolves(uuids, before)
    ensures states == Mark(before, ActedOn(inp, uuids, latest, latest.Keys))
  {
    states := before;
    NothingApplied(inp, uuids, before, latest);
    var todo := latest.Keys;
    while todo != {}
      invariant todo <= latest.Keys && AppliedTo(inp, uuids, before, latest, latest.Keys - todo, states)
      decreases |todo|
    {
      var gpuuid :| gpuuid in todo;
      MarkFatalStep(inp, uuids, before, latest, latest.Keys - todo, gpuuid, states);
      states := MarkIfFatal(inp, uuids, states, latest[gpuuid], gpuuid);
      assert latest.Keys - todo + {gpuuid} == latest.Keys - (todo - {gpuuid});
      todo := todo - {gpuuid};
    }
    assert latest.Keys - todo == latest.Keys;
  }

  lemma NothingApplied(inp: Inputs, uuids: map<string, string>, before: States, latest: map<string, CperEntry>)
    requires Resolves(uuids, before)
    ensures AppliedTo(inp, uuids, before, latest, latest.Keys - latest.Keys, before)
  {
    assert ActedOn(inp, uuids, latest, latest.Keys - latest.Keys) == {};
    MarkTwice(before, {}, {});
  }

  lemma MarkFatalStep(inp: Inputs, uuids: map<string, string>, before: States, latest: map<string, CperEntry>,
                      done: set<string>, u: string, states: States)
    requires Resolves(uuids, before) && AppliedTo(inp, uuids, before, latest, done, states) && u in latest
    ensures AppliedTo(inp, uuids, before, latest, done + {u}, MarkIfFatal(inp, uuids, states, latest[u], u))
  {
    ActedOnStep(inp, uuids, latest, done, u);
    if Actionable(inp, latest[u]) && u in uuids {
      MarkOneMore(before, ActedOn(inp, uuids, latest, done), uuids[u]);
    }
  }

  /** applyCPERHealthChecks. */
  method ApplyCpers(inp: Inputs, uuids: map<string, string>, before: States) returns (states: States)
    requires Resolves(uuids, before) && !inp.sriovOrSim
    ensures states == Mark(before, CperIds(inp, uuids))
  {
    states := before;
    MarkTwice(before, {}, {});
    if inp.cper.CperError? || inp.cper.NotCached? || inp.cper.apiStatus != 0 {
      assert CperIds(inp, uuids) == {};
      return;
    }
    var result := LatestCperPerGpu(inp.parse, Some(inp.cper.cpers));
    var latest := result.value;
    CperIdsFromLatest(inp, uuids, latest);
    states := MarkFatal(inp, uuids, before, latest);
  }

  // ------------------------------------------------------------- the client

  class GpuHealthClient {
    var healthState: States
    var mockEccField: MockErrors
    var computeNodeHealthy: bool
    /** How often the connection was reset, which re-enables the profiler. */
    var connectionResets: nat

    method SetUnhealthyGpu(inp: Inputs)
      modifies this`healthState
      ensures healthState == AllUnhealthy(inp, old(healthState))
      ensures healthState.Keys == old(healthState).Keys
      ensures forall id :: id in healthState ==>
                var was, now_ := old(healthState)[id], healthState[id];
                && now_.health == Unhealthy && now_.workload == inp.workloads(was.id)
                && now_.id == was.id && now_.uuid == was.uuid && now_.device == was.device
    {
      var todo := healthState.Keys;
      while todo != {}
        invariant todo <= old(healthState).Keys == healthState.Keys
        invariant forall id :: id in healthState ==>
                    healthState[id] ==
                    if id in todo then old(healthState)[id] else AllUnhealthy(inp, old(healthState))[id]
        decreases |todo|
      {
        var id :| id in todo;
        var state := healthState[id];
        healthState := healthState[id := state.(health := Unhealthy, workload := inp.workloads(state.id))];
        todo := todo - {id};
      }
    }

    /** processHealthValidation. */
    method ProcessHealthValidation(inp: Inputs) returns (outcome: Outcome)
      modifies this`healthState, this`connectionResets
      ensures outcome == Validated <==> ValidationSucceeds(inp, computeNodeHealthy)
      ensures outcome == Validated ==> healthState == NewStates(inp, mockEccField)
      ensures outcome != Validated ==> healthState == AllUnhealthy(inp, old(healthState))
      ensures outcome != Validated ==>
                && healthState.Keys == old(healthState).Keys
                && forall id :: id in healthState ==> healthState[id].health == Unhealthy
      ensures outcome == ComputeNodeUnhealthy <==> !computeNodeHealthy
      ensures outcome == AgentUnreachable <==>
              computeNodeHealthy && (inp.gpus.GpuError? || inp.gpus.apiStatus != 0)
      ensures outcome == ZeroGpus <==>
              computeNodeHealthy && inp.gpus.Gpus? && inp.gpus.apiStatus == 0 && inp.gpus.gpus == []
      ensures connectionResets == old(connectionResets) + if outcome == AgentUnreachable then 1 else 0
    {
      if !computeNodeHealthy {
        SetUnhealthyGpu(inp);
        return ComputeNodeUnhealthy;
      }
      if inp.gpus.GpuError? || inp.gpus.apiStatus != 0 {
        connectionResets := connectionResets + 1;
        SetUnhealthyGpu(inp);
        return AgentUnreachable;
      }
      var gpus := inp.gpus.gpus;
      if |gpus| == 0 {
        SetUnhealthyGpu(inp);
        return ZeroGpus;
      }
      var states := ProcessEccErrorMetrics(inp, mockEccField, gpus);
      var uuids := BuildUuidMap(gpus);
      ghost var base := states;
      UuidMapResolves(inp, mockEccField, gpus);
      MarkTwice(base, {}, {});
      ghost var byEvents: set<string> := {};
      if !inp.sriovOrSim {
        if !inp.eventsDisabled {
          if inp.events.EventError? || inp.events.apiStatus != 0 {
            // event errors are ignored
          } else {
            states := ApplyEvents(inp.events.events, uuids, states);
            byEvents := EventIds(uuids, inp.events.events);
          }
        }
        assert states == Mark(base, byEvents);
        MarkTwice(base, byEvents, CperIds(inp, uuids));
        states := ApplyCpers(inp, uuids, states);
      } else {
        assert CperIds(inp, uuids) == {};
      }
      healthState := states;
      return Validated;
    }
  }

  predicate ValidationSucceeds(inp: Inputs, computeNodeHealthy: bool) {
    computeNodeHealthy && inp.gpus.Gpus? && inp.gpus.apiStatus == 0 && inp.gpus.gpus != []
  }

  lemma {:induction false} UuidMapResolves(inp: Inputs, mock: MockErrors, gpus: seq<Gpu>)
    ensures Resolves(UuidMap(gpus), EccStates(inp, mock, gpus))
  {
    if gpus != [] {
      UuidMapResolves(inp, mock, gpus[..|gpus| - 1]);
    }
  }

  // ------------------------------------------------------------- the verdict

  predicate LastWithIndex(gpus: seq<Gpu>, i: nat) {
    i < |gpus| && forall j :: i < j < |gpus| ==> gpus[j].index != gpus[i].index
  }

  predicate LastWithUuid(gpus: seq<Gpu>, i: nat) {
    i < |gpus| && forall j :: i < j < |gpus| ==> gpus[j].uuid != gpus[i].uuid
  }

  lemma {:induction false} EccOfLast(inp: Inputs, mock: MockErrors, gpus: seq<Gpu>, i: nat)
    requires LastWithIndex(gpus, i)
    ensures gpus[i].index in EccStates(inp, mock, gpus)
    ensures EccStates(inp, mock, gpus)[gpus[i].index] == EccState(inp, mock, gpus[i])
  {
    if i < |gpus| - 1 {
      EccOfLast(inp, mock, gpus[..|gpus| - 1], i);
    }
  }

  lemma {:induction false} UuidOfLast(gpus: seq<Gpu>, i: nat)
    requires LastWithUuid(gpus, i)
    ensures gpus[i].uuid in UuidMap(gpus) && UuidMap(gpus)[gpus[i].uuid] == gpus[i].index
  {
    if i < |gpus| - 1 {
      UuidOfLast(gpus[..|gpus| - 1], i);
    }
  }

  lemma {:induction false} LastOfUuid(gpus: seq<Gpu>, uuid: string) returns (i: nat)
    requires uuid in UuidMap(gpus)
    ensures LastWithUuid(gpus, i) && gpus[i].uuid == uuid
  {
    var n := |gpus| - 1;
    if gpus[n].uuid == uuid {
      i := n;
    } else {
      i := LastOfUuid(gpus[..n], uuid);
    }
  }

  lemma {:induction false} OnlyReportedGpus(inp: Inputs, mock: MockErrors, gpus: seq<Gpu>)
    ensures forall id :: id in EccStates(inp, mock, gpus) <==> exists i :: 0 <= i < |gpus| && gpus[i].index == id
  {
    if gpus != [] {
      var head := gpus[..|gpus| - 1];
      OnlyReportedGpus(inp, mock, head);
      forall id | id in EccStates(inp, mock, head) ensures exists i :: 0 <= i < |gpus| && gpus[i].index == id {
        var i :| 0 <= i < |head| && head[i].index == id;
        assert gpus[i].index == id;
      }
      forall i | 0 <= i < |gpus| ensures gpus[i].index in EccStates(inp, mock, gpus) {
        if i < |head| { assert head[i].index == gpus[i].index; }
      }
    }
  }

  /** A fetched critical event or the latest CPER record condemns the GPU of this UUID. */
  ghost predicate Condemned(inp: Inputs, uuid: string) {
    CriticalEvent(inp, uuid) || FatalCper(inp, uuid)
  }

  /** An entry marked by an event or a record: some GPU of that index, the last one of its
      UUID, is condemned. */
  ghost predicate CondemnedIndex(inp: Inputs, gpus: seq<Gpu>, index: string) {
    exists k: nat :: LastWithUuid(gpus, k) && gpus[k].index == index && Condemned(inp, gpus[k].uuid)
  }

  lemma MarkedIff(inp: Inputs, uuids: map<string, string>, id: string)
    ensures id in MarkedIds(inp, uuids) <==> exists u :: u in uuids && uuids[u] == id && Condemned(inp, u)
  {
    if EventsUsed(inp) {
      var events := inp.events.events;
      if id in EventIds(uuids, events) {
        var k :| 0 <= k < |events| && events[k].critical && events[k].gpu in uuids && uuids[events[k].gpu] == id;
        assert events[k] == Event(events[k].gpu, true);
        assert Condemned(inp, events[k].gpu);
      }
      forall u | u in uuids && uuids[u] == id && CriticalEvent(inp, u) ensures id in EventIds(uuids, events) {
        var k :| 0 <= k < |events| && events[k] == Event(u, true);
        assert uuids[events[k].gpu] == id;
      }
    }
  }

  lemma CondemnedIff(inp: Inputs, gpus: seq<Gpu>, id: string)
    ensures id in MarkedIds(inp, UuidMap(gpus)) <==> CondemnedIndex(inp, gpus, id)
  {
    var uuids := UuidMap(gpus);
    MarkedIff(inp, uuids, id);
    forall u | u in uuids && uuids[u] == id && Condemned(inp, u) ensures CondemnedIndex(inp, gpus, id) {
      var k := LastOfUuid(gpus, u);
      UuidOfLast(gpus, k);
    }
    forall k: nat | LastWithUuid(gpus, k) && gpus[k].index == id && Condemned(inp, gpus[k].uuid)
      ensures gpus[k].uuid in uuids && uuids[gpus[k].uuid] == id
    {
      UuidOfLast(gpus, k);
    }
  }

  ghost predicate ShownUnhealthy(inp: Inputs, mock: MockErrors, index: string)
    requires inp.gpus.Gpus?
  {
    index in NewStates(inp, mock) && NewStates(inp, mock)[index].health == Unhealthy
  }

  /** The verdict for every reply, repeated indices and UUIDs included: an entry is unhealthy
      if and only if the ECC counts of the last GPU reported with that index exceed a
      threshold, or a GPU of that index that is the last one of its UUID is condemned. */
  lemma Verdict(inp: Inputs, mock: MockErrors, i: nat)
    requires inp.gpus.Gpus? && LastWithIndex(inp.gpus.gpus, i)
    ensures var gpu := inp.gpus.gpus[i];
            && gpu.index in NewStates(inp, mock)
            && (ShownUnhealthy(inp, mock, gpu.index) <==>
                EccExceeded(inp, mock, gpu) || CondemnedIndex(inp, inp.gpus.gpus, gpu.index))
  {
    var gpus := inp.gpus.gpus;
    EccOfLast(inp, mock, gpus, i);
    CondemnedIff(inp, gpus, gpus[i].index);
    assert NewStates(inp, mock) == Mark(EccStates(inp, mock, gpus), MarkedIds(inp, UuidMap(gpus)));
  }

  predicate DistinctGpus(gpus: seq<Gpu>) {
    forall i, j :: 0 <= i < j < |gpus| ==> gpus[i].index != gpus[j].index && gpus[i].uuid != gpus[j].uuid
  }

  /** The entry of the i-th reported GPU is unhealthy if and only if one of its own three
      reasons holds. */
  ghost predicate OwnVerdict(inp: Inputs, mock: MockErrors, i: nat)
    requires inp.gpus.Gpus? && i < |inp.gpus.gpus|
  {
    var gpu := inp.gpus.gpus[i];
    ShownUnhealthy(inp, mock, gpu.index) <==>
    EccExceeded(inp, mock, gpu) || CriticalEvent(inp, gpu.uuid) || FatalCper(inp, gpu.uuid)
  }

  /** When the reported GPUs have distinct indices and UUIDs, each is unhealthy if and only if
      an effective ECC count exceeds its threshold, a fetched critical event names it, or its
      latest CPER record is fatal and still actionable. */
  lemma UnhealthyIff(inp: Inputs, mock: MockErrors, i: nat)
    requires inp.gpus.Gpus? && DistinctGpus(inp.gpus.gpus) && i < |inp.gpus.gpus|
    ensures inp.gpus.gpus[i].index in NewStates(inp, mock) && OwnVerdict(inp, mock, i)
  {
    var gpus := inp.gpus.gpus;
    assert LastWithIndex(gpus, i) && LastWithUuid(gpus, i);
    Verdict(inp, mock, i);
    forall k: nat | k < |gpus| && gpus[k].index == gpus[i].index ensures k == i {}
    assert CondemnedIndex(inp, gpus, gpus[i].index) <==> Condemned(inp, gpus[i].uuid);
  }

  // ------------------------------------------------------------- the verdict in terms of the replies

  /** Some count, overridden by a positive mock value, is above its threshold. */
  predicate EccReason(inp: Inputs, mock: MockErrors, gpu: Gpu) {
    exists f :: 0 <= f < 19 &&
                var field := ECC_FIELDS[f];
                if gpu.index in mock && field in mock[gpu.index] && mock[gpu.index][field] > 0
                then mock[gpu.index][field] > inp.threshold(field)
                else gpu.count(field) > inp.threshold(field) as real
  }

  lemma EccExceededMeans(inp: Inputs, mock: MockErrors, gpu: Gpu)
    ensures EccExceeded(inp, mock, gpu) <==> EccReason(inp, mock, gpu)
  {
    if EccExceeded(inp, mock, gpu) {
      var f :| 0 <= f < |ECC_FIELDS| && FieldExceeded(inp, mock, gpu, ECC_FIELDS[f]);
      var field := ECC_FIELDS[f];
      assert if gpu.index in mock && field in mock[gpu.index] && mock[gpu.index][field] > 0
             then mock[gpu.index][field] > inp.threshold(field)
             else gpu.count(field) > inp.threshold(field) as real;
    }
    if EccReason(inp, mock, gpu) {
      var f :| 0 <= f < 19 &&
               var field := ECC_FIELDS[f];
               if gpu.index in mock && field in mock[gpu.index] && mock[gpu.index][field] > 0
               then mock[gpu.index][field] > inp.threshold(field)
               else gpu.count(field) > inp.threshold(field) as real;
      assert FieldExceeded(inp, mock, gpu, ECC_FIELDS[f]);
    }
  }

  /** A critical event names the GPU in a usable reply. */
  predicate EventReason(inp: Inputs, uuid: string) {
    && !inp.sriovOrSim && !inp.eventsDisabled && inp.events.Events? && inp.events.apiStatus == 0
    && exists k :: 0 <= k < |inp.events.events| && inp.events.events[k].critical && inp.events.events[k].gpu == uuid
  }

  lemma CriticalEventMeans(inp: Inputs, uuid: string)
    ensures CriticalEvent(inp, uuid) <==> EventReason(inp, uuid)
  {
    if EventReason(inp, uuid) {
      var k :| 0 <= k < |inp.events.events| && inp.events.events[k].critical && inp.events.events[k].gpu == uuid;
      assert inp.events.events[k] == Event(uuid, true);
    }
  }

  /** A fatal record blames its GPU for the maximum age; without an age limit or a readable
      timestamp it does so for ever. */
  predicate Blames(inp: Inputs, record: CperEntry) {
    && record.severity == Fatal
    && (record.timestamp != "" && inp.parse(record.timestamp).Some? && inp.maxAge != 0 ==>
          inp.now <= inp.parse(record.timestamp).value + inp.maxAge)
  }

  /** The latest record of the GPU in a usable reply blames it. */
  ghost predicate CperReason(inp: Inputs, uuid: string) {
    && !inp.sriovOrSim && inp.cper.Cpers? && inp.cper.apiStatus == 0
    && exists r :: IsLatest(inp.parse, EntriesOf(inp.cper.cpers, uuid), r) && Blames(inp, r)
  }

  lemma FatalCperMeans(inp: Inputs, uuid: string)
    ensures FatalCper(inp, uuid) <==> CperReason(inp, uuid)
  {
    if inp.cper.Cpers? {
      RecordsAreEntries(inp.cper.cpers, uuid);
    }
    assert forall r :: Actionable(inp, r) <==> Blames(inp, r);
  }

  /** The verdict on the replies themselves: with distinct indices and UUIDs a reported GPU is
      unhealthy if and only if a count, an event or its latest record is a reason. */
  lemma VerdictOnReplies(inp: Inputs, mock: MockErrors, i: nat)
    requires inp.gpus.Gpus? && DistinctGpus(inp.gpus.gpus) && i < |inp.gpus.gpus|
    ensures var gpu := inp.gpus.gpus[i];
            ShownUnhealthy(inp, mock, gpu.index) <==>
            EccReason(inp, mock, gpu) || EventReason(inp, gpu.uuid) || CperReason(inp, gpu.uuid)
  {
    var gpu := inp.gpus.gpus[i];
    UnhealthyIff(inp, mock, i);
    EccExceededMeans(inp, mock, gpu);
    CriticalEventMeans(inp, gpu.uuid);
    FatalCperMeans(inp, gpu.uuid);
  }

  /** Without another reason the latest record decides: a fatal one counts as long as it is not
      older than the maximum age, for ever without an age limit or a readable timestamp, and a
      non-fatal one never counts. */
  lemma LatestRecordDecides(inp: Inputs, mock: MockErrors, i: nat, r: CperEntry)
    requires inp.gpus.Gpus? && DistinctGpus(inp.gpus.gpus) && i < |inp.gpus.gpus|
    requires !EccReason(inp, mock, inp.gpus.gpus[i]) && !EventReason(inp, inp.gpus.gpus[i].uuid)
    requires !inp.sriovOrSim && inp.cper.Cpers? && inp.cper.apiStatus == 0
    requires IsLatest(inp.parse, EntriesOf(inp.cper.cpers, inp.gpus.gpus[i].uuid), r)
    ensures r.timestamp != "" && inp.parse(r.timestamp).Some? ==>
              (ShownUnhealthy(inp, mock, inp.gpus.gpus[i].index) <==>
               r.severity == Fatal &&
               (inp.maxAge == 0 || inp.now <= inp.parse(r.timestamp).value + inp.maxAge))
    ensures r.timestamp == "" || inp.parse(r.timestamp).None? ==>
              (ShownUnhealthy(inp, mock, inp.gpus.gpus[i].index) <==> r.severity == Fatal)
  {
    var records := EntriesOf(inp.cper.cpers, inp.gpus.gpus[i].uuid);
    VerdictOnReplies(inp, mock, i);
    forall other | IsLatest(inp.parse, records, other) ensures other == r {
      LatestIsUnique(inp.parse, records, other, r);
    }
    assert CperReason(inp, inp.gpus.gpus[i].uuid) <==> Blames(inp, r);
  }

  /** The other fields of an entry are those of the last GPU reported with its index. */
  lemma ReportedState(inp: Inputs, mock: MockErrors, i: nat)
    requires inp.gpus.Gpus? && LastWithIndex(inp.gpus.gpus, i)
    ensures var gpu := inp.gpus.gpus[i];
            && gpu.index in NewStates(inp, mock)
            && var state := NewStates(inp, mock)[gpu.index];
               && state.id == gpu.index && state.uuid == gpu.uuid && state.device == gpu.device
               && state.workload == inp.workloads(gpu.index)
  {
    EccOfLast(inp, mock, inp.gpus.gpus, i);
  }

  // ------------------------------------------------------------- when each GPU gets its own verdict

  /** The index and the UUID of one reported GPU. */
  datatype GpuId = GpuId(index: string, uuid: string)

  predicate Reports(gpus: seq<Gpu>, ids: seq<GpuId>) {
    |gpus| == |ids| && forall i :: 0 <= i < |ids| ==> gpus[i].index == ids[i].index && gpus[i].uuid == ids[i].uuid
  }

  ghost predicate SuccessfulReply(inp: Inputs, ids: seq<GpuId>) {
    inp.gpus.Gpus? && inp.gpus.apiStatus == 0 && Reports(inp.gpus.gpus, ids)
  }

  predicate DistinctIndices(ids: seq<GpuId>) {
    forall i, j :: 0 <= i < j < |ids| ==> ids[i].index != ids[j].index
  }

  predicate DistinctUuids(ids: seq<GpuId>) {
    forall i, j :: 0 <= i < j < |ids| ==> ids[i].uuid != ids[j].uuid
  }

  /** GPUs with these identities of which only the given one has ECC errors. */
  function Sample(ids: seq<GpuId>, faulty: int): (gpus: seq<Gpu>)
    ensures Reports(gpus, ids)
    ensures forall i :: 0 <= i < |ids| ==> gpus[i].count == SampleCount(i == faulty)
  {
    seq(|ids|, i requires 0 <= i < |ids| => Gpu(ids[i].index, ids[i].uuid, "", SampleCount(i == faulty)))
  }

  function SampleCount(faulty: bool): string -> real {
    f => if faulty then 1.0 else 0.0
  }

  function SampleInputs(gpus: seq<Gpu>, events: seq<Event>): Inputs {
    Inputs(id => [], Gpus(0, gpus), false, false, Events(0, events), NotCached, f => 0, 0, 0, s => None)
  }

  lemma SampleEcc(ids: seq<GpuId>, faulty: int, events: seq<Event>, i: nat)
    requires i < |ids|
    ensures var gpus := Sample(ids, faulty);
            EccExceeded(SampleInputs(gpus, events), map[], gpus[i]) <==> i == faulty
  {
    var gpus := Sample(ids, faulty);
    var inp := SampleInputs(gpus, events);
    assert FieldExceeded(inp, map[], gpus[i], ECC_FIELDS[0]) <==> i == faulty;
    assert forall f :: 0 <= f < |ECC_FIELDS| && FieldExceeded(inp, map[], gpus[i], ECC_FIELDS[f]) ==> i == faulty;
  }

  lemma LastOfIndex(gpus: seq<Gpu>, i: nat) returns (k: nat)
    requires i < |gpus|
    ensures LastWithIndex(gpus, k) && gpus[k].index == gpus[i].index && k >= i
    decreases |gpus| - i
  {
    k := i;
    if !LastWithIndex(gpus, i) {
      var j :| i < j < |gpus| && gpus[j].index == gpus[i].index;
      k := LastOfIndex(gpus, j);
    }
  }

  /** For any repeated index there are counts with which the ECC error of the earlier GPU is
      forgotten. */
  lemma DuplicateIndexHidesError(ids: seq<GpuId>, i: nat, j: nat) returns (inp: Inputs)
    requires i < j < |ids| && ids[i].index == ids[j].index
    ensures SuccessfulReply(inp, ids)
    ensures EccExceeded(inp, map[], inp.gpus.gpus[i]) && !ShownUnhealthy(inp, map[], ids[i].index)
  {
    var gpus := Sample(ids, i);
    inp := SampleInputs(gpus, []);
    var k := LastOfIndex(gpus, j);
    SampleEcc(ids, i, [], i);
    SampleEcc(ids, i, [], k);
    Verdict(inp, map[], k);
    assert forall u :: !Condemned(inp, u);
  }

  /** For any UUID repeated under another index a critical event spares the earlier GPU. */
  lemma DuplicateUuidHidesEvent(ids: seq<GpuId>, i: nat, j: nat) returns (inp: Inputs)
    requires i < j < |ids| && ids[i].uuid == ids[j].uuid && DistinctIndices(ids)
    ensures SuccessfulReply(inp, ids)
    ensures CriticalEvent(inp, ids[i].uuid) && !ShownUnhealthy(inp, map[], ids[i].index)
  {
    var gpus, events := Sample(ids, -1), [Event(ids[i].uuid, true)];
    inp := SampleInputs(gpus, events);
    SampleEcc(ids, -1, events, i);
    assert inp.events.events[0] == Event(ids[i].uuid, true);
    assert !LastWithUuid(gpus, i);
    Verdict(inp, map[], i);
  }

  /** For a list of reported identities: whatever the counts, events and records, every
      reported GPU's own ECC error shows, if and only if the indices are distinct. */
  lemma EccErrorsShowIff(ids: seq<GpuId>)
    ensures (forall inp: Inputs, mock: MockErrors, i: nat ::
               SuccessfulReply(inp, ids) && i < |ids| && EccExceeded(inp, mock, inp.gpus.gpus[i]) ==>
               ShownUnhealthy(inp, mock, ids[i].index))
            <==> DistinctIndices(ids)
  {
    if DistinctIndices(ids) {
      forall inp: Inputs, mock: MockErrors, i: nat |
        SuccessfulReply(inp, ids) && i < |ids| && EccExceeded(inp, mock, inp.gpus.gpus[i])
        ensures ShownUnhealthy(inp, mock, ids[i].index)
      {
        Verdict(inp, mock, i);
      }
    } else {
      var i, j :| 0 <= i < j < |ids| && ids[i].index == ids[j].index;
      var inp := DuplicateIndexHidesError(ids, i, j);
    }
  }

  /** Whatever the counts, events and records, every reported GPU gets exactly its own verdict
      if and only if the indices and the UUIDs are distinct. */
  lemma OwnVerdictIff(ids: seq<GpuId>)
    ensures (forall inp: Inputs, mock: MockErrors, i: nat ::
               SuccessfulReply(inp, ids) && i < |ids| ==> OwnVerdict(inp, mock, i))
            <==> DistinctIndices(ids) && DistinctUuids(ids)
  {
    if DistinctIndices(ids) && DistinctUuids(ids) {
      forall inp: Inputs, mock: MockErrors, i: nat | SuccessfulReply(inp, ids) && i < |ids|
        ensures OwnVerdict(inp, mock, i)
      {
        UnhealthyIff(inp, mock, i);
      }
    } else if !DistinctIndices(ids) {
      var i, j :| 0 <= i < j < |ids| && ids[i].index == ids[j].index;
      var inp := DuplicateIndexHidesError(ids, i, j);
      assert !OwnVerdict(inp, map[], i);
    } else {
      var i, j :| 0 <= i < j < |ids| && ids[i].uuid == ids[j].uuid;
      var inp := DuplicateUuidHidesEvent(ids, i, j);
      assert !OwnVerdict(inp, map[], i);
    }
  }

  /** The set of GPUs after a successful validation is the reported one. */
  lemma ExactlyReportedGpus(inp: Inputs, mock: MockErrors, id: string)
    requires inp.gpus.Gpus?
    ensures id in NewStates(inp, mock) <==> exists i :: 0 <= i < |inp.gpus.gpus| && inp.gpus.gpus[i].index == id
  {
    OnlyReportedGpus(inp, mock, inp.gpus.gpus);
  }
}
