/** The status database file and the operations on it
    (pkg/testrunner/utils.go, pkg/testrunner/testrunner.go). Each operation loads the file,
    changes the statuses and saves them; the operations are taken as atomic. */
module StatusDb {
  import opened StatusMigration
  import opened Wrappers

  datatype Trigger = AutoUnhealthyGpuWatch | Manual | PreStartJobCheck

  /** The selection of devices to test, device by device. */
  function Select(db: Statuses, ids: seq<string>, isRerun: bool): seq<string> {
    if ids == [] then []
    else
      var last := ids[|ids| - 1];
      Select(db, ids[..|ids| - 1], isRerun) + if last in db && !isRerun then [] else [last]
  }

  lemma {:induction false} SelectHolds(db: Statuses, ids: seq<string>, isRerun: bool, id: string)
    ensures id in Select(db, ids, isRerun) <==> id in ids && (isRerun || id !in db)
  {
    if ids != [] {
      SelectHolds(db, ids[..|ids| - 1], isRerun, id);
      assert ids == ids[..|ids| - 1] + [ids[|ids| - 1]];
    }
  }

  /** The selection of a longer list is that of its parts, so it keeps order and repetitions. */
  lemma {:induction false} SelectConcat(db: Statuses, a: seq<string>, b: seq<string>, isRerun: bool)
    ensures Select(db, a + b, isRerun) == Select(db, a, isRerun) + Select(db, b, isRerun)
    decreases |b|
  {
    if b == [] {
      assert a + b == a;
    } else {
      assert (a + b)[..|a + b| - 1] == a + b[..|b| - 1];
      SelectConcat(db, a, b[..|b| - 1], isRerun);
    }
  }

  /** The devices without an entry, in order; a rerun ignores the entries. */
  function ValidIds(db: Statuses, ids: seq<string>, isRerun: bool): (valid: seq<string>)
    ensures forall id :: id in valid <==> id in ids && (isRerun || id !in db)
  {
    assert forall id :: id in Select(db, ids, isRerun) <==> id in ids && (isRerun || id !in db) by {
      forall id ensures id in Select(db, ids, isRerun) <==> id in ids && (isRerun || id !in db) {
        SelectHolds(db, ids, isRerun, id);
      }
    }
    Select(db, ids, isRerun)
  }

  function MarkAll(db: Statuses, ids: seq<string>, status: Status): (r: Statuses)
    ensures forall id :: id in r <==> id in db || id in ids
    ensures forall id :: id in r ==> r[id] == if id in ids then status else db[id]
  {
    db + map id | id in ids :: status
  }

  /** Healthy devices lose their entry unless their test is still running. */
  function CleanedUp(db: Statuses, healthy: seq<string>): Statuses {
    map id | id in db && (id !in healthy || db[id] == Running) :: db[id]
  }

  lemma MarkAllStep(db: Statuses, ids: seq<string>, i: nat, status: Status)
    requires i < |ids|
    ensures MarkAll(db, ids[..i], status)[ids[i] := status] == MarkAll(db, ids[..i + 1], status)
  {
    assert ids[..i + 1] == ids[..i] + [ids[i]];
  }

  lemma CleanedUpStep(db: Statuses, healthy: seq<string>, i: nat)
    requires i < |healthy|
    ensures CleanedUp(db, healthy[..i + 1]) ==
            if healthy[i] in CleanedUp(db, healthy[..i]) && CleanedUp(db, healthy[..i])[healthy[i]] != Running
            then CleanedUp(db, healthy[..i]) - {healthy[i]} else CleanedUp(db, healthy[..i])
  {
    assert healthy[..i + 1] == healthy[..i] + [healthy[i]];
  }

  class StatusFile {
    /** The parsed file; None when it is missing or cannot be parsed. */
    var content: Option<Statuses>

    ghost function Entries(): Statuses
      reads this
    {
      if content.Some? then content.value else map[]
    }

    constructor ()
      ensures content == Some(map[])
    {
      content := Some(map[]);
    }

    /** LoadRunnerStatus. An empty status map is not written to the file, so it is read back as
        an absent map. */
    method Load() returns (status: Option<Statuses>)
      ensures status == if Entries() == map[] then None else Some(Entries())
    {
      if content.Some? && content.value != map[] {
        status := content;
      } else {
        status := None;
      }
    }

    method Save(status: Statuses)
      modifies this
      ensures content == Some(status)
    {
      content := Some(status);
    }

    method RemoveIdsWithExistingTest(ids: seq<string>, isRerun: bool) returns (validIDs: seq<string>, status: Statuses)
      ensures validIDs == ValidIds(Entries(), ids, isRerun) && status == Entries()
    {
      var loaded := Load();
      status := if loaded.Some? then loaded.value else map[];
      validIDs := [];
      for i := 0 to |ids|
        invariant validIDs == Select(status, ids[..i], isRerun)
      {
        assert ids[..i + 1][..i] == ids[..i];
        if ids[i] in status && !isRerun {
          // an earlier test of the device is on record
        } else {
          validIDs := validIDs + [ids[i]];
        }
      }
      assert ids[..|ids|] == ids;
    }

    method MarkRunning(before: Statuses, ids: seq<string>) returns (status: Statuses)
      ensures status == MarkAll(before, ids, Running)
    {
      status := before;
      for i := 0 to |ids|
        invariant status == MarkAll(before, ids[..i], Running)
      {
        MarkAllStep(before, ids, i, Running);
        status := status[ids[i] := Running];
      }
      assert ids[..|ids|] == ids;
    }

    /** The database part of testGPU up to the start of the test. No devices means all devices;
        the result lists the devices under test and is empty when no test starts. */
    method StartTest(ids: seq<string>, isRerun: bool, allIndexes: seq<string>) returns (tested: seq<string>)
      modifies this
      ensures tested == var valid := ValidIds(old(Entries()), ids, isRerun); if ids == [] then allIndexes else valid
      ensures Entries() == MarkAll(old(Entries()), tested, Running)
      ensures isRerun && ids != [] ==> tested == ids
    {
      var validIDs, status := RemoveIdsWithExistingTest(ids, isRerun);
      if isRerun {
        AllValid(Entries(), ids);
        validIDs := ids;
      }
      if |ids| > 0 && |validIDs| == 0 {
        assert MarkAll(Entries(), [], Running) == Entries();
        return [];
      }
      if |validIDs| == 0 {
        validIDs := allIndexes;
      }
      status := MarkRunning(status, validIDs);
      Save(status);
      return validIDs;
    }

    method CleanupHealthy(ids: seq<string>)
      modifies this
      ensures Entries() == CleanedUp(old(Entries()), ids)
    {
      var loaded := Load();
      var writeBack := false;
      var status: Statuses := map[];
      if loaded.Some? {
        status := loaded.value;
        assert CleanedUp(status, ids[..0]) == status;
        for i := 0 to |ids|
          invariant content == old(content) && status == CleanedUp(old(Entries()), ids[..i])
          invariant !writeBack ==> status == old(Entries())
        {
          CleanedUpStep(old(Entries()), ids, i);
          if ids[i] in status && status[ids[i]] != Running {
            status := status - {ids[i]};
            writeBack := true;
          }
        }
        assert ids[..|ids|] == ids;
      } else {
        writeBack := true;
      }
      if writeBack {
        Save(status);
      }
    }

    /** updateStatusDBAfterTestRun. Marking a device in an absent map would end the process. */
    method UpdateAfterTestRun(trigger: Trigger, ids: seq<string>, status: Status) returns (panicked: bool)
      modifies this
      ensures panicked <==> trigger == AutoUnhealthyGpuWatch && ids != [] && old(Entries()) == map[]
      ensures panicked ==> content == old(content)
      ensures !panicked && trigger == AutoUnhealthyGpuWatch ==> Entries() == MarkAll(old(Entries()), ids, status)
      ensures trigger != AutoUnhealthyGpuWatch ==>
                Entries() == map id | id in old(Entries()) && id !in ids :: old(Entries())[id]
    {
      var loaded := Load();
      var statuses := if loaded.Some? then loaded.value else map[];
      ghost var before := Entries();
      assert MarkAll(before, ids[..0], status) == before;
      for i := 0 to |ids|
        invariant content == old(content) && (i > 0 && trigger == AutoUnhealthyGpuWatch ==> loaded.Some?)
        invariant trigger == AutoUnhealthyGpuWatch ==> statuses == MarkAll(before, ids[..i], status)
        invariant trigger != AutoUnhealthyGpuWatch ==>
                    statuses == map id | id in before && id !in ids[..i] :: before[id]
      {
        assert ids[..i + 1] == ids[..i] + [ids[i]];
        match trigger
        case Manual | PreStartJobCheck =>
          statuses := statuses - {ids[i]};
        case AutoUnhealthyGpuWatch =>
          if loaded.None? {
            return true;
          }
          MarkAllStep(before, ids, i, status);
          statuses := statuses[ids[i] := status];
      }
      assert ids[..|ids|] == ids;
      Save(statuses);
      return false;
    }
  }

  lemma {:induction false} AllValid(db: Statuses, ids: seq<string>)
    ensures Select(db, ids, true) == ids
  {
    if ids != [] {
      AllValid(db, ids[..|ids| - 1]);
      assert ids == ids[..|ids| - 1] + [ids[|ids| - 1]];
    }
  }
}
