/** Test statuses keyed by device, and the migration of old keys at start-up
    (pkg/testrunner/utils.go, transformRunnerStatus; pkg/testrunner/testrunner.go). */
module StatusMigration {
  import opened Wrappers

  datatype Status = Running | Completed | OtherStatus(text: string)

  type Statuses = map<string, Status>

  /** The two device ID maps built from one listing of the GPUs. */
  datatype IdMaps = IdMaps(indexToKfd: map<string, string>, kfdToIndex: map<string, string>)

  /** Every index a KFD ID leads to is a known index. */
  predicate Lockstep(maps: IdMaps) {
    forall kfd :: kfd in maps.kfdToIndex ==> maps.kfdToIndex[kfd] in maps.indexToKfd
  }

  function ListedMaps(before: IdMaps, listing: seq<(string, string)>): IdMaps {
    if listing == [] then before
    else
      var maps, last := ListedMaps(before, listing[..|listing| - 1]), listing[|listing| - 1];
      IdMaps(maps.indexToKfd[last.0 := last.1], maps.kfdToIndex[last.1 := last.0])
  }

  /** generateKFDIDMapping: both maps are extended for every listed pair of GPU index and KFD
      ID, which keeps them in lockstep. */
  method BuildIdMaps(before: IdMaps, listing: seq<(string, string)>) returns (maps: IdMaps)
    ensures maps == ListedMaps(before, listing)
    ensures Lockstep(before) ==> Lockstep(maps)
  {
    maps := before;
    for i := 0 to |listing|
      invariant maps == ListedMaps(before, listing[..i])
      invariant Lockstep(before) ==> Lockstep(maps)
    {
      var (index, kfd) := listing[i];
      assert listing[..i + 1][..i] == listing[..i];
      maps := IdMaps(maps.indexToKfd[index := kfd], maps.kfdToIndex[kfd := index]);
    }
    assert listing[..|listing|] == listing;
  }

  const NO_MAPS := IdMaps(map[], map[])

  predicate ListedIndex(listing: seq<(string, string)>, index: string) {
    exists j :: 0 <= j < |listing| && listing[j].0 == index
  }

  /** Entry j is the last one with this KFD ID. */
  predicate LastWithKfd(listing: seq<(string, string)>, j: int, kfd: string) {
    0 <= j < |listing| && listing[j].1 == kfd && forall m :: j < m < |listing| ==> listing[m].1 != kfd
  }

  /** Entry j is the last one with this GPU index. */
  predicate LastWithIndex(listing: seq<(string, string)>, j: int, index: string) {
    0 <= j < |listing| && listing[j].0 == index && forall m :: j < m < |listing| ==> listing[m].0 != index
  }

  lemma ListedIndexSnoc(head: seq<(string, string)>, last: (string, string), index: string)
    ensures ListedIndex(head + [last], index) <==> ListedIndex(head, index) || last.0 == index
  {
    var listing := head + [last];
    if j :| 0 <= j < |head| && head[j].0 == index {
      assert listing[j].0 == index;
    }
    assert listing[|head|] == last;
  }

  /** What the maps of a listing hold: each side leads to the other side of the last entry. */
  lemma {:induction false} IndexMapMeans(listing: seq<(string, string)>, index: string)
    ensures var maps := ListedMaps(NO_MAPS, listing);
            && (index in maps.indexToKfd <==> ListedIndex(listing, index))
            && (forall j :: LastWithIndex(listing, j, index) ==>
                  index in maps.indexToKfd && maps.indexToKfd[index] == listing[j].1)
  {
    if listing != [] {
      var head, n := listing[..|listing| - 1], |listing| - 1;
      IndexMapMeans(head, index);
      ListedIndexSnoc(head, listing[n], index);
      assert listing == head + [listing[n]];
      forall j | LastWithIndex(listing, j, index) && j < n ensures LastWithIndex(head, j, index) {}
    }
  }

  lemma {:induction false} KfdMapMeans(listing: seq<(string, string)>, kfd: string)
    ensures var maps := ListedMaps(NO_MAPS, listing);
            && (kfd in maps.kfdToIndex <==> exists j :: LastWithKfd(listing, j, kfd))
            && (forall j :: LastWithKfd(listing, j, kfd) ==>
                  kfd in maps.kfdToIndex && maps.kfdToIndex[kfd] == listing[j].0)
  {
    if listing != [] {
      var head, n := listing[..|listing| - 1], |listing| - 1;
      KfdMapMeans(head, kfd);
      if listing[n].1 == kfd {
        assert LastWithKfd(listing, n, kfd);
      } else {
        forall j | LastWithKfd(head, j, kfd) ensures LastWithKfd(listing, j, kfd) {}
        forall j | LastWithKfd(listing, j, kfd) ensures LastWithKfd(head, j, kfd) {}
      }
    }
  }

  // ------------------------------------------------------------- the migration

  /** The index a database key stands for under the current maps. */
  function Resolve(maps: IdMaps, id: string): Option<string> {
    if id in maps.indexToKfd then Some(id)
    else if id in maps.kfdToIndex then Some(maps.kfdToIndex[id])
    else None
  }

  function MigrateOne(maps: IdMaps, db: Statuses, to: Statuses, id: string): Statuses
    requires id in db
  {
    match Resolve(maps, id)
    case None => to
    case Some(index) => to[index := db[id]]
  }

  /** The migration when the keys are visited in the given order; a later key overwrites. */
  function Migrate(maps: IdMaps, db: Statuses, order: seq<string>): Statuses
    requires forall i :: 0 <= i < |order| ==> order[i] in db
  {
    if order == [] then map[]
    else MigrateOne(maps, db, Migrate(maps, db, order[..|order| - 1]), order[|order| - 1])
  }

  /** The order lists every key once. */
  ghost predicate Enumerates(order: seq<string>, keys: set<string>) {
    && (forall i :: 0 <= i < |order| ==> order[i] in keys)
    && (forall id :: id in keys ==> id in order)
    && (forall i, j :: 0 <= i < j < |order| ==> order[i] != order[j])
  }

  lemma EnumerateOneMore(order: seq<string>, keys: set<string>, todo: set<string>, id: string)
    requires Enumerates(order, keys - todo) && id in todo && id in keys
    ensures Enumerates(order + [id], keys - (todo - {id}))
  {
  }

  lemma MigrateOneMore(maps: IdMaps, db: Statuses, order: seq<string>, id: string)
    requires id in db && forall i :: 0 <= i < |order| ==> order[i] in db
    ensures Migrate(maps, db, order + [id]) == MigrateOne(maps, db, Migrate(maps, db, order), id)
  {
    assert (order + [id])[..|order|] == order;
  }

  /** transformRunnerStatus on the loaded statuses: Go visits a map in an arbitrary order. */
  method TransformStatus(maps: IdMaps, db: Statuses) returns (migrated: Statuses)
    ensures exists order :: Enumerates(order, db.Keys) && migrated == Migrate(maps, db, order)
    ensures forall id :: id in db && id in maps.indexToKfd ==> id in migrated
    ensures forall id :: id in db && id !in maps.indexToKfd && id in maps.kfdToIndex ==>
              maps.kfdToIndex[id] in migrated
  {
    migrated := map[];
    ghost var order: seq<string> := [];
    var todo := db.Keys;
    while todo != {}
      invariant todo <= db.Keys && Enumerates(order, db.Keys - todo)
      invariant migrated == Migrate(maps, db, order)
      decreases |todo|
    {
      var id :| id in todo;
      EnumerateOneMore(order, db.Keys, todo, id);
      MigrateOneMore(maps, db, order, id);
      if id in maps.indexToKfd {
        migrated := migrated[id := db[id]];
      } else if id in maps.kfdToIndex {
        migrated := migrated[maps.kfdToIndex[id] := db[id]];
      }
      order := order + [id];
      todo := todo - {id};
    }
    assert Enumerates(order, db.Keys);
    NoneForgotten(maps, db, order);
  }

  lemma NoneForgotten(maps: IdMaps, db: Statuses, order: seq<string>)
    requires Enumerates(order, db.Keys)
    ensures forall id :: id in db && Resolve(maps, id).Some? ==> Resolve(maps, id).value in Migrate(maps, db, order)
  {
    MigrateSound(maps, db, order);
    forall id | id in db && Resolve(maps, id).Some? ensures Resolve(maps, id).value in Migrate(maps, db, order) {
      assert id in order;
    }
  }

  /** Every migrated entry is the status of some key that resolves to it, and no key that
      resolves is forgotten. */
  lemma {:induction false} MigrateSound(maps: IdMaps, db: Statuses, order: seq<string>)
    requires forall i :: 0 <= i < |order| ==> order[i] in db
    ensures forall k :: k in Migrate(maps, db, order) ==>
              exists i :: 0 <= i < |order| && Resolve(maps, order[i]) == Some(k) &&
                          db[order[i]] == Migrate(maps, db, order)[k]
    ensures forall i :: 0 <= i < |order| && Resolve(maps, order[i]).Some? ==>
              Resolve(maps, order[i]).value in Migrate(maps, db, order)
  {
    if order != [] {
      var head, n := order[..|order| - 1], |order| - 1;
      MigrateSound(maps, db, head);
      var m := Migrate(maps, db, order);
      forall k | k in m
        ensures exists i :: 0 <= i < |order| && Resolve(maps, order[i]) == Some(k) && db[order[i]] == m[k]
      {
        if Resolve(maps, order[n]) != Some(k) {
          var i :| 0 <= i < |head| && Resolve(maps, head[i]) == Some(k) && db[head[i]] == Migrate(maps, db, head)[k];
          assert order[i] == head[i];
        }
      }
      forall i | 0 <= i < |order| && Resolve(maps, order[i]).Some? ensures Resolve(maps, order[i]).value in m {
        if i < n { assert head[i] == order[i]; }
      }
    }
  }

  // ------------------------------------------------------------- the migration in terms of the listing

  /** A database key stands for a device: it is its index, or it is no index and the last entry
      listed with it as KFD ID has that index. */
  ghost predicate StandsFor(listing: seq<(string, string)>, key: string, index: string) {
    if ListedIndex(listing, key) then index == key
    else exists j :: LastWithKfd(listing, j, key) && listing[j].0 == index
  }

  lemma ResolveMeans(listing: seq<(string, string)>, key: string, index: string)
    ensures Resolve(ListedMaps(NO_MAPS, listing), key) == Some(index) <==> StandsFor(listing, key, index)
  {
    IndexMapMeans(listing, key);
    KfdMapMeans(listing, key);
  }

  /** The migrated statuses are those of the listed devices some key stands for. */
  lemma MigratedMeans(listing: seq<(string, string)>, db: Statuses, order: seq<string>, index: string)
    requires Enumerates(order, db.Keys)
    ensures var migrated := Migrate(ListedMaps(NO_MAPS, listing), db, order);
            && (index in migrated <==> exists key :: key in db && StandsFor(listing, key, index))
            && (index in migrated ==>
                  exists key :: key in db && StandsFor(listing, key, index) && db[key] == migrated[index])
  {
    var maps := ListedMaps(NO_MAPS, listing);
    MigrateSound(maps, db, order);
    if index in Migrate(maps, db, order) {
      var i :| 0 <= i < |order| && Resolve(maps, order[i]) == Some(index) &&
               db[order[i]] == Migrate(maps, db, order)[index];
      ResolveMeans(listing, order[i], index);
    }
    if key :| key in db && StandsFor(listing, key, index) {
      ResolveMeans(listing, key, index);
      assert key in order;
    }
  }

  /** An entry kept under a listed KFD ID moves to the index of that device, and an interrupted
      test is rerun under it. */
  lemma KfdKeyIsMigrated(listing: seq<(string, string)>, db: Statuses, order: seq<string>, j: nat, kfd: string)
    requires Enumerates(order, db.Keys) && kfd in db
    requires LastWithKfd(listing, j, kfd) && !ListedIndex(listing, kfd)
    requires forall key :: key in db && StandsFor(listing, key, listing[j].0) ==> key == kfd
    ensures var migrated := Migrate(ListedMaps(NO_MAPS, listing), db, order);
            && listing[j].0 in migrated && migrated[listing[j].0] == db[kfd]
            && (db[kfd] == Running ==> listing[j].0 in RunningOf(migrated))
  {
    assert StandsFor(listing, kfd, listing[j].0);
    MigratedMeans(listing, db, order, listing[j].0);
  }

  /** The keys after the migration are listed indices; a key that is neither a listed index nor a
      listed KFD ID disappears. */
  lemma UnknownKeyDisappears(listing: seq<(string, string)>, db: Statuses, order: seq<string>, key: string)
    requires Enumerates(order, db.Keys) && !ListedIndex(listing, key)
    ensures key !in Migrate(ListedMaps(NO_MAPS, listing), db, order)
    ensures !(exists j :: LastWithKfd(listing, j, key)) ==> forall index :: !StandsFor(listing, key, index)
  {
    MigratedMeans(listing, db, order, key);
    assert forall other :: StandsFor(listing, other, key) ==> ListedIndex(listing, key);
  }

  // ------------------------------------------------------------- the expired-device sweep

  /** Entries of devices that are listed neither by index nor by KFD ID are removed. */
  function Swept(maps: IdMaps, db: Statuses): Statuses {
    map id | id in db && (id in maps.indexToKfd || id in maps.kfdToIndex) :: db[id]
  }

  function RunningOf(db: Statuses): set<string> {
    set id | id in db && db[id] == Running
  }

  /** The sweep before the keys in todo are visited. */
  ghost predicate SweepInv(maps: IdMaps, db: Statuses, todo: set<string>, swept: Statuses, ids: seq<string>) {
    && swept == (map id | id in db && (id in todo || id in Swept(maps, db)) :: db[id])
    && Enumerates(ids, set id | id in Swept(maps, db) && id !in todo && db[id] == Running)
  }

  lemma SweepStep(maps: IdMaps, db: Statuses, todo: set<string>, swept: Statuses, ids: seq<string>, id: string)
    requires SweepInv(maps, db, todo, swept, ids) && id in todo && id in db
    ensures id !in Swept(maps, db) ==> SweepInv(maps, db, todo - {id}, swept - {id}, ids)
    ensures id in Swept(maps, db) && db[id] != Running ==> SweepInv(maps, db, todo - {id}, swept, ids)
    ensures id in Swept(maps, db) && db[id] == Running ==> SweepInv(maps, db, todo - {id}, swept, ids + [id])
  {
  }

  /** The start of watchGPUState: drops entries of unknown devices and collects the devices
      whose test was interrupted. */
  method SweepAndCollect(maps: IdMaps, db: Statuses) returns (swept: Statuses, ids: seq<string>)
    ensures swept == Swept(maps, db)
    ensures Enumerates(ids, RunningOf(swept))
  {
    swept, ids := db, [];
    var todo := db.Keys;
    while todo != {}
      invariant todo <= db.Keys && SweepInv(maps, db, todo, swept, ids)
      decreases |todo|
    {
      var id :| id in todo;
      SweepStep(maps, db, todo, swept, ids, id);
      todo := todo - {id};
      if id !in maps.indexToKfd && id !in maps.kfdToIndex {
        swept := swept - {id};
      } else if db[id] == Running {
        ids := ids + [id];
      }
    }
    assert swept == Swept(maps, db);
  }

  // ------------------------------------------------------------- exactly when a restart reruns the right tests

  /** The indices of the devices that were being tested and are still known. */
  ghost function Interrupted(maps: IdMaps, db: Statuses): set<string> {
    set id | id in db && db[id] == Running && Resolve(maps, id).Some? :: Resolve(maps, id).value
  }

  /** No two keys stand for the same device while only one of them is being tested. */
  ghost predicate NoMixedCollision(maps: IdMaps, db: Statuses) {
    forall a, b :: a in db && b in db && Resolve(maps, a).Some? && Resolve(maps, a) == Resolve(maps, b) ==>
      (db[a] == Running <==> db[b] == Running)
  }

  /** After the migration every key is a known index, so migrating again changes nothing and the
      sweep removes nothing. */
  lemma {:induction false} MigratedKeysAreIndices(maps: IdMaps, db: Statuses, order: seq<string>)
    requires Lockstep(maps) && forall i :: 0 <= i < |order| ==> order[i] in db
    ensures forall k :: k in Migrate(maps, db, order) ==> k in maps.indexToKfd && Resolve(maps, k) == Some(k)
  {
    if order != [] {
      MigratedKeysAreIndices(maps, db, order[..|order| - 1]);
    }
  }

  lemma {:induction false} IndexKeysStay(maps: IdMaps, db: Statuses, order: seq<string>)
    requires forall k :: k in db ==> k in maps.indexToKfd
    requires forall i :: 0 <= i < |order| ==> order[i] in db
    ensures Migrate(maps, db, order) == map k | k in order :: db[k]
  {
    if order != [] {
      var head, last := order[..|order| - 1], order[|order| - 1];
      IndexKeysStay(maps, db, head);
      assert forall k :: k in order <==> k in head || k == last;
    }
  }

  lemma MigrationIdempotent(maps: IdMaps, db: Statuses, order: seq<string>, order': seq<string>)
    requires Lockstep(maps) && Enumerates(order, db.Keys)
    requires Enumerates(order', Migrate(maps, db, order).Keys)
    ensures Migrate(maps, Migrate(maps, db, order), order') == Migrate(maps, db, order)
    ensures Swept(maps, Migrate(maps, db, order)) == Migrate(maps, db, order)
  {
    MigratedKeysAreIndices(maps, db, order);
    IndexKeysStay(maps, Migrate(maps, db, order), order');
  }

  lemma RerunsInterrupted(maps: IdMaps, db: Statuses, order: seq<string>)
    requires Enumerates(order, db.Keys) && NoMixedCollision(maps, db)
    ensures RunningOf(Migrate(maps, db, order)) == Interrupted(maps, db)
  {
    var m := Migrate(maps, db, order);
    MigrateSound(maps, db, order);
    forall k ensures k in RunningOf(m) <==> k in Interrupted(maps, db) {
      if k in RunningOf(m) {
        var i :| 0 <= i < |order| && Resolve(maps, order[i]) == Some(k) && db[order[i]] == m[k];
        assert order[i] in db && Resolve(maps, order[i]).value == k;
      }
      if k in Interrupted(maps, db) {
        var id :| id in db && db[id] == Running && Resolve(maps, id).Some? && Resolve(maps, id).value == k;
        assert id in order;
        var i :| 0 <= i < |order| && Resolve(maps, order[i]) == Some(k) && db[order[i]] == m[k];
      }
    }
  }

  lemma {:induction false} EnumerationExists(keys: set<string>) returns (order: seq<string>)
    ensures Enumerates(order, keys)
    decreases |keys|
  {
    if keys == {} {
      order := [];
    } else {
      var id :| id in keys;
      var head := EnumerationExists(keys - {id});
      order := head + [id];
    }
  }

  lemma LastVisitedWins(maps: IdMaps, db: Statuses, b: string) returns (order: seq<string>)
    requires b in db && Resolve(maps, b).Some?
    ensures Enumerates(order, db.Keys)
    ensures var m := Migrate(maps, db, order);
            Resolve(maps, b).value in m && m[Resolve(maps, b).value] == db[b]
  {
    var head := EnumerationExists(db.Keys - {b});
    order := head + [b];
    assert order[..|head|] == head;
  }

  ghost predicate AlwaysRerunsInterrupted(maps: IdMaps, db: Statuses) {
    forall order :: Enumerates(order, db.Keys) ==> RunningOf(Migrate(maps, db, order)) == Interrupted(maps, db)
  }

  /** Whatever order the keys are visited in, a restart reruns exactly the interrupted tests of
      the devices that are still known, if and only if no two keys stand for the same device
      while only one of them is marked running. */
  lemma RerunsInterruptedIff(maps: IdMaps, db: Statuses)
    ensures AlwaysRerunsInterrupted(maps, db) <==> NoMixedCollision(maps, db)
  {
    if NoMixedCollision(maps, db) {
      forall order | Enumerates(order, db.Keys)
        ensures RunningOf(Migrate(maps, db, order)) == Interrupted(maps, db)
      {
        RerunsInterrupted(maps, db, order);
      }
    } else {
      var a, b :| a in db && b in db && Resolve(maps, a).Some? && Resolve(maps, a) == Resolve(maps, b) &&
                  db[a] == Running && db[b] != Running;
      var order := LastVisitedWins(maps, db, b);
      var k := Resolve(maps, b).value;
      assert k in Interrupted(maps, db);
      assert k !in RunningOf(Migrate(maps, db, order));
    }
  }
}
