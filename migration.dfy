/**
 * The one-off migration that folds the `users` collection into
 * `administrators`. Both snapshots are inputs; the merged records are kept
 * in a JavaScript `Map` (insertion order, one entry per id); the batch is
 * the list of writes and deletes it queues, committed as one unit. The
 * clock read of each `new Date().toISOString()` is the parameter `now`.
 */
module Migration {
  import opened JsValues

  /** A document's data: its properties by name. */
  type Record = map<string, JsValue>

  datatype Doc = Doc(id: string, data: Record)

  /** `data.key`: undefined when the property is missing. */
  function Prop(o: Record, key: string): (v: JsValue)
    ensures key !in o ==> v == Undefined
    ensures key in o ==> v == o[key]
  {
    if key in o then o[key] else Undefined
  }

  const MigrationActor: string := "system_migration"
  const DefaultRole: JsValue := Str("admin")

  /** The record an administrator, or a user with no administrator record,
      is written as: its data, with the role, `isActive` and the stamp set. */
  function Normalised(data: Record, now: string): Record
  {
    data + map["role" := Or(Prop(data, "role"), DefaultRole),
               "isActive" := Coalesce(Prop(data, "isActive"), Bool(true)),
               "updatedAt" := Str(now),
               "updatedBy" := Str(MigrationActor)]
  }

  /** A normalised record keeps every other property, replaces a falsy role
      by 'admin' and a null or undefined `isActive` by true, and carries the
      migration's stamp. */
  lemma NormalisedRecord(data: Record, now: string)
    ensures var r := Normalised(data, now);
      && r.Keys == data.Keys + {"role", "isActive", "updatedAt", "updatedBy"}
      && r["role"] == Or(Prop(data, "role"), DefaultRole) && Truthy(r["role"])
      && r["isActive"] == Coalesce(Prop(data, "isActive"), Bool(true))
      && !r["isActive"].Undefined? && !r["isActive"].Null?
      && r["updatedAt"] == Str(now) && r["updatedBy"] == Str(MigrationActor)
      && forall k :: k in data && k !in {"role", "isActive", "updatedAt", "updatedBy"} ==> r[k] == data[k]
  {
  }

  /** A user merged onto the record already held for its id. */
  function MergedRecord(existing: Record, data: Record, now: string): Record
  {
    existing + data + map["role" := Or(Or(Prop(existing, "role"), Prop(data, "role")), DefaultRole),
                          "updatedAt" := Str(now),
                          "updatedBy" := Str(MigrationActor)]
  }

  /** In a merged record the user's properties override the held ones,
      except that the role held first wins when truthy; the record carries
      the migration's stamp. */
  lemma MergedRecordProperties(existing: Record, data: Record, now: string)
    ensures var r := MergedRecord(existing, data, now);
      && r.Keys == existing.Keys + data.Keys + {"role", "updatedAt", "updatedBy"}
      && r["role"] == Or(Or(Prop(existing, "role"), Prop(data, "role")), DefaultRole) && Truthy(r["role"])
      && r["updatedAt"] == Str(now) && r["updatedBy"] == Str(MigrationActor)
      && (forall k :: k in data && k !in {"role", "updatedAt", "updatedBy"} ==> r[k] == data[k])
      && (forall k :: k in existing && k !in data && k !in {"role", "updatedAt", "updatedBy"} ==> r[k] == existing[k])
  {
  }

  /** A user merged onto an administrator keeps the administrator's role
      (defaulted to 'admin'); `isActive` is the user's when the user document
      has one, even null, and the administrator's defaulted one otherwise. */
  lemma MergeKeepsAdministratorRole(admin: Record, user: Record, now: string)
    ensures var r := MergedRecord(Normalised(admin, now), user, now);
      && r["role"] == Or(Prop(admin, "role"), DefaultRole)
      && r["isActive"] == (if "isActive" in user then user["isActive"] else Coalesce(Prop(admin, "isActive"), Bool(true)))
  {
    NormalisedRecord(admin, now);
  }

  // ------------------------------------------------------------ the Map

  /** The `mergedUsers` Map: its keys in insertion order and its entries. */
  datatype Merged = Merged(order: seq<string>, entries: map<string, Record>)

  const EmptyMap: Merged := Merged([], map[])

  predicate Distinct(s: seq<string>)
  {
    forall i, j :: 0 <= i < j < |s| ==> s[i] != s[j]
  }

  /** Each key once, in the order, and exactly the keys of the entries. */
  predicate WellFormed(m: Merged)
  {
    && Distinct(m.order)
    && (forall k :: k in m.entries ==> k in m.order)
    && (forall i :: 0 <= i < |m.order| ==> m.order[i] in m.entries)
  }

  /** `map.set(id, r)`: a new key goes last, an existing one keeps its place. */
  function SetEntry(m: Merged, id: string, r: Record): (m': Merged)
    ensures m'.entries == m.entries[id := r]
    ensures id in m.entries ==> m'.order == m.order
    ensures id !in m.entries ==> m'.order == m.order + [id]
  {
    Merged(if id in m.entries then m.order else m.order + [id], m.entries[id := r])
  }

  lemma SetEntryWellFormed(m: Merged, id: string, r: Record)
    requires WellFormed(m)
    ensures WellFormed(SetEntry(m, id, r))
  {
  }

  /** The first `forEach`: every administrator, in snapshot order. */
  function AddAdmins(m: Merged, docs: seq<Doc>, now: string): Merged
    decreases |docs|
  {
    if docs == [] then m
    else
      var d := docs[|docs| - 1];
      SetEntry(AddAdmins(m, docs[..|docs| - 1], now), d.id, Normalised(d.data, now))
  }

  /** One turn of the second `forEach`. */
  function UserStep(m: Merged, d: Doc, now: string): Merged
  {
    if d.id in m.entries then SetEntry(m, d.id, MergedRecord(m.entries[d.id], d.data, now))
    else SetEntry(m, d.id, Normalised(d.data, now))
  }

  function AddUsers(m: Merged, docs: seq<Doc>, now: string): Merged
    decreases |docs|
  {
    if docs == [] then m else UserStep(AddUsers(m, docs[..|docs| - 1], now), docs[|docs| - 1], now)
  }

  function MergeAll(admins: seq<Doc>, users: seq<Doc>, now: string): Merged
  {
    AddUsers(AddAdmins(EmptyMap, admins, now), users, now)
  }

  function Ids(docs: seq<Doc>): (s: set<string>)
    ensures forall d :: d in docs ==> d.id in s
    ensures forall k :: k in s ==> exists i :: 0 <= i < |docs| && docs[i].id == k
  {
    set i | 0 <= i < |docs| :: docs[i].id
  }

  // ------------------------------------------------------------ the batch

  datatype BatchOp = SetDoc(collection: string, id: string, data: Record) | DeleteDoc(collection: string, id: string)

  /** The `for..of` over the Map: one administrator write per entry, in
      insertion order. */
  function Writes(m: Merged): (ops: seq<BatchOp>)
    requires WellFormed(m)
    ensures |ops| == |m.order|
    ensures forall i :: 0 <= i < |m.order| ==> ops[i] == SetDoc("administrators", m.order[i], m.entries[m.order[i]])
  {
    seq(|m.order|, i requires 0 <= i < |m.order| => SetDoc("administrators", m.order[i], m.entries[m.order[i]]))
  }

  /** The last `forEach`: one delete per users document, in snapshot order. */
  function Deletes(users: seq<Doc>): (ops: seq<BatchOp>)
    ensures |ops| == |users|
    ensures forall i :: 0 <= i < |users| ==> ops[i] == DeleteDoc("users", users[i].id)
  {
    seq(|users|, i requires 0 <= i < |users| => DeleteDoc("users", users[i].id))
  }

  /** What a successful run returns, with the batch it committed. */
  datatype Report = Report(batch: seq<BatchOp>, migratedCount: nat)

  /** `migrateUsersToAdministrators`: a failed read or a failed commit is
      rethrown; otherwise the batch holds the merged writes, then the deletes,
      and the count is the size of the Map. */
  method MigrateUsersToAdministrators(usersSnapshot: Result<seq<Doc>>, adminsSnapshot: Result<seq<Doc>>,
                                      now: string, commitError: Option<string>)
    returns (outcome: Result<Report>)
    ensures usersSnapshot.Err? ==> outcome == Err(usersSnapshot.error)
    ensures usersSnapshot.Ok? && adminsSnapshot.Err? ==> outcome == Err(adminsSnapshot.error)
    ensures usersSnapshot.Ok? && adminsSnapshot.Ok? && commitError.Some? ==> outcome == Err(commitError.value)
    ensures usersSnapshot.Ok? && adminsSnapshot.Ok? && commitError.None? ==>
      var m := MergeAll(adminsSnapshot.value, usersSnapshot.value, now);
      && WellFormed(m)
      && outcome == Ok(Report(Writes(m) + Deletes(usersSnapshot.value), |m.order|))
  {
    if usersSnapshot.Err? {
      return Err(usersSnapshot.error);
    }
    if adminsSnapshot.Err? {
      return Err(adminsSnapshot.error);
    }
    var users, admins := usersSnapshot.value, adminsSnapshot.value;
    var mergedUsers := CollectAdministrators(admins, now);
    mergedUsers := MergeUsers(mergedUsers, users, now);
    MergeAllWellFormed(admins, users, now);
    var batch := QueueWrites(mergedUsers);
    batch := QueueDeletes(batch, users);
    if commitError.Some? {
      return Err(commitError.value);
    }
    return Ok(Report(batch, |mergedUsers.order|));
  }

  /** The first `forEach`: each administrator set into the Map, normalised. */
  method CollectAdministrators(admins: seq<Doc>, now: string) returns (mergedUsers: Merged)
    ensures mergedUsers == AddAdmins(EmptyMap, admins, now)
  {
    mergedUsers := EmptyMap;
    var i := 0;
    while i < |admins|
      invariant 0 <= i <= |admins|
      invariant mergedUsers == AddAdmins(EmptyMap, admins[..i], now)
    {
      assert admins[..i + 1][..i] == admins[..i];
      mergedUsers := SetEntry(mergedUsers, admins[i].id, Normalised(admins[i].data, now));
      i := i + 1;
    }
    assert admins[..i] == admins;
  }

  /** The second `forEach`: each user merged onto the entry held for its id,
      or set normalised when there is none. */
  method MergeUsers(start: Merged, users: seq<Doc>, now: string) returns (mergedUsers: Merged)
    ensures mergedUsers == AddUsers(start, users, now)
  {
    mergedUsers := start;
    var i := 0;
    while i < |users|
      invariant 0 <= i <= |users|
      invariant mergedUsers == AddUsers(start, users[..i], now)
    {
      assert users[..i + 1][..i] == users[..i];
      var userData := users[i].data;
      if users[i].id in mergedUsers.entries {
        var existingData := mergedUsers.entries[users[i].id];
        mergedUsers := SetEntry(mergedUsers, users[i].id, MergedRecord(existingData, userData, now));
      } else {
        mergedUsers := SetEntry(mergedUsers, users[i].id, Normalised(userData, now));
      }
      i := i + 1;
    }
    assert users[..i] == users;
  }

  /** The `for..of` over the Map: one `batch.set` per entry. */
  method QueueWrites(mergedUsers: Merged) returns (batch: seq<BatchOp>)
    requires WellFormed(mergedUsers)
    ensures batch == Writes(mergedUsers)
  {
    batch := [];
    var i := 0;
    while i < |mergedUsers.order|
      invariant 0 <= i <= |mergedUsers.order|
      invariant batch == Writes(mergedUsers)[..i]
    {
      var userId := mergedUsers.order[i];
      SnocPrefix(Writes(mergedUsers), i);
      batch := batch + [SetDoc("administrators", userId, mergedUsers.entries[userId])];
      i := i + 1;
    }
    WholePrefix(Writes(mergedUsers));
  }

  /** The last `forEach`: one `batch.delete` per users document. */
  method QueueDeletes(writes: seq<BatchOp>, users: seq<Doc>) returns (batch: seq<BatchOp>)
    ensures batch == writes + Deletes(users)
  {
    batch := writes;
    var i := 0;
    while i < |users|
      invariant 0 <= i <= |users|
      invariant batch == writes + Deletes(users)[..i]
    {
      SnocPrefix(Deletes(users), i);
      AppendAssociates(writes, Deletes(users)[..i], DeleteDoc("users", users[i].id));
      batch := batch + [DeleteDoc("users", users[i].id)];
      i := i + 1;
    }
    WholePrefix(Deletes(users));
  }

  lemma SnocPrefix<T>(s: seq<T>, i: nat)
    requires i < |s|
    ensures s[..i] + [s[i]] == s[..i + 1]
  {
  }

  lemma WholePrefix<T>(s: seq<T>)
    ensures s[..|s|] == s
  {
  }

  lemma AppendAssociates<T>(a: seq<T>, b: seq<T>, x: T)
    ensures a + b + [x] == a + (b + [x])
  {
  }

  // ------------------------------------------------------------ properties

  lemma {:induction false} AddAdminsWellFormed(m: Merged, docs: seq<Doc>, now: string)
    requires WellFormed(m)
    ensures WellFormed(AddAdmins(m, docs, now))
    ensures AddAdmins(m, docs, now).entries.Keys == m.entries.Keys + Ids(docs)
    decreases |docs|
  {
    if docs != [] {
      var p := docs[..|docs| - 1];
      AddAdminsWellFormed(m, p, now);
      SetEntryWellFormed(AddAdmins(m, p, now), docs[|docs| - 1].id, Normalised(docs[|docs| - 1].data, now));
      IdsOfSnoc(docs);
    }
  }

  lemma {:induction false} AddUsersWellFormed(m: Merged, docs: seq<Doc>, now: string)
    requires WellFormed(m)
    ensures WellFormed(AddUsers(m, docs, now))
    ensures AddUsers(m, docs, now).entries.Keys == m.entries.Keys + Ids(docs)
    decreases |docs|
  {
    if docs != [] {
      var p := docs[..|docs| - 1];
      AddUsersWellFormed(m, p, now);
      UserStepWellFormed(AddUsers(m, p, now), docs[|docs| - 1], now);
      IdsOfSnoc(docs);
    }
  }

  /** One users turn keeps the Map well formed and adds the user's id. */
  lemma UserStepWellFormed(before: Merged, d: Doc, now: string)
    requires WellFormed(before)
    ensures WellFormed(UserStep(before, d, now))
    ensures UserStep(before, d, now).entries.Keys == before.entries.Keys + {d.id}
  {
    if d.id in before.entries {
      SetEntryWellFormed(before, d.id, MergedRecord(before.entries[d.id], d.data, now));
    } else {
      SetEntryWellFormed(before, d.id, Normalised(d.data, now));
    }
  }

  lemma IdsOfSnoc(docs: seq<Doc>)
    requires docs != []
    ensures Ids(docs) == Ids(docs[..|docs| - 1]) + {docs[|docs| - 1].id}
  {
    var p := docs[..|docs| - 1];
    forall k | k in Ids(docs) ensures k in Ids(p) + {docs[|docs| - 1].id} {
      var i :| 0 <= i < |docs| && docs[i].id == k;
      if i < |p| { assert p[i] == docs[i]; }
    }
    forall k | k in Ids(p) ensures k in Ids(docs) {
      var i :| 0 <= i < |p| && p[i].id == k;
      assert docs[i] == p[i];
    }
  }

  /** The Map ends well formed, holding every id of either collection. */
  lemma MergeAllWellFormed(admins: seq<Doc>, users: seq<Doc>, now: string)
    ensures WellFormed(MergeAll(admins, users, now))
    ensures MergeAll(admins, users, now).entries.Keys == Ids(admins) + Ids(users)
  {
    AddAdminsWellFormed(EmptyMap, admins, now);
    AddUsersWellFormed(AddAdmins(EmptyMap, admins, now), users, now);
  }

  lemma {:induction false} DistinctCardinality(s: seq<string>)
    requires Distinct(s)
    ensures |set x | x in s| == |s|
  {
    if s != [] {
      var p := s[..|s| - 1];
      DistinctCardinality(p);
      assert (set x | x in s) == (set x | x in p) + {s[|s| - 1]};
    }
  }

  /** The count returned is the number of distinct ids across both
      collections, and there is one administrator write for each. */
  lemma MigratedCountIsDistinctIds(admins: seq<Doc>, users: seq<Doc>, now: string)
    ensures var m := MergeAll(admins, users, now);
      && WellFormed(m)
      && |m.order| == |Ids(admins) + Ids(users)|
      && |Writes(m)| == |m.order|
  {
    var m := MergeAll(admins, users, now);
    MergeAllWellFormed(admins, users, now);
    DistinctCardinality(m.order);
    assert (set x | x in m.order) == m.entries.Keys;
  }

  /** Every record the migration writes carries a truthy role and the
      migration's stamp. */
  predicate Stamped(m: Merged, now: string)
  {
    forall k :: k in m.entries ==> StampedRecord(m.entries[k], now)
  }

  lemma {:induction false} AddAdminsStamped(m: Merged, docs: seq<Doc>, now: string)
    requires Stamped(m, now)
    ensures Stamped(AddAdmins(m, docs, now), now)
    decreases |docs|
  {
    if docs != [] {
      var d := docs[|docs| - 1];
      AddAdminsStamped(m, docs[..|docs| - 1], now);
      NormalisedRecord(d.data, now);
      SetEntryStamped(AddAdmins(m, docs[..|docs| - 1], now), d.id, Normalised(d.data, now), now);
    }
  }

  lemma {:induction false} AddUsersStamped(m: Merged, docs: seq<Doc>, now: string)
    requires Stamped(m, now)
    ensures Stamped(AddUsers(m, docs, now), now)
    decreases |docs|
  {
    if docs != [] {
      AddUsersStamped(m, docs[..|docs| - 1], now);
      UserStepStamped(AddUsers(m, docs[..|docs| - 1], now), docs[|docs| - 1], now);
    }
  }

  /** A record with a truthy role and the stamp. */
  predicate StampedRecord(r: Record, now: string)
  {
    && "role" in r && Truthy(r["role"])
    && "updatedAt" in r && r["updatedAt"] == Str(now)
    && "updatedBy" in r && r["updatedBy"] == Str(MigrationActor)
  }

  lemma SetEntryStamped(m: Merged, id: string, r: Record, now: string)
    requires Stamped(m, now) && StampedRecord(r, now)
    ensures Stamped(SetEntry(m, id, r), now)
  {
  }

  lemma UserStepStamped(before: Merged, d: Doc, now: string)
    requires Stamped(before, now)
    ensures Stamped(UserStep(before, d, now), now)
  {
    if d.id in before.entries {
      MergedRecordProperties(before.entries[d.id], d.data, now);
      SetEntryStamped(before, d.id, MergedRecord(before.entries[d.id], d.data, now), now);
    } else {
      NormalisedRecord(d.data, now);
      SetEntryStamped(before, d.id, Normalised(d.data, now), now);
    }
  }

  lemma EveryWriteStamped(admins: seq<Doc>, users: seq<Doc>, now: string)
    ensures var m := MergeAll(admins, users, now);
      WellFormed(m) && forall op :: op in Writes(m) ==>
        && op.SetDoc? && op.collection == "administrators"
        && Truthy(Prop(op.data, "role")) && Prop(op.data, "updatedBy") == Str(MigrationActor)
  {
    MergeAllWellFormed(admins, users, now);
    AddAdminsStamped(EmptyMap, admins, now);
    AddUsersStamped(AddAdmins(EmptyMap, admins, now), users, now);
  }

  /** Every users document is deleted, in snapshot order, after all writes. */
  lemma EveryUserDeleted(admins: seq<Doc>, users: seq<Doc>, now: string)
    ensures var m := MergeAll(admins, users, now);
      WellFormed(m) &&
      var batch := Writes(m) + Deletes(users);
      && (forall d :: d in users ==> DeleteDoc("users", d.id) in batch)
      && (forall op :: op in batch && op.DeleteDoc? ==> op.collection == "users" && op.id in Ids(users))
  {
    var m := MergeAll(admins, users, now);
    MergeAllWellFormed(admins, users, now);
    WritesAreSets(m);
    DeletesCoverUsers(users);
  }

  lemma WritesAreSets(m: Merged)
    requires WellFormed(m)
    ensures forall op :: op in Writes(m) ==> op.SetDoc?
  {
  }

  lemma DeletesCoverUsers(users: seq<Doc>)
    ensures forall d :: d in users ==> DeleteDoc("users", d.id) in Deletes(users)
    ensures forall op :: op in Deletes(users) ==> op.DeleteDoc? && op.collection == "users" && op.id in Ids(users)
  {
    var ops := Deletes(users);
    forall d | d in users ensures DeleteDoc("users", d.id) in ops {
      var i :| 0 <= i < |users| && users[i] == d;
      assert ops[i] == DeleteDoc("users", d.id);
    }
  }

  // ---------------------------------------- the records, id by id

  predicate DistinctIds(docs: seq<Doc>)
  {
    forall i, j :: 0 <= i < j < |docs| ==> docs[i].id != docs[j].id
  }

  /** With distinct administrator ids, each administrator's record is its
      normalised data. */
  lemma {:induction false} AdminEntries(docs: seq<Doc>, now: string)
    requires DistinctIds(docs)
    ensures forall i :: 0 <= i < |docs| ==>
      docs[i].id in AddAdmins(EmptyMap, docs, now).entries
      && AddAdmins(EmptyMap, docs, now).entries[docs[i].id] == Normalised(docs[i].data, now)
    decreases |docs|
  {
    if docs != [] {
      var p := docs[..|docs| - 1];
      var d := docs[|docs| - 1];
      LastIdIsNew(docs);
      AdminEntries(p, now);
      var prev := AddAdmins(EmptyMap, p, now);
      var r := AddAdmins(EmptyMap, docs, now);
      assert r.entries == prev.entries[d.id := Normalised(d.data, now)];
      forall i | 0 <= i < |docs| ensures docs[i].id in r.entries && r.entries[docs[i].id] == Normalised(docs[i].data, now) {
        if i < |p| {
          assert p[i] == docs[i] && docs[i].id != d.id;
        }
      }
    }
  }

  /** With distinct user ids, each user's record is its data merged onto what
      the Map held for that id before the users, or its normalised data when
      nothing was held; every other entry is as before. */
  lemma {:induction false} UserEntries(m: Merged, docs: seq<Doc>, now: string)
    requires DistinctIds(docs)
    ensures UserEntriesHold(m, docs, AddUsers(m, docs, now).entries, now)
    decreases |docs|
  {
    if docs != [] {
      LastIdIsNew(docs);
      UserEntries(m, docs[..|docs| - 1], now);
      UserEntriesStep(m, docs, now);
    }
  }

  /** With distinct ids, the last document's id is not among the others'. */
  lemma LastIdIsNew(docs: seq<Doc>)
    requires DistinctIds(docs) && docs != []
    ensures DistinctIds(docs[..|docs| - 1])
    ensures docs[|docs| - 1].id !in Ids(docs[..|docs| - 1])
  {
    var p := docs[..|docs| - 1];
    forall i | 0 <= i < |p| ensures p[i] == docs[i] { }
  }

  /** The users loop's outcome, id by id, on the entries `r` it leaves. */
  predicate UserEntriesHold(m: Merged, docs: seq<Doc>, r: map<string, Record>, now: string)
  {
    && UsersRecorded(m, docs, r, now)
    && OthersKept(m, docs, r)
    && (forall k :: k in r ==> k in m.entries || k in Ids(docs))
  }

  predicate UsersRecorded(m: Merged, docs: seq<Doc>, r: map<string, Record>, now: string)
  {
    forall i :: 0 <= i < |docs| ==> docs[i].id in r && r[docs[i].id] == UserRecord(m, docs[i], now)
  }

  predicate OthersKept(m: Merged, docs: seq<Doc>, r: map<string, Record>)
  {
    forall k :: k in m.entries && k !in Ids(docs) ==> k in r && r[k] == m.entries[k]
  }

  /** The last turn of the users loop sets the last user's record. */
  lemma UserEntriesStep(m: Merged, docs: seq<Doc>, now: string)
    requires docs != []
    requires UserEntriesHold(m, docs[..|docs| - 1], AddUsers(m, docs[..|docs| - 1], now).entries, now)
    requires docs[|docs| - 1].id !in Ids(docs[..|docs| - 1])
    ensures UserEntriesHold(m, docs, AddUsers(m, docs, now).entries, now)
  {
    var d := docs[|docs| - 1];
    var prev := AddUsers(m, docs[..|docs| - 1], now).entries;
    assert d.id in prev <==> d.id in m.entries;
    assert d.id in m.entries ==> prev[d.id] == m.entries[d.id];
    assert AddUsers(m, docs, now).entries == prev[d.id := UserRecord(m, d, now)];
    IdsOfSnoc(docs);
    RecordedAfterSet(m, docs, prev, now);
    KeptAfterSet(m, docs, prev, now);
  }

  lemma RecordedAfterSet(m: Merged, docs: seq<Doc>, prev: map<string, Record>, now: string)
    requires docs != []
    requires UsersRecorded(m, docs[..|docs| - 1], prev, now)
    requires docs[|docs| - 1].id !in Ids(docs[..|docs| - 1])
    ensures UsersRecorded(m, docs, prev[docs[|docs| - 1].id := UserRecord(m, docs[|docs| - 1], now)], now)
  {
    var p, d := docs[..|docs| - 1], docs[|docs| - 1];
    var r := prev[d.id := UserRecord(m, d, now)];
    forall i | 0 <= i < |docs| ensures docs[i].id in r && r[docs[i].id] == UserRecord(m, docs[i], now) {
      if i < |p| {
        assert docs[i] == p[i] && p[i].id != d.id;
      }
    }
  }

  lemma KeptAfterSet(m: Merged, docs: seq<Doc>, prev: map<string, Record>, now: string)
    requires docs != []
    requires OthersKept(m, docs[..|docs| - 1], prev)
    requires Ids(docs) == Ids(docs[..|docs| - 1]) + {docs[|docs| - 1].id}
    ensures OthersKept(m, docs, prev[docs[|docs| - 1].id := UserRecord(m, docs[|docs| - 1], now)])
  {
  }

  /** What the users loop leaves for one user whose id is not repeated: the
      user merged onto the entry held before the loop, or normalised. */
  function UserRecord(m: Merged, d: Doc, now: string): Record
  {
    if d.id in m.entries then MergedRecord(m.entries[d.id], d.data, now) else Normalised(d.data, now)
  }

  /** The merged record of each id, for snapshots with distinct ids: an
      administrator alone keeps its normalised data, a user alone gets the
      same defaults, and an id in both has the user merged onto the
      administrator's normalised record. */
  lemma FinalRecords(admins: seq<Doc>, users: seq<Doc>, now: string)
    requires DistinctIds(admins) && DistinctIds(users)
    ensures var r := MergeAll(admins, users, now).entries;
      && (forall i :: 0 <= i < |admins| && admins[i].id !in Ids(users) ==>
            admins[i].id in r && r[admins[i].id] == Normalised(admins[i].data, now))
      && (forall j :: 0 <= j < |users| && users[j].id !in Ids(admins) ==>
            users[j].id in r && r[users[j].id] == Normalised(users[j].data, now))
      && (forall i, j :: 0 <= i < |admins| && 0 <= j < |users| && admins[i].id == users[j].id ==>
            users[j].id in r
            && r[users[j].id] == MergedRecord(Normalised(admins[i].data, now), users[j].data, now))
  {
    var a := AddAdmins(EmptyMap, admins, now);
    AddAdminsWellFormed(EmptyMap, admins, now);
    AdminEntries(admins, now);
    UserEntries(a, users, now);
    var r := MergeAll(admins, users, now).entries;
    forall j | 0 <= j < |users| && users[j].id !in Ids(admins)
      ensures users[j].id in r && r[users[j].id] == Normalised(users[j].data, now)
    {
      assert users[j].id !in a.entries;
    }
    forall i, j | 0 <= i < |admins| && 0 <= j < |users| && admins[i].id == users[j].id
      ensures users[j].id in r && r[users[j].id] == MergedRecord(Normalised(admins[i].data, now), users[j].data, now)
    {
      assert a.entries[admins[i].id] == Normalised(admins[i].data, now);
    }
  }
}
