/** The offline-sync engine: a client uploads tasks, expenses, daily journals
    and reflections in one batch; each record is upserted into the caller's
    data with last-write-wins conflict resolution, and a download reports how
    many rows of each kind the caller owns.

    A stored table is a map from record id to `Row`.  A client timestamp is
    an `Option<int>` (absent, or a point on one clock shared with the server);
    the server's write time is the parameter `now`. */
module SyncEngine {
  import opened Wrappers

  /** The four kinds a batch can carry, in the order they are processed. */
  datatype Kind = TaskKind | ExpenseKind | JournalKind | ReflectionKind

  /** Why an upload is refused, with the HTTP status the endpoint answers. */
  datatype SyncError =
    | TooManyItems                               // 400: more than 1000 records
    | ForeignDeclaredOwner                       // 403: a task names another user
    | OwnedByAnotherUser(kind: Kind, id: string) // 403: the id is someone else's row

  function Status(e: SyncError): (code: int)
    ensures code == 400 <==> e == TooManyItems
    ensures code == 400 || code == 403
  {
    match e
    case TooManyItems => 400
    case _ => 403
  }

  /** The most records one upload may carry. */
  const MaxSyncItems := 1000

  /** The client-writable columns of each kind, other than id, userId and
      updatedAt.  Timestamps are points on the shared clock. */
  datatype TaskFields = TaskFields(
    date: string, title: string, status: string,
    createdAt: Option<int>, deletedAt: Option<int>,
    accumulatedTime: Option<int>, timerRunning: Option<bool>, timerStart: Option<int>,
    estimatedTime: Option<int>, isUseful: Option<bool>)

  /** An expense amount is a float in the source; it is only copied here. */
  datatype ExpenseFields = ExpenseFields(
    date: string, title: string, amount: real,
    createdAt: Option<int>, deletedAt: Option<int>)

  datatype JournalFields = JournalFields(
    date: string, tasks: Option<string>, expenses: Option<string>,
    sleepId: Option<string>, moodId: Option<string>,
    createdAt: Option<int>, deletedAt: Option<int>)

  datatype ReflectionFields = ReflectionFields(
    date: string, notes: string, waterIntake: int, studyMinutes: int,
    createdAt: Option<int>, deletedAt: Option<int>)

  /** Task columns the upload schema does not carry, so an update keeps them
      and an insert gives them their column defaults. */
  datatype TaskServerColumns = TaskServerColumns(spentTime: int, timeLogs: Option<string>)

  const NewTaskColumns := TaskServerColumns(0, None)

  /** A stored row: its owner, its last write time, the client-writable
      columns `fields` and the columns only the server sets. */
  datatype Row<P, S> = Row(owner: string, updatedAt: Option<int>, fields: P, serverOnly: S)

  /** One uploaded record of a kind whose client-writable columns are `P`. */
  datatype Record<P> = Record(id: string, userId: string, updatedAt: Option<int>, fields: P)

  type Table<P, S> = map<string, Row<P, S>>

  /** The row after the update path: every uploaded key but `id` is copied
      onto it, `userId` included, and then `updatedAt` is set to the write time. */
  function Overwrite<P, S>(row: Row<P, S>, rec: Record<P>, now: int): Row<P, S> {
    Row(rec.userId, Some(now), rec.fields, row.serverOnly)
  }

  /** The row the insert path creates: owned by the caller whatever `userId`
      the record declares, stamped with the write time. */
  function Inserted<P, S>(rec: Record<P>, caller: string, now: int, defaults: S): Row<P, S> {
    Row(caller, Some(now), rec.fields, defaults)
  }

  /** Whether an existing row keeps its server version: both timestamps are
      known and the client's is not strictly newer. */
  predicate ServerWins<P, S>(row: Row<P, S>, rec: Record<P>) {
    rec.updatedAt.Some? && row.updatedAt.Some? && rec.updatedAt.value <= row.updatedAt.value
  }

  /** One upsert: the new table and whether a conflict was resolved in the
      server's favour, or the refusal. */
  function Upsert<P, S>(t: Table<P, S>, rec: Record<P>, caller: string, now: int, kind: Kind, defaults: S)
    : (r: Result<(Table<P, S>, bool), SyncError>)
    ensures r.Err? <==> rec.id in t && t[rec.id].owner != caller
    ensures r.Err? ==> r.error == OwnedByAnotherUser(kind, rec.id)
    ensures r.Ok? ==> rec.id in r.value.0 && r.value.0.Keys == t.Keys + {rec.id}
  {
    if rec.id in t && t[rec.id].owner == caller then
      if ServerWins(t[rec.id], rec) then Ok((t, true))
      else Ok((t[rec.id := Overwrite(t[rec.id], rec, now)], false))
    else if rec.id in t then Err(OwnedByAnotherUser(kind, rec.id))
    else Ok((t[rec.id := Inserted(rec, caller, now, defaults)], false))
  }

  /** The upsert functions of the source, written as the step-by-step code
      they are: a lookup scoped to the caller, last-write-wins on a hit, and
      on a miss an unscoped lookup before the insert. */
  method UpsertRow<P, S>(table: Table<P, S>, rec: Record<P>, caller: string, now: int, kind: Kind, defaults: S)
    returns (r: Result<bool, SyncError>, table': Table<P, S>)
    ensures r.Ok? ==> Upsert(table, rec, caller, now, kind, defaults) == Ok((table', r.value))
    ensures r.Err? ==> Upsert(table, rec, caller, now, kind, defaults) == Err(r.error) && table' == table
  {
    table' := table;
    var clientUpdatedAt := rec.updatedAt;
    if rec.id in table && table[rec.id].owner == caller {
      var existing := table[rec.id];
      if clientUpdatedAt.Some? && existing.updatedAt.Some? {
        if clientUpdatedAt.value > existing.updatedAt.value {
          table' := table[rec.id := Overwrite(existing, rec, now)];
          r := Ok(false);
        } else {
          r := Ok(true);
        }
      } else {
        table' := table[rec.id := Overwrite(existing, rec, now)];
        r := Ok(false);
      }
    } else if rec.id in table {
      r := Err(OwnedByAnotherUser(kind, rec.id));
    } else {
      table' := table[rec.id := Inserted(rec, caller, now, defaults)];
      r := Ok(false);
    }
  }

  // ---------------------------------------------------------------------
  // Properties of one upsert

  /** A new id is inserted for the caller, stamped with the write time, and
      is never a conflict. */
  lemma UpsertInsertsNewId<P, S>(t: Table<P, S>, rec: Record<P>, caller: string, now: int, kind: Kind, defaults: S)
    requires rec.id !in t
    ensures Upsert(t, rec, caller, now, kind, defaults) == Ok((t[rec.id := Row(caller, Some(now), rec.fields, defaults)], false))
    ensures var row := Upsert(t, rec, caller, now, kind, defaults).value.0[rec.id];
      row.owner == caller && row.updatedAt == Some(now)
  {
  }

  /** On an owned row the result is a conflict exactly when both timestamps
      are known and the client's is not strictly newer; a conflict leaves the
      table as it was, and otherwise every uploaded column, `userId`
      included, replaces the stored one and `updatedAt` becomes `now`. */
  lemma UpsertLastWriteWins<P, S>(t: Table<P, S>, rec: Record<P>, caller: string, now: int, kind: Kind, defaults: S)
    requires rec.id in t && t[rec.id].owner == caller
    ensures var r := Upsert(t, rec, caller, now, kind, defaults);
      && r.Ok?
      && (r.value.1 <==> rec.updatedAt.Some? && t[rec.id].updatedAt.Some?
                         && rec.updatedAt.value <= t[rec.id].updatedAt.value)
      && (r.value.1 ==> r.value.0 == t)
      && (!r.value.1 ==> r.value.0[rec.id] == Row(rec.userId, Some(now), rec.fields, t[rec.id].serverOnly))
  {
  }

  /** With no client timestamp, or no stored one, the client always wins. */
  lemma UpsertWithoutTimestampApplies<P, S>(t: Table<P, S>, rec: Record<P>, caller: string, now: int, kind: Kind, defaults: S)
    requires rec.id in t && t[rec.id].owner == caller
    requires rec.updatedAt.None? || t[rec.id].updatedAt.None?
    ensures var r := Upsert(t, rec, caller, now, kind, defaults);
      r.Ok? && !r.value.1 && r.value.0[rec.id].fields == rec.fields
  {
  }

  /** An upsert touches no row but the one with the record's id. */
  lemma UpsertFrame<P, S>(t: Table<P, S>, rec: Record<P>, caller: string, now: int, kind: Kind, defaults: S, id: string)
    requires id != rec.id
    ensures var r := Upsert(t, rec, caller, now, kind, defaults);
      r.Ok? ==> (id in r.value.0 <==> id in t) && (id in t ==> r.value.0[id] == t[id])
  {
  }

  /** A stored row of another owner is never changed by an upsert: the
      upsert is refused exactly for that id and touches nothing else. */
  lemma UpsertIsolation<P, S>(t: Table<P, S>, rec: Record<P>, caller: string, now: int, kind: Kind, defaults: S, id: string)
    requires id in t && t[id].owner != caller
    ensures var r := Upsert(t, rec, caller, now, kind, defaults);
      && (rec.id == id ==> r.Err?)
      && (r.Ok? ==> id in r.value.0 && r.value.0[id] == t[id])
  {
  }

  /** Replaying an applied record is a conflict and changes nothing, as long
      as the record's timestamp is not ahead of the write time. */
  lemma UpsertReplayIsConflict<P, S>(t: Table<P, S>, rec: Record<P>, caller: string, now: int, now2: int, kind: Kind, defaults: S)
    requires rec.updatedAt.Some? && rec.updatedAt.value <= now
    requires rec.userId == caller
    requires var r := Upsert(t, rec, caller, now, kind, defaults); r.Ok? && !r.value.1
    ensures var t1 := Upsert(t, rec, caller, now, kind, defaults).value.0;
      Upsert(t1, rec, caller, now2, kind, defaults) == Ok((t1, true))
  {
  }

  /** When client clocks do not run ahead of the server, an applied record
      is never overwritten by a record with an older timestamp: the older
      one arrives as a conflict. */
  lemma OlderRecordLosesAfterNewer<P, S>(t: Table<P, S>, a: Record<P>, b: Record<P>, caller: string, now1: int, now2: int, kind: Kind, defaults: S)
    requires a.id == b.id && a.userId == caller
    requires a.updatedAt.Some? && b.updatedAt.Some? && b.updatedAt.value < a.updatedAt.value <= now1
    requires var r := Upsert(t, a, caller, now1, kind, defaults); r.Ok? && !r.value.1
    ensures var t1 := Upsert(t, a, caller, now1, kind, defaults).value.0;
      Upsert(t1, b, caller, now2, kind, defaults) == Ok((t1, true))
  {
  }

  /** The stored timestamp is the server's write time, not the client's, so
      when a client clock runs ahead an older edit can overwrite a newer one:
      the edit stamped 30 is applied at time 20, and the edit stamped 25,
      uploaded at time 21, replaces it. */
  lemma OlderRecordCanWinWhenClientClockAhead()
    ensures var t := map["x" := Row("alice", Some(10), "v0", ())];
      var a := Record("x", "alice", Some(30), "newer");
      var b := Record("x", "alice", Some(25), "older");
      var t1 := Upsert(t, a, "alice", 20, TaskKind, ()).value.0;
      && Upsert(t, a, "alice", 20, TaskKind, ()).Ok?
      && Upsert(t1, b, "alice", 21, TaskKind, ()).Ok?
      && Upsert(t1, b, "alice", 21, TaskKind, ()).value.0["x"].fields == "older"
  {
  }

  /** The stored timestamp never moves backwards while the write time is not
      behind it. */
  lemma UpsertTimestampMonotone<P, S>(t: Table<P, S>, rec: Record<P>, caller: string, now: int, kind: Kind, defaults: S)
    requires rec.id in t && t[rec.id].updatedAt.Some? && t[rec.id].updatedAt.value <= now
    ensures var r := Upsert(t, rec, caller, now, kind, defaults);
      r.Ok? ==> r.value.0[rec.id].updatedAt.Some? && t[rec.id].updatedAt.value <= r.value.0[rec.id].updatedAt.value
  {
  }

  /** The owner of the upserted row: the caller on insert, unchanged on a
      conflict, and on an update whatever `userId` the record declares. */
  lemma UpsertOwner<P, S>(t: Table<P, S>, rec: Record<P>, caller: string, now: int, kind: Kind, defaults: S)
    requires var r := Upsert(t, rec, caller, now, kind, defaults); r.Ok?
    ensures var r := Upsert(t, rec, caller, now, kind, defaults);
      r.value.0[rec.id].owner ==
        if rec.id !in t then caller
        else if r.value.1 then t[rec.id].owner
        else rec.userId
  {
  }

  // ---------------------------------------------------------------------
  // A sequence of upserts of one kind: each record commits on its own and
  // the first refusal stops the loop, keeping what was committed before it.

  datatype Progress<P, S> = Progress(table: Table<P, S>, conflicts: nat, failure: Option<SyncError>)

  function UpsertAll<P, S>(t: Table<P, S>, recs: seq<Record<P>>, caller: string, now: int, kind: Kind, defaults: S)
    : (p: Progress<P, S>)
    ensures p.conflicts <= |recs|
    ensures p.failure.Some? ==> p.failure.value.OwnedByAnotherUser? && p.failure.value.kind == kind
  {
    if recs == [] then Progress(t, 0, None)
    else
      var p := UpsertAll(t, recs[..|recs| - 1], caller, now, kind, defaults);
      if p.failure.Some? then p
      else match Upsert(p.table, recs[|recs| - 1], caller, now, kind, defaults)
        case Err(e) => Progress(p.table, p.conflicts, Some(e))
        case Ok((t', conflict)) => Progress(t', p.conflicts + (if conflict then 1 else 0), None)
  }

  /** How many of `recs` find, in the table the records before them leave
      behind, a row of the caller's under their id whose timestamp and their
      own are both present, theirs not newer: the records kept at the server
      version. */
  function KeptCount<P, S>(t: Table<P, S>, recs: seq<Record<P>>, caller: string, now: int, kind: Kind, defaults: S)
    : (n: nat)
    ensures n <= |recs|
  {
    if recs == [] then 0
    else
      var init, rec := recs[..|recs| - 1], recs[|recs| - 1];
      var before := UpsertAll(t, init, caller, now, kind, defaults).table;
      KeptCount(t, init, caller, now, kind, defaults) + (if Kept(before, rec, caller) then 1 else 0)
  }

  /** `rec` finds a row of the caller's under its id, and that row keeps its
      server version. */
  predicate Kept<P, S>(t: Table<P, S>, rec: Record<P>, caller: string) {
    rec.id in t && t[rec.id].owner == caller && ServerWins(t[rec.id], rec)
  }

  /** An upsert that goes through reports a conflict exactly when the
      record is kept at the server version, and then leaves the table as it
      was. */
  lemma UpsertConflictFlag<P, S>(t: Table<P, S>, rec: Record<P>, caller: string, now: int, kind: Kind, defaults: S)
    ensures var r := Upsert(t, rec, caller, now, kind, defaults);
      r.Ok? ==> (r.value.1 <==> Kept(t, rec, caller)) && (r.value.1 ==> r.value.0 == t)
  {
  }

  /** A list upserted without refusal counts as conflicts exactly the
      records kept at the server version. */
  lemma {:induction false} UpsertAllConflicts<P, S>(t: Table<P, S>, recs: seq<Record<P>>, caller: string, now: int, kind: Kind, defaults: S)
    ensures var p := UpsertAll(t, recs, caller, now, kind, defaults);
      p.failure.None? ==> p.conflicts == KeptCount(t, recs, caller, now, kind, defaults)
  {
    if recs != [] {
      var init, rec := recs[..|recs| - 1], recs[|recs| - 1];
      UpsertAllConflicts(t, init, caller, now, kind, defaults);
      var p := UpsertAll(t, init, caller, now, kind, defaults);
      if p.failure.None? {
        UpsertConflictFlag(p.table, rec, caller, now, kind, defaults);
      }
    }
  }

  /** Once a record is refused, later records change nothing: the outcome
      of the whole list is the outcome of its prefix. */
  lemma {:induction false} FailurePersists<P, S>(t: Table<P, S>, recs: seq<Record<P>>, i: nat, caller: string, now: int, kind: Kind, defaults: S)
    requires i <= |recs|
    requires UpsertAll(t, recs[..i], caller, now, kind, defaults).failure.Some?
    ensures UpsertAll(t, recs, caller, now, kind, defaults) == UpsertAll(t, recs[..i], caller, now, kind, defaults)
    decreases |recs| - i
  {
    if i < |recs| {
      assert recs[..i + 1][..i] == recs[..i];
      FailurePersists(t, recs, i + 1, caller, now, kind, defaults);
    } else {
      assert recs[..i] == recs;
    }
  }

  /** A refused record leaves the rows committed before it in place. */
  lemma CommittedPrefixSurvives<P, S>(t: Table<P, S>, recs: seq<Record<P>>, bad: Record<P>, caller: string, now: int, kind: Kind, defaults: S)
    requires UpsertAll(t, recs, caller, now, kind, defaults).failure.None?
    requires var p := UpsertAll(t, recs, caller, now, kind, defaults);
      bad.id in p.table && p.table[bad.id].owner != caller
    ensures var q := UpsertAll(t, recs + [bad], caller, now, kind, defaults);
      && q.failure == Some(OwnedByAnotherUser(kind, bad.id))
      && q.table == UpsertAll(t, recs, caller, now, kind, defaults).table
  {
    assert (recs + [bad])[..|recs|] == recs;
  }

  /** Rows of other owners come through a whole list of upserts unchanged. */
  lemma {:induction false} UpsertAllIsolation<P, S>(t: Table<P, S>, recs: seq<Record<P>>, caller: string, now: int, kind: Kind, defaults: S, id: string)
    requires id in t && t[id].owner != caller
    ensures var p := UpsertAll(t, recs, caller, now, kind, defaults);
      id in p.table && p.table[id] == t[id]
  {
    if recs != [] {
      var p := UpsertAll(t, recs[..|recs| - 1], caller, now, kind, defaults);
      UpsertAllIsolation(t, recs[..|recs| - 1], caller, now, kind, defaults, id);
      if p.failure.None? {
        UpsertIsolation(p.table, recs[|recs| - 1], caller, now, kind, defaults, id);
      }
    }
  }

  /** Every row a list of upserts creates or changes ends up owned by the
      caller or by a `userId` some record of the list declares. */
  lemma {:induction false} UpsertAllOwners<P, S>(t: Table<P, S>, recs: seq<Record<P>>, caller: string, now: int, kind: Kind, defaults: S, id: string)
    requires id in UpsertAll(t, recs, caller, now, kind, defaults).table
    ensures var p := UpsertAll(t, recs, caller, now, kind, defaults);
      || (id in t && p.table[id] == t[id])
      || p.table[id].owner == caller
      || exists k :: 0 <= k < |recs| && recs[k].id == id && p.table[id].owner == recs[k].userId
  {
    if recs != [] {
      var init := recs[..|recs| - 1];
      var p := UpsertAll(t, init, caller, now, kind, defaults);
      var last := recs[|recs| - 1];
      if p.failure.None? && Upsert(p.table, last, caller, now, kind, defaults).Ok? {
        var t' := Upsert(p.table, last, caller, now, kind, defaults).value.0;
        if id == last.id {
          UpsertOwner(p.table, last, caller, now, kind, defaults);
          if id in p.table && t'[id] == p.table[id] {
            UpsertAllOwners(t, init, caller, now, kind, defaults, id);
            if exists k :: 0 <= k < |init| && init[k].id == id && p.table[id].owner == init[k].userId {
              var k :| 0 <= k < |init| && init[k].id == id && p.table[id].owner == init[k].userId;
              assert recs[k] == init[k];
            }
          } else {
            assert recs[|recs| - 1] == last;
          }
        } else {
          UpsertFrame(p.table, last, caller, now, kind, defaults, id);
          UpsertAllOwners(t, init, caller, now, kind, defaults, id);
          if exists k :: 0 <= k < |init| && init[k].id == id && p.table[id].owner == init[k].userId {
            var k :| 0 <= k < |init| && init[k].id == id && p.table[id].owner == init[k].userId;
            assert recs[k] == init[k];
          }
        }
      } else {
        UpsertAllOwners(t, init, caller, now, kind, defaults, id);
        if exists k :: 0 <= k < |init| && init[k].id == id && p.table[id].owner == init[k].userId {
          var k :| 0 <= k < |init| && init[k].id == id && p.table[id].owner == init[k].userId;
          assert recs[k] == init[k];
        }
      }
    }
  }

  /** The ids a list of records carries. */
  function Ids<P>(recs: seq<Record<P>>): set<string> {
    set k | 0 <= k < |recs| :: recs[k].id
  }

  lemma IdsOfSnoc<P>(recs: seq<Record<P>>)
    requires recs != []
    ensures Ids(recs) == Ids(recs[..|recs| - 1]) + {recs[|recs| - 1].id}
  {
    var init := recs[..|recs| - 1];
    forall id | id in Ids(recs) ensures id in Ids(init) + {recs[|recs| - 1].id} {
      var k :| 0 <= k < |recs| && recs[k].id == id;
      if k < |init| { assert init[k] == recs[k]; }
    }
    forall id | id in Ids(init) ensures id in Ids(recs) {
      var k :| 0 <= k < |init| && init[k].id == id;
      assert recs[k] == init[k];
    }
  }

  /** The rows of a table that belong to `user`. */
  function OwnedIds<P, S>(t: Table<P, S>, user: string): set<string> {
    set id | id in t && t[id].owner == user
  }

  /** Inserting a row for `user` under a new id adds exactly that id to what
      `user` owns. */
  lemma OwnedIdsInsert<P, S>(t: Table<P, S>, id: string, row: Row<P, S>, user: string)
    requires id !in t && row.owner == user
    ensures OwnedIds(t[id := row], user) == OwnedIds(t, user) + {id}
    ensures |OwnedIds(t[id := row], user)| == |OwnedIds(t, user)| + 1
  {
    assert OwnedIds(t[id := row], user) == OwnedIds(t, user) + {id};
  }

  predicate DistinctIds<P>(recs: seq<Record<P>>) {
    forall j, k :: 0 <= j < k < |recs| ==> recs[j].id != recs[k].id
  }

  /** Uploading records whose ids are new and distinct inserts every one of
      them for the caller: no refusal, no conflict, and the caller owns
      exactly one more row per record. */
  lemma {:induction false} UpsertAllFresh<P, S>(t: Table<P, S>, recs: seq<Record<P>>, caller: string, now: int, kind: Kind, defaults: S)
    requires DistinctIds(recs)
    requires forall k :: 0 <= k < |recs| ==> recs[k].id !in t
    ensures var p := UpsertAll(t, recs, caller, now, kind, defaults);
      && p.failure.None? && p.conflicts == 0
      && p.table.Keys == t.Keys + Ids(recs)
      && |OwnedIds(p.table, caller)| == |OwnedIds(t, caller)| + |recs|
  {
    if recs != [] {
      var init, last := recs[..|recs| - 1], recs[|recs| - 1];
      FreshPrefix(t, recs);
      UpsertAllFresh(t, init, caller, now, kind, defaults);
      var p := UpsertAll(t, init, caller, now, kind, defaults);
      var t1 := p.table[last.id := Row(caller, Some(now), last.fields, defaults)];
      assert UpsertAll(t, recs, caller, now, kind, defaults) == Progress(t1, 0, None) by {
        assert Upsert(p.table, last, caller, now, kind, defaults) == Ok((t1, false));
      }
      assert t1.Keys == t.Keys + Ids(recs) by {
        IdsOfSnoc(recs);
      }
      assert |OwnedIds(t1, caller)| == |OwnedIds(t, caller)| + |recs| by {
        OwnedIdsInsert(p.table, last.id, t1[last.id], caller);
      }
    }
  }

  lemma FreshPrefix<P, S>(t: Table<P, S>, recs: seq<Record<P>>)
    requires recs != [] && DistinctIds(recs)
    requires forall k :: 0 <= k < |recs| ==> recs[k].id !in t
    ensures var init, last := recs[..|recs| - 1], recs[|recs| - 1];
      && DistinctIds(init)
      && (forall k :: 0 <= k < |init| ==> init[k].id !in t)
      && last.id !in t && last.id !in Ids(init)
  {
    var init, last := recs[..|recs| - 1], recs[|recs| - 1];
    forall k | 0 <= k < |init| ensures init[k] == recs[k] && init[k].id != last.id {
      assert init[k] == recs[k];
    }
  }

  // ---------------------------------------------------------------------
  // The batch

  datatype Tables = Tables(
    tasks: Table<TaskFields, TaskServerColumns>,
    expenses: Table<ExpenseFields, ()>,
    journals: Table<JournalFields, ()>,
    reflections: Table<ReflectionFields, ()>)

  datatype SyncBatch = SyncBatch(
    tasks: seq<Record<TaskFields>>,
    expenses: seq<Record<ExpenseFields>>,
    journals: seq<Record<JournalFields>>,
    reflections: seq<Record<ReflectionFields>>)

  /** The counters an upload or a download answers with. */
  datatype SyncResponse = SyncResponse(
    syncedTasks: nat, syncedExpenses: nat, syncedJournals: nat, syncedReflections: nat,
    conflictsResolved: nat)

  datatype SyncOutcome = SyncOutcome(tables: Tables, response: Result<SyncResponse, SyncError>)

  function TotalItems(b: SyncBatch): nat {
    |b.tasks| + |b.expenses| + |b.journals| + |b.reflections|
  }

  /** Some task declares an owner (a non-empty `userId`) other than the
      caller.  Only tasks are checked. */
  predicate DeclaresForeignOwner(tasks: seq<Record<TaskFields>>, caller: string) {
    exists k :: 0 <= k < |tasks| && tasks[k].userId != "" && tasks[k].userId != caller
  }

  /** An upload: the size cap, the task owner pre-scan, then tasks,
      expenses, journals and reflections in that order, stopping at the first
      refused record with everything committed before it kept. */
  function Sync(t: Tables, b: SyncBatch, caller: string, now: int): SyncOutcome {
    if TotalItems(b) > MaxSyncItems then SyncOutcome(t, Err(TooManyItems))
    else if DeclaresForeignOwner(b.tasks, caller) then SyncOutcome(t, Err(ForeignDeclaredOwner))
    else SyncTaskStage(t, b, caller, now)
  }

  function SyncTaskStage(t: Tables, b: SyncBatch, caller: string, now: int): SyncOutcome {
    var p := UpsertAll(t.tasks, b.tasks, caller, now, TaskKind, NewTaskColumns);
    if p.failure.Some? then SyncOutcome(t.(tasks := p.table), Err(p.failure.value))
    else SyncExpenseStage(t.(tasks := p.table), b, caller, now, p.conflicts)
  }

  function SyncExpenseStage(t: Tables, b: SyncBatch, caller: string, now: int, conflicts: nat): SyncOutcome {
    var p := UpsertAll(t.expenses, b.expenses, caller, now, ExpenseKind, ());
    if p.failure.Some? then SyncOutcome(t.(expenses := p.table), Err(p.failure.value))
    else SyncJournalStage(t.(expenses := p.table), b, caller, now, conflicts + p.conflicts)
  }

  function SyncJournalStage(t: Tables, b: SyncBatch, caller: string, now: int, conflicts: nat): SyncOutcome {
    var p := UpsertAll(t.journals, b.journals, caller, now, JournalKind, ());
    if p.failure.Some? then SyncOutcome(t.(journals := p.table), Err(p.failure.value))
    else SyncReflectionStage(t.(journals := p.table), b, caller, now, conflicts + p.conflicts)
  }

  function SyncReflectionStage(t: Tables, b: SyncBatch, caller: string, now: int, conflicts: nat): SyncOutcome {
    var p := UpsertAll(t.reflections, b.reflections, caller, now, ReflectionKind, ());
    if p.failure.Some? then SyncOutcome(t.(reflections := p.table), Err(p.failure.value))
    else SyncOutcome(t.(reflections := p.table),
      Ok(SyncResponse(|b.tasks|, |b.expenses|, |b.journals|, |b.reflections|, conflicts + p.conflicts)))
  }

  /** A stage that refuses nothing hands its table on to the next stage. */
  lemma TaskStageStep(t: Tables, b: SyncBatch, caller: string, now: int, x: Table<TaskFields, TaskServerColumns>, c: nat)
    requires UpsertAll(t.tasks, b.tasks, caller, now, TaskKind, NewTaskColumns) == Progress(x, c, None)
    ensures SyncTaskStage(t, b, caller, now) == SyncExpenseStage(t.(tasks := x), b, caller, now, c)
  {
  }

  lemma ExpenseStageStep(t: Tables, b: SyncBatch, caller: string, now: int, conflicts: nat, x: Table<ExpenseFields, ()>, c: nat)
    requires UpsertAll(t.expenses, b.expenses, caller, now, ExpenseKind, ()) == Progress(x, c, None)
    ensures SyncExpenseStage(t, b, caller, now, conflicts) == SyncJournalStage(t.(expenses := x), b, caller, now, conflicts + c)
  {
  }

  lemma JournalStageStep(t: Tables, b: SyncBatch, caller: string, now: int, conflicts: nat, x: Table<JournalFields, ()>, c: nat)
    requires UpsertAll(t.journals, b.journals, caller, now, JournalKind, ()) == Progress(x, c, None)
    ensures SyncJournalStage(t, b, caller, now, conflicts) == SyncReflectionStage(t.(journals := x), b, caller, now, conflicts + c)
  {
  }

  lemma ReflectionStageEnd(t: Tables, b: SyncBatch, caller: string, now: int, conflicts: nat, x: Table<ReflectionFields, ()>, c: nat)
    requires UpsertAll(t.reflections, b.reflections, caller, now, ReflectionKind, ()) == Progress(x, c, None)
    ensures SyncReflectionStage(t, b, caller, now, conflicts)
      == SyncOutcome(t.(reflections := x), Ok(SyncResponse(|b.tasks|, |b.expenses|, |b.journals|, |b.reflections|, conflicts + c)))
  {
  }

  /** Each stage of the upload replaces its own table by the result of
      upserting that kind's records, committed prefix included, and leaves
      the tables of earlier kinds alone. */
  lemma ReflectionStageTables(t: Tables, b: SyncBatch, caller: string, now: int, conflicts: nat)
    ensures SyncReflectionStage(t, b, caller, now, conflicts).tables
      == t.(reflections := UpsertAll(t.reflections, b.reflections, caller, now, ReflectionKind, ()).table)
  {
  }

  lemma JournalStageTables(t: Tables, b: SyncBatch, caller: string, now: int, conflicts: nat)
    ensures var t' := SyncJournalStage(t, b, caller, now, conflicts).tables;
      && t'.tasks == t.tasks && t'.expenses == t.expenses
      && t'.journals == UpsertAll(t.journals, b.journals, caller, now, JournalKind, ()).table
      && (t'.reflections == t.reflections
          || t'.reflections == UpsertAll(t.reflections, b.reflections, caller, now, ReflectionKind, ()).table)
  {
    var p := UpsertAll(t.journals, b.journals, caller, now, JournalKind, ());
    if p.failure.None? {
      ReflectionStageTables(t.(journals := p.table), b, caller, now, conflicts + p.conflicts);
    }
  }

  lemma ExpenseStageTables(t: Tables, b: SyncBatch, caller: string, now: int, conflicts: nat)
    ensures var t' := SyncExpenseStage(t, b, caller, now, conflicts).tables;
      && t'.tasks == t.tasks
      && t'.expenses == UpsertAll(t.expenses, b.expenses, caller, now, ExpenseKind, ()).table
      && (t'.journals == t.journals
          || t'.journals == UpsertAll(t.journals, b.journals, caller, now, JournalKind, ()).table)
      && (t'.reflections == t.reflections
          || t'.reflections == UpsertAll(t.reflections, b.reflections, caller, now, ReflectionKind, ()).table)
  {
    var p := UpsertAll(t.expenses, b.expenses, caller, now, ExpenseKind, ());
    if p.failure.None? {
      JournalStageTables(t.(expenses := p.table), b, caller, now, conflicts + p.conflicts);
    }
  }

  /** Each table after an upload is either untouched or the result of
      upserting that kind's records into it. */
  lemma SyncShape(t: Tables, b: SyncBatch, caller: string, now: int)
    ensures var t' := Sync(t, b, caller, now).tables;
      && (t'.tasks == t.tasks || t'.tasks == UpsertAll(t.tasks, b.tasks, caller, now, TaskKind, NewTaskColumns).table)
      && (t'.expenses == t.expenses || t'.expenses == UpsertAll(t.expenses, b.expenses, caller, now, ExpenseKind, ()).table)
      && (t'.journals == t.journals || t'.journals == UpsertAll(t.journals, b.journals, caller, now, JournalKind, ()).table)
      && (t'.reflections == t.reflections || t'.reflections == UpsertAll(t.reflections, b.reflections, caller, now, ReflectionKind, ()).table)
  {
    if TotalItems(b) <= MaxSyncItems && !DeclaresForeignOwner(b.tasks, caller) {
      var p := UpsertAll(t.tasks, b.tasks, caller, now, TaskKind, NewTaskColumns);
      if p.failure.None? {
        ExpenseStageTables(t.(tasks := p.table), b, caller, now, p.conflicts);
      }
    }
  }

  /** `n` counts the rows of `t` that belong to `user`: no more than the
      table holds, none exactly when `user` owns no row, all of them when
      `user` owns every row. */
  predicate CountsOwned<P, S>(n: nat, t: Table<P, S>, user: string) {
    && n <= |t|
    && (n == 0 <==> forall id :: id in t ==> t[id].owner != user)
    && ((forall id :: id in t ==> t[id].owner == user) ==> n == |t|)
  }

  /** The rows a user owns are at most the whole table, none or all of it
      at the extremes. */
  lemma OwnedIdsCount<P, S>(t: Table<P, S>, user: string)
    ensures CountsOwned(|OwnedIds(t, user)|, t, user)
  {
    var o := OwnedIds(t, user);
    assert o <= t.Keys;
    SubsetCard(o, t.Keys);
    if |o| == 0 {
      forall id | id in t ensures t[id].owner != user {
        assert id !in o;
      }
    } else {
      var id :| id in o;
    }
    if forall id :: id in t ==> t[id].owner == user {
      assert o == t.Keys;
    }
  }

  lemma {:induction false} SubsetCard<T>(a: set<T>, b: set<T>)
    requires a <= b
    ensures |a| <= |b|
    decreases b
  {
    if a != {} {
      var x :| x in a;
      SubsetCard(a - {x}, b - {x});
    }
  }

  /** The download: how many rows of each kind the caller owns, and no
      conflicts. */
  function Download(t: Tables, caller: string): SyncResponse {
    SyncResponse(|OwnedIds(t.tasks, caller)|, |OwnedIds(t.expenses, caller)|,
      |OwnedIds(t.journals, caller)|, |OwnedIds(t.reflections, caller)|, 0)
  }

  /** Each count of a download is the caller's share of that table: at most
      the table, zero exactly when the caller owns none of it, all of it
      when the caller owns every row; and a download reports no conflicts. */
  lemma DownloadCounts(t: Tables, caller: string)
    ensures var r := Download(t, caller);
      && CountsOwned(r.syncedTasks, t.tasks, caller)
      && CountsOwned(r.syncedExpenses, t.expenses, caller)
      && CountsOwned(r.syncedJournals, t.journals, caller)
      && CountsOwned(r.syncedReflections, t.reflections, caller)
      && r.conflictsResolved == 0
  {
    OwnedIdsCount(t.tasks, caller);
    OwnedIdsCount(t.expenses, caller);
    OwnedIdsCount(t.journals, caller);
    OwnedIdsCount(t.reflections, caller);
  }

  /** More than 1000 records are refused with 400 before anything is
      written; 1000 or fewer never are. */
  lemma SyncCap(t: Tables, b: SyncBatch, caller: string, now: int)
    ensures var o := Sync(t, b, caller, now);
      && (o.response == Err(TooManyItems) <==> TotalItems(b) > 1000)
      && (TotalItems(b) > 1000 ==> o.tables == t)
  {
  }

  /** Within the cap, a task declaring another owner refuses the whole
      upload with 403 before anything is written, and nothing else does
      so: expenses, journals and reflections are not checked. */
  lemma SyncPreScan(t: Tables, b: SyncBatch, caller: string, now: int)
    requires TotalItems(b) <= 1000
    ensures var o := Sync(t, b, caller, now);
      && (o.response == Err(ForeignDeclaredOwner) <==> DeclaresForeignOwner(b.tasks, caller))
      && (DeclaresForeignOwner(b.tasks, caller) ==> o.tables == t)
  {
  }

  /** A successful upload reports every record of each kind as synced,
      conflicts included, and counts as conflicts only records that were
      kept at the server version; the refusals are exactly the 403s on
      another user's id. */
  lemma SyncCounters(t: Tables, b: SyncBatch, caller: string, now: int)
    ensures var o := Sync(t, b, caller, now);
      && (o.response.Ok? ==>
            && o.response.value.syncedTasks == |b.tasks|
            && o.response.value.syncedExpenses == |b.expenses|
            && o.response.value.syncedJournals == |b.journals|
            && o.response.value.syncedReflections == |b.reflections|
            && o.response.value.conflictsResolved
                 == KeptCount(t.tasks, b.tasks, caller, now, TaskKind, NewTaskColumns)
                    + KeptCount(t.expenses, b.expenses, caller, now, ExpenseKind, ())
                    + KeptCount(t.journals, b.journals, caller, now, JournalKind, ())
                    + KeptCount(t.reflections, b.reflections, caller, now, ReflectionKind, ())
            && o.response.value.conflictsResolved <= TotalItems(b))
      && (o.response.Err? ==> Status(o.response.error) == 403 || TotalItems(b) > 1000)
  {
    if TotalItems(b) <= MaxSyncItems && !DeclaresForeignOwner(b.tasks, caller) {
      var p1 := UpsertAll(t.tasks, b.tasks, caller, now, TaskKind, NewTaskColumns);
      var p2 := UpsertAll(t.expenses, b.expenses, caller, now, ExpenseKind, ());
      var p3 := UpsertAll(t.journals, b.journals, caller, now, JournalKind, ());
      var p4 := UpsertAll(t.reflections, b.reflections, caller, now, ReflectionKind, ());
      if p1.failure.None? && p2.failure.None? && p3.failure.None? && p4.failure.None? {
        UpsertAllConflicts(t.tasks, b.tasks, caller, now, TaskKind, NewTaskColumns);
        UpsertAllConflicts(t.expenses, b.expenses, caller, now, ExpenseKind, ());
        UpsertAllConflicts(t.journals, b.journals, caller, now, JournalKind, ());
        UpsertAllConflicts(t.reflections, b.reflections, caller, now, ReflectionKind, ());
        var t1 := t.(tasks := p1.table);
        var t2 := t1.(expenses := p2.table);
        var t3 := t2.(journals := p3.table);
        TaskStageStep(t, b, caller, now, p1.table, p1.conflicts);
        ExpenseStageStep(t1, b, caller, now, p1.conflicts, p2.table, p2.conflicts);
        JournalStageStep(t2, b, caller, now, p1.conflicts + p2.conflicts, p3.table, p3.conflicts);
        ReflectionStageEnd(t3, b, caller, now, p1.conflicts + p2.conflicts + p3.conflicts, p4.table, p4.conflicts);
      }
    }
  }

  /** No upload changes a row that belongs to someone other than the caller,
      whatever its outcome. */
  lemma SyncIsolation(t: Tables, b: SyncBatch, caller: string, now: int)
    ensures var t' := Sync(t, b, caller, now).tables;
      && (forall id :: id in t.tasks && t.tasks[id].owner != caller ==> id in t'.tasks && t'.tasks[id] == t.tasks[id])
      && (forall id :: id in t.expenses && t.expenses[id].owner != caller ==> id in t'.expenses && t'.expenses[id] == t.expenses[id])
      && (forall id :: id in t.journals && t.journals[id].owner != caller ==> id in t'.journals && t'.journals[id] == t.journals[id])
      && (forall id :: id in t.reflections && t.reflections[id].owner != caller ==> id in t'.reflections && t'.reflections[id] == t.reflections[id])
  {
    SyncShape(t, b, caller, now);
    forall id | id in t.tasks && t.tasks[id].owner != caller {
      UpsertAllIsolation(t.tasks, b.tasks, caller, now, TaskKind, NewTaskColumns, id);
    }
    forall id | id in t.expenses && t.expenses[id].owner != caller {
      UpsertAllIsolation(t.expenses, b.expenses, caller, now, ExpenseKind, (), id);
    }
    forall id | id in t.journals && t.journals[id].owner != caller {
      UpsertAllIsolation(t.journals, b.journals, caller, now, JournalKind, (), id);
    }
    forall id | id in t.reflections && t.reflections[id].owner != caller {
      UpsertAllIsolation(t.reflections, b.reflections, caller, now, ReflectionKind, (), id);
    }
  }

  /** Tasks an upload creates or changes end up owned by the caller or by
      nobody (the empty `userId` passes the pre-scan and is copied). */
  lemma SyncTaskOwners(t: Tables, b: SyncBatch, caller: string, now: int, id: string)
    requires id in Sync(t, b, caller, now).tables.tasks
    ensures var t' := Sync(t, b, caller, now).tables;
      || (id in t.tasks && t'.tasks[id] == t.tasks[id])
      || t'.tasks[id].owner == caller
      || t'.tasks[id].owner == ""
  {
    SyncShape(t, b, caller, now);
    if Sync(t, b, caller, now).tables.tasks != t.tasks {
      UpsertAllOwners(t.tasks, b.tasks, caller, now, TaskKind, NewTaskColumns, id);
    }
  }

  /** An upload by one user never adds to the tasks another (named) user
      downloads. */
  lemma SyncKeepsOthersTaskCount(t: Tables, b: SyncBatch, caller: string, now: int, other: string)
    requires other != caller && other != ""
    ensures Download(Sync(t, b, caller, now).tables, other).syncedTasks == Download(t, other).syncedTasks
  {
    var t' := Sync(t, b, caller, now).tables;
    SyncIsolation(t, b, caller, now);
    forall id | id in OwnedIds(t'.tasks, other) ensures id in OwnedIds(t.tasks, other) {
      SyncTaskOwners(t, b, caller, now, id);
    }
    assert OwnedIds(t'.tasks, other) == OwnedIds(t.tasks, other);
  }

  /** Expenses are not pre-scanned and the update copies `userId`, so a
      user can hand an expense row to another user: alice's upload moves
      her expense into bob's download. */
  lemma ExpenseOwnerCanChange()
    ensures var t := Tables(map[], map["e" := Row("alice", Some(1), ExpenseFields("2024-01-01", "tea", 3.0, None, None), ())], map[], map[]);
      var b := SyncBatch([], [Record("e", "bob", Some(2), ExpenseFields("2024-01-01", "tea", 3.0, None, None))], [], []);
      var o := Sync(t, b, "alice", 5);
      && o.response.Ok?
      && o.tables.expenses["e"].owner == "bob"
      && Download(o.tables, "bob").syncedExpenses == Download(t, "bob").syncedExpenses + 1
  {
    var t := Tables(map[], map["e" := Row("alice", Some(1), ExpenseFields("2024-01-01", "tea", 3.0, None, None), ())], map[], map[]);
    var b := SyncBatch([], [Record("e", "bob", Some(2), ExpenseFields("2024-01-01", "tea", 3.0, None, None))], [], []);
    var o := Sync(t, b, "alice", 5);
    assert b.expenses[..0] == [];
    assert OwnedIds(t.expenses, "bob") == {};
    assert OwnedIds(o.tables.expenses, "bob") == {"e"};
  }

  /** A task whose `userId` is empty passes the pre-scan and leaves its row
      without an owner, so the caller's download no longer counts it. */
  lemma EmptyTaskOwnerAccepted()
    ensures var f := TaskFields("2024-01-01", "run", "todo", None, None, None, None, None, None, None);
      var t := Tables(map["k" := Row("alice", None, f, NewTaskColumns)], map[], map[], map[]);
      var o := Sync(t, SyncBatch([Record("k", "", Some(3), f)], [], [], []), "alice", 5);
      && o.response.Ok?
      && o.tables.tasks["k"].owner == ""
      && Download(o.tables, "alice").syncedTasks + 1 == Download(t, "alice").syncedTasks
  {
    var f := TaskFields("2024-01-01", "run", "todo", None, None, None, None, None, None, None);
    var t := Tables(map["k" := Row("alice", None, f, NewTaskColumns)], map[], map[], map[]);
    var b := SyncBatch([Record("k", "", Some(3), f)], [], [], []);
    var o := Sync(t, b, "alice", 5);
    assert b.tasks[..0] == [];
    assert !DeclaresForeignOwner(b.tasks, "alice");
    var t' := map["k" := Row("", Some(5), f, NewTaskColumns)];
    assert UpsertAll(t.tasks, b.tasks, "alice", 5, TaskKind, NewTaskColumns) == Progress(t', 0, None);
    assert o.tables.tasks == t';
    assert OwnedIds(t.tasks, "alice") == {"k"};
    assert OwnedIds(t', "alice") == {};
  }

  /** Uploading only new, distinct ids within the cap succeeds without
      conflicts, and the following download counts one more row per record. */
  lemma SyncFreshThenDownload(t: Tables, b: SyncBatch, caller: string, now: int)
    requires TotalItems(b) <= 1000 && !DeclaresForeignOwner(b.tasks, caller)
    requires DistinctIds(b.tasks) && forall k :: 0 <= k < |b.tasks| ==> b.tasks[k].id !in t.tasks
    requires DistinctIds(b.expenses) && forall k :: 0 <= k < |b.expenses| ==> b.expenses[k].id !in t.expenses
    requires DistinctIds(b.journals) && forall k :: 0 <= k < |b.journals| ==> b.journals[k].id !in t.journals
    requires DistinctIds(b.reflections) && forall k :: 0 <= k < |b.reflections| ==> b.reflections[k].id !in t.reflections
    ensures var o := Sync(t, b, caller, now);
      && o.response == Ok(SyncResponse(|b.tasks|, |b.expenses|, |b.journals|, |b.reflections|, 0))
      && var before, after := Download(t, caller), Download(o.tables, caller);
      && after.syncedTasks == before.syncedTasks + |b.tasks|
      && after.syncedExpenses == before.syncedExpenses + |b.expenses|
      && after.syncedJournals == before.syncedJournals + |b.journals|
      && after.syncedReflections == before.syncedReflections + |b.reflections|
  {
    UpsertAllFresh(t.tasks, b.tasks, caller, now, TaskKind, NewTaskColumns);
    UpsertAllFresh(t.expenses, b.expenses, caller, now, ExpenseKind, ());
    UpsertAllFresh(t.journals, b.journals, caller, now, JournalKind, ());
    UpsertAllFresh(t.reflections, b.reflections, caller, now, ReflectionKind, ());
  }

  // ---------------------------------------------------------------------
  // The store

  /** The database: one table per kind, updated in place by the upload. */
  class SyncStore {
    var tasks: Table<TaskFields, TaskServerColumns>
    var expenses: Table<ExpenseFields, ()>
    var journals: Table<JournalFields, ()>
    var reflections: Table<ReflectionFields, ()>

    constructor()
      ensures Snapshot() == Tables(map[], map[], map[], map[])
    {
      tasks, expenses, journals, reflections := map[], map[], map[], map[];
    }

    function Snapshot(): Tables
      reads this
    {
      Tables(tasks, expenses, journals, reflections)
    }

    method UpsertTask(rec: Record<TaskFields>, caller: string, now: int) returns (r: Result<bool, SyncError>)
      modifies this
      ensures r.Ok? ==> Upsert(old(tasks), rec, caller, now, TaskKind, NewTaskColumns) == Ok((tasks, r.value))
      ensures r.Err? ==> Upsert(old(tasks), rec, caller, now, TaskKind, NewTaskColumns) == Err(r.error) && tasks == old(tasks)
      ensures expenses == old(expenses) && journals == old(journals) && reflections == old(reflections)
    {
      r, tasks := UpsertRow(tasks, rec, caller, now, TaskKind, NewTaskColumns);
    }

    method UpsertExpense(rec: Record<ExpenseFields>, caller: string, now: int) returns (r: Result<bool, SyncError>)
      modifies this
      ensures r.Ok? ==> Upsert(old(expenses), rec, caller, now, ExpenseKind, ()) == Ok((expenses, r.value))
      ensures r.Err? ==> Upsert(old(expenses), rec, caller, now, ExpenseKind, ()) == Err(r.error) && expenses == old(expenses)
      ensures tasks == old(tasks) && journals == old(journals) && reflections == old(reflections)
    {
      r, expenses := UpsertRow(expenses, rec, caller, now, ExpenseKind, ());
    }

    method UpsertJournal(rec: Record<JournalFields>, caller: string, now: int) returns (r: Result<bool, SyncError>)
      modifies this
      ensures r.Ok? ==> Upsert(old(journals), rec, caller, now, JournalKind, ()) == Ok((journals, r.value))
      ensures r.Err? ==> Upsert(old(journals), rec, caller, now, JournalKind, ()) == Err(r.error) && journals == old(journals)
      ensures tasks == old(tasks) && expenses == old(expenses) && reflections == old(reflections)
    {
      r, journals := UpsertRow(journals, rec, caller, now, JournalKind, ());
    }

    method UpsertReflection(rec: Record<ReflectionFields>, caller: string, now: int) returns (r: Result<bool, SyncError>)
      modifies this
      ensures r.Ok? ==> Upsert(old(reflections), rec, caller, now, ReflectionKind, ()) == Ok((reflections, r.value))
      ensures r.Err? ==> Upsert(old(reflections), rec, caller, now, ReflectionKind, ()) == Err(r.error) && reflections == old(reflections)
      ensures tasks == old(tasks) && expenses == old(expenses) && journals == old(journals)
    {
      r, reflections := UpsertRow(reflections, rec, caller, now, ReflectionKind, ());
    }

    /** One loop of the upload: upserts the records in order, counting
        them and the conflicts, and stops at the first refusal. */
    method UpsertTasks(recs: seq<Record<TaskFields>>, caller: string, now: int)
      returns (synced: nat, conflicts: nat, failure: Option<SyncError>)
      modifies this
      ensures UpsertAll(old(tasks), recs, caller, now, TaskKind, NewTaskColumns) == Progress(tasks, conflicts, failure)
      ensures failure.None? ==> synced == |recs|
      ensures expenses == old(expenses) && journals == old(journals) && reflections == old(reflections)
    {
      synced, conflicts, failure := 0, 0, None;
      for i := 0 to |recs|
        invariant UpsertAll(old(tasks), recs[..i], caller, now, TaskKind, NewTaskColumns) == Progress(tasks, conflicts, None)
        invariant synced == i
        invariant expenses == old(expenses) && journals == old(journals) && reflections == old(reflections)
      {
        assert recs[..i + 1][..i] == recs[..i];
        var r := UpsertTask(recs[i], caller, now);
        if r.Err? {
          FailurePersists(old(tasks), recs, i + 1, caller, now, TaskKind, NewTaskColumns);
          return synced, conflicts, Some(r.error);
        }
        if r.value {
          conflicts := conflicts + 1;
        }
        synced := synced + 1;
      }
      assert recs[..|recs|] == recs;
    }

    method UpsertExpenses(recs: seq<Record<ExpenseFields>>, caller: string, now: int)
      returns (synced: nat, conflicts: nat, failure: Option<SyncError>)
      modifies this
      ensures UpsertAll(old(expenses), recs, caller, now, ExpenseKind, ()) == Progress(expenses, conflicts, failure)
      ensures failure.None? ==> synced == |recs|
      ensures tasks == old(tasks) && journals == old(journals) && reflections == old(reflections)
    {
      synced, conflicts, failure := 0, 0, None;
      for i := 0 to |recs|
        invariant UpsertAll(old(expenses), recs[..i], caller, now, ExpenseKind, ()) == Progress(expenses, conflicts, None)
        invariant synced == i
        invariant tasks == old(tasks) && journals == old(journals) && reflections == old(reflections)
      {
        assert recs[..i + 1][..i] == recs[..i];
        var r := UpsertExpense(recs[i], caller, now);
        if r.Err? {
          FailurePersists(old(expenses), recs, i + 1, caller, now, ExpenseKind, ());
          return synced, conflicts, Some(r.error);
        }
        if r.value {
          conflicts := conflicts + 1;
        }
        synced := synced + 1;
      }
      assert recs[..|recs|] == recs;
    }

    method UpsertJournals(recs: seq<Record<JournalFields>>, caller: string, now: int)
      returns (synced: nat, conflicts: nat, failure: Option<SyncError>)
      modifies this
      ensures UpsertAll(old(journals), recs, caller, now, JournalKind, ()) == Progress(journals, conflicts, failure)
      ensures failure.None? ==> synced == |recs|
      ensures tasks == old(tasks) && expenses == old(expenses) && reflections == old(reflections)
    {
      synced, conflicts, failure := 0, 0, None;
      for i := 0 to |recs|
        invariant UpsertAll(old(journals), recs[..i], caller, now, JournalKind, ()) == Progress(journals, conflicts, None)
        invariant synced == i
        invariant tasks == old(tasks) && expenses == old(expenses) && reflections == old(reflections)
      {
        assert recs[..i + 1][..i] == recs[..i];
        var r := UpsertJournal(recs[i], caller, now);
        if r.Err? {
          FailurePersists(old(journals), recs, i + 1, caller, now, JournalKind, ());
          return synced, conflicts, Some(r.error);
        }
        if r.value {
          conflicts := conflicts + 1;
        }
        synced := synced + 1;
      }
      assert recs[..|recs|] == recs;
    }

    method UpsertReflections(recs: seq<Record<ReflectionFields>>, caller: string, now: int)
      returns (synced: nat, conflicts: nat, failure: Option<SyncError>)
      modifies this
      ensures UpsertAll(old(reflections), recs, caller, now, ReflectionKind, ()) == Progress(reflections, conflicts, failure)
      ensures failure.None? ==> synced == |recs|
      ensures tasks == old(tasks) && expenses == old(expenses) && journals == old(journals)
    {
      synced, conflicts, failure := 0, 0, None;
      for i := 0 to |recs|
        invariant UpsertAll(old(reflections), recs[..i], caller, now, ReflectionKind, ()) == Progress(reflections, conflicts, None)
        invariant synced == i
        invariant tasks == old(tasks) && expenses == old(expenses) && journals == old(journals)
      {
        assert recs[..i + 1][..i] == recs[..i];
        var r := UpsertReflection(recs[i], caller, now);
        if r.Err? {
          FailurePersists(old(reflections), recs, i + 1, caller, now, ReflectionKind, ());
          return synced, conflicts, Some(r.error);
        }
        if r.value {
          conflicts := conflicts + 1;
        }
        synced := synced + 1;
      }
      assert recs[..|recs|] == recs;
    }

    /** The upload endpoint; `now` is the write time of every record. */
    method SyncData(b: SyncBatch, caller: string, now: int) returns (r: Result<SyncResponse, SyncError>)
      modifies this
      ensures Snapshot() == Sync(old(Snapshot()), b, caller, now).tables
      ensures r == Sync(old(Snapshot()), b, caller, now).response
    {
      ghost var t0 := Snapshot();
      var totalItems := |b.tasks| + |b.expenses| + |b.journals| + |b.reflections|;
      if totalItems > MaxSyncItems {
        return Err(TooManyItems);
      }
      for i := 0 to |b.tasks|
        invariant forall k :: 0 <= k < i ==> !(b.tasks[k].userId != "" && b.tasks[k].userId != caller)
      {
        if b.tasks[i].userId != "" && b.tasks[i].userId != caller {
          return Err(ForeignDeclaredOwner);
        }
      }
      r := UpsertBatch(b, caller, now);
    }

    /** The four loops of the upload, once the batch has passed its checks:
        the task loop, then the loops of the later kinds. */
    method UpsertBatch(b: SyncBatch, caller: string, now: int) returns (r: Result<SyncResponse, SyncError>)
      modifies this
      ensures Snapshot() == SyncTaskStage(old(Snapshot()), b, caller, now).tables
      ensures r == SyncTaskStage(old(Snapshot()), b, caller, now).response
    {
      ghost var t0 := Snapshot();
      var syncedTasks, conflicts, failure := UpsertTasks(b.tasks, caller, now);
      if failure.Some? {
        return Err(failure.value);
      }
      TaskStageStep(t0, b, caller, now, tasks, conflicts);
      r := UpsertFromExpenses(b, caller, now, syncedTasks, conflicts);
    }

    /** The expense, journal and reflection loops. */
    method UpsertFromExpenses(b: SyncBatch, caller: string, now: int, syncedTasks: nat, conflicts: nat)
      returns (r: Result<SyncResponse, SyncError>)
      requires syncedTasks == |b.tasks|
      modifies this
      ensures Snapshot() == SyncExpenseStage(old(Snapshot()), b, caller, now, conflicts).tables
      ensures r == SyncExpenseStage(old(Snapshot()), b, caller, now, conflicts).response
    {
      ghost var t0 := Snapshot();
      var syncedExpenses, c, failure := UpsertExpenses(b.expenses, caller, now);
      if failure.Some? {
        return Err(failure.value);
      }
      ExpenseStageStep(t0, b, caller, now, conflicts, expenses, c);
      r := UpsertFromJournals(b, caller, now, syncedTasks, syncedExpenses, conflicts + c);
    }

    /** The journal and reflection loops. */
    method UpsertFromJournals(b: SyncBatch, caller: string, now: int, syncedTasks: nat, syncedExpenses: nat, conflicts: nat)
      returns (r: Result<SyncResponse, SyncError>)
      requires syncedTasks == |b.tasks| && syncedExpenses == |b.expenses|
      modifies this
      ensures Snapshot() == SyncJournalStage(old(Snapshot()), b, caller, now, conflicts).tables
      ensures r == SyncJournalStage(old(Snapshot()), b, caller, now, conflicts).response
    {
      ghost var t0 := Snapshot();
      var syncedJournals, c, failure := UpsertJournals(b.journals, caller, now);
      if failure.Some? {
        return Err(failure.value);
      }
      JournalStageStep(t0, b, caller, now, conflicts, journals, c);
      r := UpsertFromReflections(b, caller, now, syncedTasks, syncedExpenses, syncedJournals, conflicts + c);
    }

    /** The reflection loop, and the counters of a completed upload. */
    method UpsertFromReflections(b: SyncBatch, caller: string, now: int,
                                 syncedTasks: nat, syncedExpenses: nat, syncedJournals: nat, conflicts: nat)
      returns (r: Result<SyncResponse, SyncError>)
      requires syncedTasks == |b.tasks| && syncedExpenses == |b.expenses| && syncedJournals == |b.journals|
      modifies this
      ensures Snapshot() == SyncReflectionStage(old(Snapshot()), b, caller, now, conflicts).tables
      ensures r == SyncReflectionStage(old(Snapshot()), b, caller, now, conflicts).response
    {
      var syncedReflections, c, failure := UpsertReflections(b.reflections, caller, now);
      if failure.Some? {
        return Err(failure.value);
      }
      r := Ok(SyncResponse(syncedTasks, syncedExpenses, syncedJournals, syncedReflections, conflicts + c));
    }
  }
}
