/** The four request handlers of the student controller as transitions of an
    abstract store: each takes the store and a request, and yields the HTTP
    status and body together with the new store. A failure of the database
    itself (anything but a validation error) is the input `fault`. */
module RecordStore {
  import opened Wrappers
  import opened StudentSchema

  /** Record identifiers, handed out by the store and never reused. */
  type Id = nat

  /** A stored document: its id, its fields and its two timestamps. */
  datatype Record = Record(id: Id, student: Student, createdAt: nat, updatedAt: nat)

  /** The collection: records by id, the next id to hand out, and a clock that
      stands in for the timestamps and advances on every write. */
  datatype Store = Store(records: map<Id, Record>, nextId: Id, clock: nat)

  const Empty: Store := Store(map[], 0, 0)

  /** A JSON request body with string values. */
  type Json = map<string, string>

  datatype Body = Listing(items: seq<Record>) | Saved(record: Record) | Message(text: string)

  datatype Response = Response(status: int, body: Body)

  datatype Outcome = Outcome(response: Response, store: Store)

  /** What every reachable store satisfies: each record sits under its own
      id, which is below `nextId`; it satisfies the schema; its timestamps are
      ordered and in the past; and a record created later has a later
      `createdAt`. */
  ghost predicate Wf(st: Store) {
    && (forall k | k in st.records ::
          && st.records[k].id == k && k < st.nextId
          && Valid(st.records[k].student)
          && st.records[k].createdAt <= st.records[k].updatedAt < st.clock)
    && (forall a, b | a in st.records && b in st.records && a < b ::
          st.records[a].createdAt < st.records[b].createdAt)
  }

  /** The server starts from an empty collection: it is well formed, so the
      lemmas that assume `Wf` apply from the first request on, and it lists
      no records. */
  lemma EmptyWf()
    ensures Wf(Empty)
    ensures List(Empty, false).response == Response(200, Listing([]))
  {
    assert IdsDown(Empty.records, Empty.nextId) == [];
    assert NewestFirst(Empty) == [];
  }

  function Get(body: Json, key: string): Option<string> {
    if key in body then Some(body[key]) else None
  }

  /** The five schema paths of a body; every other key is ignored. */
  function Pick(body: Json): Fields {
    Fields(Get(body, "name"), Get(body, "email"), Get(body, "phone"), Get(body, "course"), Get(body, "status"))
  }

  /** The ids in use below `n`, largest first. */
  function IdsDown(m: map<Id, Record>, n: nat): (ids: seq<Id>)
    ensures forall k :: k in ids <==> k in m && k < n
    ensures forall i, j | 0 <= i < j < |ids| :: ids[i] > ids[j]
  {
    if n == 0 then []
    else if n - 1 in m then
      var rest := IdsDown(m, n - 1);
      assert forall i | 0 <= i < |rest| :: rest[i] in rest;
      [n - 1] + rest
    else IdsDown(m, n - 1)
  }

  /** Every stored record, most recently created first. */
  function NewestFirst(st: Store): seq<Record> {
    var ids := IdsDown(st.records, st.nextId);
    seq(|ids|, i requires 0 <= i < |ids| => st.records[ids[i]])
  }

  /** `GET /students`. */
  function List(st: Store, fault: bool): (o: Outcome)
    ensures o.store == st
    ensures fault ==> o.response == Response(500, Message("Failed to fetch students"))
    ensures !fault ==> o.response == Response(200, Listing(NewestFirst(st)))
  {
    if fault then Outcome(Response(500, Message("Failed to fetch students")), st)
    else Outcome(Response(200, Listing(NewestFirst(st))), st)
  }

  /** The listing holds exactly the stored records, each once, in strictly
      decreasing order of creation time. */
  lemma ListingSpec(st: Store)
    requires Wf(st)
    ensures forall r :: r in NewestFirst(st) <==> r in st.records.Values
    ensures forall i, j | 0 <= i < j < |NewestFirst(st)| ::
      NewestFirst(st)[i].createdAt > NewestFirst(st)[j].createdAt
  {
    var ids := IdsDown(st.records, st.nextId);
    var items := NewestFirst(st);
    forall r | r in st.records.Values
      ensures r in items
    {
      var k :| k in st.records && st.records[k] == r;
      var i :| 0 <= i < |ids| && ids[i] == k;
      assert items[i] == r;
    }
  }

  /** `POST /students`: reads the five schema paths of the body, validates,
      and inserts a new record under a fresh id. */
  function Create(st: Store, body: Json, fault: bool): (o: Outcome)
    ensures o.response.status in {201, 400, 500}
    ensures o.response.status == 400 <==> !Accepts(Pick(body))
    ensures o.response.status == 500 <==> Accepts(Pick(body)) && fault
    ensures o.response.status != 201 ==> o.store == st
    ensures o.response.status == 400 ==> o.response.body == Message("Validation error")
    ensures o.response.status == 500 ==> o.response.body == Message("Failed to create student")
    ensures o.response.status == 201 ==>
      && o.response.body.Saved?
      && var r := o.response.body.record;
      && r.id == st.nextId && r.createdAt == st.clock && r.updatedAt == st.clock
      && Validate(Pick(body)) == Success(r.student)
      && o.store == Store(st.records[r.id := r], st.nextId + 1, st.clock + 1)
  {
    var v := Validate(Pick(body));
    AcceptsIff(Pick(body));
    if v.Failure? then Outcome(Response(400, Message("Validation error")), st)
    else if fault then Outcome(Response(500, Message("Failed to create student")), st)
    else
      var r := Record(st.nextId, v.value, st.clock, st.clock);
      Outcome(Response(201, Saved(r)), Store(st.records[r.id := r], st.nextId + 1, st.clock + 1))
  }

  /** Inserting a valid record under `nextId`, stamped with the current
      clock, keeps a store well formed. */
  lemma InsertFreshWf(st: Store, r: Record)
    requires Wf(st)
    requires r.id == st.nextId && Valid(r.student) && r.createdAt == r.updatedAt == st.clock
    ensures Wf(Store(st.records[r.id := r], st.nextId + 1, st.clock + 1))
  {
    var m' := st.records[r.id := r];
    forall k | k in m'
      ensures m'[k].id == k && k < st.nextId + 1
      ensures Valid(m'[k].student)
      ensures m'[k].createdAt <= m'[k].updatedAt < st.clock + 1
    {
      if k != r.id {
        assert m'[k] == st.records[k];
      }
    }
    forall a, b | a in m' && b in m' && a < b
      ensures m'[a].createdAt < m'[b].createdAt
    {
      assert a != r.id;
      assert m'[a] == st.records[a];
      if b != r.id {
        assert m'[b] == st.records[b];
      }
    }
  }

  lemma CreatePreservesWf(st: Store, body: Json, fault: bool)
    requires Wf(st)
    ensures Wf(Create(st, body, fault).store)
  {
    var o := Create(st, body, fault);
    if o.response.status == 201 {
      InsertFreshWf(st, o.response.body.record);
    }
  }

  /** The next id is never in use. */
  lemma NextIdFresh(st: Store)
    requires Wf(st)
    ensures st.nextId !in st.records
  {
  }

  lemma InsertKeys(m: map<Id, Record>, k: Id, r: Record)
    requires k !in m
    ensures m[k := r].Keys == m.Keys + {k}
    ensures |m[k := r]| == |m| + 1
  {
    assert m[k := r].Keys == m.Keys + {k};
  }

  /** A successful create adds exactly one record, under an id not in use. */
  lemma CreateAddsOne(st: Store, body: Json, fault: bool)
    requires Wf(st)
    ensures var o := Create(st, body, fault);
      o.response.status == 201 ==>
        && st.nextId !in st.records
        && o.store.records.Keys == st.records.Keys + {st.nextId}
        && |o.store.records| == |st.records| + 1
  {
    NextIdFresh(st);
    var o := Create(st, body, fault);
    if o.response.status == 201 {
      InsertKeys(st.records, st.nextId, o.response.body.record);
    }
  }

  /** `PUT /students/:id`: the supplied paths are checked before the lookup;
      a record that exists has them written over it and its `updatedAt`
      refreshed, and the response carries the updated record. */
  function Update(st: Store, id: Id, body: Json, fault: bool): (o: Outcome)
    ensures o.response.status in {200, 400, 404, 500}
    ensures o.response.status == 400 <==> UpdateViolations(Pick(body)) != []
    ensures o.response.status == 500 <==> UpdateViolations(Pick(body)) == [] && fault
    ensures o.response.status == 404 <==> UpdateViolations(Pick(body)) == [] && !fault && id !in st.records
    ensures o.response.status != 200 ==> o.store == st
    ensures o.response.status == 400 ==> o.response.body == Message("Validation error")
    ensures o.response.status == 404 ==> o.response.body == Message("Student not found")
    ensures o.response.status == 500 ==> o.response.body == Message("Failed to update student")
    ensures o.response.status == 200 ==>
      && id in st.records && o.response.body.Saved?
      && var r := o.response.body.record;
      && r.id == st.records[id].id && r.createdAt == st.records[id].createdAt
      && r.updatedAt == st.clock
      && r.student == Apply(st.records[id].student, NormalisePaths(Pick(body)))
      && o.store == Store(st.records[id := r], st.nextId, st.clock + 1)
  {
    var f := Pick(body);
    if UpdateViolations(f) != [] then Outcome(Response(400, Message("Validation error")), st)
    else if fault then Outcome(Response(500, Message("Failed to update student")), st)
    else if id !in st.records then Outcome(Response(404, Message("Student not found")), st)
    else
      var prev := st.records[id];
      var r := prev.(student := Apply(prev.student, NormalisePaths(f)), updatedAt := st.clock);
      Outcome(Response(200, Saved(r)), Store(st.records[id := r], st.nextId, st.clock + 1))
  }

  /** On a well-formed store, an update to an existing record succeeds
      exactly when merging the body into the stored record and validating the
      whole would, and then yields the same fields, with `updatedAt` moved
      forward. */
  lemma UpdateAgreesWithMerge(st: Store, id: Id, body: Json)
    requires Wf(st)
    requires id in st.records
    ensures Update(st, id, body, false).response.status == 200 <==>
      Validate(Merge(st.records[id].student, Pick(body))).Success?
    ensures Update(st, id, body, false).response.status == 200 ==>
      && Success(Update(st, id, body, false).response.body.record.student)
         == Validate(Merge(st.records[id].student, Pick(body)))
      && Update(st, id, body, false).response.body.record.updatedAt > st.records[id].updatedAt
  {
    UpdateCheckAgrees(st.records[id].student, Pick(body));
  }

  lemma UpdatedRecordValid(st: Store, id: Id, body: Json, fault: bool)
    requires Wf(st)
    requires Update(st, id, body, fault).response.status == 200
    ensures Valid(Update(st, id, body, fault).response.body.record.student)
  {
    UpdateCheckAgrees(st.records[id].student, Pick(body));
  }

  /** Replacing a record by a valid one with the same id and creation time,
      stamped with the current clock, keeps a store well formed. */
  lemma ReplaceWf(st: Store, id: Id, r: Record)
    requires Wf(st) && id in st.records
    requires r.id == id && r.createdAt == st.records[id].createdAt && r.updatedAt == st.clock
    requires Valid(r.student)
    ensures Wf(Store(st.records[id := r], st.nextId, st.clock + 1))
  {
    var m' := st.records[id := r];
    forall k | k in m'
      ensures m'[k].id == k && k < st.nextId
      ensures Valid(m'[k].student)
      ensures m'[k].createdAt <= m'[k].updatedAt < st.clock + 1
    {
      if k != id {
        assert m'[k] == st.records[k];
      }
    }
    forall a, b | a in m' && b in m' && a < b
      ensures m'[a].createdAt < m'[b].createdAt
    {
      assert m'[a].createdAt == st.records[a].createdAt;
      assert m'[b].createdAt == st.records[b].createdAt;
    }
  }

  lemma UpdatePreservesWf(st: Store, id: Id, body: Json, fault: bool)
    requires Wf(st)
    ensures Wf(Update(st, id, body, fault).store)
  {
    var o := Update(st, id, body, fault);
    if o.response.status == 200 {
      UpdatedRecordValid(st, id, body, fault);
      ReplaceWf(st, id, o.response.body.record);
    }
  }

  /** An update never adds or removes a record and never touches a record
      other than its target. */
  lemma UpdateTouchesOnlyTarget(st: Store, id: Id, body: Json, fault: bool)
    ensures Update(st, id, body, fault).store.records.Keys == st.records.Keys
    ensures forall k | k in st.records && k != id ::
      Update(st, id, body, fault).store.records[k] == st.records[k]
  {
    var o := Update(st, id, body, fault);
    if o.response.status == 200 {
      assert o.store.records.Keys == st.records.Keys + {id};
    }
  }

  /** An update that only sets the status to another allowed value changes
      that field alone and moves `updatedAt` forward. */
  lemma UpdateStatusOnly(st: Store, id: Id, status: string)
    requires Wf(st) && id in st.records && status in Statuses
    ensures var o := Update(st, id, map["status" := status], false);
      && o.response.status == 200
      && o.response.body.record.student == st.records[id].student.(status := status)
      && o.response.body.record.updatedAt > st.records[id].updatedAt
  {
    var f := Pick(map["status" := status]);
    assert f == Fields(None, None, None, None, Some(status));
    UpdateViolationsEmpty(f);
  }

  /** `DELETE /students/:id`. */
  function Delete(st: Store, id: Id, fault: bool): (o: Outcome)
    ensures o.response.status in {200, 404, 500}
    ensures o.response.status == 500 <==> fault
    ensures o.response.status == 404 <==> !fault && id !in st.records
    ensures o.response.status != 200 ==> o.store == st
    ensures o.response.status == 404 ==> o.response.body == Message("Student not found")
    ensures o.response.status == 500 ==> o.response.body == Message("Failed to delete student")
    ensures o.response.status == 200 ==>
      && o.response.body == Message("Student deleted successfully")
      && o.store.records.Keys == st.records.Keys - {id}
      && (forall k | k in o.store.records :: o.store.records[k] == st.records[k])
      && o.store.nextId == st.nextId && o.store.clock == st.clock
  {
    if fault then Outcome(Response(500, Message("Failed to delete student")), st)
    else if id !in st.records then Outcome(Response(404, Message("Student not found")), st)
    else Outcome(Response(200, Message("Student deleted successfully")), st.(records := st.records - {id}))
  }

  /** Removing a record keeps a store well formed. */
  lemma RemoveWf(st: Store, id: Id)
    requires Wf(st)
    ensures Wf(st.(records := st.records - {id}))
  {
    var m' := st.records - {id};
    forall k | k in m'
      ensures m'[k] == st.records[k]
    {
    }
  }

  lemma DeletePreservesWf(st: Store, id: Id, fault: bool)
    requires Wf(st)
    ensures Wf(Delete(st, id, fault).store)
  {
    RemoveWf(st, id);
  }

  /** Deleting an id a second time finds nothing: the second call answers
      404 and leaves the store as the first call left it. */
  lemma DeleteTwice(st: Store, id: Id)
    ensures var once := Delete(st, id, false).store;
      && Delete(once, id, false).response.status == 404
      && Delete(once, id, false).store == once
  {
  }

  /** Only the five schema paths of a create body matter: two bodies that
      agree on them get the same answer and leave the same store. */
  lemma CreateReadsSchemaPaths(st: Store, b1: Json, b2: Json, fault: bool)
    requires forall k | k in ["name", "email", "phone", "course", "status"] ::
      Get(b1, k) == Get(b2, k)
    ensures Create(st, b1, fault) == Create(st, b2, fault)
  {
    assert Pick(b1) == Pick(b2);
  }

  /** A record just created is the first one the next listing shows. */
  lemma CreateThenListFirst(st: Store, body: Json)
    requires Wf(st)
    requires Create(st, body, false).response.status == 201
    ensures var st' := Create(st, body, false).store;
      && |NewestFirst(st')| > 0
      && NewestFirst(st')[0] == Create(st, body, false).response.body.record
  {
    var st' := Create(st, body, false).store;
    var ids := IdsDown(st'.records, st'.nextId);
    assert st.nextId in st'.records;
    assert ids == [st.nextId] + IdsDown(st'.records, st.nextId);
  }
}
