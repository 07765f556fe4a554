// Objects with identity keys: the single upsert, the batch upsert, partial update, soft delete.
//
// The session does not flush by itself. While a batch runs, stored rows are shared and updated in
// place, but rows the batch itself has added are pending and invisible to its later lookups.
module ObjectUpsert {
  import opened Common

  datatype Obj = Obj(
    project: Uuid,
    identityKey: Option<string>,
    classId: Option<Uuid>,
    classIri: string,
    versionId: Option<Uuid>,
    objectType: string,
    name: string,
    description: Option<string>,
    data: Item,
    sourceId: Option<Uuid>,
    mappingVersionId: Option<Uuid>,
    status: string,
    confidence: real,
    deleted: bool)

  datatype Payload = Payload(
    identityKey: Option<string>,
    classId: Option<Uuid>,
    classIri: Option<string>,
    versionId: Option<Uuid>,
    objectType: string,
    name: string,
    description: Option<string>,
    data: Item,
    sourceId: Option<Uuid>,
    mappingVersionId: Option<Uuid>,
    status: string,
    confidence: real)

  datatype Patch = Patch(
    name: Option<string>,
    description: Option<string>,
    data: Option<Item>,
    status: Option<string>,
    confidence: Option<real>,
    objectType: Option<string>)

  // A request item and the primary key its row would get.
  datatype Line = Line(id: Uuid, payload: Payload)

  type Store = map<Uuid, Obj>

  // What every line of one request shares; `replace` says whether an update replaces the data.
  datatype Context = Context(classes: map<Uuid, string>, project: Uuid, replace: bool)

  // ---------------------------------------------------------------- one upsert

  // Class ids resolve through the class table, an IRI is taken as it is, and without either the
  // object is bound to a placeholder.
  function ValidateClass(classes: map<Uuid, string>, p: Payload): Result<string> {
    if p.classId.Some? then
      if p.classId.value in classes then Ok(classes[p.classId.value]) else Refused(BadRequest)
    else if p.classIri.Some? && p.classIri.value != "" then Ok(p.classIri.value)
    else Ok("owl:Thing")
  }

  predicate HasKey(key: Option<string>) {
    key.Some? && key.value != ""
  }

  predicate Carries(o: Obj, project: Uuid, key: Option<string>) {
    HasKey(key) && o.project == project && o.identityKey == key && !o.deleted
  }

  function LiveWith(store: Store, project: Uuid, key: Option<string>): set<Uuid> {
    set id | id in store && Carries(store[id], project, key)
  }

  predicate TwoLive(store: Store, project: Uuid, key: Option<string>) {
    exists a, b | a in LiveWith(store, project, key) && b in LiveWith(store, project, key) :: a != b
  }

  function Inserted(project: Uuid, p: Payload, iri: string): Obj {
    Obj(project, p.identityKey, p.classId, iri, p.versionId, p.objectType, p.name, p.description, p.data,
        p.sourceId, p.mappingVersionId, p.status, p.confidence, false)
  }

  function Updated(o: Obj, p: Payload, iri: string, replace: bool): Obj {
    o.(name := p.name,
       description := p.description,
       data := if replace then p.data else o.data + p.data,
       status := p.status,
       objectType := p.objectType,
       confidence := p.confidence,
       classIri := iri,
       classId := if p.classId.Some? then p.classId else o.classId,
       versionId := if p.versionId.Some? then p.versionId else o.versionId)
  }

  ghost function Pick(ids: set<Uuid>): (id: Uuid)
    requires ids != {}
    ensures id in ids
  {
    var id :| id in ids; id
  }

  // create_object is this step with `replace` set.
  ghost function Upsert(ctx: Context, store: Store, line: Line): Result<Store> {
    var p := line.payload;
    match ValidateClass(ctx.classes, p)
    case Refused(reason) => Refused(reason)
    case Ok(iri) =>
      if TwoLive(store, ctx.project, p.identityKey) then Refused(ServerError)
      else
        var live := LiveWith(store, ctx.project, p.identityKey);
        if live != {} then Ok(store[Pick(live) := Updated(store[Pick(live)], p, iri, ctx.replace)])
        else if line.id in store then Refused(UniqueViolation)
        else Ok(store[line.id := Inserted(ctx.project, p, iri)])
  }

  function Patched(o: Obj, p: Patch): Obj {
    o.(name := if p.name.Some? then p.name.value else o.name,
       description := if p.description.Some? then p.description else o.description,
       data := if p.data.Some? then p.data.value else o.data,
       status := if p.status.Some? then p.status.value else o.status,
       confidence := if p.confidence.Some? then p.confidence.value else o.confidence,
       objectType := if p.objectType.Some? then p.objectType.value else o.objectType)
  }

  predicate Visible(store: Store, project: Uuid, id: Uuid) {
    id in store && store[id].project == project && !store[id].deleted
  }

  // ---------------------------------------------------------------- batch and sequence

  datatype Batch = Batch(store: Store, pending: Store, inserted: nat, updated: nat, failed: nat)

  ghost function BatchStep(ctx: Context, b: Batch, line: Line): Batch {
    var p := line.payload;
    match ValidateClass(ctx.classes, p)
    case Refused(_) => b.(failed := b.failed + 1)
    case Ok(iri) =>
      if TwoLive(b.store, ctx.project, p.identityKey) then b.(failed := b.failed + 1)
      else
        var live := LiveWith(b.store, ctx.project, p.identityKey);
        if live != {} then
          b.(store := b.store[Pick(live) := Updated(b.store[Pick(live)], p, iri, ctx.replace)],
             updated := b.updated + 1)
        else b.(pending := b.pending[line.id := Inserted(ctx.project, p, iri)], inserted := b.inserted + 1)
  }

  ghost function RunBatch(ctx: Context, store: Store, lines: seq<Line>): Batch {
    if lines == [] then Batch(store, map[], 0, 0, 0)
    else BatchStep(ctx, RunBatch(ctx, store, lines[..|lines| - 1]), lines[|lines| - 1])
  }

  // The positions of the lines that raised, in order.
  ghost function FailedLines(ctx: Context, store: Store, lines: seq<Line>): seq<nat> {
    if lines == [] then []
    else
      var front := lines[..|lines| - 1];
      FailedLines(ctx, store, front) +
      if RunBatch(ctx, store, lines).failed > RunBatch(ctx, store, front).failed then [|front|] else []
  }

  ghost function Committed(b: Batch): Store {
    b.store + b.pending
  }

  // One single upsert after the other; a refused one is skipped.
  ghost function Sequence(ctx: Context, store: Store, lines: seq<Line>): Store {
    if lines == [] then store
    else
      var before := Sequence(ctx, store, lines[..|lines| - 1]);
      match Upsert(ctx, before, lines[|lines| - 1])
      case Ok(after) => after
      case Refused(_) => before
  }

  // New primary keys do not repeat and are not in use.
  ghost predicate FreshIds(store: Store, lines: seq<Line>) {
    && (forall i :: 0 <= i < |lines| ==> lines[i].id !in store)
    && (forall i, j :: 0 <= i < j < |lines| ==> lines[i].id != lines[j].id)
  }

  // At most one live object per project and identity key.
  ghost predicate Unique(store: Store) {
    forall a, b :: a in store && b in store && a != b && Carries(store[a], store[a].project, store[a].identityKey) ==>
      !Carries(store[b], store[a].project, store[a].identityKey)
  }

  class Objects {
    var store: Store
    const classes: map<Uuid, string>

    constructor (classes: map<Uuid, string>)
      ensures store == map[] && this.classes == classes
    {
      this.classes := classes;
      store := map[];
    }

    method CreateObject(project: Uuid, line: Line) returns (refusal: Option<Refusal>)
      modifies this
      ensures match Upsert(Context(classes, project, true), old(store), line)
              case Ok(after) => store == after && refusal == None
              case Refused(reason) => store == old(store) && refusal == Some(reason)
    {
      var p := line.payload;
      var iri := ValidateClass(classes, p);
      if iri.Refused? {
        return Some(iri.reason);
      }
      var live := LiveWith(store, project, p.identityKey);
      if TwoLive(store, project, p.identityKey) {
        return Some(ServerError);
      }
      if live != {} {
        var existing :| existing in live;
        assert Pick(live) == existing;
        store := store[existing := Updated(store[existing], p, iri.value, true)];
        return None;
      }
      if line.id in store {
        return Some(UniqueViolation);
      }
      store := store[line.id := Inserted(project, p, iri.value)];
      return None;
    }

    method UpdateObject(project: Uuid, id: Uuid, patch: Patch) returns (refusal: Option<Refusal>)
      modifies this
      ensures if Visible(old(store), project, id)
              then store == old(store)[id := Patched(old(store)[id], patch)] && refusal == None
              else store == old(store) && refusal == Some(NotFound)
    {
      if !Visible(store, project, id) {
        return Some(NotFound);
      }
      var o := store[id];
      if patch.name.Some? {
        o := o.(name := patch.name.value);
      }
      if patch.description.Some? {
        o := o.(description := patch.description);
      }
      if patch.data.Some? {
        o := o.(data := patch.data.value);
      }
      if patch.status.Some? {
        o := o.(status := patch.status.value);
      }
      if patch.confidence.Some? {
        o := o.(confidence := patch.confidence.value);
      }
      if patch.objectType.Some? {
        o := o.(objectType := patch.objectType.value);
      }
      store := store[id := o];
      return None;
    }

    method SoftDelete(project: Uuid, id: Uuid) returns (refusal: Option<Refusal>)
      modifies this
      ensures if Visible(old(store), project, id)
              then store == old(store)[id := old(store)[id].(deleted := true)] && refusal == None
              else store == old(store) && refusal == Some(NotFound)
    {
      if !Visible(store, project, id) {
        return Some(NotFound);
      }
      store := store[id := store[id].(deleted := true)];
      return None;
    }

    // The pending rows reach the table when the batch commits.
    method BulkUpsert(project: Uuid, lines: seq<Line>, replace: bool)
      returns (inserted: nat, updated: nat, failed: nat, errors: seq<nat>)
      modifies this
      ensures
        var b := RunBatch(Context(classes, project, replace), old(store), lines);
        store == Committed(b) && inserted == b.inserted && updated == b.updated && failed == b.failed
      ensures inserted + updated + failed == |lines| && |errors| == failed
      ensures errors == FailedLines(Context(classes, project, replace), old(store), lines)
    {
      inserted, updated, failed, errors := 0, 0, 0, [];
      var pending: Store := map[];
      for i := 0 to |lines|
        invariant Batch(store, pending, inserted, updated, failed) ==
                  RunBatch(Context(classes, project, replace), old(store), lines[..i])
        invariant inserted + updated + failed == i && |errors| == failed
        invariant errors == FailedLines(Context(classes, project, replace), old(store), lines[..i])
      {
        assert lines[..i + 1][..i] == lines[..i];
        var p := lines[i].payload;
        var iri := ValidateClass(classes, p);
        var live := LiveWith(store, project, p.identityKey);
        if iri.Refused? || TwoLive(store, project, p.identityKey) {
          failed, errors := failed + 1, errors + [i];
        } else if live != {} {
          var existing :| existing in live;
          assert Pick(live) == existing;
          store := store[existing := Updated(store[existing], p, iri.value, replace)];
          updated := updated + 1;
        } else {
          pending := pending[lines[i].id := Inserted(project, p, iri.value)];
          inserted := inserted + 1;
        }
      }
      assert lines[..|lines|] == lines;
      store := store + pending;
    }
  }

  // ---------------------------------------------------------------- uniqueness

  lemma UniqueMeansNoTwo(store: Store, project: Uuid, key: Option<string>)
    requires Unique(store)
    ensures !TwoLive(store, project, key)
  {
  }

  // Rewriting a row without touching its project, its key or its deletion changes no lookup.
  lemma SameIdentity(store: Store, id: Uuid, o: Obj)
    requires id in store
    requires o.project == store[id].project && o.identityKey == store[id].identityKey && o.deleted == store[id].deleted
    ensures Unique(store) ==> Unique(store[id := o])
    ensures forall project, key :: LiveWith(store[id := o], project, key) == LiveWith(store, project, key)
  {
  }

  lemma UpsertKeepsUnique(ctx: Context, store: Store, line: Line)
    requires Unique(store) && Upsert(ctx, store, line).Ok?
    ensures Unique(Upsert(ctx, store, line).value)
  {
    var p, live := line.payload, LiveWith(store, ctx.project, line.payload.identityKey);
    if live != {} {
      SameIdentity(store, Pick(live), Updated(store[Pick(live)], p, ValidateClass(ctx.classes, p).value, ctx.replace));
    } else {
      forall a | a in store && HasKey(p.identityKey) && !store[a].deleted && store[a].project == ctx.project
        ensures store[a].identityKey != p.identityKey
      {
        assert a !in live;
      }
    }
  }

  lemma PatchAndDeleteKeepUnique(store: Store, id: Uuid, patch: Patch)
    requires Unique(store) && id in store
    ensures Unique(store[id := Patched(store[id], patch)])
    ensures Unique(store[id := store[id].(deleted := true)])
  {
  }

  lemma {:induction false} SequenceKeepsUnique(ctx: Context, store: Store, lines: seq<Line>)
    requires Unique(store)
    ensures Unique(Sequence(ctx, store, lines))
  {
    if lines == [] {
    } else {
      var front, last := lines[..|lines| - 1], lines[|lines| - 1];
      SequenceKeepsUnique(ctx, store, front);
      var before := Sequence(ctx, store, front);
      if Upsert(ctx, before, last).Ok? {
        UpsertKeepsUnique(ctx, before, last);
      }
    }
  }

  // ---------------------------------------------------------------- what a batch does

  // A line becomes a new row exactly when its class is valid and its key, if any, is not live in
  // the store the batch started from, whatever the lines before it did.
  ghost predicate Inserts(ctx: Context, store: Store, p: Payload) {
    ValidateClass(ctx.classes, p).Ok? && LiveWith(store, ctx.project, p.identityKey) == {}
  }

  ghost function NewRow(ctx: Context, p: Payload): Obj
    requires ValidateClass(ctx.classes, p).Ok?
  {
    Inserted(ctx.project, p, ValidateClass(ctx.classes, p).value)
  }

  ghost predicate PendingAre(ctx: Context, store: Store, lines: seq<Line>, pending: Store) {
    && (forall i :: 0 <= i < |lines| && Inserts(ctx, store, lines[i].payload) ==>
          lines[i].id in pending && pending[lines[i].id] == NewRow(ctx, lines[i].payload))
    && (forall id :: id in pending ==>
          exists i :: 0 <= i < |lines| && lines[i].id == id && Inserts(ctx, store, lines[i].payload))
  }

  ghost predicate SameLookups(a: Store, b: Store) {
    a.Keys == b.Keys && Unique(a) && forall project, key :: LiveWith(a, project, key) == LiveWith(b, project, key)
  }

  lemma {:induction false} BatchFacts(ctx: Context, store: Store, lines: seq<Line>)
    requires Unique(store) && FreshIds(store, lines)
    ensures
      var b := RunBatch(ctx, store, lines);
      SameLookups(b.store, store) && PendingAre(ctx, store, lines, b.pending)
  {
    if lines == [] {
    } else {
      var front, last := lines[..|lines| - 1], lines[|lines| - 1];
      assert lines == front + [last];
      BatchFacts(ctx, store, front);
      hide SameLookups, PendingAre, BatchStep, Unique, FreshIds;
      var b := RunBatch(ctx, store, front);
      BatchStepStore(ctx, store, b, last);
      BatchStepPending(ctx, store, b, front, last);
    }
  }

  lemma BatchStepStore(ctx: Context, store: Store, b: Batch, line: Line)
    requires SameLookups(b.store, store)
    ensures SameLookups(BatchStep(ctx, b, line).store, store)
    ensures BatchStep(ctx, b, line).pending ==
            if Inserts(ctx, store, line.payload)
            then b.pending[line.id := NewRow(ctx, line.payload)]
            else b.pending
  {
    var p := line.payload;
    UniqueMeansNoTwo(b.store, ctx.project, p.identityKey);
    var live := LiveWith(b.store, ctx.project, p.identityKey);
    assert live == LiveWith(store, ctx.project, p.identityKey);
    if ValidateClass(ctx.classes, p).Ok? && live != {} {
      var iri := ValidateClass(ctx.classes, p).value;
      SameIdentity(b.store, Pick(live), Updated(b.store[Pick(live)], p, iri, ctx.replace));
    }
  }

  lemma PendingExtends(ctx: Context, store: Store, front: seq<Line>, last: Line, pending: Store)
    requires PendingAre(ctx, store, front, pending)
    requires forall i :: 0 <= i < |front| ==> front[i].id != last.id
    ensures
      var after := if Inserts(ctx, store, last.payload) then pending[last.id := NewRow(ctx, last.payload)] else pending;
      PendingAre(ctx, store, front + [last], after)
  {
    var lines := front + [last];
    var after := if Inserts(ctx, store, last.payload) then pending[last.id := NewRow(ctx, last.payload)] else pending;
    assert lines[|front|] == last;
    hide NewRow, Inserts;
    forall id | id in after
      ensures exists i :: 0 <= i < |lines| && lines[i].id == id && Inserts(ctx, store, lines[i].payload)
    {
      if id in pending {
        var i :| 0 <= i < |front| && front[i].id == id && Inserts(ctx, store, front[i].payload);
        assert lines[i] == front[i];
      }
    }
  }

  lemma BatchStepPending(ctx: Context, store: Store, b: Batch, front: seq<Line>, last: Line)
    requires SameLookups(b.store, store) && PendingAre(ctx, store, front, b.pending)
    requires FreshIds(store, front + [last])
    ensures PendingAre(ctx, store, front + [last], BatchStep(ctx, b, last).pending)
  {
    var lines := front + [last];
    assert lines[|front|] == last && forall i :: 0 <= i < |front| ==> lines[i] == front[i];
    BatchStepStore(ctx, store, b, last);
    PendingExtends(ctx, store, front, last, b.pending);
    hide PendingAre, SameLookups, BatchStep, Inserts, NewRow;
  }

  // ---------------------------------------------------------------- batch against sequence

  // An identity key that is not live in the store occurs on two valid lines.
  ghost predicate RepeatsNewKey(ctx: Context, store: Store, lines: seq<Line>) {
    exists i, j :: 0 <= i < j < |lines| && Collide(ctx, store, lines[i].payload, lines[j].payload)
  }

  ghost predicate Collide(ctx: Context, store: Store, p: Payload, q: Payload) {
    && HasKey(p.identityKey) && p.identityKey == q.identityKey
    && Inserts(ctx, store, p) && Inserts(ctx, store, q)
  }

  // Two colliding lines leave two live rows under their key.
  lemma CollidingRowsStay(ctx: Context, store: Store, lines: seq<Line>, i: nat, j: nat)
    requires Unique(store) && FreshIds(store, lines)
    requires i < j < |lines| && Collide(ctx, store, lines[i].payload, lines[j].payload)
    ensures
      var c, key := Committed(RunBatch(ctx, store, lines)), lines[i].payload.identityKey;
      && lines[i].id != lines[j].id && lines[i].id in c && lines[j].id in c
      && Carries(c[lines[i].id], ctx.project, key) && Carries(c[lines[j].id], ctx.project, key)
  {
    BatchFacts(ctx, store, lines);
    hide RunBatch, LiveWith, ValidateClass, SameLookups;
  }

  lemma RepeatBreaksUnique(ctx: Context, store: Store, lines: seq<Line>)
    requires Unique(store) && FreshIds(store, lines) && RepeatsNewKey(ctx, store, lines)
    ensures !Unique(Committed(RunBatch(ctx, store, lines)))
  {
    var i, j :| 0 <= i < j < |lines| && Collide(ctx, store, lines[i].payload, lines[j].payload);
    CollidingRowsStay(ctx, store, lines, i, j);
    hide RunBatch, Committed, FreshIds, Collide;
  }

  // From then on no valid line with that key gets through.
  lemma RepeatedKeyIsRefused(ctx: Context, store: Store, lines: seq<Line>, i: nat, j: nat, next: Line, replace: bool)
    requires Unique(store) && FreshIds(store, lines)
    requires i < j < |lines| && Collide(ctx, store, lines[i].payload, lines[j].payload)
    requires next.payload.identityKey == lines[i].payload.identityKey && ValidateClass(ctx.classes, next.payload).Ok?
    ensures Upsert(ctx.(replace := replace), Committed(RunBatch(ctx, store, lines)), next) == Refused(ServerError)
  {
    CollidingRowsStay(ctx, store, lines, i, j);
    hide RunBatch, Committed, Unique, FreshIds, Collide, Carries;
    var c, key := Committed(RunBatch(ctx, store, lines)), lines[i].payload.identityKey;
    assert lines[i].id in LiveWith(c, ctx.project, key) && lines[j].id in LiveWith(c, ctx.project, key);
  }

  // What the two paths look up for the next line: the same live row, or nobody in either.
  lemma LookupsAgree(ctx: Context, store: Store, front: seq<Line>, last: Line, b: Batch)
    requires SameLookups(b.store, store) && PendingAre(ctx, store, front, b.pending)
    requires FreshIds(store, front + [last]) && !RepeatsNewKey(ctx, store, front + [last])
    requires ValidateClass(ctx.classes, last.payload).Ok?
    ensures last.id !in Committed(b)
    ensures b.store.Keys !! b.pending.Keys
    ensures LiveWith(b.store, ctx.project, last.payload.identityKey) ==
            LiveWith(Committed(b), ctx.project, last.payload.identityKey)
  {
    var key, lines := last.payload.identityKey, front + [last];
    assert lines[|front|] == last;
    assert forall i :: 0 <= i < |front| ==> lines[i] == front[i] && front[i].id != last.id && front[i].id !in store;
    forall id | id in b.pending
      ensures !Carries(b.pending[id], ctx.project, key) && id !in store && id != last.id
    {
      var i :| 0 <= i < |front| && front[i].id == id && Inserts(ctx, store, front[i].payload);
      assert !Collide(ctx, store, lines[i].payload, lines[|front|].payload);
    }
    assert forall id :: id in LiveWith(Committed(b), ctx.project, key) <==> id in LiveWith(b.store, ctx.project, key);
  }

  // With the same lookup on both paths, the batch step commits to what the single upsert stores.
  lemma StepsAgree(ctx: Context, b: Batch, line: Line)
    requires
      var key := line.payload.identityKey;
      && LiveWith(b.store, ctx.project, key) == LiveWith(Committed(b), ctx.project, key)
      && !TwoLive(b.store, ctx.project, key) && !TwoLive(Committed(b), ctx.project, key)
    requires line.id !in Committed(b) && b.store.Keys !! b.pending.Keys
    ensures Committed(BatchStep(ctx, b, line)) ==
            match Upsert(ctx, Committed(b), line) case Ok(after) => after case Refused(_) => Committed(b)
  {
    var live := LiveWith(b.store, ctx.project, line.payload.identityKey);
    assert live != {} ==> Pick(live) in b.store && Committed(b)[Pick(live)] == b.store[Pick(live)];
    hide LiveWith, TwoLive, ValidateClass, Updated, Inserted;
  }

  lemma NextLineAgrees(ctx: Context, store: Store, front: seq<Line>, last: Line, b: Batch)
    requires SameLookups(b.store, store) && PendingAre(ctx, store, front, b.pending)
    requires FreshIds(store, front + [last]) && !RepeatsNewKey(ctx, store, front + [last])
    requires Unique(Committed(b))
    ensures Committed(BatchStep(ctx, b, last)) ==
            match Upsert(ctx, Committed(b), last) case Ok(after) => after case Refused(_) => Committed(b)
  {
    if ValidateClass(ctx.classes, last.payload).Ok? {
      LookupsAgree(ctx, store, front, last, b);
      UniqueMeansNoTwo(b.store, ctx.project, last.payload.identityKey);
      UniqueMeansNoTwo(Committed(b), ctx.project, last.payload.identityKey);
      hide PendingAre, FreshIds, RepeatsNewKey, Upsert, BatchStep, Committed, TwoLive, LiveWith, Unique;
      StepsAgree(ctx, b, last);
    }
  }

  lemma {:induction false} NoRepeatMeansEqual(ctx: Context, store: Store, lines: seq<Line>)
    requires Unique(store) && FreshIds(store, lines) && !RepeatsNewKey(ctx, store, lines)
    ensures Committed(RunBatch(ctx, store, lines)) == Sequence(ctx, store, lines)
  {
    if lines == [] {
    } else {
      var front, last := lines[..|lines| - 1], lines[|lines| - 1];
      assert lines == front + [last];
      RepeatCarriesOver(ctx, store, front, last);
      NoRepeatMeansEqual(ctx, store, front);
      BatchFacts(ctx, store, front);
      SequenceKeepsUnique(ctx, store, front);
      NextLineAgrees(ctx, store, front, last, RunBatch(ctx, store, front));
      hide Upsert, BatchStep, Committed, Unique, SameLookups, PendingAre, FreshIds, RepeatsNewKey;
    }
  }

  lemma RepeatCarriesOver(ctx: Context, store: Store, front: seq<Line>, last: Line)
    ensures RepeatsNewKey(ctx, store, front) ==> RepeatsNewKey(ctx, store, front + [last])
  {
    hide Collide;
    if RepeatsNewKey(ctx, store, front) {
      var i, j :| 0 <= i < j < |front| && Collide(ctx, store, front[i].payload, front[j].payload);
      assert (front + [last])[i] == front[i] && (front + [last])[j] == front[j];
    }
  }

  // A batch refines the sequence of single upserts if and only if no key that is not live in the
  // store repeats among its valid lines; and exactly then it keeps identity keys unique.
  lemma BatchEqualsSequenceIff(ctx: Context, store: Store, lines: seq<Line>)
    requires Unique(store) && FreshIds(store, lines)
    ensures Committed(RunBatch(ctx, store, lines)) == Sequence(ctx, store, lines)
            <==> !RepeatsNewKey(ctx, store, lines)
    ensures Unique(Committed(RunBatch(ctx, store, lines))) <==> !RepeatsNewKey(ctx, store, lines)
  {
    hide *;
    SequenceKeepsUnique(ctx, store, lines);
    if RepeatsNewKey(ctx, store, lines) {
      RepeatBreaksUnique(ctx, store, lines);
    } else {
      NoRepeatMeansEqual(ctx, store, lines);
    }
  }

  lemma BatchStepCounts(ctx: Context, b: Batch, line: Line)
    requires line.id !in b.pending
    ensures
      var b' := BatchStep(ctx, b, line);
      && b'.inserted + b'.updated + b'.failed == b.inserted + b.updated + b.failed + 1
      && b'.inserted - b.inserted == |b'.pending| - |b.pending|
  {
  }

  lemma NextIdIsNew(ctx: Context, store: Store, front: seq<Line>, last: Line, pending: Store)
    requires PendingAre(ctx, store, front, pending) && FreshIds(store, front + [last])
    ensures last.id !in pending
  {
    var lines := front + [last];
    assert lines[|front|] == last;
    assert forall i :: 0 <= i < |front| ==> lines[i] == front[i] && lines[i].id != last.id;
  }

  // Every line is counted once, and the rows the batch adds are exactly the inserted ones.
  lemma {:induction false} BatchCounts(ctx: Context, store: Store, lines: seq<Line>)
    requires Unique(store) && FreshIds(store, lines)
    ensures
      var b := RunBatch(ctx, store, lines);
      b.inserted + b.updated + b.failed == |lines| && b.inserted == |b.pending|
  {
    if lines == [] {
    } else {
      var front, last := lines[..|lines| - 1], lines[|lines| - 1];
      assert lines == front + [last];
      BatchCounts(ctx, store, front);
      BatchFacts(ctx, store, front);
      hide SameLookups, PendingAre, BatchStep, Unique, FreshIds;
      var b := RunBatch(ctx, store, front);
      NextIdIsNew(ctx, store, front, last, b.pending);
      BatchStepCounts(ctx, b, last);
    }
  }

  // ---------------------------------------------------------------- what an upsert stores

  // A class that is named by id has to exist.
  predicate IsValid(classes: map<Uuid, string>, p: Payload) {
    p.classId.Some? ==> p.classId.value in classes
  }

  function FieldOf(data: Item, field: string): Option<Json> {
    if field in data then Some(data[field]) else None
  }

  // The columns every accepted upsert writes.
  predicate Shows(o: Obj, classes: map<Uuid, string>, p: Payload) {
    && o.name == p.name && o.description == p.description && o.status == p.status
    && o.objectType == p.objectType && o.confidence == p.confidence
    && (p.classId.Some? ==> p.classId.value in classes && o.classIri == classes[p.classId.value])
    && (p.classId.None? && p.classIri.Some? && p.classIri.value != "" ==> Some(o.classIri) == p.classIri)
    && (p.classId.None? && (p.classIri.None? || p.classIri.value == "") ==> o.classIri == "owl:Thing")
  }

  // A row that an upsert adds.
  predicate IsNewRow(o: Obj, ctx: Context, p: Payload) {
    && Shows(o, ctx.classes, p) && o.data == p.data && o.project == ctx.project && o.identityKey == p.identityKey
    && o.classId == p.classId && o.versionId == p.versionId && o.sourceId == p.sourceId
    && o.mappingVersionId == p.mappingVersionId && !o.deleted
  }

  // A row that an upsert writes over: the data field by field, the rest as sent or as it was.
  predicate IsOverwrite(o: Obj, was: Obj, ctx: Context, p: Payload) {
    && Shows(o, ctx.classes, p)
    && (forall field | field in o.data :: field in p.data || field in was.data)
    && (forall field | field in p.data :: FieldOf(o.data, field) == Some(p.data[field]))
    && (forall field | field in was.data :: field !in p.data ==>
          FieldOf(o.data, field) == if ctx.replace then None else Some(was.data[field]))
    && o.classId == (if p.classId.Some? then p.classId else was.classId)
    && o.versionId == (if p.versionId.Some? then p.versionId else was.versionId)
    && o.project == was.project && o.identityKey == was.identityKey && o.deleted == was.deleted
    && o.sourceId == was.sourceId && o.mappingVersionId == was.mappingVersionId
  }

  lemma ReplacedData(o: Obj, was: Obj, ctx: Context, p: Payload)
    requires IsOverwrite(o, was, ctx, p) && ctx.replace
    ensures o.data == p.data
  {
    forall field
      ensures field in o.data <==> field in p.data
    {
      assert field in was.data && field !in p.data ==> FieldOf(o.data, field) == None;
    }
    forall field | field in p.data
      ensures o.data[field] == p.data[field]
    {
      assert FieldOf(o.data, field) == Some(p.data[field]);
    }
  }

  lemma InsertedIsNewRow(ctx: Context, p: Payload)
    ensures ValidateClass(ctx.classes, p).Ok? <==> IsValid(ctx.classes, p)
    ensures ValidateClass(ctx.classes, p).Ok? ==>
      IsNewRow(Inserted(ctx.project, p, ValidateClass(ctx.classes, p).value), ctx, p)
  {
  }

  lemma UpdatedIsOverwrite(ctx: Context, was: Obj, p: Payload)
    requires ValidateClass(ctx.classes, p).Ok?
    ensures IsOverwrite(Updated(was, p, ValidateClass(ctx.classes, p).value, ctx.replace), was, ctx, p)
  {
  }

  // One upsert into a sound store, in full. It is accepted if and only if the class is known and a
  // new row gets a new primary key. Then exactly one row is written: the live one with the key, or
  // else a new one, which from then on is the live one.
  lemma UpsertStores(ctx: Context, store: Store, line: Line) returns (id: Uuid)
    requires Unique(store)
    ensures
      var p, live := line.payload, LiveWith(store, ctx.project, line.payload.identityKey);
      && (Upsert(ctx, store, line).Ok? <==> IsValid(ctx.classes, p) && (live == {} ==> line.id !in store))
      && (Upsert(ctx, store, line).Ok? ==>
            var after := Upsert(ctx, store, line).value;
            && after.Keys == store.Keys + {id}
            && (forall other :: other in store && other != id ==> after[other] == store[other])
            && (HasKey(p.identityKey) ==> LiveWith(after, ctx.project, p.identityKey) == {id})
            && (if live == {} then id == line.id && IsNewRow(after[id], ctx, p)
                else live == {id} && id in store && IsOverwrite(after[id], store[id], ctx, p)))
  {
    var p, live := line.payload, LiveWith(store, ctx.project, line.payload.identityKey);
    UniqueMeansNoTwo(store, ctx.project, p.identityKey);
    InsertedIsNewRow(ctx, p);
    hide ValidateClass, Unique, Shows;
    if live == {} {
      id := line.id;
    } else {
      id := Pick(live);
      assert live == {id};
      if ValidateClass(ctx.classes, p).Ok? {
        UpdatedIsOverwrite(ctx, store[id], p);
      }
    }
    if Upsert(ctx, store, line).Ok? && HasKey(p.identityKey) {
      LiveAfterWrite(store, Upsert(ctx, store, line).value, ctx.project, p.identityKey, id);
    }
  }

  lemma LiveAfterWrite(store: Store, after: Store, project: Uuid, key: Option<string>, id: Uuid)
    requires after.Keys == store.Keys + {id}
    requires forall other :: other in store && other != id ==> after[other] == store[other]
    requires Carries(after[id], project, key) && LiveWith(store, project, key) <= {id}
    ensures LiveWith(after, project, key) == {id}
  {
    forall other | other in LiveWith(after, project, key)
      ensures other == id
    {
      assert other == id || other in LiveWith(store, project, key);
    }
  }

  // ---------------------------------------------------------------- what a batch stores

  // A line that writes the object with this key.
  predicate Touches(ctx: Context, line: Line, key: Option<string>) {
    line.payload.identityKey == key && IsValid(ctx.classes, line.payload)
  }

  predicate Touched(ctx: Context, lines: seq<Line>, key: Option<string>) {
    exists i | 0 <= i < |lines| :: Touches(ctx, lines[i], key)
  }

  function LastTouch(ctx: Context, lines: seq<Line>, key: Option<string>): (line: Line)
    requires Touched(ctx, lines, key)
    ensures line in lines && Touches(ctx, line, key)
  {
    if Touches(ctx, lines[|lines| - 1], key) then lines[|lines| - 1] else LastTouch(ctx, lines[..|lines| - 1], key)
  }

  function FirstTouch(ctx: Context, lines: seq<Line>, key: Option<string>): (line: Line)
    requires Touched(ctx, lines, key)
    ensures line in lines && Touches(ctx, line, key)
  {
    if Touched(ctx, lines[..|lines| - 1], key) then FirstTouch(ctx, lines[..|lines| - 1], key) else lines[|lines| - 1]
  }

  // What one data field of the object with this key reads after the lines, `was` being what it
  // read before them: the last line alone decides when data is replaced, and otherwise the last
  // line that sent the field.
  function FieldAfter(ctx: Context, lines: seq<Line>, key: Option<string>, field: string,
                      was: Option<Json>): Option<Json> {
    if lines == [] then was
    else
      var front, last := lines[..|lines| - 1], lines[|lines| - 1];
      if !Touches(ctx, last, key) then FieldAfter(ctx, front, key, field, was)
      else if ctx.replace || field in last.payload.data then FieldOf(last.payload.data, field)
      else FieldAfter(ctx, front, key, field, was)
  }

  function ClassIdAfter(ctx: Context, lines: seq<Line>, key: Option<string>, was: Option<Uuid>): Option<Uuid> {
    if lines == [] then was
    else
      var front, last := lines[..|lines| - 1], lines[|lines| - 1];
      if Touches(ctx, last, key) && last.payload.classId.Some? then last.payload.classId
      else ClassIdAfter(ctx, front, key, was)
  }

  function VersionIdAfter(ctx: Context, lines: seq<Line>, key: Option<string>, was: Option<Uuid>): Option<Uuid> {
    if lines == [] then was
    else
      var front, last := lines[..|lines| - 1], lines[|lines| - 1];
      if Touches(ctx, last, key) && last.payload.versionId.Some? then last.payload.versionId
      else VersionIdAfter(ctx, front, key, was)
  }

  // The object `o` that carries the key after the lines, if `was` carried it before.
  ghost predicate Tells(ctx: Context, lines: seq<Line>, key: Option<string>, o: Obj, was: Option<Obj>)
    requires Touched(ctx, lines, key)
  {
    && Shows(o, ctx.classes, LastTouch(ctx, lines, key).payload)
    && (forall field :: FieldOf(o.data, field) ==
          FieldAfter(ctx, lines, key, field, if was.Some? then FieldOf(was.value.data, field) else None))
    && o.classId == ClassIdAfter(ctx, lines, key, if was.Some? then was.value.classId else None)
    && o.versionId == VersionIdAfter(ctx, lines, key, if was.Some? then was.value.versionId else None)
    && (if was.Some? then o.sourceId == was.value.sourceId && o.mappingVersionId == was.value.mappingVersionId
        else var first := FirstTouch(ctx, lines, key).payload;
             o.sourceId == first.sourceId && o.mappingVersionId == first.mappingVersionId)
  }

  // The store after the lines, seen through one key.
  ghost predicate KeyTells(ctx: Context, store: Store, lines: seq<Line>, key: Option<string>, after: Store) {
    var before, now := LiveWith(store, ctx.project, key), LiveWith(after, ctx.project, key);
    if !Touched(ctx, lines, key) then
      now == before && forall id :: id in before ==> after[id] == store[id]
    else
      exists id :: now == {id} && before <= {id}
        && (before == {} ==> id == FirstTouch(ctx, lines, key).id)
        && Tells(ctx, lines, key, after[id], if before == {} then None else Some(store[id]))
  }

  lemma TouchedSplits(ctx: Context, lines: seq<Line>, key: Option<string>)
    requires lines != []
    ensures Touched(ctx, lines, key) <==>
            Touched(ctx, lines[..|lines| - 1], key) || Touches(ctx, lines[|lines| - 1], key)
  {
    var front := lines[..|lines| - 1];
    if Touched(ctx, front, key) {
      var i :| 0 <= i < |front| && Touches(ctx, front[i], key);
      assert lines[i] == front[i];
    }
  }

  // A line with another key, or a refused one, does not change what the key shows.
  lemma OtherLine(ctx: Context, store: Store, lines: seq<Line>, key: Option<string>, before: Store, after: Store)
    requires lines != [] && !Touches(ctx, lines[|lines| - 1], key)
    requires KeyTells(ctx, store, lines[..|lines| - 1], key, before)
    requires LiveWith(after, ctx.project, key) == LiveWith(before, ctx.project, key)
    requires forall x :: x in LiveWith(before, ctx.project, key) ==> after[x] == before[x]
    ensures KeyTells(ctx, store, lines, key, after)
  {
    TouchedSplits(ctx, lines, key);
  }

  lemma FirstWrite(ctx: Context, lines: seq<Line>, key: Option<string>, o: Obj, was: Option<Obj>)
    requires lines != [] && Touches(ctx, lines[|lines| - 1], key) && !Touched(ctx, lines[..|lines| - 1], key)
    requires Touched(ctx, lines, key)
    requires match was
             case None => IsNewRow(o, ctx, lines[|lines| - 1].payload)
             case Some(was) => IsOverwrite(o, was, ctx, lines[|lines| - 1].payload)
    ensures Tells(ctx, lines, key, o, was)
  {
    var front, last := lines[..|lines| - 1], lines[|lines| - 1];
    UntouchedAfter(ctx, front, key, if was.Some? then was.value.classId else None,
                   if was.Some? then was.value.versionId else None);
    forall field
      ensures FieldOf(o.data, field) ==
              FieldAfter(ctx, lines, key, field, if was.Some? then FieldOf(was.value.data, field) else None)
    {
      UntouchedField(ctx, front, key, field, if was.Some? then FieldOf(was.value.data, field) else None);
    }
  }

  lemma {:induction false} UntouchedAfter(ctx: Context, lines: seq<Line>, key: Option<string>, c: Option<Uuid>,
                                          v: Option<Uuid>)
    requires !Touched(ctx, lines, key)
    ensures ClassIdAfter(ctx, lines, key, c) == c && VersionIdAfter(ctx, lines, key, v) == v
  {
    if lines == [] {
    } else {
      TouchedSplits(ctx, lines, key);
      UntouchedAfter(ctx, lines[..|lines| - 1], key, c, v);
    }
  }

  lemma {:induction false} UntouchedField(ctx: Context, lines: seq<Line>, key: Option<string>, field: string,
                                          was: Option<Json>)
    requires !Touched(ctx, lines, key)
    ensures FieldAfter(ctx, lines, key, field, was) == was
  {
    if lines == [] {
    } else {
      TouchedSplits(ctx, lines, key);
      UntouchedField(ctx, lines[..|lines| - 1], key, field, was);
    }
  }

  lemma NextWrite(ctx: Context, lines: seq<Line>, key: Option<string>, o: Obj, before: Obj, was: Option<Obj>)
    requires lines != [] && Touches(ctx, lines[|lines| - 1], key) && Touched(ctx, lines[..|lines| - 1], key)
    requires Touched(ctx, lines, key) && Tells(ctx, lines[..|lines| - 1], key, before, was)
    requires IsOverwrite(o, before, ctx, lines[|lines| - 1].payload)
    ensures Tells(ctx, lines, key, o, was)
  {
    var front, last := lines[..|lines| - 1], lines[|lines| - 1];
    forall field
      ensures FieldOf(o.data, field) ==
              FieldAfter(ctx, lines, key, field, if was.Some? then FieldOf(was.value.data, field) else None)
    {
      assert FieldOf(before.data, field) ==
             FieldAfter(ctx, front, key, field, if was.Some? then FieldOf(was.value.data, field) else None);
    }
  }

  ghost predicate NamesId(lines: seq<Line>, id: Uuid) {
    exists i :: 0 <= i < |lines| && lines[i].id == id
  }

  lemma {:induction false} SequenceIds(ctx: Context, store: Store, lines: seq<Line>)
    requires Unique(store)
    ensures forall id :: id in Sequence(ctx, store, lines) ==> id in store || NamesId(lines, id)
  {
    if lines == [] {
    } else {
      var front, last := lines[..|lines| - 1], lines[|lines| - 1];
      SequenceIds(ctx, store, front);
      SequenceKeepsUnique(ctx, store, front);
      var id := UpsertStores(ctx, Sequence(ctx, store, front), last);
      assert lines == front + [last] && lines[|front|] == last;
      assert forall i :: 0 <= i < |front| ==> lines[i] == front[i];
    }
  }

  // Through a whole sequence of upserts: what the object with a key shows is what the lines with
  // that key sent, the last valid one for most columns.
  lemma {:induction false} SequenceTells(ctx: Context, store: Store, lines: seq<Line>, key: Option<string>)
    requires Unique(store) && FreshIds(store, lines) && HasKey(key)
    ensures KeyTells(ctx, store, lines, key, Sequence(ctx, store, lines))
  {
    if lines == [] {
    } else {
      var front, last := lines[..|lines| - 1], lines[|lines| - 1];
      SequenceTells(ctx, store, front, key);
      SequenceKeepsUnique(ctx, store, front);
      SequenceIds(ctx, store, front);
      NextLineTells(ctx, store, lines, key, Sequence(ctx, store, front));
    }
  }

  lemma NextLineTells(ctx: Context, store: Store, lines: seq<Line>, key: Option<string>, before: Store)
    requires lines != [] && Unique(before) && FreshIds(store, lines) && HasKey(key)
    requires KeyTells(ctx, store, lines[..|lines| - 1], key, before)
    requires forall id :: id in before ==> id in store || NamesId(lines[..|lines| - 1], id)
    ensures KeyTells(ctx, store, lines, key,
                     match Upsert(ctx, before, lines[|lines| - 1]) case Ok(after) => after case Refused(_) => before)
  {
    var last := lines[|lines| - 1];
    assert last.id !in before;
    var id := UpsertStores(ctx, before, last);
    hide Upsert, Unique, FreshIds;
    if Touches(ctx, last, key) {
      TouchLineTells(ctx, store, lines, key, before, Upsert(ctx, before, last).value, id);
    } else if Upsert(ctx, before, last).Ok? {
      var after := Upsert(ctx, before, last).value;
      OtherRow(ctx, before, after, key, last.payload, id);
      OtherLine(ctx, store, lines, key, before, after);
    } else {
      OtherLine(ctx, store, lines, key, before, before);
    }
  }

  lemma OtherRow(ctx: Context, before: Store, after: Store, key: Option<string>, p: Payload, id: Uuid)
    requires after.Keys == before.Keys + {id}
    requires forall other :: other in before && other != id ==> after[other] == before[other]
    requires p.identityKey != key && HasKey(key)
    requires if id in before then IsOverwrite(after[id], before[id], ctx, p) && before[id].identityKey == p.identityKey
             else IsNewRow(after[id], ctx, p)
    ensures LiveWith(after, ctx.project, key) == LiveWith(before, ctx.project, key)
    ensures forall x :: x in LiveWith(before, ctx.project, key) ==> after[x] == before[x]
  {
  }

  lemma TouchLineTells(ctx: Context, store: Store, lines: seq<Line>, key: Option<string>, before: Store, after: Store,
                       id: Uuid)
    requires lines != [] && Touches(ctx, lines[|lines| - 1], key)
    requires KeyTells(ctx, store, lines[..|lines| - 1], key, before)
    requires LiveWith(after, ctx.project, key) == {id}
    requires if LiveWith(before, ctx.project, key) == {}
             then id == lines[|lines| - 1].id && IsNewRow(after[id], ctx, lines[|lines| - 1].payload)
             else LiveWith(before, ctx.project, key) == {id}
                  && IsOverwrite(after[id], before[id], ctx, lines[|lines| - 1].payload)
    ensures KeyTells(ctx, store, lines, key, after)
  {
    var front, last := lines[..|lines| - 1], lines[|lines| - 1];
    var start := LiveWith(store, ctx.project, key);
    TouchedSplits(ctx, lines, key);
    if Touched(ctx, front, key) {
      var x :| LiveWith(before, ctx.project, key) == {x} && start <= {x}
        && (start == {} ==> x == FirstTouch(ctx, front, key).id)
        && Tells(ctx, front, key, before[x], if start == {} then None else Some(store[x]));
      assert x in LiveWith(before, ctx.project, key) && x == id;
      NextWrite(ctx, lines, key, after[id], before[id], if start == {} then None else Some(store[id]));
    } else {
      assert id in LiveWith(after, ctx.project, key);
      FirstWrite(ctx, lines, key, after[id], if start == {} then None else Some(store[id]));
    }
  }

  // The same for a batch, as long as it does not repeat a new key.
  lemma BatchTells(ctx: Context, store: Store, lines: seq<Line>, key: Option<string>)
    requires Unique(store) && FreshIds(store, lines) && HasKey(key) && !RepeatsNewKey(ctx, store, lines)
    ensures KeyTells(ctx, store, lines, key, Committed(RunBatch(ctx, store, lines)))
  {
    SequenceTells(ctx, store, lines, key);
    NoRepeatMeansEqual(ctx, store, lines);
  }

  // ---------------------------------------------------------------- whole runs

  datatype Request =
    | Create(project: Uuid, line: Line)
    | Update(project: Uuid, id: Uuid, patch: Patch)
    | Delete(project: Uuid, id: Uuid)
    | Bulk(project: Uuid, lines: seq<Line>, replace: bool)

  ghost function StoreAfter(classes: map<Uuid, string>, store: Store, r: Request): Store {
    match r
    case Create(project, line) =>
      (match Upsert(Context(classes, project, true), store, line) case Ok(after) => after case Refused(_) => store)
    case Update(project, id, patch) =>
      if Visible(store, project, id) then store[id := Patched(store[id], patch)] else store
    case Delete(project, id) => if Visible(store, project, id) then store[id := store[id].(deleted := true)] else store
    case Bulk(project, lines, replace) => Committed(RunBatch(Context(classes, project, replace), store, lines))
  }

  ghost predicate IsRun(classes: map<Uuid, string>, stores: seq<Store>, requests: seq<Request>) {
    && |stores| == |requests| + 1 && stores[0] == map[]
    && forall i :: 0 <= i < |requests| ==>
         && stores[i + 1] == StoreAfter(classes, stores[i], requests[i])
         && (requests[i].Bulk? ==> FreshIds(stores[i], requests[i].lines))
  }

  // Identity keys stay unique along every run until the first batch that repeats a new key, and
  // that batch breaks them.
  lemma {:induction false} UniqueUntilRepeat(classes: map<Uuid, string>, stores: seq<Store>, requests: seq<Request>,
                                             k: nat)
    requires IsRun(classes, stores, requests) && k < |stores|
    requires forall i :: 0 <= i < k - 1 && requests[i].Bulk? ==>
      !RepeatsNewKey(Context(classes, requests[i].project, requests[i].replace), stores[i], requests[i].lines)
    ensures Unique(stores[k]) <==>
      (k > 0 && requests[k - 1].Bulk? ==>
        var r := requests[k - 1];
        !RepeatsNewKey(Context(classes, r.project, r.replace), stores[k - 1], r.lines))
  {
    if k == 0 {
    } else {
      UniqueUntilRepeat(classes, stores, requests, k - 1);
      var store := stores[k - 1];
      match requests[k - 1]
      case Create(project, line) =>
        if Upsert(Context(classes, project, true), store, line).Ok? {
          UpsertKeepsUnique(Context(classes, project, true), store, line);
        }
      case Update(project, id, patch) =>
        if id in store {
          PatchAndDeleteKeepUnique(store, id, patch);
        }
      case Delete(project, id) =>
        if id in store {
          PatchAndDeleteKeepUnique(store, id, Patch(None, None, None, None, None, None));
        }
      case Bulk(project, lines, replace) =>
        BatchEqualsSequenceIff(Context(classes, project, replace), store, lines);
    }
  }

  // The shortest such run: one batch of two lines with one key, on an empty store.
  lemma TwoLinesBreakUnique(project: Uuid, p: Payload, q: Payload) returns (stores: seq<Store>, requests: seq<Request>)
    requires HasKey(p.identityKey) && p.identityKey == q.identityKey
    requires p.classId == None && q.classId == None
    ensures requests == [Bulk(project, [Line(1, p), Line(2, q)], true)]
    ensures IsRun(map[], stores, requests) && Unique(stores[0]) && !Unique(stores[1])
  {
    var ctx, lines := Context(map[], project, true), [Line(1, p), Line(2, q)];
    requests := [Bulk(project, lines, true)];
    stores := [map[], Committed(RunBatch(ctx, map[], lines))];
    assert Collide(ctx, map[], lines[0].payload, lines[1].payload);
    RepeatBreaksUnique(ctx, map[], lines);
    hide RunBatch, Committed, Unique;
    assert stores[1] == StoreAfter(map[], stores[0], requests[0]);
  }

  // A batch fails exactly on the lines with an unknown class.
  lemma {:induction false} BatchFailures(ctx: Context, store: Store, lines: seq<Line>, i: nat)
    requires Unique(store) && FreshIds(store, lines)
    ensures i in FailedLines(ctx, store, lines) <==> i < |lines| && !IsValid(ctx.classes, lines[i].payload)
    ensures RunBatch(ctx, store, lines).failed == |FailedLines(ctx, store, lines)|
  {
    if lines == [] {
    } else {
      var front, last := lines[..|lines| - 1], lines[|lines| - 1];
      assert lines == front + [last];
      BatchFailures(ctx, store, front, i);
      BatchFacts(ctx, store, front);
      InsertedIsNewRow(ctx, last.payload);
      var b := RunBatch(ctx, store, front);
      UniqueMeansNoTwo(b.store, ctx.project, last.payload.identityKey);
      hide Unique, FreshIds, SameLookups, PendingAre, ValidateClass, TwoLive, LiveWith;
      assert BatchStep(ctx, b, last).failed == if IsValid(ctx.classes, last.payload) then b.failed else b.failed + 1;
    }
  }

  // ---------------------------------------------------------------- patches and deletes

  function Names(requests: seq<Request>): seq<Option<string>> {
    seq(|requests|, i requires 0 <= i < |requests| => if requests[i].Update? then requests[i].patch.name else None)
  }

  function Descriptions(requests: seq<Request>): seq<Option<Option<string>>> {
    seq(|requests|, i requires 0 <= i < |requests| =>
      if requests[i].Update? && requests[i].patch.description.Some? then Some(requests[i].patch.description) else None)
  }

  function Datas(requests: seq<Request>): seq<Option<Item>> {
    seq(|requests|, i requires 0 <= i < |requests| => if requests[i].Update? then requests[i].patch.data else None)
  }

  function Statuses(requests: seq<Request>): seq<Option<string>> {
    seq(|requests|, i requires 0 <= i < |requests| => if requests[i].Update? then requests[i].patch.status else None)
  }

  function Confidences(requests: seq<Request>): seq<Option<real>> {
    seq(|requests|, i requires 0 <= i < |requests| =>
      if requests[i].Update? then requests[i].patch.confidence else None)
  }

  function ObjectTypes(requests: seq<Request>): seq<Option<string>> {
    seq(|requests|, i requires 0 <= i < |requests| =>
      if requests[i].Update? then requests[i].patch.objectType else None)
  }

  ghost predicate ColumnsSent(o: Obj, was: Obj, sent: seq<Request>) {
    && o.name == LastSent(Names(sent), was.name) && o.description == LastSent(Descriptions(sent), was.description)
    && o.data == LastSent(Datas(sent), was.data) && o.status == LastSent(Statuses(sent), was.status)
    && o.confidence == LastSent(Confidences(sent), was.confidence)
    && o.objectType == LastSent(ObjectTypes(sent), was.objectType)
    && o == was.(name := o.name, description := o.description, data := o.data, status := o.status,
                 confidence := o.confidence, objectType := o.objectType)
  }

  ghost predicate IsUpdated(store: Store, start: Store, project: Uuid, id: Uuid, sent: seq<Request>) {
    && id in start && store.Keys == start.Keys && Visible(store, project, id)
    && (forall other :: other in start && other != id ==> store[other] == start[other])
    && ColumnsSent(store[id], start[id], sent)
  }

  lemma UpdateTells(classes: map<Uuid, string>, store: Store, start: Store, project: Uuid, id: Uuid,
                    sent: seq<Request>, patch: Patch)
    requires IsUpdated(store, start, project, id, sent)
    ensures IsUpdated(StoreAfter(classes, store, Update(project, id, patch)), start, project, id,
                      sent + [Update(project, id, patch)])
  {
    NextSent(store[id], start[id], sent, Update(project, id, patch));
    hide ColumnsSent;
  }

  ghost predicate OnlyUpdates(sent: seq<Request>, project: Uuid, id: Uuid) {
    forall q :: 0 <= q < |sent| ==> sent[q].Update? && sent[q].project == project && sent[q].id == id
  }

  lemma FrontOnlyUpdates(sent: seq<Request>, project: Uuid, id: Uuid)
    requires sent != [] && OnlyUpdates(sent, project, id)
    ensures OnlyUpdates(sent[..|sent| - 1], project, id)
    ensures sent[|sent| - 1].Update? && sent[|sent| - 1] == Update(project, id, sent[|sent| - 1].patch)
  {
  }

  lemma RunStep(classes: map<Uuid, string>, stores: seq<Store>, requests: seq<Request>, i: nat)
    requires IsRun(classes, stores, requests)
    ensures |stores| == |requests| + 1
    ensures i < |requests| ==> stores[i + 1] == StoreAfter(classes, stores[i], requests[i])
  {
  }

  // Over any stretch of partial updates of one visible object: each column is the last value sent
  // for it, what was never sent stays, and so does every other row.
  lemma {:induction false} UpdatesTell(classes: map<Uuid, string>, stores: seq<Store>, requests: seq<Request>, i: nat,
                                       j: nat, project: Uuid, id: Uuid)
    requires IsRun(classes, stores, requests) && i <= j < |stores| && Visible(stores[i], project, id)
    requires j <= |requests| && OnlyUpdates(requests[i..j], project, id)
    ensures IsUpdated(stores[j], stores[i], project, id, requests[i..j])
    decreases j
  {
    hide *;
    if i == j {
      NothingUpdated(stores[i], project, id);
      assert requests[i..j] == [];
    } else {
      var sent := requests[i..j];
      RunStep(classes, stores, requests, j - 1);
      FrontOnlyUpdates(sent, project, id);
      assert sent[..|sent| - 1] == requests[i..j - 1] && sent == requests[i..j - 1] + [requests[j - 1]];
      UpdatesTell(classes, stores, requests, i, j - 1, project, id);
      UpdateTells(classes, stores[j - 1], stores[i], project, id, requests[i..j - 1], requests[j - 1].patch);
    }
  }

  lemma NothingUpdated(store: Store, project: Uuid, id: Uuid)
    requires Visible(store, project, id)
    ensures IsUpdated(store, store, project, id, [])
  {
  }

  lemma NextSent(o: Obj, was: Obj, sent: seq<Request>, next: Request)
    requires ColumnsSent(o, was, sent) && next.Update?
    ensures ColumnsSent(Patched(o, next.patch), was, sent + [next])
  {
    var all := sent + [next];
    assert all[..|sent|] == sent;
    assert Names(all)[..|sent|] == Names(sent) && Descriptions(all)[..|sent|] == Descriptions(sent);
    assert Datas(all)[..|sent|] == Datas(sent) && Statuses(all)[..|sent|] == Statuses(sent);
    assert Confidences(all)[..|sent|] == Confidences(sent) && ObjectTypes(all)[..|sent|] == ObjectTypes(sent);
  }

  lemma OnlyLive(store: Store, project: Uuid, key: Option<string>, id: Uuid)
    requires Unique(store) && id in store && Carries(store[id], project, key)
    ensures LiveWith(store, project, key) == {id}
  {
    UniqueMeansNoTwo(store, project, key);
    assert id in LiveWith(store, project, key);
  }

  // A soft delete hides the object from every later request and frees its key: the next upsert with
  // the key adds a new row, and the deleted one stays stored as it was.
  lemma DeleteFreesKey(classes: map<Uuid, string>, store: Store, project: Uuid, id: Uuid, line: Line, patch: Patch)
    requires Unique(store) && Visible(store, project, id) && HasKey(store[id].identityKey)
    requires line.payload.identityKey == store[id].identityKey && IsValid(classes, line.payload) && line.id !in store
    ensures
      var after := StoreAfter(classes, store, Delete(project, id));
      var next := StoreAfter(classes, after, Create(project, line));
      && after.Keys == store.Keys && LiveWith(after, project, store[id].identityKey) == {}
      && StoreAfter(classes, after, Update(project, id, patch)) == after
      && StoreAfter(classes, after, Delete(project, id)) == after
      && next.Keys == store.Keys + {line.id} && LiveWith(next, project, store[id].identityKey) == {line.id}
      && (forall other :: other in store && other != id ==> next[other] == store[other])
      && next[id].deleted && next[id].(deleted := false) == store[id]
  {
    var key, after := store[id].identityKey, store[id := store[id].(deleted := true)];
    PatchAndDeleteKeepUnique(store, id, patch);
    OnlyLive(store, project, key, id);
    hide Unique;
    assert forall other :: other in LiveWith(after, project, key) ==>
             other in LiveWith(store, project, key) && other != id;
    assert LiveWith(after, project, key) == {};
    var x := UpsertStores(Context(classes, project, true), after, line);
  }
}
