// The hash-chained audit log: record_audit writes it, verify_chain walks it.
//
// Many chains, one per project and one for global events, are interleaved in one table. The
// writer and the verifier are separate code and sort the table differently; they agree on the
// ten hashed fields only. The digest is a parameter `h`: what needs it to be injective says so.
module AuditChain {
  import opened Common

  type Hash = string
  type Scope = Option<Uuid>

  // The columns a caller of record_audit determines.
  datatype Record = Record(
    id: Uuid,
    eventType: string,
    actorId: Option<Uuid>,
    actorName: Option<string>,
    actorIp: Option<string>,
    actorUserAgent: Option<string>,
    scope: Scope,
    targetType: Option<string>,
    targetId: Option<string>,
    targetLabel: Option<string>,
    createdAt: int,
    before: Option<Json>,
    after: Option<Json>,
    notes: Option<string>)

  datatype AuditEvent = AuditEvent(rec: Record, prevHash: Option<Hash>, entryHash: Option<Hash>)

  // The ten hashed fields.
  datatype Payload = Payload(
    id: Uuid,
    eventType: string,
    actorId: Option<Uuid>,
    projectId: Scope,
    targetType: Option<string>,
    targetId: Option<string>,
    createdAt: int,
    prevHash: Option<Hash>,
    before: Option<Json>,
    after: Option<Json>)

  function PayloadOf(r: Record, prev: Option<Hash>): Payload {
    Payload(r.id, r.eventType, r.actorId, r.scope, r.targetType, r.targetId, r.createdAt, prev, r.before, r.after)
  }

  ghost predicate Injective(h: Payload -> Hash) {
    forall p, q :: h(p) == h(q) ==> p == q
  }

  // ---------------------------------------------------------------- reading the table

  function InScope(rows: seq<AuditEvent>, scope: Scope): seq<AuditEvent> {
    if rows == [] then []
    else
      var rest := InScope(rows[..|rows| - 1], scope);
      var last := rows[|rows| - 1];
      if last.rec.scope == scope then rest + [last] else rest
  }

  predicate KeyLess(a: AuditEvent, b: AuditEvent) {
    a.rec.createdAt < b.rec.createdAt || (a.rec.createdAt == b.rec.createdAt && a.rec.id < b.rec.id)
  }

  function Insert(e: AuditEvent, events: seq<AuditEvent>): seq<AuditEvent> {
    if events == [] then [e]
    else if KeyLess(e, events[0]) then [e] + events
    else [events[0]] + Insert(e, events[1..])
  }

  // ORDER BY created_at, id
  function OrderBy(events: seq<AuditEvent>): seq<AuditEvent> {
    if events == [] then []
    else Insert(events[|events| - 1], OrderBy(events[..|events| - 1]))
  }

  function View(rows: seq<AuditEvent>, scope: Scope): seq<AuditEvent> {
    OrderBy(InScope(rows, scope))
  }

  ghost predicate DistinctIds(rows: seq<AuditEvent>) {
    forall i, j :: 0 <= i < j < |rows| ==> rows[i].rec.id != rows[j].rec.id
  }

  ghost predicate StrictlySorted(events: seq<AuditEvent>) {
    forall i, j :: 0 <= i < j < |events| ==> KeyLess(events[i], events[j])
  }

  // ---------------------------------------------------------------- the verifier

  datatype Verdict = Intact(checked: nat) | Broken(at: Uuid, checked: nat)

  function PrevAt(events: seq<AuditEvent>, i: nat): Option<Hash>
    requires i <= |events|
  {
    if i == 0 then None else events[i - 1].entryHash
  }

  function LastHash(events: seq<AuditEvent>): Option<Hash> {
    PrevAt(events, |events|)
  }

  predicate SealedAt(h: Payload -> Hash, events: seq<AuditEvent>, i: nat)
    requires i < |events|
  {
    var prev := PrevAt(events, i);
    events[i].prevHash == prev && events[i].entryHash == Some(h(PayloadOf(events[i].rec, prev)))
  }

  ghost predicate Sealed(h: Payload -> Hash, events: seq<AuditEvent>) {
    forall i :: 0 <= i < |events| ==> SealedAt(h, events, i)
  }

  // What a walk over `events` in order has to answer: the first event that is not sealed.
  ghost predicate IsVerdict(h: Payload -> Hash, events: seq<AuditEvent>, v: Verdict) {
    && v.checked <= |events|
    && (forall i :: 0 <= i < v.checked ==> SealedAt(h, events, i))
    && (v.Intact? ==> v.checked == |events|)
    && (v.Broken? ==> v.checked < |events| && !SealedAt(h, events, v.checked) && v.at == events[v.checked].rec.id)
  }

  lemma VerdictUnique(h: Payload -> Hash, events: seq<AuditEvent>, v: Verdict, w: Verdict)
    requires IsVerdict(h, events, v) && IsVerdict(h, events, w)
    ensures v == w
  {
  }

  // ---------------------------------------------------------------- the writer

  function Seal(h: Payload -> Hash, r: Record, prev: Option<Hash>): AuditEvent {
    AuditEvent(r, prev, Some(h(PayloadOf(r, prev))))
  }

  predicate IsNewest(rows: seq<AuditEvent>, scope: Scope, e: AuditEvent) {
    && e in rows && e.rec.scope == scope
    && forall x | x in rows :: x.rec.scope == scope ==> x.rec.createdAt <= e.rec.createdAt
  }

  // ORDER BY created_at DESC LIMIT 1: any row that carries the greatest time may come first.
  ghost predicate MayLink(rows: seq<AuditEvent>, scope: Scope, prev: Option<Hash>) {
    if (forall x :: x in rows ==> x.rec.scope != scope) then prev == None
    else exists e :: IsNewest(rows, scope, e) && prev == e.entryHash
  }

  ghost predicate Recorded(h: Payload -> Hash, rows: seq<AuditEvent>, r: Record, rows': seq<AuditEvent>) {
    exists prev :: MayLink(rows, r.scope, prev) && rows' == rows + [Seal(h, r, prev)]
  }

  // A table that nothing but record_audit ever wrote to.
  ghost predicate Built(h: Payload -> Hash, rows: seq<AuditEvent>) {
    rows == [] ||
    (var front := rows[..|rows| - 1];
     Built(h, front) && Recorded(h, front, rows[|rows| - 1].rec, rows))
  }

  // Within each scope, later rows carry later times.
  ghost predicate ClockAdvances(rows: seq<AuditEvent>) {
    forall i, j :: 0 <= i < j < |rows| && rows[i].rec.scope == rows[j].rec.scope ==>
      rows[i].rec.createdAt < rows[j].rec.createdAt
  }

  class AuditLog {
    var rows: seq<AuditEvent>

    constructor ()
      ensures rows == []
    {
      rows := [];
    }

    method LatestEntryHash(scope: Scope) returns (prev: Option<Hash>)
      ensures MayLink(rows, scope, prev)
    {
      if forall x | x in rows :: x.rec.scope != scope {
        prev := None;
      } else {
        NewestExists(rows, scope);
        var e :| e in rows && IsNewest(rows, scope, e);
        prev := e.entryHash;
      }
    }

    // The row is added first and its two chain columns are filled in afterwards.
    method RecordAudit(h: Payload -> Hash, r: Record) returns (entry: AuditEvent)
      modifies this
      ensures Recorded(h, old(rows), r, rows)
      ensures rows == old(rows) + [entry] && entry.rec == r
    {
      var prev := LatestEntryHash(r.scope);
      entry := AuditEvent(r, None, None);
      rows := rows + [entry];
      var digest := h(PayloadOf(entry.rec, prev));
      entry := entry.(entryHash := Some(digest), prevHash := prev);
      rows := rows[|rows| - 1 := entry];
      assert rows == old(rows) + [Seal(h, r, prev)];
    }

    method VerifyChain(h: Payload -> Hash, scope: Scope, isAdmin: bool) returns (answer: Result<Verdict>)
      ensures !isAdmin ==> answer == Refused(Forbidden)
      ensures isAdmin ==> answer.Ok? && IsVerdict(h, View(rows, scope), answer.value)
    {
      if !isAdmin {
        return Refused(Forbidden);
      }
      var events := View(rows, scope);
      var prevHash: Option<Hash> := None;
      var checked := 0;
      while checked < |events|
        invariant 0 <= checked <= |events|
        invariant prevHash == PrevAt(events, checked)
        invariant forall i :: 0 <= i < checked ==> SealedAt(h, events, i)
      {
        var e := events[checked];
        var digest := h(PayloadOf(e.rec, prevHash));
        if e.prevHash != prevHash || e.entryHash != Some(digest) {
          return Ok(Broken(e.rec.id, checked));
        }
        prevHash := e.entryHash;
        checked := checked + 1;
      }
      return Ok(Intact(checked));
    }
  }

  // ---------------------------------------------------------------- sorting

  lemma {:induction false} NewestExists(rows: seq<AuditEvent>, scope: Scope)
    requires exists x :: x in rows && x.rec.scope == scope
    ensures exists e :: IsNewest(rows, scope, e)
  {
    var front, last := rows[..|rows| - 1], rows[|rows| - 1];
    if x :| x in front && x.rec.scope == scope {
      NewestExists(front, scope);
      var e :| IsNewest(front, scope, e);
      assert IsNewest(rows, scope, if last.rec.scope == scope && e.rec.createdAt < last.rec.createdAt then last else e);
    } else {
      assert IsNewest(rows, scope, last);
    }
  }

  lemma {:induction false} InScopeMembers(rows: seq<AuditEvent>, scope: Scope)
    ensures forall x :: x in InScope(rows, scope) <==> x in rows && x.rec.scope == scope
    ensures DistinctIds(rows) ==> DistinctIds(InScope(rows, scope))
  {
    if rows == [] {
    } else {
      var front := rows[..|rows| - 1];
      InScopeMembers(front, scope);
      assert rows == front + [rows[|rows| - 1]];
    }
  }

  // Where a new row lands: after everything not greater, before everything greater.
  lemma {:induction false} InsertSplits(e: AuditEvent, events: seq<AuditEvent>) returns (j: nat)
    ensures j <= |events|
    ensures Insert(e, events) == events[..j] + [e] + events[j..]
    ensures forall i :: 0 <= i < j ==> !KeyLess(e, events[i])
    ensures j < |events| ==> KeyLess(e, events[j])
  {
    if events == [] || KeyLess(e, events[0]) {
      j := 0;
    } else {
      var k := InsertSplits(e, events[1..]);
      j := k + 1;
      assert events[..j] == [events[0]] + events[1..][..k];
      assert events[j..] == events[1..][k..];
    }
  }

  lemma SortedCons(e: AuditEvent, events: seq<AuditEvent>)
    requires StrictlySorted(events) && forall x :: x in events ==> KeyLess(e, x)
    ensures StrictlySorted([e] + events)
  {
  }

  lemma {:induction false} InsertSorted(e: AuditEvent, events: seq<AuditEvent>)
    requires StrictlySorted(events) && forall x :: x in events ==> x.rec.id != e.rec.id
    ensures StrictlySorted(Insert(e, events))
    ensures forall x :: x in Insert(e, events) <==> x == e || x in events
    ensures |Insert(e, events)| == |events| + 1
  {
    if events == [] {
    } else {
      var head, tail := events[0], events[1..];
      assert events == [head] + tail;
      assert forall x :: x in tail ==> KeyLess(head, x);
      if KeyLess(e, head) {
        SortedCons(e, events);
      } else {
        InsertSorted(e, tail);
        SortedCons(head, Insert(e, tail));
      }
    }
  }

  lemma {:induction false} OrderBySorts(events: seq<AuditEvent>)
    requires DistinctIds(events)
    ensures StrictlySorted(OrderBy(events))
    ensures forall x :: x in OrderBy(events) <==> x in events
    ensures |OrderBy(events)| == |events|
  {
    if events == [] {
    } else {
      var front, last := events[..|events| - 1], events[|events| - 1];
      OrderBySorts(front);
      InsertSorted(last, OrderBy(front));
      assert events == front + [last];
    }
  }

  lemma ViewSorted(rows: seq<AuditEvent>, scope: Scope)
    requires DistinctIds(rows)
    ensures StrictlySorted(View(rows, scope))
    ensures forall x :: x in View(rows, scope) <==> x in rows && x.rec.scope == scope
    ensures |View(rows, scope)| == |InScope(rows, scope)|
    ensures DistinctIds(View(rows, scope))
  {
    InScopeMembers(rows, scope);
    OrderBySorts(InScope(rows, scope));
    var v := View(rows, scope);
    forall i, j | 0 <= i < j < |v|
      ensures v[i].rec.id != v[j].rec.id
    {
      assert KeyLess(v[i], v[j]);
      assert v[i] in rows && v[j] in rows;
    }
  }

  // A strictly sorted sequence is fixed by the set of its elements.
  lemma {:induction false} SortedUnique(a: seq<AuditEvent>, b: seq<AuditEvent>)
    requires StrictlySorted(a) && StrictlySorted(b)
    requires forall x :: x in a <==> x in b
    ensures a == b
  {
    assert b != [] ==> b[0] in a;
    if a == [] {
    } else {
      assert a[0] in b;
      assert b[0] in a;
      assert a[0] == b[0];
      forall x
        ensures x in a[1..] <==> x in b[1..]
      {
        assert x in a[1..] ==> x in a && x != a[0];
        assert x in b[1..] ==> x in b && x != b[0];
      }
      SortedUnique(a[1..], b[1..]);
    }
  }

  lemma ViewIsSorted(rows: seq<AuditEvent>, scope: Scope, w: seq<AuditEvent>)
    requires DistinctIds(rows) && StrictlySorted(w)
    requires forall x :: x in w <==> x in rows && x.rec.scope == scope
    ensures View(rows, scope) == w
  {
    ViewSorted(rows, scope);
    SortedUnique(View(rows, scope), w);
  }

  // ---------------------------------------------------------------- the last hash fixes the history

  // Two records agree on everything the chain protects, column by column. Actor name, address and
  // user agent, target label and notes are not among it.
  predicate SameHashedColumns(a: Record, b: Record) {
    && a.id == b.id && a.eventType == b.eventType && a.actorId == b.actorId && a.scope == b.scope
    && a.targetType == b.targetType && a.targetId == b.targetId && a.createdAt == b.createdAt
    && a.before == b.before && a.after == b.after
  }

  predicate SameEvent(a: AuditEvent, b: AuditEvent) {
    SameHashedColumns(a.rec, b.rec) && a.prevHash == b.prevHash && a.entryHash == b.entryHash
  }

  lemma SealedPrefix(h: Payload -> Hash, events: seq<AuditEvent>, n: nat)
    requires n <= |events| && Sealed(h, events)
    ensures Sealed(h, events[..n])
  {
    forall i | 0 <= i < n
      ensures SealedAt(h, events[..n], i)
    {
      assert SealedAt(h, events, i);
    }
  }

  // Two chains that verify and end in the same hash tell the same story, field by field.
  lemma {:induction false} LastHashFixesHistory(h: Payload -> Hash, a: seq<AuditEvent>, b: seq<AuditEvent>)
    requires Injective(h) && Sealed(h, a) && Sealed(h, b)
    requires LastHash(a) == LastHash(b)
    ensures |a| == |b|
    ensures forall i :: 0 <= i < |a| ==> SameEvent(a[i], b[i])
    decreases |a|
  {
    assert a != [] ==> SealedAt(h, a, |a| - 1);
    assert b != [] ==> SealedAt(h, b, |b| - 1);
    if a == [] {
    } else {
      var m, n := |a| - 1, |b| - 1;
      SealedPrefix(h, a, m);
      SealedPrefix(h, b, n);
      assert PayloadOf(a[m].rec, a[m].prevHash) == PayloadOf(b[n].rec, b[n].prevHash);
      LastHashFixesHistory(h, a[..m], b[..n]);
      assert forall i :: 0 <= i < m ==> a[i] == a[..m][i] && b[i] == b[..n][i];
    }
  }

  // ---------------------------------------------------------------- writer and verifier agree

  lemma SealedAppend(h: Payload -> Hash, events: seq<AuditEvent>, r: Record)
    requires Sealed(h, events)
    ensures Sealed(h, events + [Seal(h, r, LastHash(events))])
  {
    var longer := events + [Seal(h, r, LastHash(events))];
    forall i | 0 <= i < |longer|
      ensures SealedAt(h, longer, i)
    {
      if i < |events| {
        assert SealedAt(h, events, i);
      }
    }
  }

  ghost predicate DistinctTimes(events: seq<AuditEvent>) {
    forall i, j :: 0 <= i < j < |events| ==> events[i].rec.createdAt != events[j].rec.createdAt
  }

  // The greatest time of the scope is held by one row; older rows may tie.
  ghost predicate OneNewest(rows: seq<AuditEvent>, scope: Scope) {
    forall x, y :: IsNewest(rows, scope, x) && IsNewest(rows, scope, y) ==> x == y
  }

  lemma NewestInView(rows: seq<AuditEvent>, scope: Scope, e: AuditEvent)
    requires DistinctIds(rows) && IsNewest(rows, scope, e)
    ensures e in View(rows, scope) && forall x :: x in View(rows, scope) ==> x.rec.createdAt <= e.rec.createdAt
    ensures StrictlySorted(View(rows, scope))
  {
    ViewSorted(rows, scope);
  }

  lemma ViewEmpty(rows: seq<AuditEvent>, scope: Scope)
    requires DistinctIds(rows)
    ensures View(rows, scope) == [] <==> forall x :: x in rows ==> x.rec.scope != scope
  {
    ViewSorted(rows, scope);
    var v := View(rows, scope);
    assert v != [] ==> v[0] in v;
  }

  lemma LastIsNewest(rows: seq<AuditEvent>, scope: Scope)
    requires DistinctIds(rows) && View(rows, scope) != []
    ensures IsNewest(rows, scope, View(rows, scope)[|View(rows, scope)| - 1])
  {
    ViewSorted(rows, scope);
    var v := View(rows, scope);
    var last := v[|v| - 1];
    assert last in v;
    forall x | x in rows && x.rec.scope == scope
      ensures x.rec.createdAt <= last.rec.createdAt
    {
      assert x in v;
    }
  }

  // The writer links to the row the verifier sorts last, unless the newest time is shared.
  lemma LinksToLast(rows: seq<AuditEvent>, scope: Scope, prev: Option<Hash>)
    requires DistinctIds(rows) && OneNewest(rows, scope) && MayLink(rows, scope, prev)
    ensures prev == LastHash(View(rows, scope))
  {
    ViewEmpty(rows, scope);
    if View(rows, scope) != [] {
      LastIsNewest(rows, scope);
    }
  }

  // On an intact chain that is exact: the writer can only link to the last row if and only if one
  // row holds the newest time.
  lemma LinkIsForcedIff(h: Payload -> Hash, rows: seq<AuditEvent>, scope: Scope)
    requires Injective(h) && DistinctIds(rows) && Sealed(h, View(rows, scope))
    ensures (forall prev :: MayLink(rows, scope, prev) ==> prev == LastHash(View(rows, scope))) <==>
            OneNewest(rows, scope)
  {
    if OneNewest(rows, scope) {
      forall prev | MayLink(rows, scope, prev)
        ensures prev == LastHash(View(rows, scope))
      {
        LinksToLast(rows, scope, prev);
      }
    } else {
      var x, y :| IsNewest(rows, scope, x) && IsNewest(rows, scope, y) && x != y;
      assert MayLink(rows, scope, x.entryHash) && MayLink(rows, scope, y.entryHash);
      SealedRowsDiffer(h, rows, scope, x, y);
    }
  }

  lemma SealedRowsDiffer(h: Payload -> Hash, rows: seq<AuditEvent>, scope: Scope, x: AuditEvent, y: AuditEvent)
    requires Injective(h) && DistinctIds(rows) && Sealed(h, View(rows, scope))
    requires x in rows && y in rows && x.rec.scope == scope == y.rec.scope && x != y
    ensures x.entryHash != y.entryHash
  {
    ViewSorted(rows, scope);
    var v := View(rows, scope);
    var i, j :| 0 <= i < |v| && v[i] == x && 0 <= j < |v| && v[j] == y;
    assert SealedAt(h, v, i) && SealedAt(h, v, j);
    assert x.rec.id != y.rec.id;
  }

  lemma RowsBefore(rows: seq<AuditEvent>, e: AuditEvent)
    requires DistinctIds(rows + [e])
    ensures DistinctIds(rows) && DistinctIds(View(rows, e.rec.scope))
    ensures forall x :: x in rows ==> x.rec.id != e.rec.id
    ensures forall x :: x in View(rows, e.rec.scope) <==> x in rows && x.rec.scope == e.rec.scope
  {
    assert forall i :: 0 <= i < |rows| ==> rows[i] == (rows + [e])[i];
    assert (rows + [e])[|rows|] == e;
    ViewSorted(rows, e.rec.scope);
  }

  lemma OtherScopeUntouched(rows: seq<AuditEvent>, e: AuditEvent, scope: Scope)
    requires e.rec.scope != scope
    ensures View(rows + [e], scope) == View(rows, scope)
  {
  }

  lemma SameScopeInserts(rows: seq<AuditEvent>, e: AuditEvent)
    ensures View(rows + [e], e.rec.scope) == Insert(e, View(rows, e.rec.scope))
  {
  }

  // Appending in one scope never changes another scope's verdict, whatever the table holds.
  lemma VerdictLocal(h: Payload -> Hash, rows: seq<AuditEvent>, r: Record, rows': seq<AuditEvent>,
                     scope: Scope, v: Verdict)
    requires Recorded(h, rows, r, rows') && r.scope != scope
    ensures IsVerdict(h, View(rows', scope), v) <==> IsVerdict(h, View(rows, scope), v)
  {
  }

  lemma LaterRowGoesLast(rows: seq<AuditEvent>)
    requires rows != [] && ClockAdvances(rows) && DistinctIds(rows)
    ensures
      var front, e := rows[..|rows| - 1], rows[|rows| - 1];
      && Insert(e, View(front, e.rec.scope)) == View(front, e.rec.scope) + [e]
      && forall x :: x in View(front, e.rec.scope) ==> x.rec.createdAt < e.rec.createdAt
  {
    var front, e := rows[..|rows| - 1], rows[|rows| - 1];
    var v := View(front, e.rec.scope);
    ViewSorted(front, e.rec.scope);
    forall x | x in v
      ensures x.rec.createdAt < e.rec.createdAt
    {
      var k :| 0 <= k < |front| && front[k] == x;
      assert rows[k] == x;
    }
    var j := InsertSplits(e, v);
    assert forall i :: 0 <= i < |v| ==> v[i] in v && v[i].rec.createdAt < e.rec.createdAt;
    assert v[..|v|] + [e] + v[|v|..] == v + [e];
  }

  lemma DistinctTimesOneNewest(rows: seq<AuditEvent>, scope: Scope)
    requires DistinctIds(rows) && DistinctTimes(View(rows, scope))
    ensures OneNewest(rows, scope)
  {
    var v := View(rows, scope);
    forall x, y | IsNewest(rows, scope, x) && IsNewest(rows, scope, y)
      ensures x == y
    {
      NewestInView(rows, scope, x);
      NewestInView(rows, scope, y);
      assert x.rec.createdAt == y.rec.createdAt;
    }
  }

  lemma NextRecordIsIntact(h: Payload -> Hash, front: seq<AuditEvent>, r: Record, prev: Option<Hash>)
    requires ClockAdvances(front + [Seal(h, r, prev)]) && DistinctIds(front + [Seal(h, r, prev)])
    requires MayLink(front, r.scope, prev)
    requires Sealed(h, View(front, r.scope)) && DistinctTimes(View(front, r.scope))
    ensures
      var v := View(front + [Seal(h, r, prev)], r.scope);
      Sealed(h, v) && DistinctTimes(v) && |v| == |View(front, r.scope)| + 1
  {
    var e, v := Seal(h, r, prev), View(front, r.scope);
    RowsBefore(front, e);
    DistinctTimesOneNewest(front, r.scope);
    LinksToLast(front, r.scope, prev);
    SameScopeInserts(front, e);
    assert (front + [e])[..|front|] == front;
    LaterRowGoesLast(front + [e]);
    SealedAppend(h, v, r);
    assert forall i :: 0 <= i < |v| ==> v[i] in v;
  }

  // Every log that only record_audit wrote is accepted in every scope, for any digest, as long
  // as the clock advances within each scope.
  lemma {:induction false} BuiltLogIsIntact(h: Payload -> Hash, rows: seq<AuditEvent>, scope: Scope)
    requires Built(h, rows) && ClockAdvances(rows) && DistinctIds(rows)
    ensures IsVerdict(h, View(rows, scope), Intact(|InScope(rows, scope)|))
    ensures DistinctTimes(View(rows, scope))
    decreases |rows|
  {
    if rows == [] {
    } else {
      var front, e := rows[..|rows| - 1], rows[|rows| - 1];
      assert rows == front + [e];
      var prev :| MayLink(front, e.rec.scope, prev) && rows == front + [Seal(h, e.rec, prev)];
      BuiltLogIsIntact(h, front, scope);
      if e.rec.scope != scope {
        OtherScopeUntouched(front, e, scope);
      } else {
        NextRecordIsIntact(h, front, e.rec, prev);
      }
    }
  }

  // ---------------------------------------------------------------- exactly when a log is intact

  lemma EntryHashesDiffer(h: Payload -> Hash, events: seq<AuditEvent>, i: nat, j: nat)
    requires Injective(h) && DistinctIds(events) && i < j <= |events|
    requires forall k :: 0 <= k < j ==> SealedAt(h, events, k)
    ensures PrevAt(events, i) != PrevAt(events, j)
  {
    assert SealedAt(h, events, j - 1);
    if i > 0 {
      assert SealedAt(h, events, i - 1);
    }
  }

  // Where a new row lands in its scope: last if and only if it sorts after every stored row.
  lemma LandingPlace(rows: seq<AuditEvent>, e: AuditEvent) returns (j: nat)
    requires DistinctIds(rows + [e])
    ensures
      var v := View(rows, e.rec.scope);
      && j <= |v| && View(rows + [e], e.rec.scope) == v[..j] + [e] + v[j..]
      && (j == |v| <==> forall x :: x in rows && x.rec.scope == e.rec.scope ==> KeyLess(x, e))
  {
    RowsBefore(rows, e);
    SameScopeInserts(rows, e);
    var v := View(rows, e.rec.scope);
    j := InsertSplits(e, v);
    assert forall i :: 0 <= i < |v| ==> v[i] in v;
  }

  // The verdict on an intact chain `v` after a row with this link landed at position j: the row
  // itself is reported if it does not name the row before it, and otherwise the row it displaced.
  ghost function VerdictAfterAppend(v: seq<AuditEvent>, r: Record, prev: Option<Hash>, j: nat): Verdict
    requires j <= |v|
  {
    if prev != PrevAt(v, j) then Broken(r.id, j)
    else if j < |v| then Broken(v[j].rec.id, j + 1)
    else Intact(|v| + 1)
  }

  lemma AppendInView(h: Payload -> Hash, v: seq<AuditEvent>, r: Record, prev: Option<Hash>, j: nat)
    requires Injective(h) && Sealed(h, v) && j <= |v|
    requires forall x :: x in v ==> x.rec.id != r.id
    ensures IsVerdict(h, v[..j] + [Seal(h, r, prev)] + v[j..], VerdictAfterAppend(v, r, prev, j))
  {
    var e := Seal(h, r, prev);
    var w := v[..j] + [e] + v[j..];
    assert forall i :: 0 <= i <= j ==> PrevAt(w, i) == PrevAt(v, i);
    forall i | 0 <= i < j
      ensures SealedAt(h, w, i)
    {
      assert SealedAt(h, v, i);
    }
    if j < |v| {
      assert w[j + 1] == v[j] && SealedAt(h, v, j);
      assert j > 0 ==> SealedAt(h, v, j - 1) && v[j - 1] in v;
      assert PrevAt(v, j) != e.entryHash;
    }
  }

  // One append to an intact chain, whatever it links to and whatever the times are: the new row
  // lands at position `j` with the verdict stated, and the chain stays intact if and only if the
  // row sorts after every stored row of its scope and links to the last of them.
  lemma RecordKeepsIntactIff(h: Payload -> Hash, rows: seq<AuditEvent>, r: Record, prev: Option<Hash>) returns (j: nat)
    requires Injective(h) && DistinctIds(rows + [Seal(h, r, prev)])
    requires Sealed(h, View(rows, r.scope))
    ensures j <= |View(rows, r.scope)|
    ensures IsVerdict(h, View(rows + [Seal(h, r, prev)], r.scope), VerdictAfterAppend(View(rows, r.scope), r, prev, j))
    ensures Sealed(h, View(rows + [Seal(h, r, prev)], r.scope)) <==>
            && prev == LastHash(View(rows, r.scope))
            && forall x :: x in rows && x.rec.scope == r.scope ==> KeyLess(x, Seal(h, r, prev))
  {
    RowsBefore(rows, Seal(h, r, prev));
    j := LandingPlace(rows, Seal(h, r, prev));
    AppendInView(h, View(rows, r.scope), r, prev, j);
  }

  ghost predicate PointsInto(rows: seq<AuditEvent>, x: AuditEvent) {
    x.prevHash == None || exists y :: y in rows && y.entryHash == x.prevHash
  }

  // Every recorded row carries its own digest and links to a row that was there before, if any.
  lemma {:induction false} BuiltRows(h: Payload -> Hash, rows: seq<AuditEvent>)
    requires Built(h, rows)
    ensures forall x :: x in rows ==>
      x.entryHash == Some(h(PayloadOf(x.rec, x.prevHash))) && PointsInto(rows, x)
  {
    if rows == [] {
    } else {
      var front, e := rows[..|rows| - 1], rows[|rows| - 1];
      assert rows == front + [e];
      BuiltRows(h, front);
      forall x | x in rows
        ensures x.entryHash == Some(h(PayloadOf(x.rec, x.prevHash))) && PointsInto(rows, x)
      {
        if x in front {
          assert PointsInto(front, x);
        } else {
          var prev :| MayLink(front, e.rec.scope, prev) && rows == front + [Seal(h, e.rec, prev)];
          assert x == e == Seal(h, e.rec, prev);
        }
      }
    }
  }

  // In append order: each event sorts after the ones before it and names its predecessor.
  ghost predicate Chained(events: seq<AuditEvent>) {
    StrictlySorted(events) && forall i :: 0 <= i < |events| ==> events[i].prevHash == PrevAt(events, i)
  }

  // A recorded row that lands before another displaces one that cannot name it: the chain is broken.
  lemma LateRowLandsLast(h: Payload -> Hash, front: seq<AuditEvent>, e: AuditEvent, j: nat)
    requires Injective(h) && Built(h, front + [e]) && DistinctIds(front + [e])
    requires j <= |View(front, e.rec.scope)|
    requires Sealed(h, View(front, e.rec.scope)[..j] + [e] + View(front, e.rec.scope)[j..])
    ensures j == |View(front, e.rec.scope)|
  {
    var v, rows := View(front, e.rec.scope), front + [e];
    assert rows[..|rows| - 1] == front;
    BuiltRows(h, rows);
    BuiltRows(h, front);
    RowsBefore(front, e);
    if j < |v| {
      var w := v[..j] + [e] + v[j..];
      assert w[j] == e && w[j + 1] == v[j] && v[j] in v && e in rows;
      assert SealedAt(h, w, j + 1);
      NoEarlierLink(h, front, e, v[j]);
    }
  }

  // No stored row names a row recorded after it.
  lemma NoEarlierLink(h: Payload -> Hash, front: seq<AuditEvent>, e: AuditEvent, x: AuditEvent)
    requires Injective(h) && Built(h, front) && DistinctIds(front + [e]) && x in front
    requires e.entryHash == Some(h(PayloadOf(e.rec, e.prevHash)))
    ensures x.prevHash != e.entryHash
  {
    BuiltRows(h, front);
    RowsBefore(front, e);
    assert PointsInto(front, x);
  }

  // So a chain that verifies was recorded in the order in which it is read: a broken one never heals.
  lemma {:induction false} SealedWasAppendedInOrder(h: Payload -> Hash, rows: seq<AuditEvent>, scope: Scope)
    requires Injective(h) && Built(h, rows) && DistinctIds(rows)
    requires Sealed(h, View(rows, scope))
    ensures View(rows, scope) == InScope(rows, scope)
  {
    if rows == [] {
    } else {
      var front, e := rows[..|rows| - 1], rows[|rows| - 1];
      assert rows == front + [e];
      if e.rec.scope != scope {
        OtherScopeUntouched(front, e, scope);
        SealedWasAppendedInOrder(h, front, scope);
      } else {
        var v := View(front, scope);
        var j := LandingPlace(front, e);
        LateRowLandsLast(h, front, e, j);
        assert View(rows, scope) == v + [e];
        SealedPrefix(h, v + [e], |v|);
        assert (v + [e])[..|v|] == v;
        SealedWasAppendedInOrder(h, front, scope);
      }
    }
  }

  // Over every run of record_audit, with any clock and any choice among tied rows: the verifier
  // accepts a scope if and only if its events were appended in the order in which they are read,
  // each naming the one before it.
  lemma BuiltLogIsIntactIff(h: Payload -> Hash, rows: seq<AuditEvent>, scope: Scope)
    requires Injective(h) && Built(h, rows) && DistinctIds(rows)
    ensures IsVerdict(h, View(rows, scope), Intact(|InScope(rows, scope)|)) <==> Chained(InScope(rows, scope))
  {
    ViewSorted(rows, scope);
    SealedIsIntact(h, View(rows, scope));
    hide *;
    if Sealed(h, View(rows, scope)) {
      SealedWasAppendedInOrder(h, rows, scope);
      SealedIsChained(h, InScope(rows, scope));
    }
    if Chained(InScope(rows, scope)) {
      ChainedIsView(rows, scope);
      BuiltRows(h, rows);
      ChainedIsSealed(h, rows, View(rows, scope));
    }
  }

  lemma SealedIsIntact(h: Payload -> Hash, v: seq<AuditEvent>)
    ensures IsVerdict(h, v, Intact(|v|)) <==> Sealed(h, v)
  {
  }

  lemma SealedIsChained(h: Payload -> Hash, v: seq<AuditEvent>)
    requires Sealed(h, v) && StrictlySorted(v)
    ensures Chained(v)
  {
    forall i | 0 <= i < |v|
      ensures v[i].prevHash == PrevAt(v, i)
    {
      assert SealedAt(h, v, i);
    }
  }

  lemma ChainedIsView(rows: seq<AuditEvent>, scope: Scope)
    requires DistinctIds(rows) && Chained(InScope(rows, scope))
    ensures View(rows, scope) == InScope(rows, scope)
  {
    InScopeMembers(rows, scope);
    ViewIsSorted(rows, scope, InScope(rows, scope));
  }

  lemma ChainedIsSealed(h: Payload -> Hash, rows: seq<AuditEvent>, v: seq<AuditEvent>)
    requires forall x :: x in rows ==> x.entryHash == Some(h(PayloadOf(x.rec, x.prevHash)))
    requires Chained(v) && forall x :: x in v ==> x in rows
    ensures Sealed(h, v)
  {
    forall i | 0 <= i < |v|
      ensures SealedAt(h, v, i)
    {
      assert v[i] in v;
    }
  }

  lemma {:induction false} OrderedIsChained(h: Payload -> Hash, rows: seq<AuditEvent>, scope: Scope)
    requires Built(h, rows) && DistinctIds(rows)
    requires StrictlySorted(InScope(rows, scope)) && DistinctTimes(InScope(rows, scope))
    ensures Chained(InScope(rows, scope))
  {
    if rows == [] {
    } else {
      var front, e := rows[..|rows| - 1], rows[|rows| - 1];
      if e.rec.scope != scope {
        OrderedIsChained(h, front, scope);
      } else {
        var earlier := InScope(front, scope);
        assert rows == front + [e] && InScope(rows, scope) == earlier + [e];
        assert MayLink(front, scope, e.prevHash);
        OrderedPrefix(earlier, e);
        hide StrictlySorted, DistinctTimes, DistinctIds, Chained;
        RowsBefore(front, e);
        OrderedIsChained(h, front, scope);
        NextNamesLast(front, scope, e.prevHash);
        ChainedGrows(earlier, e);
      }
    }
  }

  lemma OrderedPrefix(events: seq<AuditEvent>, e: AuditEvent)
    requires StrictlySorted(events + [e]) && DistinctTimes(events + [e])
    ensures StrictlySorted(events) && DistinctTimes(events)
  {
    assert forall i :: 0 <= i < |events| ==> (events + [e])[i] == events[i];
  }

  lemma ChainedGrows(events: seq<AuditEvent>, e: AuditEvent)
    requires Chained(events) && StrictlySorted(events + [e]) && e.prevHash == LastHash(events)
    ensures Chained(events + [e])
  {
    hide StrictlySorted;
    assert forall i :: 0 <= i <= |events| ==> PrevAt(events + [e], i) == PrevAt(events, i);
  }

  lemma NextNamesLast(front: seq<AuditEvent>, scope: Scope, prev: Option<Hash>)
    requires DistinctIds(front) && MayLink(front, scope, prev)
    requires DistinctTimes(InScope(front, scope)) && StrictlySorted(InScope(front, scope))
    ensures prev == LastHash(InScope(front, scope))
  {
    InScopeMembers(front, scope);
    ViewIsSorted(front, scope, InScope(front, scope));
    DistinctTimesOneNewest(front, scope);
    LinksToLast(front, scope, prev);
  }

  // While no two events of a scope share a time, the clock decides alone: the scope is intact if
  // and only if its events were appended in the order of their times.
  lemma ClockDecidesIff(h: Payload -> Hash, rows: seq<AuditEvent>, scope: Scope)
    requires Injective(h) && Built(h, rows) && DistinctIds(rows) && DistinctTimes(InScope(rows, scope))
    ensures
      var events := InScope(rows, scope);
      IsVerdict(h, View(rows, scope), Intact(|events|)) <==>
      forall i, j :: 0 <= i < j < |events| ==> events[i].rec.createdAt < events[j].rec.createdAt
  {
    var events := InScope(rows, scope);
    BuiltLogIsIntactIff(h, rows, scope);
    assert StrictlySorted(events) <==>
           forall i, j :: 0 <= i < j < |events| ==> events[i].rec.createdAt < events[j].rec.createdAt;
    if StrictlySorted(events) {
      OrderedIsChained(h, rows, scope);
    }
  }
}
