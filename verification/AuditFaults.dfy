// What the verifier of the audit chain reports after a stored row was rewritten or removed, and
// logs that nothing but a badly behaved clock breaks.
module AuditFaults {
  import opened Common
  import opened AuditChain

  // ---------------------------------------------------------------- where a fault is reported

  ghost predicate SamePlace(a: AuditEvent, b: AuditEvent) {
    a.rec.id == b.rec.id && a.rec.createdAt == b.rec.createdAt && a.rec.scope == b.rec.scope
  }

  lemma RankOf(rows: seq<AuditEvent>, k: nat) returns (i: nat)
    requires DistinctIds(rows) && k < |rows|
    ensures
      var v := View(rows, rows[k].rec.scope);
      && i < |v| && v[i] == rows[k] && StrictlySorted(v) && Distinct(v) && Distinct(rows)
      && forall x :: x in v <==> x in rows && x.rec.scope == rows[k].rec.scope
  {
    ViewSorted(rows, rows[k].rec.scope);
    var v := View(rows, rows[k].rec.scope);
    assert rows[k] in v;
    i :| 0 <= i < |v| && v[i] == rows[k];
  }

  // Rewriting one stored row in place: what the verifier sees.
  lemma ViewUpdate(rows: seq<AuditEvent>, k: nat, now: AuditEvent) returns (i: nat)
    requires DistinctIds(rows) && k < |rows| && SamePlace(rows[k], now)
    ensures i < |View(rows, now.rec.scope)| && View(rows, now.rec.scope)[i] == rows[k]
    ensures View(rows[k := now], now.rec.scope) == View(rows, now.rec.scope)[i := now]
  {
    var scope, rows' := now.rec.scope, rows[k := now];
    i := RankOf(rows, k);
    var v := View(rows, scope);
    assert forall m :: 0 <= m < |v| ==> SamePlace(v[m], v[i := now][m]);
    UpdateMembers(rows, k, now);
    UpdateMembers(v, i, now);
    ViewIsSorted(rows', scope, v[i := now]);
  }

  lemma RemovalKeepsOrder(v: seq<AuditEvent>, i: nat)
    requires StrictlySorted(v) && i < |v|
    ensures StrictlySorted(v[..i] + v[i + 1..])
  {
  }

  lemma RemovalKeepsIds(rows: seq<AuditEvent>, k: nat)
    requires DistinctIds(rows) && k < |rows|
    ensures DistinctIds(rows[..k] + rows[k + 1..])
  {
  }

  lemma ViewRemove(rows: seq<AuditEvent>, k: nat) returns (i: nat)
    requires DistinctIds(rows) && k < |rows|
    ensures i < |View(rows, rows[k].rec.scope)| && View(rows, rows[k].rec.scope)[i] == rows[k]
    ensures View(rows[..k] + rows[k + 1..], rows[k].rec.scope) ==
            View(rows, rows[k].rec.scope)[..i] + View(rows, rows[k].rec.scope)[i + 1..]
  {
    var scope, rows' := rows[k].rec.scope, rows[..k] + rows[k + 1..];
    i := RankOf(rows, k);
    var v := View(rows, scope);
    RemovalKeepsIds(rows, k);
    RemovalKeepsOrder(v, i);
    RemoveMembers(rows, k);
    RemoveMembers(v, i);
    ViewIsSorted(rows', scope, v[..i] + v[i + 1..]);
  }

  // The verdict after rewriting the event at position i of an intact chain, in full:
  // an event that no longer matches its own digest is reported itself; one that was resealed is
  // betrayed by its successor; only the last event, or a rewrite that leaves the entry hash as it
  // was, goes through.
  ghost function VerdictAfterRewrite(h: Payload -> Hash, v: seq<AuditEvent>, i: nat, now: AuditEvent): Verdict
    requires i < |v|
  {
    if now.prevHash != v[i].prevHash || now.entryHash != Some(h(PayloadOf(now.rec, v[i].prevHash)))
    then Broken(now.rec.id, i)
    else if now.entryHash != v[i].entryHash && i + 1 < |v| then Broken(v[i + 1].rec.id, i + 1)
    else Intact(|v|)
  }

  lemma RewriteInView(h: Payload -> Hash, v: seq<AuditEvent>, i: nat, now: AuditEvent)
    requires Sealed(h, v) && i < |v|
    ensures IsVerdict(h, v[i := now], VerdictAfterRewrite(h, v, i, now))
  {
    var w := v[i := now];
    assert SealedAt(h, v, i);
    assert forall k :: 0 <= k <= i ==> PrevAt(w, k) == PrevAt(v, k);
    forall k | 0 <= k < |w| && k != i && (k == i + 1 ==> now.entryHash == v[i].entryHash)
      ensures SealedAt(h, w, k)
    {
      assert SealedAt(h, v, k);
    }
    if i + 1 < |w| {
      assert SealedAt(h, v, i + 1);
    }
  }

  // A rewrite that keeps both hash columns goes unnoticed if and only if it changed none of the
  // protected columns.
  lemma RewriteUnnoticedIff(h: Payload -> Hash, v: seq<AuditEvent>, i: nat, now: AuditEvent)
    requires Injective(h) && Sealed(h, v) && i < |v|
    requires now.entryHash == v[i].entryHash && now.prevHash == v[i].prevHash
    ensures IsVerdict(h, v[i := now], Intact(|v|)) <==> SameHashedColumns(now.rec, v[i].rec)
  {
    assert SealedAt(h, v, i);
    RewriteInView(h, v, i, now);
    VerdictAtMostOne(h, v[i := now], VerdictAfterRewrite(h, v, i, now));
    PayloadsAgree(now.rec, v[i].rec, v[i].prevHash);
    hide IsVerdict, PayloadOf, SameHashedColumns;
  }

  lemma VerdictAtMostOne(h: Payload -> Hash, events: seq<AuditEvent>, v: Verdict)
    requires IsVerdict(h, events, v)
    ensures IsVerdict(h, events, Intact(|events|)) <==> v == Intact(|events|)
  {
    if IsVerdict(h, events, Intact(|events|)) {
      VerdictUnique(h, events, v, Intact(|events|));
    }
  }

  lemma PayloadsAgree(a: Record, b: Record, prev: Option<Hash>)
    ensures PayloadOf(a, prev) == PayloadOf(b, prev) <==> SameHashedColumns(a, b)
  {
  }

  // Fault location in the table: the verdict depends on the rewritten row as stated.
  lemma RewriteIsLocated(h: Payload -> Hash, rows: seq<AuditEvent>, k: nat, now: AuditEvent) returns (i: nat)
    requires DistinctIds(rows) && k < |rows| && SamePlace(rows[k], now)
    requires Sealed(h, View(rows, now.rec.scope))
    ensures i < |View(rows, now.rec.scope)| && View(rows, now.rec.scope)[i] == rows[k]
    ensures IsVerdict(h, View(rows[k := now], now.rec.scope), VerdictAfterRewrite(h, View(rows, now.rec.scope), i, now))
  {
    i := ViewUpdate(rows, k, now);
    RewriteInView(h, View(rows, now.rec.scope), i, now);
  }

  // And with both hash columns kept, it goes unnoticed in the table under the same condition.
  lemma TableRewriteUnnoticedIff(h: Payload -> Hash, rows: seq<AuditEvent>, k: nat, now: AuditEvent)
    requires Injective(h) && DistinctIds(rows) && k < |rows| && SamePlace(rows[k], now)
    requires Sealed(h, View(rows, now.rec.scope))
    requires now.entryHash == rows[k].entryHash && now.prevHash == rows[k].prevHash
    ensures IsVerdict(h, View(rows[k := now], now.rec.scope), Intact(|View(rows, now.rec.scope)|)) <==>
            SameHashedColumns(now.rec, rows[k].rec)
  {
    var i := ViewUpdate(rows, k, now);
    RewriteUnnoticedIff(h, View(rows, now.rec.scope), i, now);
  }

  // The verdict on an intact chain after the event at position i is gone: the event after it is
  // reported, with everything before it checked; the last event can be cut off unnoticed.
  function VerdictAfterRemoval(v: seq<AuditEvent>, i: nat): Verdict {
    if i + 1 < |v| then Broken(v[i + 1].rec.id, i) else Intact(i)
  }

  lemma RemovalInView(h: Payload -> Hash, v: seq<AuditEvent>, i: nat)
    requires Injective(h) && DistinctIds(v) && Sealed(h, v) && i < |v|
    ensures IsVerdict(h, v[..i] + v[i + 1..], VerdictAfterRemoval(v, i))
  {
    var w := v[..i] + v[i + 1..];
    forall m | 0 <= m < i
      ensures SealedAt(h, w, m)
    {
      assert SealedAt(h, v, m);
    }
    if i + 1 < |v| {
      assert SealedAt(h, v, i + 1);
      EntryHashesDiffer(h, v, i, i + 1);
      assert PrevAt(w, i) == PrevAt(v, i);
    }
  }

  // The same for a row removed from the table.
  lemma RemovalIsLocated(h: Payload -> Hash, rows: seq<AuditEvent>, k: nat) returns (i: nat)
    requires Injective(h) && DistinctIds(rows) && k < |rows|
    requires Sealed(h, View(rows, rows[k].rec.scope))
    ensures i < |View(rows, rows[k].rec.scope)| && View(rows, rows[k].rec.scope)[i] == rows[k]
    ensures IsVerdict(h, View(rows[..k] + rows[k + 1..], rows[k].rec.scope),
                      VerdictAfterRemoval(View(rows, rows[k].rec.scope), i))
  {
    i := ViewRemove(rows, k);
    ViewSorted(rows, rows[k].rec.scope);
    RemovalInView(h, View(rows, rows[k].rec.scope), i);
  }

  // Two tables whose scopes verify and end in the same hash hold the same hashed history.
  lemma TablesAgree(h: Payload -> Hash, rows: seq<AuditEvent>, other: seq<AuditEvent>, s: Scope, t: Scope, m: nat,
                    n: nat)
    requires Injective(h)
    requires IsVerdict(h, View(rows, s), Intact(m)) && IsVerdict(h, View(other, t), Intact(n))
    requires LastHash(View(rows, s)) == LastHash(View(other, t))
    ensures m == n
    ensures forall i :: 0 <= i < m ==> SameEvent(View(rows, s)[i], View(other, t)[i])
  {
    LastHashFixesHistory(h, View(rows, s), View(other, t));
  }

  lemma BuiltGrows(h: Payload -> Hash, rows: seq<AuditEvent>, r: Record, newest: AuditEvent)
    requires Built(h, rows) && IsNewest(rows, r.scope, newest)
    ensures Built(h, rows + [Seal(h, r, newest.entryHash)])
  {
    var longer := rows + [Seal(h, r, newest.entryHash)];
    assert longer[..|longer| - 1] == rows;
    assert MayLink(rows, r.scope, newest.entryHash);
    assert Recorded(h, rows, r, longer);
  }

  lemma FirstBuilt(h: Payload -> Hash, r: Record)
    ensures Built(h, [Seal(h, r, None)]) && View([Seal(h, r, None)], r.scope) == [Seal(h, r, None)]
  {
    var rows := [Seal(h, r, None)];
    assert rows[..|rows| - 1] == [] && MayLink([], r.scope, None);
    assert Recorded(h, [], r, rows) by {
      assert rows == [] + [Seal(h, r, None)];
    }
    ViewIsSorted(rows, r.scope, rows);
  }

  lemma TwoRowsView(a: AuditEvent, b: AuditEvent)
    requires a.rec.scope == b.rec.scope && a.rec.id != b.rec.id && KeyLess(b, a)
    ensures DistinctIds([a, b]) && View([a, b], a.rec.scope) == [b, a]
  {
    ViewIsSorted([a, b], a.rec.scope, [b, a]);
  }

  lemma FirstLinkBreaks(h: Payload -> Hash, events: seq<AuditEvent>)
    requires events != [] && events[0].prevHash != None
    ensures IsVerdict(h, events, Broken(events[0].rec.id, 0))
  {
    assert !SealedAt(h, events, 0);
  }

  // Whenever the clock steps back between the first two events of a scope, the log that
  // record_audit writes is reported broken at its first event.
  lemma ClockStepBackBreaksChain(h: Payload -> Hash, early: Record, late: Record) returns (rows: seq<AuditEvent>)
    requires early.scope == late.scope && early.id != late.id && late.createdAt < early.createdAt
    ensures Built(h, rows) && DistinctIds(rows) && |rows| == 2 && rows[0].rec == early && rows[1].rec == late
    ensures IsVerdict(h, View(rows, early.scope), Broken(late.id, 0))
  {
    var a := Seal(h, early, None);
    var b := Seal(h, late, a.entryHash);
    rows := [a, b];
    FirstBuilt(h, early);
    BuiltGrows(h, [a], late, a);
    assert rows == [a] + [b];
    TwoRowsView(a, b);
    FirstLinkBreaks(h, [b, a]);
  }

  lemma SecondLinkBreaks(h: Payload -> Hash, a: AuditEvent, b: AuditEvent, r: Record)
    requires Injective(h) && a == Seal(h, a.rec, None) && b == Seal(h, b.rec, a.entryHash)
    requires a.rec.id != b.rec.id
    ensures IsVerdict(h, [a, b, Seal(h, r, a.entryHash)], Broken(r.id, 2))
  {
    var rows := [a, b, Seal(h, r, a.entryHash)];
    assert SealedAt(h, rows, 0) && SealedAt(h, rows, 1) && !SealedAt(h, rows, 2);
  }

  lemma TiedRowsBuilt(h: Payload -> Hash, a: AuditEvent, b: AuditEvent, r: Record)
    requires a.rec.scope == b.rec.scope == r.scope && a.rec.createdAt == b.rec.createdAt
    requires a == Seal(h, a.rec, None) && b == Seal(h, b.rec, a.entryHash)
    ensures Built(h, [a, b, Seal(h, r, a.entryHash)])
  {
    var c := Seal(h, r, a.entryHash);
    FirstBuilt(h, a.rec);
    assert IsNewest([a], b.rec.scope, a) && IsNewest([a, b], r.scope, a);
    hide *;
    BuiltGrows(h, [a], b.rec, a);
    assert [a] + [b] == [a, b];
    BuiltGrows(h, [a, b], r, a);
    assert [a, b] + [c] == [a, b, c];
  }

  lemma ThreeRowsView(a: AuditEvent, b: AuditEvent, c: AuditEvent)
    requires a.rec.scope == b.rec.scope == c.rec.scope
    requires a.rec.id != b.rec.id && a.rec.id != c.rec.id && b.rec.id != c.rec.id
    requires KeyLess(a, b) && KeyLess(b, c)
    ensures DistinctIds([a, b, c]) && StrictlySorted([a, b, c]) && View([a, b, c], a.rec.scope) == [a, b, c]
  {
    ViewIsSorted([a, b, c], a.rec.scope, [a, b, c]);
  }

  // Advancing by id alone is not enough: of two rows of equal time the writer may link to the first,
  // and a third row that sorts after both is reported although nothing was appended out of order.
  lemma TiedClockCanBreakChain(h: Payload -> Hash, first: Record, second: Record, third: Record)
    returns (rows: seq<AuditEvent>)
    requires Injective(h) && first.scope == second.scope == third.scope
    requires first.createdAt == second.createdAt < third.createdAt
    requires first.id < second.id && third.id != first.id && third.id != second.id
    ensures Built(h, rows) && DistinctIds(rows) && View(rows, first.scope) == rows && StrictlySorted(rows)
    ensures |rows| == 3 && IsVerdict(h, View(rows, first.scope), Broken(third.id, 2))
  {
    var a := Seal(h, first, None);
    var b := Seal(h, second, a.entryHash);
    rows := [a, b, Seal(h, third, a.entryHash)];
    TiedRowsBuilt(h, a, b, third);
    SecondLinkBreaks(h, a, b, third);
    ThreeRowsView(a, b, rows[2]);
  }
}
