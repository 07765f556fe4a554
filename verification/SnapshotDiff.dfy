// Two independently written diffs of ontology snapshots: the flat one behind a change request
// and the sectioned one behind an ontology. Both key the items first, then walk the new side,
// then the old side.
module SnapshotDiff {
  import opened Common

  datatype Snapshot = Snapshot(classes: seq<Item>, properties: seq<Item>, relations: seq<Item>, constraints: seq<Item>)

  // ---------------------------------------------------------------- keyed items

  // How a diff names an item: the flat diff skips items whose "iri" is missing or falsy, the
  // sectioned diff reads item["iri"] as it is, and constraints go by a triple.
  datatype Keying = NonEmptyIri | RawIri | ConstraintTriple

  function OrEmpty(j: Json): Json {
    if Truthy(j) then j else JString("")
  }

  function KeyOf(how: Keying, item: Item): Option<Json> {
    match how
    case NonEmptyIri => if Truthy(Get(item, "iri")) then Some(Get(item, "iri")) else None
    case RawIri => Some(Get(item, "iri"))
    case ConstraintTriple =>
      Some(JArray([OrEmpty(Get(item, "target_class_iri")), OrEmpty(Get(item, "property_iri")),
                   OrEmpty(Get(item, "constraint_type"))]))
  }

  // A Python dict: keys in the order of their first insertion, the last value written to each.
  datatype Keyed = Keyed(keys: seq<Json>, items: map<Json, Item>) {
    ghost predicate Valid() {
      Distinct(keys) && forall k :: k in keys <==> k in items
    }

    function Put(key: Json, item: Item): Keyed {
      Keyed(if key in items then keys else keys + [key], items[key := item])
    }
  }

  function KeyBy(how: Keying, items: seq<Item>): Keyed {
    if items == [] then Keyed([], map[])
    else
      var d := KeyBy(how, items[..|items| - 1]);
      var item := items[|items| - 1];
      match KeyOf(how, item)
      case None => d
      case Some(key) => d.Put(key, item)
  }

  // Position p holds the item that `key` stands for: the last one with that key.
  ghost predicate StandsFor(how: Keying, items: seq<Item>, p: nat, key: Json) {
    && p < |items| && KeyOf(how, items[p]) == Some(key)
    && forall q :: p < q < |items| ==> KeyOf(how, items[q]) != Some(key)
  }

  lemma {:induction false} KeyByValid(how: Keying, items: seq<Item>)
    ensures KeyBy(how, items).Valid()
  {
    if items == [] {
    } else {
      var front, last := items[..|items| - 1], items[|items| - 1];
      KeyByValid(how, front);
    }
  }

  lemma {:induction false} KeyByItem(how: Keying, items: seq<Item>, p: nat, key: Json)
    requires StandsFor(how, items, p, key)
    ensures key in KeyBy(how, items).items && KeyBy(how, items).items[key] == items[p]
  {
    var front := items[..|items| - 1];
    if p == |front| {
    } else {
      assert StandsFor(how, front, p, key);
      KeyByItem(how, front, p, key);
    }
  }

  lemma {:induction false} KeyByHas(how: Keying, items: seq<Item>, key: Json) returns (p: nat)
    requires key in KeyBy(how, items).items
    ensures StandsFor(how, items, p, key)
  {
    var n := |items| - 1;
    if KeyOf(how, items[n]) == Some(key) {
      p := n;
    } else {
      p := KeyByHas(how, items[..n], key);
      assert StandsFor(how, items[..n], p, key);
    }
  }

  lemma {:induction false} SomePositionStands(how: Keying, items: seq<Item>, q: nat, key: Json) returns (p: nat)
    requires q < |items| && KeyOf(how, items[q]) == Some(key)
    ensures StandsFor(how, items, p, key)
    decreases |items| - q
  {
    if r: nat :| q < r < |items| && KeyOf(how, items[r]) == Some(key) {
      p := SomePositionStands(how, items, r, key);
    } else {
      p := q;
    }
  }

  ghost function KeysOf(how: Keying, items: seq<Item>): set<Json> {
    set p | 0 <= p < |items| && KeyOf(how, items[p]).Some? :: KeyOf(how, items[p]).value
  }

  lemma {:induction false} KeySet(how: Keying, items: seq<Item>)
    ensures KeyBy(how, items).items.Keys == KeysOf(how, items)
  {
    var d := KeyBy(how, items);
    forall key
      ensures key in d.items <==> key in KeysOf(how, items)
    {
      if key in d.items {
        var p := KeyByHas(how, items, key);
        assert KeyOf(how, items[p]).value in KeysOf(how, items);
      }
      if key in KeysOf(how, items) {
        var q :| 0 <= q < |items| && KeyOf(how, items[q]) == Some(key);
        var p := SomePositionStands(how, items, q, key);
        KeyByItem(how, items, p, key);
      }
    }
  }

  // ---------------------------------------------------------------- labels

  datatype Change = Added | Removed | Modified | Unchanged

  // What counts as a modification: any difference, or (for classes in the sectioned diff) a
  // difference in name or description only.
  datatype Rule = WholeItem | NameAndDescription

  predicate Same(rule: Rule, a: Item, b: Item) {
    match rule
    case WholeItem => a == b
    case NameAndDescription => Get(a, "name") == Get(b, "name") && Get(a, "description") == Get(b, "description")
  }

  function LabelOf(rule: Rule, from: Keyed, to: Keyed, key: Json): Change {
    if key !in from.items then Added
    else if key !in to.items then Removed
    else if Same(rule, to.items[key], from.items[key]) then Unchanged
    else Modified
  }

  function Without(keys: seq<Json>, items: map<Json, Item>): seq<Json> {
    if keys == [] then []
    else
      var rest := Without(keys[..|keys| - 1], items);
      if keys[|keys| - 1] in items then rest else rest + [keys[|keys| - 1]]
  }

  // The order of the report: the new side first, then what only the old side has.
  function ReportKeys(from: Keyed, to: Keyed): seq<Json> {
    to.keys + Without(from.keys, to.items)
  }

  lemma {:induction false} WithoutMembers(keys: seq<Json>, items: map<Json, Item>)
    requires Distinct(keys)
    ensures Distinct(Without(keys, items))
    ensures forall k :: k in Without(keys, items) <==> k in keys && k !in items
  {
    if keys == [] {
    } else {
      WithoutMembers(keys[..|keys| - 1], items);
      assert keys == keys[..|keys| - 1] + [keys[|keys| - 1]];
    }
  }

  lemma DistinctConcat(a: seq<Json>, b: seq<Json>)
    requires Distinct(a) && Distinct(b) && forall k :: k in a ==> k !in b
    ensures Distinct(a + b)
  {
    forall i, j | 0 <= i < j < |a + b|
      ensures (a + b)[i] != (a + b)[j]
    {
      assert i < |a| ==> a[i] in a;
      assert j >= |a| ==> b[j - |a|] in b;
    }
  }

  lemma ReportKeysMeaning(from: Keyed, to: Keyed)
    requires from.Valid() && to.Valid()
    ensures Distinct(ReportKeys(from, to))
    ensures forall k :: k in ReportKeys(from, to) <==> k in from.items || k in to.items
  {
    WithoutMembers(from.keys, to.items);
    DistinctConcat(to.keys, Without(from.keys, to.items));
  }

  // ---------------------------------------------------------------- the flat diff

  datatype Kind = ClassKind | PropertyKind | RelationKind

  datatype Entry = Entry(kind: Kind, iri: Json, name: Json, change: Change, before: Item, after: Item)

  datatype Summary = Summary(added: nat, removed: nat, modified: nat, kept: nat)

  function Bump(s: Summary, change: Change): Summary {
    match change
    case Added => s.(added := s.added + 1)
    case Removed => s.(removed := s.removed + 1)
    case Modified => s.(modified := s.modified + 1)
    case Unchanged => s.(kept := s.kept + 1)
  }

  // item.get(column, "")
  function Column(item: Item, column: string): Json {
    if column in item then item[column] else JString("")
  }

  function NameOf(item: Item): Json {
    Column(item, "name")
  }

  function BeforeDetails(from: Item, to: Item): Item {
    map k | k in from && k != "iri" && Get(from, k) != Get(to, k) :: from[k]
  }

  function AfterDetails(from: Item, to: Item): Item {
    map k | k in to && k != "iri" && Get(from, k) != Get(to, k) :: to[k]
  }

  function ItemAt(d: Keyed, key: Json): Item {
    if key in d.items then d.items[key] else map[]
  }

  function EntryFor(kind: Kind, from: Keyed, to: Keyed, key: Json): Entry {
    var change, old', new' := LabelOf(WholeItem, from, to, key), ItemAt(from, key), ItemAt(to, key);
    Entry(kind, key, NameOf(if change == Removed then old' else new'), change,
          if change == Modified then BeforeDetails(old', new') else map[],
          if change == Modified then AfterDetails(old', new') else map[])
  }

  function EntriesFor(kind: Kind, from: Keyed, to: Keyed, keys: seq<Json>): seq<Entry> {
    seq(|keys|, i requires 0 <= i < |keys| => EntryFor(kind, from, to, keys[i]))
  }

  function ItemsOf(s: Snapshot, kind: Kind): seq<Item> {
    match kind
    case ClassKind => s.classes
    case PropertyKind => s.properties
    case RelationKind => s.relations
  }

  function Side(s: Snapshot, kind: Kind): Keyed {
    KeyBy(NonEmptyIri, ItemsOf(s, kind))
  }

  // The part of the flat diff for one kind.
  function KindDiff(kind: Kind, from: Snapshot, to: Snapshot): seq<Entry> {
    var f, t := Side(from, kind), Side(to, kind);
    EntriesFor(kind, f, t, ReportKeys(f, t))
  }

  function FlatDiff(from: Snapshot, to: Snapshot): seq<Entry> {
    KindDiff(ClassKind, from, to) + KindDiff(PropertyKind, from, to) + KindDiff(RelationKind, from, to)
  }

  ghost function CountOf(entries: seq<Entry>, change: Change): nat {
    if entries == [] then 0
    else CountOf(entries[..|entries| - 1], change) + if entries[|entries| - 1].change == change then 1 else 0
  }

  ghost function Tally(entries: seq<Entry>): Summary {
    Summary(CountOf(entries, Added), CountOf(entries, Removed), CountOf(entries, Modified), CountOf(entries, Unchanged))
  }

  lemma TallyAppend(entries: seq<Entry>, e: Entry)
    ensures Tally(entries + [e]) == Bump(Tally(entries), e.change)
  {
  }

  lemma EntriesAppend(kind: Kind, from: Keyed, to: Keyed, keys: seq<Json>, key: Json)
    ensures EntriesFor(kind, from, to, keys + [key]) ==
            EntriesFor(kind, from, to, keys) + [EntryFor(kind, from, to, key)]
  {
  }

  method NewSideEntry(kind: Kind, f: Keyed, t: Keyed, iri: Json) returns (entry: Entry)
    requires iri in t.items
    ensures entry == EntryFor(kind, f, t, iri)
  {
    var item := t.items[iri];
    if iri !in f.items {
      return Entry(kind, iri, NameOf(item), Added, map[], map[]);
    }
    var fromItem := f.items[iri];
    if item != fromItem {
      return Entry(kind, iri, NameOf(item), Modified, BeforeDetails(fromItem, item), AfterDetails(fromItem, item));
    }
    return Entry(kind, iri, NameOf(item), Unchanged, map[], map[]);
  }

  method DiffNewSide(kind: Kind, f: Keyed, t: Keyed, diffs0: seq<Entry>, summary0: Summary)
    returns (diffs: seq<Entry>, summary: Summary)
    requires f.Valid() && t.Valid() && summary0 == Tally(diffs0)
    ensures diffs == diffs0 + EntriesFor(kind, f, t, t.keys) && summary == Tally(diffs)
  {
    diffs, summary := diffs0, summary0;
    hide EntryFor, Tally;
    for i := 0 to |t.keys|
      invariant diffs == diffs0 + EntriesFor(kind, f, t, t.keys[..i]) && summary == Tally(diffs)
    {
      var iri := t.keys[i];
      var entry := NewSideEntry(kind, f, t, iri);
      EntriesAppend(kind, f, t, t.keys[..i], iri);
      TallyAppend(diffs, entry);
      diffs, summary := diffs + [entry], Bump(summary, entry.change);
      assert t.keys[..i + 1] == t.keys[..i] + [iri];
    }
    assert t.keys[..|t.keys|] == t.keys;
  }

  method DiffOldSide(kind: Kind, f: Keyed, t: Keyed, diffs0: seq<Entry>, summary0: Summary)
    returns (diffs: seq<Entry>, summary: Summary)
    requires f.Valid() && t.Valid() && summary0 == Tally(diffs0)
    ensures diffs == diffs0 + EntriesFor(kind, f, t, Without(f.keys, t.items)) && summary == Tally(diffs)
  {
    diffs, summary := diffs0, summary0;
    for i := 0 to |f.keys|
      invariant diffs == diffs0 + EntriesFor(kind, f, t, Without(f.keys[..i], t.items)) && summary == Tally(diffs)
    {
      var iri := f.keys[i];
      assert f.keys[..i + 1][..i] == f.keys[..i];
      if iri !in t.items {
        var entry := Entry(kind, iri, NameOf(f.items[iri]), Removed, map[], map[]);
        assert entry == EntryFor(kind, f, t, iri);
        EntriesAppend(kind, f, t, Without(f.keys[..i], t.items), iri);
        TallyAppend(diffs, entry);
        diffs, summary := diffs + [entry], Bump(summary, entry.change);
      }
    }
    assert f.keys[..|f.keys|] == f.keys;
  }

  method DiffOneKind(kind: Kind, from: Snapshot, to: Snapshot, diffs0: seq<Entry>, summary0: Summary)
    returns (diffs: seq<Entry>, summary: Summary)
    requires summary0 == Tally(diffs0)
    ensures diffs == diffs0 + KindDiff(kind, from, to) && summary == Tally(diffs)
  {
    var f, t := KeyBy(NonEmptyIri, ItemsOf(from, kind)), KeyBy(NonEmptyIri, ItemsOf(to, kind));
    KeyByValid(NonEmptyIri, ItemsOf(from, kind));
    KeyByValid(NonEmptyIri, ItemsOf(to, kind));
    hide KeyBy, Tally, LabelOf, EntryFor;
    diffs, summary := DiffNewSide(kind, f, t, diffs0, summary0);
    diffs, summary := DiffOldSide(kind, f, t, diffs, summary);
    assert EntriesFor(kind, f, t, t.keys) + EntriesFor(kind, f, t, Without(f.keys, t.items)) ==
           EntriesFor(kind, f, t, ReportKeys(f, t));
  }

  datatype Report = Report(diffs: seq<Entry>, summary: Summary)

  // Lists and objects cannot be keys of a dict.
  predicate Hashable(j: Json) {
    !j.JArray? && !j.JObject?
  }

  predicate HashableIris(items: seq<Item>) {
    forall i | 0 <= i < |items| && "iri" in items[i] :: Truthy(items[i]["iri"]) ==> Hashable(items[i]["iri"])
  }

  predicate Keyable(s: Snapshot) {
    HashableIris(s.classes) && HashableIris(s.properties) && HashableIris(s.relations)
  }

  // An entry can be built only from a text as IRI and a text as name.
  predicate Reportable(entries: seq<Entry>) {
    forall i | 0 <= i < |entries| :: entries[i].iri.JString? && entries[i].name.JString?
  }

  method DiffAllKinds(from: Snapshot, to: Snapshot) returns (diffs: seq<Entry>, summary: Summary)
    ensures diffs == FlatDiff(from, to) && summary == Tally(diffs)
  {
    diffs, summary := [], Summary(0, 0, 0, 0);
    assert summary == Tally(diffs);
    hide KindDiff, Tally;
    diffs, summary := DiffOneKind(ClassKind, from, to, diffs, summary);
    diffs, summary := DiffOneKind(PropertyKind, from, to, diffs, summary);
    diffs, summary := DiffOneKind(RelationKind, from, to, diffs, summary);
  }

  method DiffSnapshots(from: Snapshot, to: Snapshot) returns (answer: Result<Report>)
    ensures answer == if Keyable(from) && Keyable(to) && Reportable(FlatDiff(from, to))
                      then Ok(Report(FlatDiff(from, to), Tally(FlatDiff(from, to)))) else Refused(ServerError)
  {
    hide *;
    if !Keyable(from) || !Keyable(to) {
      return Refused(ServerError);
    }
    var diffs, summary := DiffAllKinds(from, to);
    if !Reportable(diffs) {
      return Refused(ServerError);
    }
    return Ok(Report(diffs, summary));
  }

  // ---------------------------------------------------------------- partition

  ghost predicate EntryAt(entries: seq<Entry>, i: nat, kind: Kind, iri: Json) {
    i < |entries| && entries[i].kind == kind && entries[i].iri == iri
  }

  ghost predicate KindEntryAt(kind: Kind, from: Snapshot, to: Snapshot, i: nat, iri: Json) {
    i < |KindDiff(kind, from, to)| && KindDiff(kind, from, to)[i].iri == iri
  }

  lemma SidesValid(kind: Kind, from: Snapshot, to: Snapshot)
    ensures
      var f, t := Side(from, kind), Side(to, kind);
      && f.Valid() && t.Valid() && Distinct(ReportKeys(f, t))
      && f.items.Keys == KeysOf(NonEmptyIri, ItemsOf(from, kind))
      && t.items.Keys == KeysOf(NonEmptyIri, ItemsOf(to, kind))
      && forall k :: k in ReportKeys(f, t) <==> k in f.items || k in t.items
  {
    hide KeyBy, KeysOf;
    KeyByValid(NonEmptyIri, ItemsOf(from, kind));
    KeyByValid(NonEmptyIri, ItemsOf(to, kind));
    KeySet(NonEmptyIri, ItemsOf(from, kind));
    KeySet(NonEmptyIri, ItemsOf(to, kind));
    ReportKeysMeaning(Side(from, kind), Side(to, kind));
  }

  lemma KindIriOnce(kind: Kind, from: Snapshot, to: Snapshot, iri: Json)
    ensures iri in KeysOf(NonEmptyIri, ItemsOf(from, kind)) || iri in KeysOf(NonEmptyIri, ItemsOf(to, kind)) <==>
      exists i: nat :: KindEntryAt(kind, from, to, i, iri)
    ensures forall i: nat, j: nat :: KindEntryAt(kind, from, to, i, iri) && KindEntryAt(kind, from, to, j, iri) ==>
              i == j
  {
    SidesValid(kind, from, to);
    hide Side, ReportKeys, KeysOf, LabelOf;
    var keys := ReportKeys(Side(from, kind), Side(to, kind));
    if iri in keys {
      var i :| 0 <= i < |keys| && keys[i] == iri;
      assert KindEntryAt(kind, from, to, i, iri);
    }
    forall i: nat | KindEntryAt(kind, from, to, i, iri)
      ensures keys[i] == iri && keys[i] in keys
    {
    }
  }

  ghost predicate AllOfKind(entries: seq<Entry>, kind: Kind) {
    forall i :: 0 <= i < |entries| ==> entries[i].kind == kind
  }

  lemma PartAt(before: seq<Entry>, mine: seq<Entry>, after: seq<Entry>, i: nat, kind: Kind, iri: Json)
    requires AllOfKind(mine, kind)
    requires forall j :: 0 <= j < |before| ==> before[j].kind != kind
    requires forall j :: 0 <= j < |after| ==> after[j].kind != kind
    ensures EntryAt(before + mine + after, i, kind, iri) <==>
            |before| <= i < |before| + |mine| && mine[i - |before|].iri == iri
    ensures EntryAt(before + mine + after, i, kind, iri) ==> (before + mine + after)[i] == mine[i - |before|]
  {
  }

  lemma KindDiffKind(kind: Kind, from: Snapshot, to: Snapshot)
    ensures AllOfKind(KindDiff(kind, from, to), kind)
  {
  }

  lemma EntryOfKind(kind: Kind, from: Snapshot, to: Snapshot, iri: Json) returns (offset: nat)
    ensures forall i: nat :: EntryAt(FlatDiff(from, to), i, kind, iri) <==>
      offset <= i && KindEntryAt(kind, from, to, i - offset, iri)
    ensures forall i: nat :: EntryAt(FlatDiff(from, to), i, kind, iri) ==>
      && offset <= i < offset + |KindDiff(kind, from, to)|
      && FlatDiff(from, to)[i] == KindDiff(kind, from, to)[i - offset]
  {
    var c, p, r := KindDiff(ClassKind, from, to), KindDiff(PropertyKind, from, to), KindDiff(RelationKind, from, to);
    KindDiffKind(ClassKind, from, to);
    KindDiffKind(PropertyKind, from, to);
    KindDiffKind(RelationKind, from, to);
    hide KindDiff, EntryAt;
    var before := match kind case ClassKind => [] case PropertyKind => c case RelationKind => c + p;
    var after := match kind case ClassKind => p + r case PropertyKind => r case RelationKind => [];
    assert FlatDiff(from, to) == before + KindDiff(kind, from, to) + after;
    offset := |before|;
    forall i: nat {
      PartAt(before, KindDiff(kind, from, to), after, i, kind, iri);
    }
  }

  // Every non-empty IRI of either snapshot has exactly one entry of its kind, and no entry
  // speaks of anything else.
  lemma EveryIriOnce(kind: Kind, from: Snapshot, to: Snapshot, iri: Json)
    ensures iri in KeysOf(NonEmptyIri, ItemsOf(from, kind)) || iri in KeysOf(NonEmptyIri, ItemsOf(to, kind)) <==>
      exists i: nat :: EntryAt(FlatDiff(from, to), i, kind, iri)
    ensures forall i: nat, j: nat ::
      EntryAt(FlatDiff(from, to), i, kind, iri) && EntryAt(FlatDiff(from, to), j, kind, iri) ==> i == j
  {
    var offset := EntryOfKind(kind, from, to, iri);
    KindIriOnce(kind, from, to, iri);
    hide *;
    if i: nat :| KindEntryAt(kind, from, to, i, iri) {
      assert (i + offset) - offset == i;
      assert EntryAt(FlatDiff(from, to), i + offset, kind, iri);
    }
  }

  // What a label and its details say about the two snapshots themselves.
  lemma LabelMeaning(kind: Kind, from: Snapshot, to: Snapshot, i: nat, iri: Json)
    requires KindEntryAt(kind, from, to, i, iri)
    ensures KindDiff(kind, from, to)[i].change == Added <==> iri !in KeysOf(NonEmptyIri, ItemsOf(from, kind))
    ensures KindDiff(kind, from, to)[i].change == Removed <==> iri !in KeysOf(NonEmptyIri, ItemsOf(to, kind))
  {
    SidesValid(kind, from, to);
    var f, t := Side(from, kind), Side(to, kind);
    hide KeyBy, KeysOf, ReportKeys;
    assert ReportKeys(f, t)[i] in ReportKeys(f, t);
  }

  lemma CommonLabelMeaning(kind: Kind, from: Snapshot, to: Snapshot, i: nat, iri: Json, p: nat, q: nat)
    requires KindEntryAt(kind, from, to, i, iri)
    requires StandsFor(NonEmptyIri, ItemsOf(from, kind), p, iri) && StandsFor(NonEmptyIri, ItemsOf(to, kind), q, iri)
    ensures
      var e, a, b := KindDiff(kind, from, to)[i], ItemsOf(from, kind)[p], ItemsOf(to, kind)[q];
      && e.change == (if a == b then Unchanged else Modified)
      && e.name == (if "name" in b then b["name"] else JString(""))
      && e.before == (if a == b then map[] else BeforeDetails(a, b))
      && e.after == (if a == b then map[] else AfterDetails(a, b))
  {
    KeyByItem(NonEmptyIri, ItemsOf(from, kind), p, iri);
    KeyByItem(NonEmptyIri, ItemsOf(to, kind), q, iri);
    hide KeyBy, StandsFor, BeforeDetails, AfterDetails;
  }

  // An entry of one side only carries the name of the item that stands for its IRI, and no details.
  lemma OneSidedMeaning(kind: Kind, from: Snapshot, to: Snapshot, i: nat, iri: Json, p: nat)
    requires KindEntryAt(kind, from, to, i, iri)
    requires var change := KindDiff(kind, from, to)[i].change;
             || (change == Added && StandsFor(NonEmptyIri, ItemsOf(to, kind), p, iri))
             || (change == Removed && StandsFor(NonEmptyIri, ItemsOf(from, kind), p, iri))
    ensures
      var e := KindDiff(kind, from, to)[i];
      var item := if e.change == Added then ItemsOf(to, kind)[p] else ItemsOf(from, kind)[p];
      e.name == (if "name" in item then item["name"] else JString("")) && e.before == map[] && e.after == map[]
  {
    SidesValid(kind, from, to);
    var f, t, e := Side(from, kind), Side(to, kind), KindDiff(kind, from, to)[i];
    assert e == EntryFor(kind, f, t, iri);
    hide KeyBy, KeysOf, ReportKeys, KindDiff;
    if e.change == Added {
      KeyByItem(NonEmptyIri, ItemsOf(to, kind), p, iri);
    } else {
      KeyByItem(NonEmptyIri, ItemsOf(from, kind), p, iri);
    }
  }

  // ---------------------------------------------------------------- order of the report

  // Position p is where the key occurs for the first time.
  ghost predicate FirstAt(how: Keying, items: seq<Item>, p: nat, key: Json) {
    && p < |items| && KeyOf(how, items[p]) == Some(key)
    && forall q :: 0 <= q < p ==> KeyOf(how, items[q]) != Some(key)
  }

  // Keys come in the order of their first occurrence.
  lemma {:induction false} KeysInOrder(how: Keying, items: seq<Item>, i: nat, j: nat, p: nat, q: nat)
    requires i < j < |KeyBy(how, items).keys|
    requires FirstAt(how, items, p, KeyBy(how, items).keys[i]) && FirstAt(how, items, q, KeyBy(how, items).keys[j])
    ensures p < q
  {
    var front, keys := items[..|items| - 1], KeyBy(how, items[..|items| - 1]).keys;
    KeyByValid(how, items);
    KeyByValid(how, front);
    if j < |keys| {
      FirstOfFront(how, items, p, keys[i]);
      FirstOfFront(how, items, q, keys[j]);
      KeysInOrder(how, front, i, j, p, q);
    } else {
      FirstOfFront(how, items, p, keys[i]);
      assert keys[j..] == [];
      assert keys == KeyBy(how, items).keys[..|keys|];
      NewKeyIsLast(how, items, q, KeyBy(how, items).keys[j]);
    }
  }

  lemma FirstOfFront(how: Keying, items: seq<Item>, p: nat, key: Json)
    requires items != [] && FirstAt(how, items, p, key) && key in KeyBy(how, items[..|items| - 1]).items
    ensures p < |items| - 1 && FirstAt(how, items[..|items| - 1], p, key)
  {
    var front := items[..|items| - 1];
    var x := KeyByHas(how, front, key);
    assert front[x] == items[x];
  }

  lemma NewKeyIsLast(how: Keying, items: seq<Item>, q: nat, key: Json)
    requires items != [] && FirstAt(how, items, q, key) && key !in KeyBy(how, items[..|items| - 1]).items
    ensures q == |items| - 1
  {
    var front := items[..|items| - 1];
    KeySet(how, front);
    assert forall x :: 0 <= x < |front| ==> front[x] == items[x] && KeyOf(how, front[x]) != Some(key);
  }

  lemma {:induction false} WithoutKeepsOrder(keys: seq<Json>, items: map<Json, Item>, i: nat, j: nat)
    returns (a: nat, b: nat)
    requires i < j < |Without(keys, items)|
    ensures a < b < |keys| && keys[a] == Without(keys, items)[i] && keys[b] == Without(keys, items)[j]
  {
    var front := keys[..|keys| - 1];
    if j < |Without(front, items)| {
      a, b := WithoutKeepsOrder(front, items, i, j);
    } else {
      var k := Without(front, items)[i];
      WithoutFrom(front, items, k);
      a, b := 0, |keys| - 1;
      a :| 0 <= a < |front| && front[a] == k;
    }
  }

  lemma {:induction false} WithoutFrom(keys: seq<Json>, items: map<Json, Item>, k: Json)
    requires k in Without(keys, items)
    ensures k in keys
  {
    var front := keys[..|keys| - 1];
    if k in Without(front, items) {
      WithoutFrom(front, items, k);
    }
  }

  // The order within one kind: an entry for an IRI the new side has is preceded only by such entries,
  // in the order of their first occurrence there.
  lemma ReportOrderNew(kind: Kind, from: Snapshot, to: Snapshot, i: nat, j: nat, p: nat, q: nat)
    requires i < j < |KindDiff(kind, from, to)| && KindDiff(kind, from, to)[j].change != Removed
    requires FirstAt(NonEmptyIri, ItemsOf(to, kind), p, KindDiff(kind, from, to)[i].iri)
    requires FirstAt(NonEmptyIri, ItemsOf(to, kind), q, KindDiff(kind, from, to)[j].iri)
    ensures p < q && KindDiff(kind, from, to)[i].change != Removed
  {
    EntryIs(kind, from, to, i);
    EntryIs(kind, from, to, j);
    RemovedIffLate(kind, from, to, i);
    RemovedIffLate(kind, from, to, j);
    hide *;
    KeyOrderOfSide(to, kind, i, j, p, q);
  }

  // The removed entries follow, in the order of their first occurrence in the old snapshot.
  lemma ReportOrderOld(kind: Kind, from: Snapshot, to: Snapshot, i: nat, j: nat, p: nat, q: nat)
    requires i < j < |KindDiff(kind, from, to)| && KindDiff(kind, from, to)[i].change == Removed
    requires FirstAt(NonEmptyIri, ItemsOf(from, kind), p, KindDiff(kind, from, to)[i].iri)
    requires FirstAt(NonEmptyIri, ItemsOf(from, kind), q, KindDiff(kind, from, to)[j].iri)
    ensures p < q && KindDiff(kind, from, to)[j].change == Removed
  {
    EntryIs(kind, from, to, i);
    EntryIs(kind, from, to, j);
    RemovedIffLate(kind, from, to, i);
    RemovedIffLate(kind, from, to, j);
    hide *;
    var f, t := Side(from, kind), Side(to, kind);
    var a, b := WithoutKeepsOrder(f.keys, t.items, i - |t.keys|, j - |t.keys|);
    KeyOrderOfSide(from, kind, a, b, p, q);
  }

  lemma EntryIs(kind: Kind, from: Snapshot, to: Snapshot, i: nat)
    requires i < |KindDiff(kind, from, to)|
    ensures
      var f, t := Side(from, kind), Side(to, kind);
      && |ReportKeys(f, t)| == |KindDiff(kind, from, to)| && KindDiff(kind, from, to)[i].iri == ReportKeys(f, t)[i]
      && ReportKeys(f, t) == t.keys + Without(f.keys, t.items)
  {
  }

  lemma RemovedIffLate(kind: Kind, from: Snapshot, to: Snapshot, i: nat)
    requires i < |KindDiff(kind, from, to)|
    ensures KindDiff(kind, from, to)[i].change == Removed <==> i >= |Side(to, kind).keys|
  {
    var f, t := Side(from, kind), Side(to, kind);
    SidesValid(kind, from, to);
    WithoutMembers(f.keys, t.items);
    hide KeyBy, KeysOf;
    var k := ReportKeys(f, t)[i];
    assert i < |t.keys| ==> k in t.keys;
    assert i >= |t.keys| ==> k in Without(f.keys, t.items);
  }

  lemma KeyOrderOfSide(s: Snapshot, kind: Kind, i: nat, j: nat, p: nat, q: nat)
    requires i < j < |Side(s, kind).keys|
    requires FirstAt(NonEmptyIri, ItemsOf(s, kind), p, Side(s, kind).keys[i])
    requires FirstAt(NonEmptyIri, ItemsOf(s, kind), q, Side(s, kind).keys[j])
    ensures p < q
  {
    KeysInOrder(NonEmptyIri, ItemsOf(s, kind), i, j, p, q);
  }

  // ---------------------------------------------------------------- conservation and swap

  ghost function Labelled(rule: Rule, from: Keyed, to: Keyed, change: Change): set<Json> {
    set k | k in from.items.Keys + to.items.Keys && LabelOf(rule, from, to, k) == change
  }

  ghost function Chosen(from: Keyed, to: Keyed, keys: seq<Json>, change: Change): set<Json> {
    set k | k in keys && LabelOf(WholeItem, from, to, k) == change
  }

  lemma ChosenStep(from: Keyed, to: Keyed, keys: seq<Json>, key: Json, change: Change)
    requires key !in keys
    ensures |Chosen(from, to, keys + [key], change)| ==
            |Chosen(from, to, keys, change)| + if LabelOf(WholeItem, from, to, key) == change then 1 else 0
  {
    hide LabelOf;
    var more := Chosen(from, to, keys + [key], change);
    if LabelOf(WholeItem, from, to, key) == change {
      assert more == Chosen(from, to, keys, change) + {key};
    } else {
      assert more == Chosen(from, to, keys, change);
    }
  }

  lemma {:induction false} CountIsChosen(kind: Kind, from: Keyed, to: Keyed, keys: seq<Json>, change: Change)
    requires Distinct(keys)
    ensures CountOf(EntriesFor(kind, from, to, keys), change) == |Chosen(from, to, keys, change)|
  {
    if keys == [] {
      assert Chosen(from, to, keys, change) == {};
    } else {
      hide LabelOf, BeforeDetails, AfterDetails, Chosen;
      var front, last := keys[..|keys| - 1], keys[|keys| - 1];
      CountIsChosen(kind, from, to, front, change);
      EntriesAppend(kind, from, to, front, last);
      assert keys == front + [last];
      ChosenStep(from, to, front, last, change);
    }
  }

  lemma KindCount(kind: Kind, from: Snapshot, to: Snapshot, change: Change)
    ensures CountOf(KindDiff(kind, from, to), change) == |Labelled(WholeItem, Side(from, kind), Side(to, kind), change)|
  {
    SidesValid(kind, from, to);
    hide LabelOf, Side, CountOf, ReportKeys, KeysOf, EntriesFor;
    var f, t := Side(from, kind), Side(to, kind);
    CountIsChosen(kind, f, t, ReportKeys(f, t), change);
    assert Labelled(WholeItem, f, t, change) == Chosen(f, t, ReportKeys(f, t), change);
  }

  function Opposite(c: Change): Change {
    match c
    case Added => Removed
    case Removed => Added
    case Modified => Modified
    case Unchanged => Unchanged
  }

  lemma LabelledSwaps(rule: Rule, from: Keyed, to: Keyed, change: Change)
    ensures Labelled(rule, to, from, Opposite(change)) == Labelled(rule, from, to, change)
  {
  }

  lemma NewSideSplits(rule: Rule, from: Keyed, to: Keyed)
    ensures |to.items.Keys| ==
            |Labelled(rule, from, to, Added)| + |Labelled(rule, from, to, Modified)|
            + |Labelled(rule, from, to, Unchanged)|
  {
    var added, modified := Labelled(rule, from, to, Added), Labelled(rule, from, to, Modified);
    var kept := Labelled(rule, from, to, Unchanged);
    forall k
      ensures k in to.items.Keys <==> k in added || k in modified || k in kept
    {
    }
    assert forall k :: !(k in added && k in modified) && !(k in added && k in kept) && !(k in modified && k in kept);
    DisjointSum(to.items.Keys, added, modified, kept);
  }

  lemma DisjointSum<T>(all: set<T>, a: set<T>, b: set<T>, c: set<T>)
    requires forall k :: k in all <==> k in a || k in b || k in c
    requires forall k :: !(k in a && k in b) && !(k in a && k in c) && !(k in b && k in c)
    ensures |all| == |a| + |b| + |c|
  {
    assert all == a + b + c;
    assert a !! b && (a + b) !! c;
  }

  // Per kind: the new side is what was added, modified or kept; the old side is what was
  // removed, modified or kept.
  lemma KindConserves(kind: Kind, from: Snapshot, to: Snapshot)
    ensures
      var d := Tally(KindDiff(kind, from, to));
      && d.added + d.modified + d.kept == |KeysOf(NonEmptyIri, ItemsOf(to, kind))|
      && d.removed + d.modified + d.kept == |KeysOf(NonEmptyIri, ItemsOf(from, kind))|
  {
    hide CountOf, KindDiff, Labelled, KeyBy, KeysOf;
    var f, t := Side(from, kind), Side(to, kind);
    KindCount(kind, from, to, Added);
    KindCount(kind, from, to, Removed);
    KindCount(kind, from, to, Modified);
    KindCount(kind, from, to, Unchanged);
    KeySet(NonEmptyIri, ItemsOf(from, kind));
    KeySet(NonEmptyIri, ItemsOf(to, kind));
    NewSideSplits(WholeItem, f, t);
    NewSideSplits(WholeItem, t, f);
    LabelledSwaps(WholeItem, f, t, Removed);
    LabelledSwaps(WholeItem, f, t, Modified);
    LabelledSwaps(WholeItem, f, t, Unchanged);
  }

  lemma {:induction false} CountConcat(a: seq<Entry>, b: seq<Entry>, change: Change)
    ensures CountOf(a + b, change) == CountOf(a, change) + CountOf(b, change)
  {
    if b == [] {
      assert a + b == a;
    } else {
      CountConcat(a, b[..|b| - 1], change);
      assert (a + b)[..|a + b| - 1] == a + b[..|b| - 1];
    }
  }

  ghost function IriTotal(s: Snapshot): nat {
    |KeysOf(NonEmptyIri, s.classes)| + |KeysOf(NonEmptyIri, s.properties)| + |KeysOf(NonEmptyIri, s.relations)|
  }

  lemma FlatCount(from: Snapshot, to: Snapshot, change: Change)
    ensures CountOf(FlatDiff(from, to), change) ==
            CountOf(KindDiff(ClassKind, from, to), change) + CountOf(KindDiff(PropertyKind, from, to), change)
            + CountOf(KindDiff(RelationKind, from, to), change)
  {
    CountConcat(KindDiff(ClassKind, from, to) + KindDiff(PropertyKind, from, to), KindDiff(RelationKind, from, to),
                change);
    CountConcat(KindDiff(ClassKind, from, to), KindDiff(PropertyKind, from, to), change);
  }

  lemma {:induction false} CountsCoverAll(entries: seq<Entry>)
    ensures |entries| ==
            CountOf(entries, Added) + CountOf(entries, Removed) + CountOf(entries, Modified)
            + CountOf(entries, Unchanged)
  {
    if entries == [] {
    } else {
      CountsCoverAll(entries[..|entries| - 1]);
    }
  }

  lemma DiffConserves(from: Snapshot, to: Snapshot)
    ensures
      var d := Tally(FlatDiff(from, to));
      && d.added + d.modified + d.kept == IriTotal(to)
      && d.removed + d.modified + d.kept == IriTotal(from)
      && d.added + d.removed + d.modified + d.kept == |FlatDiff(from, to)|
  {
    FlatCount(from, to, Added);
    FlatCount(from, to, Removed);
    FlatCount(from, to, Modified);
    FlatCount(from, to, Unchanged);
    KindConserves(ClassKind, from, to);
    KindConserves(PropertyKind, from, to);
    KindConserves(RelationKind, from, to);
    CountsCoverAll(FlatDiff(from, to));
    hide CountOf, FlatDiff, KindDiff, KeysOf;
  }

  lemma KindSwaps(kind: Kind, from: Snapshot, to: Snapshot, change: Change)
    ensures CountOf(KindDiff(kind, to, from), Opposite(change)) == CountOf(KindDiff(kind, from, to), change)
  {
    hide CountOf, KindDiff, Labelled, Side;
    KindCount(kind, from, to, change);
    KindCount(kind, to, from, Opposite(change));
    LabelledSwaps(WholeItem, Side(from, kind), Side(to, kind), change);
  }

  // Swapping the arguments swaps added with removed and keeps the other two counts.
  lemma DiffSwaps(from: Snapshot, to: Snapshot, change: Change)
    ensures CountOf(FlatDiff(to, from), Opposite(change)) == CountOf(FlatDiff(from, to), change)
  {
    FlatCount(from, to, change);
    FlatCount(to, from, Opposite(change));
    KindSwaps(ClassKind, from, to, change);
    KindSwaps(PropertyKind, from, to, change);
    KindSwaps(RelationKind, from, to, change);
  }

  lemma {:induction false} EntrySwaps(kind: Kind, from: Keyed, to: Keyed, key: Json)
    requires key in from.items || key in to.items
    ensures
      var e, e' := EntryFor(kind, from, to, key), EntryFor(kind, to, from, key);
      e'.change == Opposite(e.change) && e'.before == e.after && e'.after == e.before
  {
    var a, b := ItemAt(from, key), ItemAt(to, key);
    assert BeforeDetails(b, a) == AfterDetails(a, b);
    assert AfterDetails(b, a) == BeforeDetails(a, b);
  }

  // Entry by entry, in the whole report: an IRI of a kind is reported both ways or not at all, the
  // label turns into its opposite and the two halves of the patch trade places.
  lemma DiffEntriesSwap(kind: Kind, from: Snapshot, to: Snapshot, iri: Json)
    ensures (exists i: nat :: EntryAt(FlatDiff(from, to), i, kind, iri)) <==>
            (exists j: nat :: EntryAt(FlatDiff(to, from), j, kind, iri))
    ensures forall i: nat, j: nat ::
      EntryAt(FlatDiff(from, to), i, kind, iri) && EntryAt(FlatDiff(to, from), j, kind, iri) ==>
        var e, e' := FlatDiff(from, to)[i], FlatDiff(to, from)[j];
        e'.change == Opposite(e.change) && e'.before == e.after && e'.after == e.before
  {
    EveryIriOnce(kind, from, to, iri);
    EveryIriOnce(kind, to, from, iri);
    forall i: nat, j: nat | EntryAt(FlatDiff(from, to), i, kind, iri) && EntryAt(FlatDiff(to, from), j, kind, iri)
      ensures var e, e' := FlatDiff(from, to)[i], FlatDiff(to, from)[j];
              e'.change == Opposite(e.change) && e'.before == e.after && e'.after == e.before
    {
      FlatEntryFor(kind, from, to, i, iri);
      FlatEntryFor(kind, to, from, j, iri);
      hide EntryFor, FlatDiff, Side, Opposite;
      EntrySwaps(kind, Side(from, kind), Side(to, kind), iri);
    }
  }

  // An entry of the report is the entry of its kind and IRI.
  lemma FlatEntryFor(kind: Kind, from: Snapshot, to: Snapshot, i: nat, iri: Json)
    requires EntryAt(FlatDiff(from, to), i, kind, iri)
    ensures FlatDiff(from, to)[i] == EntryFor(kind, Side(from, kind), Side(to, kind), iri)
    ensures iri in Side(from, kind).items || iri in Side(to, kind).items
  {
    var offset := EntryOfKind(kind, from, to, iri);
    SidesValid(kind, from, to);
    hide FlatDiff, KindDiff, EntryFor, Side, ReportKeys;
    KindEntryFor(kind, from, to, i - offset);
  }

  lemma KindEntryFor(kind: Kind, from: Snapshot, to: Snapshot, k: nat)
    requires k < |KindDiff(kind, from, to)|
    ensures
      var f, t, e := Side(from, kind), Side(to, kind), KindDiff(kind, from, to)[k];
      e == EntryFor(kind, f, t, e.iri) && e.iri in ReportKeys(f, t)
  {
  }

  // ---------------------------------------------------------------- details are a patch

  function Patched(item: Item, drop: Item, overlay: Item): Item {
    (item - drop.Keys) + overlay
  }

  ghost predicate ReadsAlike(a: Item, b: Item) {
    forall k :: Get(a, k) == Get(b, k)
  }

  // Dropping the `before` keys and overlaying `after` turns the old item into the new one, and
  // the reverse patch recovers the old one, up to keys that are missing on one side and None on
  // the other.
  lemma {:induction false} DetailsArePatch(from: Item, to: Item)
    requires Get(from, "iri") == Get(to, "iri")
    ensures ReadsAlike(Patched(from, BeforeDetails(from, to), AfterDetails(from, to)), to)
    ensures ReadsAlike(Patched(to, AfterDetails(from, to), BeforeDetails(from, to)), from)
    ensures BeforeDetails(from, to) == map[] && AfterDetails(from, to) == map[] <==> ReadsAlike(from, to)
  {
    if BeforeDetails(from, to) == map[] && AfterDetails(from, to) == map[] {
      forall k
        ensures Get(from, k) == Get(to, k)
      {
        assert k !in BeforeDetails(from, to) && k !in AfterDetails(from, to);
      }
    }
    if ReadsAlike(from, to) {
      assert forall k :: Get(from, k) == Get(to, k);
      assert BeforeDetails(from, to) == map[] && AfterDetails(from, to) == map[];
    }
  }

  // The same for the entries a diff reports.
  lemma ModifiedEntryIsPatch(kind: Kind, from: Snapshot, to: Snapshot, i: nat) returns (old': Item, new': Item)
    requires i < |KindDiff(kind, from, to)| && KindDiff(kind, from, to)[i].change == Modified
    ensures
      var e := KindDiff(kind, from, to)[i];
      && old' in ItemsOf(from, kind) && new' in ItemsOf(to, kind)
      && Get(old', "iri") == e.iri == Get(new', "iri")
      && ReadsAlike(Patched(old', e.before, e.after), new')
      && ReadsAlike(Patched(new', e.after, e.before), old')
  {
    var iri := ReportKeys(Side(from, kind), Side(to, kind))[i];
    hide KeyBy, ReportKeys, ReadsAlike, Patched, BeforeDetails, AfterDetails;
    var p := KeyByHas(NonEmptyIri, ItemsOf(from, kind), iri);
    var q := KeyByHas(NonEmptyIri, ItemsOf(to, kind), iri);
    old', new' := ItemsOf(from, kind)[p], ItemsOf(to, kind)[q];
    KeyByItem(NonEmptyIri, ItemsOf(from, kind), p, iri);
    KeyByItem(NonEmptyIri, ItemsOf(to, kind), q, iri);
    DetailsArePatch(old', new');
  }

  // ---------------------------------------------------------------- the sectioned diff

  // `shown` is the item whose columns the entry copies.
  datatype SectionEntry = SectionEntry(key: Json, change: Change, shown: Item)

  function Shown(from: Keyed, to: Keyed, key: Json): Item {
    if key in to.items then to.items[key] else ItemAt(from, key)
  }

  datatype OntologyDiff = OntologyDiff(
    classes: seq<SectionEntry>,
    properties: seq<SectionEntry>,
    relations: seq<SectionEntry>,
    constraints: seq<SectionEntry>)

  function SectionFor(rule: Rule, from: Keyed, to: Keyed, key: Json): SectionEntry {
    SectionEntry(key, LabelOf(rule, from, to, key), Shown(from, to, key))
  }

  function SectionsFor(rule: Rule, from: Keyed, to: Keyed, keys: seq<Json>): seq<SectionEntry> {
    seq(|keys|, i requires 0 <= i < |keys| => SectionFor(rule, from, to, keys[i]))
  }

  function Section(rule: Rule, from: Keyed, to: Keyed): seq<SectionEntry> {
    SectionsFor(rule, from, to, ReportKeys(from, to))
  }

  lemma SectionsAppend(rule: Rule, from: Keyed, to: Keyed, keys: seq<Json>, key: Json)
    ensures SectionsFor(rule, from, to, keys + [key]) ==
            SectionsFor(rule, from, to, keys) + [SectionFor(rule, from, to, key)]
  {
  }

  method NewSectionEntry(rule: Rule, from: Keyed, to: Keyed, key: Json) returns (entry: SectionEntry)
    requires key in to.items
    ensures entry == SectionFor(rule, from, to, key)
  {
    var item := to.items[key];
    if key !in from.items {
      return SectionEntry(key, Added, item);
    }
    if !Same(rule, item, from.items[key]) {
      return SectionEntry(key, Modified, item);
    }
    return SectionEntry(key, Unchanged, item);
  }

  method DiffSection(rule: Rule, from: Keyed, to: Keyed) returns (entries: seq<SectionEntry>)
    requires from.Valid() && to.Valid()
    ensures entries == Section(rule, from, to)
  {
    entries := [];
    for i := 0 to |to.keys|
      invariant entries == SectionsFor(rule, from, to, to.keys[..i])
    {
      var key := to.keys[i];
      var entry := NewSectionEntry(rule, from, to, key);
      SectionsAppend(rule, from, to, to.keys[..i], key);
      entries := entries + [entry];
      assert to.keys[..i + 1] == to.keys[..i] + [key];
    }
    assert to.keys[..|to.keys|] == to.keys;
    for i := 0 to |from.keys|
      invariant entries == SectionsFor(rule, from, to, to.keys + Without(from.keys[..i], to.items))
    {
      var key := from.keys[i];
      assert from.keys[..i + 1][..i] == from.keys[..i];
      if key !in to.items {
        var rest := Without(from.keys[..i], to.items);
        SectionsAppend(rule, from, to, to.keys + rest, key);
        assert to.keys + rest + [key] == to.keys + (rest + [key]);
        entries := entries + [SectionEntry(key, Removed, from.items[key])];
      }
    }
    assert from.keys[..|from.keys|] == from.keys;
  }

  predicate HasHashableIri(items: seq<Item>) {
    forall i | 0 <= i < |items| :: "iri" in items[i] && Hashable(items[i]["iri"])
  }

  predicate HasHashableTriple(items: seq<Item>) {
    forall i | 0 <= i < |items| ::
      && Hashable(OrEmpty(Get(items[i], "target_class_iri"))) && Hashable(OrEmpty(Get(items[i], "property_iri")))
      && Hashable(OrEmpty(Get(items[i], "constraint_type")))
  }

  // An item without an "iri" key raises KeyError, one with a list or an object as key TypeError.
  predicate Readable(s: Snapshot) {
    && HasHashableIri(s.classes) && HasHashableIri(s.properties) && HasHashableIri(s.relations)
    && HasHashableTriple(s.constraints)
  }

  predicate IsOptionalText(j: Json) {
    j.JNull? || j.JString?
  }

  // What the response models accept: a class entry needs a text as IRI and a text as name, the
  // others have optional columns beside.
  predicate Named(e: SectionEntry) {
    e.key.JString? && NameOf(e.shown).JString?
  }

  predicate Printable(d: OntologyDiff) {
    && (forall i | 0 <= i < |d.classes| :: Named(d.classes[i]))
    && (forall i | 0 <= i < |d.properties| ::
          Named(d.properties[i]) && IsOptionalText(Get(d.properties[i].shown, "domain_iri")))
    && (forall i | 0 <= i < |d.relations| ::
          && Named(d.relations[i]) && IsOptionalText(Get(d.relations[i].shown, "source_class_iri"))
          && IsOptionalText(Get(d.relations[i].shown, "target_class_iri")))
    && (forall i | 0 <= i < |d.constraints| ::
          && IsOptionalText(Get(d.constraints[i].shown, "target_class_iri"))
          && IsOptionalText(Get(d.constraints[i].shown, "property_iri"))
          && Column(d.constraints[i].shown, "constraint_type").JString?)
  }

  ghost function SectionedDiff(from: Snapshot, to: Snapshot): OntologyDiff {
    OntologyDiff(
      Section(NameAndDescription, KeyBy(RawIri, from.classes), KeyBy(RawIri, to.classes)),
      Section(WholeItem, KeyBy(RawIri, from.properties), KeyBy(RawIri, to.properties)),
      Section(WholeItem, KeyBy(RawIri, from.relations), KeyBy(RawIri, to.relations)),
      Section(WholeItem, KeyBy(ConstraintTriple, from.constraints), KeyBy(ConstraintTriple, to.constraints)))
  }

  method DiffKeyedItems(how: Keying, rule: Rule, from: seq<Item>, to: seq<Item>) returns (entries: seq<SectionEntry>)
    ensures entries == Section(rule, KeyBy(how, from), KeyBy(how, to))
  {
    KeyByValid(how, from);
    KeyByValid(how, to);
    entries := DiffSection(rule, KeyBy(how, from), KeyBy(how, to));
  }

  method DiffOntologyVersions(from: Option<Snapshot>, to: Option<Snapshot>) returns (r: Result<OntologyDiff>)
    ensures from.None? || to.None? <==> r == Refused(NotFound)
    ensures from.Some? && to.Some? ==>
      r == if Readable(from.value) && Readable(to.value) && Printable(SectionedDiff(from.value, to.value))
             then Ok(SectionedDiff(from.value, to.value)) else Refused(ServerError)
  {
    if from.None? || to.None? {
      return Refused(NotFound);
    }
    var f, t := from.value, to.value;
    if !Readable(f) || !Readable(t) {
      return Refused(ServerError);
    }
    var classes := DiffKeyedItems(RawIri, NameAndDescription, f.classes, t.classes);
    var properties := DiffKeyedItems(RawIri, WholeItem, f.properties, t.properties);
    var relations := DiffKeyedItems(RawIri, WholeItem, f.relations, t.relations);
    var constraints := DiffKeyedItems(ConstraintTriple, WholeItem, f.constraints, t.constraints);
    var diff := OntologyDiff(classes, properties, relations, constraints);
    if !Printable(diff) {
      return Refused(ServerError);
    }
    return Ok(diff);
  }

  // ---------------------------------------------------------------- what a section says

  lemma KeyedSides(how: Keying, from: seq<Item>, to: seq<Item>)
    ensures
      var f, t := KeyBy(how, from), KeyBy(how, to);
      && f.Valid() && t.Valid() && f.items.Keys == KeysOf(how, from) && t.items.Keys == KeysOf(how, to)
      && Distinct(ReportKeys(f, t)) && forall k :: k in ReportKeys(f, t) <==> k in f.items || k in t.items
  {
    KeyByValid(how, from);
    KeyByValid(how, to);
    KeySet(how, from);
    KeySet(how, to);
    ReportKeysMeaning(KeyBy(how, from), KeyBy(how, to));
  }

  // Each key of either list has one entry, and an entry says added or removed exactly when the old
  // or the new list lacks its key.
  lemma SectionOnce(how: Keying, rule: Rule, from: seq<Item>, to: seq<Item>, key: Json)
    ensures
      var entries := Section(rule, KeyBy(how, from), KeyBy(how, to));
      && (key in KeysOf(how, from) || key in KeysOf(how, to) <==>
            exists i :: 0 <= i < |entries| && entries[i].key == key)
      && (forall i, j :: 0 <= i < j < |entries| ==> entries[i].key != entries[j].key)
      && (forall i :: 0 <= i < |entries| ==>
            && (entries[i].change == Added <==> entries[i].key !in KeysOf(how, from))
            && (entries[i].change == Removed <==> entries[i].key !in KeysOf(how, to)))
  {
    KeyedSides(how, from, to);
    var f, t := KeyBy(how, from), KeyBy(how, to);
    hide KeyBy, KeysOf, ReportKeys;
    var entries, keys := Section(rule, f, t), ReportKeys(f, t);
    assert forall i :: 0 <= i < |entries| ==> entries[i].key == keys[i] && keys[i] in keys;
    if key in keys {
      var i :| 0 <= i < |keys| && keys[i] == key;
      assert entries[i].key == key;
    }
  }

  // An entry for a key of both lists compares the items that stand for it, as whole items or, under
  // the class rule, by name and description; it shows the new item.
  lemma SectionCommon(how: Keying, rule: Rule, from: seq<Item>, to: seq<Item>, i: nat, p: nat, q: nat)
    requires i < |Section(rule, KeyBy(how, from), KeyBy(how, to))|
    requires StandsFor(how, from, p, Section(rule, KeyBy(how, from), KeyBy(how, to))[i].key)
    requires StandsFor(how, to, q, Section(rule, KeyBy(how, from), KeyBy(how, to))[i].key)
    ensures
      var e, a, b := Section(rule, KeyBy(how, from), KeyBy(how, to))[i], from[p], to[q];
      && e.shown == b && e.change in {Unchanged, Modified}
      && (e.change == Unchanged <==>
            if rule == WholeItem then a == b
            else Get(a, "name") == Get(b, "name") && Get(a, "description") == Get(b, "description"))
  {
    var key := Section(rule, KeyBy(how, from), KeyBy(how, to))[i].key;
    KeyByItem(how, from, p, key);
    KeyByItem(how, to, q, key);
    hide KeyBy, ReportKeys;
  }

  // Two constraints have one key exactly when they agree on target class, property and type, where
  // missing, None and anything else that is falsy is the same.
  lemma TripleIff(a: Item, b: Item)
    ensures KeyOf(ConstraintTriple, a) == KeyOf(ConstraintTriple, b) <==>
            forall column :: column in {"target_class_iri", "property_iri", "constraint_type"} ==>
              Get(a, column) == Get(b, column) || (!Truthy(Get(a, column)) && !Truthy(Get(b, column)))
  {
    var x, y := KeyOf(ConstraintTriple, a).value.elems, KeyOf(ConstraintTriple, b).value.elems;
    assert x == y <==> x[0] == y[0] && x[1] == y[1] && x[2] == y[2];
  }

  // The constraint section compares whole constraints by that triple.
  lemma ConstraintsMeaning(from: Snapshot, to: Snapshot, i: nat, p: nat, q: nat)
    requires i < |SectionedDiff(from, to).constraints|
    requires StandsFor(ConstraintTriple, from.constraints, p, SectionedDiff(from, to).constraints[i].key)
    requires StandsFor(ConstraintTriple, to.constraints, q, SectionedDiff(from, to).constraints[i].key)
    ensures
      var e, a, b := SectionedDiff(from, to).constraints[i], from.constraints[p], to.constraints[q];
      e.change == (if a == b then Unchanged else Modified) && e.shown == b
  {
    SectionCommon(ConstraintTriple, WholeItem, from.constraints, to.constraints, i, p, q);
  }

  // A diff is answered only if every class, property and relation of both snapshots has a text as IRI.
  lemma AnsweredMeansTextIris(from: Snapshot, to: Snapshot)
    requires Printable(SectionedDiff(from, to))
    ensures TextIris(from.classes) && TextIris(from.properties) && TextIris(from.relations)
    ensures TextIris(to.classes) && TextIris(to.properties) && TextIris(to.relations)
  {
    NamedMeansTextIris(NameAndDescription, from.classes, to.classes);
    NamedMeansTextIris(WholeItem, from.properties, to.properties);
    NamedMeansTextIris(WholeItem, from.relations, to.relations);
  }

  ghost predicate TextIris(items: seq<Item>) {
    forall i :: 0 <= i < |items| ==> Get(items[i], "iri").JString?
  }

  lemma NamedMeansTextIris(rule: Rule, from: seq<Item>, to: seq<Item>)
    requires var entries := Section(rule, KeyBy(RawIri, from), KeyBy(RawIri, to));
             forall i :: 0 <= i < |entries| ==> Named(entries[i])
    ensures TextIris(from) && TextIris(to)
  {
    forall i | 0 <= i < |from|
      ensures Get(from[i], "iri").JString?
    {
      assert KeyOf(RawIri, from[i]).value in KeysOf(RawIri, from);
      SectionOnce(RawIri, rule, from, to, Get(from[i], "iri"));
    }
    forall i | 0 <= i < |to|
      ensures Get(to[i], "iri").JString?
    {
      assert KeyOf(RawIri, to[i]).value in KeysOf(RawIri, to);
      SectionOnce(RawIri, rule, from, to, Get(to[i], "iri"));
    }
  }

  // ---------------------------------------------------------------- the two diffs agree

  ghost predicate IrisNonEmpty(items: seq<Item>) {
    forall i :: 0 <= i < |items| ==> Truthy(Get(items[i], "iri"))
  }

  lemma {:induction false} KeyingsCoincide(items: seq<Item>)
    requires IrisNonEmpty(items)
    ensures KeyBy(RawIri, items) == KeyBy(NonEmptyIri, items)
  {
    if items == [] {
    } else {
      KeyingsCoincide(items[..|items| - 1]);
    }
  }

  ghost predicate SameLabels(a: seq<SectionEntry>, b: seq<Entry>) {
    |a| == |b| && forall i :: 0 <= i < |a| ==> a[i].key == b[i].iri && a[i].change == b[i].change
  }

  predicate TouchesNameOrDescription(e: Entry) {
    "name" in e.before || "name" in e.after || "description" in e.before || "description" in e.after
  }

  ghost predicate ClassesRefine(a: seq<SectionEntry>, b: seq<Entry>) {
    |a| == |b| && forall i :: 0 <= i < |a| ==>
      && a[i].key == b[i].iri
      && (a[i].change == Added <==> b[i].change == Added)
      && (a[i].change == Removed <==> b[i].change == Removed)
      && (a[i].change == Modified <==> b[i].change == Modified && TouchesNameOrDescription(b[i]))
  }

  lemma SectionsAgree(kind: Kind, from: Snapshot, to: Snapshot)
    requires IrisNonEmpty(ItemsOf(from, kind)) && IrisNonEmpty(ItemsOf(to, kind))
    ensures SameLabels(Section(WholeItem, KeyBy(RawIri, ItemsOf(from, kind)), KeyBy(RawIri, ItemsOf(to, kind))),
                       KindDiff(kind, from, to))
  {
    KeyingsCoincide(ItemsOf(from, kind));
    KeyingsCoincide(ItemsOf(to, kind));
    hide KeyBy, ReportKeys, LabelOf, BeforeDetails, AfterDetails;
  }

  lemma TouchedMeaning(a: Item, b: Item)
    ensures
      var before, after := BeforeDetails(a, b), AfterDetails(a, b);
      Same(NameAndDescription, b, a) <==>
      "name" !in before && "name" !in after && "description" !in before && "description" !in after
  {
  }

  lemma {:induction false} ClassLabelRefines(from: Keyed, to: Keyed, key: Json)
    ensures
      var e, l := EntryFor(ClassKind, from, to, key), LabelOf(NameAndDescription, from, to, key);
      && (l == Added <==> e.change == Added) && (l == Removed <==> e.change == Removed)
      && (l == Modified <==> e.change == Modified && TouchesNameOrDescription(e))
  {
    TouchedMeaning(ItemAt(from, key), ItemAt(to, key));
    hide BeforeDetails, AfterDetails;
  }

  // Entry by entry, in the same order: properties and relations carry the same label in both
  // diffs. For classes, added and removed coincide, and the sectioned diff reports a modification
  // exactly when the flat diff does and its details touch the name or the description.
  lemma DiffsAgree(from: Snapshot, to: Snapshot)
    requires IrisNonEmpty(from.classes) && IrisNonEmpty(to.classes)
    requires IrisNonEmpty(from.properties) && IrisNonEmpty(to.properties)
    requires IrisNonEmpty(from.relations) && IrisNonEmpty(to.relations)
    ensures SameLabels(SectionedDiff(from, to).properties, KindDiff(PropertyKind, from, to))
    ensures SameLabels(SectionedDiff(from, to).relations, KindDiff(RelationKind, from, to))
    ensures ClassesRefine(SectionedDiff(from, to).classes, KindDiff(ClassKind, from, to))
  {
    SectionsAgree(PropertyKind, from, to);
    SectionsAgree(RelationKind, from, to);
    ClassesAgree(from, to);
    hide Section, KindDiff, SameLabels, ClassesRefine;
  }

  lemma ClassesAgree(from: Snapshot, to: Snapshot)
    requires IrisNonEmpty(from.classes) && IrisNonEmpty(to.classes)
    ensures ClassesRefine(Section(NameAndDescription, KeyBy(RawIri, from.classes), KeyBy(RawIri, to.classes)),
                          KindDiff(ClassKind, from, to))
  {
    KeyingsCoincide(from.classes);
    KeyingsCoincide(to.classes);
    var f, t := Side(from, ClassKind), Side(to, ClassKind);
    hide KeyBy, ReportKeys, LabelOf, EntryFor, TouchesNameOrDescription;
    forall i | 0 <= i < |ReportKeys(f, t)|
      ensures EntryFor(ClassKind, f, t, ReportKeys(f, t)[i]).iri == ReportKeys(f, t)[i]
    {
      EntryKey(ClassKind, f, t, ReportKeys(f, t)[i]);
    }
    forall i | 0 <= i < |ReportKeys(f, t)| {
      ClassLabelRefines(f, t, ReportKeys(f, t)[i]);
    }
  }

  lemma EntryKey(kind: Kind, from: Keyed, to: Keyed, key: Json)
    ensures EntryFor(kind, from, to, key).iri == key
  {
  }

  ghost predicate NothingChanged(entries: seq<Entry>) {
    forall i :: 0 <= i < |entries| ==> entries[i].change == Unchanged
  }

  ghost predicate SectionUnchanged(entries: seq<SectionEntry>) {
    forall i :: 0 <= i < |entries| ==> entries[i].change == Unchanged
  }

  lemma SelfSection(rule: Rule, how: Keying, items: seq<Item>)
    ensures SectionUnchanged(Section(rule, KeyBy(how, items), KeyBy(how, items)))
  {
    KeyByValid(how, items);
    var d := KeyBy(how, items);
    ReportKeysMeaning(d, d);
    assert forall i :: 0 <= i < |ReportKeys(d, d)| ==> ReportKeys(d, d)[i] in ReportKeys(d, d);
  }

  lemma SelfKind(kind: Kind, s: Snapshot)
    ensures NothingChanged(KindDiff(kind, s, s))
  {
    var d := KeyBy(NonEmptyIri, ItemsOf(s, kind));
    SelfSection(WholeItem, NonEmptyIri, ItemsOf(s, kind));
    assert forall i :: 0 <= i < |KindDiff(kind, s, s)| ==>
      KindDiff(kind, s, s)[i].change == Section(WholeItem, d, d)[i].change;
  }

  // A snapshot compared with itself is unchanged throughout, in both diffs.
  lemma SelfDiffUnchanged(s: Snapshot)
    ensures NothingChanged(FlatDiff(s, s))
    ensures SectionUnchanged(SectionedDiff(s, s).classes) && SectionUnchanged(SectionedDiff(s, s).properties)
    ensures SectionUnchanged(SectionedDiff(s, s).relations) && SectionUnchanged(SectionedDiff(s, s).constraints)
  {
    SelfKind(ClassKind, s);
    SelfKind(PropertyKind, s);
    SelfKind(RelationKind, s);
    SelfSection(NameAndDescription, RawIri, s.classes);
    SelfSection(WholeItem, RawIri, s.properties);
    SelfSection(WholeItem, RawIri, s.relations);
    SelfSection(WholeItem, ConstraintTriple, s.constraints);
    hide KindDiff, Section, KeyBy, SectionUnchanged;
  }
}
