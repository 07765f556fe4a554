// Forking an ontology: every IRI is rewritten from the old namespace to the new one, and
// references have to keep pointing at the rows they pointed at.
module NamespaceFork {
  import opened Common

  predicate IsSep(c: char) {
    c == '/' || c == '#'
  }

  function LStrip(s: string): string {
    if s != "" && IsSep(s[0]) then LStrip(s[1..]) else s
  }

  function RStrip(s: string): string {
    if s != "" && IsSep(s[|s| - 1]) then RStrip(s[..|s| - 1]) else s
  }

  // s.split(sep)[-1]
  function LastPart(s: string, sep: char): string {
    if s == "" || s[|s| - 1] == sep then "" else LastPart(s[..|s| - 1], sep) + [s[|s| - 1]]
  }

  function ForkIri(iri: string, oldNs: string, newNs: string): string {
    if oldNs <= iri then RStrip(newNs) + "/" + LStrip(iri[|oldNs|..])
    else if '/' in iri || '#' in iri then
      var sep := if '#' in iri then '#' else '/';
      RStrip(newNs) + [sep] + LastPart(iri, sep)
    else iri
  }

  // ---------------------------------------------------------------- IRIs

  // A local name: nothing in front that stripping would take away.
  predicate IsLocal(l: string) {
    l == "" || !IsSep(l[0])
  }

  predicate InNamespace(iri: string, ns: string) {
    ns <= iri && IsLocal(iri[|ns|..])
  }

  lemma ForkOfLocal(ns: string, l: string, newNs: string)
    ensures ForkIri(ns + l, ns, newNs) == RStrip(newNs) + "/" + LStrip(l)
  {
  }

  lemma SamePrefix(p: string, a: string, b: string)
    ensures p + a == p + b <==> a == b
  {
    assert (p + a)[|p|..] == a && (p + b)[|p|..] == b;
  }

  // Two IRIs of the namespace are forked to the same IRI exactly when their rests differ in
  // nothing but leading separators; so on local names the fork is injective.
  lemma ForkCollidesIff(ns: string, a: string, b: string, newNs: string)
    ensures ForkIri(ns + a, ns, newNs) == ForkIri(ns + b, ns, newNs) <==> LStrip(a) == LStrip(b)
    ensures IsLocal(a) && IsLocal(b) ==>
      (ForkIri(ns + a, ns, newNs) == ForkIri(ns + b, ns, newNs) <==> a == b)
  {
    ForkOfLocal(ns, a, newNs);
    ForkOfLocal(ns, b, newNs);
    SamePrefix(RStrip(newNs) + "/", LStrip(a), LStrip(b));
  }

  lemma {:induction false} RStripSplits(s: string)
    ensures RStrip(s) <= s
    ensures RStrip(s) == "" || !IsSep(RStrip(s)[|RStrip(s)| - 1])
    ensures forall i :: |RStrip(s)| <= i < |s| ==> IsSep(s[i])
  {
    if s == "" || !IsSep(s[|s| - 1]) {
    } else {
      RStripSplits(s[..|s| - 1]);
    }
  }

  // The namespace ends in exactly one slash.
  predicate OneSlash(ns: string) {
    ns == RStrip(ns) + "/"
  }

  lemma PrefixCancels(p: string, a: string, b: string)
    ensures p + a <= p + b <==> a <= b
  {
    assert (p + a)[|p|..] == a && (p + b)[|p|..] == b;
    if p + a <= p + b {
      assert a == (p + b)[..|p + a|][|p|..] == b[..|a|];
    }
  }

  lemma SeparatorPrefix(t: string, l: string)
    requires IsLocal(l) && forall i :: 0 <= i < |t| ==> IsSep(t[i])
    ensures t <= "/" + l <==> t == "" || t == "/"
  {
    var u := "/" + l;
    assert u[1..] == l;
    assert |u| > 1 ==> !IsSep(u[1]);
  }

  // A forked IRI lies in the new namespace if and only if that ends in at most one separator and
  // the separator is a slash. In particular a namespace ending in '#' is never kept.
  lemma {:induction false} ForkStaysInsideIff(oldNs: string, newNs: string, l: string)
    requires IsLocal(l)
    ensures newNs <= ForkIri(oldNs + l, oldNs, newNs) <==> newNs == RStrip(newNs) || OneSlash(newNs)
  {
    ForkOfLocal(oldNs, l, newNs);
    RStripSplits(newNs);
    hide ForkIri, RStrip;
    var r := RStrip(newNs);
    var t := newNs[|r|..];
    assert newNs == r + t && r + "/" + l == r + ("/" + l);
    PrefixCancels(r, t, "/" + l);
    SeparatorPrefix(t, l);
    SamePrefix(r, t, "/");
  }

  lemma SameHeadAndTail(c: char, s: string, d: char, t: string)
    ensures [c] + s == [d] + t <==> c == d && s == t
  {
    assert ([c] + s)[0] == c && ([c] + s)[1..] == s;
    assert ([d] + t)[0] == d && ([d] + t)[1..] == t;
  }

  // Two IRIs built on one stem agree exactly if separator and rest agree.
  lemma SameStem(r: string, c: char, s: string, d: char, t: string)
    ensures r + [c] + s == r + [d] + t <==> c == d && s == t
  {
    assert r + [c] + s == r + ([c] + s) && r + [d] + t == r + ([d] + t);
    SamePrefix(r, [c] + s, [d] + t);
    SameHeadAndTail(c, s, d, t);
  }

  // A reference outside the old namespace is rewritten as well. It ends up on the fork of the
  // class with local name `l` if and only if it uses no '#' and its last path segment is `l`.
  lemma ForeignReferenceCapturedIff(iri: string, oldNs: string, l: string, newNs: string)
    requires IsLocal(l) && !(oldNs <= iri) && ('/' in iri || '#' in iri)
    ensures ForkIri(iri, oldNs, newNs) == ForkIri(oldNs + l, oldNs, newNs) <==> '#' !in iri && LastPart(iri, '/') == l
  {
    ForkOfLocal(oldNs, l, newNs);
    var sep := if '#' in iri then '#' else '/';
    SameStem(RStrip(newNs), sep, LastPart(iri, sep), '/', l);
    hide RStrip, LastPart;
  }

  // ---------------------------------------------------------------- forking back

  lemma {:induction false} LastPartAppends(a: string, b: string, sep: char)
    requires sep !in b
    ensures LastPart(a + b, sep) == LastPart(a, sep) + b
  {
    if b == "" {
      assert a + b == a;
    } else {
      assert (a + b)[..|a + b| - 1] == a + b[..|b| - 1];
      LastPartAppends(a, b[..|b| - 1], sep);
    }
  }

  lemma {:induction false} LastPartIsShort(a: string, b: string, sep: char)
    requires sep in b
    ensures |LastPart(a + b, sep)| < |b|
  {
    if b[|b| - 1] == sep {
    } else {
      assert (a + b)[..|a + b| - 1] == a + b[..|b| - 1];
      LastPartIsShort(a, b[..|b| - 1], sep);
    }
  }

  // A rest shorter than the local name cannot give the old IRI again.
  lemma ShortRestDiffers(ns: string, l: string, sep: char, rest: string)
    requires IsLocal(l) && IsSep(sep) && |rest| < |l|
    ensures RStrip(ns) + [sep] + rest != ns + l
  {
    RStripSplits(ns);
    var r := RStrip(ns);
    assert (r + [sep] + rest)[|r|] == sep && (ns + l)[|ns|] == l[0];
    assert |ns| <= |r| ==> ns == r;
  }

  // A rest that still holds a piece of the new namespace cannot either: what lies between the
  // stem and the local name consists of separators alone.
  lemma LongRestDiffers(ns: string, l: string, sep: char, piece: string)
    requires piece != "" && !IsSep(piece[|piece| - 1])
    ensures RStrip(ns) + [sep] + (piece + "/" + l) != ns + l
  {
    RStripSplits(ns);
    var r, k := RStrip(ns), |RStrip(ns)| + |piece|;
    var long := r + [sep] + (piece + "/" + l);
    assert long[k] == piece[|piece| - 1];
    assert |ns| == k + 2 ==> IsSep((ns + l)[k]);
  }

  // Outside the new namespace an IRI goes back by its last part alone.
  lemma BackByLastPart(oldNs: string, newNs: string, l: string)
    requires IsLocal(l)
    ensures
      var iri := RStrip(newNs) + "/" + l;
      var sep := if '#' in iri then '#' else '/';
      RStrip(oldNs) + [sep] + LastPart(iri, sep) == oldNs + l
      <==> OneSlash(oldNs) && '#' !in iri && '/' !in l
  {
    var r := RStrip(newNs);
    var iri := r + "/" + l;
    var sep := if '#' in iri then '#' else '/';
    RStripSplits(newNs);
    if sep in l {
      LastPartIsShort(r + "/", l, sep);
      ShortRestDiffers(oldNs, l, sep, LastPart(iri, sep));
    } else if sep == '/' {
      LastPartAppends(r + "/", l, sep);
      assert LastPart(iri, sep) == l;
      SameSuffix(RStrip(oldNs) + "/", oldNs, l);
    } else {
      assert sep in r;
      BackFromHash(oldNs, r, l);
    }
  }

  lemma BackFromHash(oldNs: string, r: string, l: string)
    requires IsLocal(l) && '#' in r && '#' !in l && !IsSep(r[|r| - 1])
    ensures RStrip(oldNs) + ['#'] + LastPart(r + "/" + l, '#') != oldNs + l
  {
    assert r + "/" + l == r + ("/" + l);
    LastPartAppends(r, "/" + l, '#');
    var piece := LastPart(r, '#');
    assert piece[|piece| - 1] == r[|r| - 1];
    assert piece + ("/" + l) == piece + "/" + l;
    LongRestDiffers(oldNs, l, '#', piece);
  }

  lemma SameSuffix(a: string, b: string, l: string)
    ensures a + l == b + l <==> a == b
  {
    assert (a + l)[..|a + l| - |l|] == a && (b + l)[..|b + l| - |l|] == b;
  }

  // Forking back undoes a fork if and only if the old namespace ends in exactly one slash and the
  // fork either stayed in the new namespace or is a plain path whose local name is one segment.
  lemma ForkBackIff(oldNs: string, newNs: string, l: string)
    requires IsLocal(l)
    ensures
      var iri := ForkIri(oldNs + l, oldNs, newNs);
      ForkIri(iri, newNs, oldNs) == oldNs + l
      <==> OneSlash(oldNs) && (newNs <= iri || ('#' !in iri && '/' !in l))
  {
    ForkOfLocal(oldNs, l, newNs);
    var r := RStrip(newNs);
    var iri := r + "/" + l;
    ForkStaysInsideIff(oldNs, newNs, l);
    if newNs <= iri {
      BackFromInside(oldNs, newNs, l);
      SameSuffix(RStrip(oldNs) + "/", oldNs, l);
    } else {
      assert iri[|r|] == '/';
      BackByLastPart(oldNs, newNs, l);
    }
  }

  lemma BackFromInside(oldNs: string, newNs: string, l: string)
    requires IsLocal(l) && newNs <= RStrip(newNs) + "/" + l
    requires newNs == RStrip(newNs) || OneSlash(newNs)
    ensures ForkIri(RStrip(newNs) + "/" + l, newNs, oldNs) == RStrip(oldNs) + "/" + l
  {
    var r := RStrip(newNs);
    if newNs == r {
      assert (r + "/" + l)[|newNs|..] == "/" + l && ("/" + l)[1..] == l;
      assert LStrip("/" + l) == LStrip(l) == l;
    } else {
      assert (r + "/" + l)[|newNs|..] == l;
    }
  }

  // ---------------------------------------------------------------- what a fork writes

  predicate AllSeps(s: string) {
    forall i :: 0 <= i < |s| ==> IsSep(s[i])
  }

  predicate IsStem(s: string) {
    s == "" || !IsSep(s[|s| - 1])
  }

  lemma {:induction false} LStripUndoes(seps: string, l: string)
    requires AllSeps(seps) && IsLocal(l)
    ensures LStrip(seps + l) == l
  {
    if seps == "" {
      assert seps + l == l;
    } else {
      assert (seps + l)[1..] == seps[1..] + l;
      LStripUndoes(seps[1..], l);
    }
  }

  lemma {:induction false} RStripUndoes(stem: string, seps: string)
    requires IsStem(stem) && AllSeps(seps)
    ensures RStrip(stem + seps) == stem
  {
    if seps == "" {
      assert stem + seps == stem;
    } else {
      assert (stem + seps)[..|stem + seps| - 1] == stem + seps[..|seps| - 1];
      RStripUndoes(stem, seps[..|seps| - 1]);
    }
  }

  lemma LastPartUndoes(before: string, sep: char, last: string)
    requires sep !in last
    ensures LastPart(before + [sep] + last, sep) == last
  {
    LastPartAppends(before + [sep], last, sep);
    assert (before + [sep])[|before + [sep]| - 1] == sep;
  }

  // An IRI of the namespace: the stem of the new namespace, one slash, the local name.
  lemma ForkRewritesOwn(oldNs: string, seps: string, l: string, stem: string, more: string)
    requires AllSeps(seps) && IsLocal(l) && IsStem(stem) && AllSeps(more)
    ensures ForkIri(oldNs + (seps + l), oldNs, stem + more) == stem + "/" + l
  {
    assert (oldNs + (seps + l))[|oldNs|..] == seps + l;
    LStripUndoes(seps, l);
    RStripUndoes(stem, more);
  }

  // A foreign IRI: the stem, its last separator ('#' if there is any), and what follows it.
  lemma ForkRewritesForeign(before: string, sep: char, last: string, oldNs: string, stem: string, more: string)
    requires IsStem(stem) && AllSeps(more) && sep !in last && !(oldNs <= before + [sep] + last)
    requires sep == '#' || (sep == '/' && '#' !in before && '#' !in last)
    ensures ForkIri(before + [sep] + last, oldNs, stem + more) == stem + [sep] + last
  {
    RStripUndoes(stem, more);
    LastPartUndoes(before, sep, last);
    var iri := before + [sep] + last;
    assert iri[|before|] == sep;
    hide RStrip, LastPart, LStrip;
    assert sep == '/' ==> '#' !in iri;
  }

  // Anything else stays.
  lemma ForkKeepsPlain(iri: string, oldNs: string, newNs: string)
    requires !(oldNs <= iri) && '/' !in iri && '#' !in iri
    ensures ForkIri(iri, oldNs, newNs) == iri
  {
  }

  // ---------------------------------------------------------------- ontologies

  // The foreign keys of a row, its IRI columns, and the columns a fork copies as they are.
  datatype ClassRow = ClassRow(parentId: Option<Uuid>, iri: string, parentIri: Option<string>, attributes: Item)

  datatype PropertyRow = PropertyRow(domainId: Option<Uuid>, rangeClassId: Option<Uuid>, iri: string,
                                     domainIri: Option<string>, rangeIri: Option<string>, attributes: Item)

  datatype RelationRow = RelationRow(sourceClassId: Option<Uuid>, targetClassId: Option<Uuid>, iri: string,
                                     sourceIri: Option<string>, targetIri: Option<string>, attributes: Item)

  datatype ConstraintRow = ConstraintRow(ontologyClassId: Option<Uuid>, propertyId: Option<Uuid>,
                                         targetIri: Option<string>, propertyIri: Option<string>, attributes: Item)

  datatype Rows = Rows(classes: seq<ClassRow>, properties: seq<PropertyRow>, relations: seq<RelationRow>,
                       constraints: seq<ConstraintRow>)

  function ForkRef(ref: Option<string>, oldNs: string, newNs: string): Option<string> {
    if ref.Some? && ref.value != "" then Some(ForkIri(ref.value, oldNs, newNs)) else None
  }

  // One row of each table: the parent IRI of a class is copied as it is, and no foreign key is.
  function ForkClass(c: ClassRow, oldNs: string, newNs: string): ClassRow {
    ClassRow(None, ForkIri(c.iri, oldNs, newNs), c.parentIri, c.attributes)
  }

  function ForkProperty(p: PropertyRow, oldNs: string, newNs: string): PropertyRow {
    PropertyRow(None, None, ForkIri(p.iri, oldNs, newNs), ForkRef(p.domainIri, oldNs, newNs),
                ForkRef(p.rangeIri, oldNs, newNs), p.attributes)
  }

  function ForkRelation(r: RelationRow, oldNs: string, newNs: string): RelationRow {
    RelationRow(None, None, ForkIri(r.iri, oldNs, newNs), ForkRef(r.sourceIri, oldNs, newNs),
                ForkRef(r.targetIri, oldNs, newNs), r.attributes)
  }

  function ForkConstraint(c: ConstraintRow, oldNs: string, newNs: string): ConstraintRow {
    ConstraintRow(None, None, ForkRef(c.targetIri, oldNs, newNs), ForkRef(c.propertyIri, oldNs, newNs), c.attributes)
  }

  ghost predicate IsForkOf(fork: Rows, src: Rows, oldNs: string, newNs: string) {
    && |fork.classes| == |src.classes| && |fork.properties| == |src.properties|
    && |fork.relations| == |src.relations| && |fork.constraints| == |src.constraints|
    && (forall i :: 0 <= i < |src.classes| ==> fork.classes[i] == ForkClass(src.classes[i], oldNs, newNs))
    && (forall i :: 0 <= i < |src.properties| ==> fork.properties[i] == ForkProperty(src.properties[i], oldNs, newNs))
    && (forall i :: 0 <= i < |src.relations| ==> fork.relations[i] == ForkRelation(src.relations[i], oldNs, newNs))
    && (forall i :: 0 <= i < |src.constraints| ==>
          fork.constraints[i] == ForkConstraint(src.constraints[i], oldNs, newNs))
  }

  method ForkOntology(src: Rows, oldNs: string, newNs: string) returns (fork: Rows)
    ensures IsForkOf(fork, src, oldNs, newNs)
  {
    var classes: seq<ClassRow>, properties: seq<PropertyRow> := [], [];
    var relations: seq<RelationRow>, constraints: seq<ConstraintRow> := [], [];
    for n := 0 to |src.classes|
      invariant |classes| == n && forall i :: 0 <= i < n ==> classes[i] == ForkClass(src.classes[i], oldNs, newNs)
    {
      classes := classes + [ForkClass(src.classes[n], oldNs, newNs)];
    }
    for n := 0 to |src.properties|
      invariant |properties| == n
      invariant forall i :: 0 <= i < n ==> properties[i] == ForkProperty(src.properties[i], oldNs, newNs)
    {
      properties := properties + [ForkProperty(src.properties[n], oldNs, newNs)];
    }
    for n := 0 to |src.relations|
      invariant |relations| == n
      invariant forall i :: 0 <= i < n ==> relations[i] == ForkRelation(src.relations[i], oldNs, newNs)
    {
      relations := relations + [ForkRelation(src.relations[n], oldNs, newNs)];
    }
    for n := 0 to |src.constraints|
      invariant |constraints| == n
      invariant forall i :: 0 <= i < n ==> constraints[i] == ForkConstraint(src.constraints[i], oldNs, newNs)
    {
      constraints := constraints + [ForkConstraint(src.constraints[n], oldNs, newNs)];
    }
    fork := Rows(classes, properties, relations, constraints);
  }

  // ---------------------------------------------------------------- references

  // What the fork makes of an IRI, the new namespace left aside: a separator and a rest, or, if it
  // is not rewritten, the IRI itself.
  predicate Rewritten(iri: string, oldNs: string) {
    oldNs <= iri || '/' in iri || '#' in iri
  }

  function ForkTail(iri: string, oldNs: string): string {
    if oldNs <= iri then "/" + LStrip(iri[|oldNs|..])
    else if '#' in iri then "#" + LastPart(iri, '#')
    else if '/' in iri then "/" + LastPart(iri, '/')
    else iri
  }

  predicate SameTail(a: string, b: string, oldNs: string) {
    Rewritten(a, oldNs) == Rewritten(b, oldNs) && ForkTail(a, oldNs) == ForkTail(b, oldNs)
  }

  lemma ForkIsTail(iri: string, oldNs: string, newNs: string)
    ensures ForkIri(iri, oldNs, newNs) ==
            (if Rewritten(iri, oldNs) then RStrip(newNs) else "") + ForkTail(iri, oldNs)
  {
    var r, tail := RStrip(newNs), ForkTail(iri, oldNs);
    hide RStrip, LStrip, LastPart;
    if oldNs <= iri {
      assert r + "/" + LStrip(iri[|oldNs|..]) == r + tail;
    } else if Rewritten(iri, oldNs) {
      var sep := if '#' in iri then '#' else '/';
      assert r + [sep] + LastPart(iri, sep) == r + tail;
    }
  }

  // Any two IRIs are forked to the same IRI if and only if they have the same tail, whatever the
  // new namespace is.
  lemma ForkSameIff(a: string, b: string, oldNs: string, newNs: string)
    ensures ForkIri(a, oldNs, newNs) == ForkIri(b, oldNs, newNs) <==> SameTail(a, b, oldNs)
  {
    ForkIsTail(a, oldNs, newNs);
    ForkIsTail(b, oldNs, newNs);
    SeparatorInTail(a, oldNs, newNs);
    SeparatorInTail(b, oldNs, newNs);
    hide ForkIri, ForkTail, RStrip;
    assert "" + ForkTail(a, oldNs) == ForkTail(a, oldNs) && "" + ForkTail(b, oldNs) == ForkTail(b, oldNs);
    if Rewritten(a, oldNs) && Rewritten(b, oldNs) {
      SamePrefix(RStrip(newNs), ForkTail(a, oldNs), ForkTail(b, oldNs));
    }
  }

  lemma SeparatorInTail(iri: string, oldNs: string, newNs: string)
    ensures Rewritten(iri, oldNs) <==> '/' in ForkIri(iri, oldNs, newNs) || '#' in ForkIri(iri, oldNs, newNs)
  {
    ForkIsTail(iri, oldNs, newNs);
    var r, tail := RStrip(newNs), ForkTail(iri, oldNs);
    if Rewritten(iri, oldNs) {
      assert tail[0] == '/' || tail[0] == '#';
      assert (r + tail)[|r|] == tail[0];
    }
  }

  // For a class of the namespace: another IRI shares its tail if it only adds separators in front
  // of the local name, or if it is foreign, uses no '#' and ends in the local name.
  lemma SameTailOfLocal(iri: string, ns: string, l: string)
    requires IsLocal(l)
    ensures SameTail(iri, ns + l, ns) <==>
            if ns <= iri then LStrip(iri[|ns|..]) == l
            else '/' in iri && '#' !in iri && LastPart(iri, '/') == l
  {
    assert (ns + l)[|ns|..] == l && LStrip(l) == l;
    hide LStrip, LastPart;
    assert ForkTail(ns + l, ns) == ['/'] + l;
    if ns <= iri {
      SameHeadAndTail('/', LStrip(iri[|ns|..]), '/', l);
    } else {
      SameHeadAndTail('/', LastPart(iri, '/'), '/', l);
      SameHeadAndTail('#', LastPart(iri, '#'), '/', l);
    }
  }

  // A reference of the fork hits a forked row exactly if the original hit the original row.
  ghost predicate SameHit(ref': Option<string>, iri': string, ref: Option<string>, iri: string) {
    ref' == Some(iri') <==> ref == Some(iri)
  }

  // A reference that comes to hit a row it did not hit, because both have one tail. (An empty
  // reference is cleared, which would lose a row with an empty IRI.)
  predicate Strays(ref: Option<string>, iri: string, ns: string) {
    ref.Some? && if ref.value == "" then iri == "" else ref.value != iri && SameTail(ref.value, iri, ns)
  }

  // One reference against one row, for all IRIs and namespaces.
  lemma RefKeptIff(ref: Option<string>, iri: string, ns: string, newNs: string)
    ensures SameHit(ForkRef(ref, ns, newNs), ForkIri(iri, ns, newNs), ref, iri) <==> !Strays(ref, iri, ns)
  {
    if ref.Some? {
      ForkSameIff(ref.value, iri, ns, newNs);
    }
  }

  // Domains, ranges, sources, targets and constraint targets against every class.
  lemma ForkKeepsClassReferencesIff(fork: Rows, src: Rows, ns: string, newNs: string, k: nat)
    requires IsForkOf(fork, src, ns, newNs) && k < |src.classes|
    ensures
      var iri, iri' := src.classes[k].iri, fork.classes[k].iri;
      && (forall i :: 0 <= i < |src.properties| ==>
            var p, p' := src.properties[i], fork.properties[i];
            && (SameHit(p'.domainIri, iri', p.domainIri, iri) <==> !Strays(p.domainIri, iri, ns))
            && (SameHit(p'.rangeIri, iri', p.rangeIri, iri) <==> !Strays(p.rangeIri, iri, ns)))
      && (forall i :: 0 <= i < |src.relations| ==>
            var r, r' := src.relations[i], fork.relations[i];
            && (SameHit(r'.sourceIri, iri', r.sourceIri, iri) <==> !Strays(r.sourceIri, iri, ns))
            && (SameHit(r'.targetIri, iri', r.targetIri, iri) <==> !Strays(r.targetIri, iri, ns)))
      && (forall i :: 0 <= i < |src.constraints| ==>
            var c, c' := src.constraints[i], fork.constraints[i];
            SameHit(c'.targetIri, iri', c.targetIri, iri) <==> !Strays(c.targetIri, iri, ns))
  {
    var iri := src.classes[k].iri;
    forall ref
      ensures SameHit(ForkRef(ref, ns, newNs), ForkIri(iri, ns, newNs), ref, iri) <==> !Strays(ref, iri, ns)
    {
      RefKeptIff(ref, iri, ns, newNs);
    }
    hide ForkRef, ForkIri, Strays, SameHit;
  }

  // Constrained properties against every property.
  lemma ForkKeepsPropertyReferencesIff(fork: Rows, src: Rows, ns: string, newNs: string, k: nat)
    requires IsForkOf(fork, src, ns, newNs) && k < |src.properties|
    ensures
      var iri, iri' := src.properties[k].iri, fork.properties[k].iri;
      forall i :: 0 <= i < |src.constraints| ==>
        var c, c' := src.constraints[i], fork.constraints[i];
        SameHit(c'.propertyIri, iri', c.propertyIri, iri) <==> !Strays(c.propertyIri, iri, ns)
  {
    var iri := src.properties[k].iri;
    forall ref
      ensures SameHit(ForkRef(ref, ns, newNs), ForkIri(iri, ns, newNs), ref, iri) <==> !Strays(ref, iri, ns)
    {
      RefKeptIff(ref, iri, ns, newNs);
    }
    hide ForkRef, ForkIri, Strays, SameHit;
  }

  // A property whose domain is a class P of another ontology becomes, in every fork, a property of
  // the fork's own class P.
  lemma ForeignDomainIsCaptured(newNs: string) returns (src: Rows)
    ensures
      && |src.classes| == 1 == |src.properties|
      && var c, p := src.classes[0], src.properties[0];
      && c.iri == "a/P" && p.domainIri == Some("b/P")
      && ForkProperty(p, "a/", newNs).domainIri == Some(ForkClass(c, "a/", newNs).iri)
  {
    src := Rows([ClassRow(None, "a/P", None, map[])],
                [PropertyRow(None, None, "a/q", Some("b/P"), None, map[])], [], []);
    assert LastPart("b/P", '/') == "P" by {
      assert "b/P"[..2] == "b/" && LastPart("b/", '/') == "";
    }
    SameTailOfLocal("b/P", "a/", "P");
    assert "a/" + "P" == "a/P";
    ForkSameIff("b/P", "a/P", "a/", newNs);
  }

  // ---------------------------------------------------------------- forking a whole ontology back

  function NoEmpty(ref: Option<string>): Option<string> {
    if ref == Some("") then None else ref
  }

  // The same rows, without their foreign keys, and with empty references cleared.
  ghost predicate SameButKeys(back: Rows, src: Rows) {
    && |back.classes| == |src.classes| && |back.properties| == |src.properties|
    && |back.relations| == |src.relations| && |back.constraints| == |src.constraints|
    && (forall i :: 0 <= i < |src.classes| ==> back.classes[i] == src.classes[i].(parentId := None))
    && (forall i :: 0 <= i < |src.properties| ==>
          var p := src.properties[i];
          back.properties[i] == p.(domainId := None, rangeClassId := None, domainIri := NoEmpty(p.domainIri),
                                   rangeIri := NoEmpty(p.rangeIri)))
    && (forall i :: 0 <= i < |src.relations| ==>
          var r := src.relations[i];
          back.relations[i] == r.(sourceClassId := None, targetClassId := None, sourceIri := NoEmpty(r.sourceIri),
                                  targetIri := NoEmpty(r.targetIri)))
    && (forall i :: 0 <= i < |src.constraints| ==>
          var c := src.constraints[i];
          back.constraints[i] == c.(ontologyClassId := None, propertyId := None, targetIri := NoEmpty(c.targetIri),
                                    propertyIri := NoEmpty(c.propertyIri)))
  }

  // An IRI that a fork and a fork back give again.
  ghost predicate Returns(iri: string, oldNs: string, newNs: string) {
    ForkIri(ForkIri(iri, oldNs, newNs), newNs, oldNs) == iri
  }

  ghost predicate RefReturns(ref: Option<string>, oldNs: string, newNs: string) {
    ref.Some? && ref.value != "" ==> ForkIri(ref.value, oldNs, newNs) != "" && Returns(ref.value, oldNs, newNs)
  }

  lemma RefComesBack(ref: Option<string>, oldNs: string, newNs: string)
    ensures ForkRef(ForkRef(ref, oldNs, newNs), newNs, oldNs) == NoEmpty(ref) <==> RefReturns(ref, oldNs, newNs)
  {
  }

  ghost predicate AllReturn(src: Rows, oldNs: string, newNs: string) {
    && (forall i :: 0 <= i < |src.classes| ==> Returns(src.classes[i].iri, oldNs, newNs))
    && (forall i :: 0 <= i < |src.properties| ==>
          var p := src.properties[i];
          Returns(p.iri, oldNs, newNs) && RefReturns(p.domainIri, oldNs, newNs) && RefReturns(p.rangeIri, oldNs, newNs))
    && (forall i :: 0 <= i < |src.relations| ==>
          var r := src.relations[i];
          && Returns(r.iri, oldNs, newNs) && RefReturns(r.sourceIri, oldNs, newNs)
          && RefReturns(r.targetIri, oldNs, newNs))
    && (forall i :: 0 <= i < |src.constraints| ==>
          var c := src.constraints[i];
          RefReturns(c.targetIri, oldNs, newNs) && RefReturns(c.propertyIri, oldNs, newNs))
  }

  // Forking an ontology and forking the fork back gives every row again, with its parent and all its
  // attributes and without its foreign keys, if and only if each IRI by itself comes back. For IRIs
  // of the namespace ForkBackIff says when it does.
  lemma ForkOntologyBackIff(src: Rows, fork: Rows, back: Rows, oldNs: string, newNs: string)
    requires IsForkOf(fork, src, oldNs, newNs) && IsForkOf(back, fork, newNs, oldNs)
    ensures SameButKeys(back, src) <==> AllReturn(src, oldNs, newNs)
  {
    forall ref
      ensures ForkRef(ForkRef(ref, oldNs, newNs), newNs, oldNs) == NoEmpty(ref) <==> RefReturns(ref, oldNs, newNs)
    {
      RefComesBack(ref, oldNs, newNs);
    }
    hide ForkRef, ForkIri, RefReturns, NoEmpty;
  }

  // In particular between two namespaces that end in exactly one slash, for local names in the old one.
  lemma LocalIrisReturn(oldNs: string, newNs: string, l: string)
    requires IsLocal(l) && OneSlash(oldNs) && OneSlash(newNs)
    ensures Returns(oldNs + l, oldNs, newNs) && RefReturns(Some(oldNs + l), oldNs, newNs)
  {
    ForkOfLocal(oldNs, l, newNs);
    ForkStaysInsideIff(oldNs, newNs, l);
    ForkBackIff(oldNs, newNs, l);
  }
}
