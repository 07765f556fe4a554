// The release line of an ontology: named branches with one default, immutable tags, and the log
// of merges between branches. No database constraint keeps the default unique; the handlers do.
module ReleaseLine {
  import opened Common

  datatype Branch = Branch(
    ontology: Uuid,
    name: string,
    description: Option<string>,
    isDefault: bool,
    isProtected: bool,
    head: Option<Uuid>)

  datatype Tag = Tag(ontology: Uuid, name: string, description: Option<string>, version: Uuid)

  datatype Strategy = Noop | FastForward | MergeCommit

  // Both heads as they were when the merge was requested.
  datatype MergeRow = MergeRow(source: Uuid, target: Uuid, sourceHead: Uuid, targetHead: Option<Uuid>,
                               strategy: Strategy, message: Option<string>)

  // `ontologies` maps each ontology to its project, if it has one; `versions` maps each stored
  // ontology version to its ontology.
  datatype Line = Line(
    ontologies: map<Uuid, Option<Uuid>>,
    versions: map<Uuid, Uuid>,
    branches: map<Uuid, Branch>,
    tags: map<Uuid, Tag>,
    merges: seq<MergeRow>)

  // One request. `id` is the primary key a new row gets. `cascades` says whether the database
  // enforces the foreign keys of the merge log, which delete the rows that name a deleted branch.
  datatype Event =
    | AddOntology(oid: Uuid, project: Option<Uuid>)
    | AddVersion(oid: Uuid, vid: Uuid)
    | EnsureDefault(oid: Uuid, id: Uuid)
    | CreateBranch(oid: Uuid, id: Uuid, name: string, description: Option<string>, isProtected: bool,
                   head: Option<Uuid>)
    | UpdateBranch(oid: Uuid, bid: Uuid, newDescription: Option<string>, newProtected: Option<bool>)
    | DeleteBranch(oid: Uuid, bid: Uuid, cascades: bool)
    | SetDefault(oid: Uuid, bid: Uuid)
    | SetHead(oid: Uuid, bid: Uuid, vid: Uuid)
    | MergeBranch(oid: Uuid, target: Uuid, source: Uuid, message: Option<string>, force: bool)
    | CreateTag(oid: Uuid, id: Uuid, name: string, description: Option<string>, vid: Uuid)
    | DeleteTag(oid: Uuid, tid: Uuid)

  // ---------------------------------------------------------------- lookups

  predicate OwnBranch(line: Line, oid: Uuid, bid: Uuid) {
    bid in line.branches && line.branches[bid].ontology == oid
  }

  predicate OwnVersion(line: Line, oid: Uuid, vid: Uuid) {
    vid in line.versions && line.versions[vid] == oid
  }

  predicate NameTaken(line: Line, oid: Uuid, name: string) {
    exists b | b in line.branches :: line.branches[b].ontology == oid && line.branches[b].name == name
  }

  predicate TagTaken(line: Line, oid: Uuid, name: string) {
    exists t | t in line.tags :: line.tags[t].ontology == oid && line.tags[t].name == name
  }

  function Defaults(line: Line, oid: Uuid): set<Uuid> {
    set b | b in line.branches && line.branches[b].ontology == oid && line.branches[b].isDefault
  }

  // scalar_one_or_none raises when the lookup of the default finds two rows.
  predicate TwoDefaults(line: Line, oid: Uuid) {
    exists b, c | b in Defaults(line, oid) && c in Defaults(line, oid) :: b != c
  }

  function ChooseStrategy(sourceHead: Uuid, targetHead: Option<Uuid>, force: bool): Strategy {
    if targetHead == Some(sourceHead) then Noop
    else if targetHead.None? then FastForward
    else if force then MergeCommit
    else FastForward
  }

  function WithoutBranch(merges: seq<MergeRow>, bid: Uuid): seq<MergeRow> {
    if merges == [] then []
    else
      var rest := WithoutBranch(merges[..|merges| - 1], bid);
      var last := merges[|merges| - 1];
      if last.source == bid || last.target == bid then rest else rest + [last]
  }

  // The demotion of whatever is default now, then the promotion.
  function Promote(branches: map<Uuid, Branch>, oid: Uuid, bid: Uuid): map<Uuid, Branch> {
    map b | b in branches ::
      if b == bid then branches[b].(isDefault := true)
      else if branches[b].ontology == oid && branches[b].isDefault then branches[b].(isDefault := false)
      else branches[b]
  }

  // ---------------------------------------------------------------- the steps

  function Step(line: Line, e: Event): Result<Line> {
    if e.AddOntology? then
      if e.oid in line.ontologies then Refused(UniqueViolation)
      else Ok(line.(ontologies := line.ontologies[e.oid := e.project]))
    else if e.oid !in line.ontologies then Refused(NotFound)
    else
      match e
      case AddOntology(_, _) => Ok(line)
      case AddVersion(oid, vid) =>
        if vid in line.versions then Refused(UniqueViolation)
        else Ok(line.(versions := line.versions[vid := oid]))
      case EnsureDefault(oid, id) =>
        if TwoDefaults(line, oid) then Refused(Ambiguous)
        else if Defaults(line, oid) != {} then Ok(line)
        else if line.ontologies[oid].None? then Refused(NullViolation)
        else if id in line.branches || NameTaken(line, oid, "main") then Refused(UniqueViolation)
        else Ok(line.(branches := line.branches[id := Branch(oid, "main", Some("Default branch"), true, false, None)]))
      case CreateBranch(oid, id, name, description, isProtected, head) =>
        if NameTaken(line, oid, name) then Refused(Conflict)
        else if TwoDefaults(line, oid) then Refused(Ambiguous)
        else if head.Some? && !OwnVersion(line, oid, head.value) then Refused(BadRequest)
        else if line.ontologies[oid].None? then Refused(NullViolation)
        else if id in line.branches then Refused(UniqueViolation)
        else Ok(line.(branches := line.branches[id :=
               Branch(oid, name, description, Defaults(line, oid) == {}, isProtected, head)]))
      case UpdateBranch(oid, bid, newDescription, newProtected) =>
        if !OwnBranch(line, oid, bid) then Refused(NotFound)
        else
          var b := line.branches[bid];
          var described := if newDescription.Some? then b.(description := newDescription) else b;
          Ok(line.(branches := line.branches[bid :=
             if newProtected.Some? then described.(isProtected := newProtected.value) else described]))
      case DeleteBranch(oid, bid, cascades) =>
        if !OwnBranch(line, oid, bid) then Refused(NotFound)
        else if line.branches[bid].isDefault then Refused(Conflict)
        else if line.branches[bid].isProtected then Refused(Conflict)
        else Ok(line.(branches := line.branches - {bid},
                      merges := if cascades then WithoutBranch(line.merges, bid) else line.merges))
      case SetDefault(oid, bid) =>
        if !OwnBranch(line, oid, bid) then Refused(NotFound)
        else if line.branches[bid].isDefault then Ok(line)
        else if TwoDefaults(line, oid) then Refused(Ambiguous)
        else Ok(line.(branches := Promote(line.branches, oid, bid)))
      case SetHead(oid, bid, vid) =>
        if !OwnBranch(line, oid, bid) then Refused(NotFound)
        else if line.branches[bid].isProtected then Refused(Conflict)
        else if !OwnVersion(line, oid, vid) then Refused(BadRequest)
        else Ok(line.(branches := line.branches[bid := line.branches[bid].(head := Some(vid))]))
      case MergeBranch(oid, target, source, message, force) =>
        if !OwnBranch(line, oid, target) then Refused(NotFound)
        else if !OwnBranch(line, oid, source) then Refused(NotFound)
        else if source == target then Refused(BadRequest)
        else if line.branches[source].head.None? then Refused(Conflict)
        else if line.ontologies[oid].None? then Refused(NullViolation)
        else
          var sourceHead, targetHead := line.branches[source].head.value, line.branches[target].head;
          var strategy := ChooseStrategy(sourceHead, targetHead, force);
          var row := MergeRow(source, target, sourceHead, targetHead, strategy, message);
          Ok(line.(branches := if strategy == Noop then line.branches
                               else line.branches[target := line.branches[target].(head := Some(sourceHead))],
                   merges := line.merges + [row]))
      case CreateTag(oid, id, name, description, vid) =>
        if !OwnVersion(line, oid, vid) then Refused(BadRequest)
        else if TagTaken(line, oid, name) then Refused(Conflict)
        else if line.ontologies[oid].None? then Refused(NullViolation)
        else if id in line.tags then Refused(UniqueViolation)
        else Ok(line.(tags := line.tags[id := Tag(oid, name, description, vid)]))
      case DeleteTag(oid, tid) =>
        if tid !in line.tags || line.tags[tid].ontology != oid then Refused(NotFound)
        else Ok(line.(tags := line.tags - {tid}))
  }

  function After(line: Line, e: Event): Line {
    match Step(line, e)
    case Ok(line') => line'
    case Refused(_) => line
  }

  ghost predicate Performs(before: Line, e: Event, after: Line, refusal: Option<Refusal>) {
    match Step(before, e)
    case Ok(line) => after == line && refusal == None
    case Refused(reason) => after == before && refusal == Some(reason)
  }

  // ---------------------------------------------------------------- the handlers

  class ReleaseLines {
    var ontologies: map<Uuid, Option<Uuid>>
    var versions: map<Uuid, Uuid>
    var branches: map<Uuid, Branch>
    var tags: map<Uuid, Tag>
    var merges: seq<MergeRow>

    function State(): Line
      reads this
    {
      Line(ontologies, versions, branches, tags, merges)
    }

    constructor ()
      ensures State() == Line(map[], map[], map[], map[], [])
    {
      ontologies, versions, branches, tags, merges := map[], map[], map[], map[], [];
    }

    method GetDefaultBranch(oid: Uuid, id: Uuid) returns (refusal: Option<Refusal>, branch: Option<Uuid>)
      modifies this`branches
      ensures Performs(old(State()), EnsureDefault(oid, id), State(), refusal)
      ensures refusal == None ==> branch.Some? && branch.value in Defaults(State(), oid)
    {
      branch := None;
      if oid !in ontologies {
        return Some(NotFound), None;
      }
      if TwoDefaults(State(), oid) {
        return Some(Ambiguous), None;
      }
      var found := Defaults(State(), oid);
      if found != {} {
        var existing :| existing in found;
        return None, Some(existing);
      }
      if ontologies[oid].None? {
        return Some(NullViolation), None;
      }
      if id in branches || NameTaken(State(), oid, "main") {
        return Some(UniqueViolation), None;
      }
      branches := branches[id := Branch(oid, "main", Some("Default branch"), true, false, None)];
      return None, Some(id);
    }

    method CreateBranch(oid: Uuid, id: Uuid, name: string, description: Option<string>, isProtected: bool,
                        head: Option<Uuid>)
      returns (refusal: Option<Refusal>)
      modifies this`branches
      ensures Performs(old(State()), Event.CreateBranch(oid, id, name, description, isProtected, head), State(),
                       refusal)
    {
      if oid !in ontologies {
        return Some(NotFound);
      }
      if NameTaken(State(), oid, name) {
        return Some(Conflict);
      }
      if TwoDefaults(State(), oid) {
        return Some(Ambiguous);
      }
      var isFirst := Defaults(State(), oid) == {};
      if head.Some? && !OwnVersion(State(), oid, head.value) {
        return Some(BadRequest);
      }
      if ontologies[oid].None? {
        return Some(NullViolation);
      }
      if id in branches {
        return Some(UniqueViolation);
      }
      branches := branches[id := Branch(oid, name, description, isFirst, isProtected, head)];
      return None;
    }

    method UpdateBranch(oid: Uuid, bid: Uuid, newDescription: Option<string>, newProtected: Option<bool>)
      returns (refusal: Option<Refusal>)
      modifies this`branches
      ensures Performs(old(State()), Event.UpdateBranch(oid, bid, newDescription, newProtected), State(), refusal)
    {
      if oid !in ontologies || !OwnBranch(State(), oid, bid) {
        return Some(NotFound);
      }
      var b := branches[bid];
      if newDescription.Some? {
        b := b.(description := newDescription);
      }
      if newProtected.Some? {
        b := b.(isProtected := newProtected.value);
      }
      branches := branches[bid := b];
      return None;
    }

    method DeleteBranch(oid: Uuid, bid: Uuid, cascades: bool) returns (refusal: Option<Refusal>)
      modifies this`branches, this`merges
      ensures Performs(old(State()), Event.DeleteBranch(oid, bid, cascades), State(), refusal)
    {
      if oid !in ontologies || !OwnBranch(State(), oid, bid) {
        return Some(NotFound);
      }
      if branches[bid].isDefault {
        return Some(Conflict);
      }
      if branches[bid].isProtected {
        return Some(Conflict);
      }
      branches := branches - {bid};
      if cascades {
        merges := WithoutBranch(merges, bid);
      }
      return None;
    }

    method SetDefaultBranch(oid: Uuid, bid: Uuid) returns (refusal: Option<Refusal>)
      modifies this`branches
      ensures Performs(old(State()), SetDefault(oid, bid), State(), refusal)
    {
      if oid !in ontologies || !OwnBranch(State(), oid, bid) {
        return Some(NotFound);
      }
      if branches[bid].isDefault {
        return None;
      }
      if TwoDefaults(State(), oid) {
        return Some(Ambiguous);
      }
      ghost var before := branches;
      var current := Defaults(State(), oid);
      if current != {} {
        var c :| c in current;
        assert forall d :: d in Defaults(State(), oid) ==> d == c;
        assert forall d :: d in branches && branches[d].ontology == oid && branches[d].isDefault ==> d in current;
        branches := branches[c := branches[c].(isDefault := false)];
      } else {
        assert forall d :: d in branches && branches[d].ontology == oid && branches[d].isDefault ==> d in current;
      }
      branches := branches[bid := branches[bid].(isDefault := true)];
      assert branches == Promote(before, oid, bid);
      return None;
    }

    method SetBranchHead(oid: Uuid, bid: Uuid, vid: Uuid) returns (refusal: Option<Refusal>)
      modifies this`branches
      ensures Performs(old(State()), SetHead(oid, bid, vid), State(), refusal)
    {
      if oid !in ontologies || !OwnBranch(State(), oid, bid) {
        return Some(NotFound);
      }
      if branches[bid].isProtected {
        return Some(Conflict);
      }
      if !OwnVersion(State(), oid, vid) {
        return Some(BadRequest);
      }
      branches := branches[bid := branches[bid].(head := Some(vid))];
      return None;
    }

    method MergeBranch(oid: Uuid, target: Uuid, source: Uuid, message: Option<string>, force: bool)
      returns (refusal: Option<Refusal>)
      modifies this`branches, this`merges
      ensures Performs(old(State()), Event.MergeBranch(oid, target, source, message, force), State(), refusal)
    {
      if oid !in ontologies || !OwnBranch(State(), oid, target) {
        return Some(NotFound);
      }
      if !OwnBranch(State(), oid, source) {
        return Some(NotFound);
      }
      if source == target {
        return Some(BadRequest);
      }
      var targetHeadBefore := branches[target].head;
      var sourceHead := branches[source].head;
      if sourceHead.None? {
        return Some(Conflict);
      }
      // The row of the merge log could not be inserted, which undoes the request.
      if ontologies[oid].None? {
        return Some(NullViolation);
      }
      var strategy: Strategy;
      if sourceHead == targetHeadBefore {
        strategy := Noop;
      } else if targetHeadBefore.None? {
        strategy := FastForward;
      } else if force {
        strategy := MergeCommit;
      } else {
        strategy := FastForward;
      }
      match strategy {
        case Noop =>
        case FastForward => branches := branches[target := branches[target].(head := sourceHead)];
        case MergeCommit => branches := branches[target := branches[target].(head := sourceHead)];
      }
      merges := merges + [MergeRow(source, target, sourceHead.value, targetHeadBefore, strategy, message)];
      return None;
    }

    method CreateTag(oid: Uuid, id: Uuid, name: string, description: Option<string>, vid: Uuid)
      returns (refusal: Option<Refusal>)
      modifies this`tags
      ensures Performs(old(State()), Event.CreateTag(oid, id, name, description, vid), State(), refusal)
    {
      if oid !in ontologies {
        return Some(NotFound);
      }
      if !OwnVersion(State(), oid, vid) {
        return Some(BadRequest);
      }
      if TagTaken(State(), oid, name) {
        return Some(Conflict);
      }
      if ontologies[oid].None? {
        return Some(NullViolation);
      }
      if id in tags {
        return Some(UniqueViolation);
      }
      tags := tags[id := Tag(oid, name, description, vid)];
      return None;
    }

    method DeleteTag(oid: Uuid, tid: Uuid) returns (refusal: Option<Refusal>)
      modifies this`tags
      ensures Performs(old(State()), Event.DeleteTag(oid, tid), State(), refusal)
    {
      if oid !in ontologies || tid !in tags || tags[tid].ontology != oid {
        return Some(NotFound);
      }
      tags := tags - {tid};
      return None;
    }
  }

  // ---------------------------------------------------------------- what every request keeps

  // Two branches of one ontology never share the default flag, and never a name.
  ghost predicate PairwiseSound(branches: map<Uuid, Branch>) {
    forall b, c :: b in branches && c in branches && b != c && branches[b].ontology == branches[c].ontology ==>
      branches[b].name != branches[c].name && !(branches[b].isDefault && branches[c].isDefault)
  }

  ghost predicate HasDefault(branches: map<Uuid, Branch>, oid: Uuid) {
    exists d :: d in branches && branches[d].ontology == oid && branches[d].isDefault
  }

  ghost predicate EveryoneHasDefault(branches: map<Uuid, Branch>) {
    forall b :: b in branches ==> HasDefault(branches, branches[b].ontology)
  }

  ghost predicate HeadsBelong(line: Line) {
    forall b :: b in line.branches && line.branches[b].head.Some? ==>
      OwnVersion(line, line.branches[b].ontology, line.branches[b].head.value)
  }

  ghost predicate TagsSound(line: Line) {
    && (forall t :: t in line.tags ==> OwnVersion(line, line.tags[t].ontology, line.tags[t].version))
    && (forall t, u :: t in line.tags && u in line.tags && t != u && line.tags[t].ontology == line.tags[u].ontology ==>
          line.tags[t].name != line.tags[u].name)
  }

  // Branches and tags belong to ontologies that belong to a project.
  ghost predicate Owned(line: Line) {
    && (forall b :: b in line.branches ==> HasProject(line, line.branches[b].ontology))
    && (forall t :: t in line.tags ==> HasProject(line, line.tags[t].ontology))
  }

  predicate HasProject(line: Line, oid: Uuid) {
    oid in line.ontologies && line.ontologies[oid].Some?
  }

  ghost predicate Inv(line: Line) {
    && Owned(line)
    && PairwiseSound(line.branches)
    && EveryoneHasDefault(line.branches)
    && HeadsBelong(line)
    && TagsSound(line)
  }

  lemma NewBranchKept(branches: map<Uuid, Branch>, id: Uuid, b: Branch)
    requires PairwiseSound(branches) && id !in branches
    requires forall c :: c in branches && branches[c].ontology == b.ontology ==>
      branches[c].name != b.name && !(branches[c].isDefault && b.isDefault)
    ensures PairwiseSound(branches[id := b])
  {
  }

  // What identifies a branch stays as it was.
  ghost predicate SameShape(before: map<Uuid, Branch>, after: map<Uuid, Branch>) {
    forall b :: b in after ==>
      && b in before && after[b].name == before[b].name
      && after[b].ontology == before[b].ontology && after[b].isDefault == before[b].isDefault
  }

  ghost predicate Adds(line: Line, id: Uuid, b: Branch) {
    id !in line.branches && !NameTaken(line, b.ontology, b.name) && (b.isDefault ==> Defaults(line, b.ontology) == {})
  }

  lemma BranchesAfter(line: Line, e: Event)
    requires Step(line, e).Ok?
    ensures
      var after := Step(line, e).value.branches;
      || SameShape(line.branches, after)
      || (exists id, b :: Adds(line, id, b) && after == line.branches[id := b])
      || (e.SetDefault? && e.bid in line.branches && line.branches[e.bid].ontology == e.oid
          && after == Promote(line.branches, e.oid, e.bid))
  {
    var after := Step(line, e).value.branches;
    if (e.EnsureDefault? || e.CreateBranch?) && e.id in after && e.id !in line.branches {
      assert Adds(line, e.id, after[e.id]) && after == line.branches[e.id := after[e.id]];
    }
  }

  lemma PairwiseKept(line: Line, e: Event)
    requires PairwiseSound(line.branches) && Step(line, e).Ok?
    ensures PairwiseSound(Step(line, e).value.branches)
  {
    BranchesAfter(line, e);
    hide Step;
    var after := Step(line, e).value.branches;
    if id, b :| Adds(line, id, b) && after == line.branches[id := b] {
      assert forall c :: c in line.branches && line.branches[c].ontology == b.ontology && line.branches[c].isDefault ==>
               c in Defaults(line, b.ontology);
      NewBranchKept(line.branches, id, b);
    } else if e.SetDefault? && after == Promote(line.branches, e.oid, e.bid) && e.bid in line.branches
              && line.branches[e.bid].ontology == e.oid {
      PromoteKept(line.branches, e.oid, e.bid);
    }
  }

  lemma PromoteKept(branches: map<Uuid, Branch>, oid: Uuid, bid: Uuid)
    requires PairwiseSound(branches) && bid in branches && branches[bid].ontology == oid
    ensures PairwiseSound(Promote(branches, oid, bid))
  {
  }

  lemma DefaultsKept(line: Line, e: Event)
    requires EveryoneHasDefault(line.branches) && Step(line, e).Ok?
    ensures EveryoneHasDefault(Step(line, e).value.branches)
  {
    var before, after := line.branches, Step(line, e).value.branches;
    forall b | b in after
      ensures HasDefault(after, after[b].ontology)
    {
      var oid := after[b].ontology;
      if e.SetDefault? && !before[e.bid].isDefault && oid == e.oid {
        assert after[e.bid].isDefault;
      } else if b in before {
        assert before[b].ontology == oid;
        var d :| d in before && before[d].ontology == oid && before[d].isDefault;
        assert d in after && after[d].ontology == oid && after[d].isDefault;
      } else if e.CreateBranch? && Defaults(line, oid) != {} {
        var d :| d in Defaults(line, oid);
        assert after[d].isDefault;
      } else {
        assert after[b].isDefault;
      }
    }
  }

  lemma HeadsKept(line: Line, e: Event)
    requires HeadsBelong(line) && Step(line, e).Ok?
    ensures HeadsBelong(Step(line, e).value)
  {
  }

  lemma TagsKept(line: Line, e: Event)
    requires TagsSound(line) && Step(line, e).Ok?
    ensures TagsSound(Step(line, e).value)
  {
  }

  lemma OwnersKept(line: Line, e: Event)
    requires Owned(line) && Step(line, e).Ok?
    ensures Owned(Step(line, e).value)
  {
  }

  lemma StepKeepsInv(line: Line, e: Event)
    requires Inv(line) && Step(line, e).Ok?
    ensures Inv(Step(line, e).value)
  {
    OwnersKept(line, e);
    PairwiseKept(line, e);
    DefaultsKept(line, e);
    HeadsKept(line, e);
    TagsKept(line, e);
  }

  lemma OneDefault(line: Line, b: Uuid)
    requires Inv(line) && b in line.branches
    ensures exists d :: Defaults(line, line.branches[b].ontology) == {d}
  {
    var oid := line.branches[b].ontology;
    var d :| d in line.branches && line.branches[d].ontology == oid && line.branches[d].isDefault;
    assert Defaults(line, oid) == {d};
  }

  // The lookups of the default are never ambiguous and creating `main` lazily never clashes with an
  // existing name: with a new primary key the request succeeds if and only if the ontology has a
  // project, and leaves exactly one default.
  lemma LookupsUnambiguous(line: Line, e: Event)
    requires Inv(line)
    ensures Step(line, e) != Refused(Ambiguous)
    ensures e.EnsureDefault? && e.oid in line.ontologies && e.id !in line.branches ==>
      && (Step(line, e).Ok? <==> HasProject(line, e.oid))
      && (Step(line, e).Refused? ==> Step(line, e).reason == NullViolation)
    ensures e.EnsureDefault? && Step(line, e).Ok? ==> exists d :: Defaults(Step(line, e).value, e.oid) == {d}
  {
    assert !TwoDefaults(line, e.oid);
    if e.EnsureDefault? && e.oid in line.ontologies {
      if NameTaken(line, e.oid, "main") {
        var b :| b in line.branches && line.branches[b].ontology == e.oid;
        OneDefault(line, b);
      }
      if Step(line, e).Ok? {
        StepKeepsInv(line, e);
        DefaultAfterwards(line, e);
      }
    }
  }

  lemma DefaultAfterwards(line: Line, e: Event)
    requires e.EnsureDefault? && Step(line, e).Ok? && Inv(Step(line, e).value)
    ensures exists d :: Defaults(Step(line, e).value, e.oid) == {d}
  {
    var after := Step(line, e).value;
    if Defaults(line, e.oid) == {} {
      OneDefault(after, e.id);
    } else {
      var d :| d in Defaults(line, e.oid);
      OneDefault(after, d);
    }
  }

  // ---------------------------------------------------------------- whole runs

  ghost predicate IsRun(lines: seq<Line>, events: seq<Event>) {
    && |lines| == |events| + 1
    && lines[0] == Line(map[], map[], map[], map[], [])
    && forall i :: 0 <= i < |events| ==> lines[i + 1] == After(lines[i], events[i])
  }

  // In every reachable state: an ontology with any branch has exactly one default, branch names
  // are unique, and heads and tags belong to their ontology.
  lemma {:induction false} RunKeepsInv(lines: seq<Line>, events: seq<Event>, k: nat)
    requires IsRun(lines, events) && k < |lines|
    ensures Inv(lines[k])
    ensures forall b :: b in lines[k].branches ==> exists d :: Defaults(lines[k], lines[k].branches[b].ontology) == {d}
  {
    if k == 0 {
    } else {
      RunKeepsInv(lines, events, k - 1);
      if Step(lines[k - 1], events[k - 1]).Ok? {
        StepKeepsInv(lines[k - 1], events[k - 1]);
      }
    }
    forall b | b in lines[k].branches
      ensures exists d :: Defaults(lines[k], lines[k].branches[b].ontology) == {d}
    {
      OneDefault(lines[k], b);
    }
  }

  // ---------------------------------------------------------------- which branch is the default

  // In a sound state a set-default is accepted for any branch of the ontology. Afterwards that
  // branch is its one default; the defaults of other ontologies and all other columns stay.
  lemma SetDefaultMoves(line: Line, e: Event)
    requires Inv(line) && e.SetDefault?
    ensures Step(line, e).Ok? <==> e.oid in line.ontologies && OwnBranch(line, e.oid, e.bid)
    ensures Step(line, e).Ok? ==>
      var after := Step(line, e).value;
      && after == line.(branches := after.branches) && after.branches.Keys == line.branches.Keys
      && Defaults(after, e.oid) == {e.bid}
      && (forall oid :: oid != e.oid ==> Defaults(after, oid) == Defaults(line, oid))
      && (forall b :: b in line.branches ==>
            after.branches[b] == line.branches[b].(isDefault := after.branches[b].isDefault))
  {
    assert !TwoDefaults(line, e.oid);
    if Step(line, e).Ok? && line.branches[e.bid].isDefault {
      assert e.bid in Defaults(line, e.oid);
      assert Defaults(line, e.oid) == {e.bid};
    }
  }

  function NextDefault(before: Option<Uuid>, line: Line, e: Event, oid: Uuid): Option<Uuid> {
    if e.oid != oid || Step(line, e).Refused? then before
    else if e.SetDefault? then Some(e.bid)
    else if (e.CreateBranch? || e.EnsureDefault?) && before == None then Some(e.id)
    else before
  }

  // What a run says the default is: the branch of the last accepted set-default, or the branch that
  // was first while there was none.
  ghost function DefaultAt(lines: seq<Line>, events: seq<Event>, oid: Uuid, k: nat): Option<Uuid>
    requires k <= |events| < |lines|
  {
    if k == 0 then None
    else NextDefault(DefaultAt(lines, events, oid, k - 1), lines[k - 1], events[k - 1], oid)
  }

  function AsSet(id: Option<Uuid>): set<Uuid> {
    match id case None => {} case Some(id) => {id}
  }

  lemma OtherRequestsKeepDefaults(line: Line, e: Event, oid: Uuid)
    requires Inv(line) && Step(line, e).Ok? && (e.oid == oid ==> !e.SetDefault?)
    ensures
      var after := Step(line, e).value;
      if e.oid == oid && (e.CreateBranch? || e.EnsureDefault?) && Defaults(line, oid) == {}
      then Defaults(after, oid) == {e.id} else Defaults(after, oid) == Defaults(line, oid)
  {
    if e.SetDefault? {
      SetDefaultMoves(line, e);
    } else if e.CreateBranch? || e.EnsureDefault? {
      CreationKeepsDefaults(line, e, oid);
    } else {
      QuietKeepsDefaults(line, e, oid);
    }
  }

  lemma CreationKeepsDefaults(line: Line, e: Event, oid: Uuid)
    requires Inv(line) && Step(line, e).Ok? && (e.CreateBranch? || e.EnsureDefault?)
    ensures
      var after := Step(line, e).value;
      if e.oid == oid && Defaults(line, oid) == {}
      then Defaults(after, oid) == {e.id} else Defaults(after, oid) == Defaults(line, oid)
  {
    hide Inv, NameTaken, TwoDefaults;
  }

  lemma QuietKeepsDefaults(line: Line, e: Event, oid: Uuid)
    requires Step(line, e).Ok? && !e.SetDefault? && !e.CreateBranch? && !e.EnsureDefault?
    ensures Defaults(Step(line, e).value, oid) == Defaults(line, oid)
  {
    var after := Step(line, e).value;
    assert forall b :: b in after.branches ==>
      && b in line.branches && after.branches[b].ontology == line.branches[b].ontology
      && after.branches[b].isDefault == line.branches[b].isDefault;
    assert forall b :: b in line.branches && line.branches[b].isDefault ==> b in after.branches;
  }

  lemma NextDefaultIs(line: Line, e: Event, oid: Uuid, before: Option<Uuid>)
    requires Inv(line) && Defaults(line, oid) == AsSet(before)
    ensures Defaults(After(line, e), oid) == AsSet(NextDefault(before, line, e, oid))
  {
    hide Step, Inv, Defaults;
    if Step(line, e).Ok? {
      if e.SetDefault? {
        SetDefaultMoves(line, e);
      } else {
        OtherRequestsKeepDefaults(line, e, oid);
      }
    }
  }

  // In every reachable state that is the one default there is.
  lemma {:induction false} DefaultTellsHistory(lines: seq<Line>, events: seq<Event>, oid: Uuid, k: nat)
    requires IsRun(lines, events) && k < |lines|
    ensures Defaults(lines[k], oid) == AsSet(DefaultAt(lines, events, oid, k))
  {
    if k == 0 {
    } else {
      DefaultTellsHistory(lines, events, oid, k - 1);
      RunKeepsInv(lines, events, k - 1);
      assert lines[k] == After(lines[k - 1], events[k - 1]);
      hide Step, Defaults, Inv, IsRun, After, NextDefault;
      NextDefaultIs(lines[k - 1], events[k - 1], oid, DefaultAt(lines, events, oid, k - 1));
    }
  }

  // ---------------------------------------------------------------- branches and tags tell the history

  datatype Column = Birth(id: Uuid) | Head(id: Uuid) | Protection(id: Uuid) | Description(id: Uuid) | TagBirth(id: Uuid)

  // The request adds branch b: a creation under that id, or the lazy creation of `main`.
  predicate Makes(line: Line, e: Event, b: Uuid) {
    (e.CreateBranch? && e.id == b) || (e.EnsureDefault? && e.id == b && Defaults(line, e.oid) == {})
  }

  predicate Writes(c: Column, line: Line, e: Event) {
    match c
    case Birth(b) => Makes(line, e, b) || (e.DeleteBranch? && e.bid == b)
    case Head(b) => Makes(line, e, b) || (e.SetHead? && e.bid == b) || (e.MergeBranch? && e.target == b)
    case Protection(b) => Makes(line, e, b) || (e.UpdateBranch? && e.bid == b && e.newProtected.Some?)
    case Description(b) => Makes(line, e, b) || (e.UpdateBranch? && e.bid == b && e.newDescription.Some?)
    case TagBirth(t) => (e.CreateTag? && e.id == t) || (e.DeleteTag? && e.tid == t)
  }

  // A request and the state it met.
  datatype Source = Source(line: Line, e: Event)

  // The last accepted request before state k that wrote the column.
  ghost function LastWrite(lines: seq<Line>, events: seq<Event>, c: Column, k: nat): Option<Source>
    requires k <= |events| < |lines|
  {
    if k == 0 then None
    else if Step(lines[k - 1], events[k - 1]).Ok? && Writes(c, lines[k - 1], events[k - 1])
    then Some(Source(lines[k - 1], events[k - 1]))
    else LastWrite(lines, events, c, k - 1)
  }

  // The request that made the branch, as far as the branch still shows it.
  ghost predicate BirthIs(branches: map<Uuid, Branch>, b: Uuid, from: Option<Source>) {
    match from
    case Some(Source(_, CreateBranch(oid, _, name, _, _, _))) =>
      b in branches && branches[b].ontology == oid && branches[b].name == name
    case Some(Source(_, EnsureDefault(oid, _))) =>
      b in branches && branches[b].ontology == oid && branches[b].name == "main"
    case _ => b !in branches
  }

  ghost predicate HeadIs(branch: Branch, from: Source) {
    match from.e
    case CreateBranch(_, _, _, _, _, head) => branch.head == head
    case EnsureDefault(_, _) => branch.head == None
    case SetHead(_, _, vid) => branch.head == Some(vid)
    case MergeBranch(_, _, source, _, _) =>
      source in from.line.branches && branch.head == from.line.branches[source].head && branch.head.Some?
    case _ => false
  }

  ghost predicate ProtectionIs(branch: Branch, from: Source) {
    match from.e
    case CreateBranch(_, _, _, _, isProtected, _) => branch.isProtected == isProtected
    case EnsureDefault(_, _) => !branch.isProtected
    case UpdateBranch(_, _, _, newProtected) => newProtected == Some(branch.isProtected)
    case _ => false
  }

  ghost predicate DescriptionIs(branch: Branch, from: Source) {
    match from.e
    case CreateBranch(_, _, _, description, _, _) => branch.description == description
    case EnsureDefault(_, _) => branch.description == Some("Default branch")
    case UpdateBranch(_, _, newDescription, _) => newDescription.Some? && branch.description == newDescription
    case _ => false
  }

  ghost predicate TagIs(tags: map<Uuid, Tag>, t: Uuid, from: Option<Source>) {
    match from
    case Some(Source(_, CreateTag(oid, _, name, description, vid))) =>
      t in tags && tags[t] == Tag(oid, name, description, vid)
    case _ => t !in tags
  }

  // What is stored of branch b, against the last requests about it.
  ghost predicate BranchTells(branches: map<Uuid, Branch>, b: Uuid, birth: Option<Source>, head: Option<Source>,
                              protection: Option<Source>, description: Option<Source>) {
    && BirthIs(branches, b, birth)
    && (b in branches ==>
          && head.Some? && HeadIs(branches[b], head.value)
          && protection.Some? && ProtectionIs(branches[b], protection.value)
          && description.Some? && DescriptionIs(branches[b], description.value))
  }

  lemma MakingTells(line: Line, e: Event, b: Uuid)
    requires Step(line, e).Ok? && Makes(line, e, b)
    ensures
      var from := Some(Source(line, e));
      BranchTells(Step(line, e).value.branches, b, from, from, from, from)
  {
  }

  // A request that does not make b: which columns of it stay.
  lemma OtherColumnsStay(line: Line, e: Event, b: Uuid)
    requires Step(line, e).Ok? && !Makes(line, e, b)
    ensures
      var after := Step(line, e).value.branches;
      && (b in after <==> b in line.branches && !Writes(Birth(b), line, e))
      && (b in after ==>
            && after[b].ontology == line.branches[b].ontology && after[b].name == line.branches[b].name
            && (if Writes(Head(b), line, e) then HeadIs(after[b], Source(line, e))
                else after[b].head == line.branches[b].head)
            && (if Writes(Protection(b), line, e) then ProtectionIs(after[b], Source(line, e))
                else after[b].isProtected == line.branches[b].isProtected)
            && (if Writes(Description(b), line, e) then DescriptionIs(after[b], Source(line, e))
                else after[b].description == line.branches[b].description))
  {
  }

  function Newer(c: Column, line: Line, e: Event, before: Option<Source>): Option<Source> {
    if Writes(c, line, e) then Some(Source(line, e)) else before
  }

  lemma BranchTellsNext(line: Line, e: Event, b: Uuid, birth: Option<Source>, head: Option<Source>,
                        protection: Option<Source>, description: Option<Source>)
    requires Step(line, e).Ok? && BranchTells(line.branches, b, birth, head, protection, description)
    ensures BranchTells(Step(line, e).value.branches, b, Newer(Birth(b), line, e, birth), Newer(Head(b), line, e, head),
                        Newer(Protection(b), line, e, protection), Newer(Description(b), line, e, description))
  {
    if Makes(line, e, b) {
      MakingTells(line, e, b);
    } else {
      OtherColumnsStay(line, e, b);
    }
    hide Step;
  }

  // In every reachable state: a branch is stored if and only if the last request about its existence
  // made it, and its name, head, protection and description are what the last request about each
  // said; after a merge the head is the one its source had.
  lemma {:induction false} BranchesTellHistory(lines: seq<Line>, events: seq<Event>, k: nat, b: Uuid)
    requires IsRun(lines, events) && k < |lines|
    ensures BranchTells(lines[k].branches, b,
                        LastWrite(lines, events, Birth(b), k), LastWrite(lines, events, Head(b), k),
                        LastWrite(lines, events, Protection(b), k), LastWrite(lines, events, Description(b), k))
  {
    if k == 0 {
    } else {
      BranchesTellHistory(lines, events, k - 1, b);
      var line, e := lines[k - 1], events[k - 1];
      assert lines[k] == After(line, e);
      hide Step, IsRun, BranchTells, Writes;
      if Step(line, e).Ok? {
        BranchTellsNext(line, e, b,
                        LastWrite(lines, events, Birth(b), k - 1), LastWrite(lines, events, Head(b), k - 1),
                        LastWrite(lines, events, Protection(b), k - 1),
                        LastWrite(lines, events, Description(b), k - 1));
      }
    }
  }

  lemma StepWritesTag(line: Line, e: Event, t: Uuid, before: Option<Source>)
    requires Step(line, e).Ok? && TagIs(line.tags, t, before)
    ensures TagIs(Step(line, e).value.tags, t, Newer(TagBirth(t), line, e, before))
  {
  }

  // A tag is stored as it was created, until it is deleted.
  lemma {:induction false} TagsTellHistory(lines: seq<Line>, events: seq<Event>, k: nat, t: Uuid)
    requires IsRun(lines, events) && k < |lines|
    ensures TagIs(lines[k].tags, t, LastWrite(lines, events, TagBirth(t), k))
  {
    if k == 0 {
    } else {
      TagsTellHistory(lines, events, k - 1, t);
      assert lines[k] == After(lines[k - 1], events[k - 1]);
      hide Step, IsRun, TagIs, Writes;
      if Step(lines[k - 1], events[k - 1]).Ok? {
        StepWritesTag(lines[k - 1], events[k - 1], t, LastWrite(lines, events, TagBirth(t), k - 1));
      }
    }
  }

  // What a sound state accepts. The default is never ambiguous, and an ontology with branches has a
  // project, so neither refusal is left for a request about a stored branch.
  lemma AcceptedIff(line: Line, e: Event)
    requires Inv(line) && e.oid in line.ontologies
    ensures e.CreateBranch? ==>
      (Step(line, e).Ok? <==> HasProject(line, e.oid) && !NameTaken(line, e.oid, e.name) && e.id !in line.branches
                              && (e.head.Some? ==> OwnVersion(line, e.oid, e.head.value)))
    ensures e.UpdateBranch? ==> (Step(line, e).Ok? <==> OwnBranch(line, e.oid, e.bid))
    ensures e.DeleteBranch? ==>
      (Step(line, e).Ok? <==> OwnBranch(line, e.oid, e.bid) && !line.branches[e.bid].isProtected
                              && Defaults(line, e.oid) != {e.bid})
    ensures e.SetHead? ==>
      (Step(line, e).Ok? <==> OwnBranch(line, e.oid, e.bid) && !line.branches[e.bid].isProtected
                              && OwnVersion(line, e.oid, e.vid))
    ensures e.MergeBranch? ==>
      (Step(line, e).Ok? <==> OwnBranch(line, e.oid, e.target) && OwnBranch(line, e.oid, e.source)
                              && e.source != e.target && line.branches[e.source].head.Some?)
    ensures e.CreateTag? ==>
      (Step(line, e).Ok? <==> HasProject(line, e.oid) && OwnVersion(line, e.oid, e.vid)
                              && !TagTaken(line, e.oid, e.name) && e.id !in line.tags)
    ensures e.DeleteTag? ==> (Step(line, e).Ok? <==> e.tid in line.tags && line.tags[e.tid].ontology == e.oid)
  {
    assert !TwoDefaults(line, e.oid);
    if e.DeleteBranch? && OwnBranch(line, e.oid, e.bid) {
      OneDefault(line, e.bid);
      assert line.branches[e.bid].isDefault <==> e.bid in Defaults(line, e.oid);
    }
  }

  // ---------------------------------------------------------------- the merge log

  // After a merge the target's head is the recorded source head, whatever the strategy; the row
  // records the head it replaced; nothing else moves.
  lemma MergeOutcome(line: Line, e: Event)
    requires e.MergeBranch? && Step(line, e).Ok?
    ensures
      var line' := Step(line, e).value;
      && |line'.merges| == |line.merges| + 1 && line'.merges[..|line.merges|] == line.merges
      && var row := line'.merges[|line.merges|];
      && row.target == e.target && row.source == e.source
      && line.branches[e.source].head == Some(row.sourceHead) == line'.branches[e.target].head
      && row.targetHead == line.branches[e.target].head
      && row.message == e.message
      && (row.strategy == Noop <==> row.targetHead == Some(row.sourceHead))
      && (row.strategy == MergeCommit <==> e.force && row.targetHead.Some? && row.targetHead != Some(row.sourceHead))
      && line'.branches == line.branches[e.target := line.branches[e.target].(head := Some(row.sourceHead))]
  {
  }

  function RowsInto(merges: seq<MergeRow>, b: Uuid): seq<MergeRow> {
    if merges == [] then []
    else
      var rest := RowsInto(merges[..|merges| - 1], b);
      var last := merges[|merges| - 1];
      if last.target == b then rest + [last] else rest
  }

  // The rows lead from one head to another, each starting where the previous one ended.
  ghost predicate Links(start: Option<Uuid>, rows: seq<MergeRow>, end: Option<Uuid>) {
    if rows == [] then start == end
    else
      var last := rows[|rows| - 1];
      Some(last.sourceHead) == end && Links(start, rows[..|rows| - 1], last.targetHead)
  }

  // What a request can do to the head of a protected branch: only a merge into it moves it.
  lemma ProtectedHead(line: Line, e: Event, b: Uuid)
    requires b in line.branches && line.branches[b].isProtected && Step(line, e).Ok?
    ensures b in Step(line, e).value.branches
    ensures !(e.MergeBranch? && e.target == b) ==> Step(line, e).value.branches[b].head == line.branches[b].head
    ensures !e.MergeBranch? && !e.DeleteBranch? ==> Step(line, e).value.merges == line.merges
  {
  }

  lemma RowsAppend(merges: seq<MergeRow>, row: MergeRow, b: Uuid)
    ensures RowsInto(merges + [row], b) == RowsInto(merges, b) + if row.target == b then [row] else []
  {
  }

  ghost predicate NamesSource(merges: seq<MergeRow>, b: Uuid, d: Uuid) {
    exists i :: 0 <= i < |merges| && merges[i].target == b && merges[i].source == d
  }

  // A cascading delete of branch d keeps the log of branch b if and only if d was never merged
  // into b.
  lemma {:induction false} DeleteKeepsLogIff(merges: seq<MergeRow>, b: Uuid, d: Uuid)
    requires b != d
    ensures RowsInto(WithoutBranch(merges, d), b) == RowsInto(merges, b) <==> !NamesSource(merges, b, d)
    ensures |RowsInto(WithoutBranch(merges, d), b)| <= |RowsInto(merges, b)|
  {
    if merges == [] {
    } else {
      var front, last := merges[..|merges| - 1], merges[|merges| - 1];
      DeleteKeepsLogIff(front, b, d);
      assert merges == front + [last];
      RowsAppend(WithoutBranch(front, d), last, b);
      RowsAppend(front, last, b);
      var kept, all := RowsInto(WithoutBranch(front, d), b), RowsInto(front, b);
      assert kept + [last] == all + [last] ==> kept == (kept + [last])[..|kept|] && all == (all + [last])[..|all|];
      assert NamesSource(merges, b, d) <==> NamesSource(front, b, d) || (last.target == b && last.source == d) by {
        assert merges[|merges| - 1] == last;
        assert forall i :: 0 <= i < |front| ==> merges[i] == front[i];
      }
    }
  }

  // ---------------------------------------------------------------- replay

  function WithoutSources(rows: seq<MergeRow>, gone: set<Uuid>): seq<MergeRow> {
    if rows == [] then []
    else
      var rest, last := WithoutSources(rows[..|rows| - 1], gone), rows[|rows| - 1];
      if last.source in gone then rest else rest + [last]
  }

  // A row that was written once, and whether it is still stored.
  datatype Logged = Logged(row: MergeRow, kept: bool)

  function RowsOf(history: seq<Logged>): seq<MergeRow> {
    if history == [] then [] else RowsOf(history[..|history| - 1]) + [history[|history| - 1].row]
  }

  function KeptOf(history: seq<Logged>): seq<MergeRow> {
    if history == [] then []
    else
      var rest, last := KeptOf(history[..|history| - 1]), history[|history| - 1];
      if last.kept then rest + [last.row] else rest
  }

  function Drop(history: seq<Logged>, gone: set<Uuid>): seq<Logged> {
    if history == [] then []
    else
      var last := history[|history| - 1];
      Drop(history[..|history| - 1], gone) + [Logged(last.row, last.kept && last.row.source !in gone)]
  }

  // A maximal block of rows that are no longer stored.
  ghost predicate IsBlock(history: seq<Logged>, a: nat, c: nat) {
    && a < c <= |history|
    && (forall m :: a <= m < c ==> !history[m].kept)
    && (a > 0 ==> history[a - 1].kept)
    && (c < |history| ==> history[c].kept)
  }

  // Every such block ends on the head it started from.
  ghost predicate BlocksClose(history: seq<Logged>) {
    forall a: nat, c: nat :: IsBlock(history, a, c) ==>
      history[a].row.targetHead == Some(history[c - 1].row.sourceHead)
  }

  lemma EndIsFixed(start: Option<Uuid>, rows: seq<MergeRow>, mid: Option<Uuid>, end: Option<Uuid>)
    requires if rows == [] then start == mid else Some(rows[|rows| - 1].sourceHead) == mid
    ensures Links(start, rows, end) <==> mid == end && Links(start, rows, mid)
  {
  }

  lemma {:induction false} RowsOfPrefix(history: seq<Logged>, n: nat)
    requires n <= |history|
    ensures |RowsOf(history)| == |history| && RowsOf(history[..n]) == RowsOf(history)[..n]
    ensures forall i :: 0 <= i < |history| ==> RowsOf(history)[i] == history[i].row
  {
    if history == [] {
    } else {
      var front := history[..|history| - 1];
      RowsOfPrefix(front, if n <= |front| then n else |front|);
      assert n <= |front| ==> front[..n] == history[..n];
      assert n == |history| ==> history[..n] == history;
    }
  }

  lemma {:induction false} LinksPrefix(start: Option<Uuid>, rows: seq<MergeRow>, end: Option<Uuid>, n: nat)
    requires Links(start, rows, end) && n < |rows|
    ensures Links(start, rows[..n], rows[n].targetHead)
  {
    var front := rows[..|rows| - 1];
    if n == |front| {
    } else {
      LinksPrefix(start, front, rows[|rows| - 1].targetHead, n);
      assert front[..n] == rows[..n];
    }
  }

  lemma {:induction false} TrailingBlock(history: seq<Logged>) returns (a: nat)
    requires history != [] && !history[|history| - 1].kept
    ensures IsBlock(history, a, |history|) && KeptOf(history) == KeptOf(history[..a])
  {
    var n := |history| - 1;
    var front := history[..n];
    if n > 0 && !history[n - 1].kept {
      a := TrailingBlock(front);
      assert front[..a] == history[..a];
    } else {
      a := n;
    }
  }

  lemma KeptLastBlocks(history: seq<Logged>)
    requires history != [] && history[|history| - 1].kept
    ensures BlocksClose(history) <==> BlocksClose(history[..|history| - 1])
  {
    var front := history[..|history| - 1];
    assert forall a: nat, c: nat :: IsBlock(history, a, c) <==> IsBlock(front, a, c);
  }

  lemma TrailingBlockCloses(history: seq<Logged>, a: nat)
    requires IsBlock(history, a, |history|)
    ensures BlocksClose(history) <==>
            BlocksClose(history[..a]) && history[a].row.targetHead == Some(history[|history| - 1].row.sourceHead)
  {
    var front := history[..a];
    forall x: nat, c: nat
      ensures IsBlock(history, x, c) <==> IsBlock(front, x, c) || (x == a && c == |history|)
    {
    }
  }

  // Rows that link end to end keep linking when some are no longer stored, if and only if every
  // block of lost rows ends on the head it started from.
  lemma {:induction false} KeptReplaysIff(start: Option<Uuid>, history: seq<Logged>, end: Option<Uuid>)
    requires Links(start, RowsOf(history), end)
    ensures Links(start, KeptOf(history), end) <==> BlocksClose(history)
    decreases |history|
  {
    if history == [] {
    } else if history[|history| - 1].kept {
      var front, last := history[..|history| - 1], history[|history| - 1].row;
      KeptReplaysIff(start, front, last.targetHead);
      KeptLastBlocks(history);
      assert KeptOf(history)[..|KeptOf(front)|] == KeptOf(front);
      assert RowsOf(history)[..|RowsOf(front)|] == RowsOf(front);
    } else {
      LostTailReplaysIff(start, history, end);
    }
  }

  lemma {:induction false} LostTailReplaysIff(start: Option<Uuid>, history: seq<Logged>, end: Option<Uuid>)
    requires history != [] && !history[|history| - 1].kept
    requires Links(start, RowsOf(history), end)
    ensures Links(start, KeptOf(history), end) <==> BlocksClose(history)
    decreases |history|, 0
  {
    var a := TrailingBlock(history);
    var front, mid := history[..a], history[a].row.targetHead;
    assert front == [] || front[a - 1].kept;
    hide RowsOf, KeptOf, Links, BlocksClose, IsBlock;
    RowsOfPrefix(history, a);
    LinksPrefix(start, RowsOf(history), end, a);
    LinksEnd(start, RowsOf(history), end);
    KeptReplaysIff(start, front, mid);
    TrailingBlockCloses(history, a);
    KeptEnd(start, front, mid);
    EndIsFixed(start, KeptOf(front), mid, end);
  }

  lemma LinksEnd(start: Option<Uuid>, rows: seq<MergeRow>, end: Option<Uuid>)
    requires Links(start, rows, end) && rows != []
    ensures Some(rows[|rows| - 1].sourceHead) == end
  {
  }

  lemma KeptEnd(start: Option<Uuid>, history: seq<Logged>, end: Option<Uuid>)
    requires Links(start, RowsOf(history), end)
    requires history == [] || history[|history| - 1].kept
    ensures if KeptOf(history) == [] then start == end
            else Some(KeptOf(history)[|KeptOf(history)| - 1].sourceHead) == end
  {
  }

  // ---------------------------------------------------------------- deletes

  function Marked(rows: seq<MergeRow>, d: Uuid): seq<Logged> {
    if rows == [] then []
    else Marked(rows[..|rows| - 1], d) + [Logged(rows[|rows| - 1], rows[|rows| - 1].source != d)]
  }

  lemma {:induction false} MarkedRows(rows: seq<MergeRow>, d: Uuid)
    ensures RowsOf(Marked(rows, d)) == rows && KeptOf(Marked(rows, d)) == WithoutSources(rows, {d})
  {
    if rows == [] {
    } else {
      MarkedRows(rows[..|rows| - 1], d);
      var marked := Marked(rows, d);
      assert marked[..|marked| - 1] == Marked(rows[..|rows| - 1], d);
    }
  }

  lemma {:induction false} CascadeOnLog(merges: seq<MergeRow>, b: Uuid, d: Uuid)
    requires b != d
    ensures RowsInto(WithoutBranch(merges, d), b) == WithoutSources(RowsInto(merges, b), {d})
  {
    if merges == [] {
    } else {
      var front, last := merges[..|merges| - 1], merges[|merges| - 1];
      CascadeOnLog(front, b, d);
      RowsAppend(WithoutBranch(front, d), last, b);
      if last.target == b {
        assert RowsInto(merges, b)[..|RowsInto(front, b)|] == RowsInto(front, b);
      }
    }
  }

  // A cascading delete of branch d leaves a log of b that replays if and only if each block of
  // rows from d ends on the head it started from, which can be read off the log before the delete.
  lemma DeleteKeepsReplayIff(start: Option<Uuid>, merges: seq<MergeRow>, end: Option<Uuid>, b: Uuid, d: Uuid)
    requires b != d && Links(start, RowsInto(merges, b), end)
    ensures Links(start, RowsInto(WithoutBranch(merges, d), b), end) <==> BlocksClose(Marked(RowsInto(merges, b), d))
  {
    CascadeOnLog(merges, b, d);
    MarkedRows(RowsInto(merges, b), d);
    KeptReplaysIff(start, Marked(RowsInto(merges, b), d), end);
  }

  lemma {:induction false} WithoutSourcesConcat(a: seq<MergeRow>, b: seq<MergeRow>, gone: set<Uuid>)
    ensures WithoutSources(a + b, gone) == WithoutSources(a, gone) + WithoutSources(b, gone)
  {
    if b == [] {
      assert a + b == a;
    } else {
      assert (a + b)[..|a + b| - 1] == a + b[..|b| - 1];
      WithoutSourcesConcat(a, b[..|b| - 1], gone);
    }
  }

  lemma {:induction false} WithoutNone(rows: seq<MergeRow>)
    ensures WithoutSources(rows, {}) == rows
  {
    if rows == [] {
    } else {
      WithoutNone(rows[..|rows| - 1]);
    }
  }

  lemma {:induction false} WithoutSourcesTwice(rows: seq<MergeRow>, gone: set<Uuid>, more: set<Uuid>)
    ensures WithoutSources(WithoutSources(rows, gone), more) == WithoutSources(rows, gone + more)
  {
    if rows == [] {
    } else {
      var rest, last := WithoutSources(rows[..|rows| - 1], gone), rows[|rows| - 1];
      WithoutSourcesTwice(rows[..|rows| - 1], gone, more);
      assert (rest + [last])[..|rest|] == rest;
      assert last.source in gone + more <==> last.source in gone || last.source in more;
    }
  }

  lemma {:induction false} DropMeaning(history: seq<Logged>, gone: set<Uuid>)
    ensures RowsOf(Drop(history, gone)) == RowsOf(history)
    ensures KeptOf(Drop(history, gone)) == WithoutSources(KeptOf(history), gone)
  {
    if history == [] {
    } else {
      var front := history[..|history| - 1];
      DropMeaning(front, gone);
      var dropped := Drop(history, gone);
      assert dropped[..|dropped| - 1] == Drop(front, gone);
      if history[|history| - 1].kept {
        assert KeptOf(history)[..|KeptOf(front)|] == KeptOf(front);
      }
    }
  }

  // ---------------------------------------------------------------- the log along a run

  // The branch whose merge rows a request deletes, if any.
  ghost function Gone(line: Line, e: Event): set<Uuid> {
    if e.DeleteBranch? && e.cascades && Step(line, e).Ok? then {e.bid} else {}
  }

  // The row a request adds to the log of b, if any.
  ghost function NewRow(line: Line, e: Event, b: Uuid): Option<MergeRow> {
    if e.MergeBranch? && e.target == b && Step(line, e).Ok?
    then Some(After(line, e).merges[|line.merges|]) else None
  }

  function AsSeq(row: Option<MergeRow>): seq<MergeRow> {
    match row case Some(row) => [row] case None => []
  }

  // What is known of the rows written so far after a delete and, perhaps, a merge.
  function Extend(history: seq<Logged>, gone: set<Uuid>, row: Option<MergeRow>): seq<Logged> {
    match row
    case Some(row) => Drop(history, gone) + [Logged(row, true)]
    case None => Drop(history, gone)
  }

  // Every merge into b between two states, and whether its row outlived the deletes since.
  ghost function History(lines: seq<Line>, events: seq<Event>, b: Uuid, i: nat, j: nat): seq<Logged>
    requires i <= j < |lines| == |events| + 1
    decreases j
  {
    if i == j then []
    else
      Extend(History(lines, events, b, i, j - 1), Gone(lines[j - 1], events[j - 1]),
             NewRow(lines[j - 1], events[j - 1], b))
  }

  ghost function AllGone(lines: seq<Line>, events: seq<Event>, i: nat, j: nat): set<Uuid>
    requires i <= j < |lines| == |events| + 1
    decreases j
  {
    if i == j then {} else AllGone(lines, events, i, j - 1) + Gone(lines[j - 1], events[j - 1])
  }

  // The stretch in which b is protected.
  ghost predicate ProtectedStretch(lines: seq<Line>, b: Uuid, i: nat, j: nat) {
    && i <= j < |lines| && b in lines[i].branches
    && forall k :: i <= k < j && b in lines[k].branches ==> lines[k].branches[b].isProtected
  }

  function HeadOf(line: Line, b: Uuid): Option<Uuid> {
    if b in line.branches then line.branches[b].head else None
  }

  lemma DeleteOutcome(line: Line, e: Event)
    requires e.DeleteBranch? && Step(line, e).Ok?
    ensures e.bid in line.branches && !line.branches[e.bid].isProtected
    ensures Step(line, e).value.merges == if e.cascades then WithoutBranch(line.merges, e.bid) else line.merges
  {
  }

  // One request of such a stretch drops the rows of a deleted branch, appends at most one row to
  // the log of b, and that row leads from the head before to the head after.
  lemma StretchStep(line: Line, e: Event, b: Uuid)
    requires b in line.branches && line.branches[b].isProtected
    ensures b in After(line, e).branches
    ensures RowsInto(After(line, e).merges, b) ==
            WithoutSources(RowsInto(line.merges, b), Gone(line, e)) + AsSeq(NewRow(line, e, b))
    ensures match NewRow(line, e, b)
            case None => HeadOf(After(line, e), b) == HeadOf(line, b)
            case Some(row) => row.targetHead == HeadOf(line, b) && Some(row.sourceHead) == HeadOf(After(line, e), b)
  {
    WithoutNone(RowsInto(line.merges, b));
    hide Step, RowsInto, WithoutBranch, WithoutSources;
    if Step(line, e).Ok? {
      ProtectedHead(line, e, b);
      if e.MergeBranch? {
        MergeOutcome(line, e);
        var row := Step(line, e).value.merges[|line.merges|];
        assert Step(line, e).value.merges == line.merges + [row];
        RowsAppend(line.merges, row, b);
      } else if e.DeleteBranch? {
        DeleteOutcome(line, e);
        CascadeOnLog(line.merges, b, e.bid);
      }
    }
  }

  // The log of b holds the older rows and the rows of the history, both without those that a
  // cascading delete took, and the history itself leads from `start` to the current head.
  ghost predicate LogIs(line: Line, b: Uuid, start: Option<Uuid>, older: seq<MergeRow>, gone: set<Uuid>,
                        history: seq<Logged>) {
    && b in line.branches
    && RowsInto(line.merges, b) == WithoutSources(older, gone) + KeptOf(history)
    && Links(start, RowsOf(history), HeadOf(line, b))
  }

  lemma LogStep(line: Line, e: Event, b: Uuid, start: Option<Uuid>, older: seq<MergeRow>, gone: set<Uuid>,
                history: seq<Logged>)
    requires LogIs(line, b, start, older, gone, history) && line.branches[b].isProtected
    ensures LogIs(After(line, e), b, start, older, gone + Gone(line, e),
                  Extend(history, Gone(line, e), NewRow(line, e, b)))
  {
    StretchStep(line, e, b);
    ExtendMeaning(history, Gone(line, e), NewRow(line, e, b));
    RowsAfter(older, gone, KeptOf(history), Gone(line, e), AsSeq(NewRow(line, e, b)));
    LinksGrow(start, RowsOf(history), HeadOf(line, b), NewRow(line, e, b));
    hide RowsInto, WithoutSources, KeptOf, Links, RowsOf, HeadOf, After, Gone, NewRow, Extend, AsSeq;
  }

  lemma RowsAfter(older: seq<MergeRow>, gone: set<Uuid>, kept: seq<MergeRow>, more: set<Uuid>, row: seq<MergeRow>)
    ensures WithoutSources(WithoutSources(older, gone) + kept, more) + row ==
            WithoutSources(older, gone + more) + (WithoutSources(kept, more) + row)
  {
    WithoutSourcesConcat(WithoutSources(older, gone), kept, more);
    WithoutSourcesTwice(older, gone, more);
  }

  lemma {:induction false} LogOfStretch(lines: seq<Line>, events: seq<Event>, b: Uuid, i: nat, j: nat)
    requires IsRun(lines, events) && ProtectedStretch(lines, b, i, j)
    ensures LogIs(lines[j], b, HeadOf(lines[i], b), RowsInto(lines[i].merges, b), AllGone(lines, events, i, j),
                  History(lines, events, b, i, j))
    decreases j
  {
    if i == j {
      WithoutNone(RowsInto(lines[i].merges, b));
    } else {
      LogOfStretch(lines, events, b, i, j - 1);
      assert b in lines[j - 1].branches;
      hide LogIs, RowsInto, HeadOf, Step, After;
      LogStep(lines[j - 1], events[j - 1], b, HeadOf(lines[i], b), RowsInto(lines[i].merges, b),
              AllGone(lines, events, i, j - 1), History(lines, events, b, i, j - 1));
    }
  }

  lemma ExtendMeaning(history: seq<Logged>, gone: set<Uuid>, row: Option<MergeRow>)
    ensures RowsOf(Extend(history, gone, row)) == RowsOf(history) + AsSeq(row)
    ensures KeptOf(Extend(history, gone, row)) == WithoutSources(KeptOf(history), gone) + AsSeq(row)
  {
    DropMeaning(history, gone);
    var dropped, after := Drop(history, gone), Extend(history, gone, row);
    assert row.Some? ==> after[..|after| - 1] == dropped;
  }

  lemma LinksGrow(start: Option<Uuid>, rows: seq<MergeRow>, end: Option<Uuid>, row: Option<MergeRow>)
    requires Links(start, rows, end) && (row.Some? ==> row.value.targetHead == end)
    ensures Links(start, rows + AsSeq(row), if row.Some? then Some(row.value.sourceHead) else end)
  {
    var longer := rows + AsSeq(row);
    assert row.Some? ==> longer[..|longer| - 1] == rows;
    assert row.None? ==> longer == rows;
  }

  // Replay, exactly: over any stretch in which b is protected, the rows of that stretch that are
  // still stored link end to end from the head at its start to the head at its end if and only if
  // every block of rows lost to deletes ends on the head it started from.
  lemma MergeLogReplaysIff(lines: seq<Line>, events: seq<Event>, b: Uuid, i: nat, j: nat)
    requires IsRun(lines, events) && ProtectedStretch(lines, b, i, j)
    ensures b in lines[j].branches
    ensures RowsInto(lines[j].merges, b) ==
            WithoutSources(RowsInto(lines[i].merges, b), AllGone(lines, events, i, j))
            + KeptOf(History(lines, events, b, i, j))
    ensures Links(HeadOf(lines[i], b), RowsOf(History(lines, events, b, i, j)), HeadOf(lines[j], b))
    ensures Links(HeadOf(lines[i], b), KeptOf(History(lines, events, b, i, j)), HeadOf(lines[j], b))
            <==> BlocksClose(History(lines, events, b, i, j))
  {
    LogOfStretch(lines, events, b, i, j);
    KeptReplaysIff(HeadOf(lines[i], b), History(lines, events, b, i, j), HeadOf(lines[j], b));
  }

  // ---------------------------------------------------------------- a log that loses its thread

  ghost predicate IsSetUp(line: Line) {
    && line.ontologies == map[0 := Some(1)] && line.merges == []
    && line.branches == map[
         10 := Branch(0, "stable", None, true, true, None),
         11 := Branch(0, "first", None, false, false, Some(21)),
         12 := Branch(0, "second", None, false, false, Some(22))]
  }

  lemma RunGrows(lines: seq<Line>, events: seq<Event>, e: Event) returns (longer: seq<Line>)
    requires IsRun(lines, events)
    ensures |lines| == |events| + 1
    ensures longer == lines + [After(lines[|events|], e)] && IsRun(longer, events + [e])
  {
    hide After;
    longer := lines + [After(lines[|events|], e)];
  }

  lemma OneOntology() returns (lines: seq<Line>, events: seq<Event>)
    ensures IsRun(lines, events) && |events| == 3 && |lines| == 4
    ensures lines[3] == Line(map[0 := Some(1)], map[21 := 0, 22 := 0], map[], map[], [])
  {
    events := [AddOntology(0, Some(1)), AddVersion(0, 21), AddVersion(0, 22)];
    lines := [
      Line(map[], map[], map[], map[], []),
      Line(map[0 := Some(1)], map[], map[], map[], []),
      Line(map[0 := Some(1)], map[21 := 0], map[], map[], []),
      Line(map[0 := Some(1)], map[21 := 0, 22 := 0], map[], map[], [])];
  }

  lemma AfterCreate(line: Line, id: Uuid, name: string, isProtected: bool, head: Option<Uuid>)
    requires HasProject(line, 0) && id !in line.branches && !NameTaken(line, 0, name) && !TwoDefaults(line, 0)
    requires head.Some? ==> OwnVersion(line, 0, head.value)
    ensures After(line, Event.CreateBranch(0, id, name, None, isProtected, head)) ==
            line.(branches := line.branches[id := Branch(0, name, None, Defaults(line, 0) == {}, isProtected, head)])
  {
  }

  // A protected branch 10 and two branches with heads 21 and 22, as six requests leave them.
  lemma TwoSources() returns (lines: seq<Line>, events: seq<Event>)
    ensures IsRun(lines, events) && |events| == 6 && |lines| == 7
    ensures IsSetUp(lines[6])
  {
    hide After, IsRun;
    lines, events := OneOntology();
    AfterCreate(lines[3], 10, "stable", true, None);
    lines := RunGrows(lines, events, Event.CreateBranch(0, 10, "stable", None, true, None));
    events := events + [Event.CreateBranch(0, 10, "stable", None, true, None)];
    assert Defaults(lines[4], 0) == {10};
    AfterCreate(lines[4], 11, "first", false, Some(21));
    lines := RunGrows(lines, events, Event.CreateBranch(0, 11, "first", None, false, Some(21)));
    events := events + [Event.CreateBranch(0, 11, "first", None, false, Some(21))];
    assert Defaults(lines[5], 0) == {10};
    AfterCreate(lines[5], 12, "second", false, Some(22));
    lines := RunGrows(lines, events, Event.CreateBranch(0, 12, "second", None, false, Some(22)));
    events := events + [Event.CreateBranch(0, 12, "second", None, false, Some(22))];
  }

  const FIRST_ROW := MergeRow(11, 10, 21, None, FastForward, None)
  const SECOND_ROW := MergeRow(12, 10, 22, Some(21), FastForward, None)

  lemma AfterFirstMerge(line: Line)
    requires IsSetUp(line)
    ensures
      var after := After(line, Event.MergeBranch(0, 10, 11, None, false));
      && after.ontologies == line.ontologies && after.merges == [FIRST_ROW]
      && after.branches == line.branches[10 := line.branches[10].(head := Some(21))]
  {
  }

  lemma AfterSecondMerge(line: Line)
    requires line.ontologies == map[0 := Some(1)] && line.merges == [FIRST_ROW]
    requires 10 in line.branches && 12 in line.branches && line.branches[10].ontology == line.branches[12].ontology == 0
    requires line.branches[10].head == Some(21) && line.branches[12].head == Some(22)
    ensures
      var after := After(line, Event.MergeBranch(0, 10, 12, None, false));
      && after.ontologies == line.ontologies && after.merges == [FIRST_ROW, SECOND_ROW]
      && after.branches == line.branches[10 := line.branches[10].(head := Some(22))]
  {
  }

  // Merging 11 and then 12 into the protected branch 10 gives a log that replays; deleting 11
  // then leaves a log that starts in mid-air.
  lemma CascadeBreaksReplay() returns (lines: seq<Line>, events: seq<Event>)
    ensures IsRun(lines, events) && |events| == 9 && ProtectedStretch(lines, 10, 6, 9)
    ensures events[6] == Event.MergeBranch(0, 10, 11, None, false)
    ensures events[7] == Event.MergeBranch(0, 10, 12, None, false)
    ensures events[8] == Event.DeleteBranch(0, 11, true) && Step(lines[8], events[8]).Ok?
    ensures lines[6].merges == [] && lines[6].branches[10].head == None && 10 in lines[9].branches
    ensures Links(None, RowsInto(lines[8].merges, 10), lines[8].branches[10].head)
    ensures !Links(None, RowsInto(lines[9].merges, 10), lines[9].branches[10].head)
  {
    hide After, IsRun, Step, RowsInto, Links, WithoutBranch;
    lines, events := TwoSources();
    AfterFirstMerge(lines[6]);
    lines := RunGrows(lines, events, Event.MergeBranch(0, 10, 11, None, false));
    events := events + [Event.MergeBranch(0, 10, 11, None, false)];
    AfterSecondMerge(lines[7]);
    lines := RunGrows(lines, events, Event.MergeBranch(0, 10, 12, None, false));
    events := events + [Event.MergeBranch(0, 10, 12, None, false)];
    AfterDelete(lines[8]);
    lines := RunGrows(lines, events, Event.DeleteBranch(0, 11, true));
    events := events + [Event.DeleteBranch(0, 11, true)];
    TwoRowsLink();
    DeleteKeepsReplayIff(None, [FIRST_ROW, SECOND_ROW], Some(22), 10, 11);
  }

  lemma AfterDelete(line: Line)
    requires 0 in line.ontologies && 11 in line.branches && line.branches[11].ontology == 0
    requires !line.branches[11].isDefault && !line.branches[11].isProtected
    ensures
      var delete := Event.DeleteBranch(0, 11, true);
      && Step(line, delete).Ok? && After(line, delete).branches == line.branches - {11}
      && After(line, delete).merges == WithoutBranch(line.merges, 11)
  {
  }

  lemma TwoRowsLink()
    ensures RowsInto([FIRST_ROW, SECOND_ROW], 10) == [FIRST_ROW, SECOND_ROW]
    ensures Links(None, [FIRST_ROW, SECOND_ROW], Some(22))
    ensures !BlocksClose(Marked([FIRST_ROW, SECOND_ROW], 11))
  {
    var none: seq<MergeRow> := [];
    var rows := [FIRST_ROW, SECOND_ROW];
    assert none + [FIRST_ROW] == [FIRST_ROW] && [FIRST_ROW] + [SECOND_ROW] == rows;
    RowsAppend(none, FIRST_ROW, 10);
    RowsAppend([FIRST_ROW], SECOND_ROW, 10);
    assert rows[..1] == [FIRST_ROW] && [FIRST_ROW][..0] == none;
    assert Links(None, [FIRST_ROW], Some(21));
    assert Marked([FIRST_ROW], 11) == [Logged(FIRST_ROW, false)];
    assert Marked(rows, 11) == [Logged(FIRST_ROW, false), Logged(SECOND_ROW, true)];
    assert IsBlock(Marked(rows, 11), 0, 1);
  }
}
