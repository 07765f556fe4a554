// One ontology and its versions: publishing the live rows, drafting from the published head,
// editing a draft, publishing a draft. The ontology caches the tag and two counts of its head.
module VersionLifecycle {
  import opened Common
  import opened SnapshotDiff

  datatype OntologyStatus = DraftOntology | PublishedOntology | DeprecatedOntology | ArchivedOntology

  datatype VersionStatus = DraftVersion | PublishedVersion

  datatype Version = Version(
    tag: string,
    status: VersionStatus,
    publishedAt: Option<int>,
    baselineOf: Option<Uuid>,
    summary: Option<string>,
    snapshot: Snapshot)

  // `live` holds the current class, property, relation and constraint rows as a publish would
  // serialize them; `violations` counts the constraints of severity violation.
  datatype Onto = Onto(
    status: OntologyStatus,
    version: Option<string>,
    classCount: nat,
    propertyCount: nat,
    live: Snapshot,
    violations: nat,
    versions: map<Uuid, Version>)

  datatype Content = Content(
    classes: Option<seq<Item>>,
    properties: Option<seq<Item>>,
    relations: Option<seq<Item>>,
    constraints: Option<seq<Item>>,
    summary: Option<string>)

  // `parent` is the row the query for the newest published version returned, `now` the clock.
  datatype Event =
    | EditLive(live: Snapshot, violations: nat)
    | SetStatus(status: OntologyStatus)
    | Publish(id: Uuid, tag: string, summary: Option<string>, now: int)
    | CreateDraft(id: Uuid, tagOrDefault: Option<string>, summary: Option<string>, parent: Option<Uuid>)
    | UpdateContent(id: Uuid, content: Content)
    | PublishDraft(id: Uuid, now: int)

  // ---------------------------------------------------------------- the steps

  const EMPTY := Snapshot([], [], [], [])

  predicate TagTaken(onto: Onto, tag: string) {
    exists v | v in onto.versions :: onto.versions[v].tag == tag
  }

  function DraftTag(tagOrDefault: Option<string>): string {
    if tagOrDefault.Some? && tagOrDefault.value != "" then tagOrDefault.value else "draft"
  }

  function Replace(s: Snapshot, c: Content): Snapshot {
    Snapshot(
      if c.classes.Some? then c.classes.value else s.classes,
      if c.properties.Some? then c.properties.value else s.properties,
      if c.relations.Some? then c.relations.value else s.relations,
      if c.constraints.Some? then c.constraints.value else s.constraints)
  }

  // The version row and the cached head, written together by both publish handlers.
  function WithHead(onto: Onto, id: Uuid, v: Version): Onto {
    onto.(versions := onto.versions[id := v],
          version := Some(v.tag),
          status := PublishedOntology,
          classCount := |v.snapshot.classes|,
          propertyCount := |v.snapshot.properties|)
  }

  function Step(onto: Onto, e: Event): Result<Onto> {
    match e
    case EditLive(live, violations) => Ok(onto.(live := live, violations := violations))
    case SetStatus(status) => Ok(onto.(status := status))
    case Publish(id, tag, summary, now) =>
      if onto.status == PublishedOntology || onto.status == ArchivedOntology then Refused(BadRequest)
      else if onto.violations > 0 then Refused(Unprocessable)
      else if id in onto.versions || TagTaken(onto, tag) then Refused(UniqueViolation)
      else Ok(WithHead(onto, id, Version(tag, PublishedVersion, Some(now), None, summary, onto.live)))
    case CreateDraft(id, tagOrDefault, summary, parent) =>
      if id in onto.versions || TagTaken(onto, DraftTag(tagOrDefault)) then Refused(UniqueViolation)
      else
        var snapshot :=
          if parent.Some? && parent.value in onto.versions then onto.versions[parent.value].snapshot else EMPTY;
        Ok(onto.(versions := onto.versions[id :=
          Version(DraftTag(tagOrDefault), DraftVersion, None, parent, summary, snapshot)]))
    case UpdateContent(id, content) =>
      if id !in onto.versions then Refused(NotFound)
      else if onto.versions[id].status != DraftVersion then Refused(BadRequest)
      else
        var v := onto.versions[id];
        Ok(onto.(versions := onto.versions[id :=
          v.(snapshot := Replace(v.snapshot, content),
             summary := if content.summary.Some? then content.summary else v.summary)]))
    case PublishDraft(id, now) =>
      if id !in onto.versions then Refused(NotFound)
      else if onto.versions[id].status != DraftVersion then Refused(BadRequest)
      else Ok(WithHead(onto, id, onto.versions[id].(status := PublishedVersion, publishedAt := Some(now))))
  }

  function After(onto: Onto, e: Event): Onto {
    match Step(onto, e)
    case Ok(onto') => onto'
    case Refused(_) => onto
  }

  ghost predicate Performs(before: Onto, e: Event, after: Onto, refusal: Option<Refusal>) {
    match Step(before, e)
    case Ok(onto) => after == onto && refusal == None
    case Refused(reason) => after == before && refusal == Some(reason)
  }

  predicate IsPublished(onto: Onto, v: Uuid) {
    v in onto.versions && onto.versions[v].status == PublishedVersion && onto.versions[v].publishedAt.Some?
  }

  // A published version that no published version is later than.
  predicate IsHead(onto: Onto, v: Uuid) {
    && IsPublished(onto, v)
    && forall u | u in onto.versions :: IsPublished(onto, u) ==>
         onto.versions[u].publishedAt.value <= onto.versions[v].publishedAt.value
  }

  // What the query for the newest published version may return.
  ghost predicate Answers(onto: Onto, parent: Option<Uuid>) {
    if parent.Some? then IsHead(onto, parent.value) else forall v :: !IsPublished(onto, v)
  }

  // ---------------------------------------------------------------- the handlers

  class Ontology {
    var status: OntologyStatus
    var version: Option<string>
    var classCount: nat
    var propertyCount: nat
    var live: Snapshot
    var violations: nat
    var versions: map<Uuid, Version>

    function State(): Onto
      reads this
    {
      Onto(status, version, classCount, propertyCount, live, violations, versions)
    }

    constructor ()
      ensures State() == Onto(DraftOntology, None, 0, 0, EMPTY, 0, map[])
    {
      status, version, classCount, propertyCount := DraftOntology, None, 0, 0;
      live, violations, versions := EMPTY, 0, map[];
    }

    method PublishOntology(id: Uuid, tag: string, summary: Option<string>, now: int) returns (refusal: Option<Refusal>)
      modifies this
      ensures Performs(old(State()), Publish(id, tag, summary, now), State(), refusal)
    {
      if status == PublishedOntology || status == ArchivedOntology {
        return Some(BadRequest);
      }
      if violations > 0 {
        return Some(Unprocessable);
      }
      if id in versions || TagTaken(State(), tag) {
        return Some(UniqueViolation);
      }
      versions := versions[id := Version(tag, PublishedVersion, Some(now), None, summary, live)];
      version := Some(tag);
      status := PublishedOntology;
      classCount := |live.classes|;
      propertyCount := |live.properties|;
      return None;
    }

    method CreateDraftVersion(id: Uuid, tagOrDefault: Option<string>, summary: Option<string>)
      returns (refusal: Option<Refusal>, parent: Option<Uuid>)
      modifies this`versions
      ensures Answers(old(State()), parent)
      ensures Performs(old(State()), CreateDraft(id, tagOrDefault, summary, parent), State(), refusal)
    {
      parent := None;
      if v :| v in versions && IsPublished(State(), v) {
        HeadExists(State(), versions.Keys, v);
        ghost var h :| HeadAmong(State(), versions.Keys, h);
        assert IsHead(State(), h);
        var head :| head in versions && IsHead(State(), head);
        parent := Some(head);
      }
      var tag := DraftTag(tagOrDefault);
      if id in versions || TagTaken(State(), tag) {
        return Some(UniqueViolation), parent;
      }
      var snapshot := if parent.Some? then versions[parent.value].snapshot else EMPTY;
      versions := versions[id := Version(tag, DraftVersion, None, parent, summary, snapshot)];
      return None, parent;
    }

    method UpdateVersionContent(id: Uuid, content: Content) returns (refusal: Option<Refusal>)
      modifies this`versions
      ensures Performs(old(State()), UpdateContent(id, content), State(), refusal)
    {
      if id !in versions {
        return Some(NotFound);
      }
      var v := versions[id];
      if v.status != DraftVersion {
        return Some(BadRequest);
      }
      if content.classes.Some? {
        v := v.(snapshot := v.snapshot.(classes := content.classes.value));
      }
      if content.properties.Some? {
        v := v.(snapshot := v.snapshot.(properties := content.properties.value));
      }
      if content.relations.Some? {
        v := v.(snapshot := v.snapshot.(relations := content.relations.value));
      }
      if content.constraints.Some? {
        v := v.(snapshot := v.snapshot.(constraints := content.constraints.value));
      }
      if content.summary.Some? {
        v := v.(summary := content.summary);
      }
      versions := versions[id := v];
      return None;
    }

    method PublishDraftVersion(id: Uuid, now: int) returns (refusal: Option<Refusal>)
      modifies this
      ensures Performs(old(State()), PublishDraft(id, now), State(), refusal)
    {
      if id !in versions {
        return Some(NotFound);
      }
      if versions[id].status != DraftVersion {
        return Some(BadRequest);
      }
      versions := versions[id := versions[id].(status := PublishedVersion, publishedAt := Some(now))];
      version := Some(versions[id].tag);
      status := PublishedOntology;
      classCount := |versions[id].snapshot.classes|;
      propertyCount := |versions[id].snapshot.properties|;
      return None;
    }
  }

  ghost predicate HeadAmong(onto: Onto, ids: set<Uuid>, h: Uuid) {
    && h in ids && IsPublished(onto, h)
    && forall u :: u in ids && IsPublished(onto, u) ==>
         onto.versions[u].publishedAt.value <= onto.versions[h].publishedAt.value
  }

  lemma {:induction false} HeadExists(onto: Onto, ids: set<Uuid>, v: Uuid)
    requires v in ids && IsPublished(onto, v)
    ensures exists h :: HeadAmong(onto, ids, h)
    decreases ids
  {
    if w :| w in ids && w != v && IsPublished(onto, w) {
      var vFirst := onto.versions[v].publishedAt.value <= onto.versions[w].publishedAt.value;
      var lesser, greater := if vFirst then v else w, if vFirst then w else v;
      HeadExists(onto, ids - {lesser}, greater);
      var h :| HeadAmong(onto, ids - {lesser}, h);
      assert HeadAmong(onto, ids, h);
    } else {
      assert HeadAmong(onto, ids, v);
    }
  }

  // ---------------------------------------------------------------- what every request keeps

  ghost predicate Sound(onto: Onto) {
    && (forall u, v :: u in onto.versions && v in onto.versions && u != v ==>
          onto.versions[u].tag != onto.versions[v].tag)
    && (forall v :: v in onto.versions ==>
          (onto.versions[v].status == PublishedVersion <==> onto.versions[v].publishedAt.Some?))
  }

  lemma StepKeepsSound(onto: Onto, e: Event)
    requires Sound(onto) && Step(onto, e).Ok?
    ensures Sound(Step(onto, e).value)
  {
  }

  // A published version never changes again: not its snapshot, its tag, its time or its status.
  lemma PublishedFrozen(onto: Onto, e: Event, v: Uuid)
    requires IsPublished(onto, v) && Step(onto, e).Ok?
    ensures v in Step(onto, e).value.versions && Step(onto, e).value.versions[v] == onto.versions[v]
  {
  }

  // The cached tag and counts are those of the head; a tie for the head would have to agree too.
  ghost predicate HeadAgrees(onto: Onto) {
    forall v :: IsHead(onto, v) ==>
      && onto.version == Some(onto.versions[v].tag)
      && onto.classCount == |onto.versions[v].snapshot.classes|
      && onto.propertyCount == |onto.versions[v].snapshot.properties|
  }

  predicate Publishes(e: Event) {
    e.Publish? || e.PublishDraft?
  }

  ghost predicate LaterThanAll(onto: Onto, now: int) {
    forall u :: IsPublished(onto, u) ==> onto.versions[u].publishedAt.value < now
  }

  lemma QuietStepKeepsHead(onto: Onto, e: Event)
    requires Sound(onto) && HeadAgrees(onto) && Step(onto, e).Ok? && !Publishes(e)
    ensures HeadAgrees(Step(onto, e).value)
  {
    var onto' := Step(onto, e).value;
    forall v
      ensures IsPublished(onto', v) <==> IsPublished(onto, v)
      ensures IsPublished(onto, v) ==> v in onto'.versions && onto'.versions[v] == onto.versions[v]
    {
    }
    forall v | IsHead(onto', v)
      ensures IsHead(onto, v)
    {
      forall u | IsPublished(onto, u)
        ensures onto.versions[u].publishedAt.value <= onto.versions[v].publishedAt.value
      {
        assert IsPublished(onto', u);
      }
    }
  }

  lemma AfterPublish(onto: Onto, e: Event, u: Uuid)
    requires Sound(onto) && Publishes(e) && Step(onto, e).Ok?
    ensures
      var onto' := Step(onto, e).value;
      && IsPublished(onto', e.id) && !IsPublished(onto, e.id)
      && onto'.versions[e.id].publishedAt == Some(e.now)
      && onto'.version == Some(onto'.versions[e.id].tag)
      && onto'.classCount == |onto'.versions[e.id].snapshot.classes|
      && onto'.propertyCount == |onto'.versions[e.id].snapshot.properties|
      && (u != e.id ==> (IsPublished(onto', u) <==> IsPublished(onto, u)))
      && (IsPublished(onto, u) ==> u in onto'.versions && onto'.versions[u] == onto.versions[u])
  {
  }

  lemma LaterPublishAgrees(onto: Onto, e: Event)
    requires Sound(onto) && Publishes(e) && Step(onto, e).Ok? && LaterThanAll(onto, e.now)
    ensures HeadAgrees(Step(onto, e).value)
  {
    hide Step, Sound;
    AfterPublish(onto, e, e.id);
    forall u {
      AfterPublish(onto, e, u);
    }
  }

  lemma EarlierPublishDisagrees(onto: Onto, e: Event)
    requires Sound(onto) && Publishes(e) && Step(onto, e).Ok? && !LaterThanAll(onto, e.now)
    ensures !HeadAgrees(Step(onto, e).value)
  {
    var onto' := Step(onto, e).value;
    StepKeepsSound(onto, e);
    hide Step;
    var u :| IsPublished(onto, u) && onto.versions[u].publishedAt.value >= e.now;
    AfterPublish(onto, e, u);
    HeadExists(onto', onto'.versions.Keys - {e.id}, u);
    var h :| HeadAmong(onto', onto'.versions.Keys - {e.id}, h);
    assert IsHead(onto', h);
    assert onto'.versions[h].tag != onto'.versions[e.id].tag;
  }

  // The clock premise is exact: right after a publish the cached head is the head if and only if
  // the clock read later than every earlier publication.
  lemma PublishAgreesIff(onto: Onto, e: Event)
    requires Sound(onto) && Publishes(e) && Step(onto, e).Ok?
    ensures HeadAgrees(Step(onto, e).value) <==> LaterThanAll(onto, e.now)
  {
    hide Step, Sound, HeadAgrees, LaterThanAll;
    if LaterThanAll(onto, e.now) {
      LaterPublishAgrees(onto, e);
    } else {
      EarlierPublishDisagrees(onto, e);
    }
  }

  // ---------------------------------------------------------------- whole runs

  // A fresh ontology, or a fork: whatever it caches, nothing is published yet.
  ghost predicate IsNew(onto: Onto) {
    Sound(onto) && forall v :: !IsPublished(onto, v)
  }

  ghost predicate IsRun(states: seq<Onto>, events: seq<Event>) {
    && |states| == |events| + 1
    && IsNew(states[0])
    && forall i :: 0 <= i < |events| ==>
         && states[i + 1] == After(states[i], events[i])
         && (events[i].CreateDraft? ==> Answers(states[i], events[i].parent))
  }

  ghost predicate ClockAdvances(states: seq<Onto>, events: seq<Event>)
    requires |states| == |events| + 1
  {
    forall i :: 0 <= i < |events| && Publishes(events[i]) && Step(states[i], events[i]).Ok? ==>
      LaterThanAll(states[i], events[i].now)
  }

  lemma StepKeepsHead(onto: Onto, e: Event)
    requires Sound(onto) && HeadAgrees(onto) && Step(onto, e).Ok?
    requires Publishes(e) ==> LaterThanAll(onto, e.now)
    ensures Sound(Step(onto, e).value) && HeadAgrees(Step(onto, e).value)
  {
    hide Step, Sound, HeadAgrees, LaterThanAll;
    StepKeepsSound(onto, e);
    if Publishes(e) {
      LaterPublishAgrees(onto, e);
    } else {
      QuietStepKeepsHead(onto, e);
    }
  }

  // In every reachable state, once anything is published, the cached tag and counts are those of
  // the version with the greatest publication time.
  lemma {:induction false} CachedHeadAgrees(states: seq<Onto>, events: seq<Event>, k: nat)
    requires IsRun(states, events) && ClockAdvances(states, events) && k < |states|
    ensures Sound(states[k]) && HeadAgrees(states[k])
  {
    if k == 0 {
      assert IsNew(states[0]);
    } else {
      var onto, e := states[k - 1], events[k - 1];
      assert Publishes(e) && Step(onto, e).Ok? ==> LaterThanAll(onto, e.now);
      assert states[k] == After(onto, e);
      CachedHeadAgrees(states, events, k - 1);
      hide Step, Sound, HeadAgrees, LaterThanAll, IsRun, ClockAdvances;
      if Step(onto, e).Ok? {
        StepKeepsHead(onto, e);
      }
    }
  }

  lemma {:induction false} PublishedForever(states: seq<Onto>, events: seq<Event>, i: nat, j: nat, v: Uuid)
    requires IsRun(states, events) && i <= j < |states| && IsPublished(states[i], v)
    ensures v in states[j].versions && states[j].versions[v] == states[i].versions[v]
    decreases j
  {
    if i == j {
    } else {
      PublishedForever(states, events, i, j - 1, v);
      if Step(states[j - 1], events[j - 1]).Ok? {
        PublishedFrozen(states[j - 1], events[j - 1], v);
      }
    }
  }

  // A draft just made carries the snapshot of the published head, so both diffs between the two
  // report nothing but unchanged; without a published version it is empty.
  lemma DraftStartsUnchanged(onto: Onto, e: Event)
    requires e.CreateDraft? && Step(onto, e).Ok? && Answers(onto, e.parent)
    ensures
      var draft := Step(onto, e).value.versions[e.id].snapshot;
      if e.parent.None? then draft == EMPTY
      else
        var head := onto.versions[e.parent.value].snapshot;
        && NothingChanged(FlatDiff(head, draft))
        && SectionUnchanged(SectionedDiff(head, draft).classes)
        && SectionUnchanged(SectionedDiff(head, draft).properties)
        && SectionUnchanged(SectionedDiff(head, draft).relations)
        && SectionUnchanged(SectionedDiff(head, draft).constraints)
  {
    var draft := Step(onto, e).value.versions[e.id].snapshot;
    SelfDiffUnchanged(draft);
    hide FlatDiff, SectionedDiff, NothingChanged, SectionUnchanged;
  }

  // ---------------------------------------------------------------- versions tell the history

  datatype Part = Classes | Properties | Relations | Constraints

  function PartOf(s: Snapshot, part: Part): seq<Item> {
    match part
    case Classes => s.classes
    case Properties => s.properties
    case Relations => s.relations
    case Constraints => s.constraints
  }

  function SentPart(c: Content, part: Part): Option<seq<Item>> {
    match part
    case Classes => c.classes
    case Properties => c.properties
    case Relations => c.relations
    case Constraints => c.constraints
  }

  datatype Column = Birth(id: Uuid) | PartColumn(id: Uuid, part: Part) | ChangeSummary(id: Uuid) | Publication(id: Uuid)

  predicate Makes(e: Event, v: Uuid) {
    (e.Publish? || e.CreateDraft?) && e.id == v
  }

  predicate Writes(c: Column, e: Event) {
    match c
    case Birth(v) => Makes(e, v)
    case PartColumn(v, part) => Makes(e, v) || (e.UpdateContent? && e.id == v && SentPart(e.content, part).Some?)
    case ChangeSummary(v) => Makes(e, v) || (e.UpdateContent? && e.id == v && e.content.summary.Some?)
    case Publication(v) => (e.Publish? || e.PublishDraft?) && e.id == v
  }

  // A request and the state it met.
  datatype Source = Source(onto: Onto, e: Event)

  function Newer(c: Column, onto: Onto, e: Event, before: Option<Source>): Option<Source> {
    if Writes(c, e) then Some(Source(onto, e)) else before
  }

  // The last accepted request before state k that wrote the column.
  ghost function LastWrite(states: seq<Onto>, events: seq<Event>, c: Column, k: nat): Option<Source>
    requires k <= |events| < |states|
  {
    if k == 0 then None
    else if Step(states[k - 1], events[k - 1]).Ok?
    then Newer(c, states[k - 1], events[k - 1], LastWrite(states, events, c, k - 1))
    else LastWrite(states, events, c, k - 1)
  }

  // `start` is the version the run began with, if it did.
  ghost predicate BirthIs(versions: map<Uuid, Version>, v: Uuid, start: Option<Version>, from: Option<Source>) {
    match from
    case Some(Source(_, Publish(_, tag, _, _))) =>
      v in versions && versions[v].tag == tag && versions[v].baselineOf == None
    case Some(Source(_, CreateDraft(_, tag, _, parent))) =>
      && v in versions && versions[v].baselineOf == parent
      && (if tag == None || tag == Some("") then versions[v].tag == "draft" else Some(versions[v].tag) == tag)
    case _ =>
      && (v in versions <==> start.Some?)
      && (v in versions ==> versions[v].tag == start.value.tag && versions[v].baselineOf == start.value.baselineOf)
  }

  // A section is the live one at a publish, the parent's at a drafting, or what an edit sent.
  ghost predicate SectionIs(version: Version, part: Part, start: Option<Version>, from: Option<Source>) {
    var items := PartOf(version.snapshot, part);
    match from
    case None => start.Some? && items == PartOf(start.value.snapshot, part)
    case Some(Source(onto, Publish(_, _, _, _))) => items == PartOf(onto.live, part)
    case Some(Source(onto, CreateDraft(_, _, _, None))) => items == []
    case Some(Source(onto, CreateDraft(_, _, _, Some(parent)))) =>
      parent in onto.versions && items == PartOf(onto.versions[parent].snapshot, part)
    case Some(Source(_, UpdateContent(_, content))) => SentPart(content, part) == Some(items)
    case _ => false
  }

  ghost predicate SummaryIs(version: Version, start: Option<Version>, from: Option<Source>) {
    match from
    case None => start.Some? && version.summary == start.value.summary
    case Some(Source(_, Publish(_, _, summary, _))) => version.summary == summary
    case Some(Source(_, CreateDraft(_, _, summary, _))) => version.summary == summary
    case Some(Source(_, UpdateContent(_, content))) => version.summary == content.summary
    case _ => false
  }

  ghost predicate PublicationIs(version: Version, start: Option<Version>, from: Option<Source>) {
    match from
    case Some(Source(_, Publish(_, _, _, now))) =>
      version.status == PublishedVersion && version.publishedAt == Some(now)
    case Some(Source(_, PublishDraft(_, now))) => version.status == PublishedVersion && version.publishedAt == Some(now)
    case _ =>
      if start.Some? then version.status == start.value.status && version.publishedAt == start.value.publishedAt
      else version.status == DraftVersion && version.publishedAt == None
  }

  // What is stored of version v, against the last requests about it.
  ghost predicate VersionTells(versions: map<Uuid, Version>, v: Uuid, start: Option<Version>, birth: Option<Source>,
                               part: Part, section: Option<Source>, summary: Option<Source>,
                               publication: Option<Source>) {
    && BirthIs(versions, v, start, birth)
    && (v in versions ==>
          && SectionIs(versions[v], part, start, section) && SummaryIs(versions[v], start, summary)
          && PublicationIs(versions[v], start, publication))
    && (v !in versions ==> start == None && publication == None)
  }

  lemma MakingTells(onto: Onto, e: Event, v: Uuid, part: Part, publication: Option<Source>)
    requires Step(onto, e).Ok? && Makes(e, v) && (e.CreateDraft? ==> Answers(onto, e.parent))
    requires publication == None
    ensures
      var from := Some(Source(onto, e));
      VersionTells(Step(onto, e).value.versions, v, None, from, part, from, from,
                   Newer(Publication(v), onto, e, publication))
  {
  }

  lemma OtherColumnsStay(onto: Onto, e: Event, v: Uuid, start: Option<Version>, part: Part)
    requires Step(onto, e).Ok? && !Makes(e, v)
    ensures
      var after := Step(onto, e).value.versions;
      && (v in after <==> v in onto.versions)
      && (v in after ==>
            && after[v].tag == onto.versions[v].tag && after[v].baselineOf == onto.versions[v].baselineOf
            && (if Writes(PartColumn(v, part), e) then SectionIs(after[v], part, start, Some(Source(onto, e)))
                else PartOf(after[v].snapshot, part) == PartOf(onto.versions[v].snapshot, part))
            && (if Writes(ChangeSummary(v), e) then SummaryIs(after[v], start, Some(Source(onto, e)))
                else after[v].summary == onto.versions[v].summary)
            && (if Writes(Publication(v), e) then PublicationIs(after[v], start, Some(Source(onto, e)))
                else after[v].status == onto.versions[v].status
                     && after[v].publishedAt == onto.versions[v].publishedAt))
      && (Writes(Publication(v), e) ==> v in onto.versions)
  {
  }

  lemma MakingIsNew(onto: Onto, e: Event, v: Uuid)
    requires Step(onto, e).Ok? && Makes(e, v)
    ensures v !in onto.versions
  {
  }

  lemma VersionTellsNext(onto: Onto, e: Event, v: Uuid, start: Option<Version>, birth: Option<Source>, part: Part,
                         section: Option<Source>, summary: Option<Source>, publication: Option<Source>)
    requires Step(onto, e).Ok? && (e.CreateDraft? ==> Answers(onto, e.parent))
    requires VersionTells(onto.versions, v, start, birth, part, section, summary, publication)
    ensures VersionTells(Step(onto, e).value.versions, v, start, Newer(Birth(v), onto, e, birth), part,
                         Newer(PartColumn(v, part), onto, e, section), Newer(ChangeSummary(v), onto, e, summary),
                         Newer(Publication(v), onto, e, publication))
  {
    if Makes(e, v) {
      MakingIsNew(onto, e, v);
      MakingTells(onto, e, v, part, publication);
    } else {
      OtherColumnsStay(onto, e, v, start, part);
    }
    hide Step, Answers;
  }

  function VersionAt(onto: Onto, v: Uuid): Option<Version> {
    if v in onto.versions then Some(onto.versions[v]) else None
  }

  // In every reachable state, for every version and every section of its snapshot: the section is
  // the live one of the state in which the version was published, or, for a drafted version, what
  // the last edit sent that sent this section, and before any such edit the section of the head the
  // draft was made from. Tag, parent, summary and publication are what their last requests said.
  lemma {:induction false} VersionsTellHistory(states: seq<Onto>, events: seq<Event>, k: nat, v: Uuid, part: Part)
    requires IsRun(states, events) && k < |states|
    ensures VersionTells(states[k].versions, v, VersionAt(states[0], v),
                         LastWrite(states, events, Birth(v), k), part,
                         LastWrite(states, events, PartColumn(v, part), k),
                         LastWrite(states, events, ChangeSummary(v), k), LastWrite(states, events, Publication(v), k))
  {
    if k == 0 {
    } else {
      VersionsTellHistory(states, events, k - 1, v, part);
      var onto, e := states[k - 1], events[k - 1];
      assert states[k] == After(onto, e) && (e.CreateDraft? ==> Answers(onto, e.parent));
      hide Step, IsRun, VersionTells, Answers, Newer;
      if Step(onto, e).Ok? {
        VersionTellsNext(onto, e, v, VersionAt(states[0], v),
                         LastWrite(states, events, Birth(v), k - 1), part,
                         LastWrite(states, events, PartColumn(v, part), k - 1),
                         LastWrite(states, events, ChangeSummary(v), k - 1),
                         LastWrite(states, events, Publication(v), k - 1));
      }
    }
  }

  // ---------------------------------------------------------------- publishing

  lemma SameParts(s: Snapshot, t: Snapshot)
    requires forall part :: PartOf(s, part) == PartOf(t, part)
    ensures s == t
  {
    assert PartOf(s, Classes) == PartOf(t, Classes) && PartOf(s, Properties) == PartOf(t, Properties);
    assert PartOf(s, Relations) == PartOf(t, Relations) && PartOf(s, Constraints) == PartOf(t, Constraints);
  }

  lemma PublishStoresLive(onto: Onto, e: Event)
    requires e.Publish? && Step(onto, e).Ok?
    ensures
      var after := Step(onto, e).value;
      && IsPublished(after, e.id) && after.versions[e.id].snapshot == onto.live && after.live == onto.live
      && after.version == Some(e.tag) && after.status == PublishedOntology
      && after.classCount == |onto.live.classes| && after.propertyCount == |onto.live.properties|
  {
  }

  // From a publish on, for good: the version holds the rows as they were, both diffs between those
  // rows and the version are unchanged throughout, and right after it so is the cached head.
  lemma PublishedRowsStay(states: seq<Onto>, events: seq<Event>, i: nat, j: nat)
    requires IsRun(states, events) && i < j < |states| && events[i].Publish? && Step(states[i], events[i]).Ok?
    ensures events[i].id in states[j].versions
    ensures
      var live, snapshot := states[i].live, states[j].versions[events[i].id].snapshot;
      && snapshot == live && NothingChanged(FlatDiff(live, snapshot))
      && SectionUnchanged(SectionedDiff(live, snapshot).classes)
      && SectionUnchanged(SectionedDiff(live, snapshot).properties)
      && SectionUnchanged(SectionedDiff(live, snapshot).relations)
      && SectionUnchanged(SectionedDiff(live, snapshot).constraints)
    ensures
      var next := states[i + 1];
      && next.version == Some(events[i].tag) && next.status == PublishedOntology
      && next.classCount == |states[i].live.classes| && next.propertyCount == |states[i].live.properties|
  {
    assert states[i + 1] == After(states[i], events[i]);
    PublishStoresLive(states[i], events[i]);
    PublishedForever(states, events, i + 1, j, events[i].id);
    SelfDiffUnchanged(states[i].live);
    hide FlatDiff, SectionedDiff, NothingChanged, SectionUnchanged;
  }

  lemma DraftStep(onto: Onto, draft: Event, edit: Event, publish: Event)
    requires draft.CreateDraft? && draft.id !in onto.versions && !TagTaken(onto, DraftTag(draft.tagOrDefault))
    requires edit.UpdateContent? && publish.PublishDraft? && draft.id == edit.id == publish.id
    ensures Step(onto, draft).Ok? && Step(After(onto, draft), edit).Ok?
    ensures Step(After(After(onto, draft), edit), publish).Ok?
    ensures
      var edited, after := After(After(onto, draft), edit), After(After(After(onto, draft), edit), publish);
      && draft.id in edited.versions && IsPublished(after, draft.id)
      && after.versions[draft.id].snapshot == edited.versions[draft.id].snapshot
      && after.version == Some(after.versions[draft.id].tag) && after.status == PublishedOntology
      && after.classCount == |after.versions[draft.id].snapshot.classes|
      && after.propertyCount == |after.versions[draft.id].snapshot.properties|
      && forall part :: SentPart(edit.content, part).Some? ==>
           PartOf(after.versions[draft.id].snapshot, part) == SentPart(edit.content, part).value
  {
  }

  // From every reachable state a draft with a new id and an unused tag can be made, edited and
  // published, whatever the status of the ontology; what the edit sent is what gets published.
  lemma DraftGoesThrough(states: seq<Onto>, events: seq<Event>, k: nat)
    requires IsRun(states, events) && k + 2 < |events|
    requires events[k].CreateDraft? && events[k + 1].UpdateContent? && events[k + 2].PublishDraft?
    requires events[k].id == events[k + 1].id == events[k + 2].id && events[k].id !in states[k].versions
    requires !TagTaken(states[k], DraftTag(events[k].tagOrDefault))
    ensures forall i :: k <= i <= k + 2 ==> Step(states[i], events[i]).Ok?
    ensures
      var id, after := events[k].id, states[k + 3];
      && IsPublished(after, id) && after.status == PublishedOntology
      && after.version == Some(after.versions[id].tag)
      && after.classCount == |after.versions[id].snapshot.classes|
      && after.propertyCount == |after.versions[id].snapshot.properties|
      && forall part :: SentPart(events[k + 1].content, part).Some? ==>
           PartOf(after.versions[id].snapshot, part) == SentPart(events[k + 1].content, part).value
  {
    assert states[k + 1] == After(states[k], events[k]);
    assert states[k + 1 + 1] == After(states[k + 1], events[k + 1]);
    assert states[k + 2 + 1] == After(states[k + 2], events[k + 2]);
    hide Step, IsRun, After;
    DraftStep(states[k], events[k], events[k + 1], events[k + 2]);
  }

  // The live rows are published only while the ontology is open and nothing violates, and never
  // twice without a change of status in between.
  lemma PublishesOnce(states: seq<Onto>, events: seq<Event>, i: nat, j: nat)
    requires IsRun(states, events) && i < j < |events| && events[i].Publish? && Step(states[i], events[i]).Ok?
    requires forall q :: i < q < j ==> !events[q].SetStatus?
    ensures events[j].Publish? ==> Step(states[j], events[j]).Refused?
    ensures states[i].status in {DraftOntology, DeprecatedOntology} && states[i].violations == 0
  {
    assert states[i + 1] == After(states[i], events[i]);
    StaysPublished(states, events, i + 1, j);
  }

  lemma {:induction false} StaysPublished(states: seq<Onto>, events: seq<Event>, i: nat, j: nat)
    requires IsRun(states, events) && i <= j < |states| && states[i].status == PublishedOntology
    requires forall q :: i <= q < j ==> !events[q].SetStatus?
    ensures states[j].status == PublishedOntology
    decreases j
  {
    if i == j {
    } else {
      StaysPublished(states, events, i, j - 1);
      assert states[j] == After(states[j - 1], events[j - 1]);
    }
  }

  // In any state: what opens the publish of the live rows.
  lemma PublishOpenIff(onto: Onto, e: Event)
    requires e.Publish?
    ensures Step(onto, e).Ok? <==>
            && onto.status in {DraftOntology, DeprecatedOntology} && onto.violations == 0 && e.id !in onto.versions
            && forall v :: v in onto.versions ==> onto.versions[v].tag != e.tag
  {
  }
}
