// The change-request review protocol: six statuses, a reviewer list with votes, a quorum, two
// approval paths, and reviewers who come and go while others vote.
module ChangeReview {
  import opened Common

  datatype Status = Draft | Submitted | ChangesRequested | Approved | Merged | Closed

  datatype Vote = Pending | Approving | RequestingChanges

  datatype Reviewer = Reviewer(id: Uuid, name: Option<string>, vote: Vote, reviewedAt: Option<int>,
                               comment: Option<string>)

  datatype CR = CR(
    status: Status,
    required: int,
    reviewers: seq<Reviewer>,
    submittedBy: Option<Uuid>,
    submittedAt: Option<int>,
    reviewedBy: Option<Uuid>,
    reviewedAt: Option<int>,
    reviewNotes: Option<string>,
    approvedBy: Option<Uuid>,
    approvedAt: Option<int>,
    mergedBy: Option<Uuid>,
    mergedAt: Option<int>,
    closedBy: Option<Uuid>,
    closedAt: Option<int>,
    closeReason: Option<string>)

  // One request against the CR; `at` is the handler's clock reading. An update carries the fields
  // the request set, possibly to null.
  datatype Event =
    | Update(newRequired: Option<Option<int>>, newNotes: Option<Option<string>>)
    | Submit(actor: Option<Uuid>, at: int)
    | Approve(actor: Option<Uuid>, at: int)
    | Reject(actor: Option<Uuid>, at: int, notes: Option<string>)
    | Close(actor: Option<Uuid>, at: int, reason: Option<string>)
    | Merge(actor: Option<Uuid>, at: int)
    | Assign(rid: Uuid, name: Option<string>)
    | VoteApprove(rid: Uuid, at: int, comment: Option<string>)
    | VoteReject(rid: Uuid, at: int, comment: Option<string>)
    | Remove(rid: Uuid)

  // ---------------------------------------------------------------- the protocol

  function NewReviewers(ids: seq<Uuid>): seq<Reviewer> {
    seq(|ids|, i requires 0 <= i < |ids| => Reviewer(ids[i], None, Pending, None, None))
  }

  function NewCR(required: int, ids: seq<Uuid>): CR {
    CR(Draft, required, NewReviewers(ids), None, None, None, None, None, None, None, None, None, None, None, None)
  }

  function ApprovedCount(reviewers: seq<Reviewer>): nat {
    if reviewers == [] then 0
    else ApprovedCount(reviewers[..|reviewers| - 1]) + if reviewers[|reviewers| - 1].vote == Approving then 1 else 0
  }

  predicate ChangesRequestedExists(reviewers: seq<Reviewer>) {
    exists i :: 0 <= i < |reviewers| && reviewers[i].vote == RequestingChanges
  }

  function Find(reviewers: seq<Reviewer>, rid: Uuid): (r: Option<nat>)
    ensures r.Some? ==> r.value < |reviewers| && reviewers[r.value].id == rid
    ensures r.None? ==> forall i :: 0 <= i < |reviewers| ==> reviewers[i].id != rid
  {
    if reviewers == [] then None
    else if reviewers[|reviewers| - 1].id == rid then Some(|reviewers| - 1)
    else Find(reviewers[..|reviewers| - 1], rid)
  }

  function ResetVotes(reviewers: seq<Reviewer>): seq<Reviewer> {
    seq(|reviewers|, i requires 0 <= i < |reviewers| =>
      reviewers[i].(vote := Pending, reviewedAt := None, comment := None))
  }

  function CastVote(r: Reviewer, vote: Vote, at: int, comment: Option<string>): Reviewer {
    r.(vote := vote, reviewedAt := Some(at), comment := if comment.Some? then comment else r.comment)
  }

  // A threshold of zero or less approves at once; otherwise the count has to reach it.
  function MaybeAutoMerge(cr: CR, at: int): CR {
    if cr.required <= 0 then cr.(status := Approved, approvedAt := Some(at))
    else if cr.status != Submitted then cr
    else if ApprovedCount(cr.reviewers) >= cr.required then cr.(status := Approved, approvedAt := Some(at))
    else cr
  }

  function Step(cr: CR, e: Event): Result<CR> {
    match e
    case Update(newRequired, newNotes) =>
      if cr.status == Merged then Refused(BadRequest)
      else if newRequired == Some(None) then Refused(NullViolation)
      else Ok(cr.(required := if newRequired.Some? then newRequired.value.value else cr.required,
                  reviewNotes := if newNotes.Some? then newNotes.value else cr.reviewNotes))
    case Submit(actor, at) =>
      if cr.status != Draft && cr.status != ChangesRequested then Refused(BadRequest)
      else Ok(cr.(status := Submitted, submittedBy := actor, submittedAt := Some(at),
                  reviewers := ResetVotes(cr.reviewers)))
    case Approve(actor, at) =>
      if cr.status != Submitted then Refused(BadRequest)
      else if cr.required > 1 && cr.reviewers != [] then Refused(BadRequest)
      else Ok(cr.(status := Approved, approvedBy := actor, approvedAt := Some(at)))
    case Reject(actor, at, notes) =>
      if cr.status != Submitted then Refused(BadRequest)
      else Ok(cr.(status := ChangesRequested, reviewedBy := actor, reviewedAt := Some(at),
                  reviewNotes := if notes.Some? && notes.value != "" then notes else cr.reviewNotes))
    case Close(actor, at, reason) =>
      if cr.status == Merged || cr.status == Closed then Refused(BadRequest)
      else Ok(cr.(status := Closed, closedAt := Some(at), closedBy := actor, closeReason := reason))
    case Merge(actor, at) =>
      if cr.status != Approved then Refused(BadRequest)
      else Ok(cr.(status := Merged, mergedAt := Some(at), mergedBy := actor))
    case Assign(rid, name) =>
      if cr.status == Merged || cr.status == Closed then Refused(BadRequest)
      else if Find(cr.reviewers, rid).Some? then Refused(Conflict)
      else Ok(cr.(reviewers := cr.reviewers + [Reviewer(rid, name, Pending, None, None)]))
    case VoteApprove(rid, at, comment) =>
      if cr.status != Submitted then Refused(BadRequest)
      else
        var i := Find(cr.reviewers, rid);
        if i.None? then Refused(NotFound)
        else
          var vote := CastVote(cr.reviewers[i.value], Approving, at, comment);
          var voted := cr.(reviewers := cr.reviewers[i.value := vote]);
          var merged := MaybeAutoMerge(voted, at);
          Ok(if merged.status == Approved && merged.approvedBy.None? then merged.(approvedBy := Some(rid)) else merged)
    case VoteReject(rid, at, comment) =>
      if cr.status != Submitted then Refused(BadRequest)
      else
        var i := Find(cr.reviewers, rid);
        if i.None? then Refused(NotFound)
        else
          var vote := CastVote(cr.reviewers[i.value], RequestingChanges, at, comment);
          var voted := cr.(reviewers := cr.reviewers[i.value := vote]);
          Ok(if ChangesRequestedExists(voted.reviewers)
             then voted.(status := ChangesRequested, reviewedBy := Some(rid), reviewedAt := Some(at)) else voted)
    case Remove(rid) =>
      if cr.status == Approved then Refused(BadRequest)
      else
        var i := Find(cr.reviewers, rid);
        if i.None? then Refused(NotFound)
        else Ok(cr.(reviewers := cr.reviewers[..i.value] + cr.reviewers[i.value + 1..]))
  }

  function After(cr: CR, e: Event): CR {
    match Step(cr, e)
    case Ok(cr') => cr'
    case Refused(_) => cr
  }

  // What a handler has to do: the step, or nothing and the refusal.
  ghost predicate Performs(before: CR, e: Event, after: CR, refusal: Option<Refusal>) {
    match Step(before, e)
    case Ok(cr) => after == cr && refusal == None
    case Refused(reason) => after == before && refusal == Some(reason)
  }

  // ---------------------------------------------------------------- the handlers

  class ChangeRequest {
    var status: Status
    var required: int
    var reviewers: seq<Reviewer>
    var submittedBy: Option<Uuid>
    var submittedAt: Option<int>
    var reviewedBy: Option<Uuid>
    var reviewedAt: Option<int>
    var reviewNotes: Option<string>
    var approvedBy: Option<Uuid>
    var approvedAt: Option<int>
    var mergedBy: Option<Uuid>
    var mergedAt: Option<int>
    var closedBy: Option<Uuid>
    var closedAt: Option<int>
    var closeReason: Option<string>

    ghost function State(): CR
      reads this
    {
      CR(status, required, reviewers, submittedBy, submittedAt, reviewedBy, reviewedAt, reviewNotes,
         approvedBy, approvedAt, mergedBy, mergedAt, closedBy, closedAt, closeReason)
    }

    constructor (required: int)
      ensures State() == NewCR(required, [])
    {
      this.status, this.required, this.reviewers := Draft, required, [];
      this.submittedBy, this.submittedAt := None, None;
      this.reviewedBy, this.reviewedAt, this.reviewNotes := None, None, None;
      this.approvedBy, this.approvedAt := None, None;
      this.mergedBy, this.mergedAt := None, None;
      this.closedBy, this.closedAt, this.closeReason := None, None, None;
    }

    // A repeated reviewer id violates the unique constraint and aborts the request.
    static method Create(required: int, reviewerIds: seq<Uuid>) returns (cr: ChangeRequest?)
      ensures cr == null <==> !Distinct(reviewerIds)
      ensures cr != null ==> fresh(cr) && cr.State() == NewCR(required, reviewerIds)
    {
      var draft := new ChangeRequest(required);
      for n := 0 to |reviewerIds|
        invariant draft.State() == NewCR(required, reviewerIds[..n])
        invariant Distinct(reviewerIds[..n])
      {
        if exists m :: 0 <= m < n && reviewerIds[m] == reviewerIds[n] {
          return null;
        }
        assert reviewerIds[..n + 1] == reviewerIds[..n] + [reviewerIds[n]];
        assert forall m :: 0 <= m < n ==> reviewerIds[..n][m] == reviewerIds[m] != reviewerIds[n];
        draft.reviewers := draft.reviewers + [Reviewer(reviewerIds[n], None, Pending, None, None)];
      }
      assert reviewerIds[..|reviewerIds|] == reviewerIds;
      return draft;
    }

    // The threshold column takes no null, which undoes the request.
    method UpdateRequest(newRequired: Option<Option<int>>, newNotes: Option<Option<string>>)
      returns (refusal: Option<Refusal>)
      modifies this
      ensures Performs(old(State()), Update(newRequired, newNotes), State(), refusal)
    {
      if status == Merged {
        return Some(BadRequest);
      }
      if newRequired == Some(None) {
        return Some(NullViolation);
      }
      if newRequired.Some? {
        required := newRequired.value.value;
      }
      if newNotes.Some? {
        reviewNotes := newNotes.value;
      }
      return None;
    }

    method SubmitRequest(actor: Option<Uuid>, at: int) returns (refusal: Option<Refusal>)
      modifies this
      ensures Performs(old(State()), Submit(actor, at), State(), refusal)
    {
      if status != Draft && status != ChangesRequested {
        return Some(BadRequest);
      }
      status := Submitted;
      submittedBy := actor;
      submittedAt := Some(at);
      ghost var before := reviewers;
      for n := 0 to |reviewers|
        modifies this`reviewers
        invariant |reviewers| == |before|
        invariant forall i :: 0 <= i < n ==> reviewers[i] == ResetVotes(before)[i]
        invariant forall i :: n <= i < |before| ==> reviewers[i] == before[i]
      {
        reviewers := reviewers[n := reviewers[n].(vote := Pending, reviewedAt := None, comment := None)];
      }
      assert reviewers == ResetVotes(before);
      return None;
    }

    method ApproveRequest(actor: Option<Uuid>, at: int) returns (refusal: Option<Refusal>)
      modifies this
      ensures Performs(old(State()), Approve(actor, at), State(), refusal)
    {
      if status != Submitted {
        return Some(BadRequest);
      }
      if required > 1 && reviewers != [] {
        return Some(BadRequest);
      }
      status := Approved;
      approvedBy := actor;
      approvedAt := Some(at);
      return None;
    }

    method RejectRequest(actor: Option<Uuid>, at: int, notes: Option<string>) returns (refusal: Option<Refusal>)
      modifies this
      ensures Performs(old(State()), Reject(actor, at, notes), State(), refusal)
    {
      if status != Submitted {
        return Some(BadRequest);
      }
      status := ChangesRequested;
      reviewedBy := actor;
      reviewedAt := Some(at);
      if notes.Some? && notes.value != "" {
        reviewNotes := notes;
      }
      return None;
    }

    method CloseRequest(actor: Option<Uuid>, at: int, reason: Option<string>) returns (refusal: Option<Refusal>)
      modifies this
      ensures Performs(old(State()), Close(actor, at, reason), State(), refusal)
    {
      if status == Merged || status == Closed {
        return Some(BadRequest);
      }
      status := Closed;
      closedAt := Some(at);
      closedBy := actor;
      closeReason := reason;
      return None;
    }

    method MergeRequest(actor: Option<Uuid>, at: int) returns (refusal: Option<Refusal>)
      modifies this
      ensures Performs(old(State()), Merge(actor, at), State(), refusal)
    {
      if status != Approved {
        return Some(BadRequest);
      }
      status := Merged;
      mergedAt := Some(at);
      mergedBy := actor;
      return None;
    }

    method AssignReviewer(rid: Uuid, name: Option<string>) returns (refusal: Option<Refusal>)
      modifies this
      ensures Performs(old(State()), Assign(rid, name), State(), refusal)
    {
      if status == Merged || status == Closed {
        return Some(BadRequest);
      }
      if Find(reviewers, rid).Some? {
        return Some(Conflict);
      }
      reviewers := reviewers + [Reviewer(rid, name, Pending, None, None)];
      return None;
    }

    method AutoMerge(at: int)
      modifies this
      ensures State() == MaybeAutoMerge(old(State()), at)
    {
      if required <= 0 {
        status := Approved;
        approvedAt := Some(at);
        return;
      }
      if status != Submitted {
        return;
      }
      if ApprovedCount(reviewers) >= required {
        status := Approved;
        approvedAt := Some(at);
      }
    }

    method ReviewerApprove(rid: Uuid, at: int, comment: Option<string>) returns (refusal: Option<Refusal>)
      modifies this
      ensures Performs(old(State()), VoteApprove(rid, at, comment), State(), refusal)
    {
      if status != Submitted {
        return Some(BadRequest);
      }
      var i := Find(reviewers, rid);
      if i.None? {
        return Some(NotFound);
      }
      reviewers := reviewers[i.value := CastVote(reviewers[i.value], Approving, at, comment)];
      AutoMerge(at);
      if status == Approved && approvedBy.None? {
        approvedBy := Some(rid);
      }
      return None;
    }

    method ReviewerReject(rid: Uuid, at: int, comment: Option<string>) returns (refusal: Option<Refusal>)
      modifies this
      ensures Performs(old(State()), VoteReject(rid, at, comment), State(), refusal)
    {
      if status != Submitted {
        return Some(BadRequest);
      }
      var i := Find(reviewers, rid);
      if i.None? {
        return Some(NotFound);
      }
      reviewers := reviewers[i.value := CastVote(reviewers[i.value], RequestingChanges, at, comment)];
      if ChangesRequestedExists(reviewers) {
        status := ChangesRequested;
        reviewedBy := Some(rid);
        reviewedAt := Some(at);
      }
      return None;
    }

    method RemoveReviewer(rid: Uuid) returns (refusal: Option<Refusal>)
      modifies this
      ensures Performs(old(State()), Remove(rid), State(), refusal)
    {
      if status == Approved {
        return Some(BadRequest);
      }
      var i := Find(reviewers, rid);
      if i.None? {
        return Some(NotFound);
      }
      reviewers := reviewers[..i.value] + reviewers[i.value + 1..];
      return None;
    }
  }

  // ---------------------------------------------------------------- what every request keeps

  ghost predicate DistinctReviewers(reviewers: seq<Reviewer>) {
    forall i, j :: 0 <= i < j < |reviewers| ==> reviewers[i].id != reviewers[j].id
  }

  ghost predicate Stamps(cr: CR) {
    && (cr.mergedAt.Some? <==> cr.status == Merged)
    && (cr.closedAt.Some? <==> cr.status == Closed)
    && (cr.status in {Approved, Merged} ==> cr.approvedAt.Some?)
    && (cr.approvedAt.Some? ==> cr.status in {Approved, Merged, Closed})
    && (cr.approvedBy.Some? ==> cr.approvedAt.Some?)
    && (cr.status != Draft && cr.status != Closed ==> cr.submittedAt.Some?)
  }

  ghost predicate Inv(cr: CR) {
    && DistinctReviewers(cr.reviewers)
    && (cr.status == Draft ==> VotesWithin(cr.reviewers, {Pending}))
    && (cr.status in {Submitted, Approved, Merged} ==> VotesWithin(cr.reviewers, {Pending, Approving}))
    && Stamps(cr)
  }

  lemma RemovalKeepsReviewers(reviewers: seq<Reviewer>, i: nat)
    requires DistinctReviewers(reviewers) && i < |reviewers|
    ensures DistinctReviewers(reviewers[..i] + reviewers[i + 1..])
    ensures forall r :: r in reviewers[..i] + reviewers[i + 1..] ==> r in reviewers
  {
  }

  lemma ReviewersStayDistinct(cr: CR, e: Event)
    requires DistinctReviewers(cr.reviewers) && Step(cr, e).Ok?
    ensures DistinctReviewers(Step(cr, e).value.reviewers)
  {
    if e.Remove? {
      RemovalKeepsReviewers(cr.reviewers, Find(cr.reviewers, e.rid).value);
    }
  }

  ghost predicate VotesWithin(reviewers: seq<Reviewer>, votes: set<Vote>) {
    forall i :: 0 <= i < |reviewers| ==> reviewers[i].vote in votes
  }

  lemma VotesAfterStep(cr: CR, e: Event, votes: set<Vote>)
    requires DistinctReviewers(cr.reviewers) && Step(cr, e).Ok? && Pending in votes
    requires e.Submit? || VotesWithin(cr.reviewers, votes)
    requires e.VoteApprove? ==> Approving in votes
    requires e.VoteReject? ==> RequestingChanges in votes
    ensures VotesWithin(Step(cr, e).value.reviewers, votes)
  {
    if e.Remove? {
      var i := Find(cr.reviewers, e.rid).value;
      RemovalKeepsReviewers(cr.reviewers, i);
    }
  }

  lemma RejectionMovesStatus(cr: CR, e: Event)
    requires e.VoteReject? && Step(cr, e).Ok?
    ensures Step(cr, e).value.status == ChangesRequested
  {
    var i := Find(cr.reviewers, e.rid).value;
    var voted := cr.reviewers[i := CastVote(cr.reviewers[i], RequestingChanges, e.at, e.comment)];
    assert voted[i].vote == RequestingChanges;
  }

  lemma StatusAfterStep(cr: CR, e: Event)
    requires Step(cr, e).Ok?
    ensures
      var cr' := Step(cr, e).value;
      && (cr'.status == Draft ==> cr.status == Draft && !e.VoteApprove? && !e.VoteReject?)
      && (cr'.status in {Submitted, Approved, Merged} ==>
            !e.VoteReject? && (e.Submit? || cr.status in {Submitted, Approved, Merged}))
  {
    if e.VoteReject? {
      RejectionMovesStatus(cr, e);
    }
  }

  lemma StampsAfterStep(cr: CR, e: Event)
    requires Step(cr, e).Ok? && Stamps(cr)
    ensures Stamps(Step(cr, e).value)
  {
  }

  lemma StepKeepsInv(cr: CR, e: Event)
    requires Inv(cr) && Step(cr, e).Ok?
    ensures Inv(Step(cr, e).value)
  {
    hide Step;
    var cr' := Step(cr, e).value;
    ReviewersStayDistinct(cr, e);
    StatusAfterStep(cr, e);
    StampsAfterStep(cr, e);
    if cr'.status == Draft {
      VotesAfterStep(cr, e, {Pending});
    }
    if cr'.status in {Submitted, Approved, Merged} {
      VotesAfterStep(cr, e, {Pending, Approving});
    }
  }

  ghost function ApprovedIds(reviewers: seq<Reviewer>): set<Uuid> {
    set r | r in reviewers && r.vote == Approving :: r.id
  }

  lemma {:induction false} CountIsCardinality(reviewers: seq<Reviewer>)
    requires DistinctReviewers(reviewers)
    ensures ApprovedCount(reviewers) == |ApprovedIds(reviewers)|
  {
    if reviewers == [] {
    } else {
      var front, last := reviewers[..|reviewers| - 1], reviewers[|reviewers| - 1];
      CountIsCardinality(front);
      assert reviewers == front + [last];
      if last.vote == Approving {
        assert ApprovedIds(reviewers) == ApprovedIds(front) + {last.id};
        assert last.id !in ApprovedIds(front);
      } else {
        assert ApprovedIds(reviewers) == ApprovedIds(front);
      }
    }
  }

  lemma IdsAfterVote(reviewers: seq<Reviewer>, i: nat, r': Reviewer)
    requires DistinctReviewers(reviewers) && i < |reviewers| && r'.id == reviewers[i].id
    ensures ApprovedIds(reviewers[i := r']) ==
            if r'.vote == Approving then ApprovedIds(reviewers) + {r'.id} else ApprovedIds(reviewers) - {r'.id}
  {
    var after := reviewers[i := r'];
    assert after[i] == r';
    forall k | 0 <= k < |reviewers| && k != i
      ensures reviewers[k] in after && after[k] in reviewers && reviewers[k].id != r'.id
    {
      assert after[k] == reviewers[k];
    }
  }

  lemma IdsAfterRemoval(reviewers: seq<Reviewer>, i: nat)
    requires DistinctReviewers(reviewers) && i < |reviewers|
    ensures ApprovedIds(reviewers[..i] + reviewers[i + 1..]) == ApprovedIds(reviewers) - {reviewers[i].id}
  {
  }

  // How one accepted request changes the set of approving reviewers.
  ghost function IdsAfter(ids: set<Uuid>, e: Event): set<Uuid> {
    match e
    case Submit(_, _) => {}
    case VoteApprove(rid, _, _) => ids + {rid}
    case VoteReject(rid, _, _) => ids - {rid}
    case Remove(rid) => ids - {rid}
    case _ => ids
  }

  lemma StepChangesIds(cr: CR, e: Event)
    requires Inv(cr) && Step(cr, e).Ok?
    ensures ApprovedIds(Step(cr, e).value.reviewers) == IdsAfter(ApprovedIds(cr.reviewers), e)
  {
    match e
    case VoteApprove(rid, at, comment) =>
      var i := Find(cr.reviewers, rid).value;
      IdsAfterVote(cr.reviewers, i, CastVote(cr.reviewers[i], Approving, at, comment));
    case VoteReject(rid, at, comment) =>
      var i := Find(cr.reviewers, rid).value;
      IdsAfterVote(cr.reviewers, i, CastVote(cr.reviewers[i], RequestingChanges, at, comment));
    case Remove(rid) =>
      IdsAfterRemoval(cr.reviewers, Find(cr.reviewers, rid).value);
    case Submit(_, _) =>
    case _ =>
  }

  // ---------------------------------------------------------------- whole runs

  ghost predicate IsNew(cr: CR) {
    exists ids: seq<Uuid> :: Distinct(ids) && cr == NewCR(cr.required, ids)
  }

  // states[i] is the CR before request i; a refused request leaves it as it is.
  ghost predicate IsRun(states: seq<CR>, events: seq<Event>) {
    && |states| == |events| + 1
    && IsNew(states[0])
    && forall i :: 0 <= i < |events| ==> states[i + 1] == After(states[i], events[i])
  }

  ghost predicate Accepted(states: seq<CR>, events: seq<Event>, i: nat)
    requires i < |events| <= |states|
  {
    Step(states[i], events[i]).Ok?
  }

  lemma {:induction false} RunKeepsInv(states: seq<CR>, events: seq<Event>, k: nat)
    requires IsRun(states, events) && k < |states|
    ensures Inv(states[k])
  {
    if k == 0 {
    } else {
      RunKeepsInv(states, events, k - 1);
      if Accepted(states, events, k - 1) {
        StepKeepsInv(states[k - 1], events[k - 1]);
      }
    }
  }

  function Phase(s: Status): nat {
    match s
    case Draft => 0
    case Submitted => 1
    case ChangesRequested => 1
    case Approved => 2
    case Merged => 3
    case Closed => 3
  }

  lemma {:induction false} PhaseGrows(states: seq<CR>, events: seq<Event>, i: nat, j: nat)
    requires IsRun(states, events) && i <= j < |states|
    ensures Phase(states[i].status) <= Phase(states[j].status)
    ensures Phase(states[i].status) == 3 ==> states[j].status == states[i].status
    decreases j
  {
    if i == j {
    } else {
      PhaseGrows(states, events, i, j - 1);
    }
  }

  ghost predicate Enters(states: seq<CR>, i: nat, s: Status)
    requires i + 1 < |states|
  {
    states[i].status != s && states[i + 1].status == s
  }

  // MERGED and CLOSED are never left, and a CR is approved at most once and merged at most once.
  lemma FinalAndOnce(states: seq<CR>, events: seq<Event>, i: nat, j: nat)
    requires IsRun(states, events) && i < j < |events|
    ensures states[i].status in {Merged, Closed} ==> states[j].status == states[i].status
    ensures !(Enters(states, i, Approved) && Enters(states, j, Approved))
    ensures !(Enters(states, i, Merged) && Enters(states, j, Merged))
  {
    PhaseGrows(states, events, i, j);
    PhaseGrows(states, events, i + 1, j);
    assert states[j + 1] == After(states[j], events[j]);
  }

  // The last time a status was entered, and that it was held ever since.
  lemma {:induction false} EntryOf(states: seq<CR>, events: seq<Event>, k: nat) returns (i: nat)
    requires IsRun(states, events) && k < |states| && states[k].status != Draft
    ensures i < k && Enters(states, i, states[k].status) && Accepted(states, events, i)
    ensures forall m :: i < m <= k ==> states[m].status == states[k].status
  {
    if states[k - 1].status == states[k].status {
      i := EntryOf(states, events, k - 1);
    } else {
      i := k - 1;
    }
  }

  // Every merge was preceded by an approval, which was preceded by a submit.
  lemma MergeHasHistory(states: seq<CR>, events: seq<Event>, k: nat) returns (submit: nat, approval: nat, merge: nat)
    requires IsRun(states, events) && k < |states| && states[k].status == Merged
    ensures submit < approval < merge < k
    ensures events[merge].Merge? && Enters(states, merge, Merged)
    ensures events[approval].Approve? || events[approval].VoteApprove?
    ensures Enters(states, approval, Approved)
    ensures events[submit].Submit? && Enters(states, submit, Submitted)
  {
    merge := EntryOf(states, events, k);
    approval := EntryOf(states, events, merge);
    submit := EntryOf(states, events, approval);
  }

  // ---------------------------------------------------------------- the quorum

  // Request n is an accepted approving vote of `rid` that no later removal before m undid.
  ghost predicate StandingVote(states: seq<CR>, events: seq<Event>, n: nat, m: nat, rid: Uuid)
    requires |states| == |events| + 1 && m < |states|
  {
    && n < m && events[n].VoteApprove? && events[n].rid == rid && Accepted(states, events, n)
    && forall q :: n < q < m && Accepted(states, events, q) ==> events[q] != Remove(rid)
  }

  ghost predicate VotedSince(states: seq<CR>, events: seq<Event>, i: nat, m: nat, rid: Uuid)
    requires |states| == |events| + 1 && m < |states|
  {
    exists n: nat :: i < n < m && StandingVote(states, events, n, m, rid)
  }

  // A review round: opened by the submit at i, still open before request m - 1.
  ghost predicate Round(states: seq<CR>, events: seq<Event>, i: nat, m: nat)
    requires |states| == |events| + 1
  {
    && i < m < |states| && events[i].Submit? && Accepted(states, events, i)
    && forall q :: i < q < m ==> states[q].status == Submitted
  }

  ghost predicate ThresholdUntouched(states: seq<CR>, events: seq<Event>, i: nat, m: nat)
    requires |states| == |events| + 1 && m < |states|
  {
    forall q :: i < q < m && Accepted(states, events, q) && events[q].Update? ==> events[q].newRequired == None
  }

  lemma IdsAlongRun(states: seq<CR>, events: seq<Event>, m: nat)
    requires IsRun(states, events) && m < |events|
    ensures Inv(states[m]) && Inv(states[m + 1])
    ensures ApprovedIds(states[m + 1].reviewers) ==
            if Accepted(states, events, m) then IdsAfter(ApprovedIds(states[m].reviewers), events[m])
            else ApprovedIds(states[m].reviewers)
  {
    hide Step;
    RunKeepsInv(states, events, m);
    RunKeepsInv(states, events, m + 1);
    if Accepted(states, events, m) {
      StepChangesIds(states[m], events[m]);
    }
  }

  lemma VotesCarryOver(states: seq<CR>, events: seq<Event>, i: nat, m: nat, rid: Uuid)
    requires |states| == |events| + 1 && i < m < |events|
    ensures
      var acc := Accepted(states, events, m);
      VotedSince(states, events, i, m + 1, rid) <==>
      (acc && events[m].VoteApprove? && events[m].rid == rid) ||
      (VotedSince(states, events, i, m, rid) && !(acc && events[m] == Remove(rid)))
  {
    hide Step;
    var acc := Accepted(states, events, m);
    if VotedSince(states, events, i, m + 1, rid) {
      var n: nat :| i < n < m + 1 && StandingVote(states, events, n, m + 1, rid);
      assert n < m ==> StandingVote(states, events, n, m, rid);
    }
    if acc && events[m].VoteApprove? && events[m].rid == rid {
      assert StandingVote(states, events, m, m + 1, rid);
    }
    if VotedSince(states, events, i, m, rid) && !(acc && events[m] == Remove(rid)) {
      var n: nat :| i < n < m && StandingVote(states, events, n, m, rid);
      assert StandingVote(states, events, n, m + 1, rid);
    }
  }

  lemma OpenRoundRequest(cr: CR, e: Event)
    requires cr.status == Submitted && Step(cr, e).Ok? && Step(cr, e).value.status in {Submitted, Approved}
    ensures !e.Submit? && !e.Reject? && !e.VoteReject?
  {
    if e.VoteReject? {
      RejectionMovesStatus(cr, e);
    }
  }

  // Within one review round a reviewer counts as approving exactly when a vote cast in that round
  // still stands.
  lemma {:induction false} ApprovalsAreStandingVotes(states: seq<CR>, events: seq<Event>, i: nat, m: nat, rid: Uuid)
    requires IsRun(states, events) && Round(states, events, i, m)
    requires states[m].status in {Submitted, Approved}
    ensures rid in ApprovedIds(states[m].reviewers) <==> VotedSince(states, events, i, m, rid)
    decreases m
  {
    hide Step;
    IdsAlongRun(states, events, m - 1);
    if i + 1 == m {
    } else {
      ApprovalsAreStandingVotes(states, events, i, m - 1, rid);
      VotesCarryOver(states, events, i, m - 1, rid);
      if Accepted(states, events, m - 1) {
        OpenRoundRequest(states[m - 1], events[m - 1]);
      }
    }
  }

  lemma OneVoteAtATime(ids: set<Uuid>, e: Event)
    ensures |IdsAfter(ids, e)| <= |ids| + if e.VoteApprove? then 1 else 0
  {
  }

  lemma ThresholdKept(cr: CR, e: Event)
    requires Step(cr, e).Ok? && (e.Update? ==> e.newRequired == None)
    ensures Step(cr, e).value.required == cr.required
  {
  }

  lemma VoteBelowThreshold(cr: CR, e: Event)
    requires Step(cr, e).Ok? && e.VoteApprove? && Step(cr, e).value.status == Submitted
    ensures ApprovedCount(Step(cr, e).value.reviewers) < Step(cr, e).value.required
  {
  }

  lemma StaysShort(cr: CR, e: Event)
    requires Inv(cr) && Step(cr, e).Ok? && Step(cr, e).value.status == Submitted
    requires e.Update? ==> e.newRequired == None
    requires |ApprovedIds(cr.reviewers)| < cr.required
    ensures |ApprovedIds(Step(cr, e).value.reviewers)| < cr.required
  {
    hide Step;
    ThresholdKept(cr, e);
    if e.VoteApprove? {
      VoteBelowThreshold(cr, e);
      StepKeepsInv(cr, e);
      CountIsCardinality(Step(cr, e).value.reviewers);
    } else {
      StepChangesIds(cr, e);
      OneVoteAtATime(ApprovedIds(cr.reviewers), e);
    }
  }

  // As long as nobody edits the threshold, an open round is always short of it.
  lemma {:induction false} OpenRoundIsShort(states: seq<CR>, events: seq<Event>, i: nat, m: nat)
    requires IsRun(states, events) && Round(states, events, i, m) && states[m].status == Submitted
    requires ThresholdUntouched(states, events, i, m) && states[m].required >= 1
    ensures |ApprovedIds(states[m].reviewers)| < states[m].required
    decreases m
  {
    hide Step;
    IdsAlongRun(states, events, m - 1);
    if i + 1 == m {
    } else {
      var cr, e := states[m - 1], events[m - 1];
      if Accepted(states, events, m - 1) {
        ThresholdKept(cr, e);
        OpenRoundIsShort(states, events, i, m - 1);
        StaysShort(cr, e);
      } else {
        OpenRoundIsShort(states, events, i, m - 1);
      }
    }
  }

  lemma RoundOf(states: seq<CR>, events: seq<Event>, k: nat) returns (submit: nat)
    requires IsRun(states, events) && k < |events| && states[k].status == Submitted
    ensures submit < k && Round(states, events, submit, k + 1)
  {
    submit := EntryOf(states, events, k);
  }

  lemma VoteEntersFromSubmitted(states: seq<CR>, events: seq<Event>, k: nat)
    requires IsRun(states, events) && k < |events| && events[k].VoteApprove? && Enters(states, k, Approved)
    ensures states[k].status == Submitted && Accepted(states, events, k)
    ensures states[k + 1].required == states[k].required
    ensures states[k].required >= 1 ==> ApprovedCount(states[k + 1].reviewers) >= states[k].required
  {
  }

  // Quorum, over every run: when a reviewer's vote moves a CR with threshold >= 1 to APPROVED,
  // then since the submit that opened the round at least `required` (as in force at that vote)
  // distinct, still assigned reviewers cast approving votes that still stand.
  lemma QuorumReached(states: seq<CR>, events: seq<Event>, k: nat) returns (submit: nat, approvers: set<Uuid>)
    requires IsRun(states, events) && k < |events|
    requires events[k].VoteApprove? && Enters(states, k, Approved) && states[k].required >= 1
    ensures Round(states, events, submit, k + 1)
    ensures approvers == ApprovedIds(states[k + 1].reviewers) && |approvers| >= states[k].required
    ensures forall rid :: rid in approvers <==> VotedSince(states, events, submit, k + 1, rid)
    ensures forall rid :: rid in approvers ==> exists r :: r in states[k + 1].reviewers && r.id == rid
  {
    VoteEntersFromSubmitted(states, events, k);
    hide Step, VotedSince, Round, IsRun;
    submit := RoundOf(states, events, k);
    approvers := ApprovedIds(states[k + 1].reviewers);
    RunKeepsInv(states, events, k + 1);
    CountIsCardinality(states[k + 1].reviewers);
    forall rid
      ensures rid in approvers <==> VotedSince(states, events, submit, k + 1, rid)
    {
      ApprovalsAreStandingVotes(states, events, submit, k + 1, rid);
    }
  }

  // The approver on record is the reviewer whose vote met the quorum, at the time of that vote.
  lemma ApproverIsLastVoter(states: seq<CR>, events: seq<Event>, k: nat)
    requires IsRun(states, events) && k < |events|
    requires events[k].VoteApprove? && Enters(states, k, Approved)
    ensures states[k + 1].approvedBy == Some(events[k].rid)
    ensures states[k + 1].approvedAt == Some(events[k].at)
  {
    RunKeepsInv(states, events, k);
    VoteEntersFromSubmitted(states, events, k);
  }

  // If the threshold was not edited while the round was open, the quorum is met exactly.
  lemma QuorumIsExact(states: seq<CR>, events: seq<Event>, k: nat, submit: nat)
    requires IsRun(states, events) && k < |events| && submit < k
    requires events[k].VoteApprove? && Enters(states, k, Approved) && states[k].required >= 1
    requires Round(states, events, submit, k + 1) && ThresholdUntouched(states, events, submit, k)
    ensures |ApprovedIds(states[k + 1].reviewers)| == states[k].required
  {
    VoteEntersFromSubmitted(states, events, k);
    hide Step;
    IdsAlongRun(states, events, k);
    OpenRoundIsShort(states, events, submit, k);
    OneVoteAtATime(ApprovedIds(states[k].reviewers), events[k]);
    CountIsCardinality(states[k + 1].reviewers);
  }

  // Nobody's rejection was accepted in a round that is still open.
  lemma RoundHasNoRejection(states: seq<CR>, events: seq<Event>, i: nat, m: nat, q: nat)
    requires IsRun(states, events) && Round(states, events, i, m) && i < q < m
    requires states[m].status in {Submitted, Approved} && Accepted(states, events, q)
    ensures !events[q].VoteReject? && !events[q].Reject?
  {
    assert states[q + 1] == After(states[q], events[q]);
    OpenRoundRequest(states[q], events[q]);
  }

  // The other path. The global approve is open exactly to a submitted CR with a threshold of at
  // most one or without reviewers.
  lemma GlobalApproveOpenIff(cr: CR, actor: Option<Uuid>, at: int)
    ensures Step(cr, Approve(actor, at)).Ok? <==>
            cr.status == Submitted && (cr.required <= 1 || cr.reviewers == [])
  {
  }

  // Over every run, what stands behind a CR that is approved or merged: a vote that met the
  // threshold in force, or a global approve while the threshold was at most one or nobody was
  // assigned.
  lemma ApprovalHasGround(states: seq<CR>, events: seq<Event>, k: nat) returns (approval: nat)
    requires IsRun(states, events) && k < |states| && states[k].status in {Approved, Merged}
    ensures approval < k && Enters(states, approval, Approved)
    ensures
      var cr, cr' := states[approval], states[approval + 1];
      match events[approval]
      case VoteApprove(_, _, _) => cr.required <= |ApprovedIds(cr'.reviewers)| || cr.required <= 0
      case Approve(_, _) => cr.required <= 1 || cr.reviewers == []
      case _ => false
  {
    approval := EntryOf(states, events, k);
    if states[k].status == Merged {
      approval := EntryOf(states, events, approval);
    }
    RunKeepsInv(states, events, approval + 1);
    CountIsCardinality(states[approval + 1].reviewers);
    var e := events[approval];
    if e.VoteApprove? {
      VoteEntersFromSubmitted(states, events, approval);
    } else if e.Approve? {
      GlobalApproveOpenIff(states[approval], e.actor, e.at);
    }
  }

  // In a round whose threshold was not edited the global approve always goes below it, unless the
  // threshold asks for no votes at all.
  lemma GlobalApproveMeetsQuorumIff(states: seq<CR>, events: seq<Event>, k: nat) returns (submit: nat)
    requires IsRun(states, events) && k < |events| && events[k].Approve? && Accepted(states, events, k)
    ensures Enters(states, k, Approved) && Round(states, events, submit, k + 1)
    ensures ThresholdUntouched(states, events, submit, k) ==>
            (ApprovedCount(states[k + 1].reviewers) >= states[k + 1].required <==> states[k + 1].required <= 0)
  {
    assert states[k + 1] == After(states[k], events[k]);
    submit := RoundOf(states, events, k);
    RunKeepsInv(states, events, k);
    CountIsCardinality(states[k].reviewers);
    if ThresholdUntouched(states, events, submit, k) && states[k].required >= 1 {
      OpenRoundIsShort(states, events, submit, k);
    }
  }

  // A CR that asks for three approvals and has no reviewers is approved by one call.
  lemma ThresholdWithoutReviewers(actor: Option<Uuid>, at: int) returns (cr: CR)
    ensures cr.required == 3 && cr.reviewers == [] && cr.status == Approved
    ensures cr == After(After(NewCR(3, []), Submit(actor, at)), Approve(actor, at))
  {
    cr := After(After(NewCR(3, []), Submit(actor, at)), Approve(actor, at));
  }

  // ---------------------------------------------------------------- from approval to merge

  ghost predicate EditsTo(states: seq<CR>, events: seq<Event>, q: nat, v: int)
    requires q < |events| <= |states|
  {
    Accepted(states, events, q) && events[q].Update? && events[q].newRequired == Some(Some(v))
  }

  // The last edit of the threshold between requests a and m set it to v.
  ghost predicate LastEditTo(states: seq<CR>, events: seq<Event>, a: nat, m: nat, q: nat, v: int)
    requires |states| == |events| + 1 && m < |states|
  {
    a < q < m && EditsTo(states, events, q, v) && ThresholdUntouched(states, events, q, m)
  }

  lemma {:induction false} FindLastEdit(states: seq<CR>, events: seq<Event>, a: nat, m: nat) returns (q: nat, v: int)
    requires IsRun(states, events) && m < |states| && !ThresholdUntouched(states, events, a, m)
    ensures LastEditTo(states, events, a, m, q, v)
    decreases m
  {
    if ThresholdUntouched(states, events, a, m - 1) {
      q := m - 1;
      v := events[q].newRequired.value.value;
    } else {
      q, v := FindLastEdit(states, events, a, m - 1);
      if !ThresholdUntouched(states, events, q, m) {
        q := m - 1;
        v := events[q].newRequired.value.value;
      }
    }
  }

  lemma {:induction false} RequiredSince(states: seq<CR>, events: seq<Event>, q: nat, m: nat)
    requires IsRun(states, events) && q < m < |states| && ThresholdUntouched(states, events, q, m)
    ensures states[m].required == states[q + 1].required
    decreases m
  {
    if q + 1 == m {
    } else {
      RequiredSince(states, events, q, m - 1);
      hide Step;
      if Accepted(states, events, m - 1) {
        ThresholdKept(states[m - 1], events[m - 1]);
      }
    }
  }

  lemma ApprovedKeepsVotes(cr: CR, e: Event, ids: set<Uuid>)
    requires cr.status == Approved && Step(cr, e).Ok?
    ensures IdsAfter(ids, e) == ids
  {
  }

  lemma {:induction false} VotesSinceApproval(states: seq<CR>, events: seq<Event>, a: nat, m: nat)
    requires IsRun(states, events) && a < m < |states|
    requires forall q :: a < q < m ==> states[q].status == Approved
    ensures ApprovedIds(states[m].reviewers) == ApprovedIds(states[a + 1].reviewers)
    decreases m
  {
    if a + 1 == m {
    } else {
      VotesSinceApproval(states, events, a, m - 1);
      IdsAlongRun(states, events, m - 1);
      hide Step;
      if Accepted(states, events, m - 1) {
        ApprovedKeepsVotes(states[m - 1], events[m - 1], ApprovedIds(states[m - 1].reviewers));
      }
    }
  }

  // A merge goes through with the approvals the CR was approved with. If a vote approved it, these
  // meet the threshold in force at the merge if and only if no edit has raised it above their
  // number since, later edits overriding earlier ones.
  lemma MergeMeetsThresholdIff(states: seq<CR>, events: seq<Event>, k: nat) returns (approval: nat)
    requires IsRun(states, events) && k < |events| && events[k].Merge? && Accepted(states, events, k)
    ensures approval < k && Enters(states, approval, Approved)
    ensures forall q :: approval < q <= k ==> states[q].status == Approved
    ensures ApprovedIds(states[k + 1].reviewers) == ApprovedIds(states[approval + 1].reviewers)
    ensures events[approval].VoteApprove? && states[approval].required >= 1 ==>
      (|ApprovedIds(states[k + 1].reviewers)| >= states[k].required <==>
       forall q, v :: LastEditTo(states, events, approval, k, q, v) ==> v <= |ApprovedIds(states[k + 1].reviewers)|)
  {
    approval := EntryOf(states, events, k);
    VotesSinceApproval(states, events, approval, k + 1);
    RunKeepsInv(states, events, approval + 1);
    CountIsCardinality(states[approval + 1].reviewers);
    if events[approval].VoteApprove? {
      VoteEntersFromSubmitted(states, events, approval);
    }
    hide Step, IsRun, ApprovedIds;
    if ThresholdUntouched(states, events, approval, k) {
      RequiredSince(states, events, approval, k);
    } else {
      var q, v := FindLastEdit(states, events, approval, k);
      LastEditDecides(states, events, approval, k, q, v);
    }
    forall q, v | LastEditTo(states, events, approval, k, q, v)
      ensures states[k].required == v
    {
      LastEditDecides(states, events, approval, k, q, v);
    }
  }

  lemma LastEditDecides(states: seq<CR>, events: seq<Event>, a: nat, m: nat, q: nat, v: int)
    requires IsRun(states, events) && m < |states| && LastEditTo(states, events, a, m, q, v)
    ensures states[m].required == v
  {
    assert states[q + 1] == After(states[q], events[q]);
    RequiredSince(states, events, q, m);
  }

  // Approved by the one vote it asked for, then asked for five, then merged.
  lemma RaisedAfterApproval(rid: Uuid, actor: Option<Uuid>, at: int) returns (states: seq<CR>, events: seq<Event>)
    ensures IsRun(states, events) && |events| == 4
    ensures events[1].VoteApprove? && states[1].required == 1 && states[2].status == Approved
    ensures events[2] == Update(Some(Some(5)), None) && events[3].Merge?
    ensures states[4].status == Merged && states[4].required == 5 && ApprovedCount(states[4].reviewers) == 1
  {
    events := [Submit(actor, at), VoteApprove(rid, at, None), Update(Some(Some(5)), None), Merge(actor, at)];
    var s0 := NewCR(1, [rid]);
    var s1 := After(s0, events[0]);
    var s2 := After(s1, events[1]);
    var s3 := After(s2, events[2]);
    states := [s0, s1, s2, s3, After(s3, events[3])];
    assert s1.reviewers == [Reviewer(rid, None, Pending, None, None)];
    assert s2.reviewers == [Reviewer(rid, None, Approving, Some(at), None)];
    assert s2.reviewers[..0] == [];
  }

  // ---------------------------------------------------------------- progress

  ghost predicate IsAssigned(cr: CR, rid: Uuid) {
    exists r :: r in cr.reviewers && r.id == rid
  }

  lemma AssignedIsFound(cr: CR, rid: Uuid)
    ensures Find(cr.reviewers, rid).Some? <==> IsAssigned(cr, rid)
  {
  }

  // While a CR is submitted, a rejection is accepted and sends it back.
  lemma RejectionSendsBack(states: seq<CR>, events: seq<Event>, k: nat)
    requires IsRun(states, events) && k < |events| && states[k].status == Submitted
    requires events[k].Reject? || (events[k].VoteReject? && IsAssigned(states[k], events[k].rid))
    ensures Accepted(states, events, k) && states[k + 1].status == ChangesRequested
  {
    assert states[k + 1] == After(states[k], events[k]);
    if events[k].VoteReject? {
      AssignedIsFound(states[k], events[k].rid);
      RejectionMovesStatus(states[k], events[k]);
    }
  }

  // Until it is final a CR can be closed, takes on anybody who is not assigned yet and, unless it is
  // approved, lets go of anybody who is.
  lemma OpenRequestAccepted(states: seq<CR>, events: seq<Event>, k: nat)
    requires IsRun(states, events) && k < |events| && states[k].status !in {Merged, Closed}
    ensures events[k].Close? ==> Accepted(states, events, k) && states[k + 1].status == Closed
    ensures events[k].Assign? ==>
      && (Accepted(states, events, k) <==> !IsAssigned(states[k], events[k].rid))
      && IsAssigned(states[k + 1], events[k].rid)
    ensures events[k].Remove? && states[k].status != Approved ==>
      && (Accepted(states, events, k) <==> IsAssigned(states[k], events[k].rid))
      && !IsAssigned(states[k + 1], events[k].rid)
    ensures events[k].Update? && events[k].newRequired != Some(None) ==> Accepted(states, events, k)
  {
    var e := events[k];
    assert states[k + 1] == After(states[k], e);
    if e.Assign? || e.Remove? {
      AssignedIsFound(states[k], e.rid);
      AssignedIsFound(states[k + 1], e.rid);
      RunKeepsInv(states, events, k);
      if Accepted(states, events, k) {
        StepMovesRow(states[k], e, e.rid);
      }
    }
  }

  // At a threshold of zero or less one vote approves, whatever else was cast.
  lemma ZeroThresholdApproves(states: seq<CR>, events: seq<Event>, k: nat)
    requires IsRun(states, events) && k < |events| && states[k].status == Submitted && states[k].required <= 0
    requires events[k].VoteApprove? && IsAssigned(states[k], events[k].rid)
    ensures Accepted(states, events, k) && states[k + 1].status == Approved
  {
    assert states[k + 1] == After(states[k], events[k]);
    AssignedIsFound(states[k], events[k].rid);
  }

  // Every run starts as a draft with nothing on record, assigned to exactly the ids it was given.
  lemma NewIsDraft(required: int, ids: seq<Uuid>, rid: Uuid)
    ensures
      var cr := NewCR(required, ids);
      cr.status == Draft && cr.required == required && (IsAssigned(cr, rid) <==> rid in ids)
  {
    var cr := NewCR(required, ids);
    if rid in ids {
      var i :| 0 <= i < |ids| && ids[i] == rid;
      assert cr.reviewers[i] in cr.reviewers;
    }
  }

  // Requests k, k + 1, ... are a submit, approving votes of `threshold` different assigned reviewers,
  // and a merge.
  ghost predicate IsReview(states: seq<CR>, events: seq<Event>, k: nat, threshold: nat) {
    && k + threshold + 1 < |events| <= |states|
    && events[k].Submit? && events[k + threshold + 1].Merge?
    && (forall i :: k < i <= k + threshold ==> events[i].VoteApprove? && IsAssigned(states[k], events[i].rid))
    && (forall i, j :: k < i < j <= k + threshold ==> events[i].rid != events[j].rid)
  }

  ghost function Voters(events: seq<Event>, k: nat, m: nat): set<Uuid>
    requires m < |events| && forall i :: k < i <= m ==> events[i].VoteApprove?
  {
    set i | k < i <= m :: events[i].rid
  }

  // The CR after these votes of a review that began in `start`.
  ghost predicate Counted(cr: CR, start: CR, voters: set<Uuid>) {
    && cr.required == start.required && ApprovedIds(cr.reviewers) == voters
    && cr.status == (if |voters| < start.required then Submitted else Approved)
    && forall rid :: IsAssigned(cr, rid) <==> IsAssigned(start, rid)
  }

  lemma SubmitOpens(cr: CR, e: Event)
    requires e.Submit? && cr.status in {Draft, ChangesRequested} && cr.required >= 1
    ensures Step(cr, e).Ok? && Counted(Step(cr, e).value, cr, {})
  {
    var cr' := Step(cr, e).value;
    forall rid
      ensures IsAssigned(cr', rid) <==> IsAssigned(cr, rid)
    {
      SameIdsAssigned(cr, cr', rid);
    }
  }

  lemma VoteKeepsRows(cr: CR, e: Event)
    requires e.VoteApprove? && Step(cr, e).Ok?
    ensures
      var cr' := Step(cr, e).value;
      && cr'.required == cr.required && |cr.reviewers| == |cr'.reviewers|
      && (forall i :: 0 <= i < |cr.reviewers| ==> cr.reviewers[i].id == cr'.reviewers[i].id)
      && (cr.required >= 1 ==>
            cr'.status == if ApprovedCount(cr'.reviewers) >= cr.required then Approved else Submitted)
  {
  }

  lemma VoteCounts(cr: CR, e: Event, start: CR, voters: set<Uuid>)
    requires Inv(cr) && Counted(cr, start, voters) && |voters| < start.required
    requires e.VoteApprove? && IsAssigned(start, e.rid) && e.rid !in voters
    ensures Step(cr, e).Ok? && Counted(Step(cr, e).value, start, voters + {e.rid})
  {
    AssignedIsFound(cr, e.rid);
    StepChangesIds(cr, e);
    StepKeepsInv(cr, e);
    VoteKeepsRows(cr, e);
    var cr' := Step(cr, e).value;
    CountIsCardinality(cr'.reviewers);
    hide Step, ApprovedIds, ApprovedCount, IsAssigned;
    forall rid
      ensures IsAssigned(cr', rid) <==> IsAssigned(cr, rid)
    {
      SameIdsAssigned(cr, cr', rid);
    }
  }

  lemma SameIdsAssigned(cr: CR, cr': CR, rid: Uuid)
    requires |cr.reviewers| == |cr'.reviewers|
    requires forall i :: 0 <= i < |cr.reviewers| ==> cr.reviewers[i].id == cr'.reviewers[i].id
    ensures IsAssigned(cr', rid) <==> IsAssigned(cr, rid)
  {
    if r :| r in cr.reviewers && r.id == rid {
      var i :| 0 <= i < |cr.reviewers| && cr.reviewers[i] == r;
      assert cr'.reviewers[i] in cr'.reviewers;
    }
    if r :| r in cr'.reviewers && r.id == rid {
      var i :| 0 <= i < |cr.reviewers| && cr'.reviewers[i] == r;
      assert cr.reviewers[i] in cr.reviewers;
    }
  }

  lemma NextVoter(events: seq<Event>, k: nat, m: nat)
    requires k < m < |events| && forall i :: k < i <= m ==> events[i].VoteApprove?
    requires forall i :: k < i < m ==> events[i].rid != events[m].rid
    ensures Voters(events, k, m) == Voters(events, k, m - 1) + {events[m].rid}
    ensures events[m].rid !in Voters(events, k, m - 1)
  {
  }

  ghost predicate VotesCounted(states: seq<CR>, events: seq<Event>, k: nat, m: nat)
    requires k <= m < |events| < |states| && forall i :: k < i <= m ==> events[i].VoteApprove?
  {
    && Accepted(states, events, m) && Counted(states[m + 1], states[k], Voters(events, k, m))
    && |Voters(events, k, m)| == m - k
  }

  lemma SubmitCounted(states: seq<CR>, events: seq<Event>, k: nat)
    requires IsRun(states, events) && k < |events| && events[k].Submit?
    requires states[k].status in {Draft, ChangesRequested} && states[k].required >= 1
    ensures VotesCounted(states, events, k, k)
  {
    assert states[k + 1] == After(states[k], events[k]);
    SubmitOpens(states[k], events[k]);
    hide Step, Counted;
    assert Voters(events, k, k) == {};
  }

  lemma NextVoteCounted(states: seq<CR>, events: seq<Event>, k: nat, m: nat)
    requires IsRun(states, events) && k < m < |events| && forall i :: k < i <= m ==> events[i].VoteApprove?
    requires forall i :: k < i < m ==> events[i].rid != events[m].rid
    requires IsAssigned(states[k], events[m].rid) && m - 1 - k < states[k].required
    requires VotesCounted(states, events, k, m - 1)
    ensures VotesCounted(states, events, k, m)
  {
    RunKeepsInv(states, events, m);
    assert states[m + 1] == After(states[m], events[m]);
    NextVoter(events, k, m);
    hide Step, Inv, IsRun, Counted, Voters, IsAssigned;
    VoteCounts(states[m], events[m], states[k], Voters(events, k, m - 1));
  }

  // After m - k votes of such a review.
  lemma {:induction false} VotesPileUp(states: seq<CR>, events: seq<Event>, k: nat, m: nat)
    requires IsRun(states, events) && k < |states| && states[k].status in {Draft, ChangesRequested}
    requires states[k].required >= 1 && IsReview(states, events, k, states[k].required)
    requires k <= m <= k + states[k].required
    ensures VotesCounted(states, events, k, m)
    decreases m
  {
    hide IsRun, VotesCounted, IsAssigned;
    if m == k {
      SubmitCounted(states, events, k);
    } else {
      VotesPileUp(states, events, k, m - 1);
      NextVoteCounted(states, events, k, m);
    }
  }

  // From every reachable state in which a submit is due, with any threshold of one or more: the
  // submit, approving votes of that many different assigned reviewers and a merge are accepted one
  // after the other; the CR stays submitted until the last of the votes approves it.
  lemma ReviewGoesThrough(states: seq<CR>, events: seq<Event>, k: nat)
    requires IsRun(states, events) && k < |states| && states[k].status in {Draft, ChangesRequested}
    requires states[k].required >= 1 && IsReview(states, events, k, states[k].required)
    ensures
      var t := states[k].required;
      && (forall i :: k <= i <= k + t + 1 ==> Accepted(states, events, i))
      && (forall i :: k < i <= k + t ==> states[i].status == Submitted)
      && states[k + t + 1].status == Approved && states[k + t + 2].status == Merged
  {
    var t := states[k].required;
    forall i | k <= i <= k + t
      ensures Accepted(states, events, i)
    {
      VotesPileUp(states, events, k, i);
    }
    forall i | k < i <= k + t + 1
      ensures states[i].status == if i <= k + t then Submitted else Approved
    {
      VotesPileUp(states, events, k, i - 1);
    }
    assert states[k + t + 2] == After(states[k + t + 1], events[k + t + 1]);
  }

  // ---------------------------------------------------------------- columns tell the history

  datatype Column =
    | Submission
    | Review
    | Notes
    | Threshold
    | Closing
    | Merging
    | Membership(rid: Uuid)
    | VoteOf(rid: Uuid)
    | CommentOf(rid: Uuid)

  // The requests that write a column.
  predicate Writes(c: Column, e: Event) {
    match c
    case Submission => e.Submit?
    case Review => e.Reject? || e.VoteReject?
    case Notes => (e.Update? && e.newNotes.Some?) || (e.Reject? && e.notes.Some? && e.notes.value != "")
    case Threshold => e.Update? && e.newRequired.Some?
    case Closing => e.Close?
    case Merging => e.Merge?
    case Membership(rid) => e == Remove(rid) || (e.Assign? && e.rid == rid)
    case VoteOf(rid) => e.Submit? || ((e.Assign? || e.VoteApprove? || e.VoteReject?) && e.rid == rid)
    case CommentOf(rid) =>
      || e.Submit? || (e.Assign? && e.rid == rid)
      || ((e.VoteApprove? || e.VoteReject?) && e.rid == rid && e.comment.Some?)
  }

  // The last accepted request before state k that wrote it.
  ghost function LastWrite(states: seq<CR>, events: seq<Event>, c: Column, k: nat): (e: Option<Event>)
    requires k <= |events| < |states|
    ensures e.Some? ==> Writes(c, e.value)
  {
    if k == 0 then None
    else if Accepted(states, events, k - 1) && Writes(c, events[k - 1]) then Some(events[k - 1])
    else LastWrite(states, events, c, k - 1)
  }

  ghost predicate SubmissionIs(cr: CR, e: Option<Event>) {
    match e
    case None => cr.submittedBy == None && cr.submittedAt == None
    case Some(e) => e.Submit? && cr.submittedBy == e.actor && cr.submittedAt == Some(e.at)
  }

  ghost predicate ReviewIs(cr: CR, e: Option<Event>) {
    match e
    case None => cr.reviewedBy == None && cr.reviewedAt == None
    case Some(Reject(actor, at, _)) => cr.reviewedBy == actor && cr.reviewedAt == Some(at)
    case Some(VoteReject(rid, at, _)) => cr.reviewedBy == Some(rid) && cr.reviewedAt == Some(at)
    case Some(_) => false
  }

  ghost predicate NotesAre(cr: CR, e: Option<Event>) {
    match e
    case None => cr.reviewNotes == None
    case Some(Reject(_, _, notes)) => cr.reviewNotes == notes
    case Some(Update(_, newNotes)) => newNotes == Some(cr.reviewNotes)
    case Some(_) => false
  }

  ghost predicate ThresholdIs(cr: CR, start: int, e: Option<Event>) {
    match e
    case None => cr.required == start
    case Some(e) => e.Update? && e.newRequired == Some(Some(cr.required))
  }

  ghost predicate ClosingIs(cr: CR, e: Option<Event>) {
    match e
    case None => cr.closedBy == None && cr.closedAt == None && cr.closeReason == None && cr.status != Closed
    case Some(e) => e.Close? && cr.closedBy == e.actor && cr.closedAt == Some(e.at) && cr.closeReason == e.reason
                    && cr.status == Closed
  }

  ghost predicate MergingIs(cr: CR, e: Option<Event>) {
    match e
    case None => cr.mergedBy == None && cr.mergedAt == None && cr.status != Merged
    case Some(e) => e.Merge? && cr.mergedBy == e.actor && cr.mergedAt == Some(e.at) && cr.status == Merged
  }

  lemma StepWritesColumns(cr: CR, e: Event, start: int)
    requires Step(cr, e).Ok?
    ensures
      var cr' := Step(cr, e).value;
      && (if Writes(Submission, e) then SubmissionIs(cr', Some(e))
          else cr'.submittedBy == cr.submittedBy && cr'.submittedAt == cr.submittedAt)
      && (if Writes(Review, e) then ReviewIs(cr', Some(e))
          else cr'.reviewedBy == cr.reviewedBy && cr'.reviewedAt == cr.reviewedAt)
      && (if Writes(Notes, e) then NotesAre(cr', Some(e)) else cr'.reviewNotes == cr.reviewNotes)
      && (if Writes(Threshold, e) then ThresholdIs(cr', start, Some(e)) else cr'.required == cr.required)
      && (if Writes(Closing, e) then ClosingIs(cr', Some(e))
          else cr'.closedBy == cr.closedBy && cr'.closedAt == cr.closedAt && cr'.closeReason == cr.closeReason
               && (cr'.status == Closed <==> cr.status == Closed))
      && (if Writes(Merging, e) then MergingIs(cr', Some(e))
          else cr'.mergedBy == cr.mergedBy && cr'.mergedAt == cr.mergedAt
               && (cr'.status == Merged <==> cr.status == Merged))
  {
    if e.VoteReject? {
      RejectionMovesStatus(cr, e);
    }
    assert Writes(Threshold, e) ==> e.newRequired == Some(Some(e.newRequired.value.value));
  }

  // Every column of a CR is what the last accepted request that writes it said, and a CR is closed
  // or merged if and only if a close or a merge was accepted.
  lemma {:induction false} ColumnsTellHistory(states: seq<CR>, events: seq<Event>, k: nat)
    requires IsRun(states, events) && k < |states|
    ensures
      && SubmissionIs(states[k], LastWrite(states, events, Submission, k))
      && ReviewIs(states[k], LastWrite(states, events, Review, k))
      && NotesAre(states[k], LastWrite(states, events, Notes, k))
      && ThresholdIs(states[k], states[0].required, LastWrite(states, events, Threshold, k))
      && ClosingIs(states[k], LastWrite(states, events, Closing, k))
      && MergingIs(states[k], LastWrite(states, events, Merging, k))
  {
    if k == 0 {
    } else {
      ColumnsTellHistory(states, events, k - 1);
      hide Step;
      if Accepted(states, events, k - 1) {
        StepWritesColumns(states[k - 1], events[k - 1], states[0].required);
      }
    }
  }

  // ---------------------------------------------------------------- reviewers tell the history

  function RowOf(reviewers: seq<Reviewer>, rid: Uuid): Option<Reviewer> {
    match Find(reviewers, rid)
    case Some(i) => Some(reviewers[i])
    case None => None
  }

  // The row a reviewer has is the only one with that id.
  lemma RowIs(reviewers: seq<Reviewer>, i: nat)
    requires DistinctReviewers(reviewers) && i < |reviewers|
    ensures RowOf(reviewers, reviewers[i].id) == Some(reviewers[i])
  {
  }

  lemma NoRow(reviewers: seq<Reviewer>, rid: Uuid)
    requires forall i :: 0 <= i < |reviewers| ==> reviewers[i].id != rid
    ensures RowOf(reviewers, rid) == None
  {
  }

  function RowAfter(row: Option<Reviewer>, e: Event, rid: Uuid): Option<Reviewer> {
    match e
    case Assign(x, name) => if x == rid then Some(Reviewer(rid, name, Pending, None, None)) else row
    case Remove(x) => if x == rid then None else row
    case Submit(_, _) => if row.Some? then Some(Reviewer(rid, row.value.name, Pending, None, None)) else None
    case VoteApprove(x, at, comment) =>
      if x == rid && row.Some? then Some(CastVote(row.value, Approving, at, comment)) else row
    case VoteReject(x, at, comment) =>
      if x == rid && row.Some? then Some(CastVote(row.value, RequestingChanges, at, comment)) else row
    case _ => row
  }

  lemma StepKeepsPositions(cr: CR, e: Event)
    requires DistinctReviewers(cr.reviewers) && Step(cr, e).Ok? && !e.Assign? && !e.Remove?
    ensures
      var before, after := cr.reviewers, Step(cr, e).value.reviewers;
      && |after| == |before|
      && forall i :: 0 <= i < |before| ==> Some(after[i]) == RowAfter(Some(before[i]), e, before[i].id)
  {
  }

  lemma RowAfterRemoval(before: seq<Reviewer>, j: nat, rid: Uuid)
    requires DistinctReviewers(before) && j < |before|
    ensures RowOf(before[..j] + before[j + 1..], rid) == if rid == before[j].id then None else RowOf(before, rid)
  {
    var after := before[..j] + before[j + 1..];
    RemovalKeepsReviewers(before, j);
    match Find(before, rid)
    case None => NoRow(after, rid);
    case Some(i) =>
      if i == j {
        NoRow(after, rid);
      } else {
        RowIs(after, if i < j then i else i - 1);
      }
  }

  // What a request does to the row of one reviewer.
  lemma StepMovesRow(cr: CR, e: Event, rid: Uuid)
    requires Inv(cr) && Step(cr, e).Ok?
    ensures RowOf(Step(cr, e).value.reviewers, rid) == RowAfter(RowOf(cr.reviewers, rid), e, rid)
  {
    var before, after := cr.reviewers, Step(cr, e).value.reviewers;
    if e.Remove? {
      RowAfterRemoval(before, Find(before, e.rid).value, rid);
    } else if e.Assign? {
      assert after[..|after| - 1] == before;
    } else {
      StepKeepsPositions(cr, e);
      hide Step;
      StepKeepsInv(cr, e);
      match Find(before, rid)
      case None => NoRow(after, rid);
      case Some(i) => RowIs(after, i);
    }
  }

  ghost predicate VoteIs(r: Reviewer, e: Option<Event>) {
    match e
    case Some(VoteApprove(rid, at, _)) => r.vote == Approving && r.reviewedAt == Some(at)
    case Some(VoteReject(rid, at, _)) => r.vote == RequestingChanges && r.reviewedAt == Some(at)
    case _ => r.vote == Pending && r.reviewedAt == None
  }

  ghost predicate CommentIs(r: Reviewer, e: Option<Event>) {
    match e
    case Some(VoteApprove(_, _, comment)) => r.comment == comment
    case Some(VoteReject(_, _, comment)) => r.comment == comment
    case _ => r.comment == None
  }

  ghost predicate MembershipIs(row: Option<Reviewer>, atStart: bool, e: Option<Event>) {
    match e
    case None => (row.Some? <==> atStart) && (row.Some? ==> row.value.name == None)
    case Some(Assign(_, name)) => row.Some? && row.value.name == name
    case Some(_) => row.None?
  }

  ghost predicate RowTells(row: Option<Reviewer>, rid: Uuid, atStart: bool, member: Option<Event>,
                           vote: Option<Event>, comment: Option<Event>) {
    && MembershipIs(row, atStart, member)
    && (row.Some? ==> row.value.id == rid && VoteIs(row.value, vote) && CommentIs(row.value, comment))
  }

  lemma RowTellsNext(row: Option<Reviewer>, rid: Uuid, atStart: bool, member: Option<Event>, vote: Option<Event>,
                     comment: Option<Event>, e: Event)
    requires RowTells(row, rid, atStart, member, vote, comment)
    requires (e.VoteApprove? || e.VoteReject?) && e.rid == rid ==> row.Some?
    ensures RowTells(RowAfter(row, e, rid), rid, atStart, if Writes(Membership(rid), e) then Some(e) else member,
                     if Writes(VoteOf(rid), e) then Some(e) else vote,
                     if Writes(CommentOf(rid), e) then Some(e) else comment)
  {
  }

  // Who is assigned, under which name, with which vote and comment: all of it is what the last
  // accepted request about it said.
  lemma {:induction false} ReviewersTellHistory(states: seq<CR>, events: seq<Event>, k: nat, rid: Uuid)
    requires IsRun(states, events) && k < |states|
    ensures RowTells(RowOf(states[k].reviewers, rid), rid, IsAssigned(states[0], rid),
                     LastWrite(states, events, Membership(rid), k), LastWrite(states, events, VoteOf(rid), k),
                     LastWrite(states, events, CommentOf(rid), k))
  {
    if k == 0 {
      AssignedIsFound(states[0], rid);
    } else {
      ReviewersTellHistory(states, events, k - 1, rid);
      RunKeepsInv(states, events, k - 1);
      assert states[k] == After(states[k - 1], events[k - 1]);
      var cr, e := states[k - 1], events[k - 1];
      hide Step, RowOf, Inv, IsRun, RowTells, Writes;
      if Accepted(states, events, k - 1) {
        StepMovesRow(cr, e, rid);
        VoteNeedsRow(cr, e, rid);
        RowTellsNext(RowOf(cr.reviewers, rid), rid, IsAssigned(states[0], rid),
                     LastWrite(states, events, Membership(rid), k - 1), LastWrite(states, events, VoteOf(rid), k - 1),
                     LastWrite(states, events, CommentOf(rid), k - 1), e);
      }
    }
  }

  lemma VoteNeedsRow(cr: CR, e: Event, rid: Uuid)
    requires Step(cr, e).Ok?
    ensures (e.VoteApprove? || e.VoteReject?) && e.rid == rid ==> RowOf(cr.reviewers, rid).Some?
  {
  }

  // ---------------------------------------------------------------- the approval on record

  // Approver and time stay those of the approving request, through to the merge.
  lemma ApprovalOnRecord(states: seq<CR>, events: seq<Event>, k: nat) returns (approval: nat)
    requires IsRun(states, events) && k < |states| && states[k].status in {Approved, Merged}
    ensures approval < k && Enters(states, approval, Approved)
    ensures match events[approval]
            case Approve(actor, at) => states[k].approvedBy == actor && states[k].approvedAt == Some(at)
            case VoteApprove(rid, at, _) => states[k].approvedBy == Some(rid) && states[k].approvedAt == Some(at)
            case _ => false
  {
    approval := EntryOf(states, events, k);
    if states[k].status == Merged {
      approval := EntryOf(states, events, approval);
    }
    if events[approval].VoteApprove? {
      ApproverIsLastVoter(states, events, approval);
    }
    assert states[approval + 1] == After(states[approval], events[approval]);
    RecordKept(states, events, approval, k);
  }

  lemma {:induction false} RecordKept(states: seq<CR>, events: seq<Event>, a: nat, k: nat)
    requires IsRun(states, events) && a < k < |states| && states[a + 1].status in {Approved, Merged}
    requires states[k].status in {Approved, Merged}
    ensures states[k].approvedBy == states[a + 1].approvedBy && states[k].approvedAt == states[a + 1].approvedAt
    decreases k
  {
    if a + 1 == k {
    } else {
      PhaseGrows(states, events, a + 1, k - 1);
      PhaseGrows(states, events, k - 1, k);
      assert states[k] == After(states[k - 1], events[k - 1]);
      RecordKept(states, events, a, k - 1);
    }
  }
}
