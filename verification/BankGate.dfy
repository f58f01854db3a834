/**
 The gate in front of the Initiator's queue: a bank account must be opened once the parent has
 submitted their form and the college has confirmed the application, whichever comes last
 (src/modules/bank-account, src/modules/parent-public, src/modules/college).
 */
module BankGate {
  import opened Wrappers

  datatype ParentForm = ParentForm(submittedAt: Option<int>)
  datatype CollegeForm = CollegeForm(verified: bool, submittedAt: Option<int>)
  datatype Opening = Opening(completed: bool, notifiedAt: int, clickedAt: Option<int>, completedAt: Option<int>)

  /** The rows of one application; each is created by the first request that needs it. */
  datatype Rows = Rows(parent: Option<ParentForm>, college: Option<CollegeForm>, opening: Option<Opening>)

  const NO_ROWS := Rows(None, None, None)

  predicate Submitted(r: Rows) {
    r.parent.Some? && r.parent.value.submittedAt.Some?
  }

  predicate Confirmed(r: Rows) {
    r.college.Some? && r.college.value.verified
  }

  // ---- The writes ------------------------------------------------------------------------------

  function ParentSubmitted(r: Rows, now: int): Rows {
    r.(parent := Some(ParentForm(Some(now))))
  }

  /** An upload needs a parent row but submits nothing. */
  function ParentEnsured(r: Rows): Rows {
    r.(parent := r.parent.Or(Some(ParentForm(None))))
  }

  function CollegeSubmitted(r: Rows, verified: bool, now: int): Rows {
    r.(college := Some(CollegeForm(verified, Some(now))))
  }

  function CollegeEnsured(r: Rows): Rows {
    r.(college := r.college.Or(Some(CollegeForm(false, None))))
  }

  function Required(r: Rows, now: int): Rows {
    r.(opening := Some(Opening(false, now, None, None)))
  }

  function Completed(r: Rows, clickedAt: Option<int>, now: int): Rows
    requires r.opening.Some?
  {
    r.(opening := Some(Opening(true, r.opening.value.notifiedAt, Some(clickedAt.GetOr(now)), Some(now))))
  }

  // ---- Requests, one after another -----------------------------------------------------------------

  datatype Request =
    | SubmitParent
    | UploadParentDocument
    | SubmitCollege(verified: bool)
    | UploadCollegeDocument
    | Complete

  function EnsureRequirement(r: Rows, now: int): Rows {
    if r.opening.None? && Submitted(r) && Confirmed(r) then Required(r, now) else r
  }

  /** The rows after a request; completing without a requirement is refused. */
  function Apply(r: Rows, request: Request, now: int): Option<Rows> {
    match request
    case SubmitParent => Some(EnsureRequirement(ParentSubmitted(r, now), now))
    case UploadParentDocument => Some(ParentEnsured(r))
    case SubmitCollege(verified) => Some(EnsureRequirement(CollegeSubmitted(r, verified, now), now))
    case UploadCollegeDocument => Some(CollegeEnsured(r))
    case Complete =>
      if r.opening.None? then None
      else if r.opening.value.completed then Some(r)
      else Some(Completed(r, r.opening.value.clickedAt, now))
  }

  class Application {
    var parent: Option<ParentForm>
    var college: Option<CollegeForm>
    var opening: Option<Opening>

    function Stored(): Rows
      reads this
    {
      Rows(parent, college, opening)
    }

    constructor ()
      ensures Stored() == NO_ROWS && Sound(Stored())
    {
      parent, college, opening := None, None, None;
    }

    method EnsureRequirementIfBothVerified(now: int)
      modifies `opening
      ensures Stored() == EnsureRequirement(old(Stored()), now)
    {
      if opening.Some? {
        return;
      }
      var bothVerified := parent.Some? && parent.value.submittedAt.Some? && college.Some? && college.value.verified;
      if !bothVerified {
        return;
      }
      opening := Some(Opening(false, now, None, None));
    }

    method SubmitParentProfile(now: int)
      modifies this
      ensures Some(Stored()) == Apply(old(Stored()), SubmitParent, now)
    {
      parent := Some(ParentForm(Some(now)));
      EnsureRequirementIfBothVerified(now);
    }

    method EnsureParentVerification(now: int)
      modifies `parent
      ensures Some(Stored()) == Apply(old(Stored()), UploadParentDocument, now)
    {
      if parent.None? {
        parent := Some(ParentForm(None));
      }
    }

    method SubmitCollegeForm(verified: bool, now: int)
      modifies this
      ensures Some(Stored()) == Apply(old(Stored()), SubmitCollege(verified), now)
    {
      college := Some(CollegeForm(verified, Some(now)));
      EnsureRequirementIfBothVerified(now);
    }

    method UploadOfferLetter(now: int)
      modifies `college
      ensures Some(Stored()) == Apply(old(Stored()), UploadCollegeDocument, now)
    {
      if college.None? {
        college := Some(CollegeForm(false, None));
      }
    }

    method CompleteForApplication(now: int) returns (found: bool)
      modifies `opening
      ensures (if found then Some(Stored()) else None) == Apply(old(Stored()), Complete, now)
      ensures !found ==> Stored() == old(Stored())
    {
      if opening.None? {
        return false;
      }
      if opening.value.completed {
        return true;
      }
      opening := Some(opening.value.(completed := true, clickedAt := Some(opening.value.clickedAt.GetOr(now)),
                                     completedAt := Some(now)));
      return true;
    }
  }

  /** Both sides done means the requirement is there; it is there only if the parent submitted. */
  predicate Sound(r: Rows) {
    && (Submitted(r) && Confirmed(r) ==> r.opening.Some?)
    && (r.opening.Some? ==> Submitted(r) && (r.opening.value.completed <==> r.opening.value.completedAt.Some?))
  }

  /** Every request keeps that, and leaves a completed requirement as it is. */
  lemma RequestKeepsSound(r: Rows, request: Request, now: int)
    requires Sound(r) && Apply(r, request, now).Some?
    ensures var after := Apply(r, request, now).value;
            && Sound(after)
            && (r.opening.Some? && r.opening.value.completed ==> after.opening == r.opening)
            && (Submitted(r) ==> Submitted(after)) && (r.opening.Some? ==> after.opening.Some?)
  {
  }

  function After(r: Rows, requests: seq<(Request, int)>): Rows {
    if requests == [] then r
    else
      var before := After(r, requests[..|requests| - 1]);
      var (request, now) := requests[|requests| - 1];
      Apply(before, request, now).GetOr(before)
  }

  /** Over any run of requests the gate stays sound, and a completion and its time are final. */
  lemma {:induction false} CompletionIsFinal(r: Rows, requests: seq<(Request, int)>)
    requires Sound(r)
    ensures Sound(After(r, requests))
    ensures r.opening.Some? && r.opening.value.completed ==> After(r, requests).opening == r.opening
  {
    if requests != [] {
      CompletionIsFinal(r, requests[..|requests| - 1]);
      var before := After(r, requests[..|requests| - 1]);
      var (request, now) := requests[|requests| - 1];
      if Apply(before, request, now).Some? {
        RequestKeepsSound(before, request, now);
      }
    }
  }

  // ---- The rows told by the requests ------------------------------------------------------------------

  /** When the parent last submitted; some upload or submission is needed for there to be a row at all. */
  function ParentTold(requests: seq<(Request, int)>): Option<ParentForm> {
    if requests == [] then None
    else
      var (request, now) := requests[|requests| - 1];
      var before := ParentTold(requests[..|requests| - 1]);
      match request
      case SubmitParent => Some(ParentForm(Some(now)))
      case UploadParentDocument => Some(ParentForm(if before.Some? then before.value.submittedAt else None))
      case _ => before
  }

  /** What the college last said, and when; an upload says nothing. */
  function CollegeTold(requests: seq<(Request, int)>): Option<CollegeForm> {
    if requests == [] then None
    else
      var (request, now) := requests[|requests| - 1];
      var before := CollegeTold(requests[..|requests| - 1]);
      match request
      case SubmitCollege(verified) => Some(CollegeForm(verified, Some(now)))
      case UploadCollegeDocument => if before.Some? then before else Some(CollegeForm(false, None))
      case _ => before
  }

  /** Created by the first submission that finds both sides done, completed by the first completion after. */
  function OpeningTold(requests: seq<(Request, int)>): Option<Opening> {
    if requests == [] then None
    else
      var (request, now) := requests[|requests| - 1];
      var before := OpeningTold(requests[..|requests| - 1]);
      if before.None? then
        var parent, college := ParentTold(requests), CollegeTold(requests);
        if (request.SubmitParent? || request.SubmitCollege?)
           && parent.Some? && parent.value.submittedAt.Some? && college.Some? && college.value.verified
        then Some(Opening(false, now, None, None)) else None
      else if request.Complete? && !before.value.completed then
        Some(Opening(true, before.value.notifiedAt, Some(now), Some(now)))
      else before
  }

  lemma {:induction false} SidesAreAsTold(requests: seq<(Request, int)>)
    ensures var r := After(NO_ROWS, requests); r.parent == ParentTold(requests) && r.college == CollegeTold(requests)
  {
    if requests != [] {
      SidesAreAsTold(requests[..|requests| - 1]);
    }
  }

  /** After any requests each row is what those about it say; the gate follows from the other two. */
  lemma {:induction false} RowsAreAsTold(requests: seq<(Request, int)>)
    ensures After(NO_ROWS, requests) == Rows(ParentTold(requests), CollegeTold(requests), OpeningTold(requests))
    ensures var opening := OpeningTold(requests); opening.Some? && !opening.value.completed ==> opening.value.clickedAt.None?
  {
    SidesAreAsTold(requests);
    if requests != [] {
      var prefix := requests[..|requests| - 1];
      var (request, now) := requests[|requests| - 1];
      RowsAreAsTold(prefix);
      var before := After(NO_ROWS, prefix);
      assert After(NO_ROWS, requests) == Apply(before, request, now).GetOr(before);
      NextOpening(before, request, now);
    }
  }

  lemma NextOpening(r: Rows, request: Request, now: int)
    requires r.opening.Some? && !r.opening.value.completed ==> r.opening.value.clickedAt.None?
    ensures var after := Apply(r, request, now).GetOr(r);
            after.opening ==
              if r.opening.None? then
                (if (request.SubmitParent? || request.SubmitCollege?) && Submitted(after) && Confirmed(after)
                 then Some(Opening(false, now, None, None)) else None)
              else if request.Complete? && !r.opening.value.completed then
                Some(Opening(true, r.opening.value.notifiedAt, Some(now), Some(now)))
              else r.opening
  {
  }

  // ---- Requests in parallel ------------------------------------------------------------------------

  /**
   A request in progress. Only single statements are atomic: the check of both sides reads the
   three rows one at a time, and decides and creates later.
   */
  datatype Task =
    | Started(request: Request)
    | Checking(sawSubmitted: Option<bool>, sawConfirmed: Option<bool>, sawOpening: Option<bool>)
    | Creating
    | Marking(clickedAt: Option<int>) // has read a requirement that is not completed
    | Finished
    | Failed

  /** Which row a check reads next. */
  datatype Read = ReadParent | ReadCollege | ReadOpening

  datatype World = World(rows: Rows, tasks: seq<Task>)

  datatype Event = Arrive(request: Request) | Proceed(task: nat, read: Read, now: int)

  function Decided(t: Task): Task
    requires t.Checking?
  {
    if t.sawSubmitted.None? || t.sawConfirmed.None? || t.sawOpening.None? then t
    else if !t.sawOpening.value && t.sawSubmitted.value && t.sawConfirmed.value then Creating
    else Finished
  }

  /** One statement of one request. */
  function Advance(r: Rows, t: Task, read: Read, now: int): (Rows, Task) {
    match t
    case Started(SubmitParent) => (ParentSubmitted(r, now), Checking(None, None, None))
    case Started(SubmitCollege(verified)) => (CollegeSubmitted(r, verified, now), Checking(None, None, None))
    case Started(UploadParentDocument) => (ParentEnsured(r), Finished)
    case Started(UploadCollegeDocument) => (CollegeEnsured(r), Finished)
    case Started(Complete) =>
      (r, if r.opening.None? then Failed
          else if r.opening.value.completed then Finished
          else Marking(r.opening.value.clickedAt))
    case Checking(sawSubmitted, sawConfirmed, sawOpening) =>
      (r, Decided(match read
                  case ReadParent => t.(sawSubmitted := sawSubmitted.Or(Some(Submitted(r))))
                  case ReadCollege => t.(sawConfirmed := sawConfirmed.Or(Some(Confirmed(r))))
                  case ReadOpening => t.(sawOpening := sawOpening.Or(Some(r.opening.Some?)))))
    case Creating => if r.opening.Some? then (r, Failed) else (Required(r, now), Finished) // one row per application
    case Marking(clickedAt) => if r.opening.None? then (r, Failed) else (Completed(r, clickedAt, now), Finished)
    case _ => (r, t)
  }

  function Next(w: World, e: Event): World {
    match e
    case Arrive(request) => w.(tasks := w.tasks + [Started(request)])
    case Proceed(i, read, now) =>
      if i >= |w.tasks| then w
      else
        var (rows, task) := Advance(w.rows, w.tasks[i], read, now);
        World(rows, w.tasks[i := task])
  }

  predicate Run(worlds: seq<World>, events: seq<Event>) {
    && |worlds| == |events| + 1
    && worlds[0] == World(NO_ROWS, [])
    && forall k :: 0 <= k < |events| ==> worlds[k + 1] == Next(worlds[k], events[k])
  }

  /** The task will create the requirement if it is still missing then and both sides stay done. */
  predicate Charged(t: Task) {
    || t.Creating?
    || (t.Checking? && t.sawSubmitted != Some(false) && t.sawConfirmed != Some(false) && t.sawOpening != Some(true)
        && Decided(t) == t)
  }

  predicate SomeoneCharged(w: World) {
    exists i :: 0 <= i < |w.tasks| && Charged(w.tasks[i])
  }

  predicate NothingLost(w: World) {
    Submitted(w.rows) && Confirmed(w.rows) && w.rows.opening.None? ==> SomeoneCharged(w)
  }

  lemma NextLosesNothing(w: World, e: Event)
    requires NothingLost(w)
    ensures NothingLost(Next(w, e))
  {
    var after := Next(w, e);
    if Submitted(after.rows) && Confirmed(after.rows) && after.rows.opening.None? {
      if e.Proceed? && e.task < |w.tasks| && Charged(after.tasks[e.task]) {
        assert SomeoneCharged(after);
      } else {
        assert SomeoneCharged(w);
        var i :| 0 <= i < |w.tasks| && Charged(w.tasks[i]);
        assert Charged(after.tasks[i]);
      }
    }
  }

  /**
   However requests overlap, if the parent has submitted, the college confirms and the
   requirement is missing, some request is still about to create it.
   */
  lemma {:induction false} NoRequirementIsLost(worlds: seq<World>, events: seq<Event>, k: nat)
    requires Run(worlds, events) && k <= |events|
    ensures NothingLost(worlds[k])
  {
    if k > 0 {
      NoRequirementIsLost(worlds, events, k - 1);
      NextLosesNothing(worlds[k - 1], events[k - 1]);
    }
  }

  predicate Quiet(w: World) {
    forall i :: 0 <= i < |w.tasks| ==> w.tasks[i].Finished? || w.tasks[i].Failed?
  }

  /** So between requests both sides done means the requirement exists. */
  lemma QuietMeansRequired(worlds: seq<World>, events: seq<Event>, k: nat)
    requires Run(worlds, events) && k <= |events| && Quiet(worlds[k])
    requires Submitted(worlds[k].rows) && Confirmed(worlds[k].rows)
    ensures worlds[k].rows.opening.Some?
  {
    NoRequirementIsLost(worlds, events, k);
  }

  /** And then the student can complete it and is queued: nobody is stuck at the gate. */
  lemma NobodyIsStuck(worlds: seq<World>, events: seq<Event>, k: nat, now: int)
    requires Run(worlds, events) && k <= |events| && Quiet(worlds[k])
    requires Submitted(worlds[k].rows) && Confirmed(worlds[k].rows)
    ensures var after := Apply(worlds[k].rows, Complete, now);
            after.Some? && InQueue(Student, after.value)
  {
    QuietMeansRequired(worlds, events, k);
  }

  // ---- What a requirement proves ---------------------------------------------------------------------

  /** The college had confirmed at some point of the run up to k. */
  ghost predicate EverConfirmed(worlds: seq<World>, k: nat)
    requires k < |worlds|
  {
    exists j :: 0 <= j <= k && Confirmed(worlds[j].rows)
  }

  predicate ParentClaims(w: World) {
    && (w.rows.opening.Some? ==> Submitted(w.rows))
    && (w.rows.opening.Some? && w.rows.opening.value.completed ==> w.rows.opening.value.completedAt.Some?)
    && forall i :: 0 <= i < |w.tasks| && (w.tasks[i].Creating? || (w.tasks[i].Checking? && w.tasks[i].sawSubmitted == Some(true)))
         ==> Submitted(w.rows)
  }

  /** Some row or request depends on the college's confirmation. */
  predicate CollegeClaimed(w: World) {
    w.rows.opening.Some? || exists i :: 0 <= i < |w.tasks| && ClaimsCollege(w.tasks[i])
  }

  predicate ClaimsCollege(t: Task) {
    t.Creating? || (t.Checking? && t.sawConfirmed == Some(true))
  }

  lemma NextKeepsParentClaims(w: World, e: Event)
    requires ParentClaims(w)
    ensures ParentClaims(Next(w, e))
  {
  }

  lemma NextClaimsCollege(w: World, e: Event)
    requires CollegeClaimed(Next(w, e))
    ensures CollegeClaimed(w) || Confirmed(w.rows)
  {
    var after := Next(w, e);
    if after.rows.opening.None? {
      var i :| 0 <= i < |after.tasks| && ClaimsCollege(after.tasks[i]);
      assert i < |w.tasks|;
      assert ClaimsCollege(w.tasks[i]) || Confirmed(w.rows);
    } else if w.rows.opening.None? {
      assert ClaimsCollege(w.tasks[e.task]);
    }
  }

  lemma {:induction false} ClaimsHold(worlds: seq<World>, events: seq<Event>, k: nat)
    requires Run(worlds, events) && k <= |events|
    ensures ParentClaims(worlds[k]) && (CollegeClaimed(worlds[k]) ==> EverConfirmed(worlds, k))
  {
    if k > 0 {
      ClaimsHold(worlds, events, k - 1);
      NextKeepsParentClaims(worlds[k - 1], events[k - 1]);
      if CollegeClaimed(worlds[k]) {
        NextClaimsCollege(worlds[k - 1], events[k - 1]);
        if EverConfirmed(worlds, k - 1) {
          var j :| 0 <= j <= k - 1 && Confirmed(worlds[j].rows);
          assert j <= k && Confirmed(worlds[j].rows);
        }
      }
    }
  }

  datatype Source = Student | Initiator

  /** The filter of the Initiator's queue. */
  predicate InQueue(source: Source, r: Rows) {
    (r.opening.Some? && r.opening.value.completed) || source.Initiator?
  }

  /** A student's application in the queue has passed all three gates, whatever overlapped. */
  lemma QueuedMeansAllThreeGates(worlds: seq<World>, events: seq<Event>, k: nat)
    requires Run(worlds, events) && k <= |events| && InQueue(Student, worlds[k].rows)
    ensures Submitted(worlds[k].rows) && EverConfirmed(worlds, k)
    ensures worlds[k].rows.opening.Some? && worlds[k].rows.opening.value.completedAt.Some?
  {
    ClaimsHold(worlds, events, k);
  }

  /** That is all it proves: the college may take its confirmation back and the application stays queued. */
  lemma WithdrawalKeepsQueued(r: Rows, now: int)
    requires InQueue(Student, r)
    ensures var after := Apply(r, SubmitCollege(false), now);
            after.Some? && InQueue(Student, after.value) && !Confirmed(after.value)
  {
  }

  // ---- Completion when requests overlap ----------------------------------------------------------------

  /** In parallel a requirement never disappears and stays completed; but its time of completion
      moves exactly when a request that read it as pending writes after another one did. */
  lemma CompletedStaysCompleted(w: World, e: Event)
    requires w.rows.opening.Some? && w.rows.opening.value.completed
    ensures var after := Next(w, e).rows.opening;
            && after.Some? && after.value.completed
            && (after.value.completedAt != w.rows.opening.value.completedAt <==>
                  e.Proceed? && e.task < |w.tasks| && w.tasks[e.task].Marking?
                  && Some(e.now) != w.rows.opening.value.completedAt)
  {
  }

  // ---- A request on its own is its statements in order ----------------------------------------------------

  function Alone(r: Rows, t: Task, now: int, order: seq<Read>): (Rows, Task)
    decreases |order|
  {
    if order == [] then (r, t)
    else
      var (rows, task) := Advance(r, t, order[0], now);
      Alone(rows, task, now, order[1..])
  }

  lemma AloneStep(r: Rows, t: Task, now: int, first: Read, rest: seq<Read>)
    ensures var (rows, task) := Advance(r, t, first, now);
            Alone(r, t, now, [first] + rest) == Alone(rows, task, now, rest)
  {
    assert ([first] + rest)[1..] == rest;
  }

  /** Run without interruption, with the three reads in any order, a request does what the
      sequential model says. */
  lemma UninterruptedIsAtomic(r: Rows, request: Request, now: int, a: Read, b: Read, c: Read)
    requires a != b && b != c && a != c
    ensures var (rows, task) := Alone(r, Started(request), now, [a] + ([a] + ([b] + ([c] + ([a] + [])))));
            && (task.Finished? || task.Failed?)
            && (task.Failed? <==> Apply(r, request, now).None?)
            && (task.Finished? ==> Apply(r, request, now) == Some(rows))
  {
    var (r1, t1) := Advance(r, Started(request), a, now);
    var (r2, t2) := Advance(r1, t1, a, now);
    var (r3, t3) := Advance(r2, t2, b, now);
    var (r4, t4) := Advance(r3, t3, c, now);
    AloneStep(r, Started(request), now, a, [a] + ([b] + ([c] + ([a] + []))));
    AloneStep(r1, t1, now, a, [b] + ([c] + ([a] + [])));
    AloneStep(r2, t2, now, b, [c] + ([a] + []));
    AloneStep(r3, t3, now, c, [a] + []);
    AloneStep(r4, t4, now, a, []);
  }
}
