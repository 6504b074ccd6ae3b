/** Every interleaving of the actors that race for a request.

    The submitter, the WskSend completion, the receiver of RET_SUBMIT, the WDF cancel callback and
    the completion DPCs take the critical sections of RequestList in any order; each section is one
    event, and what an actor does between two sections is its program counter in Actors. WDF itself is
    the environment: it dispatches requests, refuses or grants cancellation, and runs DPCs. */
module RequestLifecycle {
  import opened NtStatus
  import opened Wrappers
  import opened RequestList

  /** Idle: the framework owns the request. Handed: the submitter has returned STATUS_PENDING. */
  datatype Submit = Idle | Dispatched | Ready | Rejecting(status: Status) | Numbered(seqnum: nat) | Handed

  /** InFlight: WskSend owns the IRP. Refused: send_complete got an error and must finish the request. */
  datatype Send = NoSend | InFlight(seqnum: nat) | Refused(status: Status)

  /** Granted: WDF will call the cancel callback. Unlinking: the callback is past its section. */
  datatype Cancellation = Unmarked | Marked | Granted | Unlinking

  /** The first actor that tried to decide the outcome of this dispatch, a history variable. */
  datatype Claim =
    | Unclaimed
    | Rejection(status: Status)
    | SendError(status: Status)
    | MarkFailure(status: Status)
    | Cancelled
    | Response(answer: Option<Status>)

  datatype Actors = Actors(
    submit: Submit,
    send: Send,
    responding: bool,
    cancel: Cancellation,
    completing: Option<Status>,  // a DPC has taken it off the queue with this status
    claim: Claim,
    given: nat,                  // times the framework handed it to the driver
    returned: nat)               // times the driver completed it

  const AT_REST := Actors(Idle, NoSend, false, Unmarked, None, Unclaimed, 0, 0)

  /** owed: threads that saw the queue become non-empty and have not called WdfDpcEnqueue yet. */
  datatype Dpc = Dpc(queued: bool, looping: nat, owed: nat)

  datatype System = System(dev: DeviceState, actors: map<RequestId, Actors>, dpc: Dpc)

  datatype Event =
    | Dispatch(r: RequestId)
    | InitFails(r: RequestId)
    | Init(r: RequestId)
    | Reject(r: RequestId, status: Status)
    | RejectDone(r: RequestId)
    | Number(r: RequestId, seqnum: nat)
    | List(r: RequestId)
    | SendDone(r: RequestId, status: Status, mark: Status)
    | RefusalDone(r: RequestId)
    | Receive(seqnum: nat)
    | ResponseDone(r: RequestId, status: Status)
    | GrantCancel(r: RequestId)
    | CancelSection(r: RequestId)
    | CancelDone(r: RequestId)
    | EnqueueDpc
    | StartDpc
    | DpcTake
    | DpcComplete(r: RequestId)

  const START := System(DeviceState(map[], [], []), map[], Dpc(false, 0, 0))

  function ActorsOf(s: System, r: RequestId): Actors {
    if r in s.actors then s.actors[r] else AT_REST
  }

  function First(claim: Claim, attempt: Claim): Claim {
    if claim.Unclaimed? then attempt else claim
  }

  /** on_send_complete gets as far as WdfRequestMarkCancelableEx. */
  predicate MarkAttempted(v: View, seqnum: nat, status: Status) {
    && v.ctx.seqnum == seqnum && v.ctx.sendCompletionPending && !NtError(status)
    && !v.ctx.terminal && !v.ctx.responseInProgress && v.listed
  }

  /** The request a step works on. */
  function Target(s: System, e: Event): Option<RequestId>
    requires forall x | x in s.dev.requests :: x in s.dev.contexts
  {
    match e
    case Receive(seqnum) => FirstWithSeqnum(s.dev, seqnum)
    case DpcTake => if s.dev.completions == [] then None else Some(s.dev.completions[0])
    case EnqueueDpc => None
    case StartDpc => None
    case _ => Some(e.r)
  }

  predicate EnabledFor(a: Actors, e: Event) {
    match e
    case Dispatch(_) => a.submit.Idle?
    case InitFails(_) => a.submit.Dispatched?
    case Init(_) => a.submit.Dispatched? || a.submit.Ready?
    case Reject(_, _) => a.submit.Ready?
    case RejectDone(_) => a.submit.Rejecting?
    case Number(_, _) => a.submit.Ready?
    case List(_) => a.submit.Numbered?
    case SendDone(_, _, _) => a.send.InFlight?
    case RefusalDone(_) => a.send.Refused?
    case ResponseDone(_, _) => a.responding
    case GrantCancel(_) => a.cancel.Marked?
    case CancelSection(_) => a.cancel.Granted?
    case CancelDone(_) => a.cancel.Unlinking?
    case DpcComplete(_) => a.completing.Some?
    case _ => true
  }

  predicate Enabled(s: System, e: Event)
    requires forall x | x in s.dev.requests :: x in s.dev.contexts
  {
    && (e.EnqueueDpc? ==> s.dpc.owed > 0)
    && (e.StartDpc? ==> s.dpc.queued)
    && (e.DpcTake? ==> s.dpc.looping > 0)
    && (e.InitFails? ==> e.r !in s.dev.contexts)
    && (Target(s, e).Some? ==> EnabledFor(ActorsOf(s, Target(s, e).value), e))
  }

  /** What a step does to its request. */
  function Effect(v: View, a: Actors, e: Event): (View, Actors)
    requires EnabledFor(a, e)
  {
    match e
    case Dispatch(_) => (v, a.(submit := Dispatched, claim := Unclaimed, given := a.given + 1))
    case InitFails(_) => (v, a.(submit := Idle, returned := a.returned + 1))
    case Init(_) => (View(FRESH_CTX, false, false), a.(submit := Ready))
    case Reject(_, st) => (v, a.(submit := Rejecting(st), claim := First(a.claim, Rejection(st))))
    case RejectDone(_) => (EnqueueView(v, a.submit.status), a.(submit := Handed))
    case Number(_, n) => (PrepareView(v, n), a.(submit := Numbered(n)))
    case List(_) => (v.(listed := true), a.(submit := Handed, send := InFlight(a.submit.seqnum)))
    case SendDone(_, st, mark) =>
      var (v', result) := SendCompleteView(v, a.send.seqnum, st, mark);
      var attempted := MarkAttempted(v, a.send.seqnum, st);
      // send_complete looks at the result only when the send succeeded
      (v', a.(send := if NtSuccess(st) && NtError(result) then Refused(result) else NoSend,
              cancel := if attempted && !NtError(mark) then Marked else a.cancel,
              claim := if NtError(st) then First(a.claim, SendError(st))
                       else if attempted && NtError(mark) then First(a.claim, MarkFailure(mark))
                       else a.claim))
    case RefusalDone(_) => (EnqueueView(v, a.send.status), a.(send := NoSend))
    case Receive(_) =>
      var (v', owner) := TakeResponse(v, if a.cancel.Granted? then STATUS_CANCELLED else STATUS_SUCCESS);
      (v', a.(responding := a.responding || owner,
              cancel := if a.cancel.Marked? then Unmarked else a.cancel,
              claim := First(a.claim, Response(None))))
    case ResponseDone(_, st) =>
      (EnqueueView(v, st),
       a.(responding := false, claim := if a.claim.Response? then Response(Some(st)) else a.claim))
    case GrantCancel(_) => (v, a.(cancel := Granted, claim := First(a.claim, Cancelled)))
    case CancelSection(_) => (CancelView(v), a.(cancel := Unlinking))
    case CancelDone(_) => (EnqueueView(v, STATUS_CANCELLED), a.(cancel := Unmarked))
    case DpcTake => (v.(queued := false), a.(completing := Some(v.ctx.completionStatus)))
    case DpcComplete(_) => (v, a.(submit := Idle, completing := None, returned := a.returned + 1))
    case EnqueueDpc => (v, a)
    case StartDpc => (v, a)
  }

  /** The system after one request has been changed; known: it has a context. */
  function Commit(s: System, r: RequestId, v: View, a: Actors, known: bool): System {
    var dev := if known then Lift(s.dev, r, v) else s.dev;
    var saw := s.dev.completions == [] && dev.completions != [];
    System(dev, s.actors[r := a], s.dpc.(owed := s.dpc.owed + if saw then 1 else 0))
  }

  /** InitFails completes the request without a context; every later step works on its context. */
  function Touch(s: System, r: RequestId, e: Event): System
    requires EnabledFor(ActorsOf(s, r), e)
  {
    var (v, a) := Effect(ViewOf(s.dev, r), ActorsOf(s, r), e);
    Commit(s, r, v, a, !(e.InitFails? || e.Dispatch?))
  }

  function Apply(s: System, e: Event): System
    requires forall x | x in s.dev.requests :: x in s.dev.contexts
    requires Enabled(s, e)
  {
    var t := match Target(s, e) case Some(r) => Touch(s, r, e) case None => s;
    match e
    case EnqueueDpc => t.(dpc := t.dpc.(queued := true, owed := t.dpc.owed - 1))
    case StartDpc => t.(dpc := t.dpc.(queued := false, looping := t.dpc.looping + 1))
    case DpcTake => t.(dpc := t.dpc.(looping := t.dpc.looping - 1))
    case DpcComplete(_) => t.(dpc := t.dpc.(looping := t.dpc.looping + 1))
    case _ => t
  }

  // ----- ownership -----

  function Count(b: bool): nat { if b then 1 else 0 }

  predicate SubmitterOwns(a: Actors) { !a.submit.Idle? && !a.submit.Handed? }

  predicate WireOwns(v: View, a: Actors) { v.listed && !a.cancel.Granted? }

  predicate CancelOwns(a: Actors) { a.cancel.Granted? || a.cancel.Unlinking? }

  predicate AwaitsSend(v: View, a: Actors) {
    a.submit.Handed? && v.ctx.terminal && v.ctx.sendCompletionPending
  }

  /** How many parties believe they must bring the request to its completion. */
  function Owners(v: View, a: Actors): nat {
    Count(SubmitterOwns(a)) + Count(WireOwns(v, a)) + Count(a.send.Refused?) + Count(CancelOwns(a)) +
    Count(a.responding) + Count(AwaitsSend(v, a)) + Count(v.queued) + Count(a.completing.Some?)
  }

  /** The status the first claimant stands for. */
  predicate DecidedBy(claim: Claim, status: Status) {
    match claim
    case Unclaimed => false
    case Rejection(st) => status == st
    case SendError(st) => status == st
    case MarkFailure(st) => status == st
    case Cancelled => status == STATUS_CANCELLED
    case Response(answer) => answer == Some(status)
  }

  predicate ClaimMatchesOwner(v: View, a: Actors) {
    && (SubmitterOwns(a) && !a.submit.Rejecting? ==> a.claim.Unclaimed?)
    && (a.submit.Rejecting? ==> a.claim == Rejection(a.submit.status))
    && (WireOwns(v, a) ==> a.claim.Unclaimed?)
    && (a.send.Refused? ==> a.claim == MarkFailure(a.send.status))
    && (CancelOwns(a) ==> a.claim.Cancelled?)
    && (a.responding ==> a.claim == Response(None))
    && (a.submit.Handed? && v.ctx.terminal ==> DecidedBy(a.claim, v.ctx.completionStatus))
  }

  /** What holds of one request in every reachable state. */
  predicate Good(v: View, a: Actors, known: bool) {
    && (!a.submit.Idle? && !a.submit.Dispatched? ==> known)
    && Owners(v, a) == Count(!a.submit.Idle?)
    && a.given == a.returned + Count(!a.submit.Idle?)
    && FlagsMatch(v, a)
    && ClaimMatchesOwner(v, a)
  }

  /** The flags of the context agree with the program counters. */
  predicate FlagsMatch(v: View, a: Actors) {
    && (v.ctx.sendCompletionPending <==> a.send.InFlight? || a.submit.Numbered?)
    && (a.send.InFlight? ==> a.send.seqnum == v.ctx.seqnum && a.submit.Handed?)
    && (a.submit.Numbered? ==> a.submit.seqnum == v.ctx.seqnum)
    && (v.ctx.cancelable <==> v.listed && (a.cancel.Marked? || a.cancel.Granted?))
    && (a.cancel.Marked? ==> v.listed)
    && (!a.cancel.Unmarked? ==> !v.ctx.sendCompletionPending)
    && (WireOwns(v, a) ==> (a.cancel.Marked? <==> !a.send.InFlight?))
    && (v.ctx.responseInProgress <==> a.responding)
    && (a.submit.Ready? || a.submit.Rejecting? || a.submit.Numbered? ==> !v.ctx.terminal)
    && (a.submit.Handed? ==>
          (v.ctx.terminal <==> AwaitsSend(v, a) || v.queued || a.completing.Some?))
    && (v.queued || a.completing.Some? ==> !v.ctx.sendCompletionPending)
    && (a.completing.Some? ==> a.completing.value == v.ctx.completionStatus)
  }

  /** A handed request nobody will finish: no owner, no WskSend, not cancelable. */
  predicate Lost(v: View, a: Actors) {
    && a.submit.Handed? && a.given == a.returned + 1 && !v.ctx.terminal
    && Owners(v, a) == 0 && a.send.NoSend? && a.cancel.Unmarked?
  }

  /** send_complete ignores the result of on_send_complete unless NT_SUCCESS(status). With a warning
      status and a refused mark nobody is told to finish the unlisted request. */
  predicate Orphaning(v: View, a: Actors, e: Event) {
    && e.SendDone? && a.send.InFlight?
    && NtWarning(e.status) && NtError(e.mark) && MarkAttempted(v, a.send.seqnum, e.status)
  }

  ghost predicate Shape(d: DeviceState) {
    && NoDuplicates(d.requests) && NoDuplicates(d.completions)
    && (forall x | x in d.requests :: x in d.contexts)
    && (forall x | x in d.completions :: x in d.contexts)
  }

  ghost predicate GoodAt(s: System, r: RequestId) {
    Good(ViewOf(s.dev, r), ActorsOf(s, r), r in s.dev.contexts)
  }

  ghost predicate LostAt(s: System, r: RequestId) {
    Lost(ViewOf(s.dev, r), ActorsOf(s, r))
  }

  ghost predicate Consistent(s: System) {
    Shape(s.dev) && forall r :: GoodAt(s, r) || LostAt(s, r)
  }

  /** Somebody is going to look at a non-empty completion queue. */
  ghost predicate DrainPromised(s: System) {
    s.dev.completions != [] ==>
      s.dpc.queued || s.dpc.looping > 0 || s.dpc.owed > 0 || exists r :: ActorsOf(s, r).completing.Some?
  }

  ghost predicate Inv(s: System) { Consistent(s) && DrainPromised(s) }

  /** The step drops request r. */
  ghost predicate Drops(s: System, e: Event, r: RequestId) {
    e.SendDone? && e.r == r && Orphaning(ViewOf(s.dev, r), ActorsOf(s, r), e)
  }

  // ----- one step -----

  predicate Reaches(v: View, e: Event) {
    (e.Receive? ==> v.listed) && (e.DpcTake? ==> v.queued)
  }

  lemma EffectKeepsOwners(v: View, a: Actors, known: bool, e: Event)
    requires Good(v, a, known) && EnabledFor(a, e) && Reaches(v, e)
    ensures var (v', a') := Effect(v, a, e);
            && (!Orphaning(v, a, e) ==> Owners(v', a') == Count(!a'.submit.Idle?))
            && (Orphaning(v, a, e) ==> Lost(v', a'))
            && a'.given == a'.returned + Count(!a'.submit.Idle?)
  {
    hide ClaimMatchesOwner;
  }

  lemma EffectKeepsFlags(v: View, a: Actors, known: bool, e: Event)
    requires Good(v, a, known) && EnabledFor(a, e) && Reaches(v, e) && !Orphaning(v, a, e)
    ensures FlagsMatch(Effect(v, a, e).0, Effect(v, a, e).1)
  {
    hide ClaimMatchesOwner;
  }

  lemma EffectKeepsClaim(v: View, a: Actors, known: bool, e: Event)
    requires Good(v, a, known) && EnabledFor(a, e) && Reaches(v, e) && !Orphaning(v, a, e)
    ensures ClaimMatchesOwner(Effect(v, a, e).0, Effect(v, a, e).1)
  {
  }

  lemma EffectKeepsGood(v: View, a: Actors, known: bool, e: Event)
    requires Good(v, a, known) && EnabledFor(a, e) && Reaches(v, e)
    ensures var (v', a') := Effect(v, a, e);
            if Orphaning(v, a, e) then Lost(v', a')
            else Good(v', a', known || !(e.InitFails? || e.Dispatch?))
  {
    hide Owners, FlagsMatch, ClaimMatchesOwner, Lost, Orphaning;
    EffectKeepsOwners(v, a, known, e);
    if !Orphaning(v, a, e) {
      EffectKeepsFlags(v, a, known, e);
      EffectKeepsClaim(v, a, known, e);
    }
  }

  /** No actor can take a step with a lost request. */
  lemma LostIsInert(v: View, a: Actors, e: Event)
    requires Lost(v, a) && Reaches(v, e) && !e.EnqueueDpc? && !e.StartDpc?
    ensures !EnabledFor(a, e)
  {
  }

  /** Committing a request leaves every other request, and the shape of the lists, alone. */
  lemma CommitViews(s: System, r: RequestId, v: View, a: Actors, known: bool)
    requires Shape(s.dev) && (known || v == ViewOf(s.dev, r))
    ensures var s' := Commit(s, r, v, a, known);
            && ViewOf(s'.dev, r) == v && ActorsOf(s', r) == a
            && (r in s'.dev.contexts <==> r in s.dev.contexts || known)
            && (forall x | x != r :: ViewOf(s'.dev, x) == ViewOf(s.dev, x) && ActorsOf(s', x) == ActorsOf(s, x))
            && (forall x | x != r :: x in s'.dev.contexts <==> x in s.dev.contexts)
            && Shape(s'.dev)
  {
    LiftViews(s.dev, r, v);
    UnlinkMembers(s.dev.requests, r);
    UnlinkMembers(s.dev.completions, r);
  }

  lemma CommitKeepsConsistent(s: System, r: RequestId, v: View, a: Actors, known: bool)
    requires Consistent(s) && (known || v == ViewOf(s.dev, r))
    requires Good(v, a, known || r in s.dev.contexts) || Lost(v, a)
    ensures var s' := Commit(s, r, v, a, known);
            && Consistent(s')
            && (LostAt(s', r) <==> Lost(v, a))
            && forall x | x != r :: LostAt(s', x) <==> LostAt(s, x)
  {
    CommitViews(s, r, v, a, known);
    var s' := Commit(s, r, v, a, known);
    forall x | x != r
      ensures (GoodAt(s', x) || LostAt(s', x)) && (LostAt(s', x) <==> LostAt(s, x))
    {
      assert GoodAt(s, x) || LostAt(s, x);
    }
    assert GoodAt(s', r) || LostAt(s', r);
  }

  /** The promise survives a step that does not take an actor away from the queue. */
  lemma CommitKeepsPromise(s: System, r: RequestId, v: View, a: Actors, known: bool)
    requires Inv(s)
    requires ActorsOf(s, r).completing.Some? ==> a.completing.Some?
    ensures DrainPromised(Commit(s, r, v, a, known))
  {
    var s' := Commit(s, r, v, a, known);
    if s.dev.completions != [] && s'.dev.completions != [] {
      if x :| ActorsOf(s, x).completing.Some? {
        assert ActorsOf(s', x).completing.Some?;
      }
    }
  }

  lemma StepKeepsPromise(s: System, e: Event)
    requires Inv(s) && Enabled(s, e) && Target(s, e).Some?
    ensures DrainPromised(Apply(s, e))
  {
    var r := Target(s, e).value;
    var (v, a) := Effect(ViewOf(s.dev, r), ActorsOf(s, r), e);
    if e.DpcTake? {
      assert ActorsOf(Apply(s, e), r).completing.Some?;
    } else if !e.DpcComplete? {
      assert a.completing == ActorsOf(s, r).completing;
      CommitKeepsPromise(s, r, v, a, !(e.InitFails? || e.Dispatch?));
    }
  }

  lemma SameRequests(s: System, t: System)
    requires s.dev == t.dev && s.actors == t.actors
    ensures Consistent(s) <==> Consistent(t)
    ensures forall r :: LostAt(s, r) <==> LostAt(t, r)
  {
    assert forall r :: GoodAt(s, r) <==> GoodAt(t, r);
    assert forall r :: LostAt(s, r) <==> LostAt(t, r);
  }

  lemma GoodIsNotLost(v: View, a: Actors, known: bool)
    ensures !(Good(v, a, known) && Lost(v, a))
  {
  }

  lemma DropsOnlyTarget(s: System, e: Event, r: RequestId)
    requires Shape(s.dev) && Target(s, e) == Some(r)
    ensures Drops(s, e, r) <==> Orphaning(ViewOf(s.dev, r), ActorsOf(s, r), e)
    ensures forall x | x != r :: !Drops(s, e, x)
    ensures Reaches(ViewOf(s.dev, r), e)
    ensures !e.EnqueueDpc? && !e.StartDpc?
  {
  }

  lemma EffectWithoutContext(v: View, a: Actors, e: Event)
    requires EnabledFor(a, e) && (e.InitFails? || e.Dispatch?)
    ensures Effect(v, a, e).0 == v
  {
  }

  function After(s: System, e: Event, r: RequestId): (View, Actors)
    requires EnabledFor(ActorsOf(s, r), e)
  {
    Effect(ViewOf(s.dev, r), ActorsOf(s, r), e)
  }

  predicate GoodOrLost(p: (View, Actors), known: bool) {
    Good(p.0, p.1, known) || Lost(p.0, p.1)
  }

  /** What a step makes of the request it works on, which is never a lost one. */
  lemma TargetOutcome(s: System, e: Event, r: RequestId)
    requires Consistent(s) && Enabled(s, e) && Target(s, e) == Some(r)
    ensures !LostAt(s, r)
    ensures GoodOrLost(After(s, e, r), !(e.InitFails? || e.Dispatch?) || r in s.dev.contexts)
    ensures Lost(After(s, e, r).0, After(s, e, r).1) <==> Drops(s, e, r)
  {
    hide Effect, Good, Lost, EnabledFor, Orphaning, Drops, Reaches, Target;
    var v, a, known := ViewOf(s.dev, r), ActorsOf(s, r), r in s.dev.contexts;
    assert GoodAt(s, r) || LostAt(s, r);
    DropsOnlyTarget(s, e, r);
    if LostAt(s, r) {
      LostIsInert(v, a, e);
    }
    GoodIsNotLost(v, a, known);
    EffectKeepsGood(v, a, known, e);
    var (v', a') := Effect(v, a, e);
    GoodIsNotLost(v', a', known || !(e.InitFails? || e.Dispatch?));
  }

  lemma TargetStep(s: System, e: Event, r: RequestId)
    requires Consistent(s) && Enabled(s, e) && Target(s, e) == Some(r)
    ensures Consistent(Apply(s, e))
    ensures forall x :: LostAt(Apply(s, e), x) <==> LostAt(s, x) || Drops(s, e, x)
  {
    hide Effect, Good, Lost, EnabledFor, Drops;
    TargetOutcome(s, e, r);
    DropsOnlyTarget(s, e, r);
    var (v, a) := Effect(ViewOf(s.dev, r), ActorsOf(s, r), e);
    if e.InitFails? || e.Dispatch? {
      EffectWithoutContext(ViewOf(s.dev, r), ActorsOf(s, r), e);
    }
    CommitKeepsConsistent(s, r, v, a, !(e.InitFails? || e.Dispatch?));
    SameRequests(Apply(s, e), Commit(s, r, v, a, !(e.InitFails? || e.Dispatch?)));
  }

  /** Every step keeps the invariant, and a request becomes lost only in a step that drops it. */
  lemma Step(s: System, e: Event)
    requires Inv(s) && Enabled(s, e)
    ensures Inv(Apply(s, e))
    ensures forall x :: LostAt(Apply(s, e), x) <==> LostAt(s, x) || Drops(s, e, x)
  {
    if Target(s, e) == None {
      SameRequests(Apply(s, e), s);
    } else {
      TargetStep(s, e, Target(s, e).value);
      StepKeepsPromise(s, e);
    }
  }

  // ----- whole runs -----

  predicate Legal(s: System, es: seq<Event>)
    decreases |es|
  {
    es == [] ||
    ((forall x | x in s.dev.requests :: x in s.dev.contexts) && Enabled(s, es[0]) &&
     Legal(Apply(s, es[0]), es[1..]))
  }

  function Run(s: System, es: seq<Event>): System
    requires Legal(s, es)
    decreases |es|
  {
    if es == [] then s else Run(Apply(s, es[0]), es[1..])
  }

  predicate IsDispatch(e: Event, r: RequestId) { e == Dispatch(r) }

  /** The two ways a request goes back to the framework. */
  predicate IsCompletion(e: Event, r: RequestId) { e == DpcComplete(r) || e == InitFails(r) }

  function Dispatches(es: seq<Event>, r: RequestId): nat {
    if es == [] then 0 else Count(IsDispatch(es[0], r)) + Dispatches(es[1..], r)
  }

  function Completions(es: seq<Event>, r: RequestId): nat {
    if es == [] then 0 else Count(IsCompletion(es[0], r)) + Completions(es[1..], r)
  }

  /** Some step of the run drops r. */
  ghost predicate Dropped(s: System, es: seq<Event>, r: RequestId)
    requires Legal(s, es)
    decreases |es|
  {
    es != [] && (Drops(s, es[0], r) || Dropped(Apply(s, es[0]), es[1..], r))
  }

  lemma EffectCounts(v: View, a: Actors, e: Event)
    requires EnabledFor(a, e)
    ensures Effect(v, a, e).1.given == a.given + Count(e.Dispatch?)
    ensures Effect(v, a, e).1.returned == a.returned + Count(e.DpcComplete? || e.InitFails?)
  {
  }

  lemma StepCounts(s: System, e: Event, r: RequestId)
    requires Shape(s.dev) && Enabled(s, e)
    ensures var a, a' := ActorsOf(s, r), ActorsOf(Apply(s, e), r);
            && a'.given == a.given + Count(IsDispatch(e, r))
            && a'.returned == a.returned + Count(IsCompletion(e, r))
  {
    hide Effect, EnabledFor;
    if Target(s, e) == Some(r) {
      EffectCounts(ViewOf(s.dev, r), ActorsOf(s, r), e);
    }
  }

  lemma {:induction false} RunKeepsInv(s: System, es: seq<Event>, r: RequestId)
    requires Inv(s) && Legal(s, es)
    ensures Inv(Run(s, es))
    ensures LostAt(Run(s, es), r) <==> LostAt(s, r) || Dropped(s, es, r)
    ensures ActorsOf(Run(s, es), r).given == ActorsOf(s, r).given + Dispatches(es, r)
    ensures ActorsOf(Run(s, es), r).returned == ActorsOf(s, r).returned + Completions(es, r)
    decreases |es|
  {
    hide Inv, LostAt, Apply, Enabled, Drops;
    if es != [] {
      Step(s, es[0]);
      assert Shape(s.dev) by { InvHasShape(s); }
      StepCounts(s, es[0], r);
      RunKeepsInv(Apply(s, es[0]), es[1..], r);
    }
  }

  lemma InvHasShape(s: System)
    requires Inv(s)
    ensures Shape(s.dev)
  {
  }

  // ----- the promises -----

  lemma StartIsSound()
    ensures Inv(START) && forall r :: !LostAt(START, r)
  {
    hide LostAt, Good, Lost;
    assert Good(View(FRESH_CTX, false, false), AT_REST, false) && !Lost(View(FRESH_CTX, false, false), AT_REST) by {
      AtRestIsGood(View(FRESH_CTX, false, false), AT_REST);
    }
    forall r
      ensures GoodAt(START, r) && !LostAt(START, r)
    {
      assert ViewOf(START.dev, r) == View(FRESH_CTX, false, false) && ActorsOf(START, r) == AT_REST;
      StartViews(r);
    }
  }

  lemma AtRestIsGood(v: View, a: Actors)
    requires v == View(FRESH_CTX, false, false) && a == AT_REST
    ensures Good(v, a, false) && !Lost(v, a)
  {
    hide FlagsMatch, ClaimMatchesOwner, Owners;
    AtRestFlags(v, a);
    AtRestOwners(v, a);
    AtRestClaim(v, a);
  }

  lemma AtRestFlags(v: View, a: Actors)
    requires v == View(FRESH_CTX, false, false) && a == AT_REST
    ensures FlagsMatch(v, a)
  {
  }

  lemma AtRestOwners(v: View, a: Actors)
    requires v == View(FRESH_CTX, false, false) && a == AT_REST
    ensures Owners(v, a) == 0
  {
  }

  lemma AtRestClaim(v: View, a: Actors)
    requires v == View(FRESH_CTX, false, false) && a == AT_REST
    ensures ClaimMatchesOwner(v, a)
  {
  }

  lemma StartViews(r: RequestId)
    ensures GoodAt(START, r) <==> Good(View(FRESH_CTX, false, false), AT_REST, false)
    ensures LostAt(START, r) <==> Lost(View(FRESH_CTX, false, false), AT_REST)
  {
    hide Good, Lost;
  }

  lemma AtEnd(es: seq<Event>, r: RequestId)
    requires Legal(START, es)
    ensures Inv(Run(START, es))
    ensures if Dropped(START, es, r) then LostAt(Run(START, es), r) else GoodAt(Run(START, es), r)
    ensures ActorsOf(Run(START, es), r).given == Dispatches(es, r)
    ensures ActorsOf(Run(START, es), r).returned == Completions(es, r)
  {
    hide LostAt, GoodAt, DrainPromised, Run, Dropped, Legal;
    StartIsSound();
    RunKeepsInv(START, es, r);
    assert GoodAt(Run(START, es), r) || LostAt(Run(START, es), r);
  }

  /** In every interleaving a request is completed at most once per dispatch, it is back with the
      framework exactly when the counts agree, and meanwhile exactly one party owns it unless a
      step of the run has dropped it. */
  lemma CompletedExactlyOnce(es: seq<Event>, r: RequestId)
    requires Legal(START, es)
    ensures Completions(es, r) <= Dispatches(es, r) <= Completions(es, r) + 1
    ensures var v, a := ViewOf(Run(START, es).dev, r), ActorsOf(Run(START, es), r);
            && (a.submit.Idle? <==> Dispatches(es, r) == Completions(es, r))
            && Owners(v, a) == Count(!a.submit.Idle? && !Dropped(START, es, r))
  {
    hide Dropped, Run, ViewOf, ActorsOf;
    AtEnd(es, r);
  }

  /** At the moment the DPC completes a request its WskSend is over, nobody else refers to it, and the
      status is that of the first actor that claimed it. */
  lemma CompletionIsSafe(es: seq<Event>, r: RequestId)
    requires Legal(START, es) && ActorsOf(Run(START, es), r).completing.Some?
    ensures var v, a := ViewOf(Run(START, es).dev, r), ActorsOf(Run(START, es), r);
            && a.submit.Handed? && a.send.NoSend? && !v.ctx.sendCompletionPending
            && !v.listed && !v.queued && a.cancel.Unmarked? && !a.responding
            && DecidedBy(a.claim, a.completing.value)
  {
    hide Dropped, Run, ViewOf, ActorsOf;
    AtEnd(es, r);
  }

  /** A decided request whose send is over is queued or being completed, and a non-empty queue is
      going to be drained; so when no DPC work is left, every such request has been completed. */
  lemma NoCompletionIsLost(es: seq<Event>, r: RequestId)
    requires Legal(START, es)
    ensures var s := Run(START, es);
            var v, a := ViewOf(s.dev, r), ActorsOf(s, r);
            && DrainPromised(s)
            && (a.submit.Handed? && v.ctx.terminal && !v.ctx.sendCompletionPending ==>
                  (v.queued || a.completing.Some?) &&
                  (s.dpc == Dpc(false, 0, 0) ==> exists x :: ActorsOf(s, x).completing.Some?))
  {
    hide Dropped, Run;
    AtEnd(es, r);
  }

  /** The seqnum-mismatch and "!in_sent_list" branches of on_send_complete are never taken. */
  lemma SendCompletionFindsItsRequest(es: seq<Event>, r: RequestId, status: Status, mark: Status)
    requires Legal(START, es) && ActorsOf(Run(START, es), r).send.InFlight?
    ensures var v, a := ViewOf(Run(START, es).dev, r), ActorsOf(Run(START, es), r);
            && v.ctx.seqnum == a.send.seqnum && v.ctx.sendCompletionPending
            && (v.ctx.terminal || v.ctx.responseInProgress || v.listed)
            && (SendCompleteView(v, a.send.seqnum, status, mark).1 == STATUS_SUCCESS ||
                SendCompleteView(v, a.send.seqnum, status, mark).1 == mark)
  {
    hide Dropped, Run, ViewOf, ActorsOf;
    AtEnd(es, r);
  }

  /** The driver's own assertions about the flags hold whenever the driver holds the request. */
  lemma AssertionsHold(es: seq<Event>, r: RequestId)
    requires Legal(START, es) && !Dropped(START, es, r)
    ensures var v, a := ViewOf(Run(START, es).dev, r), ActorsOf(Run(START, es), r);
            && (!a.submit.Idle? && !a.submit.Dispatched? ==> Checked(v))
            && (a.submit.Dispatched? ==> !v.listed && !v.queued && !v.ctx.sendCompletionPending &&
                                         !v.ctx.responseInProgress)
  {
    hide Dropped, Run, ViewOf, ActorsOf;
    AtEnd(es, r);
  }

  /** Only a warning from WskSend can drop a request. */
  lemma {:induction false} OnlyWarningsDrop(s: System, es: seq<Event>, r: RequestId)
    requires Legal(s, es) && Dropped(s, es, r)
    ensures exists e | e in es :: e.SendDone? && e.r == r && NtWarning(e.status) && NtError(e.mark)
    decreases |es|
  {
    if Drops(s, es[0], r) {
      assert es[0] in es;
    } else {
      OnlyWarningsDrop(Apply(s, es[0]), es[1..], r);
      var e :| e in es[1..] && e.SendDone? && e.r == r && NtWarning(e.status) && NtError(e.mark);
      assert e in es;
    }
  }

  lemma LostStep(s: System, e: Event, r: RequestId)
    requires Inv(s) && LostAt(s, r) && Enabled(s, e)
    ensures Target(s, e) != Some(r) && ActorsOf(Apply(s, e), r) == ActorsOf(s, r)
  {
    hide Effect;
    if Target(s, e) == Some(r) {
      DropsOnlyTarget(s, e, r);
      LostIsInert(ViewOf(s.dev, r), ActorsOf(s, r), e);
    }
  }

  /** A dropped request stays with the driver for ever: no continuation completes it. */
  lemma {:induction false} DroppedForEver(s: System, es: seq<Event>, r: RequestId)
    requires Inv(s) && LostAt(s, r) && Legal(s, es)
    ensures Completions(es, r) == 0 && Dispatches(es, r) == 0 && LostAt(Run(s, es), r)
    decreases |es|
  {
    hide Inv, LostAt, Apply, Enabled, Drops;
    if es != [] {
      Step(s, es[0]);
      LostStep(s, es[0], r);
      InvHasShape(s);
      StepCounts(s, es[0], r);
      DroppedForEver(Apply(s, es[0]), es[1..], r);
    }
  }

  lemma Prepend(s: System, e: Event, es: seq<Event>, r: RequestId)
    requires (forall x | x in s.dev.requests :: x in s.dev.contexts) && Enabled(s, e) && Legal(Apply(s, e), es)
    ensures Legal(s, [e] + es)
    ensures Drops(s, e, r) || Dropped(Apply(s, e), es, r) ==> Dropped(s, [e] + es, r)
  {
    hide Apply, Enabled, Drops;
    assert ([e] + es)[1..] == es;
  }

  function OneRequest(ctx: RequestCtx, listed: bool, submit: Submit, send: Send): System {
    System(DeviceState(map[0 := ctx], if listed then [0] else [], []),
           map[0 := Actors(submit, send, false, Unmarked, None, Unclaimed, 1, 0)],
           Dpc(false, 0, 0))
  }

  const PREPARED_CTX := RequestCtx(2, STATUS_PENDING, false, true, false, false)

  const ACCEPTED :=
    System(DeviceState(map[], [], []), map[0 := AT_REST.(submit := Dispatched, given := 1)], Dpc(false, 0, 0))

  const READY := OneRequest(FRESH_CTX, false, Ready, NoSend)

  const NUMBERED := OneRequest(PREPARED_CTX, false, Numbered(2), NoSend)

  const SENT := OneRequest(PREPARED_CTX, true, Handed, InFlight(2))

  lemma AcceptOne()
    ensures Enabled(START, Dispatch(0)) && Apply(START, Dispatch(0)) == ACCEPTED
    ensures Enabled(ACCEPTED, Init(0)) && Apply(ACCEPTED, Init(0)) == READY
  {
  }

  lemma SendOne()
    ensures Enabled(READY, Number(0, 2)) && Apply(READY, Number(0, 2)) == NUMBERED
    ensures Enabled(NUMBERED, List(0)) && Apply(NUMBERED, List(0)) == SENT
  {
  }

  lemma DropOne(e: Event)
    requires e == SendDone(0, 0x8000_0005, STATUS_CANCELLED)
    ensures Enabled(SENT, e) && Drops(SENT, e, 0) && Legal(Apply(SENT, e), [])
  {
  }

  /** WskSend reports a warning while the endpoint queue is purged: the request is dropped. */
  lemma WarningDropsRequest()
    ensures var es := [Dispatch(0), Init(0), Number(0, 2), List(0), SendDone(0, 0x8000_0005, STATUS_CANCELLED)];
            Legal(START, es) && Dropped(START, es, 0)
  {
    hide Apply, Enabled, Legal, Dropped, Drops;
    AcceptOne();
    SendOne();
    var last := SendDone(0, 0x8000_0005, STATUS_CANCELLED);
    DropOne(last);
    assert [last] + [] == [last];
    Prepend(SENT, last, [], 0);
    assert [List(0)] + [last] == [List(0), last];
    Prepend(NUMBERED, List(0), [last], 0);
    assert [Number(0, 2)] + [List(0), last] == [Number(0, 2), List(0), last];
    Prepend(READY, Number(0, 2), [List(0), last], 0);
    assert [Init(0)] + [Number(0, 2), List(0), last] == [Init(0), Number(0, 2), List(0), last];
    Prepend(ACCEPTED, Init(0), [Number(0, 2), List(0), last], 0);
    assert [Dispatch(0)] + [Init(0), Number(0, 2), List(0), last] ==
           [Dispatch(0), Init(0), Number(0, 2), List(0), last];
    Prepend(START, Dispatch(0), [Init(0), Number(0, 2), List(0), last], 0);
  }
}
