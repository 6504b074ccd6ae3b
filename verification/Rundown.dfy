/** Closing a socket waits for the WSK calls in flight: the counter word of SOCKET, its invokers and closers. */
module Rundown {

  // ----- invoke_cnt: flags in the high bits, a counter below them -----

  const CLOSING: int := 0x2000_0000_0000_0000
  const EVENT_SET: int := 0x4000_0000_0000_0000

  predicate HasClosing(word: nat) { word / 0x2000_0000_0000_0000 % 2 == 1 }

  predicate HasEventSet(word: nat) { word / 0x4000_0000_0000_0000 % 2 == 1 }

  function WithClosing(word: nat): nat { if HasClosing(word) then word else word + CLOSING }

  function WithEventSet(word: nat): nat { if HasEventSet(word) then word else word + EVENT_SET }

  function Pack(count: nat, closing: bool, eventSet: bool): nat {
    count + (if closing then CLOSING else 0) + (if eventSet then EVENT_SET else 0)
  }

  lemma PackIsReadBack(count: nat, closing: bool, eventSet: bool)
    requires count < CLOSING
    ensures HasClosing(Pack(count, closing, eventSet)) == closing
    ensures HasEventSet(Pack(count, closing, eventSet)) == eventSet
    ensures Pack(count, closing, eventSet) == CLOSING <==> count == 0 && closing && !eventSet
    ensures Pack(count, closing, eventSet) == 0 <==> count == 0 && !closing && !eventSet
  {
  }

  // ----- the threads -----

  datatype Pc =
    | Outside
    | Calling     // the WSK function was called, the counter is not yet given back
    | Rejected    // STATUS_NOT_SUPPORTED, the counter is not yet given back
    | Testing     // brought the word down to CLOSING, about to set EVENT_SET
    | Signalling  // set EVENT_SET, about to set the event
    | Marking     // closer that found nobody, about to set EVENT_SET
    | Waiting     // closer that waits for the event
    | Closed      // wait_invokers returned success

  /** signals: how often the event has been set. */
  datatype State = State(pcs: seq<Pc>, word: nat, signals: nat)

  datatype Event = Invokes(t: nat) | Closes(t: nat) | Acts(t: nat)

  predicate Enabled(s: State, e: Event) {
    e.t < |s.pcs| &&
    match e
    case Acts(t) =>
      var pc := s.pcs[t];
      !pc.Outside? && !pc.Closed? && (pc.Waiting? ==> s.signals > 0)
    case _ => s.pcs[e.t].Outside?
  }

  function At(s: State, t: nat, pc: Pc): State
    requires t < |s.pcs|
  {
    s.(pcs := s.pcs[t := pc])
  }

  /** InterlockedIncrement64 and the look at its result */
  function Invoke(s: State, t: nat): State
    requires t < |s.pcs|
  {
    var n := s.word + 1;
    At(s, t, if HasClosing(n) then Rejected else Calling).(word := n)
  }

  /** InterlockedOr64 and the look at the old value */
  function Close(s: State, t: nat): State
    requires t < |s.pcs|
  {
    if HasClosing(s.word) then s  // STATUS_NOT_SUPPORTED
    else At(s, t, if s.word != 0 then Waiting else Marking).(word := WithClosing(s.word))
  }

  function Act(s: State, t: nat): State
    requires Enabled(s, Acts(t))
    requires s.pcs[t].Calling? || s.pcs[t].Rejected? ==> s.word > 0
  {
    match s.pcs[t]
    case Calling => At(s, t, if s.word - 1 == CLOSING then Testing else Outside).(word := s.word - 1)
    case Rejected => At(s, t, if s.word - 1 == CLOSING then Testing else Outside).(word := s.word - 1)
    case Testing => At(s, t, if HasEventSet(s.word) then Outside else Signalling).(word := WithEventSet(s.word))
    case Signalling => At(s, t, Outside).(signals := s.signals + 1)
    case Marking => At(s, t, Closed).(word := WithEventSet(s.word))
    case Waiting => At(s, t, Closed)
  }

  /** SOCKET: the interlocked operations that invoke and wait_invokers are made of, each one a step of some
      thread t of any state s with this word. */
  class Socket {
    var invokeCnt: nat
    var signals: nat  // KeSetEvent on can_close

    constructor ()
      ensures invokeCnt == 0 && signals == 0
    {
      invokeCnt, signals := 0, 0;
    }

    ghost predicate Shows(s: State)
      reads this
    {
      s.word == invokeCnt && s.signals == signals
    }

    method Enter() returns (accepted: bool)
      modifies this
      ensures forall s, t: nat | old(Shows(s)) && t < |s.pcs| ::
                Shows(Invoke(s, t)) && Invoke(s, t).pcs == s.pcs[t := if accepted then Calling else Rejected]
      ensures forall count: nat, closing, eventSet |
                count + 1 < CLOSING && old(invokeCnt) == Pack(count, closing, eventSet) ::
                invokeCnt == Pack(count + 1, closing, eventSet) && accepted == !closing
    {
      forall count: nat, closing, eventSet |
        count + 1 < CLOSING && invokeCnt == Pack(count, closing, eventSet)
        ensures HasClosing(invokeCnt + 1) == closing
      {
        PackIsReadBack(count + 1, closing, eventSet);
      }
      invokeCnt := invokeCnt + 1;
      accepted := !HasClosing(invokeCnt);
    }

    /** last: the counter is zero and the event is not due to anybody else yet. */
    method Leave() returns (last: bool)
      requires invokeCnt > 0
      modifies this
      ensures forall s, t: nat | old(Shows(s)) && t < |s.pcs| && Holds(s.pcs[t]) == 1 ::
                Shows(Act(s, t)) && Act(s, t).pcs == s.pcs[t := if last then Testing else Outside]
      ensures forall count: nat, closing, eventSet |
                0 < count < CLOSING && old(invokeCnt) == Pack(count, closing, eventSet) ::
                invokeCnt == Pack(count - 1, closing, eventSet) && last == (count == 1 && closing && !eventSet)
    {
      invokeCnt := invokeCnt - 1;
      last := invokeCnt == CLOSING;
    }

    /** InterlockedBitTestAndSet64, by the last caller or by a closer that found nobody. */
    method SetEventBit() returns (first: bool)
      modifies this
      ensures forall s, t: nat | old(Shows(s)) && t < |s.pcs| && s.pcs[t].Testing? ::
                Shows(Act(s, t)) && Act(s, t).pcs == s.pcs[t := if first then Signalling else Outside]
      ensures forall s, t: nat | old(Shows(s)) && t < |s.pcs| && s.pcs[t].Marking? ::
                Shows(Act(s, t)) && Act(s, t).pcs == s.pcs[t := Closed]
      ensures forall count: nat, closing, eventSet |
                count < CLOSING && old(invokeCnt) == Pack(count, closing, eventSet) ::
                invokeCnt == Pack(count, closing, true) && first == !eventSet
    {
      forall count: nat, closing, eventSet |
        count < CLOSING && invokeCnt == Pack(count, closing, eventSet)
        ensures HasEventSet(invokeCnt) == eventSet
      {
        PackIsReadBack(count, closing, eventSet);
      }
      first := !HasEventSet(invokeCnt);
      if first {
        invokeCnt := invokeCnt + EVENT_SET;
      }
    }

    method SetEvent()
      modifies this
      ensures forall s, t: nat | old(Shows(s)) && t < |s.pcs| && s.pcs[t].Signalling? ::
                Shows(Act(s, t)) && Act(s, t).pcs == s.pcs[t := Outside]
      ensures signals == old(signals) + 1 && invokeCnt == old(invokeCnt)
    {
      signals := signals + 1;
    }

    /** The start of wait_invokers; refused: another closer was there before. */
    method BeginClose() returns (refused: bool, mustWait: bool)
      modifies this
      ensures forall s, t: nat | old(Shows(s)) && t < |s.pcs| ::
                && Shows(Close(s, t))
                && Close(s, t).pcs == if refused then s.pcs else s.pcs[t := if mustWait then Waiting else Marking]
      ensures forall count: nat, closing, eventSet |
                count < CLOSING && old(invokeCnt) == Pack(count, closing, eventSet) ::
                && refused == closing && invokeCnt == Pack(count, true, eventSet)
                && (!refused && !eventSet ==> mustWait == (count > 0))
    {
      forall count: nat, closing, eventSet |
        count < CLOSING && invokeCnt == Pack(count, closing, eventSet)
        ensures HasClosing(invokeCnt) == closing
      {
        PackIsReadBack(count, closing, eventSet);
      }
      var n := invokeCnt;
      refused := HasClosing(n);
      if !refused {
        invokeCnt := n + CLOSING;
      }
      mustWait := n != 0;
    }
  }

  ghost predicate Next(s: State, e: Event, n: State) {
    && Enabled(s, e)
    && match e
       case Invokes(t) => n == Invoke(s, t)
       case Closes(t) => n == Close(s, t)
       case Acts(t) => (s.pcs[t].Calling? || s.pcs[t].Rejected? ==> s.word > 0) && n == Act(s, t)
  }

  predicate Starts(s: State) {
    && |s.pcs| < CLOSING && s.word == 0 && s.signals == 0
    && forall t | 0 <= t < |s.pcs| :: s.pcs[t].Outside?
  }

  ghost predicate Run(states: seq<State>, events: seq<Event>) {
    && |states| == |events| + 1 && Starts(states[0])
    && forall i | 0 <= i < |events| :: Next(states[i], events[i], states[i + 1])
  }

  // ----- the invariant -----

  function Holds(pc: Pc): nat { if pc.Calling? || pc.Rejected? then 1 else 0 }

  /** How many threads have yet to give the counter back. */
  function Held(pcs: seq<Pc>): (n: nat)
    ensures n <= |pcs|
  {
    if pcs == [] then 0 else Holds(pcs[0]) + Held(pcs[1..])
  }

  lemma {:induction false} HeldUpdate(pcs: seq<Pc>, t: nat, pc: Pc)
    requires t < |pcs|
    ensures Held(pcs[t := pc]) + Holds(pcs[t]) == Held(pcs) + Holds(pc)
  {
    if t == 0 {
      assert pcs[t := pc][1..] == pcs[1..];
    } else {
      assert pcs[t := pc][1..] == pcs[1..][t - 1 := pc];
      HeldUpdate(pcs[1..], t - 1, pc);
    }
  }

  lemma {:induction false} HeldBySomeone(pcs: seq<Pc>)
    ensures Held(pcs) == 0 <==> forall t | 0 <= t < |pcs| :: Holds(pcs[t]) == 0
  {
    if pcs != [] {
      HeldBySomeone(pcs[1..]);
      assert pcs == [pcs[0]] + pcs[1..];
    }
  }

  predicate Closer(pc: Pc) { pc.Marking? || pc.Waiting? || pc.Closed? }

  predicate Late(pc: Pc) { pc.Rejected? || pc.Testing? || pc.Signalling? }

  /** closer: the thread whose call set CLOSING, -1 if there is none. */
  predicate OneCloser(s: State, closer: int, closing: bool) {
    && -1 <= closer < |s.pcs| && (closing <==> closer >= 0)
    && (forall t | 0 <= t < |s.pcs| :: Closer(s.pcs[t]) <==> t == closer)
    && (!closing ==> forall t | 0 <= t < |s.pcs| :: !Late(s.pcs[t]))
  }

  /** What tells that no accepted call is in flight any more. */
  predicate Over(s: State, closer: int, eventSet: bool) {
    eventSet || (exists t | 0 <= t < |s.pcs| :: s.pcs[t].Testing?) || (0 <= closer < |s.pcs| && s.pcs[closer].Marking?)
  }

  predicate NoCalls(s: State) {
    forall t | 0 <= t < |s.pcs| :: !s.pcs[t].Calling?
  }

  /** signaller: the thread about to set the event, -1 if there is none. */
  predicate OneSignal(s: State, signaller: int, eventSet: bool) {
    && -1 <= signaller < |s.pcs|
    && (forall t | 0 <= t < |s.pcs| :: s.pcs[t].Signalling? <==> t == signaller)
    && s.signals + (if signaller >= 0 then 1 else 0) <= (if eventSet then 1 else 0)
  }

  /** A closer that waits will hear from someone. */
  predicate WillSignal(s: State, closer: int, signaller: int, eventSet: bool) {
    0 <= closer < |s.pcs| && s.pcs[closer].Waiting? && s.signals == 0 ==>
      if eventSet then signaller >= 0 else exists t | 0 <= t < |s.pcs| :: Holds(s.pcs[t]) == 1 || s.pcs[t].Testing?
  }

  datatype Hint = Hint(closer: int, signaller: int, eventSet: bool)

  predicate InvFor(s: State, h: Hint) {
    && |s.pcs| < CLOSING && s.word == Pack(Held(s.pcs), h.closer >= 0, h.eventSet)
    && OneCloser(s, h.closer, h.closer >= 0)
    && (h.closer < 0 ==> !h.eventSet)
    && (Over(s, h.closer, h.eventSet) ==> NoCalls(s))
    && OneSignal(s, h.signaller, h.eventSet)
    && WillSignal(s, h.closer, h.signaller, h.eventSet)
    && (0 <= h.closer < |s.pcs| && s.pcs[h.closer].Closed? ==> h.eventSet)
  }

  ghost predicate Inv(s: State) {
    exists h :: InvFor(s, h)
  }

  function HintAfter(s: State, h: Hint, e: Event): Hint
    requires Enabled(s, e)
  {
    match e
    case Invokes(_) => h
    case Closes(t) => if h.closer >= 0 then h else h.(closer := t)
    case Acts(t) =>
      match s.pcs[t]
      case Testing => if h.eventSet then h else h.(eventSet := true, signaller := t)
      case Signalling => h.(signaller := -1)
      case Marking => h.(eventSet := true)
      case _ => h
  }

  lemma HeldBy(pcs: seq<Pc>, t: nat)
    requires t < |pcs| && Holds(pcs[t]) == 1
    ensures Held(pcs) > 0
  {
    HeldBySomeone(pcs);
  }

  lemma InvokeKeepsInv(s: State, h: Hint, t: nat)
    requires InvFor(s, h) && Enabled(s, Invokes(t))
    ensures InvFor(Invoke(s, t), h)
  {
    hide Held, HasClosing, HasEventSet;
    var n := Invoke(s, t);
    HeldUpdate(s.pcs, t, n.pcs[t]);
    PackIsReadBack(Held(n.pcs), h.closer >= 0, h.eventSet);
    assert forall u | 0 <= u < |s.pcs| && u != t :: n.pcs[u] == s.pcs[u];
  }

  lemma CloseKeepsInv(s: State, h: Hint, t: nat)
    requires InvFor(s, h) && Enabled(s, Closes(t))
    ensures InvFor(Close(s, t), HintAfter(s, h, Closes(t)))
  {
    hide Held, HasClosing, HasEventSet;
    var n := Close(s, t);
    PackIsReadBack(Held(s.pcs), h.closer >= 0, h.eventSet);
    HeldUpdate(s.pcs, t, n.pcs[t]);
    HeldBySomeone(s.pcs);
    assert forall u | 0 <= u < |s.pcs| && u != t :: n.pcs[u] == s.pcs[u];
  }

  /** Giving the counter back. */
  lemma ReturnKeepsInv(s: State, h: Hint, t: nat)
    requires InvFor(s, h) && Enabled(s, Acts(t)) && Holds(s.pcs[t]) == 1
    ensures s.word > 0 && InvFor(Act(s, t), h)
  {
    hide Held, HasClosing, HasEventSet;
    HeldBy(s.pcs, t);
    var n := Act(s, t);
    HeldUpdate(s.pcs, t, n.pcs[t]);
    PackIsReadBack(Held(n.pcs), h.closer >= 0, h.eventSet);
    HeldBySomeone(n.pcs);
    assert forall u | 0 <= u < |s.pcs| && u != t :: n.pcs[u] == s.pcs[u];
  }

  lemma OtherActKeepsInv(s: State, h: Hint, t: nat)
    requires InvFor(s, h) && Enabled(s, Acts(t)) && Holds(s.pcs[t]) == 0
    ensures InvFor(Act(s, t), HintAfter(s, h, Acts(t)))
  {
    hide Held, HasClosing, HasEventSet;
    var n := Act(s, t);
    HeldUpdate(s.pcs, t, n.pcs[t]);
    PackIsReadBack(Held(s.pcs), h.closer >= 0, h.eventSet);
    assert forall u | 0 <= u < |s.pcs| && u != t :: n.pcs[u] == s.pcs[u];
  }

  lemma StepKeepsInv(s: State, h: Hint, e: Event)
    requires InvFor(s, h) && Enabled(s, e)
    ensures forall n :: Next(s, e, n) ==> InvFor(n, HintAfter(s, h, e))
  {
    hide InvFor, Invoke, Close, Act;
    match e
    case Invokes(t) => InvokeKeepsInv(s, h, t);
    case Closes(t) => CloseKeepsInv(s, h, t);
    case Acts(t) =>
      if Holds(s.pcs[t]) == 1 {
        ReturnKeepsInv(s, h, t);
      } else {
        OtherActKeepsInv(s, h, t);
      }
  }

  lemma {:induction false} RunKeepsInv(states: seq<State>, events: seq<Event>, i: nat)
    requires Run(states, events) && i < |states|
    ensures Inv(states[i])
  {
    hide InvFor, Next;
    if i == 0 {
      StartKeepsInv(states[0]);
    } else {
      RunKeepsInv(states, events, i - 1);
      var h :| InvFor(states[i - 1], h);
      assert Enabled(states[i - 1], events[i - 1]) by {
        NextIsEnabled(states[i - 1], events[i - 1], states[i]);
      }
      StepKeepsInv(states[i - 1], h, events[i - 1]);
      assert Next(states[i - 1], events[i - 1], states[i]);
    }
  }

  lemma NextIsEnabled(s: State, e: Event, n: State)
    requires Next(s, e, n)
    ensures Enabled(s, e)
  {
  }

  lemma StartKeepsInv(s: State)
    requires Starts(s)
    ensures Inv(s)
  {
    HeldBySomeone(s.pcs);
    assert InvFor(s, Hint(-1, -1, false));
  }

  // ----- what closing guarantees -----

  lemma {:induction false} ClosedStays(states: seq<State>, events: seq<Event>, i: nat, j: nat, t: nat)
    requires Run(states, events) && i <= j < |states|
    requires t < |states[i].pcs| && states[i].pcs[t].Closed?
    ensures t < |states[j].pcs| && states[j].pcs[t].Closed?
  {
    if i < j {
      ClosedStays(states, events, i, j - 1, t);
      assert Next(states[j - 1], events[j - 1], states[j]);
    }
  }

  /** From the moment wait_invokers has succeeded no accepted call is in flight, for ever: nobody is accepted
      again, and the counter only ever counts callers that were turned away and are on their way out. */
  lemma NothingRunsAfterClose(states: seq<State>, events: seq<Event>, i: nat, j: nat, t: nat)
    requires Run(states, events) && i <= j < |states|
    requires t < |states[i].pcs| && states[i].pcs[t].Closed?
    ensures var s := states[j];
            && NoCalls(s) && HasClosing(s.word) && HasEventSet(s.word)
            && s.word == CLOSING + EVENT_SET + Held(s.pcs)
  {
    ClosedStays(states, events, i, j, t);
    RunKeepsInv(states, events, j);
    var h :| InvFor(states[j], h);
    PackIsReadBack(Held(states[j].pcs), h.closer >= 0, h.eventSet);
  }

  /** A call that starts after CLOSING was set is turned away, and CLOSING is never taken back. */
  lemma ClosingTurnsCallersAway(states: seq<State>, events: seq<Event>, i: nat)
    requires Run(states, events) && i < |events| && HasClosing(states[i].word)
    ensures HasClosing(states[i + 1].word)
    ensures forall t | 0 <= t < |states[i + 1].pcs| && states[i + 1].pcs[t].Calling? :: states[i].pcs[t].Calling?
  {
    RunKeepsInv(states, events, i);
    var s, e, n := states[i], events[i], states[i + 1];
    var h :| InvFor(s, h);
    PackIsReadBack(Held(s.pcs), h.closer >= 0, h.eventSet);
    assert Next(s, e, n);
    StepKeepsInv(s, h, e);
    PackIsReadBack(Held(n.pcs), h.closer >= 0, HintAfter(s, h, e).eventSet);
  }

  /** The event is set at most once, and at most one caller of wait_invokers is not refused. */
  lemma OneSignalOneCloser(states: seq<State>, events: seq<Event>, i: nat, t: nat, u: nat)
    requires Run(states, events) && i < |states|
    ensures states[i].signals <= 1
    ensures t < |states[i].pcs| && u < |states[i].pcs| ==>
              (Closer(states[i].pcs[t]) && Closer(states[i].pcs[u]) ==> t == u)
    ensures t < |states[i].pcs| && states[i].pcs[t].Signalling? ==> states[i].signals == 0
  {
    RunKeepsInv(states, events, i);
    var h :| InvFor(states[i], h);
  }

  /** The word that the successful closer finds holds no flag: what it waits for is the counter alone. */
  lemma CloserFindsOnlyTheCounter(states: seq<State>, events: seq<Event>, i: nat)
    requires Run(states, events) && i < |states| && !HasClosing(states[i].word)
    ensures states[i].word == Held(states[i].pcs) && states[i].signals == 0
  {
    RunKeepsInv(states, events, i);
    var h :| InvFor(states[i], h);
    PackIsReadBack(Held(states[i].pcs), h.closer >= 0, h.eventSet);
  }

  /** A closer that waits is let go by the last caller out: once no other thread is inside, the event is set. */
  lemma LastCallerSignals(states: seq<State>, events: seq<Event>, i: nat, t: nat)
    requires Run(states, events) && i < |states|
    requires t < |states[i].pcs| && states[i].pcs[t].Waiting?
    requires forall u | 0 <= u < |states[i].pcs| && u != t :: states[i].pcs[u].Outside?
    ensures states[i].signals == 1 && Enabled(states[i], Acts(t))
  {
    RunKeepsInv(states, events, i);
    WaiterIsSignalled(states[i], t);
  }

  lemma WaiterIsSignalled(s: State, t: nat)
    requires Inv(s) && t < |s.pcs| && s.pcs[t].Waiting?
    requires forall u | 0 <= u < |s.pcs| :: Holds(s.pcs[u]) == 0 && !s.pcs[u].Testing? && !s.pcs[u].Signalling?
    ensures s.signals == 1
  {
    var h :| InvFor(s, h);
    assert h.closer == t;
    SignallerIsThere(s, h.signaller, h.eventSet);
  }

  lemma SignallerIsThere(s: State, signaller: int, eventSet: bool)
    requires OneSignal(s, signaller, eventSet)
    ensures signaller >= 0 <==> exists t | 0 <= t < |s.pcs| :: s.pcs[t].Signalling?
  {
    if signaller >= 0 {
      assert s.pcs[signaller].Signalling?;
    }
  }

  // ----- the callers inside leave -----

  /** How many steps a thread has left inside invoke. */
  function StepsLeft(pc: Pc): nat {
    match pc
    case Calling => 3
    case Rejected => 3
    case Testing => 2
    case Signalling => 1
    case _ => 0
  }

  function AllStepsLeft(pcs: seq<Pc>): nat {
    if pcs == [] then 0 else StepsLeft(pcs[0]) + AllStepsLeft(pcs[1..])
  }

  lemma {:induction false} StepsLeftUpdate(pcs: seq<Pc>, t: nat, pc: Pc)
    requires t < |pcs|
    ensures AllStepsLeft(pcs[t := pc]) + StepsLeft(pcs[t]) == AllStepsLeft(pcs) + StepsLeft(pc)
  {
    if t == 0 {
      assert pcs[t := pc][1..] == pcs[1..];
    } else {
      assert pcs[t := pc][1..] == pcs[1..][t - 1 := pc];
      StepsLeftUpdate(pcs[1..], t - 1, pc);
    }
  }

  predicate Inside(s: State) {
    exists t | 0 <= t < |s.pcs| :: StepsLeft(s.pcs[t]) > 0
  }

  /** A step of a caller inside, or a newcomer as long as any are left. */
  predicate Picks(s: State, newcomers: nat, e: Event) {
    match e
    case Acts(t) => t < |s.pcs| && StepsLeft(s.pcs[t]) > 0
    case Invokes(t) => newcomers > 0 && t < |s.pcs| && s.pcs[t].Outside?
    case Closes(_) => false
  }

  ghost predicate Schedules(pick: (State, nat) -> Event) {
    forall s: State, newcomers: nat :: Inside(s) ==> Picks(s, newcomers, pick(s, newcomers))
  }

  /** The steps a schedule makes the callers take until all of them have left. */
  ghost function Emptied(s: State, newcomers: nat, pick: (State, nat) -> Event): (n: State)
    requires Inv(s) && Schedules(pick)
    decreases newcomers, AllStepsLeft(s.pcs)
  {
    if !Inside(s) then s
    else
      var e := pick(s, newcomers);
      assert Picks(s, newcomers, e);
      if e.Invokes? then
        NewcomerEnters(s, e.t);
        Emptied(Invoke(s, e.t), newcomers - 1, pick)
      else
        CallerActs(s, e.t);
        Emptied(Act(s, e.t), newcomers, pick)
  }

  lemma NewcomerEnters(s: State, t: nat)
    requires Inv(s) && Enabled(s, Invokes(t))
    ensures Inv(Invoke(s, t)) && |Invoke(s, t).pcs| == |s.pcs|
    ensures forall u | 0 <= u < |s.pcs| && u != t :: Invoke(s, t).pcs[u] == s.pcs[u]
  {
    hide InvFor;
    var h :| InvFor(s, h);
    InvokeKeepsInv(s, h, t);
  }

  lemma CallerActs(s: State, t: nat)
    requires Inv(s) && t < |s.pcs| && StepsLeft(s.pcs[t]) > 0
    ensures Enabled(s, Acts(t)) && (Holds(s.pcs[t]) == 1 ==> s.word > 0)
    ensures Inv(Act(s, t)) && |Act(s, t).pcs| == |s.pcs| && AllStepsLeft(Act(s, t).pcs) < AllStepsLeft(s.pcs)
    ensures forall u | 0 <= u < |s.pcs| && u != t :: Act(s, t).pcs[u] == s.pcs[u]
  {
    hide InvFor;
    var h :| InvFor(s, h);
    if Holds(s.pcs[t]) == 1 {
      ReturnKeepsInv(s, h, t);
    } else {
      OtherActKeepsInv(s, h, t);
    }
    StepsLeftUpdate(s.pcs, t, Act(s, t).pcs[t]);
  }

  /** Whatever the schedule, and however many newcomers there are, the callers leave after finitely many steps;
      a closer that is waiting can go on then. */
  lemma {:induction false} WaitEnds(s: State, newcomers: nat, pick: (State, nat) -> Event, t: nat)
    requires Inv(s) && Schedules(pick) && t < |s.pcs| && s.pcs[t].Waiting?
    ensures var n := Emptied(s, newcomers, pick);
            t < |n.pcs| && n.pcs[t].Waiting? && NoCalls(n) && n.signals == 1 && Enabled(n, Acts(t))
    decreases newcomers, AllStepsLeft(s.pcs)
  {
    hide Act, Invoke, Inv;
    if Inside(s) {
      var e := pick(s, newcomers);
      assert Picks(s, newcomers, e);
      if e.Invokes? {
        NewcomerEnters(s, e.t);
        WaitEnds(Invoke(s, e.t), newcomers - 1, pick, t);
      } else {
        CallerActs(s, e.t);
        WaitEnds(Act(s, e.t), newcomers, pick, t);
      }
    } else {
      assert forall u | 0 <= u < |s.pcs| :: StepsLeft(s.pcs[u]) == 0;
      WaiterIsSignalled(s, t);
    }
  }

  /** A closer that waits although no accepted call is left, and one caller that was turned away. */
  const KEPT_WAITING := State([Waiting, Outside, Rejected], CLOSING + 1, 0)

  lemma RunGrows(states: seq<State>, events: seq<Event>, e: Event, n: State)
    requires Run(states, events) && Next(states[|events|], e, n)
    ensures Run(states + [n], events + [e])
  {
    hide Next;
    var more, all := states + [n], events + [e];
    forall i | 0 <= i < |all| ensures Next(more[i], all[i], more[i + 1]) {
      assert i < |events| ==> more[i] == states[i] && more[i + 1] == states[i + 1];
    }
  }

  /** Without a bound on the newcomers the wait need not end: callers that are turned away can hand over the
      counter to each other for ever, and only the timeout of the wait lets the closer go on. */
  lemma {:induction false} NewcomersCanKeepItWaiting(n: nat) returns (states: seq<State>, events: seq<Event>)
    ensures Run(states, events) && |events| >= n && states[|events|] == KEPT_WAITING
    ensures NoCalls(KEPT_WAITING) && HasClosing(KEPT_WAITING.word) && KEPT_WAITING.signals == 0
  {
    hide Run;
    if n == 0 {
      states, events := KeptWaiting();
    } else {
      states, events := NewcomersCanKeepItWaiting(n - 1);
      var a := State([Waiting, Rejected, Rejected], CLOSING + 2, 0);
      var b := State([Waiting, Rejected, Outside], CLOSING + 1, 0);
      states, events := Grown(states, events, Invokes(1), a);
      states, events := Grown(states, events, Acts(2), b);
      states, events := Grown(states, events, Invokes(2), a);
      states, events := Grown(states, events, Acts(1), KEPT_WAITING);
    }
  }

  lemma Grown(states: seq<State>, events: seq<Event>, e: Event, n: State)
    returns (more: seq<State>, all: seq<Event>)
    requires Run(states, events) && Next(states[|events|], e, n)
    ensures Run(more, all) && |all| == |events| + 1 && more[|all|] == n
  {
    RunGrows(states, events, e, n);
    more, all := states + [n], events + [e];
  }

  lemma KeptWaiting() returns (states: seq<State>, events: seq<Event>)
    ensures Run(states, events) && states[|events|] == KEPT_WAITING
  {
    states, events := [State([Outside, Outside, Outside], 0, 0)], [];
    assert Run(states, events);
    hide Run;
    states, events := Grown(states, events, Invokes(1), State([Outside, Calling, Outside], 1, 0));
    states, events := Grown(states, events, Closes(0), State([Waiting, Calling, Outside], CLOSING + 1, 0));
    states, events := Grown(states, events, Invokes(2), State([Waiting, Calling, Rejected], CLOSING + 2, 0));
    states, events := Grown(states, events, Acts(1), KEPT_WAITING);
  }
}
