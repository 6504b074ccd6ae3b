/** The combining queue in front of WskSend: any thread may push a context, one at a time sends them. */
module SendQueue {

  // ----- the list -----

  /** SLIST_ENTRY */
  class Entry {
    var next: Entry?

    constructor ()
      ensures next == null
    {
      next := null;
    }
  }

  function Reversed<T>(s: seq<T>): (r: seq<T>)
    ensures |r| == |s|
    ensures forall i | 0 <= i < |s| :: r[i] == s[|s| - 1 - i]
  {
    if s == [] then [] else Reversed(s[1..]) + [s[0]]
  }

  function EntryAt(list: seq<Entry>, i: int): Entry? {
    if 0 <= i < |list| then list[i] else null
  }

  /** head is the first of list, each entry leads to the one after it, the last one to nothing. */
  ghost predicate Linked(head: Entry?, list: seq<Entry>)
    reads list
  {
    && head == EntryAt(list, 0)
    && forall i | 0 <= i < |list| :: list[i].next == EntryAt(list, i + 1)
  }

  lemma {:induction false} NoEntryTwice(head: Entry?, list: seq<Entry>, i: nat, j: nat)
    requires Linked(head, list) && i < j < |list|
    ensures list[i] != list[j]
    decreases |list| - j
  {
    assert list[i].next == list[i + 1];
    if j + 1 < |list| {
      NoEntryTwice(head, list, i + 1, j + 1);
      assert list[j].next == list[j + 1];
    } else {
      assert list[j].next == null;
    }
  }

  /** Turns the list around in place. */
  method Reverse(head: Entry?, ghost list: seq<Entry>) returns (prev: Entry?)
    requires Linked(head, list)
    modifies list
    ensures Linked(prev, Reversed(list))
  {
    forall i, j | 0 <= i < j < |list| ensures list[i] != list[j] {
      NoEntryTwice(head, list, i, j);
    }
    prev := null;
    var cur := head;
    ghost var k := 0;
    while cur != null
      invariant k <= |list|
      invariant cur == EntryAt(list, k) && prev == EntryAt(list, k - 1)
      invariant forall i | k <= i < |list| :: list[i].next == EntryAt(list, i + 1)
      invariant forall i | 0 <= i < k :: list[i].next == EntryAt(list, i - 1)
      decreases |list| - k
    {
      var next := cur.next;
      cur.next := prev;
      prev := cur;
      cur := next;
      k := k + 1;
    }
    forall i | 0 <= i < |list|
      ensures Reversed(list)[i].next == EntryAt(Reversed(list), i + 1)
    {
      assert Reversed(list)[i] == list[|list| - 1 - i];
    }
  }

  // ----- the threads -----

  type Context = nat  // identifies a wsk_context

  /** What a thread does next inside send and send_pending. */
  datatype Pc =
    | Outside
    | Try                        // exchange of the flag, on entry
    | Flush                      // takes the list
    | Sending(batch: seq<Context>)
    | Check                      // looks whether the list is empty
    | TryAgain                   // exchange of the flag, after Check

  /** pending is in list order, latest first; pushed and sent record the calls so far. */
  datatype State = State(pcs: seq<Pc>, pending: seq<Context>, sending: bool,
                         pushed: seq<Context>, sent: seq<Context>)

  predicate Starts(s: State) {
    s.pending == [] && !s.sending && s.pushed == [] && s.sent == [] && forall t | 0 <= t < |s.pcs| :: s.pcs[t].Outside?
  }

  function At(s: State, t: nat, pc: Pc): State
    requires t < |s.pcs|
  {
    s.(pcs := s.pcs[t := pc])
  }

  /** InterlockedPushEntrySList */
  function Push(s: State, t: nat, c: Context): State
    requires t < |s.pcs| && s.pcs[t].Outside?
  {
    At(s, t, Try).(pending := [c] + s.pending, pushed := s.pushed + [c])
  }

  /** The next atomic action of a thread inside send_pending. */
  function Act(s: State, t: nat): State
    requires t < |s.pcs| && !s.pcs[t].Outside?
  {
    match s.pcs[t]
    case Try => if s.sending then At(s, t, Outside) else At(s, t, Flush).(sending := true)
    case Flush => At(s, t, Sending(Reversed(s.pending))).(pending := [])
    case Sending(batch) =>
      if batch != [] then At(s, t, Sending(batch[1..])).(sent := s.sent + [batch[0]])
      else At(s, t, Check).(sending := false)
    case Check => if s.pending == [] then At(s, t, Outside) else At(s, t, TryAgain)
    case TryAgain => if s.sending then At(s, t, Outside) else At(s, t, Flush).(sending := true)
  }

  datatype Event = Pushes(t: nat, c: Context) | Acts(t: nat)

  predicate Enabled(s: State, e: Event) {
    e.t < |s.pcs| && (e.Pushes? <==> s.pcs[e.t].Outside?)
  }

  function Next(s: State, e: Event): State
    requires Enabled(s, e)
  {
    match e
    case Pushes(t, c) => Push(s, t, c)
    case Acts(t) => Act(s, t)
  }

  /** A run: states and the events between them. */
  predicate Run(states: seq<State>, events: seq<Event>) {
    && |states| == |events| + 1 && Starts(states[0])
    && forall i | 0 <= i < |events| :: Enabled(states[i], events[i]) && states[i + 1] == Next(states[i], events[i])
  }

  // ----- the operations on the device -----

  /** pending_sends and sending of device_ctx; each small method is a step of some thread t of any state s
      that shows the device. */
  class Device {
    var pending: seq<Context>
    var sending: bool
    ghost var sent: seq<Context>

    constructor ()
      ensures pending == [] && !sending && sent == []
    {
      pending, sending, sent := [], false, [];
    }

    ghost predicate Shows(s: State)
      reads this
    {
      s.pending == pending && s.sending == sending && s.sent == sent
    }

    method PushEntry(c: Context)
      modifies this
      ensures forall s, t: nat | old(Shows(s)) && t < |s.pcs| && s.pcs[t].Outside? ::
                Shows(Push(s, t, c)) && Push(s, t, c).pcs == s.pcs[t := Try]
      ensures pending == [c] + old(pending) && sending == old(sending) && sent == old(sent)
    {
      pending := [c] + pending;
    }

    /** InterlockedExchange(&sending, true) */
    method TryEnter() returns (won: bool)
      modifies this
      ensures forall s, t: nat | old(Shows(s)) && t < |s.pcs| && (s.pcs[t].Try? || s.pcs[t].TryAgain?) ::
                Shows(Act(s, t)) && Act(s, t).pcs == s.pcs[t := if won then Flush else Outside]
      ensures won == !old(sending) && sending && pending == old(pending) && sent == old(sent)
    {
      won := !sending;
      sending := true;
    }

    method TakeAll() returns (batch: seq<Context>)
      modifies this
      ensures forall s, t: nat | old(Shows(s)) && t < |s.pcs| && s.pcs[t].Flush? ::
                Shows(Act(s, t)) && Act(s, t).pcs == s.pcs[t := Sending(batch)]
      ensures batch == Reversed(old(pending)) && pending == [] && sending == old(sending) && sent == old(sent)
    {
      batch := Reversed(pending);
      pending := [];
    }

    method SendOne(batch: seq<Context>) returns (rest: seq<Context>)
      requires batch != []
      modifies this
      ensures forall s, t: nat | old(Shows(s)) && t < |s.pcs| && s.pcs[t] == Sending(batch) ::
                Shows(Act(s, t)) && Act(s, t).pcs == s.pcs[t := Sending(rest)]
      ensures rest == batch[1..] && sent == old(sent) + [batch[0]] && pending == old(pending) && sending == old(sending)
    {
      sent := sent + [batch[0]];
      rest := batch[1..];
    }

    method Leave()
      modifies this
      ensures forall s, t: nat | old(Shows(s)) && t < |s.pcs| && s.pcs[t] == Sending([]) ::
                Shows(Act(s, t)) && Act(s, t).pcs == s.pcs[t := Check]
      ensures !sending && pending == old(pending) && sent == old(sent)
    {
      sending := false;
    }

    /** send_pending, while other threads push arrivals[k] during its k-th round and leave again because somebody
        is sending: what was pending and all that arrives before a round without arrivals goes out in push order. */
    method SendPending(arrivals: seq<seq<Context>>)
      modifies this
      ensures sending == old(sending)
      ensures old(sending) ==> pending == old(pending) && sent == old(sent)
      ensures !old(sending) ==>
                pending == [] && sent == old(sent) + Reversed(old(pending)) + Joined(arrivals)
    {
      hide Reversed, Joined;
      var won := TryEnter();
      if !won {
        return;
      }
      var k := 0;
      ghost var target := old(sent) + Reversed(old(pending)) + Joined(arrivals);
      assert arrivals[0..] == arrivals;
      while won
        invariant k <= |arrivals| && sending == won
        invariant won ==> sent + Reversed(pending) + Joined(arrivals[k..]) == target
        invariant !won ==> pending == [] && sent == target
        decreases |arrivals| - k, won
      {
        var batch := TakeAll();
        ghost var total := sent + batch;
        while batch != []
          invariant sent + batch == total && pending == [] && sending
        {
          ghost var before, was := sent, batch;
          batch := SendOne(batch);
          assert before + was == (before + [was[0]]) + was[1..];
        }
        JoinedFrom(arrivals, k);
        if k < |arrivals| {
          pending := Reversed(arrivals[k]);
          ReversedTwice(arrivals[k]);
          k := k + 1;
        }
        Leave();
        won := false;
        if pending != [] {
          won := TryEnter();
        }
      }
    }
  }

  /** What arrives round by round, up to a round without arrivals. */
  function Joined(arrivals: seq<seq<Context>>): seq<Context> {
    if arrivals == [] || arrivals[0] == [] then [] else arrivals[0] + Joined(arrivals[1..])
  }

  lemma JoinedFrom(arrivals: seq<seq<Context>>, k: nat)
    requires k <= |arrivals|
    ensures k == |arrivals| || arrivals[k] == [] ==> Joined(arrivals[k..]) == []
    ensures k < |arrivals| && arrivals[k] != [] ==> Joined(arrivals[k..]) == arrivals[k] + Joined(arrivals[k + 1..])
  {
    if k < |arrivals| {
      assert arrivals[k..][1..] == arrivals[k + 1..];
    }
  }

  lemma ReversedTwice<T>(s: seq<T>)
    ensures Reversed(Reversed(s)) == s
  {
  }

  // ----- the invariant -----

  predicate InLoop(pc: Pc) { pc.Flush? || pc.Sending? }

  /** A thread that will look at the list again without having sent anything first. */
  predicate Looks(pc: Pc) { pc.Try? || pc.Check? || pc.TryAgain? }

  /** Contexts taken off the list and not sent yet. */
  function Batch(s: State, holder: int): seq<Context> {
    if 0 <= holder < |s.pcs| && s.pcs[holder].Sending? then s.pcs[holder].batch else []
  }

  predicate OnlyHolder(s: State, holder: int) {
    && -1 <= holder < |s.pcs| && (s.sending <==> holder >= 0)
    && forall t | 0 <= t < |s.pcs| :: InLoop(s.pcs[t]) <==> t == holder
  }

  predicate NobodyForgets(s: State) {
    s.pending == [] || s.sending || exists t | 0 <= t < |s.pcs| :: Looks(s.pcs[t])
  }

  /** holder is the thread inside the send loop, -1 if there is none. */
  predicate InvFor(s: State, holder: int) {
    OnlyHolder(s, holder) && NobodyForgets(s) && s.sent + Batch(s, holder) + Reversed(s.pending) == s.pushed
  }

  ghost predicate Inv(s: State) {
    exists holder :: InvFor(s, holder)
  }

  lemma ReversedPush(c: Context, pending: seq<Context>)
    ensures Reversed([c] + pending) == Reversed(pending) + [c]
  {
    assert ([c] + pending)[1..] == pending;
  }

  function HolderAfter(s: State, holder: int, e: Event): int
    requires Enabled(s, e)
  {
    if e.Pushes? then holder
    else if s.pcs[e.t] == Sending([]) then -1
    else if !s.sending && (s.pcs[e.t].Try? || s.pcs[e.t].TryAgain?) then e.t
    else holder
  }

  lemma HolderStep(s: State, e: Event, holder: int)
    requires OnlyHolder(s, holder) && Enabled(s, e)
    ensures OnlyHolder(Next(s, e), HolderAfter(s, holder, e))
  {
  }

  lemma ForgetsStep(s: State, e: Event, holder: int)
    requires OnlyHolder(s, holder) && NobodyForgets(s) && Enabled(s, e)
    ensures NobodyForgets(Next(s, e))
  {
    var n := Next(s, e);
    if Looks(n.pcs[e.t]) {
      assert n.pending == [] || exists t | 0 <= t < |n.pcs| :: Looks(n.pcs[t]);
    } else if !s.sending && s.pending != [] {
      var t :| 0 <= t < |s.pcs| && Looks(s.pcs[t]);
      assert t != e.t ==> Looks(n.pcs[t]);
    }
  }

  lemma OrderStep(s: State, e: Event, holder: int)
    requires OnlyHolder(s, holder) && Enabled(s, e)
    requires s.sent + Batch(s, holder) + Reversed(s.pending) == s.pushed
    ensures var n := Next(s, e);
            n.sent + Batch(n, HolderAfter(s, holder, e)) + Reversed(n.pending) == n.pushed
  {
    hide Reversed;
    var n := Next(s, e);
    match e
    case Pushes(t, c) =>
      ReversedPush(c, s.pending);
      assert Batch(n, holder) == Batch(s, holder);
    case Acts(t) =>
      assert Reversed<Context>([]) == [];
      if s.pcs[t].Sending? {
        assert t == holder;
        var batch := s.pcs[t].batch;
        if batch != [] {
          assert s.sent + batch == n.sent + batch[1..];
        }
      } else if s.pcs[t].Flush? {
        assert t == holder;
      } else {
        assert Batch(n, HolderAfter(s, holder, e)) == Batch(s, holder);
      }
  }

  lemma {:induction false} RunKeepsInv(states: seq<State>, events: seq<Event>)
    requires Run(states, events)
    ensures Inv(states[|events|])
  {
    var n := |events|;
    if n == 0 {
      assert InvFor(states[0], -1);
    } else {
      RunKeepsInv(states[..n], events[..n - 1]);
      var s, e := states[n - 1], events[n - 1];
      var holder :| InvFor(s, holder);
      HolderStep(s, e, holder);
      ForgetsStep(s, e, holder);
      OrderStep(s, e, holder);
      assert InvFor(states[n], HolderAfter(s, holder, e));
    }
  }

  // ----- what it is for -----

  /** At every moment of every run at most one thread is in the send loop, and what went to WskSend is a
      prefix of what was pushed, in push order. */
  lemma SendsInPushOrder(states: seq<State>, events: seq<Event>, t: nat, u: nat)
    requires Run(states, events)
    ensures var s := states[|events|];
            && s.sent <= s.pushed
            && (t < |s.pcs| && u < |s.pcs| && InLoop(s.pcs[t]) && InLoop(s.pcs[u]) ==> t == u)
  {
    RunKeepsInv(states, events);
    var s := states[|events|];
    var holder :| InvFor(s, holder);
    assert s.pushed[..|s.sent|] == s.sent;
  }

  predicate Quiet(s: State) {
    forall t | 0 <= t < |s.pcs| :: s.pcs[t].Outside?
  }

  lemma QuietMeansSent(s: State)
    requires Inv(s) && Quiet(s)
    ensures s.pending == [] && !s.sending && s.sent == s.pushed
  {
  }

  /** When no thread is inside, nothing is left behind. */
  lemma NothingIsLeftBehind(states: seq<State>, events: seq<Event>)
    requires Run(states, events) && Quiet(states[|events|])
    ensures var s := states[|events|]; s.pending == [] && !s.sending && s.sent == s.pushed
  {
    RunKeepsInv(states, events);
    QuietMeansSent(states[|events|]);
  }

  // ----- every schedule drains the queue -----

  /** How far a thread is from leaving, when the list is empty or not. */
  function Rank(pc: Pc, empty: bool): nat {
    match pc
    case Outside => 0
    case Try => if empty then 6 else 3
    case TryAgain => if empty then 6 else 3
    case Flush => if empty then 5 else 2
    case Sending(batch) => |batch| + if empty then 3 else 5
    case Check => if empty then 2 else 4
  }

  function Ranks(pcs: seq<Pc>, empty: bool): nat {
    if pcs == [] then 0 else Rank(pcs[0], empty) + Ranks(pcs[1..], empty)
  }

  lemma {:induction false} RanksUpdate(pcs: seq<Pc>, t: nat, pc: Pc, empty: bool)
    requires t < |pcs|
    ensures Ranks(pcs[t := pc], empty) + Rank(pcs[t], empty) == Ranks(pcs, empty) + Rank(pc, empty)
  {
    if t == 0 {
      assert pcs[t := pc][1..] == pcs[1..];
    } else {
      assert pcs[t := pc][1..] == pcs[1..][t - 1 := pc];
      RanksUpdate(pcs[1..], t - 1, pc, empty);
    }
  }

  lemma ActGetsCloser(s: State, t: nat)
    requires t < |s.pcs| && !s.pcs[t].Outside?
    ensures var n := Act(s, t);
            || |n.pending| < |s.pending|
            || (n.pending == s.pending && Ranks(n.pcs, n.pending == []) < Ranks(s.pcs, s.pending == []))
  {
    RanksUpdate(s.pcs, t, Act(s, t).pcs[t], s.pending == []);
  }

  ghost predicate Schedules(pick: State -> nat) {
    forall s: State :: !Quiet(s) ==> pick(s) < |s.pcs| && !s.pcs[pick(s)].Outside?
  }

  /** What a schedule of the threads that are inside leads to once nobody pushes any more. */
  ghost function Drained(s: State, pick: State -> nat): State
    requires Schedules(pick)
    decreases |s.pending|, Ranks(s.pcs, s.pending == [])
  {
    if Quiet(s) then s
    else
      ActGetsCloser(s, pick(s));
      Drained(Act(s, pick(s)), pick)
  }

  /** Whatever the schedule, every thread gets out after finitely many steps, and by then every context
      pushed so far has gone to WskSend, in push order. */
  lemma {:induction false} EveryScheduleDrains(s: State, pick: State -> nat)
    requires Inv(s) && Schedules(pick)
    ensures var d := Drained(s, pick); Quiet(d) && d.sent == d.pushed == s.pushed
    decreases |s.pending|, Ranks(s.pcs, s.pending == [])
  {
    if Quiet(s) {
      QuietMeansSent(s);
    } else {
      var e := Acts(pick(s));
      var holder :| InvFor(s, holder);
      HolderStep(s, e, holder);
      ForgetsStep(s, e, holder);
      OrderStep(s, e, holder);
      assert InvFor(Next(s, e), HolderAfter(s, holder, e));
      ActGetsCloser(s, pick(s));
      EveryScheduleDrains(Act(s, pick(s)), pick);
    }
  }
}
