/** The watchdog of the web server, which takes devices from clients that have fallen silent. */
module Watchdog {
  import opened Wrappers

  type Client = string
  type Address = string
  type Busid = string

  /** MISSED_RUN_THRESHOLD, KICK_IDLE_SECONDS and EXPECTED_HEARTBEAT_SECONDS, which the environment sets. */
  datatype Config = Config(threshold: int, kickIdle: int, expected: int)

  const WATCHDOG_INTERVAL_SECONDS := 10

  function SafeGap(cfg: Config): real { cfg.expected as real * 1.5 }

  /** watchdog_release_grace_seconds: zero for never, and never less than the redundancy window. */
  function Grace(cfg: Config): (g: real)
    ensures g > 0.0 <==> cfg.kickIdle > 0
    ensures g > 0.0 ==> g >= cfg.kickIdle as real && g >= 1.5 * cfg.expected as real + 10.0 * cfg.threshold as real
    ensures g == 0.0 || g == cfg.kickIdle as real || g == 1.5 * cfg.expected as real + 10.0 * cfg.threshold as real
  {
    if cfg.kickIdle <= 0 then 0.0
    else
      var redundancy := SafeGap(cfg) + (cfg.threshold * WATCHDOG_INTERVAL_SECONDS) as real;
      if cfg.kickIdle as real > redundancy then cfg.kickIdle as real else redundancy
  }

  datatype Record = Record(lastSeen: int, address: Address, busids: seq<Busid>)

  /** What the sweep does about a client whose time is up, lock by lock: it removes the record, forgets the
      counter and releases the devices. visit: the step at which it was found due. */
  datatype Stage = Removing | Forgetting | Unbinding

  datatype Releasing = Releasing(c: Client, record: Record, busids: seq<Busid>, visit: nat, stage: Stage)

  datatype Sweep = Sweep(now: real, snapshot: map<Client, Record>, todo: set<Client>, releasing: Option<Releasing>)

  /** beating, leaving: heartbeats and goodbyes that have changed clients.json and not yet reset the counter. */
  datatype State = State(records: map<Client, Record>, missed: map<Client, nat>, beating: multiset<Client>,
                         leaving: multiset<Client>, sweep: Option<Sweep>, steps: nat)

  const START := State(map[], map[], multiset{}, multiset{}, None, 0)

  /** Each event is a stretch under one lock. at: when the heartbeat looked at the clock. removed: clients.json
      could be written. shared, holders: what force_release_allowed finds. */
  datatype Event =
    | WriteRecord(c: Client, at: real, address: Address, busids: seq<Busid>)  // a heartbeat, first half
    | ResetMissed(c: Client)                                                  // a heartbeat, second half
    | Goodbye(c: Client, removed: bool)
    | GoodbyeReset(c: Client)
    | Expire(gone: set<Client>)
    | SweepStart(now: real)
    | Visit(c: Client)
    | RemoveDue(removed: bool)
    | ForgetDue
    | Release(shared: bool, holders: set<Address>)
    | SweepEnd
    | SweepFails

  predicate AtStage(s: State, stage: Stage) {
    s.sweep.Some? && s.sweep.value.releasing.Some? && s.sweep.value.releasing.value.stage == stage
  }

  predicate Enabled(s: State, e: Event) {
    match e
    case ResetMissed(c) => c in s.beating
    case GoodbyeReset(c) => c in s.leaving
    case SweepStart(_) => s.sweep.None?
    case Visit(c) => s.sweep.Some? && s.sweep.value.releasing.None? && c in s.sweep.value.todo &&
                     c in s.sweep.value.snapshot
    case RemoveDue(_) => AtStage(s, Removing)
    case ForgetDue => AtStage(s, Forgetting)
    case Release(_, _) => AtStage(s, Unbinding) && s.sweep.value.releasing.value.busids != []
    case SweepEnd => s.sweep.Some? && s.sweep.value.todo == {} && s.sweep.value.releasing.None?
    case SweepFails => s.sweep.Some?
    case _ => true
  }

  /** bump_client_missed_run */
  function Bumped(missed: map<Client, nat>, c: Client): nat {
    if c in missed then missed[c] + 1 else 1
  }

  /** What one sweep makes of one client. */
  datatype Verdict = Healthy | Counting | Holding | Due

  function Judge(cfg: Config, now: real, lastSeen: int, missed: nat): Verdict {
    var gap := now - lastSeen as real;
    if gap <= SafeGap(cfg) then Healthy
    else if missed < cfg.threshold then Counting
    else if Grace(cfg) <= 0.0 || gap < Grace(cfg) then Holding
    else Due
  }

  /** The verdicts in terms of the settings. Healthy: silent for no more than one and a half heartbeats. Due: silent
      for longer than that, missed as often as the threshold says, and release is on and its time is up. */
  lemma JudgedExactly(cfg: Config, now: real, lastSeen: int, missed: nat)
    ensures var gap, v := now - lastSeen as real, Judge(cfg, now, lastSeen, missed);
            && (v.Healthy? <==> gap <= 1.5 * cfg.expected as real)
            && (v.Counting? <==> gap > 1.5 * cfg.expected as real && missed < cfg.threshold)
            && (v.Due? <==>
                && gap > 1.5 * cfg.expected as real && missed >= cfg.threshold && cfg.kickIdle > 0
                && gap >= cfg.kickIdle as real && gap >= 1.5 * cfg.expected as real + 10.0 * cfg.threshold as real)
  {
  }

  function VerdictOn(cfg: Config, s: State, c: Client): Verdict
    requires Enabled(s, Visit(c))
  {
    Judge(cfg, s.sweep.value.now, s.sweep.value.snapshot[c].lastSeen, Bumped(s.missed, c))
  }

  /** The look at the record and, unless it is fresh, at the counter. */
  function Visited(cfg: Config, s: State, c: Client): State
    requires Enabled(s, Visit(c))
  {
    var record := s.sweep.value.snapshot[c];
    var left := s.sweep.value.(todo := s.sweep.value.todo - {c});
    var counted := s.missed[c := Bumped(s.missed, c)];
    match VerdictOn(cfg, s, c)
    case Healthy => s.(missed := s.missed - {c}, sweep := Some(left))
    case Due =>
      s.(missed := counted,
         sweep := Some(left.(releasing := Some(Releasing(c, record, record.busids, s.steps, Removing)))))
    case _ => s.(missed := counted, sweep := Some(left))
  }

  function Proceed(s: State, releasing: Option<Releasing>): State
    requires s.sweep.Some?
  {
    s.(sweep := Some(s.sweep.value.(releasing := releasing)))
  }

  function Removed(s: State, removed: bool): State
    requires AtStage(s, Removing)
  {
    var r := s.sweep.value.releasing.value;
    Proceed(s, Some(r.(stage := Forgetting))).(records := if removed then s.records - {r.c} else s.records)
  }

  function Forgotten(s: State): State
    requires AtStage(s, Forgetting)
  {
    var r := s.sweep.value.releasing.value;
    Proceed(s, if r.busids == [] then None else Some(r.(stage := Unbinding))).(missed := s.missed - {r.c})
  }

  function Next(cfg: Config, s: State, e: Event): State
    requires Enabled(s, e)
  {
    (match e
     case WriteRecord(c, at, address, busids) =>
       s.(records := s.records[c := Record(at.Floor, address, busids)], beating := s.beating + multiset{c})
     case ResetMissed(c) => s.(missed := s.missed - {c}, beating := s.beating - multiset{c})
     case Goodbye(c, removed) =>
       s.(records := if removed then s.records - {c} else s.records, leaving := s.leaving + multiset{c})
     case GoodbyeReset(c) => s.(missed := s.missed - {c}, leaving := s.leaving - multiset{c})
     case Expire(gone) => s.(records := s.records - gone)
     case SweepStart(now) => s.(sweep := Some(Sweep(now, s.records, s.records.Keys, None)))
     case Visit(c) => Visited(cfg, s, c)
     case RemoveDue(removed) => Removed(s, removed)
     case ForgetDue => Forgotten(s)
     case Release(_, _) =>
       var r := s.sweep.value.releasing.value;
       Proceed(s, if |r.busids| == 1 then None else Some(r.(busids := r.busids[1..])))
     case SweepEnd => s.(missed := map c | c in s.missed && c in s.sweep.value.snapshot :: s.missed[c], sweep := None)
     case SweepFails => s.(sweep := None)).(steps := s.steps + 1)
  }

  /** One client's turn of the sweep with nothing in between, up to the release of its devices. */
  function TurnOf(cfg: Config, s: State, c: Client, removed: bool): State
    requires Enabled(s, Visit(c))
  {
    var n := Visited(cfg, s, c);
    if AtStage(n, Removing) then Forgotten(Removed(n, removed)) else n
  }

  lemma TurnOfIs(cfg: Config, s: State, c: Client, removed: bool)
    requires Enabled(s, Visit(c))
    ensures var record := s.sweep.value.snapshot[c];
            var verdict := Judge(cfg, s.sweep.value.now, record.lastSeen, Bumped(s.missed, c));
            var n := TurnOf(cfg, s, c, removed);
            && n.records == (if verdict.Due? && removed then s.records - {c} else s.records)
            && n.missed == (if verdict.Healthy? || verdict.Due? then s.missed - {c}
                            else s.missed[c := Bumped(s.missed, c)])
            && n.sweep.Some?
            && match n.sweep.value.releasing
               case None => !verdict.Due? || record.busids == []
               case Some(r) => verdict.Due? && r.busids == record.busids != []
  {
    hide Judge;
    assert s.missed[c := Bumped(s.missed, c)] - {c} == s.missed - {c};
  }

  // ----- the sweep as the server does it -----

  class Server {
    var records: map<Client, Record>  // clients.json
    var missed: map<Client, nat>      // _WATCHDOG_MISSED_RUNS

    constructor ()
      ensures records == map[] && missed == map[]
    {
      records, missed := map[], map[];
    }

    /** One client's turn, the same as in any state s that shows the server; claimed: what is to be released. */
    method Look(cfg: Config, now: real, c: Client, record: Record, removed: bool)
      returns (due: bool, claimed: seq<Busid>)
      modifies this
      ensures forall s: State |
                && Enabled(s, Visit(c)) && s.records == old(records) && s.missed == old(missed)
                && s.sweep.value.now == now && s.sweep.value.snapshot[c] == record ::
                var n := TurnOf(cfg, s, c, removed);
                && records == n.records && missed == n.missed
                && claimed == match n.sweep.value.releasing case None => [] case Some(r) => r.busids
      ensures var verdict := Judge(cfg, now, record.lastSeen, Bumped(old(missed), c));
              && due == verdict.Due?
              && records == (if due && removed then old(records) - {c} else old(records))
              && missed == (if verdict.Healthy? || due then old(missed) - {c}
                            else old(missed)[c := Bumped(old(missed), c)])
      ensures claimed == if due then record.busids else []
    {
      hide TurnOf, Enabled;
      forall s: State | Enabled(s, Visit(c)) {
        TurnOfIs(cfg, s, c, removed);
      }
      due, claimed := false, [];
      var gap := now - record.lastSeen as real;
      if gap <= SafeGap(cfg) {
        missed := missed - {c};
        return;
      }
      var m := if c in missed then missed[c] + 1 else 1;
      missed := missed[c := m];
      if m < cfg.threshold {
        return;
      }
      var grace := Grace(cfg);
      if grace <= 0.0 || gap < grace {
        return;
      }
      if removed {
        records := records - {c};
      }
      missed := missed - {c};
      return true, record.busids;
    }

    /** A sweep during which nothing else happens: exactly the clients that are due lose their records, as far as
        they can be removed; exactly those that are late and not due have been counted once more; all others
        start from zero again. */
    method WatchdogSweep(cfg: Config, now: real, removable: set<Client>) returns (due: set<Client>)
      modifies this
      ensures forall c :: c in due <==>
                c in old(records) && Judge(cfg, now, old(records)[c].lastSeen, Bumped(old(missed), c)).Due?
      ensures records == old(records) - due * removable
      ensures forall c :: c in missed <==>
                c in old(records) &&
                var v := Judge(cfg, now, old(records)[c].lastSeen, Bumped(old(missed), c)); v.Counting? || v.Holding?
      ensures forall c | c in missed :: missed[c] == Bumped(old(missed), c)
    {
      hide Judge, TurnOf, Bumped, Midsweep;
      due := {};
      ghost var was := missed;
      var snapshot := records;
      var todo := snapshot.Keys;
      MidsweepStarts(cfg, now, snapshot, was);
      while todo != {}
        invariant todo <= snapshot.Keys
        invariant Midsweep(cfg, now, snapshot, was, todo, due, missed) && records == snapshot - due * removable
        decreases |todo|
      {
        var c :| c in todo;
        ghost var before := missed;
        var isDue, _ := Look(cfg, now, c, snapshot[c], c in removable);
        MidsweepTurn(cfg, now, snapshot, was, todo, due, before, missed, c);
        todo := todo - {c};
        if isDue {
          due := due + {c};
        }
      }
      MidsweepEnds(cfg, now, snapshot, was, due, missed);
      missed := map c | c in missed && c in snapshot :: missed[c];
    }
  }

  predicate Untouched(was: map<Client, nat>, missed: map<Client, nat>, c: Client) {
    (c in missed <==> c in was) && (c in missed ==> missed[c] == was[c])
  }

  predicate DueNow(cfg: Config, now: real, record: Record, was: map<Client, nat>, c: Client) {
    Judge(cfg, now, record.lastSeen, Bumped(was, c)).Due?
  }

  /** The counter of a client after a look at it. */
  predicate Swept(cfg: Config, now: real, record: Record, was: map<Client, nat>, missed: map<Client, nat>, c: Client) {
    var v := Judge(cfg, now, record.lastSeen, Bumped(was, c));
    (c in missed <==> v.Counting? || v.Holding?) && (c in missed ==> missed[c] == Bumped(was, c))
  }

  lemma LookSweeps(cfg: Config, now: real, record: Record, was: map<Client, nat>, before: map<Client, nat>,
                   missed: map<Client, nat>, c: Client)
    requires Untouched(was, before, c)
    requires var verdict := Judge(cfg, now, record.lastSeen, Bumped(before, c));
             missed == if verdict.Healthy? || verdict.Due? then before - {c} else before[c := Bumped(before, c)]
    ensures Swept(cfg, now, record, was, missed, c)
    ensures Judge(cfg, now, record.lastSeen, Bumped(before, c)).Due? <==> DueNow(cfg, now, record, was, c)
  {
  }

  lemma OthersAsBefore(cfg: Config, now: real, snapshot: map<Client, Record>, was: map<Client, nat>,
                       before: map<Client, nat>, missed: map<Client, nat>, c: Client)
    requires missed - {c} == before - {c}
    ensures forall d | d != c :: Untouched(was, missed, d) <==> Untouched(was, before, d)
    ensures forall d | d != c && d in snapshot ::
              Swept(cfg, now, snapshot[d], was, missed, d) <==> Swept(cfg, now, snapshot[d], was, before, d)
  {
    forall d | d != c
      ensures (d in missed <==> d in before) && (d in missed ==> missed[d] == before[d])
    {
      assert d in missed - {c} <==> d in missed;
      assert d in before - {c} <==> d in before;
    }
  }

  /** Between two turns of the loop. */
  ghost predicate Midsweep(cfg: Config, now: real, snapshot: map<Client, Record>, was: map<Client, nat>,
                           todo: set<Client>, due: set<Client>, missed: map<Client, nat>)
  {
    && (forall c :: c in due <==> c in snapshot && c !in todo && DueNow(cfg, now, snapshot[c], was, c))
    && (forall c :: c in todo || c !in snapshot ==> Untouched(was, missed, c))
    && (forall c :: c in snapshot && c !in todo ==> Swept(cfg, now, snapshot[c], was, missed, c))
  }

  lemma MidsweepStarts(cfg: Config, now: real, snapshot: map<Client, Record>, was: map<Client, nat>)
    ensures Midsweep(cfg, now, snapshot, was, snapshot.Keys, {}, was)
  {
  }

  lemma MidsweepTurn(cfg: Config, now: real, snapshot: map<Client, Record>, was: map<Client, nat>,
                     todo: set<Client>, due: set<Client>, before: map<Client, nat>, missed: map<Client, nat>, c: Client)
    requires c in todo && todo <= snapshot.Keys && Midsweep(cfg, now, snapshot, was, todo, due, before)
    requires var verdict := Judge(cfg, now, snapshot[c].lastSeen, Bumped(before, c));
             missed == if verdict.Healthy? || verdict.Due? then before - {c} else before[c := Bumped(before, c)]
    ensures Midsweep(cfg, now, snapshot, was, todo - {c},
                     if Judge(cfg, now, snapshot[c].lastSeen, Bumped(before, c)).Due? then due + {c} else due, missed)
  {
    hide Judge, Bumped, Untouched, Swept, DueNow;
    LookSweeps(cfg, now, snapshot[c], was, before, missed, c);
    OthersAsBefore(cfg, now, snapshot, was, before, missed, c);
  }

  lemma MidsweepEnds(cfg: Config, now: real, snapshot: map<Client, Record>, was: map<Client, nat>,
                     due: set<Client>, missed: map<Client, nat>)
    requires Midsweep(cfg, now, snapshot, was, {}, due, missed)
    ensures forall c :: c in due <==> c in snapshot && Judge(cfg, now, snapshot[c].lastSeen, Bumped(was, c)).Due?
    ensures forall c | c in snapshot ::
              var v := Judge(cfg, now, snapshot[c].lastSeen, Bumped(was, c));
              (c in missed <==> v.Counting? || v.Holding?) && (c in missed ==> missed[c] == Bumped(was, c))
  {
    hide Judge, Bumped;
  }

  /** force_release_allowed, and with it the unbind. */
  predicate Unbinds(s: State, e: Event) {
    Enabled(s, e) && e.Release? && e.shared &&
    var stale := s.sweep.value.releasing.value.record.address;
    e.holders == {} || (stale != "" && e.holders == {stale})
  }

  predicate Run(cfg: Config, states: seq<State>, events: seq<Event>) {
    && |states| == |events| + 1 && states[0] == START
    && forall i | 0 <= i < |events| :: Enabled(states[i], events[i]) && states[i + 1] == Next(cfg, states[i], events[i])
  }

  // ----- what happened, read off the events alone -----

  /** When the record of a client was last written. */
  function LastWritten(events: seq<Event>, c: Client): Option<real> {
    if events == [] then None
    else
      match events[|events| - 1]
      case WriteRecord(d, at, _, _) => if d == c then Some(at) else LastWritten(events[..|events| - 1], c)
      case _ => LastWritten(events[..|events| - 1], c)
  }

  /** How often sweeps have looked at a client since a heartbeat of it was last completed. */
  function LooksSinceBeat(events: seq<Event>, c: Client): nat {
    if events == [] then 0
    else
      var before := LooksSinceBeat(events[..|events| - 1], c);
      match events[|events| - 1]
      case ResetMissed(d) => if d == c then 0 else before
      case Visit(d) => if d == c then before + 1 else before
      case _ => before
  }

  /** The record has been written since the last sweep started. */
  predicate WrittenInSweep(events: seq<Event>, c: Client) {
    events != [] &&
    match events[|events| - 1]
    case WriteRecord(d, _, _, _) => d == c || WrittenInSweep(events[..|events| - 1], c)
    case SweepStart(_) => false
    case _ => WrittenInSweep(events[..|events| - 1], c)
  }

  /** A heartbeat has written its record since the last sweep started, and no heartbeat of the client has reset
      the counter since. */
  predicate UnderWay(events: seq<Event>, c: Client) {
    events != [] &&
    match events[|events| - 1]
    case WriteRecord(d, _, _, _) => d == c || UnderWay(events[..|events| - 1], c)
    case ResetMissed(d) => d != c && UnderWay(events[..|events| - 1], c)
    case SweepStart(_) => false
    case _ => UnderWay(events[..|events| - 1], c)
  }

  /** A heartbeat of the client has written its record after a step. */
  predicate WrittenAfter(events: seq<Event>, step: nat, c: Client) {
    exists k | step < k < |events| :: events[k].WriteRecord? && events[k].c == c
  }

  predicate SameSweep(events: seq<Event>, step: nat) {
    forall k | step <= k < |events| :: !events[k].SweepStart?
  }

  /** What has happened to a record within one sweep, before a step and after it. */
  lemma {:induction false} WrittenBeforeOrAfter(events: seq<Event>, step: nat, c: Client)
    requires step < |events| && SameSweep(events, step) && !events[step].WriteRecord?
    ensures WrittenInSweep(events, c) <==> WrittenInSweep(events[..step], c) || WrittenAfter(events, step, c)
    ensures !WrittenAfter(events, step, c) ==> LastWritten(events, c) == LastWritten(events[..step], c)
  {
    var n := |events| - 1;
    assert events == events[..n] + [events[n]];
    EventsNext(events[..n], events[n], c);
    if step < n {
      assert events[..n][..step] == events[..step];
      WrittenBeforeOrAfter(events[..n], step, c);
      assert forall k | step < k < n :: events[..n][k] == events[k];
    }
  }

  lemma EventsNext(events: seq<Event>, e: Event, c: Client)
    ensures LastWritten(events + [e], c) == if e.WriteRecord? && e.c == c then Some(e.at) else LastWritten(events, c)
    ensures LooksSinceBeat(events + [e], c) ==
            if e == ResetMissed(c) then 0 else LooksSinceBeat(events, c) + if e == Visit(c) then 1 else 0
    ensures WrittenInSweep(events + [e], c) <==>
            (e.WriteRecord? && e.c == c) || (!e.SweepStart? && WrittenInSweep(events, c))
    ensures UnderWay(events + [e], c) <==>
            (e.WriteRecord? && e.c == c) || (!e.SweepStart? && e != ResetMissed(c) && UnderWay(events, c))
  {
    assert (events + [e])[..|events|] == events;
  }

  // ----- the invariant -----

  predicate WrittenAt(events: seq<Event>, c: Client, lastSeen: int) {
    LastWritten(events, c).Some? && LastWritten(events, c).value.Floor == lastSeen
  }

  /** The counter never runs ahead of the looks since a heartbeat was completed, and records are the last ones
      written. */
  predicate CounterInv(events: seq<Event>, s: State, c: Client) {
    && (c in s.missed ==> 1 <= s.missed[c] <= LooksSinceBeat(events, c))
    && (c in s.records ==> WrittenAt(events, c, s.records[c].lastSeen))
    && (UnderWay(events, c) ==> c in s.beating)
  }

  /** The sweep has the last record of a client unless that was written since; and if it was, a counter that is
      not zero means that the heartbeat is still under way. */
  predicate TodoInv(events: seq<Event>, s: State, c: Client) {
    s.sweep.Some? && c in s.sweep.value.todo ==>
      && c in s.sweep.value.snapshot
      && (WrittenInSweep(events, c) || WrittenAt(events, c, s.sweep.value.snapshot[c].lastSeen))
      && (c in s.missed ==> (WrittenInSweep(events, c) <==> UnderWay(events, c)))
  }

  predicate ClientInv(events: seq<Event>, s: State, c: Client) {
    CounterInv(events, s, c) && TodoInv(events, s, c)
  }

  /** The decision to take devices was right when it was made. */
  ghost predicate Justified(cfg: Config, events: seq<Event>, sweep: Sweep, r: Releasing) {
    && r.visit < |events| && events[r.visit] == Visit(r.c) && SameSweep(events, r.visit)
    && LooksSinceBeat(events[..r.visit + 1], r.c) >= cfg.threshold
    && Grace(cfg) > 0.0 && sweep.now - r.record.lastSeen as real >= Grace(cfg)
    && (WrittenInSweep(events[..r.visit], r.c) || WrittenAt(events[..r.visit], r.c, r.record.lastSeen))
    && (cfg.threshold >= 2 ==> (WrittenInSweep(events[..r.visit], r.c) <==> UnderWay(events[..r.visit], r.c)))
  }

  ghost predicate ReleaseInv(cfg: Config, events: seq<Event>, s: State) {
    s.sweep.Some? && s.sweep.value.releasing.Some? ==>
      Justified(cfg, events, s.sweep.value, s.sweep.value.releasing.value)
  }

  ghost predicate Inv(cfg: Config, events: seq<Event>, s: State) {
    s.steps == |events| && (forall c :: ClientInv(events, s, c)) && ReleaseInv(cfg, events, s)
  }

  lemma CounterStep(cfg: Config, events: seq<Event>, s: State, e: Event, c: Client)
    requires CounterInv(events, s, c) && Enabled(s, e)
    ensures CounterInv(events + [e], Next(cfg, s, e), c)
  {
    hide LastWritten, LooksSinceBeat, WrittenInSweep, UnderWay, Next, Enabled;
    EventsNext(events, e, c);
    BeatingStep(cfg, s, e, c);
    MissedStep(cfg, s, e, c);
  }

  /** Where counters and records come from. */
  lemma MissedStep(cfg: Config, s: State, e: Event, c: Client)
    requires Enabled(s, e)
    ensures var n := Next(cfg, s, e);
            && (c in n.missed ==>
                  e != ResetMissed(c) &&
                  if e == Visit(c) then n.missed[c] == Bumped(s.missed, c)
                  else c in s.missed && n.missed[c] == s.missed[c])
            && (c in n.records ==>
                  if e.WriteRecord? && e.c == c then n.records[c].lastSeen == e.at.Floor
                  else c in s.records && n.records[c] == s.records[c])
  {
    hide Judge;
  }

  lemma BeatingStep(cfg: Config, s: State, e: Event, c: Client)
    requires Enabled(s, e)
    ensures e.WriteRecord? && e.c == c ==> c in Next(cfg, s, e).beating
    ensures c in s.beating && e != ResetMissed(c) ==> c in Next(cfg, s, e).beating
  {
    hide Judge;
  }

  lemma TodoStep(cfg: Config, events: seq<Event>, s: State, e: Event, c: Client)
    requires CounterInv(events, s, c) && TodoInv(events, s, c) && Enabled(s, e)
    ensures TodoInv(events + [e], Next(cfg, s, e), c)
  {
    hide LastWritten, LooksSinceBeat, WrittenInSweep, UnderWay, Judge;
    EventsNext(events, e, c);
    UnderWayIsWritten(events, c);
  }

  lemma ClientStep(cfg: Config, events: seq<Event>, s: State, e: Event, c: Client)
    requires ClientInv(events, s, c) && Enabled(s, e)
    ensures ClientInv(events + [e], Next(cfg, s, e), c)
  {
    hide CounterInv, TodoInv;
    CounterStep(cfg, events, s, e, c);
    TodoStep(cfg, events, s, e, c);
  }

  lemma {:induction false} UnderWayIsWritten(events: seq<Event>, c: Client)
    ensures UnderWay(events, c) ==> WrittenInSweep(events, c)
  {
    if events != [] {
      UnderWayIsWritten(events[..|events| - 1], c);
    }
  }

  lemma JustifiedStays(cfg: Config, events: seq<Event>, e: Event, sweep: Sweep, r: Releasing)
    requires Justified(cfg, events, sweep, r) && !e.SweepStart?
    ensures Justified(cfg, events + [e], sweep, r)
  {
    assert (events + [e])[..r.visit + 1] == events[..r.visit + 1];
    assert (events + [e])[..r.visit] == events[..r.visit];
  }

  /** A visit that finds the devices due. */
  lemma DueIsJustified(cfg: Config, events: seq<Event>, s: State, c: Client)
    requires Inv(cfg, events, s) && Enabled(s, Visit(c)) && VerdictOn(cfg, s, c) == Due
    ensures var sweep := s.sweep.value;
            Justified(cfg, events + [Visit(c)], sweep,
                      Releasing(c, sweep.snapshot[c], sweep.snapshot[c].busids, s.steps, Removing))
  {
    hide LastWritten, LooksSinceBeat, WrittenInSweep, UnderWay, Grace, SafeGap;
    assert ClientInv(events, s, c);
    EventsNext(events, Visit(c), c);
    assert (events + [Visit(c)])[..|events| + 1] == events + [Visit(c)] && (events + [Visit(c)])[..|events|] == events;
  }

  lemma ReleaseStep(cfg: Config, events: seq<Event>, s: State, e: Event)
    requires Inv(cfg, events, s) && Enabled(s, e)
    ensures ReleaseInv(cfg, events + [e], Next(cfg, s, e))
  {
    hide LastWritten, LooksSinceBeat, WrittenInSweep, UnderWay, Grace, SafeGap, ClientInv, WrittenAt;
    if s.sweep.Some? && s.sweep.value.releasing.Some? {
      JustifiedStays(cfg, events, e, s.sweep.value, s.sweep.value.releasing.value);
    } else if e.Visit? && VerdictOn(cfg, s, e.c) == Due {
      DueIsJustified(cfg, events, s, e.c);
    }
  }

  lemma {:induction false} RunKeepsInv(cfg: Config, states: seq<State>, events: seq<Event>)
    requires Run(cfg, states, events)
    ensures Inv(cfg, events, states[|events|])
  {
    hide Next, ClientInv, ReleaseInv, Enabled;
    var k := |events|;
    if k == 0 {
      StartKeepsInv(cfg, states[0]);
    } else {
      RunKeepsInv(cfg, states[..k], events[..k - 1]);
      var s, e := states[k - 1], events[k - 1];
      assert events == events[..k - 1] + [e];
      forall c ensures ClientInv(events, states[k], c) {
        ClientStep(cfg, events[..k - 1], s, e, c);
      }
      ReleaseStep(cfg, events[..k - 1], s, e);
      StepCounts(cfg, s, e);
    }
  }

  lemma StartKeepsInv(cfg: Config, s: State)
    requires s == START
    ensures Inv(cfg, [], s)
  {
  }

  lemma StepCounts(cfg: Config, s: State, e: Event)
    requires Enabled(s, e)
    ensures Next(cfg, s, e).steps == s.steps + 1
  {
  }

  /** Between two looks at a client a sweep has started: the looks counted are in different sweeps. */
  lemma {:induction false} OneLookASweep(cfg: Config, states: seq<State>, events: seq<Event>, i: nat, j: nat, c: Client)
    requires Run(cfg, states, events) && i < j <= |events| && events[i] == Visit(c)
    requires forall k | i < k < j :: !events[k].SweepStart?
    ensures states[j].sweep.None? || c !in states[j].sweep.value.todo
    ensures j < |events| ==> events[j] != Visit(c)
  {
    hide Next, Enabled;
    if i + 1 < j {
      OneLookASweep(cfg, states, events, i, j - 1, c);
    }
    assert states[j] == Next(cfg, states[j - 1], events[j - 1]);
    LookedAtStays(cfg, states[j - 1], events[j - 1], c);
    if j < |events| && events[j] == Visit(c) {
      VisitNeedsTodo(states[j], c);
    }
  }

  lemma LookedAtStays(cfg: Config, s: State, e: Event, c: Client)
    requires Enabled(s, e) && !e.SweepStart? && (s.sweep.None? || c !in s.sweep.value.todo || e == Visit(c))
    ensures var n := Next(cfg, s, e); n.sweep.None? || c !in n.sweep.value.todo
  {
    hide Judge;
  }

  lemma VisitNeedsTodo(s: State, c: Client)
    requires Enabled(s, Visit(c))
    ensures s.sweep.Some? && c in s.sweep.value.todo
  {
  }

  // ----- what an unbind means -----

  /** Whenever the watchdog unbinds a device on account of a client: at the verdict, sweeps had looked at the
      client at least MISSED_RUN_THRESHOLD times since a heartbeat of it was last completed; automatic release is
      switched on; the record it was judged by is older than the grace period (lastSeen is rounded down to a
      second), and it was the last one at the verdict unless a heartbeat had written another during the sweep, which
      with a threshold of two or more was still under way; it is the last one still unless a heartbeat has written
      another since the sweep started; and every holder of the device sits at the client's own address. */
  lemma UnbindsOnlyTheSilent(cfg: Config, states: seq<State>, events: seq<Event>, e: Event)
    requires Run(cfg, states, events) && Unbinds(states[|events|], e)
    ensures var s := states[|events|];
            var r := s.sweep.value.releasing.value;
            && r.visit < |events| && LooksSinceBeat(events[..r.visit + 1], r.c) >= cfg.threshold
            && cfg.kickIdle > 0 && s.sweep.value.now - r.record.lastSeen as real >= Grace(cfg)
            && (!WrittenInSweep(events[..r.visit], r.c) || (cfg.threshold >= 2 && !UnderWay(events[..r.visit], r.c)) ==>
                  && LastWritten(events[..r.visit], r.c).Some?
                  && s.sweep.value.now - LastWritten(events[..r.visit], r.c).value > Grace(cfg) - 1.0)
            && (!WrittenInSweep(events, r.c) ==>
                  && LastWritten(events, r.c).Some?
                  && s.sweep.value.now - LastWritten(events, r.c).value > Grace(cfg) - 1.0)
            && (forall a | a in e.holders :: a == r.record.address)
  {
    hide LastWritten, WrittenInSweep, UnderWay, LooksSinceBeat;
    RunKeepsInv(cfg, states, events);
    var r := states[|events|].sweep.value.releasing.value;
    WrittenBeforeOrAfter(events, r.visit, r.c);
  }

  /** A device is taken exactly if it is still shared and nobody holds it from any other address than the client's own,
      as far as that is known. */
  lemma UnbindsExactly(s: State, e: Event)
    requires Enabled(s, e) && e.Release?
    ensures var own := s.sweep.value.releasing.value.record.address;
            Unbinds(s, e) <==> e.shared && forall a | a in e.holders :: a == own && a != ""
  {
    var own := s.sweep.value.releasing.value.record.address;
    if e.holders != {} && forall a | a in e.holders :: a == own {
      var a :| a in e.holders;
      assert e.holders == {own};
    }
  }

  /** When a device is taken from a client that has been heard from during the sweep: exactly if a heartbeat wrote
      its record between the verdict and the unbind, or had written it before the verdict; with a threshold of two
      or more, the latter means that it was still under way then. */
  lemma HeardFromYetUnboundExactly(cfg: Config, states: seq<State>, events: seq<Event>, e: Event)
    requires Run(cfg, states, events) && Unbinds(states[|events|], e)
    ensures var r := states[|events|].sweep.value.releasing.value;
            && r.visit < |events|
            && (WrittenInSweep(events, r.c) <==>
                WrittenAfter(events, r.visit, r.c) || WrittenInSweep(events[..r.visit], r.c))
            && (cfg.threshold >= 2 ==>
                  (WrittenInSweep(events, r.c) <==>
                   WrittenAfter(events, r.visit, r.c) || UnderWay(events[..r.visit], r.c)))
  {
    hide WrittenInSweep, UnderWay;
    RunKeepsInv(cfg, states, events);
    var r := states[|events|].sweep.value.releasing.value;
    WrittenBeforeOrAfter(events, r.visit, r.c);
  }

  /** When a client that has been heard from during the sweep is found due all the same: with a threshold of two
      or more exactly if the heartbeat is still under way, its record written and the counter not yet reset. */
  lemma JudgedByAnOldRecordExactly(cfg: Config, states: seq<State>, events: seq<Event>, c: Client)
    requires Run(cfg, states, events) && Enabled(states[|events|], Visit(c)) && cfg.threshold >= 2
    requires VerdictOn(cfg, states[|events|], c) == Due
    ensures WrittenInSweep(events, c) <==> UnderWay(events, c)
    ensures UnderWay(events, c) ==> c in states[|events|].beating
  {
    RunKeepsInv(cfg, states, events);
    assert ClientInv(events, states[|events|], c);
  }

  // ----- heartbeats that come too late -----

  /** An hour at which a client that was last seen at zero is due as soon as it has been missed often enough. */
  function TooLate(cfg: Config): (t: real)
    ensures t > SafeGap(cfg) && t >= Grace(cfg)
  {
    (if SafeGap(cfg) > 0.0 then SafeGap(cfg) else 0.0) + Grace(cfg) + 1.0
  }

  const OLD_RECORD := Record(0, "a", ["1-1"])

  predicate MissedSoFar(s: State, k: nat) {
    && s.records == map["c" := OLD_RECORD] && s.sweep.None? && s.beating == multiset{}
    && s.missed == if k == 0 then map[] else map["c" := k]
  }

  lemma Extend(cfg: Config, states: seq<State>, events: seq<Event>, e: Event)
    returns (states': seq<State>, events': seq<Event>)
    requires Run(cfg, states, events) && Enabled(states[|events|], e)
    ensures Run(cfg, states', events') && |states'| == |events'| + 1 && events' == events + [e]
    ensures states' == states + [Next(cfg, states[|events|], e)] && states'[|events'|] == Next(cfg, states[|events|], e)
  {
    hide Next, Enabled;
    states', events' := states + [Next(cfg, states[|events|], e)], events + [e];
    forall i | 0 <= i < |events'|
      ensures Enabled(states'[i], events'[i]) && states'[i + 1] == Next(cfg, states'[i], events'[i])
    {
      if i < |events| {
        assert Enabled(states[i], events[i]) && states[i + 1] == Next(cfg, states[i], events[i]);
      }
    }
  }

  /** A run in which k sweeps have missed the client. */
  lemma {:induction false} MissedRun(cfg: Config, k: nat) returns (states: seq<State>, events: seq<Event>)
    requires k == 0 || k < cfg.threshold
    ensures Run(cfg, states, events) && MissedSoFar(states[|events|], k)
  {
    if k == 0 {
      states, events := Extend(cfg, [START], [], WriteRecord("c", 0.0, "a", ["1-1"]));
      states, events := Extend(cfg, states, events, ResetMissed("c"));
      assert START.missed - {"c"} == map[];
    } else {
      states, events := MissedRun(cfg, k - 1);
      var s := states[|events|];
      states, events := Extend(cfg, states, events, SweepStart(TooLate(cfg)));
      assert VerdictOn(cfg, states[|events|], "c") == Counting;
      states, events := Extend(cfg, states, events, Visit("c"));
      assert s.records.Keys - {"c"} == {};
      states, events := Extend(cfg, states, events, SweepEnd);
      assert states[|events|].missed == map["c" := k];
    }
  }

  /** A heartbeat writes its record after the sweep has started, and, if reset, completes. */
  lemma LateBeat(cfg: Config, k: nat, reset: bool) returns (states: seq<State>, events: seq<Event>)
    requires k == 0 || k < cfg.threshold
    ensures Run(cfg, states, events) && Enabled(states[|events|], Visit("c"))
    ensures var s := states[|events|];
            && s.sweep.value.snapshot["c"] == OLD_RECORD && s.sweep.value.now == TooLate(cfg)
            && s.missed == (if k == 0 || reset then map[] else map["c" := k]) && ("c" in s.beating <==> !reset)
            && LastWritten(events, "c") == Some(TooLate(cfg))
            && WrittenInSweep(events, "c") && (UnderWay(events, "c") <==> !reset)
  {
    hide Grace, SafeGap, TooLate, Judge, LastWritten, WrittenInSweep, UnderWay, LooksSinceBeat;
    states, events := MissedRun(cfg, k);
    var t, s := TooLate(cfg), states[|events|];
    states, events := Extend(cfg, states, events, SweepStart(t));
    EventsNext(events, WriteRecord("c", t, "a", ["1-1"]), "c");
    states, events := Extend(cfg, states, events, WriteRecord("c", t, "a", ["1-1"]));
    if reset {
      EventsNext(events, ResetMissed("c"), "c");
      states, events := Extend(cfg, states, events, ResetMissed("c"));
      assert s.missed - {"c"} == map[];
    }
  }

  /** From a verdict to the unbind. */
  lemma DueLosesDevice(cfg: Config, states: seq<State>, events: seq<Event>)
    returns (states': seq<State>, events': seq<Event>)
    requires Run(cfg, states, events) && Enabled(states[|events|], Visit("c"))
    requires VerdictOn(cfg, states[|events|], "c") == Due
    requires states[|events|].sweep.value.snapshot["c"] == OLD_RECORD
    ensures Run(cfg, states', events') && Unbinds(states'[|events'|], Release(true, {}))
    ensures states'[|events'|].sweep.value.now == states[|events|].sweep.value.now
    ensures states'[|events'|].beating == states[|events|].beating
    ensures LastWritten(events', "c") == LastWritten(events, "c")
  {
    hide Judge, LastWritten, Run, LooksSinceBeat, WrittenInSweep, UnderWay, Bumped;
    EventsNext(events, Visit("c"), "c");
    states', events' := Extend(cfg, states, events, Visit("c"));
    assert AtStage(states'[|events'|], Removing);
    hide VerdictOn, Visited;
    EventsNext(events', RemoveDue(true), "c");
    states', events' := Extend(cfg, states', events', RemoveDue(true));
    EventsNext(events', ForgetDue, "c");
    states', events' := Extend(cfg, states', events', ForgetDue);
  }

  /** Whatever the threshold, release being on: a client whose heartbeat has written its record during the
      sweep can lose that record and its device before the heartbeat is complete. */
  lemma HeartbeatUnderWayIsMissed(cfg: Config)
    requires cfg.kickIdle > 0
    ensures exists states: seq<State>, events ::
              && Run(cfg, states, events) && Unbinds(states[|events|], Release(true, {}))
              && "c" in states[|events|].beating
              && LastWritten(events, "c") == Some(states[|events|].sweep.value.now)
  {
    var states, events := LateBeat(cfg, if cfg.threshold >= 1 then cfg.threshold - 1 else 0, false);
    states, events := DueLosesDevice(cfg, states, events);
  }

  /** A client is found due, and one of its heartbeats begins and ends. */
  lemma BeatAfterVerdict(cfg: Config, states: seq<State>, events: seq<Event>, beat: Event)
    returns (states': seq<State>, events': seq<Event>)
    requires Run(cfg, states, events) && beat.WriteRecord? && Enabled(states[|events|], Visit(beat.c))
    requires VerdictOn(cfg, states[|events|], beat.c) == Due
    ensures Run(cfg, states', events') && |states'| == |events'| + 1 && events <= events'
    ensures AtStage(states'[|events'|], Removing)
    ensures var r := states'[|events'|].sweep.value.releasing.value;
            r.c == beat.c && r.busids == states[|events|].sweep.value.snapshot[beat.c].busids
    ensures LooksSinceBeat(events', beat.c) == 0 && WrittenInSweep(events', beat.c) && !UnderWay(events', beat.c)
  {
    hide Judge, LastWritten, Run, LooksSinceBeat, WrittenInSweep, UnderWay, Bumped;
    states', events' := Extend(cfg, states, events, Visit(beat.c));
    assert AtStage(states'[|events'|], Removing);
    hide VerdictOn, Visited;
    EventsNext(events', beat, beat.c);
    states', events' := Extend(cfg, states', events', beat);
    EventsNext(events', ResetMissed(beat.c), beat.c);
    states', events' := Extend(cfg, states', events', ResetMissed(beat.c));
  }

  /** Whatever the threshold: whenever a client is found due, a heartbeat that is completed before the record is
      removed comes too late. Record and counter are thrown away again, and the device is taken although the client
      has been heard from since the last look at it. */
  lemma HeartbeatAfterVerdictIsMissed(cfg: Config, states: seq<State>, events: seq<Event>, beat: Event)
    returns (states': seq<State>, events': seq<Event>)
    requires Run(cfg, states, events) && beat.WriteRecord? && Enabled(states[|events|], Visit(beat.c))
    requires VerdictOn(cfg, states[|events|], beat.c) == Due
    requires states[|events|].sweep.value.snapshot[beat.c].busids != []
    ensures Run(cfg, states', events') && events <= events' && Unbinds(states'[|events'|], Release(true, {}))
    ensures states'[|events'|].sweep.value.releasing.value.c == beat.c && beat.c !in states'[|events'|].records
    ensures LooksSinceBeat(events', beat.c) == 0 && WrittenInSweep(events', beat.c) && !UnderWay(events', beat.c)
  {
    hide Judge, LastWritten, Run, LooksSinceBeat, WrittenInSweep, UnderWay, VerdictOn, Visited;
    states', events' := BeatAfterVerdict(cfg, states, events, beat);
    EventsNext(events', RemoveDue(true), beat.c);
    states', events' := Extend(cfg, states', events', RemoveDue(true));
    EventsNext(events', ForgetDue, beat.c);
    states', events' := Extend(cfg, states', events', ForgetDue);
  }

  /** A client whose heartbeat has been completed during the sweep, before it is looked at, can be found due
      exactly with a threshold of one or less, as the verdict rests on a single snapshot then. */
  lemma ThresholdOfOneTrustsTheSnapshot(cfg: Config)
    requires cfg.kickIdle > 0
    ensures cfg.threshold <= 1 <==>
            exists states: seq<State>, events ::
              && Run(cfg, states, events) && Enabled(states[|events|], Visit("c"))
              && VerdictOn(cfg, states[|events|], "c") == Due
              && WrittenInSweep(events, "c") && !UnderWay(events, "c")
  {
    if cfg.threshold <= 1 {
      var states, events := LateBeat(cfg, 0, true);
      assert Enabled(states[|events|], Visit("c")) && VerdictOn(cfg, states[|events|], "c") == Due;
    } else {
      forall states: seq<State>, events |
        && Run(cfg, states, events) && Enabled(states[|events|], Visit("c"))
        && VerdictOn(cfg, states[|events|], "c") == Due
        ensures WrittenInSweep(events, "c") ==> UnderWay(events, "c")
      {
        JudgedByAnOldRecordExactly(cfg, states, events, "c");
      }
    }
  }
}
