/** The gateway's cached view of the access table, and how old it can be when a connection is judged. */
module AccessGate {
  import opened AccessTable
  import opened Wrappers

  /** What stat tells apart, and the content. */
  datatype File = File(mtime: int, inode: int, size: int, content: Content)

  function ContentOf(file: Option<File>): Option<Content> {
    if file.None? then None else Some(file.value.content)
  }

  /** _parse: a file that cannot be read, or is gone by then, leaves no grants. */
  function Parsed(file: Option<File>): map<Address, Grant> {
    if file.Some? && file.value.content.Grants? then file.value.content.grants else map[]
  }

  /** What a connection's thread does next; asked: when its stat was. Deciding: it is going to see whether the
      gate is loaded; Looking: it was, and the answer is in the entries. */
  datatype Pc =
    | Idle
    | Reading(asked: real)
    | Storing(asked: real, read: map<Address, Grant>, from: nat)
    | Deciding(asked: real)
    | Looking(asked: real)

  /** The file, the clocks, the fields of AccessGate and the threads. entriesFrom is the step at which the
      entries were read, or -1 if nothing was read since they were cleared. */
  datatype State = State(
    file: Option<File>, now: real, wall: real, steps: nat,
    loaded: bool, mtime: int, inode: int, size: int, loadedAt: real,
    entries: map<Address, Grant>, entriesFrom: int, pcs: seq<Pc>)

  datatype Event =
    | Change(file: Option<File>)
    | Pass(now: real, wall: real)
    | Stat(t: nat)
    | Read(t: nat)
    | Store(t: nat)
    | Look(t: nat)
    | Answered(t: nat)

  predicate Enabled(s: State, e: Event) {
    match e
    case Change(_) => true
    case Pass(now, _) => s.now <= now
    case Stat(t) => t < |s.pcs| && s.pcs[t].Idle?
    case Read(t) => t < |s.pcs| && s.pcs[t].Reading?
    case Store(t) => t < |s.pcs| && s.pcs[t].Storing?
    case Look(t) => t < |s.pcs| && s.pcs[t].Deciding?
    case Answered(t) => t < |s.pcs| && s.pcs[t].Looking?
  }

  predicate Unchanged(s: State, f: File) {
    s.loaded && s.mtime == f.mtime && s.inode == f.inode && s.size == f.size && s.now - s.loadedAt < 1.0
  }

  /** The first half of _refresh, by a thread that was idle. */
  function Checked(s: State, t: nat): State
    requires Enabled(s, Stat(t))
  {
    if s.file.None? then
      if s.loaded then s.(loaded := false, entries := map[], entriesFrom := -1, pcs := s.pcs[t := Deciding(s.now)])
      else s.(pcs := s.pcs[t := Deciding(s.now)])
    else
      var f := s.file.value;
      if Unchanged(s, f) then s.(pcs := s.pcs[t := Deciding(s.now)])
      else s.(mtime := f.mtime, inode := f.inode, size := f.size, loadedAt := s.now, loaded := true,
              pcs := s.pcs[t := Reading(s.now)])
  }

  function Next(s: State, e: Event): State
    requires Enabled(s, e)
  {
    (match e
     case Change(file) => s.(file := file)
     case Pass(now, wall) => s.(now := now, wall := wall)
     case Stat(t) => Checked(s, t)
     case Read(t) => s.(pcs := s.pcs[t := Storing(s.pcs[t].asked, Parsed(s.file), s.steps)])
     case Store(t) =>
       s.(entries := s.pcs[t].read, entriesFrom := s.pcs[t].from, pcs := s.pcs[t := Deciding(s.pcs[t].asked)])
     case Look(t) => s.(pcs := s.pcs[t := if s.loaded then Looking(s.pcs[t].asked) else Idle])
     case Answered(t) => s.(pcs := s.pcs[t := Idle])).(steps := s.steps + 1)
  }

  /** A thread whose next step is an answer of allows. */
  predicate Answers(s: State, t: nat) {
    t < |s.pcs| && (s.pcs[t].Looking? || (s.pcs[t].Deciding? && !s.loaded))
  }

  predicate InForce(entries: map<Address, Grant>, address: Address, wall: real) {
    address in entries && entries[address].expiresAt as real > wall
  }

  predicate Answer(s: State, t: nat, address: Address)
    requires Answers(s, t)
  {
    s.pcs[t].Deciding? || InForce(s.entries, address, s.wall)
  }

  predicate Starts(s: State) {
    && s.steps == 0 && !s.loaded && s.entries == map[] && s.entriesFrom == -1
    && forall t | 0 <= t < |s.pcs| :: s.pcs[t].Idle?
  }

  ghost predicate Run(states: seq<State>, events: seq<Event>) {
    && |states| == |events| + 1 && Starts(states[0])
    && forall i | 0 <= i < |events| :: Enabled(states[i], events[i]) && states[i + 1] == Next(states[i], events[i])
  }

  /** The fields of AccessGate; its methods are steps of some thread t of any state s that shows them. */
  class Gate {
    var loaded: bool
    var mtime: int
    var inode: int
    var size: int
    var loadedAt: real
    var entries: map<Address, Grant>

    constructor ()
      ensures !loaded && entries == map[]
    {
      loaded, entries := false, map[];
      mtime, inode, size, loadedAt := 0, 0, 0, 0.0;
    }

    ghost predicate Shows(s: State)
      reads this
    {
      && s.loaded == loaded && s.entries == entries
      && (loaded ==> s.mtime == mtime && s.inode == inode && s.size == size && s.loadedAt == loadedAt)
    }

    /** The first half of _refresh; reload: the file has to be parsed. */
    method CheckFile(file: Option<File>, now: real) returns (reload: bool)
      modifies this
      ensures forall s, t: nat | old(Shows(s)) && t < |s.pcs| && s.pcs[t].Idle? && s.file == file && s.now == now ::
                && Shows(Checked(s, t))
                && Checked(s, t).pcs == s.pcs[t := if reload then Reading(now) else Deciding(now)]
      ensures file.None? ==> !reload && !loaded && (old(loaded) ==> entries == map[])
      ensures file.Some? ==>
                var f := file.value;
                && loaded && entries == old(entries) && mtime == f.mtime && inode == f.inode && size == f.size
                && (reload <==> !old(loaded) || old(mtime) != f.mtime || old(inode) != f.inode || old(size) != f.size ||
                                now - old(loadedAt) >= 1.0)
                && loadedAt == if reload then now else old(loadedAt)
    {
      if file.None? {
        if loaded {
          loaded, entries := false, map[];
        }
        return false;
      }
      var f := file.value;
      if loaded && mtime == f.mtime && inode == f.inode && size == f.size && now - loadedAt < 1.0 {
        return false;
      }
      mtime, inode, size, loadedAt, loaded := f.mtime, f.inode, f.size, now, true;
      return true;
    }

    /** allows, for a file that is stat'ed as seen and opened as read, in one go. */
    method JudgeAddress(seen: Option<File>, read: Option<File>, now: real, wall: real, address: Address)
      returns (yes: bool)
      modifies this
      ensures forall s | old(Shows(s)) && s.file == seen && s.now == now && 0 < |s.pcs| && s.pcs[0].Idle? ::
                var checked := Next(s, Stat(0));
                var loaded := if checked.pcs[0].Deciding? then checked
                              else Next(Next(checked.(file := read), Read(0)), Store(0));
                var looked := if loaded.loaded then Next(loaded, Look(0)) else loaded;
                Shows(looked) && yes == Answer(looked.(wall := wall), 0, address)
      ensures seen.None? ==> yes
      ensures seen.Some? ==>
                var f := seen.value;
                var held := if old(loaded) && old(mtime) == f.mtime && old(inode) == f.inode && old(size) == f.size &&
                               now - old(loadedAt) < 1.0
                            then old(entries) else Parsed(read);
                entries == held && (yes <==> InForce(held, address, wall))
      ensures seen.Some? && read == seen &&
              (!old(loaded) || old(mtime) != seen.value.mtime || old(inode) != seen.value.inode ||
               old(size) != seen.value.size || now - old(loadedAt) >= 1.0) ==>
                (yes <==> Allows(Some(seen.value.content), address, wall))
    {
      var reload := CheckFile(seen, now);
      if reload {
        entries := Parsed(read);
      }
      if !loaded {
        return true;
      }
      return InForce(entries, address, wall);
    }
  }

  // ----- every run -----

  predicate NobodyReads(s: State) {
    forall t | 0 <= t < |s.pcs| :: !s.pcs[t].Reading? && !s.pcs[t].Storing?
  }

  /** The file from which entries with that origin were read. */
  function Origin(states: seq<State>, from: int): Option<File> {
    if 0 <= from < |states| then states[from].file else None
  }

  /** These entries are what some step of the run, no earlier than a time, read. */
  ghost predicate ReadSince(states: seq<State>, entries: map<Address, Grant>, from: nat, since: real) {
    from < |states| && entries == Parsed(states[from].file) && states[from].now >= since
  }

  ghost predicate GoneSince(states: seq<State>, since: real) {
    exists i | 0 <= i < |states| :: states[i].file.None? && states[i].now >= since
  }

  ghost predicate ThreadInv(states: seq<State>, s: State, t: nat)
    requires t < |s.pcs|
  {
    match s.pcs[t]
    case Idle => true
    case Storing(asked, read, from) =>
      asked <= s.now && (!s.loaded ==> GoneSince(states, asked)) && ReadSince(states, read, from, asked)
    case Looking(asked) => asked <= s.now
    case _ => s.pcs[t].asked <= s.now && (!s.loaded ==> GoneSince(states, s.pcs[t].asked))
  }

  /** What holds in every run, however the refreshes of the threads overlap. */
  ghost predicate Inv(states: seq<State>, s: State) {
    && s.steps + 1 == |states| && s == states[s.steps]
    && s.entriesFrom < |states| && s.entries == Parsed(Origin(states, s.entriesFrom))
    && forall t | 0 <= t < |s.pcs| :: ThreadInv(states, s, t)
  }

  lemma ReadSinceStays(states: seq<State>, n: State, entries: map<Address, Grant>, from: nat, since: real)
    requires ReadSince(states, entries, from, since)
    ensures ReadSince(states + [n], entries, from, since)
  {
    assert (states + [n])[from] == states[from];
  }

  lemma GoneSinceStays(states: seq<State>, n: State, since: real)
    requires GoneSince(states, since)
    ensures GoneSince(states + [n], since)
  {
    var i :| 0 <= i < |states| && states[i].file.None? && states[i].now >= since;
    assert (states + [n])[i] == states[i];
  }

  lemma StepCounts(s: State, e: Event)
    requires Enabled(s, e)
    ensures Next(s, e).steps == s.steps + 1 && |Next(s, e).pcs| == |s.pcs| && s.now <= Next(s, e).now
  {
  }

  lemma ThreadKeepsInv(states: seq<State>, s: State, e: Event, t: nat)
    requires Inv(states, s) && Enabled(s, e) && t < |s.pcs|
    ensures ThreadInv(states + [Next(s, e)], Next(s, e), t)
  {
    var n := Next(s, e);
    var more := states + [n];
    assert ThreadInv(states, s, t);
    assert more[s.steps] == s;
    if !n.pcs[t].Idle? && !n.pcs[t].Looking? && !n.loaded {
      if s.loaded || s.pcs[t].Idle? {
        assert GoneSince(more, n.pcs[t].asked) by {
          assert n.file.None? && more[s.steps + 1] == n;
        }
      } else {
        GoneSinceStays(states, n, s.pcs[t].asked);
      }
    }
    if s.pcs[t].Storing? {
      ReadSinceStays(states, n, s.pcs[t].read, s.pcs[t].from, s.pcs[t].asked);
    }
    if e == Read(t) {
      assert ReadSince(more, Parsed(s.file), s.steps, s.pcs[t].asked);
    }
  }

  lemma EntriesKeepInv(states: seq<State>, s: State, e: Event)
    requires Inv(states, s) && Enabled(s, e)
    ensures var n := Next(s, e);
            n.entriesFrom <= |states| && n.entries == Parsed(Origin(states + [n], n.entriesFrom))
  {
    var more := states + [Next(s, e)];
    if e.Store? {
      assert ThreadInv(states, s, e.t);
      assert more[s.pcs[e.t].from] == states[s.pcs[e.t].from];
    } else {
      assert Origin(more, s.entriesFrom) == Origin(states, s.entriesFrom);
    }
  }

  lemma {:induction false} RunKeepsInv(states: seq<State>, events: seq<Event>)
    requires Run(states, events)
    ensures Inv(states, states[|events|])
  {
    hide Next, ThreadInv;
    var k := |events|;
    if k == 0 {
      assert Inv(states, states[0]) by { StartKeepsInv(states); }
    } else {
      RunKeepsInv(states[..k], events[..k - 1]);
      var s, e := states[k - 1], events[k - 1];
      assert states == states[..k] + [Next(s, e)];
      StepCounts(s, e);
      EntriesKeepInv(states[..k], s, e);
      forall t | 0 <= t < |s.pcs| ensures ThreadInv(states, states[k], t) {
        ThreadKeepsInv(states[..k], s, e, t);
      }
    }
  }

  lemma StartKeepsInv(states: seq<State>)
    requires |states| == 1 && Starts(states[0])
    ensures Inv(states, states[0]) && Settled(states, states[0])
  {
  }

  // ----- no question during a refresh -----

  /** A connection may be judged while others are about to answer, but not while one of them reloads. */
  ghost predicate NoStatDuringRefresh(states: seq<State>, events: seq<Event>) {
    forall i | 0 <= i < |events| && i < |states| && events[i].Stat? :: NobodyReads(states[i])
  }

  /** A step that answers a question in time: the one the entries were read at, or one without a file if they
      were read at none. */
  ghost predicate Fits(states: seq<State>, s: State, i: int, asked: real) {
    && 0 <= i < |states| && states[i].now > asked - 1.0
    && if s.entriesFrom >= 0 then i == s.entriesFrom else states[i].file.None?
  }

  ghost predicate Settles(states: seq<State>, s: State, t: nat)
    requires t < |s.pcs|
  {
    match s.pcs[t]
    case Idle => true
    case Reading(asked) => s.loaded && s.loadedAt == asked && OnlyReader(s, t)
    case Storing(asked, _, _) => s.loaded && s.loadedAt == asked && OnlyReader(s, t)
    case _ =>
      var asked := s.pcs[t].asked;
      && (!NobodyReads(s) ==> asked <= s.loadedAt)
      && exists i :: Fits(states, s, i, asked)
  }

  predicate OnlyReader(s: State, t: nat) {
    forall u | 0 <= u < |s.pcs| && u != t :: !s.pcs[u].Reading? && !s.pcs[u].Storing?
  }

  ghost predicate Settled(states: seq<State>, s: State) {
    && (s.loaded ==> s.loadedAt <= s.now)
    && (!s.loaded ==> s.entriesFrom == -1)
    && (s.loaded && NobodyReads(s) ==> 0 <= s.entriesFrom < |states| && states[s.entriesFrom].now >= s.loadedAt)
    && forall t | 0 <= t < |s.pcs| :: Settles(states, s, t)
  }

  lemma FitsFrom(states: seq<State>, n: State, i: int, asked: real)
    requires Fits(states, n, i, asked)
    ensures Fits(states + [n], n, i, asked)
  {
    assert (states + [n])[i] == states[i];
  }

  lemma FitsGone(states: seq<State>, n: State, asked: real)
    requires n.file.None? && n.entriesFrom == -1 && n.now >= asked
    ensures Fits(states + [n], n, |states|, asked)
  {
    assert (states + [n])[|states|] == n;
  }

  lemma StatSettles(states: seq<State>, s: State, t: nat)
    requires Inv(states, s) && Settled(states, s) && Enabled(s, Stat(t)) && NobodyReads(s)
    ensures var n := Next(s, Stat(t)); Settles(states + [n], n, t)
    ensures !Next(s, Stat(t)).pcs[t].Reading? ==> NobodyReads(Next(s, Stat(t)))
  {
    hide Fits;
    var n := Next(s, Stat(t));
    if n.pcs[t].Deciding? {
      assert NobodyReads(n);
      if s.file.None? {
        FitsGone(states, n, s.now);
      } else {
        assert Fits(states, n, s.entriesFrom, s.now) by { EntriesFit(states, s, n); }
        FitsFrom(states, n, s.entriesFrom, s.now);
      }
    }
  }

  /** The entries of a gate that finds the file unchanged. */
  lemma EntriesFit(states: seq<State>, s: State, n: State)
    requires 0 <= s.entriesFrom < |states| && states[s.entriesFrom].now >= s.loadedAt
    requires n.entriesFrom == s.entriesFrom && s.now - s.loadedAt < 1.0
    ensures Fits(states, n, s.entriesFrom, s.now)
  {
  }

  lemma StoreSettles(states: seq<State>, s: State, u: nat, asked: real)
    requires Inv(states, s) && Settled(states, s) && Enabled(s, Store(u)) && asked <= s.loadedAt
    ensures var n := Next(s, Store(u));
            n.loaded && NobodyReads(n) && Fits(states + [n], n, s.pcs[u].from, asked)
  {
    assert ThreadInv(states, s, u) && Settles(states, s, u);
    FitsFrom(states, Next(s, Store(u)), s.pcs[u].from, asked);
  }

  predicate ToAnswer(pc: Pc) { pc.Deciding? || pc.Looking? }

  lemma OtherSettles(states: seq<State>, s: State, e: Event, t: nat)
    requires Inv(states, s) && Settled(states, s) && Enabled(s, e) && (e.Stat? ==> NobodyReads(s))
    requires !e.Store? && t < |s.pcs| && ToAnswer(s.pcs[t]) && ToAnswer(Next(s, e).pcs[t])
    requires Next(s, e).pcs[t].asked == s.pcs[t].asked && e != Stat(t)
    ensures Settles(states + [Next(s, e)], Next(s, e), t)
  {
    hide Fits, Unchanged;
    var n, asked := Next(s, e), s.pcs[t].asked;
    assert ThreadInv(states, s, t) && Settles(states, s, t);
    var i :| Fits(states, s, i, asked);
    if e.Stat? && s.file.None? {
      GoneSettles(states, s, n, i, asked);
    } else {
      SameEntriesFit(states, s, n, i, asked);
      FitsFrom(states, n, i, asked);
    }
    if !e.Stat? && !NobodyReads(n) {
      assert !NobodyReads(s);
    }
  }

  lemma SameEntriesFit(states: seq<State>, s: State, n: State, i: int, asked: real)
    requires Fits(states, s, i, asked) && n.entriesFrom == s.entriesFrom
    ensures Fits(states, n, i, asked)
  {
  }

  lemma GoneSettles(states: seq<State>, s: State, n: State, i: int, asked: real)
    requires Fits(states, s, i, asked) && n.file.None? && n.entriesFrom == -1 && n.now >= asked
    ensures Fits(states + [n], n, |states|, asked)
  {
    FitsGone(states, n, asked);
  }

  lemma ThreadSettles(states: seq<State>, s: State, e: Event, t: nat)
    requires Inv(states, s) && Settled(states, s) && Enabled(s, e) && (e.Stat? ==> NobodyReads(s)) && t < |s.pcs|
    ensures Settles(states + [Next(s, e)], Next(s, e), t)
  {
    hide Fits, Unchanged;
    assert ThreadInv(states, s, t) && Settles(states, s, t);
    var n := Next(s, e);
    if e == Stat(t) {
      StatSettles(states, s, t);
    } else if e.Store? && ToAnswer(n.pcs[t]) {
      assert ThreadInv(states, s, e.t) && Settles(states, s, e.t);
      StoreSettles(states, s, e.t, n.pcs[t].asked);
    } else if ToAnswer(s.pcs[t]) && ToAnswer(n.pcs[t]) {
      OtherSettles(states, s, e, t);
    }
  }

  lemma EntriesSettle(states: seq<State>, s: State, e: Event)
    requires Inv(states, s) && Settled(states, s) && Enabled(s, e) && (e.Stat? ==> NobodyReads(s))
    ensures var n := Next(s, e);
            && (n.loaded ==> n.loadedAt <= n.now) && (!n.loaded ==> n.entriesFrom == -1)
            && (n.loaded && NobodyReads(n) ==>
                  0 <= n.entriesFrom < |states| && (states + [n])[n.entriesFrom].now >= n.loadedAt)
  {
    var n := Next(s, e);
    if e.Store? || e.Read? {
      assert ThreadInv(states, s, e.t) && Settles(states, s, e.t);
      assert e.Read? ==> n.pcs[e.t].Storing?;
    } else if n.loaded && NobodyReads(n) {
      assert e.Stat? ==> !n.pcs[e.t].Reading?;
      assert forall t | 0 <= t < |s.pcs| && (s.pcs[t].Reading? || s.pcs[t].Storing?) :: n.pcs[t] == s.pcs[t];
      assert NobodyReads(s);
    }
  }

  lemma {:induction false} RunSettles(states: seq<State>, events: seq<Event>)
    requires Run(states, events) && NoStatDuringRefresh(states, events)
    ensures Settled(states, states[|events|])
  {
    hide Next, Settles, NobodyReads, Inv;
    var k := |events|;
    if k == 0 {
      StartKeepsInv(states);
    } else {
      RunSettles(states[..k], events[..k - 1]);
      RunKeepsInv(states[..k], events[..k - 1]);
      var s, e := states[k - 1], events[k - 1];
      assert states == states[..k] + [Next(s, e)];
      StepCounts(s, e);
      EntriesSettle(states[..k], s, e);
      forall t | 0 <= t < |s.pcs| ensures Settles(states, states[k], t) {
        ThreadSettles(states[..k], s, e, t);
      }
    }
  }

  // ----- recent answers -----

  /** The answer is the one the file of some step gives. */
  predicate JudgedBy(s: State, t: nat, file: Option<File>, address: Address)
    requires Answers(s, t)
  {
    Answer(s, t, address) <==> Allows(ContentOf(file), address, s.wall)
  }

  /** A thread about to answer answers by the table as it stood less than a second before its stat, or later. */
  ghost predicate Recent(states: seq<State>, t: nat, address: Address)
    requires |states| > 0 && Answers(states[|states| - 1], t)
  {
    var s := states[|states| - 1];
    exists i | 0 <= i < |states| :: states[i].now > s.pcs[t].asked - 1.0 && JudgedBy(s, t, states[i].file, address)
  }

  /** At some step less than a second before a time, or later, the file lets the address in, or does not. */
  ghost predicate SaidSince(states: seq<State>, since: real, address: Address, wall: real, yes: bool) {
    exists i | 0 <= i < |states| ::
      states[i].now > since - 1.0 && Allows(ContentOf(states[i].file), address, wall) == yes
  }

  /** What entries of that origin say about an address: nobody is let in by entries that were read off no file. */
  predicate Says(states: seq<State>, from: int, address: Address, wall: real) {
    Origin(states, from).Some? && Allows(ContentOf(Origin(states, from)), address, wall)
  }

  /** Any answer in any run: a thread that finds the gate not loaded is right, and one that answers by the entries
      exactly if some table of the last second says the same as the one they were read from. */
  lemma RecentExactly(states: seq<State>, events: seq<Event>, t: nat, address: Address)
    requires Run(states, events) && Answers(states[|events|], t)
    ensures var s := states[|events|];
            Recent(states, t, address) <==>
            || s.pcs[t].Deciding?
            || SaidSince(states, s.pcs[t].asked, address, s.wall, Says(states, s.entriesFrom, address, s.wall))
  {
    RunKeepsInv(states, events);
    var s := states[|events|];
    if s.pcs[t].Deciding? {
      assert ThreadInv(states, s, t);
      var i :| 0 <= i < |states| && states[i].file.None? && states[i].now >= s.pcs[t].asked;
      assert JudgedBy(s, t, states[i].file, address);
    } else {
      assert InForce(s.entries, address, s.wall) <==> Says(states, s.entriesFrom, address, s.wall);
    }
  }

  /** Connections that ask outside of each other's refreshes: an answer is stale exactly if there was no file
      behind the entries, be it that the open found none or that the gate was switched while the thread was about
      to answer, and all tables of the last second let the address in. */
  lemma RecentOutsideRefreshes(states: seq<State>, events: seq<Event>, t: nat, address: Address)
    requires Run(states, events) && NoStatDuringRefresh(states, events) && Answers(states[|events|], t)
    ensures var s := states[|events|];
            Recent(states, t, address) <==>
            || s.pcs[t].Deciding? || Origin(states, s.entriesFrom).Some?
            || SaidSince(states, s.pcs[t].asked, address, s.wall, false)
  {
    hide Inv, Settles;
    RunSettles(states, events);
    RecentExactly(states, events, t, address);
    var s := states[|events|];
    assert exists i :: Fits(states, s, i, s.pcs[t].asked) by {
      assert Settles(states, s, t);
      AnswererFits(states, s, t);
    }
    if Origin(states, s.entriesFrom).Some? {
      assert Fits(states, s, s.entriesFrom, s.pcs[t].asked);
    }
  }

  lemma AnswererFits(states: seq<State>, s: State, t: nat)
    requires Answers(s, t) && Settles(states, s, t)
    ensures exists i :: Fits(states, s, i, s.pcs[t].asked)
  {
  }

  /** Every refresh that begins finds the file when it opens it. */
  ghost predicate OpensFindTheFile(states: seq<State>, events: seq<Event>) {
    forall i | 0 <= i < |events| && i < |states| && events[i].Read? :: states[i].file.Some?
  }

  /** The gate is not switched on while somebody is going to see whether it is, nor off while somebody who has
      seen that it is on is going to look at the entries. */
  predicate Quiet(s: State, e: Event) {
    e.Stat? ==>
      && (!s.loaded && s.file.Some? ==> forall t | 0 <= t < |s.pcs| :: !s.pcs[t].Deciding?)
      && (s.loaded && s.file.None? ==> forall t | 0 <= t < |s.pcs| :: !s.pcs[t].Looking?)
  }

  ghost predicate SwitchedQuietly(states: seq<State>, events: seq<Event>) {
    forall i | 0 <= i < |events| && i < |states| :: Quiet(states[i], events[i])
  }

  /** There is a file behind the entries of every thread that answers by them. */
  ghost predicate Backed(states: seq<State>, s: State) {
    && (0 <= s.entriesFrom < |states| ==> states[s.entriesFrom].file.Some?)
    && forall t | 0 <= t < |s.pcs| :: ThreadBacked(states, s, t)
  }

  ghost predicate ThreadBacked(states: seq<State>, s: State, t: nat)
    requires t < |s.pcs|
  {
    && (s.pcs[t].Storing? ==> s.pcs[t].from < |states| && states[s.pcs[t].from].file.Some?)
    && (s.pcs[t].Looking? ==> s.loaded)
    && (ToAnswer(s.pcs[t]) && !NobodyReads(s) ==> s.entriesFrom >= 0)
  }

  lemma ThreadStaysBacked(states: seq<State>, s: State, e: Event, t: nat)
    requires Inv(states, s) && Settled(states, s) && Backed(states, s) && Enabled(s, e) && t < |s.pcs|
    requires (e.Stat? ==> NobodyReads(s)) && Quiet(s, e) && (e.Read? ==> s.file.Some?)
    ensures ThreadBacked(states + [Next(s, e)], Next(s, e), t)
  {
    hide Unchanged, Fits;
    var n := Next(s, e);
    var more := states + [n];
    assert ThreadBacked(states, s, t) && more[s.steps] == s;
    if s.pcs[t].Storing? {
      assert more[s.pcs[t].from] == states[s.pcs[t].from];
    }
    if e.Store? {
      assert ThreadInv(states, s, e.t) && Settles(states, s, e.t);
    }
    if !e.Stat? && !e.Store? && !NobodyReads(n) {
      assert !NobodyReads(s);
    }
  }

  lemma EntriesStayBacked(states: seq<State>, s: State, e: Event)
    requires Inv(states, s) && Backed(states, s) && Enabled(s, e)
    ensures var n := Next(s, e);
            0 <= n.entriesFrom < |states| + 1 ==> (states + [n])[n.entriesFrom].file.Some?
  {
    hide Unchanged;
    if e.Store? {
      assert ThreadBacked(states, s, e.t) && ThreadInv(states, s, e.t);
    }
  }

  lemma StartIsBacked(states: seq<State>)
    requires |states| == 1 && Starts(states[0])
    ensures Backed(states, states[0])
  {
  }

  lemma {:induction false} RunIsBacked(states: seq<State>, events: seq<Event>)
    requires Run(states, events) && NoStatDuringRefresh(states, events)
    requires OpensFindTheFile(states, events) && SwitchedQuietly(states, events)
    ensures Backed(states, states[|events|])
  {
    hide Next, ThreadBacked, NobodyReads, Inv, Settled, Quiet;
    var k := |events|;
    if k == 0 {
      StartIsBacked(states);
    } else {
      RunIsBacked(states[..k], events[..k - 1]);
      RunKeepsInv(states[..k], events[..k - 1]);
      RunSettles(states[..k], events[..k - 1]);
      var s, e := states[k - 1], events[k - 1];
      assert states == states[..k] + [Next(s, e)];
      StepCounts(s, e);
      EntriesStayBacked(states[..k], s, e);
      forall t | 0 <= t < |s.pcs| ensures ThreadBacked(states, states[k], t) {
        ThreadStaysBacked(states[..k], s, e, t);
      }
    }
  }

  /** Any number of overlapping connections is judged by the table as it stood less than a second before the
      question or later, through every history of replacements, equal time stamps included, as long as no
      question falls into the refresh of another, no refresh loses its file between stat and open, and the gate
      is not switched under somebody about to answer. */
  lemma JudgedByARecentTable(states: seq<State>, events: seq<Event>, t: nat, address: Address)
    requires Run(states, events) && NoStatDuringRefresh(states, events)
    requires OpensFindTheFile(states, events) && SwitchedQuietly(states, events)
    requires Answers(states[|events|], t)
    ensures Recent(states, t, address)
  {
    hide Inv, Settles;
    RunIsBacked(states, events);
    RunSettles(states, events);
    RunKeepsInv(states, events);
    RecentOutsideRefreshes(states, events, t, address);
    var s := states[|events|];
    assert ThreadBacked(states, s, t);
    if s.pcs[t].Looking? {
      OriginIsThere(states, s);
    }
  }

  lemma OriginIsThere(states: seq<State>, s: State)
    requires Inv(states, s) && Backed(states, s) && s.entriesFrom >= 0
    ensures Origin(states, s.entriesFrom).Some?
  {
  }

  // ----- entries that are older than the question -----

  lemma StepFacts(s: State, e: Event)
    requires Enabled(s, e)
    ensures var n := Next(s, e);
            |n.pcs| == |s.pcs| && (e.Store? ==> e.t < |s.pcs| && s.pcs[e.t].Storing?)
    ensures var n := Next(s, e);
            forall u | 0 <= u < |n.pcs| && u < |s.pcs| && n.pcs[u].Storing? ::
              n.pcs[u] == s.pcs[u] || (e == Read(u) && n.pcs[u].from == s.steps)
    ensures var n := Next(s, e);
            n.entriesFrom == if e.Store? then s.pcs[e.t].from
                             else if e.Stat? && s.file.None? && s.loaded then -1 else s.entriesFrom
    ensures var n := Next(s, e);
            forall u | 0 <= u < |n.pcs| && u < |s.pcs| && (s.pcs[u].Reading? || s.pcs[u].Storing?) && e != Store(u) ::
              n.pcs[u].Reading? || n.pcs[u].Storing?
    ensures var n := Next(s, e);
            (e.Stat? && e.t < |n.pcs| && n.pcs[e.t].Reading?) ||
            (n.mtime == s.mtime && n.inode == s.inode && n.size == s.size && n.loadedAt == s.loadedAt &&
             (n.loaded ==> s.loaded))
  {
    hide Unchanged;
  }

  lemma StepNumber(states: seq<State>, events: seq<Event>, i: nat)
    requires Run(states, events) && i <= |events|
    ensures |states| == |events| + 1 && states[i].steps == i
  {
    RunKeepsInv(states[..i + 1], events[..i]);
  }

  /** The stat whose fields the gate has noted; what is stored after it has been read after it. */
  lemma {:induction false} Noted(states: seq<State>, events: seq<Event>, i: nat) returns (l: nat)
    requires Run(states, events) && NoStatDuringRefresh(states, events) && i <= |events| && states[i].loaded
    ensures l < i && events[l].Stat? && states[l].file.Some? && states[i].loadedAt == states[l].now
    ensures var s, f := states[i], states[l].file.value; s.mtime == f.mtime && s.inode == f.inode && s.size == f.size
    ensures NobodyReads(states[i]) ==> l < states[i].entriesFrom
    ensures forall u | 0 <= u < |states[i].pcs| && states[i].pcs[u].Storing? :: l < states[i].pcs[u].from
  {
    assert i > 0;
    var s, e, n := states[i - 1], events[i - 1], states[i];
    assert Enabled(s, e) && n == Next(s, e);
    StepFacts(s, e);
    StepNumber(states, events, i - 1);
    if e.Stat? && n.pcs[e.t].Reading? {
      assert NobodyReads(s) && s.file.Some?;
      return i - 1;
    }
    hide Next, Enabled;
    l := Noted(states, events, i - 1);
    if !e.Store? && NobodyReads(n) {
      assert NobodyReads(s);
      assert n.entriesFrom == s.entriesFrom by { LoadedStays(s, e); }
    }
  }

  lemma LoadedStays(s: State, e: Event)
    requires Enabled(s, e) && !e.Store? && Next(s, e).loaded && !(e.Stat? && Next(s, e).pcs[e.t].Reading?)
    ensures Next(s, e).entriesFrom == s.entriesFrom
  {
  }

  /** After a question, entries are the ones from before it, none, or ones that were read since; asked is the
      state after the question. */
  predicate Since(asked: State, s: State, q: nat, t: nat) {
    && t < |s.pcs| == |asked.pcs|
    && (forall u | 0 <= u < |s.pcs| && s.pcs[u].Storing? :: q < s.pcs[u].from)
    && (|| s.entriesFrom == -1 || s.entriesFrom > q
        || (s.entriesFrom == asked.entriesFrom &&
            (asked.pcs[t].Reading? ==> s.pcs[t].Reading? || s.pcs[t].Storing?)))
  }

  lemma SinceStarts(s: State, q: nat, t: nat)
    requires Enabled(s, Stat(t)) && NobodyReads(s)
    ensures Since(Next(s, Stat(t)), Next(s, Stat(t)), q, t)
  {
  }

  lemma SinceStays(asked: State, s: State, e: Event, q: nat, t: nat)
    requires Enabled(s, e) && Since(asked, s, q, t) && e != Stat(t) && q < s.steps
    ensures Since(asked, Next(s, e), q, t)
  {
    StepFacts(s, e);
    hide Next, Enabled;
  }

  lemma {:induction false} SinceQuestion(states: seq<State>, events: seq<Event>, q: nat, j: nat, t: nat)
    requires Run(states, events) && NoStatDuringRefresh(states, events) && q < j <= |events| && events[q] == Stat(t)
    requires forall k | q < k < j :: events[k] != Stat(t)
    ensures Since(states[q + 1], states[j], q, t)
  {
    hide Since, NobodyReads, Next, Enabled;
    if q + 1 == j {
      SinceStarts(states[q], q, t);
    } else {
      SinceQuestion(states, events, q, j - 1, t);
      StepNumber(states, events, j - 1);
      SinceStays(states[q + 1], states[j - 1], events[j - 1], q, t);
    }
  }

  /** Outside of refreshes: a thread that answers by entries that were read before its question has found the file
      with the modification time, inode and size that it had at the stat before that reading, less than a second
      earlier. A replacement that shows in any of them takes effect at the next question. */
  lemma OldEntriesNeedAnUnchangedFile(states: seq<State>, events: seq<Event>, q: nat, t: nat) returns (l: nat)
    requires Run(states, events) && NoStatDuringRefresh(states, events)
    requires q < |events| && events[q] == Stat(t) && forall k | q < k < |events| :: events[k] != Stat(t)
    requires t < |states[|events|].pcs| && states[|events|].pcs[t].Looking? && 0 <= states[|events|].entriesFrom <= q
    ensures l < states[|events|].entriesFrom && events[l].Stat? && states[l].file.Some? && states[q].file.Some?
    ensures var f, g := states[q].file.value, states[l].file.value;
            f.mtime == g.mtime && f.inode == g.inode && f.size == g.size && states[q].now - states[l].now < 1.0
  {
    hide Settles, Inv;
    SinceQuestion(states, events, q, |events|, t);
    RunSettles(states[..q + 1], events[..q]);
    assert states[q + 1] == Next(states[q], events[q]);
    assert states[q + 1].pcs[t].Deciding?;
    l := Noted(states, events, q);
  }

  // ----- answers given at once -----

  lemma RunGrows(states: seq<State>, events: seq<Event>, e: Event)
    requires Run(states, events) && Enabled(states[|events|], e)
    ensures Run(states + [Next(states[|events|], e)], events + [e])
  {
    hide Next, Enabled;
    var more, all := states + [Next(states[|events|], e)], events + [e];
    forall i | 0 <= i < |all| ensures Enabled(more[i], all[i]) && more[i + 1] == Next(more[i], all[i]) {
      if i < |events| {
        assert Enabled(states[i], events[i]) && states[i + 1] == Next(states[i], events[i]);
      }
    }
  }

  /** The run after a thread that is about to answer has seen whether the gate is loaded. */
  function Looked(states: seq<State>, t: nat): seq<State>
    requires |states| > 0 && Enabled(states[|states| - 1], Look(t))
  {
    var s := states[|states| - 1];
    if s.loaded then states + [Next(s, Look(t))] else states
  }

  /** A step that leaves file and clocks alone says nothing new. */
  lemma OneMoreSays(states: seq<State>, n: State, since: real, address: Address, wall: real, yes: bool)
    requires |states| > 0
    requires var s := states[|states| - 1]; n.file == s.file && n.now == s.now
    ensures SaidSince(states + [n], since, address, wall, yes) <==> SaidSince(states, since, address, wall, yes)
  {
    var more := states + [n];
    assert forall i | 0 <= i < |states| :: more[i] == states[i];
    if SaidSince(more, since, address, wall, yes) {
      var i :| 0 <= i < |more| && more[i].now > since - 1.0
               && Allows(ContentOf(more[i].file), address, wall) == yes;
      var k := if i < |states| then i else |states| - 1;
      assert states[k].now > since - 1.0 && Allows(ContentOf(states[k].file), address, wall) == yes;
    }
    if SaidSince(states, since, address, wall, yes) {
      var i :| 0 <= i < |states| && states[i].now > since - 1.0
               && Allows(ContentOf(states[i].file), address, wall) == yes;
      assert more[i].now > since - 1.0 && Allows(ContentOf(more[i].file), address, wall) == yes;
    }
  }

  lemma OneMoreOrigin(states: seq<State>, n: State, from: int, address: Address, wall: real)
    requires from < |states|
    ensures Says(states + [n], from, address, wall) == Says(states, from, address, wall)
  {
  }

  /** A thread that has seen the gate loaded and answers at once. */
  lemma AnsweredAtOnce(states: seq<State>, events: seq<Event>, t: nat, address: Address)
    requires Run(states, events) && Enabled(states[|events|], Look(t))
    ensures var s, after := states[|events|], Looked(states, t);
            && Answers(after[|after| - 1], t)
            && (Recent(after, t, address) <==>
                || !s.loaded
                || SaidSince(states, s.pcs[t].asked, address, s.wall, Says(states, s.entriesFrom, address, s.wall)))
  {
    hide Run, SaidSince, Says, Recent;
    RunLength(states, events);
    var s := states[|events|];
    if s.loaded {
      RunGrows(states, events, Look(t));
      RunKeepsInv(states, events);
      var n := Next(s, Look(t));
      RecentExactly(states + [n], events + [Look(t)], t, address);
      OneMoreOrigin(states, n, s.entriesFrom, address, s.wall);
      OneMoreSays(states, n, s.pcs[t].asked, address, s.wall, Says(states, s.entriesFrom, address, s.wall));
    } else {
      RecentExactly(states, events, t, address);
    }
  }

  lemma RunLength(states: seq<State>, events: seq<Event>)
    requires Run(states, events)
    ensures |states| == |events| + 1
  {
  }

  /** A question during a refresh that is answered at once: if the file is gone the answer is right; if the stat
      fields are as noted, it is stale exactly if no table of the last second says what the table before the
      refresh says. */
  lemma QuestionDuringRefresh(states: seq<State>, events: seq<Event>, u: nat, address: Address)
    requires Run(states, events) && Enabled(states[|events|], Stat(u)) && !NobodyReads(states[|events|])
    requires Next(states[|events|], Stat(u)).pcs[u].Deciding?
    ensures var s := states[|events|];
            var after := Looked(states + [Next(s, Stat(u))], u);
            && Answers(after[|after| - 1], u)
            && (Recent(after, u, address) <==>
                || s.file.None?
                || SaidSince(states, s.now, address, s.wall, Says(states, s.entriesFrom, address, s.wall)))
  {
    hide Run, SaidSince, Says, Recent, Looked;
    RunLength(states, events);
    RunGrows(states, events, Stat(u));
    RunKeepsInv(states, events);
    var s := states[|events|];
    var n := Next(s, Stat(u));
    assert (states + [n])[|events| + 1] == n;
    AnsweredAtOnce(states + [n], events + [Stat(u)], u, address);
    if s.file.Some? {
      OneMoreOrigin(states, n, s.entriesFrom, address, s.wall);
      OneMoreSays(states, n, s.now, address, s.wall, Says(states, s.entriesFrom, address, s.wall));
    }
  }

  /** A thread that reloaded the table itself and answers at once, whatever the others do: it is wrong exactly if
      its open found no file although others have not found it gone, and all tables of the last second let the
      address in. */
  lemma OwnRefreshIsRecent(states: seq<State>, events: seq<Event>, t: nat, address: Address)
    requires Run(states, events) && Enabled(states[|events|], Store(t))
    ensures var s := states[|events|];
            var after := Looked(states + [Next(s, Store(t))], t);
            && Answers(after[|after| - 1], t)
            && (Recent(after, t, address) <==>
                || !s.loaded || Origin(states, s.pcs[t].from).Some?
                || SaidSince(states, s.pcs[t].asked, address, s.wall, false))
  {
    hide Run, Recent, Looked;
    RunLength(states, events);
    RunGrows(states, events, Store(t));
    RunKeepsInv(states, events);
    var s := states[|events|];
    var n, from := Next(s, Store(t)), s.pcs[t].from;
    assert ThreadInv(states, s, t) && (states + [n])[|events| + 1] == n;
    AnsweredAtOnce(states + [n], events + [Store(t)], t, address);
    OneMoreOrigin(states, n, from, address, s.wall);
    OneMoreSays(states, n, s.pcs[t].asked, address, s.wall, Says(states, from, address, s.wall));
    OneMoreSays(states, n, s.pcs[t].asked, address, s.wall, false);
    if Origin(states, from).Some? {
      assert Allows(ContentOf(states[from].file), address, s.wall) == Says(states, from, address, s.wall);
    }
  }

  // ----- five runs -----

  function Granting(): map<Address, Grant> { map["a" := Grant("", "", 0, 100)] }

  function Granted(): Option<File> { Some(File(1, 1, 1, Grants(Granting()))) }

  function Emptied(): Option<File> { Some(File(2, 2, 2, Grants(map[]))) }

  /** Two threads and a gate that has not been asked. */
  function TwoThreads(file: Option<File>): State {
    State(file, 0.0, 0.0, 0, false, 0, 0, 0, 0.0, map[], -1, [Idle, Idle])
  }

  lemma Grown(states: seq<State>, events: seq<Event>, e: Event, n: State)
    returns (more: seq<State>, all: seq<Event>)
    requires Run(states, events) && Enabled(states[|events|], e) && n == Next(states[|events|], e)
    ensures Run(more, all) && more == states + [n] && all == events + [e]
  {
    hide Next, Enabled;
    RunGrows(states, events, e);
    more, all := states + [n], events + [e];
  }

  const LOADING: seq<Event> := [Stat(0), Read(0), Store(0), Look(0)]

  /** A gate whose entries were read at step 1. */
  function Loaded(n: nat, pc: Pc): State {
    State(Granted(), 0.0, 0.0, n, true, 1, 1, 1, 0.0, Granting(), 1, [pc, Idle])
  }

  /** A gate whose first refresh has begun. */
  function Begun(n: nat, pc: Pc): State {
    State(Granted(), 0.0, 0.0, n, true, 1, 1, 1, 0.0, map[], -1, [pc, Idle])
  }

  function LoadingStates(): seq<State> {
    [TwoThreads(Granted()), Begun(1, Reading(0.0)), Begun(2, Storing(0.0, Granting(), 1)), Loaded(3, Deciding(0.0)),
     Loaded(4, Looking(0.0))]
  }

  lemma LoadingRun()
    ensures Run(LoadingStates(), LOADING)
  {
    var states, events := [TwoThreads(Granted())], [];
    assert Run(states, events);
    hide Run;
    states, events := Grown(states, events, Stat(0), Begun(1, Reading(0.0)));
    states, events := Grown(states, events, Read(0), Begun(2, Storing(0.0, Granting(), 1)));
    states, events := Grown(states, events, Store(0), Loaded(3, Deciding(0.0)));
    states, events := Grown(states, events, Look(0), Loaded(4, Looking(0.0)));
    assert states == LoadingStates() && events == LOADING;
  }

  function Overlapping(): seq<Event> {
    [Stat(0), Read(0), Store(0), Look(0), Answered(0), Change(Emptied()), Pass(10.0, 10.0), Stat(0), Stat(1), Look(1)]
  }

  lemma OverlappingRun() returns (states: seq<State>)
    ensures Run(states, Overlapping()) && |states| == 11
    ensures forall i | 0 <= i < 7 :: states[i].now == 0.0
    ensures forall i | 7 <= i < 11 :: states[i].file == Emptied()
    ensures states[1].file == Granted()
    ensures states[10] == State(Emptied(), 10.0, 10.0, 10, true, 2, 2, 2, 10.0, Granting(), 1,
                                [Reading(10.0), Looking(10.0)])
  {
    hide Run;
    var events: seq<Event>;
    LoadingRun();
    states, events := LoadingStates(), LOADING;
    states, events := Grown(states, events, Answered(0), Loaded(5, Idle));
    states, events := Grown(states, events, Change(Emptied()), Loaded(6, Idle).(file := Emptied()));
    var s7 := State(Emptied(), 10.0, 10.0, 7, true, 1, 1, 1, 0.0, Granting(), 1, [Idle, Idle]);
    states, events := Grown(states, events, Pass(10.0, 10.0), s7);
    var s8 := State(Emptied(), 10.0, 10.0, 8, true, 2, 2, 2, 10.0, Granting(), 1, [Reading(10.0), Idle]);
    states, events := Grown(states, events, Stat(0), s8);
    var s9 := s8.(steps := 9, pcs := [Reading(10.0), Deciding(10.0)]);
    states, events := Grown(states, events, Stat(1), s9);
    states, events := Grown(states, events, Look(1), s9.(steps := 10, pcs := [Reading(10.0), Looking(10.0)]));
    assert events == Overlapping();
  }

  /** While one thread reloads the table, another takes the stat fields for fresh and the old entries with
      them: without a lock around the refresh, a grant can outlive its revocation by more than a second. */
  lemma OverlappingRefreshesAreStale()
    ensures exists states: seq<State> ::
              Run(states, Overlapping()) && Answers(states[|states| - 1], 1) && !Recent(states, 1, "a")
  {
    hide Run;
    var states := OverlappingRun();
    RecentExactly(states, Overlapping(), 1, "a");
    assert !Recent(states, 1, "a");
  }

  function LateStore(): seq<Event> {
    [Stat(0), Read(0), Change(Emptied()), Pass(10.0, 10.0), Stat(1), Read(1), Store(1), Store(0), Look(1)]
  }

  /** A thread has read the table, and ten seconds after it was emptied is still to store what it read. */
  function LateStates(): seq<State> {
    var read := Begun(2, Storing(0.0, Granting(), 1));
    [TwoThreads(Granted()), Begun(1, Reading(0.0)), read, read.(steps := 3, file := Emptied()),
     read.(steps := 4, file := Emptied(), now := 10.0, wall := 10.0)]
  }

  lemma LateRun()
    ensures Run(LateStates(), [Stat(0), Read(0), Change(Emptied()), Pass(10.0, 10.0)])
  {
  }

  lemma LateStoreRun() returns (states: seq<State>)
    ensures Run(states, LateStore()) && |states| == 10
    ensures forall i | 0 <= i < 4 :: states[i].now == 0.0
    ensures forall i | 4 <= i < 10 :: states[i].file == Emptied()
    ensures states[1].file == Granted()
    ensures states[9] == State(Emptied(), 10.0, 10.0, 9, true, 2, 2, 2, 10.0, Granting(), 1,
                               [Deciding(0.0), Looking(10.0)])
  {
    hide Run;
    LateRun();
    var events := [Stat(0), Read(0), Change(Emptied()), Pass(10.0, 10.0)];
    states := LateStates();
    var s5 := State(Emptied(), 10.0, 10.0, 5, true, 2, 2, 2, 10.0, map[], -1,
                    [Storing(0.0, Granting(), 1), Reading(10.0)]);
    states, events := Grown(states, events, Stat(1), s5);
    var s6 := s5.(steps := 6, pcs := [Storing(0.0, Granting(), 1), Storing(10.0, map[], 5)]);
    states, events := Grown(states, events, Read(1), s6);
    var s7 := s6.(steps := 7, entriesFrom := 5, pcs := [Storing(0.0, Granting(), 1), Deciding(10.0)]);
    states, events := Grown(states, events, Store(1), s7);
    var s8 := s7.(steps := 8, entries := Granting(), entriesFrom := 1, pcs := [Deciding(0.0), Deciding(10.0)]);
    states, events := Grown(states, events, Store(0), s8);
    states, events := Grown(states, events, Look(1), s8.(steps := 9, pcs := [Deciding(0.0), Looking(10.0)]));
    assert events == LateStore();
  }

  /** Two refreshes at once: the one that read first stores last, and the other answers by it although it has
      just read the table itself. */
  lemma LateStoreIsStale()
    ensures exists states: seq<State> ::
              Run(states, LateStore()) && Answers(states[|states| - 1], 1) && !Recent(states, 1, "a")
  {
    hide Run;
    var states := LateStoreRun();
    RecentExactly(states, LateStore(), 1, "a");
    assert !Recent(states, 1, "a");
  }

  /** Every file of a run, and the absence of one, lets an address in. */
  predicate AlwaysAllowed(states: seq<State>, address: Address) {
    forall i | 0 <= i < |states| :: Allows(ContentOf(states[i].file), address, states[i].wall)
  }

  /** An address that was allowed all the time is turned away, although no question fell into a refresh. */
  ghost predicate TurnedAway(states: seq<State>, events: seq<Event>, t: nat, address: Address) {
    && Run(states, events) && NoStatDuringRefresh(states, events) && AlwaysAllowed(states, address)
    && Answers(states[|events|], t) && !Answer(states[|events|], t, address) && !Recent(states, t, address)
  }

  lemma NobodyIsRight(states: seq<State>, events: seq<Event>, t: nat, address: Address)
    requires Run(states, events) && NoStatDuringRefresh(states, events) && AlwaysAllowed(states, address)
    requires Answers(states[|events|], t) && !Answer(states[|events|], t, address)
    requires forall i | 0 <= i < |states| :: states[i].wall == states[|events|].wall
    ensures TurnedAway(states, events, t, address)
  {
  }

  /** The file vanishes between stat and open. */
  function Vanishing(): seq<Event> { [Stat(0), Change(None), Read(0), Store(0), Look(0)] }

  lemma VanishingFileTurnsAway()
    ensures exists states: seq<State> ::
              TurnedAway(states, Vanishing(), 0, "a") && SwitchedQuietly(states, Vanishing())
  {
    var s0 := TwoThreads(Granted());
    var states, events := [s0], [];
    assert Run(states, events);
    hide Run;
    var s1 := Begun(1, Reading(0.0));
    states, events := Grown(states, events, Stat(0), s1);
    states, events := Grown(states, events, Change(None), s1.(steps := 2, file := None));
    var s3 := s1.(steps := 3, file := None, pcs := [Storing(0.0, map[], 2), Idle]);
    states, events := Grown(states, events, Read(0), s3);
    var s4 := s3.(steps := 4, entriesFrom := 2, pcs := [Deciding(0.0), Idle]);
    states, events := Grown(states, events, Store(0), s4);
    states, events := Grown(states, events, Look(0), s4.(steps := 5, pcs := [Looking(0.0), Idle]));
    assert events == Vanishing();
    NobodyIsRight(states, events, 0, "a");
    hide TurnedAway;
    assert SwitchedQuietly(states, events);
  }

  /** The file appears: one thread has found none, another has seen it and not yet read it. */
  function SwitchingOn(): seq<Event> { [Stat(0), Change(Granted()), Stat(1), Look(0)] }

  lemma SwitchingOnTurnsAway()
    ensures exists states: seq<State> ::
              TurnedAway(states, SwitchingOn(), 0, "a") && OpensFindTheFile(states, SwitchingOn())
  {
    var s0 := TwoThreads(None);
    var states, events := [s0], [];
    assert Run(states, events);
    hide Run;
    var s1 := s0.(steps := 1, pcs := [Deciding(0.0), Idle]);
    states, events := Grown(states, events, Stat(0), s1);
    states, events := Grown(states, events, Change(Granted()), s1.(steps := 2, file := Granted()));
    var s3 := State(Granted(), 0.0, 0.0, 3, true, 1, 1, 1, 0.0, map[], -1, [Deciding(0.0), Reading(0.0)]);
    states, events := Grown(states, events, Stat(1), s3);
    states, events := Grown(states, events, Look(0), s3.(steps := 4, pcs := [Looking(0.0), Reading(0.0)]));
    assert events == SwitchingOn();
    NobodyIsRight(states, events, 0, "a");
    hide TurnedAway;
    assert OpensFindTheFile(states, events);
  }

  /** The file goes away: one thread has seen that the gate is on, another clears the entries. */
  function SwitchingOff(): seq<Event> { [Stat(0), Read(0), Store(0), Look(0), Change(None), Stat(1)] }

  lemma SwitchingOffTurnsAway()
    ensures exists states: seq<State> ::
              TurnedAway(states, SwitchingOff(), 0, "a") && OpensFindTheFile(states, SwitchingOff())
  {
    hide Run;
    LoadingRun();
    var states, events := LoadingStates(), LOADING;
    var s5 := Loaded(5, Looking(0.0)).(file := None);
    states, events := Grown(states, events, Change(None), s5);
    var s6 := State(None, 0.0, 0.0, 6, false, 1, 1, 1, 0.0, map[], -1, [Looking(0.0), Deciding(0.0)]);
    states, events := Grown(states, events, Stat(1), s6);
    assert events == SwitchingOff();
    NobodyIsRight(states, events, 0, "a");
    hide TurnedAway;
    assert OpensFindTheFile(states, events);
  }
}
