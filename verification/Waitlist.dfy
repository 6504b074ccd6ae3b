/** Waitlists for devices that are in use, the memo of who has been woken, and the mailboxes. */
module Waitlist {

  type Busid = string
  type Client = string

  const MAX_QUEUE_PER_BUSID := 16
  const MAX_NOTIFY_PER_CLIENT := 32

  predicate SafeBusid(b: Busid) {
    b != "" && forall i | 0 <= i < |b| ::
      'A' <= b[i] <= 'Z' || 'a' <= b[i] <= 'z' || '0' <= b[i] <= '9' || b[i] in {'_', '.', ':', '-'}
  }

  predicate NormalClient(c: Client) { 0 < |c| <= 128 }

  datatype Action = Attach | Dropped

  datatype Note = Note(busid: Busid, action: Action, at: int)

  // ----- lists -----

  predicate NoDuplicates<T(==)>(s: seq<T>) {
    forall i, j | 0 <= i < j < |s| :: s[i] != s[j]
  }

  function Filter<T>(s: seq<T>, keep: T -> bool): (r: seq<T>)
    ensures |r| <= |s|
    ensures forall x | x in r :: x in s && keep(x)
    ensures forall x | x in s && keep(x) :: x in r
  {
    if s == [] then []
    else
      var r := Filter(s[..|s| - 1], keep);
      var last := s[|s| - 1];
      assert s == s[..|s| - 1] + [last];
      if keep(last) then r + [last] else r
  }

  lemma {:induction false} FilterNoDuplicates<T>(s: seq<T>, keep: T -> bool)
    requires NoDuplicates(s)
    ensures NoDuplicates(Filter(s, keep))
  {
    if s != [] {
      FilterNoDuplicates(s[..|s| - 1], keep);
      assert s[|s| - 1] !in s[..|s| - 1];
    }
  }

  /** Those that are kept keep their order: whatever stands before another in the result stood before it, and
      what stood before another and is kept with it still stands before it. */
  lemma {:induction false} FilterKeepsOrder<T(!new)>(s: seq<T>, keep: T -> bool, x: T, y: T)
    requires keep(x) && keep(y)
    ensures Before(Filter(s, keep), x, y) <==> Before(s, x, y)
  {
    if s == [] {
    } else {
      var most, last := s[..|s| - 1], s[|s| - 1];
      FilterKeepsOrder(most, keep, x, y);
      BeforeOneMore(most, last, x, y);
      assert s == most + [last];
      if keep(last) {
        BeforeOneMore(Filter(most, keep), last, x, y);
      }
    }
  }

  /** Some x stands before some y. */
  ghost predicate Before<T(!new)>(s: seq<T>, x: T, y: T) {
    exists i, j :: 0 <= i < j < |s| && s[i] == x && s[j] == y
  }

  lemma BeforeOneMore<T(!new)>(s: seq<T>, last: T, x: T, y: T)
    ensures Before(s + [last], x, y) <==> Before(s, x, y) || (x in s && y == last)
  {
    var all := s + [last];
    if Before(s, x, y) {
      var i, j :| 0 <= i < j < |s| && s[i] == x && s[j] == y;
      assert all[i] == x && all[j] == y;
    } else if x in s && y == last {
      var i :| 0 <= i < |s| && s[i] == x;
      assert all[i] == x && all[|s|] == y;
    }
  }

  /** Joining keeps the order of the others, as far as they keep a place. */
  lemma OthersKeepTheirOrder(s: seq<Client>, c: Client, x: Client, y: Client)
    requires NoDuplicates(s) && x in Queued(s, c) && y in Queued(s, c) && x != c && y != c
    ensures Before(Queued(s, c), x, y) <==> Before(s, x, y)
  {
    var without := Without(s, c);
    FilterKeepsOrder(s, Except(c), x, y);
    FilterNoDuplicates(s, Except(c));
    BeforeOneMore(without, c, x, y);
    LastKeepsOrder(without + [c], MAX_QUEUE_PER_BUSID, x, y);
  }

  lemma LastKeepsOrder<T(!new)>(s: seq<T>, max: nat, x: T, y: T)
    requires NoDuplicates(s) && x in Last(s, max) && y in Last(s, max)
    ensures Before(Last(s, max), x, y) <==> Before(s, x, y)
  {
    var tail, skipped := Last(s, max), |s| - |Last(s, max)|;
    assert tail == s[skipped..];
    if Before(tail, x, y) {
      var i, j :| 0 <= i < j < |tail| && tail[i] == x && tail[j] == y;
      assert s[i + skipped] == x && s[j + skipped] == y;
    }
    if Before(s, x, y) {
      var i, j :| 0 <= i < j < |s| && s[i] == x && s[j] == y;
      var k :| 0 <= k < |tail| && tail[k] == x;
      assert s[k + skipped] == s[i];
      assert tail[i - skipped] == x && tail[j - skipped] == y;
    }
  }

  /** The first that is kept comes first; a first that is kept stays first. */
  lemma {:induction false} FilterHead<T>(s: seq<T>, keep: T -> bool)
    requires s != [] && keep(s[0])
    ensures Filter(s, keep) != [] && Filter(s, keep)[0] == s[0]
  {
    if |s| > 1 {
      FilterHead(s[..|s| - 1], keep);
    } else {
      assert s[..0] == [];
    }
  }

  lemma {:induction false} FilterAll<T>(s: seq<T>, keep: T -> bool)
    requires forall x | x in s :: keep(x)
    ensures Filter(s, keep) == s
  {
    if s != [] {
      assert s == s[..|s| - 1] + [s[|s| - 1]];
      FilterAll(s[..|s| - 1], keep);
    }
  }

  lemma {:induction false} FilterLength<T>(s: seq<T>, keep: T -> bool)
    ensures |Filter(s, keep)| == |s| ==> Filter(s, keep) == s
  {
    if s != [] {
      FilterLength(s[..|s| - 1], keep);
      assert s == s[..|s| - 1] + [s[|s| - 1]];
    }
  }

  function Last<T>(s: seq<T>, max: nat): (r: seq<T>)
    ensures |r| == if |s| < max then |s| else max
  {
    if |s| > max then s[|s| - max..] else s
  }

  function Except(c: Client): Client -> bool { x => x != c }

  function In(live: set<Client>): Client -> bool { x => x in live }

  function NotAbout(b: Busid): Note -> bool { (n: Note) => n.busid != b }

  function Without(s: seq<Client>, c: Client): (r: seq<Client>)
    ensures c !in r
  {
    Filter(s, Except(c))
  }

  /** To the tail, once, the oldest making room. */
  function Queued(s: seq<Client>, c: Client): seq<Client> {
    Last(Without(s, c) + [c], MAX_QUEUE_PER_BUSID)
  }

  // ----- state and operations, as values -----

  datatype State = State(queue: map<Busid, seq<Client>>, memo: map<Busid, Client>, mail: map<Client, seq<Note>>)

  predicate GoodList(s: seq<Client>) {
    0 < |s| <= MAX_QUEUE_PER_BUSID && NoDuplicates(s) && forall x | x in s :: NormalClient(x)
  }

  predicate OneNoteADevice(notes: seq<Note>) {
    forall i, j | 0 <= i < j < |notes| :: notes[i].busid != notes[j].busid
  }

  predicate GoodBox(notes: seq<Note>) {
    |notes| <= MAX_NOTIFY_PER_CLIENT && OneNoteADevice(notes)
  }

  /** No list is empty, repeats a client or is longer than 16; a memo names the client at the front of a list;
      a mailbox holds one note a device and at most 32. */
  predicate Valid(s: State) {
    && (forall b | b in s.queue :: GoodList(s.queue[b]))
    && (forall b | b in s.memo :: b in s.queue && s.memo[b] == s.queue[b][0])
    && (forall c | c in s.mail :: GoodBox(s.mail[c]))
  }

  function ListOf(s: State, b: Busid): seq<Client> { if b in s.queue then s.queue[b] else [] }

  /** A new list for one device: the memo goes with its head, whether or not the file takes the list. */
  function PutList(s: State, b: Busid, list: seq<Client>, saved: bool): State {
    var queue := if list == [] then s.queue - {b} else s.queue[b := list];
    var memo := if list != [] && b in s.memo && s.memo[b] == list[0] then s.memo else s.memo - {b};
    s.(queue := if saved then queue else s.queue, memo := memo)
  }

  function Append(s: State, b: Busid, c: Client, saved: bool): State {
    if !SafeBusid(b) || !NormalClient(c) then s else PutList(s, b, Queued(ListOf(s, b), c), saved)
  }

  function Remove(s: State, b: Busid, c: Client, saved: bool): State {
    if !SafeBusid(b) || !NormalClient(c) then s else PutList(s, b, Without(ListOf(s, b), c), saved)
  }

  /** The lists after clients have left those that are not in todo. */
  function KeptLists(queue: map<Busid, seq<Client>>, keep: Client -> bool, todo: set<Busid>)
    : map<Busid, seq<Client>>
  {
    map b | b in queue && (b in todo || Filter(queue[b], keep) != []) ::
      if b in todo then queue[b] else Filter(queue[b], keep)
  }

  function KeptMemo(memo: map<Busid, Client>, keep: Client -> bool, todo: set<Busid>): map<Busid, Client> {
    map b | b in memo && (b in todo || keep(memo[b])) :: memo[b]
  }

  /** Clients leave every list. */
  function Keep(s: State, keep: Client -> bool, saved: bool): State {
    s.(queue := if saved then KeptLists(s.queue, keep, {}) else s.queue, memo := KeptMemo(s.memo, keep, {}))
  }

  function Clear(s: State, b: Busid, saved: bool): State {
    if !SafeBusid(b) || b !in s.queue then s
    else s.(queue := if saved then s.queue - {b} else s.queue, memo := s.memo - {b})
  }

  function Forget(s: State, b: Busid): State {
    if SafeBusid(b) then s.(memo := s.memo - {b}) else s
  }

  /** Whom queue_notify_head_if_free wakes; "" for nobody. */
  function Woken(s: State, b: Busid, held: bool, shared: bool): Client {
    if !SafeBusid(b) || held || !shared || ListOf(s, b) == [] || (b in s.memo && s.memo[b] == s.queue[b][0]) then ""
    else s.queue[b][0]
  }

  function Wake(s: State, b: Busid, held: bool, shared: bool): State {
    var head := Woken(s, b, held, shared);
    if head == "" then s else s.(memo := s.memo[b := head])
  }

  function Posted(notes: seq<Note>, note: Note): seq<Note> {
    Last(Filter(notes, NotAbout(note.busid)) + [note], MAX_NOTIFY_PER_CLIENT)
  }

  function Post(s: State, c: Client, note: Note, saved: bool): State {
    if !NormalClient(c) || !SafeBusid(note.busid) || !saved then s
    else s.(mail := s.mail[c := Posted(if c in s.mail then s.mail[c] else [], note)])
  }

  function EmptyBox(s: State, c: Client, saved: bool): State {
    if NormalClient(c) && saved then s.(mail := s.mail - {c}) else s
  }

  // ----- the invariant -----

  lemma LastNoDuplicates<T>(s: seq<T>, max: nat)
    requires NoDuplicates(s)
    ensures NoDuplicates(Last(s, max))
  {
  }

  lemma QueuedIsGood(s: seq<Client>, c: Client)
    requires NormalClient(c) && (s == [] || GoodList(s))
    ensures GoodList(Queued(s, c)) && Queued(s, c)[|Queued(s, c)| - 1] == c
  {
    FilterNoDuplicates(s, Except(c));
    LastNoDuplicates(Without(s, c) + [c], MAX_QUEUE_PER_BUSID);
  }

  lemma KeptIsGood(s: seq<Client>, keep: Client -> bool)
    requires s == [] || GoodList(s)
    ensures Filter(s, keep) == [] || GoodList(Filter(s, keep))
  {
    FilterNoDuplicates(s, keep);
  }

  lemma PutKeepsValid(s: State, b: Busid, list: seq<Client>, saved: bool)
    requires Valid(s) && (list == [] || GoodList(list))
    ensures Valid(PutList(s, b, list, saved))
  {
  }

  lemma KeepKeepsValid(s: State, keep: Client -> bool, saved: bool)
    requires Valid(s)
    ensures Valid(Keep(s, keep, saved))
  {
    var n := Keep(s, keep, saved);
    forall b | b in s.queue ensures b in n.queue ==> GoodList(n.queue[b]) {
      KeptIsGood(s.queue[b], keep);
    }
    forall b | b in n.memo ensures b in n.queue && n.memo[b] == n.queue[b][0] {
      FilterHead(s.queue[b], keep);
    }
  }

  lemma {:induction false} FilterOneNote(notes: seq<Note>, keep: Note -> bool)
    requires OneNoteADevice(notes)
    ensures OneNoteADevice(Filter(notes, keep))
  {
    if notes != [] {
      var k := |notes| - 1;
      FilterOneNote(notes[..k], keep);
      forall n | n in notes[..k] ensures n.busid != notes[k].busid {
        var i :| 0 <= i < k && notes[i] == n;
      }
    }
  }

  lemma PostedIsGood(notes: seq<Note>, note: Note)
    requires GoodBox(notes)
    ensures GoodBox(Posted(notes, note))
    ensures Posted(notes, note) != [] && Posted(notes, note)[|Posted(notes, note)| - 1] == note
  {
    var others := Filter(notes, NotAbout(note.busid));
    FilterOneNote(notes, NotAbout(note.busid));
    assert forall n | n in others :: n.busid != note.busid;
  }

  lemma PostKeepsValid(s: State, c: Client, note: Note, saved: bool)
    requires Valid(s)
    ensures Valid(Post(s, c, note, saved))
  {
    PostedIsGood(if c in s.mail then s.mail[c] else [], note);
  }

  // ----- runs -----

  datatype Op =
    | DoAppend(b: Busid, c: Client, saved: bool)
    | DoRemove(b: Busid, c: Client, saved: bool)
    | DoRemoveClient(c: Client, saved: bool)
    | DoDropStale(live: set<Client>, saved: bool)
    | DoClear(b: Busid, saved: bool)
    | DoForget(b: Busid)
    | DoWake(b: Busid, held: bool, shared: bool)
    | DoPost(c: Client, note: Note, saved: bool)
    | DoEmptyBox(c: Client, saved: bool)
    | Restart

  function Step(s: State, op: Op): State {
    match op
    case DoAppend(b, c, saved) => Append(s, b, c, saved)
    case DoRemove(b, c, saved) => Remove(s, b, c, saved)
    case DoRemoveClient(c, saved) => if NormalClient(c) then Keep(s, Except(c), saved) else s
    case DoDropStale(live, saved) => Keep(s, In(live), saved)
    case DoClear(b, saved) => Clear(s, b, saved)
    case DoForget(b) => Forget(s, b)
    case DoWake(b, held, shared) => Wake(s, b, held, shared)
    case DoPost(c, note, saved) => Post(s, c, note, saved)
    case DoEmptyBox(c, saved) => EmptyBox(s, c, saved)
    case Restart => s.(memo := map[])
  }

  predicate Run(states: seq<State>, ops: seq<Op>) {
    && |states| == |ops| + 1 && states[0] == State(map[], map[], map[])
    && forall i | 0 <= i < |ops| :: states[i + 1] == Step(states[i], ops[i])
  }

  lemma StepKeepsValid(s: State, op: Op)
    requires Valid(s)
    ensures Valid(Step(s, op))
  {
    match op
    case DoAppend(b, c, saved) =>
      if NormalClient(c) {
        QueuedIsGood(ListOf(s, b), c);
        PutKeepsValid(s, b, Queued(ListOf(s, b), c), saved);
      }
    case DoRemove(b, c, saved) =>
      KeptIsGood(ListOf(s, b), Except(c));
      PutKeepsValid(s, b, Without(ListOf(s, b), c), saved);
    case DoRemoveClient(c, saved) => KeepKeepsValid(s, Except(c), saved);
    case DoDropStale(live, saved) => KeepKeepsValid(s, In(live), saved);
    case DoPost(c, note, saved) => PostKeepsValid(s, c, note, saved);
    case _ =>
  }

  /** The invariant holds in every run, whether or not the files can be written. */
  lemma {:induction false} RunKeepsValid(states: seq<State>, ops: seq<Op>, i: nat)
    requires Run(states, ops) && i < |states|
    ensures Valid(states[i])
  {
    hide Step;
    if i > 0 {
      RunKeepsValid(states, ops, i - 1);
      StepKeepsValid(states[i - 1], ops[i - 1]);
    }
  }

  /** Joining a list keeps the order of all others, and all of them exactly if fewer than 16 others wait;
      otherwise the one at the front, who has waited longest, loses the place. */
  lemma AppendEvictsExactlyWhenFull(s: seq<Client>, c: Client)
    requires GoodList(s)
    ensures var others, after := Without(s, c), Without(Queued(s, c), c);
            && after == Last(others, MAX_QUEUE_PER_BUSID - 1)
            && (after == others <==> |others| < MAX_QUEUE_PER_BUSID)
  {
    var others := Without(s, c);
    var kept := Last(others, MAX_QUEUE_PER_BUSID - 1);
    assert Queued(s, c) == kept + [c];
    assert (kept + [c])[..|kept|] == kept;
    FilterAll(kept, Except(c));
  }

  /** A client at the front is woken again only after its memo has been dropped in between. */
  lemma WokenAgainOnlyAfterForgetting(states: seq<State>, ops: seq<Op>, i: nat, j: nat, b: Busid)
    requires Run(states, ops) && i < j < |ops| && ops[i].DoWake? && ops[j].DoWake? && ops[i].b == b == ops[j].b
    requires Woken(states[i], b, ops[i].held, ops[i].shared) != ""
    requires Woken(states[i], b, ops[i].held, ops[i].shared) == Woken(states[j], b, ops[j].held, ops[j].shared)
    ensures exists k | i < k <= j :: b !in states[k].memo
  {
    if forall k | i < k <= j :: b in states[k].memo {
      RunKeepsValid(states, ops, j);
    }
  }

  /** A memo is dropped only when the device is taken, the server restarts, the list is cleared or gets another
      head. */
  lemma MemoDroppedOnlyFor(s: State, op: Op, b: Busid)
    requires Valid(s) && b in s.memo && b !in Step(s, op).memo
    ensures match op
            case DoForget(d) => d == b
            case Restart => true
            case DoClear(d, _) => d == b
            case DoAppend(d, c, _) => d == b && Queued(s.queue[b], c)[0] != s.queue[b][0]
            case DoRemove(d, c, _) => d == b && s.queue[b][0] == c
            case DoRemoveClient(c, _) => s.queue[b][0] == c
            case DoDropStale(live, _) => s.queue[b][0] !in live
            case _ => false
  {
    match op
    case DoAppend(d, c, _) =>
      QueuedIsGood(ListOf(s, d), c);
    case DoRemove(d, c, _) =>
      if s.queue[b][0] != c {
        FilterHead(s.queue[b], Except(c));
      }
    case _ =>
  }

  // ----- what the operations come to -----

  /** Nothing about any other device has changed, nor any mailbox. */
  predicate OthersStay(s: State, n: State, b: Busid) {
    n.queue - {b} == s.queue - {b} && n.memo - {b} == s.memo - {b} && n.mail == s.mail
  }

  /** Who joins is last on the list, which has at most sixteen clients, all others being on it from before; the memo
      stays exactly if the head does. */
  lemma Joining(s: State, b: Busid, c: Client, saved: bool)
    requires Valid(s) && SafeBusid(b) && NormalClient(c)
    ensures var n := Append(s, b, c, saved);
            && OthersStay(s, n, b)
            && (!saved ==> n.queue == s.queue)
            && (saved ==>
                  && b in n.queue && 0 < |n.queue[b]| <= 16 && n.queue[b][|n.queue[b]| - 1] == c
                  && (forall x | x in n.queue[b] && x != c :: x in ListOf(s, b))
                  && (|ListOf(s, b)| < 16 ==> forall x | x in ListOf(s, b) :: x in n.queue[b])
                  && (b in n.memo <==> b in s.memo && n.queue[b][0] == s.queue[b][0])
                  && (b in n.memo ==> n.memo[b] == s.memo[b]))
  {
    QueuedIsGood(ListOf(s, b), c);
    var list, others := ListOf(s, b), Without(ListOf(s, b), c);
    if |list| < 16 {
      assert Queued(list, c) == others + [c];
    }
  }

  /** Who leaves a list is off it, all others are still on it, and the memo stays exactly if somebody else was at the
      front. */
  lemma Leaving(s: State, b: Busid, c: Client, saved: bool)
    requires Valid(s) && SafeBusid(b) && NormalClient(c)
    ensures var n := Remove(s, b, c, saved);
            && OthersStay(s, n, b)
            && (!saved ==> n.queue == s.queue)
            && (saved ==> forall x :: x in ListOf(n, b) <==> x in ListOf(s, b) && x != c)
            && (saved && b in n.queue ==> n.queue[b] != [])
            && (b in n.memo <==> b in s.memo && s.queue[b][0] != c)
            && (b in n.memo ==> n.memo[b] == s.memo[b])
  {
    var list := ListOf(s, b);
    if list != [] && list[0] != c {
      FilterHead(list, Except(c));
    }
  }

  /** Clients that leave all lists are off them, all others are still on them, and memos stay exactly with heads. */
  lemma LeavingAll(s: State, keep: Client -> bool, saved: bool)
    requires Valid(s)
    ensures var n := Keep(s, keep, saved);
            && n.mail == s.mail && (!saved ==> n.queue == s.queue)
            && (saved ==> forall b, x :: x in ListOf(n, b) <==> x in ListOf(s, b) && keep(x))
            && (forall b :: b in n.memo <==> b in s.memo && keep(s.memo[b]))
            && (forall b | b in n.memo :: n.memo[b] == s.memo[b])
  {
  }

  /** A cleared list is gone with its memo, a forgotten memo is gone alone, a mailbox that is emptied is gone. */
  lemma Clearing(s: State, b: Busid, c: Client, saved: bool)
    ensures SafeBusid(b) && b in s.queue ==>
              && OthersStay(s, Clear(s, b, saved), b) && b !in Clear(s, b, saved).memo
              && (saved <==> b !in Clear(s, b, saved).queue) && (!saved ==> Clear(s, b, saved).queue == s.queue)
    ensures SafeBusid(b) ==>
              Forget(s, b).queue == s.queue && OthersStay(s, Forget(s, b), b) && b !in Forget(s, b).memo
    ensures NormalClient(c) ==>
              var n := EmptyBox(s, c, saved);
              && n.queue == s.queue && n.memo == s.memo && n.mail - {c} == s.mail - {c}
              && (saved ==> c !in n.mail) && (!saved ==> n.mail == s.mail)
  {
  }

  /** Names that are not safe, and clients without an id or with one that is too long, change nothing. */
  lemma BadNames(s: State, b: Busid, c: Client, note: Note, saved: bool)
    requires b == "" || (exists i | 0 <= i < |b| :: b[i] == '/' || b[i] == ' ') || c == "" || |c| > 128
    ensures Append(s, b, c, saved) == s && Remove(s, b, c, saved) == s
    ensures Post(s, c, note.(busid := b), saved) == s
  {
  }

  /** The head is woken exactly if the device is shared and free, and the head has not been told already. */
  lemma WakingExactly(s: State, b: Busid, held: bool, shared: bool)
    requires Valid(s)
    ensures var told := b in s.memo && b in s.queue && s.memo[b] == s.queue[b][0];
            var wakes := SafeBusid(b) && shared && !held && b in s.queue && !told;
            && Woken(s, b, held, shared) == (if wakes then s.queue[b][0] else "")
            && (wakes ==> Woken(s, b, held, shared) != "")
            && Wake(s, b, held, shared) == if wakes then s.(memo := s.memo[b := s.queue[b][0]]) else s
  {
    if b in s.queue {
      assert NormalClient(s.queue[b][0]);
    }
  }

  /** A note is the only one about its device in the mailbox and the last; the newest thirty-two are kept. */
  lemma Posting(s: State, c: Client, note: Note, saved: bool)
    requires Valid(s) && NormalClient(c) && SafeBusid(note.busid)
    ensures var n := Post(s, c, note, saved);
            && n.queue == s.queue && n.memo == s.memo && n.mail - {c} == s.mail - {c}
            && (!saved ==> n.mail == s.mail)
            && (saved ==>
                  && c in n.mail && 0 < |n.mail[c]| <= 32 && n.mail[c][|n.mail[c]| - 1] == note
                  && (forall m | m in n.mail[c] && m != note :: c in s.mail && m in s.mail[c] && m.busid != note.busid)
                  && (c in s.mail && |s.mail[c]| < 32 ==>
                        forall m | m in s.mail[c] && m.busid != note.busid :: m in n.mail[c]))
  {
    var notes := if c in s.mail then s.mail[c] else [];
    PostedIsGood(notes, note);
    if |notes| < 32 {
      assert Posted(notes, note) == Filter(notes, NotAbout(note.busid)) + [note];
    }
  }

  // ----- waking and telling -----

  /** owed: heads that are remembered as woken, and the thread that did so has yet to post the note. */
  datatype Waking = Waking(s: State, owed: multiset<(Busid, Client)>)

  datatype Moves = Do(op: Op) | Tell(b: Busid, c: Client, at: int, saved: bool)

  predicate MoveEnabled(w: Waking, m: Moves) {
    m.Tell? ==> (m.b, m.c) in w.owed
  }

  /** queue_notify_head_if_free takes the lock twice: to remember the head, and to post the note. */
  function Move(w: Waking, m: Moves): Waking
    requires MoveEnabled(w, m)
  {
    match m
    case Do(op) =>
      var owed := if op.Restart? then multiset{}
                  else if op.DoWake? && Woken(w.s, op.b, op.held, op.shared) != ""
                  then w.owed + multiset{(op.b, Woken(w.s, op.b, op.held, op.shared))}
                  else w.owed;
      Waking(Step(w.s, op), owed)
    case Tell(b, c, at, saved) =>
      Waking(Post(w.s, c, Note(b, Attach, at), saved), w.owed - multiset{(b, c)})
  }

  ghost predicate WakingRun(ws: seq<Waking>, ms: seq<Moves>) {
    && |ws| == |ms| + 1 && ws[0] == Waking(State(map[], map[], map[]), multiset{})
    && forall i | 0 <= i < |ms| :: MoveEnabled(ws[i], ms[i]) && ws[i + 1] == Move(ws[i], ms[i])
  }

  predicate Wakes(w: Waking, m: Moves, b: Busid, c: Client) {
    c != "" && m.Do? && m.op.DoWake? && m.op.b == b && Woken(w.s, b, m.op.held, m.op.shared) == c
  }

  predicate Remembers(w: Waking, b: Busid, c: Client) { b in w.s.memo && w.s.memo[b] == c }

  /** At step i the client was woken for the device, and it has been remembered ever since. */
  ghost predicate WokenAt(ws: seq<Waking>, ms: seq<Moves>, i: int, b: Busid, c: Client) {
    && 0 <= i < |ms| && |ws| == |ms| + 1 && Wakes(ws[i], ms[i], b, c)
    && forall j | i < j < |ws| :: Remembers(ws[j], b, c)
  }

  predicate ToldAfter(ms: seq<Moves>, i: int, b: Busid, c: Client) {
    exists k | i < k < |ms| && 0 <= k :: ms[k].Tell? && ms[k].b == b && ms[k].c == c
  }

  ghost predicate Accounted(ws: seq<Waking>, ms: seq<Moves>, i: int, b: Busid, c: Client)
    requires |ws| > 0
  {
    WokenAt(ws, ms, i, b, c) && ((b, c) in ws[|ws| - 1].owed || ToldAfter(ms, i, b, c))
  }

  lemma MoveKeepsValid(w: Waking, m: Moves)
    requires Valid(w.s) && MoveEnabled(w, m)
    ensures Valid(Move(w, m).s)
  {
    hide Step, Post, Woken;
    match m
    case Do(op) => StepKeepsValid(w.s, op);
    case Tell(b, c, at, saved) => PostKeepsValid(w.s, c, Note(b, Attach, at), saved);
  }

  lemma {:induction false} WakingKeepsValid(ws: seq<Waking>, ms: seq<Moves>, i: nat)
    requires WakingRun(ws, ms) && i < |ws|
    ensures Valid(ws[i].s)
  {
    hide Valid, Move;
    if i == 0 {
      assert Valid(ws[0].s) by { NothingIsValid(); }
    } else {
      WakingKeepsValid(ws, ms, i - 1);
      MoveKeepsValid(ws[i - 1], ms[i - 1]);
    }
  }

  lemma NothingIsValid()
    ensures Valid(State(map[], map[], map[]))
  {
  }

  lemma MemoStep(s: State, op: Op, b: Busid)
    requires b in Step(s, op).memo
    ensures || (op.DoWake? && op.b == b && Woken(s, b, op.held, op.shared) == Step(s, op).memo[b] != "")
            || (b in s.memo && s.memo[b] == Step(s, op).memo[b])
    ensures op.DoWake? && op.b == b && Woken(s, b, op.held, op.shared) != "" ==>
              Step(s, op).memo[b] == Woken(s, b, op.held, op.shared)
    ensures !op.Restart?
  {
    hide Queued, Without, KeptLists, Posted, Woken;
  }

  /** A memo is there because it was before, or because its client is woken by this move. */
  lemma MemoComesFrom(w: Waking, m: Moves, b: Busid, c: Client)
    requires MoveEnabled(w, m) && Remembers(Move(w, m), b, c)
    ensures Wakes(w, m, b, c) || Remembers(w, b, c)
    ensures Wakes(w, m, b, c) ==> (b, c) in Move(w, m).owed
    ensures (b, c) in w.owed ==> (b, c) in Move(w, m).owed || (m.Tell? && m.b == b && m.c == c)
  {
    hide Step, Woken, Posted;
    if m.Do? {
      MemoStep(w.s, m.op, b);
    }
  }

  lemma StillAccounted(ws: seq<Waking>, ms: seq<Moves>, m: Moves, i: int, b: Busid, c: Client)
    requires |ws| > 0 && MoveEnabled(ws[|ws| - 1], m)
    requires Accounted(ws, ms, i, b, c)
    requires Remembers(Move(ws[|ws| - 1], m), b, c) && !Wakes(ws[|ws| - 1], m, b, c)
    ensures Accounted(ws + [Move(ws[|ws| - 1], m)], ms + [m], i, b, c)
  {
    hide Move, Wakes, Remembers;
    var w := ws[|ws| - 1];
    MemoComesFrom(w, m, b, c);
    var more, all := ws + [Move(w, m)], ms + [m];
    assert all[|ms|] == m;
    assert forall k | 0 <= k < |ms| :: all[k] == ms[k];
    assert forall j | 0 <= j < |ws| :: more[j] == ws[j];
  }

  /** Whoever is remembered as woken was woken at some step and has been remembered since; and either the thread
      that woke it is still to post the note, or a note to it has been posted since, or at least tried. */
  lemma {:induction false} MemoComesWithNote(ws: seq<Waking>, ms: seq<Moves>, b: Busid, c: Client)
    requires WakingRun(ws, ms) && Remembers(ws[|ms|], b, c)
    ensures exists i :: Accounted(ws, ms, i, b, c)
  {
    hide Move, Wakes, Remembers;
    var n := |ms|;
    if n == 0 {
      NothingRemembered(b, c);
    } else {
      var w, m := ws[n - 1], ms[n - 1];
      MemoComesFrom(w, m, b, c);
      if Wakes(w, m, b, c) {
        assert Accounted(ws, ms, n - 1, b, c);
      } else {
        MemoComesWithNote(ws[..n], ms[..n - 1], b, c);
        var i :| Accounted(ws[..n], ms[..n - 1], i, b, c);
        StillAccounted(ws[..n], ms[..n - 1], m, i, b, c);
        assert ws[..n] + [ws[n]] == ws && ms[..n - 1] + [m] == ms;
      }
    }
  }

  lemma NothingRemembered(b: Busid, c: Client)
    ensures !Remembers(Waking(State(map[], map[], map[]), multiset{}), b, c)
  {
  }

  lemma {:induction false} OwedAreWoken(ws: seq<Waking>, ms: seq<Moves>, i: nat, b: Busid, c: Client)
    requires WakingRun(ws, ms) && i < |ws| && (b, c) in ws[i].owed
    ensures SafeBusid(b) && NormalClient(c)
  {
    hide Step, Post;
    assert i > 0;
    if (b, c) in ws[i - 1].owed {
      OwedAreWoken(ws, ms, i - 1, b, c);
    } else {
      WakingKeepsValid(ws, ms, i - 1);
      assert GoodList(ws[i - 1].s.queue[b]);
    }
  }

  ghost predicate NobodyToWake(s: State, b: Busid) {
    forall held, shared :: Woken(s, b, held, shared) == ""
  }

  /** The note is the last in the mailbox of the client exactly if the file could be written; otherwise nothing has
      changed, and nobody will try again: while the client is remembered, nobody is woken for the device. */
  lemma TellingExactly(ws: seq<Waking>, ms: seq<Moves>, i: nat)
    requires WakingRun(ws, ms) && i < |ms| && ms[i].Tell?
    ensures var m, s, n := ms[i], ws[i].s, ws[i + 1].s;
            if m.saved then
              && m.c in n.mail && n.mail[m.c] != []
              && n.mail[m.c][|n.mail[m.c]| - 1] == Note(m.b, Attach, m.at)
            else n == s
    ensures ms[i].b in ws[i + 1].s.memo ==> NobodyToWake(ws[i + 1].s, ms[i].b)
  {
    hide Filter;
    var m, s := ms[i], ws[i].s;
    OwedAreWoken(ws, ms, i, m.b, m.c);
    WakingKeepsValid(ws, ms, i);
    WakingKeepsValid(ws, ms, i + 1);
    PostedIsGood(if m.c in s.mail then s.mail[m.c] else [], Note(m.b, Attach, m.at));
  }

  const LOST: seq<Moves> := [Do(DoAppend("1-1", "c", true)), Do(DoWake("1-1", false, true)), Tell("1-1", "c", 0, false)]

  function LostStates(): seq<Waking> {
    var joined, woken := State(map["1-1" := ["c"]], map[], map[]), State(map["1-1" := ["c"]], map["1-1" := "c"], map[]);
    [Waking(State(map[], map[], map[]), multiset{}), Waking(joined, multiset{}),
     Waking(woken, multiset{("1-1", "c")}), Waking(woken, multiset{})]
  }

  lemma FirstJoins()
    ensures MoveEnabled(LostStates()[0], LOST[0]) && Move(LostStates()[0], LOST[0]) == LostStates()[1]
  {
    assert Queued([], "c") == ["c"];
  }

  lemma ThenIsWoken()
    ensures MoveEnabled(LostStates()[1], LOST[1]) && Move(LostStates()[1], LOST[1]) == LostStates()[2]
    ensures MoveEnabled(LostStates()[2], LOST[2]) && Move(LostStates()[2], LOST[2]) == LostStates()[3]
  {
  }

  /** A head that is remembered, and was never told: its mailbox could not be written. */
  lemma NoteCanBeLost()
    ensures exists ws: seq<Waking>, ms: seq<Moves> ::
              && WakingRun(ws, ms) && Remembers(ws[|ms|], "1-1", "c") && ws[|ms|].owed == multiset{}
              && ws[|ms|].s.mail == map[]
              && NobodyToWake(ws[|ms|].s, "1-1")
  {
    FirstJoins();
    ThenIsWoken();
    hide Move, MoveEnabled;
    assert WakingRun(LostStates(), LOST);
  }

  // ----- the operations as the server does them -----

  class Queues {
    var queue: map<Busid, seq<Client>>  // queue.json
    var memo: map<Busid, Client>        // _QUEUE_NOTIFIED
    var mail: map<Client, seq<Note>>    // queue-notify.json

    constructor ()
      ensures Value() == State(map[], map[], map[])
    {
      queue, memo, mail := map[], map[], map[];
    }

    ghost function Value(): State
      reads this
    {
      State(queue, memo, mail)
    }

    /** _queue_notified_keep */
    method NotifiedKeep(b: Busid, head: Client)
      modifies this`memo
      ensures memo == if b in old(memo) && old(memo)[b] == head then old(memo) else old(memo) - {b}
    {
      if b in memo && memo[b] != head {
        memo := memo - {b};
      }
    }

    method QueueAppend(b: Busid, c: Client, saved: bool) returns (current: seq<Client>)
      modifies this
      ensures Value() == Append(old(Value()), b, c, saved)
      ensures current == if SafeBusid(b) && NormalClient(c) then Queued(ListOf(old(Value()), b), c) else []
    {
      if !SafeBusid(b) || !NormalClient(c) {
        return [];
      }
      current := Filter(if b in queue then queue[b] else [], Except(c));
      current := current + [c];
      if |current| > MAX_QUEUE_PER_BUSID {
        current := current[|current| - MAX_QUEUE_PER_BUSID..];
      }
      NotifiedKeep(b, current[0]);
      if saved {
        queue := queue[b := current];
      }
    }

    method QueueRemove(b: Busid, c: Client, saved: bool) returns (current: seq<Client>)
      modifies this
      ensures Value() == Remove(old(Value()), b, c, saved)
      ensures current == if SafeBusid(b) && NormalClient(c) then Without(ListOf(old(Value()), b), c) else []
    {
      if !SafeBusid(b) || !NormalClient(c) {
        return [];
      }
      current := Filter(if b in queue then queue[b] else [], Except(c));
      var changed := queue;
      if current != [] {
        changed := changed[b := current];
        NotifiedKeep(b, current[0]);
      } else {
        changed := changed - {b};
        memo := memo - {b};
      }
      if saved {
        queue := changed;
      }
    }

    /** The loop of queue_remove_client, queue_drop_stale_clients and cleanup_client_queue_and_notify. */
    method KeepClients(keep: Client -> bool, saved: bool) returns (touched: set<Busid>)
      requires Valid(Value())
      modifies this
      ensures Value() == Keep(old(Value()), keep, saved)
      ensures forall b :: b in touched <==> b in old(queue) && exists c :: c in old(queue)[b] && !keep(c)
    {
      hide Filter, KeptLists, KeptMemo;
      ghost var was := Value();
      touched := {};
      var result, todo := queue, queue.Keys;
      NothingKeptYet(was, keep);
      while todo != {}
        invariant todo <= was.queue.Keys && queue == was.queue && mail == was.mail
        invariant result == KeptLists(was.queue, keep, todo) && memo == KeptMemo(was.memo, keep, todo)
        invariant forall b ::
            b in touched <==> b in was.queue && b !in todo && exists c :: c in was.queue[b] && !keep(c)
        invariant touched == {} ==> result == was.queue
        decreases |todo|
      {
        var b :| b in todo;
        var kept := Filter(queue[b], keep);
        KeepOne(was, keep, todo, b);
        todo := todo - {b};
        if |kept| != |queue[b]| {
          touched := touched + {b};
          if kept != [] {
            result := result[b := kept];
            NotifiedKeep(b, kept[0]);
          } else {
            result := result - {b};
            memo := memo - {b};
          }
        }
      }
      if touched != {} && saved {
        queue := result;
      }
    }

    method QueueClear(b: Busid, saved: bool) returns (found: bool)
      modifies this
      ensures Value() == Clear(old(Value()), b, saved) && found == (SafeBusid(b) && b in old(queue))
    {
      if !SafeBusid(b) || b !in queue {
        return false;
      }
      memo := memo - {b};
      if saved {
        queue := queue - {b};
      }
      return true;
    }

    method QueueForgetNotified(b: Busid)
      modifies this`memo
      ensures Value() == Forget(old(Value()), b)
    {
      if SafeBusid(b) {
        memo := memo - {b};
      }
    }

    /** Notes are handed out once, unless the file keeps them. */
    method PopQueueNotificationsFor(c: Client, saved: bool) returns (notes: seq<Note>)
      modifies this`mail
      ensures Value() == EmptyBox(old(Value()), c, saved)
      ensures notes == if NormalClient(c) && c in old(mail) then old(mail)[c] else []
      ensures saved && NormalClient(c) ==> c !in mail
    {
      if !NormalClient(c) || c !in mail {
        assert mail - {c} == mail || !NormalClient(c);
        return [];
      }
      notes := mail[c];
      if saved {
        mail := mail - {c};
      }
    }

    /** The part of queue_notify_head_if_free under the lock. */
    method WakeHead(b: Busid, held: bool, shared: bool) returns (head: Client)
      requires Valid(Value())
      modifies this`memo
      ensures head == Woken(old(Value()), b, held, shared) && Value() == Wake(old(Value()), b, held, shared)
      ensures var list := if b in queue then queue[b] else [];
              if SafeBusid(b) && shared && !held && list != [] && !(b in old(memo) && old(memo)[b] == list[0])
              then head == list[0] != "" && memo == old(memo)[b := head]
              else head == "" && memo == old(memo)
    {
      if !SafeBusid(b) || held || !shared || b !in queue || queue[b] == [] {
        return "";
      }
      head := queue[b][0];
      if b in memo && memo[b] == head {
        return "";
      }
      assert NormalClient(head);
      memo := memo[b := head];
    }

    method QueueNotifyClient(c: Client, b: Busid, action: Action, now: int, saved: bool)
      modifies this`mail
      ensures Value() == Post(old(Value()), c, Note(b, action, now), saved)
    {
      if !NormalClient(c) || !SafeBusid(b) {
        return;
      }
      var entries := Filter(if c in mail then mail[c] else [], NotAbout(b));
      entries := entries + [Note(b, action, now)];
      if |entries| > MAX_NOTIFY_PER_CLIENT {
        entries := entries[|entries| - MAX_NOTIFY_PER_CLIENT..];
      }
      if saved {
        mail := mail[c := entries];
      }
    }

    /** With nothing in between: the head is remembered and told. saved: the mailboxes could be written. */
    method QueueNotifyHeadIfFree(b: Busid, held: bool, shared: bool, now: int, saved: bool) returns (head: Client)
      requires Valid(Value())
      modifies this`memo, this`mail
      ensures head == Woken(old(Value()), b, held, shared)
      ensures var woken := Move(Waking(old(Value()), multiset{}), Do(DoWake(b, held, shared)));
              if head == "" then Value() == woken.s == old(Value())
              else MoveEnabled(woken, Tell(b, head, now, saved)) && Value() == Move(woken, Tell(b, head, now, saved)).s
      ensures held || !shared || head == "" ==> memo == old(memo) && mail == old(mail)
      ensures head != "" ==> b in queue && head == queue[b][0] && memo == old(memo)[b := head]
      ensures head != "" && !saved ==> mail == old(mail)
      ensures head != "" && saved ==>
                && head in mail && mail[head] != [] && mail[head][|mail[head]| - 1] == Note(b, Attach, now)
                && mail - {head} == old(mail) - {head}
    {
      hide Filter, Posted, PutList, Keep, Append, Remove, Clear;
      head := WakeHead(b, held, shared);
      if head != "" {
        PostedIsGood(if head in mail then mail[head] else [], Note(b, Attach, now));
        QueueNotifyClient(head, b, Attach, now, saved);
      }
    }
  }

  lemma NothingKeptYet(s: State, keep: Client -> bool)
    requires Valid(s)
    ensures KeptLists(s.queue, keep, s.queue.Keys) == s.queue && KeptMemo(s.memo, keep, s.queue.Keys) == s.memo
  {
  }

  /** A list of the same length is the same list; a head that is kept stays the head. */
  lemma KeptOrTouched(list: seq<Client>, keep: Client -> bool)
    requires list != []
    ensures |Filter(list, keep)| == |list| <==> forall c :: c in list ==> keep(c)
    ensures |Filter(list, keep)| == |list| ==> Filter(list, keep) == list
    ensures keep(list[0]) <==> Filter(list, keep) != [] && Filter(list, keep)[0] == list[0]
  {
    FilterLength(list, keep);
    if forall c :: c in list ==> keep(c) {
      FilterAll(list, keep);
    }
    if keep(list[0]) {
      FilterHead(list, keep);
    }
  }

  lemma KeepOneList(queue: map<Busid, seq<Client>>, keep: Client -> bool, todo: set<Busid>, b: Busid)
    requires b in queue && b in todo
    ensures var kept := Filter(queue[b], keep);
            KeptLists(queue, keep, todo - {b}) ==
            if kept != [] then KeptLists(queue, keep, todo)[b := kept] else KeptLists(queue, keep, todo) - {b}
  {
    hide Filter;
  }

  lemma KeepOneMemo(memo: map<Busid, Client>, keep: Client -> bool, todo: set<Busid>, b: Busid)
    requires b in todo
    ensures KeptMemo(memo, keep, todo - {b}) ==
            if b in memo && keep(memo[b]) then KeptMemo(memo, keep, todo) else KeptMemo(memo, keep, todo) - {b}
  {
  }

  /** One turn of the loop. */
  lemma KeepOne(s: State, keep: Client -> bool, todo: set<Busid>, b: Busid)
    requires Valid(s) && todo <= s.queue.Keys && b in todo
    ensures var lists, memo := KeptLists(s.queue, keep, todo), KeptMemo(s.memo, keep, todo);
            var kept := Filter(s.queue[b], keep);
            var rest := todo - {b};
            && (|kept| == |s.queue[b]| <==> forall c :: c in s.queue[b] ==> keep(c))
            && KeptLists(s.queue, keep, rest) ==
               (if |kept| == |s.queue[b]| then lists else if kept != [] then lists[b := kept] else lists - {b})
            && KeptMemo(s.memo, keep, rest) ==
               if |kept| == |s.queue[b]| || (kept != [] && b in memo && memo[b] == kept[0]) then memo else memo - {b}
  {
    hide Filter;
    KeptOrTouched(s.queue[b], keep);
    KeepOneList(s.queue, keep, todo, b);
    KeepOneMemo(s.memo, keep, todo, b);
    var memo := KeptMemo(s.memo, keep, todo);
    assert b in KeptLists(s.queue, keep, todo) && KeptLists(s.queue, keep, todo)[b] == s.queue[b];
    assert b in memo <==> b in s.memo;
    assert b !in s.memo ==> memo - {b} == memo;
  }
}
