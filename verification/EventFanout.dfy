/** Device state events: every file object that has read once gets each event, through a pending read
    or a bounded backlog. */
module EventFanout {

  type DeviceState = nat  // identifies a device_state

  /** What the framework does when an event is offered to a reader. */
  datatype Fate = Works | RetrieveFails | AddFails

  // ----- one reader, as a value -----

  /** got: the events its reads were completed with. */
  datatype View = View(subscribed: bool, backlog: seq<DeviceState>, pending: nat, got: seq<DeviceState>)

  function FreshView(): View { View(false, [], 0, []) }

  function Appended(backlog: seq<DeviceState>, evt: DeviceState, max: nat): (r: seq<DeviceState>)
    ensures |backlog| <= max ==> |r| <= max
  {
    var all := backlog + [evt];
    if |all| > max then all[1..] else all
  }

  /** process_event for one subscribed reader */
  function OfferedView(v: View, evt: DeviceState, fate: Fate, max: nat): View {
    if fate.RetrieveFails? then v
    else if v.pending > 0 then v.(pending := v.pending - 1, got := v.got + [evt])
    else if fate.AddFails? then v
    else v.(backlog := Appended(v.backlog, evt, max))
  }

  /** device_read */
  function ReadView(v: View, lengthOk: bool, forwarded: bool): View {
    if !lengthOk then v
    else if v.backlog != [] then View(true, v.backlog[1..], v.pending, v.got + [v.backlog[0]])
    else if forwarded then View(true, v.backlog, v.pending + 1, v.got)
    else v.(subscribed := true)
  }

  /** A read of the right length subscribes. It is completed with the oldest event if there is one; if not, it waits
      in the manual queue, unless that takes no more. */
  lemma ReadingExactly(v: View, forwarded: bool)
    ensures var n := ReadView(v, true, forwarded);
            && n.subscribed
            && (v.backlog != [] ==>
                  n.got == v.got + [v.backlog[0]] && n.backlog == v.backlog[1..] && n.pending == v.pending)
            && (v.backlog == [] ==>
                  n.got == v.got && n.backlog == [] && n.pending == v.pending + if forwarded then 1 else 0)
  {
  }

  /** An event completes a read that waits; if none does it joins the backlog, and if that is full by then the oldest
      one leaves. */
  lemma OfferingExactly(v: View, evt: DeviceState, max: nat)
    requires v.pending > 0 ==> v.backlog == []
    ensures var n := OfferedView(v, evt, Works, max);
            && n.subscribed == v.subscribed
            && (v.pending > 0 ==> n.got == v.got + [evt] && n.pending == v.pending - 1 && n.backlog == v.backlog)
            && (v.pending == 0 ==>
                  && n.got == v.got && n.pending == 0
                  && n.backlog == if |v.backlog| < max then v.backlog + [evt] else (v.backlog + [evt])[1..])
    ensures OfferedView(v, evt, RetrieveFails, max) == v
  {
  }

  // ----- the objects -----

  /** fileobject_ctx */
  class Reader {
    var processEvents: bool
    var events: seq<DeviceState>
    var waiting: nat  // its reads in the manual queue
    ghost var got: seq<DeviceState>

    constructor ()
      ensures Value() == FreshView()
    {
      processEvents, events, waiting, got := false, [], 0, [];
    }

    ghost function Value(): View
      reads this
    {
      View(processEvents, events, waiting, got)
    }

    /** A read of the right length: the oldest event of the backlog, or the manual queue. */
    method TakeRead(forwarded: bool)
      modifies this
      ensures Value() == ReadView(old(Value()), true, forwarded)
    {
      processEvents := true;
      if |events| > 0 {
        got := got + [events[0]];
        events := events[1..];
      } else if forwarded {
        waiting := waiting + 1;
      }
    }

    method ProcessEvent(evt: DeviceState, fate: Fate, maxEvents: nat)
      requires waiting > 0 ==> events == []
      modifies this
      ensures Value() == OfferedView(old(Value()), evt, fate, maxEvents)
    {
      if fate.RetrieveFails? {
        return;
      }
      if waiting > 0 {
        assert |events| == 0;
        waiting := waiting - 1;
        got := got + [evt];
      } else if !fate.AddFails? {
        events := events + [evt];
        if |events| > maxEvents {
          events := events[1..];
        }
      }
    }
  }

  function Count(flags: seq<bool>): (n: nat) {
    if flags == [] then 0 else Count(flags[1..]) + if flags[0] then 1 else 0
  }

  lemma {:induction false} CountSplit(a: seq<bool>, b: seq<bool>)
    ensures Count(a + b) == Count(a) + Count(b)
  {
    if a == [] {
      assert a + b == b;
    } else {
      assert (a + b)[1..] == a[1..] + b;
      CountSplit(a[1..], b);
    }
  }

  lemma CountSplitOne(before: seq<bool>, b: bool, after: seq<bool>)
    ensures Count(before + ([b] + after)) == Count(before) + Count(after) + if b then 1 else 0
  {
    CountSplit(before, [b] + after);
    assert ([b] + after)[1..] == after;
  }

  lemma CountUpdate(flags: seq<bool>, i: nat, b: bool)
    requires i < |flags|
    ensures Count(flags[i := b]) + (if flags[i] then 1 else 0) == Count(flags) + if b then 1 else 0
  {
    hide Count;
    assert flags == flags[..i] + ([flags[i]] + flags[i + 1..]);
    assert flags[i := b] == flags[..i] + ([b] + flags[i + 1..]);
    CountSplitOne(flags[..i], flags[i], flags[i + 1..]);
    CountSplitOne(flags[..i], b, flags[i + 1..]);
  }

  lemma CountRemove(flags: seq<bool>, i: nat)
    requires i < |flags|
    ensures Count(flags) == Count(flags[..i] + flags[i + 1..]) + if flags[i] then 1 else 0
  {
    hide Count;
    assert flags == flags[..i] + ([flags[i]] + flags[i + 1..]);
    CountSplitOne(flags[..i], flags[i], flags[i + 1..]);
    CountSplit(flags[..i], flags[i + 1..]);
  }

  lemma NoFlags()
    ensures Count([]) == 0
  {
  }

  lemma OneFlag(b: bool)
    ensures Count([b]) == if b then 1 else 0
  {
  }

  lemma OfferIsGood(v: View, evt: DeviceState, fate: Fate, max: nat)
    requires GoodView(v, max)
    ensures GoodView(OfferedView(v, evt, fate, max), max) && OfferedView(v, evt, fate, max).subscribed == v.subscribed
    ensures v.pending > 0 ==> v.backlog == []
  {
  }

  lemma WrongLength(v: View, forwarded: bool)
    ensures ReadView(v, false, forwarded) == v
  {
  }

  lemma ReadIsGood(v: View, lengthOk: bool, forwarded: bool, max: nat)
    requires GoodView(v, max)
    ensures GoodView(ReadView(v, lengthOk, forwarded), max)
    ensures lengthOk ==> ReadView(v, lengthOk, forwarded).subscribed
  {
  }

  ghost function Flags(readers: seq<Reader>): (f: seq<bool>)
    reads readers
    ensures |f| == |readers|
    ensures forall i | 0 <= i < |f| :: f[i] == readers[i].processEvents
  {
    seq(|readers|, i requires 0 <= i < |readers| reads readers => readers[i].processEvents)
  }

  ghost predicate Distinct(readers: seq<Reader>) {
    forall i, j | 0 <= i < j < |readers| :: readers[i] != readers[j]
  }

  ghost predicate AllGood(readers: seq<Reader>, max: nat)
    reads readers
  {
    forall r | r in readers :: GoodView(r.Value(), max)
  }

  lemma OneReader(readers: seq<Reader>, i: nat, max: nat)
    requires i < |readers| && Distinct(readers) && AllGood(readers, max)
    ensures forall j | 0 <= j < |readers| && j != i :: readers[j] != readers[i]
    ensures forall j | 0 <= j < |readers| :: GoodView(readers[j].Value(), max)
  {
  }

  /** One reader of the list has changed. */
  lemma OneChanged(readers: seq<Reader>, i: nat, flags: seq<bool>, max: nat)
    requires i < |readers| == |flags|
    requires forall j | 0 <= j < |readers| && j != i :: readers[j].processEvents == flags[j]
    requires forall j | 0 <= j < |readers| :: GoodView(readers[j].Value(), max)
    ensures Flags(readers) == flags[i := readers[i].processEvents] && AllGood(readers, max)
  {
  }

  lemma OneLeft(readers: seq<Reader>, i: nat, max: nat)
    requires i < |readers| && Distinct(readers) && AllGood(readers, max)
    ensures var left := readers[..i] + readers[i + 1..];
            && Distinct(left) && AllGood(left, max)
            && Flags(left) == Flags(readers)[..i] + Flags(readers)[i + 1..]
            && forall r :: r in left <==> r in readers && r != readers[i]
  {
    var left := readers[..i] + readers[i + 1..];
    assert forall j | 0 <= j < |left| :: left[j] == readers[if j < i then j else j + 1];
    forall r | r in readers && r != readers[i] ensures r in left {
      var j :| 0 <= j < |readers| && readers[j] == r;
      assert left[if j < i then j else j - 1] == r;
    }
  }

  /** vhci_ctx, as far as events go; every method is one stretch under events_lock. */
  class Hub {
    const devicesCnt: nat
    var fileObjects: seq<Reader>
    var eventsSubscribers: int

    constructor (devicesCnt: nat)
      ensures Valid() && fileObjects == [] && this.devicesCnt == devicesCnt
    {
      this.devicesCnt := devicesCnt;
      fileObjects, eventsSubscribers := [], 0;
    }

    /** The counter is the number of subscribed readers; a read waits only on an empty backlog, and no
        backlog is longer than four events a port. */
    ghost predicate Valid()
      reads this, fileObjects
    {
      && Distinct(fileObjects) && eventsSubscribers == Count(Flags(fileObjects))
      && AllGood(fileObjects, 4 * devicesCnt)
    }

    /** device_file_create */
    method Open(reader: Reader)
      requires Valid() && reader !in fileObjects && reader.Value() == FreshView()
      modifies this`fileObjects
      ensures Valid() && fileObjects == old(fileObjects) + [reader]
    {
      ghost var flags := Flags(fileObjects);
      fileObjects := fileObjects + [reader];
      CountSplit(flags, [false]);
      assert Flags(fileObjects) == flags + [false];
    }

    /** file_cleanup */
    method Cleanup(reader: Reader)
      requires Valid() && reader in fileObjects
      modifies this`fileObjects, this`eventsSubscribers
      ensures Valid() && reader !in fileObjects
      ensures forall r :: r in fileObjects <==> r in old(fileObjects) && r != reader
    {
      hide Count, Distinct, AllGood, Flags;
      var i := 0;
      while fileObjects[i] != reader
        invariant i < |fileObjects| && reader !in fileObjects[..i]
        decreases |fileObjects| - i
      {
        i := i + 1;
      }
      OneLeft(fileObjects, i, 4 * devicesCnt);
      CountRemove(Flags(fileObjects), i);
      fileObjects := fileObjects[..i] + fileObjects[i + 1..];
      if reader.processEvents {
        eventsSubscribers := eventsSubscribers - 1;
      }
    }

    /** device_read */
    method Read(reader: Reader, lengthOk: bool, forwarded: bool)
      requires Valid() && reader in fileObjects
      modifies this`eventsSubscribers, reader
      ensures Valid() && reader.Value() == ReadView(old(reader.Value()), lengthOk, forwarded)
    {
      hide Count, GoodView, ReadView, Distinct, AllGood, Flags;
      if !lengthOk {
        WrongLength(reader.Value(), forwarded);
        return;
      }
      ghost var i :| 0 <= i < |fileObjects| && fileObjects[i] == reader;
      ghost var flags := Flags(fileObjects);
      OneReader(fileObjects, i, 4 * devicesCnt);
      ReadIsGood(reader.Value(), lengthOk, forwarded, 4 * devicesCnt);
      CountUpdate(flags, i, true);
      if !reader.processEvents {
        eventsSubscribers := eventsSubscribers + 1;
      }
      reader.TakeRead(forwarded);
      assert reader.Value().subscribed;
      assert forall j | 0 <= j < |fileObjects| && j != i :: fileObjects[j].Value() == old(fileObjects[j].Value());
      OneChanged(fileObjects, i, flags, 4 * devicesCnt);
    }

    /** process_event; cnt is what its closing assertion compares with the counter. */
    method ProcessEvent(evt: DeviceState, fates: seq<Fate>) returns (cnt: int)
      requires Valid() && |fates| == |fileObjects|
      modifies fileObjects
      ensures Valid() && cnt == eventsSubscribers
      ensures forall i | 0 <= i < |fates| ::
                fileObjects[i].Value() ==
                if old(fileObjects[i].processEvents)
                then OfferedView(old(fileObjects[i].Value()), evt, fates[i], 4 * devicesCnt)
                else old(fileObjects[i].Value())
    {
      hide Count, OfferedView, GoodView;
      cnt := 0;
      ghost var flags := Flags(fileObjects);
      NoFlags();
      for i := 0 to |fileObjects|
        invariant Flags(fileObjects) == flags && cnt == Count(flags[..i])
        invariant forall j | 0 <= j < |fileObjects| :: GoodView(fileObjects[j].Value(), 4 * devicesCnt)
        invariant forall j | 0 <= j < i ::
            fileObjects[j].Value() ==
            if old(fileObjects[j].processEvents)
            then OfferedView(old(fileObjects[j].Value()), evt, fates[j], 4 * devicesCnt)
            else old(fileObjects[j].Value())
        invariant forall j | i <= j < |fileObjects| :: fileObjects[j].Value() == old(fileObjects[j].Value())
      {
        assert flags[..i + 1] == flags[..i] + [flags[i]];
        CountSplit(flags[..i], [flags[i]]);
        OneFlag(flags[i]);
        OfferIsGood(fileObjects[i].Value(), evt, fates[i], 4 * devicesCnt);
        if fileObjects[i].processEvents {
          fileObjects[i].ProcessEvent(evt, fates[i], 4 * devicesCnt);
          cnt := cnt + 1;
        }
      }
      assert flags[..|flags|] == flags;
    }
  }

  predicate GoodView(v: View, max: nat) {
    |v.backlog| <= max && (v.pending > 0 ==> v.backlog == [])
  }

  // ----- the life of one reader -----

  /** Cancelled: the framework takes back a pending read. */
  datatype Event =
    | Emitted(evt: DeviceState, fate: Fate)
    | Read(lengthOk: bool, forwarded: bool)
    | Cancelled

  function Step(v: View, e: Event, max: nat): View {
    match e
    case Emitted(evt, fate) => if v.subscribed then OfferedView(v, evt, fate, max) else v
    case Read(lengthOk, forwarded) => ReadView(v, lengthOk, forwarded)
    case Cancelled => if v.pending > 0 then v.(pending := v.pending - 1) else v
  }

  function After(events: seq<Event>, max: nat): View {
    if events == [] then FreshView() else Step(After(events[..|events| - 1], max), events[|events| - 1], max)
  }

  /** The events that reached the reader: emitted while it was subscribed, without a failure of the framework. */
  function Reached(events: seq<Event>, max: nat): seq<DeviceState> {
    if events == [] then []
    else
      var before := events[..|events| - 1];
      var v := After(before, max);
      match events[|events| - 1]
      case Emitted(evt, fate) =>
        if v.subscribed && !fate.RetrieveFails? && (v.pending > 0 || !fate.AddFails?)
        then Reached(before, max) + [evt] else Reached(before, max)
      case _ => Reached(before, max)
  }

  /** Which of the events that left the backlog were delivered; the others were dropped. */
  function Fates(events: seq<Event>, max: nat): seq<bool> {
    if events == [] then []
    else
      var before := events[..|events| - 1];
      var v := After(before, max);
      match events[|events| - 1]
      case Emitted(evt, fate) =>
        if !v.subscribed || fate.RetrieveFails? then Fates(before, max)
        else if v.pending > 0 then Fates(before, max) + [true]
        else if fate.Works? && |v.backlog| + 1 > max then Fates(before, max) + [false]
        else Fates(before, max)
      case Read(lengthOk, _) =>
        if lengthOk && v.backlog != [] then Fates(before, max) + [true] else Fates(before, max)
      case Cancelled => Fates(before, max)
  }

  /** The elements that are kept, in order. */
  function Kept(s: seq<DeviceState>, keep: seq<bool>): seq<DeviceState>
    requires |keep| <= |s|
  {
    if keep == [] then []
    else
      var n := |keep| - 1;
      Kept(s, keep[..n]) + if keep[n] then [s[n]] else []
  }

  lemma {:induction false} KeptPrefix(s: seq<DeviceState>, evt: DeviceState, keep: seq<bool>)
    requires |keep| <= |s|
    ensures Kept(s + [evt], keep) == Kept(s, keep)
  {
    if keep != [] {
      KeptPrefix(s, evt, keep[..|keep| - 1]);
    }
  }

  lemma KeptNext(s: seq<DeviceState>, keep: seq<bool>, b: bool)
    requires |keep| < |s|
    ensures Kept(s, keep + [b]) == Kept(s, keep) + if b then [s[|keep|]] else []
  {
    assert (keep + [b])[..|keep|] == keep;
  }

  /** Dropped means overtaken: when event k is dropped, max younger ones have reached the reader. */
  predicate DropsOnlyWhenFull(reached: seq<DeviceState>, fates: seq<bool>, max: nat) {
    forall k | 0 <= k < |fates| && !fates[k] :: k + max < |reached|
  }

  ghost predicate History(v: View, reached: seq<DeviceState>, fates: seq<bool>, max: nat) {
    && GoodView(v, max) && (v.pending > 0 || v.backlog != [] ==> v.subscribed)
    && |fates| + |v.backlog| == |reached|
    && v.backlog == reached[|fates|..]
    && v.got == Kept(reached, fates)
    && DropsOnlyWhenFull(reached, fates, max)
  }

  /** Every reader gets the events that reach it in the order they were emitted, each at most once; its
      backlog is always the latest of them, no longer than the bound, and empty while a read waits; and it
      loses an event only after as many younger ones as the bound have come in. */
  lemma {:induction false} EventsArriveInOrder(events: seq<Event>, max: nat)
    ensures History(After(events, max), Reached(events, max), Fates(events, max), max)
  {
    if events != [] {
      var n := |events| - 1;
      var before := events[..n];
      EventsArriveInOrder(before, max);
      StepKeepsHistory(After(before, max), Reached(before, max), Fates(before, max), events[n], max);
    }
  }

  lemma StepKeepsHistory(v: View, reached: seq<DeviceState>, fates: seq<bool>, e: Event, max: nat)
    requires History(v, reached, fates, max)
    ensures match e
            case Emitted(evt, fate) =>
              if !v.subscribed || fate.RetrieveFails? || (v.pending == 0 && fate.AddFails?)
              then History(Step(v, e, max), reached, fates, max)
              else if v.pending > 0 then History(Step(v, e, max), reached + [evt], fates + [true], max)
              else History(Step(v, e, max), reached + [evt],
                           if |v.backlog| + 1 > max then fates + [false] else fates, max)
            case Read(lengthOk, _) =>
              History(Step(v, e, max), reached, if lengthOk && v.backlog != [] then fates + [true] else fates, max)
            case Cancelled => History(Step(v, e, max), reached, fates, max)
  {
    match e
    case Emitted(evt, fate) =>
      KeptPrefix(reached, evt, fates);
      KeptNext(reached + [evt], fates, v.pending > 0);
    case Read(_, _) =>
      if v.backlog != [] {
        KeptNext(reached, fates, true);
      }
    case Cancelled =>
  }

  /** How many reads of the right length there have been, and how many of them were taken back or not taken up. */
  function Reads(events: seq<Event>): nat {
    if events == [] then 0
    else
      var e := events[|events| - 1];
      Reads(events[..|events| - 1]) + if e.Read? && e.lengthOk then 1 else 0
  }

  function Failed(events: seq<Event>, max: nat): nat {
    if events == [] then 0
    else
      var before := events[..|events| - 1];
      var v := After(before, max);
      Failed(before, max) +
      match events[|events| - 1]
      case Read(lengthOk, forwarded) => if lengthOk && v.backlog == [] && !forwarded then 1 else 0
      case Cancelled => if v.pending > 0 then 1 else 0
      case _ => 0
  }

  /** Each read gets one event, waits, or has failed or been cancelled; no read gets two, and none is forgotten. */
  lemma {:induction false} ReadsAreAccountedFor(events: seq<Event>, max: nat)
    ensures Reads(events) == |After(events, max).got| + After(events, max).pending + Failed(events, max)
  {
    if events != [] {
      ReadsAreAccountedFor(events[..|events| - 1], max);
    }
  }

  /** A reader that never falls behind by more than the bound loses nothing. */
  lemma NothingLostWithinTheBound(events: seq<Event>, max: nat)
    requires |Reached(events, max)| <= max
    ensures After(events, max).got + After(events, max).backlog == Reached(events, max)
  {
    EventsArriveInOrder(events, max);
    var reached, fates := Reached(events, max), Fates(events, max);
    AllKept(reached, fates);
    assert reached == reached[..|fates|] + reached[|fates|..];
  }

  lemma {:induction false} AllKept(s: seq<DeviceState>, keep: seq<bool>)
    requires |keep| <= |s| && forall k | 0 <= k < |keep| :: keep[k]
    ensures Kept(s, keep) == s[..|keep|]
  {
    if keep != [] {
      AllKept(s, keep[..|keep| - 1]);
    }
  }
}
