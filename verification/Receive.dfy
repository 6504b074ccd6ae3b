/** The PDU framer: socket bytes arrive in arbitrary chunks and leave as whole USB/IP responses. */
module Receive {
  import opened RingBuffer
  import opened Wrappers
  import opened Isochronous
  import opened PduHeader
  import opened RetSubmit

  /** The requests of the connection. lists: whether one with the number of this PDU is listed; urb: what it
      brings along; toWindows: the translation of packet status. */
  datatype Driver = Driver(lists: (nat, Header) -> bool, urb: (nat, Header) -> Urb, toWindows: nat -> nat)
  {
    /** ret_command: only RET_SUBMIT looks for a request. */
    predicate Claims(index: nat, h: Header) { h.command == RET_SUBMIT && lists(index, h) }
  }

  datatype Pdu = Pdu(header: Header, bytes: seq<Byte>, claimed: bool)

  /** Hangs: an unclaimed PDU of size zero is skipped for ever. */
  datatype Outcome = Accepted | Rejected | Hangs

  datatype Verdict = NextPdu | NeedBytes | Stop(outcome: Outcome)

  datatype Result = Result(pdus: seq<Pdu>, rest: seq<Byte>, capacity: nat, outcome: Outcome)
  {
    function After(before: seq<Pdu>): Result { Result(before + pdus, rest, capacity, outcome) }
  }

  function HeaderOf(s: seq<Byte>): Option<Header> {
    if |s| < HEADER_SIZE then None else Validate(s[..HEADER_SIZE])
  }

  /** ret_submit takes exactly the payload off a ring with these contents. */
  predicate Takes(driver: Driver, index: nat, h: Header, contents: seq<Byte>)
    requires HEADER_SIZE <= |contents|
  {
    TakesPayload(driver.urb(index, h), h, contents[HEADER_SIZE..])
  }

  /** The outcome of received as a function of everything not framed yet: s is the ring's contents
      followed by the chunk, index the number of PDUs before it on this connection. */
  function Process(driver: Driver, index: nat, capacity: nat, s: seq<Byte>, hasMemory: bool): (p: Result)
    requires capacity >= HEADER_SIZE
    ensures p.capacity >= capacity
    decreases |s|
  {
    if |s| < HEADER_SIZE then
      Result([], s, capacity, Accepted)
    else if HeaderOf(s).None? then
      Result([], s, capacity, Rejected)
    else
      var h := HeaderOf(s).value;
      var total := TotalSize(h);
      if capacity < total then
        if total <= MAX_BYTES && hasMemory && |s| <= capacity then
          CapacityIsEnough(total);
          Result([], s, CapacityFor(total), Accepted)
        else
          Result([], s, capacity, Rejected)
      else if |s| < total then
        Result([], s, capacity, Accepted)
      else
        var claimed := driver.Claims(index, h);
        var pdu := Pdu(h, s[..total], claimed);
        if claimed && !Takes(driver, index, h, s[..Min(|s|, capacity)]) then
          Result([pdu], s[total..], capacity, Rejected)
        else if total == 0 then
          Result([], s, capacity, Hangs)
        else
          Process(driver, index + 1, capacity, s[total..], hasMemory).After([pdu])
  }

  /** One PDU of Process, complete in a ring that holds the first capacity bytes of s. */
  lemma ProcessOne(driver: Driver, index: nat, capacity: nat, s: seq<Byte>, hasMemory: bool)
    requires HEADER_SIZE <= capacity && HeaderOf(s).Some?
    requires TotalSize(HeaderOf(s).value) <= Min(|s|, capacity)
    ensures var h := HeaderOf(s).value;
            var total := TotalSize(h);
            var claimed := driver.Claims(index, h);
            var pdu := Pdu(h, s[..total], claimed);
            Process(driver, index, capacity, s, hasMemory) ==
            if claimed && !Takes(driver, index, h, s[..Min(|s|, capacity)]) then
              Result([pdu], s[total..], capacity, Rejected)
            else if total == 0 then Result([], s, capacity, Hangs)
            else Process(driver, index + 1, capacity, s[total..], hasMemory).After([pdu])
  {
    hide Validate, TotalSize, Takes;
  }

  /** Process when no PDU is complete in the ring: it needs more bytes, a larger ring, or is broken. */
  lemma ProcessNone(driver: Driver, index: nat, capacity: nat, s: seq<Byte>, hasMemory: bool)
    requires HEADER_SIZE <= capacity
    requires HeaderOf(s).Some? ==> Min(|s|, capacity) < TotalSize(HeaderOf(s).value)
    ensures var p := Process(driver, index, capacity, s, hasMemory);
            && p.pdus == [] && p.rest == s
            && (|s| < HEADER_SIZE ==> p.outcome == Accepted && p.capacity == capacity)
            && (|s| >= HEADER_SIZE && HeaderOf(s).None? ==> p.outcome == Rejected)
            && (HeaderOf(s).Some? ==>
                  var total := TotalSize(HeaderOf(s).value);
                  if total <= capacity then p.outcome == Accepted && p.capacity == capacity
                  else if total <= MAX_BYTES && hasMemory && |s| <= capacity
                  then p.outcome == Accepted && p.capacity == CapacityFor(total)
                  else p.outcome == Rejected)
  {
  }

  lemma ProcessShort(driver: Driver, index: nat, capacity: nat, s: seq<Byte>, hasMemory: bool)
    requires HEADER_SIZE <= capacity && |s| < HEADER_SIZE
    ensures Process(driver, index, capacity, s, hasMemory) == Result([], s, capacity, Accepted)
  {
  }

  lemma AfterAfter(r: Result, a: seq<Pdu>, b: seq<Pdu>)
    ensures r.After(a).After(b) == r.After(b + a)
  {
    assert b + (a + r.pdus) == b + a + r.pdus;
  }

  lemma NothingNew(r: Result)
    ensures r.After([]) == r
  {
  }

  lemma AllNew(r: Result)
    ensures r.(pdus := []).After(r.pdus) == r
  {
  }

  lemma FinalAfter(r: Result, before: seq<Pdu>)
    ensures var f := r.After(before);
            f.pdus == before + r.pdus && f.rest == r.rest && f.capacity == r.capacity && f.outcome == r.outcome
    ensures r.pdus == [] ==> r.After(before).pdus == before
  {
  }

  class Receiver {
    const ring: Ring
    const driver: Driver
    var delivered: seq<Pdu>

    ghost predicate Valid()
      reads this, ring
    {
      ring.Valid() && ring.capacity >= HEADER_SIZE
    }

    /** start_receive_data: a single page for the beginning. */
    constructor (ring: Ring, driver: Driver)
      requires ring.Valid() && ring.capacity >= HEADER_SIZE
      ensures Valid() && this.ring == ring && this.driver == driver && delivered == []
    {
      this.ring, this.driver, delivered := ring, driver, [];
    }

    /** peek_hdr: whether the ring holds a header, and its raw bytes. */
    method PeekHdr() returns (raw: Option<seq<Byte>>)
      requires Valid()
      ensures raw == if ring.size >= HEADER_SIZE then Some(ring.Contents()[..HEADER_SIZE]) else None
    {
      if ring.size < HEADER_SIZE {
        return None;
      }
      var bytes := ring.Peek(HEADER_SIZE);
      return Some(bytes);
    }

    /** ret_submit, with the memory of the URB that waits for this PDU. */
    method SubmitUrb(urb: Urb, h: Header)
      requires Valid()
      modifies ring`tail, ring`size
      ensures Valid() && ring.Contents() == old(ring.Contents())[Taken(urb, h, old(ring.Contents()))..]
    {
      hide Ring.Contents, Ring.Valid, Taken;
      var urbPackets := if urb.Isoch? then urb.packets else [];
      var packets := new Packet[|urbPackets|](i requires 0 <= i < |urbPackets| => urbPackets[i]);
      assert packets[..] == urbPackets;
      var buffer := new Byte[if urb.NoUrb? then 0 else urb.length];
      var _, _ := Submit(urb, h, packets, buffer, ring, driver.toWindows);
    }

    /** ret_submit as the framer sees it: exact says whether it took the payload and nothing else. */
    method Finish(index: nat, h: Header, expected: nat) returns (exact: bool)
      requires Valid() && expected == TotalSize(h) <= ring.size && HEADER_SIZE <= ring.size
      modifies ring`tail, ring`size
      ensures Valid() && exact == Takes(driver, index, h, old(ring.Contents()))
      ensures exact ==> HEADER_SIZE <= expected && ring.Contents() == old(ring.Contents())[expected..]
    {
      hide TotalSize, Ring.Contents, Taken;
      ghost var s := ring.Contents();
      var left := ring.size - expected;
      var _ := ring.Skip(HEADER_SIZE);
      ghost var behind := ring.Contents();
      assert behind == s[HEADER_SIZE..];
      SubmitUrb(driver.urb(index, h), h);
      exact := ring.size == left;
      assert ring.Contents() == s[HEADER_SIZE + Taken(driver.urb(index, h), h, behind)..];
    }

    /** ret_command and, if the PDU is claimed, ret_submit for a PDU that is complete. */
    method Deliver(h: Header, expected: nat) returns (outcome: Outcome)
      requires Valid() && expected == TotalSize(h) <= ring.size && HEADER_SIZE <= ring.size
      modifies this`delivered, ring`tail, ring`size
      ensures Valid()
      ensures var index, s := |old(delivered)|, old(ring.Contents());
              var claimed := driver.Claims(index, h);
              && outcome == (if !claimed then if expected == 0 then Hangs else Accepted
                             else if Takes(driver, index, h, s) then Accepted else Rejected)
              && delivered == old(delivered) + (if outcome == Hangs then [] else [Pdu(h, s[..expected], claimed)])
              && (outcome == Accepted ==> expected > 0 && ring.Contents() == s[expected..])
    {
      hide TotalSize, Validate, Ring.Contents, Takes;
      var index := |delivered|;
      var bytes := ring.Peek(expected);
      if !driver.Claims(index, h) {
        if expected == 0 {
          return Hangs;
        }
        var _ := ring.Skip(expected);
        delivered := delivered + [Pdu(h, bytes, false)];
        return Accepted;
      }
      var exact := Finish(index, h, expected);
      delivered := delivered + [Pdu(h, bytes, true)];
      return if exact then Accepted else Rejected;
    }

    /** The start of a turn: store what fits and look for a header that was not there before. */
    method Fill(data: seq<Byte>, raw: Option<seq<Byte>>) returns (rest: seq<Byte>, raw': Option<seq<Byte>>)
      requires Valid()
      requires raw == if ring.size >= HEADER_SIZE then Some(ring.Contents()[..HEADER_SIZE]) else None
      modifies ring`head, ring`size, ring.buf
      ensures Valid()
      ensures ring.Contents() + rest == old(ring.Contents()) + data
      ensures rest == [] || ring.size == ring.capacity
      ensures raw' == if ring.size >= HEADER_SIZE then Some(ring.Contents()[..HEADER_SIZE]) else None
      ensures raw'.Some? ==> raw'.value == (old(ring.Contents()) + data)[..HEADER_SIZE]
    {
      hide Ring.Contents;
      var n := ring.Write(data);
      rest := data[n..];
      assert ring.Contents() + rest == old(ring.Contents()) + data;
      raw' := raw;
      assert ring.size >= HEADER_SIZE ==>
        ring.Contents()[..HEADER_SIZE] == (ring.Contents() + rest)[..HEADER_SIZE];
      assert raw.Some? ==>
        raw.value == (old(ring.Contents()) + data)[..HEADER_SIZE];
      if n > 0 && raw.None? {
        raw' := PeekHdr();
      }
    }

    /** The rest of a turn: a header is in the ring, whose bytes are followed by unwritten ones. */
    method Frame(raw: seq<Byte>, hasMemory: bool, ghost unwritten: seq<Byte>) returns (verdict: Verdict)
      requires Valid() && HEADER_SIZE <= ring.size && raw == ring.Contents()[..HEADER_SIZE]
      requires unwritten == [] || ring.size == ring.capacity
      modifies this, ring
      ensures Valid()
      ensures var s := old(ring.Contents()) + unwritten;
              var p := Process(driver, |old(delivered)|, old(ring.capacity), s, hasMemory);
              match verdict
              case NextPdu =>
                && ring.size < old(ring.size) && ring.buf == old(ring.buf)
                && |delivered| == |old(delivered)| + 1 && delivered == old(delivered) + [delivered[|old(delivered)|]]
                && p == Process(driver, |delivered|, ring.capacity, ring.Contents() + unwritten, hasMemory)
                        .After([delivered[|old(delivered)|]])
              case NeedBytes =>
                && (ring.buf == old(ring.buf) || fresh(ring.buf))
                && delivered == old(delivered) && p.pdus == [] && ring.Contents() == old(ring.Contents())
                && (if unwritten == [] then p == Result([], ring.Contents(), ring.capacity, Accepted)
                    else p.outcome == Rejected)
              case Stop(outcome) =>
                && (ring.buf == old(ring.buf) || fresh(ring.buf))
                && outcome == p.outcome != Accepted && delivered == old(delivered) + p.pdus
    {
      hide Process, Validate, TotalSize, SignedSize, Ring.Contents, CapacityFor, Takes, Meets;
      ghost var s := ring.Contents() + unwritten;
      assert s[..HEADER_SIZE] == raw;
      assert unwritten == [] ==> s == ring.Contents();
      var hdr := Validate(raw);
      if hdr.None? {
        ProcessNone(driver, |delivered|, ring.capacity, s, hasMemory);
        return Stop(Rejected);
      }
      var expected := TotalSize(hdr.value);
      if ring.size < expected {
        ProcessNone(driver, |delivered|, ring.capacity, s, hasMemory);
      }
      if ring.capacity < expected {
        if expected <= MAX_BYTES {
          CapacityIsEnough(expected);
        }
        var ok := ring.Realloc(expected, hasMemory);
        if !ok {
          return Stop(Rejected);
        }
      }
      if ring.size < expected {
        return NeedBytes;
      }
      ProcessOne(driver, |delivered|, ring.capacity, s, hasMemory);
      assert ring.Contents() == s[..Min(|s|, ring.capacity)];
      assert ring.Contents()[..expected] == s[..expected];
      var outcome := Deliver(hdr.value, expected);
      if outcome != Accepted {
        return Stop(outcome);
      }
      assert ring.Contents() + unwritten == s[expected..];
      return NextPdu;
    }

    /** What the spec makes of the ring's contents and the bytes behind them. */
    ghost function Todo(unwritten: seq<Byte>, hasMemory: bool): Result
      requires Valid()
      reads this, ring, ring.buf
    {
      Process(driver, |delivered|, ring.capacity, ring.Contents() + unwritten, hasMemory)
    }

    /** One turn of the loop of received. todo: the spec before it, left: the spec after it, news: the PDUs in
        between. */
    method Turn(data: seq<Byte>, raw: Option<seq<Byte>>, hasMemory: bool, ghost todo: Result)
      returns (rest: seq<Byte>, raw': Option<seq<Byte>>, verdict: Verdict, ghost left: Result, ghost news: seq<Pdu>)
      requires Valid() && todo == Todo(data, hasMemory)
      requires raw == if ring.size >= HEADER_SIZE then Some(ring.Contents()[..HEADER_SIZE]) else None
      modifies this, ring, ring.buf
      ensures Valid() && (ring.buf == old(ring.buf) || fresh(ring.buf))
      ensures todo == left.After(news) && delivered == old(delivered) + news
      ensures match verdict
              case NextPdu =>
                && ring.buf == old(ring.buf) && ring.size + |rest| < old(ring.size) + |data|
                && (raw' == if ring.size >= HEADER_SIZE then Some(ring.Contents()[..HEADER_SIZE]) else None)
                && left == Todo(rest, hasMemory)
              case NeedBytes =>
                && left.pdus == []
                && (if rest == [] then left == Result([], ring.Contents(), ring.capacity, Accepted)
                    else left.outcome == Rejected)
              case Stop(outcome) =>
                outcome == left.outcome != Accepted && left.pdus == []
    {
      hide Process, HeaderOf, Validate, TotalSize, SignedSize, CapacityFor, Takes, Ring.Contents, Result.After, Meets;
      rest, raw' := Fill(data, raw);
      news := [];
      if raw'.None? {
        assert ring.Contents() + rest == ring.Contents();
        ProcessShort(driver, |delivered|, ring.capacity, ring.Contents(), hasMemory);
        NothingNew(todo);
        return rest, raw', NeedBytes, todo, [];
      }
      verdict := Frame(raw'.value, hasMemory, rest);
      if verdict.NextPdu? {
        raw' := PeekHdr();
        left, news := Todo(rest, hasMemory), [delivered[|old(delivered)|]];
      } else {
        left, news := todo.(pdus := []), todo.pdus;
        AllNew(todo);
      }
    }

    method Received(chunk: seq<Byte>, hasMemory: bool) returns (outcome: Outcome)
      requires Valid()
      modifies this, ring, ring.buf
      ensures Valid() && (ring.buf == old(ring.buf) || fresh(ring.buf))
      ensures var p := Process(driver, |old(delivered)|, old(ring.capacity), old(ring.Contents()) + chunk, hasMemory);
              && outcome == p.outcome && delivered == old(delivered) + p.pdus
              && (outcome == Accepted ==> ring.Contents() == p.rest && ring.capacity == p.capacity)
    {
      hide Process, HeaderOf, Ring.Contents;
      ghost var final := Process(driver, |delivered|, ring.capacity, ring.Contents() + chunk, hasMemory);
      ghost var left, done := final, [];
      assert left == Todo(chunk, hasMemory) && final == left.After(done);
      hide Todo, Result.After;
      var data, verdict := chunk, NextPdu;
      var raw := PeekHdr();
      while data != [] || raw.Some?
        invariant Valid() && ring.buf == old(ring.buf) && verdict.NextPdu?
        invariant raw == if ring.size >= HEADER_SIZE then Some(ring.Contents()[..HEADER_SIZE]) else None
        invariant left == Todo(data, hasMemory)
        invariant delivered == old(delivered) + done && final == left.After(done)
        decreases ring.size + |data|
      {
        ghost var news;
        data, raw, verdict, left, news := Turn(data, raw, hasMemory, left);
        AfterAfter(left, news, done);
        assert delivered == old(delivered) + (done + news);
        done := done + news;
        if !verdict.NextPdu? {
          break;
        }
      }
      if verdict.NextPdu? {
        ShortTodo(data, hasMemory);
      }
      FinalAfter(left, done);
      return if verdict.Stop? then verdict.outcome else if data == [] then Accepted else Rejected;
    }

    lemma ShortTodo(data: seq<Byte>, hasMemory: bool)
      requires Valid() && data == [] && ring.size < HEADER_SIZE
      ensures Todo(data, hasMemory) == Result([], ring.Contents(), ring.capacity, Accepted)
    {
      hide Ring.Contents;
      assert ring.Contents() + data == ring.Contents();
    }
  }
}
