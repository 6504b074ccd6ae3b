/** What the framer of Receive does to a whole byte stream, however the network cuts it. */
module ReceiveStream {
  import opened RingBuffer
  import opened NtStatus
  import opened Isochronous
  import opened PduHeader
  import opened RetSubmit
  import opened Receive
  import opened Wrappers

  datatype Frame = Frame(header: Header, bytes: seq<Byte>)

  datatype Framing = Framing(frames: seq<Frame>, rest: seq<Byte>)

  /** The PDUs at the front of a byte stream; it stops at an incomplete, invalid or empty one. */
  function Frames(s: seq<Byte>): Framing
    decreases |s|
  {
    if HeaderOf(s).None? then Framing([], s)
    else
      var h := HeaderOf(s).value;
      var total := TotalSize(h);
      if total == 0 || |s| < total then Framing([], s)
      else
        var tail := Frames(s[total..]);
        Framing([Frame(h, s[..total])] + tail.frames, tail.rest)
  }

  datatype Message = Message(header: Header, payload: seq<Byte>)

  datatype Reading = Reading(messages: seq<Message>, rest: seq<Byte>, broken: bool)

  /** get_payload_size, in size_t arithmetic. */
  function PayloadSize(h: Header): nat {
    (TotalSize(h) - HEADER_SIZE) % 0x1_0000_0000_0000_0000
  }

  /** recv_loop: read a header, then its payload. A payload size that does not fit ULONG is refused
      by drain_payload, and recv_payload refuses a negative actual length. */
  function RecvLoop(s: seq<Byte>): Reading
    decreases |s|
  {
    if |s| < HEADER_SIZE then Reading([], s, false)
    else if HeaderOf(s).None? then Reading([], s, true)
    else
      var h := HeaderOf(s).value;
      var n := PayloadSize(h);
      if n >= 0x1_0000_0000 then Reading([], s, true)
      else if |s| < HEADER_SIZE + n then Reading([], s, false)
      else
        var tail := RecvLoop(s[HEADER_SIZE + n..]);
        Reading([Message(h, s[HEADER_SIZE..HEADER_SIZE + n])] + tail.messages, tail.rest, tail.broken)
  }

  function FramesOf(pdus: seq<Pdu>): (fs: seq<Frame>)
    ensures |fs| == |pdus|
    ensures forall i | 0 <= i < |pdus| :: fs[i] == Frame(pdus[i].header, pdus[i].bytes)
  {
    seq(|pdus|, i requires 0 <= i < |pdus| => Frame(pdus[i].header, pdus[i].bytes))
  }

  /** Every frame has room for its header. */
  predicate Whole(fs: seq<Frame>) {
    forall f | f in fs :: |f.bytes| >= HEADER_SIZE
  }

  function Messages(fs: seq<Frame>): (ms: seq<Message>)
    requires Whole(fs)
    ensures |ms| == |fs|
  {
    seq(|fs|, i requires 0 <= i < |fs| => assert fs[i] in fs; Message(fs[i].header, fs[i].bytes[HEADER_SIZE..]))
  }

  function BytesOf(fs: seq<Frame>): seq<Byte> {
    if fs == [] then [] else fs[0].bytes + BytesOf(fs[1..])
  }

  // ----- one call of received -----

  /** Each claimed PDU took exactly its payload off the ring, which then held as many of the bytes from that PDU
      on as fit; s are the bytes from the first of the PDUs on. */
  predicate AllTaken(driver: Driver, index: nat, capacity: nat, s: seq<Byte>, pdus: seq<Pdu>)
    decreases |pdus|
  {
    pdus == [] ||
    (&& HEADER_SIZE <= Min(|s|, capacity) && |pdus[0].bytes| <= |s|
     && (pdus[0].claimed ==> Takes(driver, index, pdus[0].header, s[..Min(|s|, capacity)]))
     && AllTaken(driver, index + 1, capacity, s[|pdus[0].bytes|..], pdus[1..]))
  }

  /** An accepted call delivers exactly the frames of what was in the ring and in the chunk, and ret_submit took
      the payload of each claimed one. */
  lemma {:induction false} AcceptedFrames(driver: Driver, index: nat, capacity: nat, s: seq<Byte>, hasMemory: bool)
    requires capacity >= HEADER_SIZE && Process(driver, index, capacity, s, hasMemory).outcome == Accepted
    ensures var p := Process(driver, index, capacity, s, hasMemory);
            && Framing(FramesOf(p.pdus), p.rest) == Frames(s)
            && AllTaken(driver, index, capacity, s, p.pdus)
    ensures forall pdu | pdu in Process(driver, index, capacity, s, hasMemory).pdus && pdu.claimed ::
              |pdu.bytes| >= HEADER_SIZE
    decreases |s|
  {
    hide Process, Frames, Validate, TotalSize, Takes, AllTaken;
    var p := Process(driver, index, capacity, s, hasMemory);
    if HeaderOf(s).Some? && TotalSize(HeaderOf(s).value) <= Min(|s|, capacity) {
      var total := TotalSize(HeaderOf(s).value);
      ProcessOne(driver, index, capacity, s, hasMemory);
      FramesOnce(s);
      AcceptedFrames(driver, index + 1, capacity, s[total..], hasMemory);
      var q := Process(driver, index + 1, capacity, s[total..], hasMemory);
      assert FramesOf(p.pdus) == [Frame(HeaderOf(s).value, s[..total])] + FramesOf(q.pdus);
      OneMoreTaken(driver, index, capacity, s, p.pdus, q.pdus);
      HeaderIsTaken(driver, index, HeaderOf(s).value, s[..Min(|s|, capacity)]);
    } else {
      ProcessNone(driver, index, capacity, s, hasMemory);
      NoFrames(s);
      NoneTaken(driver, index, capacity, s);
    }
  }

  /** The header is always taken, so a request never takes a PDU of size zero. */
  lemma HeaderIsTaken(driver: Driver, index: nat, h: Header, contents: seq<Byte>)
    requires HEADER_SIZE <= |contents|
    ensures Takes(driver, index, h, contents) ==> TotalSize(h) >= HEADER_SIZE
  {
  }

  lemma NoneTaken(driver: Driver, index: nat, capacity: nat, s: seq<Byte>)
    ensures AllTaken(driver, index, capacity, s, [])
  {
  }

  lemma OneMoreTaken(driver: Driver, index: nat, capacity: nat, s: seq<Byte>, pdus: seq<Pdu>, more: seq<Pdu>)
    requires |pdus| == |more| + 1 && pdus[1..] == more && HEADER_SIZE <= Min(|s|, capacity)
    requires |pdus[0].bytes| <= |s| && AllTaken(driver, index + 1, capacity, s[|pdus[0].bytes|..], more)
    requires pdus[0].claimed ==> Takes(driver, index, pdus[0].header, s[..Min(|s|, capacity)])
    ensures AllTaken(driver, index, capacity, s, pdus)
  {
  }

  lemma FramesOnce(s: seq<Byte>)
    requires HeaderOf(s).Some? && 0 < TotalSize(HeaderOf(s).value) <= |s|
    ensures var h := HeaderOf(s).value;
            var total := TotalSize(h);
            Frames(s) == Framing([Frame(h, s[..total])] + Frames(s[total..]).frames, Frames(s[total..]).rest)
  {
    hide Validate, TotalSize;
  }

  lemma NoFrames(s: seq<Byte>)
    requires HeaderOf(s).None? || TotalSize(HeaderOf(s).value) == 0 || |s| < TotalSize(HeaderOf(s).value)
    ensures Frames(s) == Framing([], s)
  {
    hide Validate, TotalSize;
  }

  /** Framing a prefix first and the remainder later gives the same frames. */
  lemma {:induction false} FramesSplit(a: seq<Byte>, b: seq<Byte>)
    ensures var later := Frames(Frames(a).rest + b);
            Frames(a + b) == Framing(Frames(a).frames + later.frames, later.rest)
    decreases |a|
  {
    hide Validate, TotalSize, Frames;
    if HeaderOf(a).Some? && 0 < TotalSize(HeaderOf(a).value) <= |a| {
      var total := TotalSize(HeaderOf(a).value);
      assert (a + b)[..HEADER_SIZE] == a[..HEADER_SIZE];
      assert (a + b)[total..] == a[total..] + b;
      assert (a + b)[..total] == a[..total];
      FramesSplit(a[total..], b);
      FramesOnce(a);
      FramesOnce(a + b);
    } else {
      NoFrames(a);
    }
  }

  /** Nothing is lost or invented: frames and remainder are the stream. */
  lemma {:induction false} FramesConserveBytes(s: seq<Byte>)
    ensures BytesOf(Frames(s).frames) + Frames(s).rest == s
    decreases |s|
  {
    hide Validate, TotalSize, Frames;
    if HeaderOf(s).Some? && 0 < TotalSize(HeaderOf(s).value) <= |s| {
      var total := TotalSize(HeaderOf(s).value);
      FramesConserveBytes(s[total..]);
      FramesOnce(s);
      assert Frames(s).frames[1..] == Frames(s[total..]).frames;
      var tail := BytesOf(Frames(s[total..]).frames);
      assert s == s[..total] + s[total..];
      assert BytesOf(Frames(s).frames) == s[..total] + tail;
    } else {
      NoFrames(s);
    }
  }

  lemma PayloadSizes(h: Header)
    ensures if TotalSize(h) >= HEADER_SIZE then PayloadSize(h) == TotalSize(h) - HEADER_SIZE
            else PayloadSize(h) >= 0x1_0000_0000
  {
  }

  /** The frames are what recv_loop reads exactly when none of them is shorter than a header. */
  lemma {:induction false} FramesMatchRecvLoop(s: seq<Byte>)
    requires forall f | f in Frames(s).frames :: |f.bytes| < 0x1_0000_0000
    ensures if Whole(Frames(s).frames)
            then RecvLoop(s).messages == Messages(Frames(s).frames) && RecvLoop(s).rest == Frames(s).rest
            else |RecvLoop(s).messages| < |Frames(s).frames|
    decreases |s|, 1
  {
    hide Validate, TotalSize, PayloadSize;
    if HeaderOf(s).Some? {
      var h := HeaderOf(s).value;
      var total := TotalSize(h);
      PayloadSizes(h);
      if 0 < total <= |s| {
        FramesOnce(s);
        MatchOne(s);
      }
    }
  }

  lemma {:induction false} MatchOne(s: seq<Byte>)
    requires HeaderOf(s).Some? && 0 < TotalSize(HeaderOf(s).value) <= |s|
    requires forall f | f in Frames(s).frames :: |f.bytes| < 0x1_0000_0000
    ensures if Whole(Frames(s).frames)
            then RecvLoop(s).messages == Messages(Frames(s).frames) && RecvLoop(s).rest == Frames(s).rest
            else |RecvLoop(s).messages| < |Frames(s).frames|
    decreases |s|, 0
  {
    hide Validate, TotalSize, PayloadSize, Frames;
    FramesOnce(s);
    var h, fs := HeaderOf(s).value, Frames(s).frames;
    var total := TotalSize(h);
    assert fs[0] in fs && fs[0].bytes == s[..total];
    PayloadSizes(h);
    var rest := Frames(s[total..]).frames;
    assert fs[1..] == rest;
    forall f | f in rest
      ensures f in fs
    {
      var i :| 0 <= i < |rest| && rest[i] == f;
      assert fs[i + 1] == f;
    }
    FramesMatchRecvLoop(s[total..]);
    if total >= HEADER_SIZE {
      assert Whole(fs) <==> Whole(rest);
      if Whole(fs) {
        assert Messages(fs) == [Message(h, s[HEADER_SIZE..total])] + Messages(rest);
      }
    } else {
      assert !Whole(fs);
    }
  }

  // ----- any number of calls -----

  datatype Chunk = Chunk(bytes: seq<Byte>, hasMemory: bool)

  /** Successive calls of received until one of them is not accepted. */
  function Feed(driver: Driver, index: nat, capacity: nat, contents: seq<Byte>, chunks: seq<Chunk>): Result
    requires capacity >= HEADER_SIZE
    decreases |chunks|
  {
    if chunks == [] then Result([], contents, capacity, Accepted)
    else
      var p := Process(driver, index, capacity, contents + chunks[0].bytes, chunks[0].hasMemory);
      if p.outcome != Accepted then p
      else Feed(driver, index + |p.pdus|, p.capacity, p.rest, chunks[1..]).After(p.pdus)
  }

  function Stream(chunks: seq<Chunk>): seq<Byte> {
    if chunks == [] then [] else chunks[0].bytes + Stream(chunks[1..])
  }

  /** Chunk independence: as long as every call is accepted, the PDUs delivered and the bytes left in
      the ring depend on the concatenated stream only. */
  lemma {:induction false} ChunksDoNotMatter(
      driver: Driver, index: nat, capacity: nat, contents: seq<Byte>, chunks: seq<Chunk>)
    requires capacity >= HEADER_SIZE && Frames(contents).frames == []
    requires Feed(driver, index, capacity, contents, chunks).outcome == Accepted
    ensures var r := Feed(driver, index, capacity, contents, chunks);
            Framing(FramesOf(r.pdus), r.rest) == Frames(contents + Stream(chunks))
    ensures forall pdu | pdu in Feed(driver, index, capacity, contents, chunks).pdus && pdu.claimed ::
              |pdu.bytes| >= HEADER_SIZE
    decreases |chunks|
  {
    hide Frames, Process;
    if chunks == [] {
      FramesConserveBytes(contents);
      assert contents + Stream(chunks) == contents;
    } else {
      var s := contents + chunks[0].bytes;
      var p := Process(driver, index, capacity, s, chunks[0].hasMemory);
      AcceptedFrames(driver, index, capacity, s, chunks[0].hasMemory);
      FramesSplit(s, []);
      assert s + [] == s && p.rest + [] == p.rest;
      assert |Frames(p.rest).frames| == 0;
      ChunksDoNotMatter(driver, index + |p.pdus|, p.capacity, p.rest, chunks[1..]);
      FramesSplit(s, Stream(chunks[1..]));
      assert contents + Stream(chunks) == s + Stream(chunks[1..]);
      var q := Feed(driver, index + |p.pdus|, p.capacity, p.rest, chunks[1..]);
      assert FramesOf(p.pdus + q.pdus) == FramesOf(p.pdus) + FramesOf(q.pdus);
    }
  }

  /** The stream read in any accepted chunks is the stream read by recv_loop. */
  lemma ChunksMatchRecvLoop(driver: Driver, capacity: nat, chunks: seq<Chunk>)
    requires capacity >= HEADER_SIZE && Feed(driver, 0, capacity, [], chunks).outcome == Accepted
    requires forall pdu | pdu in Feed(driver, 0, capacity, [], chunks).pdus ::
               HEADER_SIZE <= |pdu.bytes| < 0x1_0000_0000
    ensures var r := Feed(driver, 0, capacity, [], chunks);
            && RecvLoop(Stream(chunks)).rest == r.rest
            && |RecvLoop(Stream(chunks)).messages| == |r.pdus|
            && forall i | 0 <= i < |r.pdus| ::
                 RecvLoop(Stream(chunks)).messages[i] == Message(r.pdus[i].header, r.pdus[i].bytes[HEADER_SIZE..])
  {
    hide RecvLoop, Process, Feed;
    var r := Feed(driver, 0, capacity, [], chunks);
    ChunksDoNotMatter(driver, 0, capacity, [], chunks);
    assert [] + Stream(chunks) == Stream(chunks);
    var fs := FramesOf(r.pdus);
    forall f | f in fs
      ensures HEADER_SIZE <= |f.bytes| < 0x1_0000_0000
    {
      var i :| 0 <= i < |fs| && fs[i] == f;
      assert r.pdus[i] in r.pdus;
    }
    FramesMatchRecvLoop(Stream(chunks));
  }

  // ----- when a well-framed stream is refused -----

  /** Every header reached is valid and announces a size the ring can be grown to. */
  predicate WellFramed(s: seq<Byte>)
    decreases |s|
  {
    |s| < HEADER_SIZE ||
    (HeaderOf(s).Some? && HEADER_SIZE <= TotalSize(HeaderOf(s).value) <= MAX_BYTES &&
     (|s| < TotalSize(HeaderOf(s).value) || WellFramed(s[TotalSize(HeaderOf(s).value)..])))
  }

  /** The requests take the payloads of the PDUs that are met. */
  predicate TakesAll(driver: Driver, index: nat, capacity: nat, s: seq<Byte>)
    decreases |s|
  {
    HeaderOf(s).Some? && 0 < TotalSize(HeaderOf(s).value) <= Min(|s|, capacity) ==>
      var h := HeaderOf(s).value;
      && (driver.Claims(index, h) ==> HEADER_SIZE <= capacity && Takes(driver, index, h, s[..Min(|s|, capacity)]))
      && TakesAll(driver, index + 1, capacity, s[TotalSize(h)..])
  }

  /** A PDU larger than the ring is met while bytes of the chunk do not fit the ring either. */
  predicate GrowsTooLate(capacity: nat, s: seq<Byte>)
    decreases |s|
  {
    HeaderOf(s).Some? &&
    var total := TotalSize(HeaderOf(s).value);
    if capacity < total then capacity < |s|
    else 0 < total <= |s| && GrowsTooLate(capacity, s[total..])
  }

  /** With memory and requests that take their payloads, received refuses a well-framed chunk exactly when it
      has to grow the ring before the whole chunk is stored. */
  lemma {:induction false} RefusedExactlyOnLateGrowth(driver: Driver, index: nat, capacity: nat, s: seq<Byte>)
    requires capacity >= HEADER_SIZE && WellFramed(s) && TakesAll(driver, index, capacity, s)
    ensures Process(driver, index, capacity, s, true).outcome ==
            if GrowsTooLate(capacity, s) then Rejected else Accepted
    decreases |s|
  {
    hide Validate, TotalSize, Takes;
    if HeaderOf(s).Some? {
      var total := TotalSize(HeaderOf(s).value);
      if total <= capacity && total <= |s| {
        ProcessOne(driver, index, capacity, s, true);
        RefusedExactlyOnLateGrowth(driver, index + 1, capacity, s[total..]);
      } else {
        ProcessNone(driver, index, capacity, s, true);
      }
    }
  }

  // ----- when the loop never ends -----

  /** Whole PDUs whose payloads are taken, up to one of size zero that no request waits for. */
  predicate MeetsEmpty(driver: Driver, index: nat, capacity: nat, s: seq<Byte>)
    requires capacity >= HEADER_SIZE
    decreases |s|
  {
    HeaderOf(s).Some? && TotalSize(HeaderOf(s).value) <= Min(|s|, capacity) &&
    var h := HeaderOf(s).value;
    var claimed := driver.Claims(index, h);
    if TotalSize(h) == 0 then !claimed
    else
      && (claimed ==> Takes(driver, index, h, s[..Min(|s|, capacity)]))
      && MeetsEmpty(driver, index + 1, capacity, s[TotalSize(h)..])
  }

  /** received skips nothing for ever exactly if it meets such a PDU. */
  lemma {:induction false} HangsExactlyOnEmpty(
      driver: Driver, index: nat, capacity: nat, s: seq<Byte>, hasMemory: bool)
    requires capacity >= HEADER_SIZE
    ensures Process(driver, index, capacity, s, hasMemory).outcome == Hangs <==> MeetsEmpty(driver, index, capacity, s)
    decreases |s|
  {
    hide Validate, TotalSize, Takes, Process;
    if HeaderOf(s).Some? && TotalSize(HeaderOf(s).value) <= Min(|s|, capacity) {
      var h := HeaderOf(s).value;
      ProcessOne(driver, index, capacity, s, hasMemory);
      if TotalSize(h) == 0 {
        HeaderIsTaken(driver, index, h, s[..Min(|s|, capacity)]);
      } else {
        HangsExactlyOnEmpty(driver, index + 1, capacity, s[TotalSize(h)..], hasMemory);
      }
    } else {
      ProcessNone(driver, index, capacity, s, hasMemory);
    }
  }

  /** No header that is met announces a negative amount of data. */
  predicate NeverNegative(s: seq<Byte>)
    decreases |s|
  {
    HeaderOf(s).Some? ==>
      && HeaderOf(s).value.DataSize() >= 0
      && (0 < TotalSize(HeaderOf(s).value) <= |s| ==> NeverNegative(s[TotalSize(HeaderOf(s).value)..]))
  }

  lemma {:induction false} EndsWithoutNegatives(
      driver: Driver, index: nat, capacity: nat, s: seq<Byte>, hasMemory: bool)
    requires capacity >= HEADER_SIZE && NeverNegative(s)
    ensures Process(driver, index, capacity, s, hasMemory).outcome != Hangs
    decreases |s|
  {
    HangsExactlyOnEmpty(driver, index, capacity, s, hasMemory);
    hide Validate, TotalSize, Takes, Process;
    if MeetsEmpty(driver, index, capacity, s) {
      ProperTotals(s[..HEADER_SIZE]);
      EndsWithoutNegatives(driver, index + 1, capacity, s[TotalSize(HeaderOf(s).value)..], hasMemory);
      HangsExactlyOnEmpty(driver, index + 1, capacity, s[TotalSize(HeaderOf(s).value)..], hasMemory);
    }
  }

  // ----- two streams -----

  /** A header of RET_SUBMIT for the first IN request, with a length and without packets. */
  function InResponse(length: seq<Byte>): (raw: seq<Byte>)
    requires |length| == 4
    ensures |raw| == HEADER_SIZE
  {
    [0, 0, 0, 3] + [0, 0, 0, 3] + seq(16, _ => 0) + length + seq(20, _ => 0)
  }

  lemma InResponseIs(length: seq<Byte>)
    requires |length| == 4
    ensures Validate(InResponse(length)) == Some(Header(RET_SUBMIT, 3, 0, I32(length, 0), 0))
  {
    var raw := InResponse(length);
    assert raw[0] == 0 && raw[1] == 0 && raw[2] == 0 && raw[3] == 3;
    assert raw[4] == 0 && raw[5] == 0 && raw[6] == 0 && raw[7] == 3;
    assert raw[20] == 0 && raw[21] == 0 && raw[22] == 0 && raw[23] == 0;
    assert raw[24] == length[0] && raw[25] == length[1] && raw[26] == length[2] && raw[27] == length[3];
    assert raw[32] == 0 && raw[33] == 0 && raw[34] == 0 && raw[35] == 0;
  }

  /** One header with actual_length -48, to a connection without requests: received never returns. */
  lemma MinusFortyEightHangs(driver: Driver, capacity: nat, hasMemory: bool)
    requires capacity >= HEADER_SIZE && forall index, h :: !driver.lists(index, h)
    ensures Process(driver, 0, capacity, InResponse([255, 255, 255, 208]), hasMemory).outcome == Hangs
  {
    hide Process, Takes, Validate;
    var s := InResponse([255, 255, 255, 208]);
    InResponseIs([255, 255, 255, 208]);
    assert s[..HEADER_SIZE] == s;
    assert I32([255, 255, 255, 208], 0) == -48;
    HangsExactlyOnEmpty(driver, 0, capacity, s, hasMemory);
  }

  /** 5000 bytes of data announced to a ring of one page: all that has arrived in one chunk is refused, the same
      bytes with the header ahead of them are not. */
  lemma LateGrowthDependsOnTheCut(driver: Driver)
    requires forall index, h :: !driver.lists(index, h)
    ensures var header, data := InResponse([0, 0, 0x13, 0x88]), seq(4100, _ => 0);
            && CapacityFor(1) == 4056
            && Feed(driver, 0, 4056, [], [Chunk(header + data, true)]).outcome == Rejected
            && Feed(driver, 0, 4056, [], [Chunk(header, true), Chunk(data, true)]).outcome == Accepted
  {
    hide Process, Takes, Validate;
    var header, data := InResponse([0, 0, 0x13, 0x88]), seq(4100, _ => 0);
    InResponseIs([0, 0, 0x13, 0x88]);
    assert I32([0, 0, 0x13, 0x88], 0) == 5000;
    assert [] + (header + data) == header + data && [] + header == header;
    assert header[..HEADER_SIZE] == header && (header + data)[..HEADER_SIZE] == header;
    ProcessNone(driver, 0, 4056, header + data, true);
    ProcessNone(driver, 0, 4056, header, true);
    ProcessNone(driver, 0, 8152, header + data, true);
    assert CapacityFor(5048) == 8152;
    var later := [Chunk(data, true)];
    assert Feed(driver, 0, 8152, header, later).outcome == Accepted;
    assert [Chunk(header, true), Chunk(data, true)][1..] == later;
  }

  /** Eight bytes answered to a request without a transfer buffer: the request succeeds, its payload stays in the
      ring, and the connection is given up. */
  lemma AnswerWithoutBufferIsRefused(driver: Driver, capacity: nat, hasMemory: bool)
    requires capacity >= 56
    requires forall h :: driver.lists(0, h) && driver.urb(0, h) == Transfer(STATUS_INVALID_PARAMETER, 0)
    ensures var s := InResponse([0, 0, 0, 8]) + seq(8, _ => 0);
            var h := Header(RET_SUBMIT, 3, 0, 8, 0);
            && HeaderOf(s) == Some(h) && TotalSize(h) == |s|
            && Succeeds(driver.urb(0, h), h, s[HEADER_SIZE..]) && !Takes(driver, 0, h, s)
            && Process(driver, 0, capacity, s, hasMemory).outcome == Rejected
  {
    hide Process, Validate;
    var s := InResponse([0, 0, 0, 8]) + seq(8, _ => 0);
    InResponseIs([0, 0, 0, 8]);
    assert I32([0, 0, 0, 8], 0) == 8;
    assert s[..HEADER_SIZE] == InResponse([0, 0, 0, 8]) && s[..|s|] == s;
    ProcessOne(driver, 0, capacity, s, hasMemory);
  }

  /** A ring of one page grows for a response of 4 MiB, header included, and for no longer one. */
  lemma GrowsUpToFourMiB(driver: Driver)
    ensures Process(driver, 0, 4056, InResponse([0, 1, 0, 0]), true).outcome == Accepted
    ensures Process(driver, 0, 4056, InResponse([0, 0x3F, 0xFF, 0xD0]), true).outcome == Accepted
    ensures Process(driver, 0, 4056, InResponse([0, 0x3F, 0xFF, 0xD1]), true).outcome == Rejected
  {
    hide Process, Takes, Validate;
    forall length | length in [[0, 1, 0, 0], [0, 0x3F, 0xFF, 0xD0], [0, 0x3F, 0xFF, 0xD1]]
      ensures InResponse(length)[..HEADER_SIZE] == InResponse(length)
      ensures Validate(InResponse(length)) == Some(Header(RET_SUBMIT, 3, 0, I32(length, 0), 0))
    {
      InResponseIs(length);
    }
    assert I32([0, 1, 0, 0], 0) == 65536;
    assert I32([0, 0x3F, 0xFF, 0xD0], 0) == 4194304 - 48 && I32([0, 0x3F, 0xFF, 0xD1], 0) == 4194304 - 47;
    ProcessNone(driver, 0, 4056, InResponse([0, 1, 0, 0]), true);
    ProcessNone(driver, 0, 4056, InResponse([0, 0x3F, 0xFF, 0xD0]), true);
    ProcessNone(driver, 0, 4056, InResponse([0, 0x3F, 0xFF, 0xD1]), true);
  }
}
