/** The packet layout sent with an isochronous request, what it makes of the checks on the response,
    and how the two decoders of the response compare. */
module IsochronousLayout {
  import opened RingBuffer
  import opened NtStatus
  import opened Isochronous
  import opened IsochronousRing

  // ----- repack -----

  /** Where packet i ends: at its successor, the last one at the end of the transfer buffer. */
  function NextOffset(packets: seq<Packet>, total: nat, i: nat): nat
    requires i < |packets|
  {
    if i + 1 < |packets| then packets[i + 1].offset else total
  }

  predicate OrderedAt(packets: seq<Packet>, total: nat, i: nat)
    requires i < |packets|
  {
    packets[i].offset <= NextOffset(packets, total, i) <= total
  }

  predicate InOrder(packets: seq<Packet>, total: nat) {
    forall i | 0 <= i < |packets| :: OrderedAt(packets, total, i)
  }

  /** The descriptor sent for packet i. */
  function Sent(packets: seq<Packet>, total: nat, i: nat): Descriptor
    requires i < |packets| && OrderedAt(packets, total, i)
  {
    Descriptor(packets[i].offset, NextOffset(packets, total, i) - packets[i].offset, 0, 0)
  }

  /** length is the total that the closing assertion looks at. */
  method Repack(d: array<Descriptor>, packets: seq<Packet>, total: nat) returns (st: Status, length: nat)
    requires d.Length == |packets|
    modifies d
    ensures st == STATUS_SUCCESS <==> InOrder(packets, total)
    ensures st == STATUS_SUCCESS ==>
              && (forall i | 0 <= i < |packets| :: d[i] == Sent(packets, total, i))
              && length == if packets == [] then 0 else total - packets[0].offset
  {
    hide Sent;
    length := 0;
    var i := 0;
    while i < |packets|
      invariant i <= |packets|
      invariant forall j | 0 <= j < i :: OrderedAt(packets, total, j)
      invariant forall j | 0 <= j < i :: d[j] == Sent(packets, total, j)
      invariant i > 0 ==> NextOffset(packets, total, i - 1) == packets[0].offset + length
      invariant i == 0 ==> length == 0
    {
      var offset := packets[i].offset;
      i := i + 1;
      var nextOffset := if i < |packets| then packets[i].offset else total;
      assert nextOffset == NextOffset(packets, total, i - 1);
      if offset <= nextOffset <= total {
        d[i - 1] := Descriptor(offset, nextOffset - offset, 0, 0);
        SentIs(packets, total, i - 1);
        length := length + (nextOffset - offset);
      } else {
        assert !OrderedAt(packets, total, i - 1);
        return STATUS_INVALID_PARAMETER, length;
      }
    }
    return STATUS_SUCCESS, length;
  }

  lemma SentIs(packets: seq<Packet>, total: nat, i: nat)
    requires i < |packets| && OrderedAt(packets, total, i)
    ensures Sent(packets, total, i) ==
            Descriptor(packets[i].offset, NextOffset(packets, total, i) - packets[i].offset, 0, 0)
  {
  }

  /** Offsets go out as they are; each packet reaches to the next one, and the last to the end of the buffer. */
  lemma SentReachesToTheNext(packets: seq<Packet>, total: nat, i: nat)
    requires InOrder(packets, total) && i < |packets|
    ensures var d := Sent(packets, total, i);
            && d.offset == packets[i].offset && d.actualLength == 0 && d.status == 0
            && d.offset + d.length == if i + 1 < |packets| then packets[i + 1].offset else total
  {
    assert OrderedAt(packets, total, i);
  }

  /** The layouts that can be sent. */
  lemma InOrderExactly(packets: seq<Packet>, total: nat)
    ensures InOrder(packets, total) <==>
            && (forall i: nat | i + 1 < |packets| :: packets[i].offset <= packets[i + 1].offset)
            && (packets != [] ==> packets[|packets| - 1].offset <= total)
  {
    if InOrder(packets, total) {
      forall i: nat | i < |packets|
        ensures packets[i].offset <= NextOffset(packets, total, i)
      {
        assert OrderedAt(packets, total, i);
      }
    } else {
      var i :| 0 <= i < |packets| && !OrderedAt(packets, total, i);
      if forall i: nat | i + 1 < |packets| :: packets[i].offset <= packets[i + 1].offset {
        OffsetsBounded(packets, i, |packets| - 1);
        if i + 1 < |packets| {
          OffsetsBounded(packets, i + 1, |packets| - 1);
        }
      }
    }
  }

  lemma {:induction false} OffsetsBounded(packets: seq<Packet>, i: nat, j: nat)
    requires i <= j < |packets| && forall i: nat | i + 1 < |packets| :: packets[i].offset <= packets[i + 1].offset
    ensures packets[i].offset <= packets[j].offset
    decreases j - i
  {
    if i < j {
      OffsetsBounded(packets, i + 1, j);
    }
  }

  // ----- a response that echoes the layout -----

  /** The server returns offsets and lengths as they were sent. */
  predicate Echoes(src: seq<Descriptor>, packets: seq<Packet>, total: nat) {
    |src| == |packets| && InOrder(packets, total) &&
    forall i | 0 <= i < |src| ::
      src[i].offset == Sent(packets, total, i).offset && src[i].length == Sent(packets, total, i).length
  }

  predicate WithinLengths(src: seq<Descriptor>) {
    forall i | 0 <= i < |src| :: src[i].actualLength <= src[i].length
  }

  predicate Covers(src: seq<Descriptor>, offsets: seq<nat>, i: nat, at: nat)
    requires i < |src| == |offsets|
  {
    offsets[i] <= at < offsets[i] + src[i].actualLength
  }

  /** No byte of the buffer belongs to two packets. */
  ghost predicate Apart(src: seq<Descriptor>, offsets: seq<nat>) {
    |src| == |offsets| &&
    forall i: nat, j: nat, at: nat | i < j < |src| && Covers(src, offsets, i, at) :: !Covers(src, offsets, j, at)
  }

  lemma {:induction false} OffsetsIncrease(packets: seq<Packet>, total: nat, i: nat, j: nat)
    requires InOrder(packets, total) && i < j < |packets|
    ensures NextOffset(packets, total, i) <= packets[j].offset
    decreases j - i
  {
    assert OrderedAt(packets, total, i + 1);
    if i + 1 < j {
      OffsetsIncrease(packets, total, i + 1, j);
    }
  }

  /** The compacted payload of the packets below i ends no later than packet i starts. */
  lemma {:induction false} StartsBefore(src: seq<Descriptor>, packets: seq<Packet>, total: nat, i: nat)
    requires Echoes(src, packets, total) && i < |src|
    requires WithinLengths(src)
    ensures Start(src, i) <= packets[i].offset
  {
    if i > 0 {
      StartsBefore(src, packets, total, i - 1);
      StartNext(src, i - 1);
    }
  }

  lemma FitsExactlyWithin(src: seq<Descriptor>, packets: seq<Packet>, total: nat, i: nat)
    requires Echoes(src, packets, total) && i < |src|
    ensures FitsAt(src, Offsets(packets), total, i) <==> src[i].actualLength <= src[i].length
  {
    assert OrderedAt(packets, total, i);
  }

  lemma WithinIsApart(src: seq<Descriptor>, packets: seq<Packet>, total: nat)
    requires Echoes(src, packets, total) && WithinLengths(src)
    ensures Apart(src, Offsets(packets))
  {
    var offsets := Offsets(packets);
    forall i: nat, j: nat, at: nat | i < j < |src| && Covers(src, offsets, i, at)
      ensures !Covers(src, offsets, j, at)
    {
      OffsetsIncrease(packets, total, i, j);
    }
  }

  /** With the layout echoed, the in-place decoder accepts exactly the responses whose packets stay within
      their lengths and add up; its check that no packet moves backward never fails, and packets stay apart. */
  lemma EchoedLayoutAccepts(src: seq<Descriptor>, packets: seq<Packet>, total: nat, actualLength: nat)
    requires Echoes(src, packets, total)
    ensures InPlaceAccepts(src, Offsets(packets), total, actualLength) <==>
            WithinLengths(src) && Sum(src) == actualLength
    ensures AllFit(src, Offsets(packets), total, 0, |src|) <==> WithinLengths(src)
    ensures WithinLengths(src) ==> Apart(src, Offsets(packets))
  {
    var offsets := Offsets(packets);
    forall i: nat | i < |src|
      ensures FitsAt(src, offsets, total, i) <==> src[i].actualLength <= src[i].length
      ensures WithinLengths(src) ==> Start(src, i) <= offsets[i]
    {
      FitsExactlyWithin(src, packets, total, i);
      if WithinLengths(src) {
        StartsBefore(src, packets, total, i);
      }
    }
    if WithinLengths(src) {
      WithinIsApart(src, packets, total);
    }
  }

  // ----- the two decoders, byte by byte -----

  /** The lowest packet from k on that covers a byte, |src| if none does. */
  function Lowest(src: seq<Descriptor>, offsets: seq<nat>, at: nat, k: nat): (i: nat)
    requires k <= |src| == |offsets|
    ensures k <= i <= |src|
    ensures i < |src| ==> Covers(src, offsets, i, at)
    ensures forall j: nat | k <= j < i :: !Covers(src, offsets, j, at)
    decreases |src| - k
  {
    if k == |src| || Covers(src, offsets, k, at) then k else Lowest(src, offsets, at, k + 1)
  }

  /** One more than the highest packet below k that covers a byte, 0 if none does. */
  function Highest(src: seq<Descriptor>, offsets: seq<nat>, at: nat, k: nat): (i: nat)
    requires k <= |src| == |offsets|
    ensures i <= k
    ensures i > 0 ==> Covers(src, offsets, i - 1, at)
    ensures forall j: nat | i <= j < k :: !Covers(src, offsets, j, at)
  {
    if k == 0 || Covers(src, offsets, k - 1, at) then k else Highest(src, offsets, at, k - 1)
  }

  /** The payload byte that packet i has for a byte of the buffer. */
  function From(payload: seq<Byte>, src: seq<Descriptor>, offsets: seq<nat>, i: nat, at: nat): Byte
    requires i < |src| == |offsets| && Sum(src) <= |payload| && Covers(src, offsets, i, at)
  {
    InPayload(src, i);
    payload[Start(src, i) + at - offsets[i]]
  }

  lemma InPayload(src: seq<Descriptor>, i: nat)
    requires i < |src|
    ensures Start(src, i) + src[i].actualLength <= Sum(src)
  {
    StartNext(src, i);
    StartMonotonic(src, i + 1, |src|);
    StartIsSum(src);
  }

  lemma PutAt(buf: seq<Byte>, payload: seq<Byte>, src: seq<Descriptor>, offsets: seq<nat>, i: nat, at: nat)
    requires i < |src| == |offsets| && Sum(src) <= |payload| && at < |buf|
    requires FitsAt(src, offsets, |buf|, i) && src[i].actualLength > 0
    ensures Put(buf, offsets[i], Piece(payload, src, i))[at] ==
            if Covers(src, offsets, i, at) then From(payload, src, offsets, i, at) else buf[at]
  {
    InPayload(src, i);
  }

  /** Last to first: the lowest packet wins. */
  lemma {:induction false} ScatterDownAt(buf: seq<Byte>, payload: seq<Byte>, src: seq<Descriptor>,
                                         offsets: seq<nat>, k: nat, at: nat)
    requires AllFit(src, offsets, |buf|, k, |src|) && Sum(src) <= |payload| && at < |buf|
    ensures ScatterDown(buf, payload, src, offsets, k)[at] ==
            var i := Lowest(src, offsets, at, k);
            if i == |src| then buf[at] else From(payload, src, offsets, i, at)
    decreases |src| - k
  {
    hide Put, Piece, Sum, Start;
    if k < |src| {
      assert FitsAt(src, offsets, |buf|, k);
      ScatterDownAt(buf, payload, src, offsets, k + 1, at);
      if src[k].actualLength > 0 {
        PutAt(ScatterDown(buf, payload, src, offsets, k + 1), payload, src, offsets, k, at);
      }
    }
  }

  /** First to last: the highest packet wins. */
  lemma {:induction false} ScatterUpAt(buf: seq<Byte>, payload: seq<Byte>, src: seq<Descriptor>,
                                       offsets: seq<nat>, k: nat, at: nat)
    requires AllFit(src, offsets, |buf|, 0, k) && Sum(src) <= |payload| && at < |buf|
    ensures ScatterUp(buf, payload, src, offsets, k)[at] ==
            var i := Highest(src, offsets, at, k);
            if i == 0 then buf[at] else From(payload, src, offsets, i - 1, at)
  {
    hide Put, Piece, Sum, Start;
    if k > 0 {
      assert FitsAt(src, offsets, |buf|, k - 1);
      ScatterUpAt(buf, payload, src, offsets, k - 1, at);
      if src[k - 1].actualLength > 0 {
        PutAt(ScatterUp(buf, payload, src, offsets, k - 1), payload, src, offsets, k - 1, at);
      }
    }
  }

  /** A response that both decoders take: packet for packet they store the same bytes, the payload's,
      whatever the buffers held before, provided no byte belongs to two packets. */
  lemma DecodersStoreTheSame(was: seq<Byte>, actualLength: nat, other: seq<Byte>, wire: seq<Byte>,
                             src: seq<Descriptor>, offsets: seq<nat>, i: nat, at: nat)
    requires actualLength <= |was| == |other| && actualLength <= |wire| && was[..actualLength] == wire[..actualLength]
    requires InPlaceAccepts(src, offsets, |was|, actualLength) && Apart(src, offsets)
    requires i < |src| && Covers(src, offsets, i, at) && at < |was|
    ensures Start(src, i) + at - offsets[i] < actualLength
    ensures ScatterDown(was, was[..actualLength], src, offsets, 0)[at]
            == ScatterUp(other, wire, src, offsets, |src|)[at]
            == wire[Start(src, i) + at - offsets[i]]
  {
    assert |src| == |offsets|;
    hide ScatterDown, ScatterUp, Sum, Start, Lowest, Highest, AllFit, Apart, NotBehind, Covers, From;
    var payload := was[..actualLength];
    OnlyCover(src, offsets, i, at);
    ScatterDownAt(was, payload, src, offsets, 0, at);
    ScatterUpAt(other, wire, src, offsets, |src|, at);
    FromPrefix(payload, wire, src, offsets, i, at);
  }

  lemma OnlyCover(src: seq<Descriptor>, offsets: seq<nat>, i: nat, at: nat)
    requires Apart(src, offsets) && i < |src| && Covers(src, offsets, i, at)
    ensures Lowest(src, offsets, at, 0) == i && Highest(src, offsets, at, |src|) == i + 1
  {
    hide Lowest, Highest, Covers;
    var low, high := Lowest(src, offsets, at, 0), Highest(src, offsets, at, |src|);
    assert low <= i < high;
  }

  lemma FromPrefix(payload: seq<Byte>, wire: seq<Byte>, src: seq<Descriptor>, offsets: seq<nat>, i: nat, at: nat)
    requires Sum(src) == |payload| <= |wire| && payload == wire[..|payload|]
    requires i < |src| == |offsets| && Covers(src, offsets, i, at)
    ensures Start(src, i) + at - offsets[i] < |payload|
    ensures From(payload, src, offsets, i, at) == From(wire, src, offsets, i, at)
            == wire[Start(src, i) + at - offsets[i]]
  {
    InPayload(src, i);
  }

  /** Bytes outside every packet are the ones the buffer held. */
  lemma PaddingIsKept(was: seq<Byte>, payload: seq<Byte>, src: seq<Descriptor>, offsets: seq<nat>, at: nat)
    requires AllFit(src, offsets, |was|, 0, |src|) && Sum(src) <= |payload| && at < |was|
    requires forall i | 0 <= i < |src| :: !Covers(src, offsets, i, at)
    ensures ScatterDown(was, payload, src, offsets, 0)[at]
            == ScatterUp(was, payload, src, offsets, |src|)[at] == was[at]
  {
    ScatterDownAt(was, payload, src, offsets, 0, at);
    ScatterUpAt(was, payload, src, offsets, |src|, at);
  }

  predicate SameOrder(buf: seq<Byte>, payload: seq<Byte>, src: seq<Descriptor>, offsets: seq<nat>)
    requires AllFit(src, offsets, |buf|, 0, |src|)
  {
    ScatterDown(buf, payload, src, offsets, 0) == ScatterUp(buf, payload, src, offsets, |src|)
  }

  /** The two orders agree on every payload exactly when no byte belongs to two packets. The checks do not
      ensure that by themselves: they bound a packet by the length in the response, not the one sent. */
  lemma OrdersAgreeExactlyWhenApart(buf: seq<Byte>, src: seq<Descriptor>, offsets: seq<nat>)
    requires AllFit(src, offsets, |buf|, 0, |src|)
    ensures Apart(src, offsets) <==>
            forall payload | |payload| == Sum(src) :: SameOrder(buf, payload, src, offsets)
  {
    hide ScatterDown, ScatterUp, Sum, Start, FitsAt, From, TellingPayload;
    if Apart(src, offsets) {
      forall payload | |payload| == Sum(src) ensures SameOrder(buf, payload, src, offsets) {
        forall at: nat | at < |buf|
          ensures ScatterDown(buf, payload, src, offsets, 0)[at] == ScatterUp(buf, payload, src, offsets, |src|)[at]
        {
          ScatterDownAt(buf, payload, src, offsets, 0, at);
          ScatterUpAt(buf, payload, src, offsets, |src|, at);
        }
      }
    } else {
      var i: nat, j: nat, at: nat :| i < j < |src| && Covers(src, offsets, i, at) && Covers(src, offsets, j, at);
      var payload := TellingPayload(src, offsets, i, j, at);
      OverlapShows(buf, payload, src, offsets, i, j, at);
    }
  }

  /** Bytes that differ between any two packets covering one byte of the buffer. */
  function TellingPayload(src: seq<Descriptor>, offsets: seq<nat>, i: nat, j: nat, at: nat): (p: seq<Byte>)
    requires i < j < |src| == |offsets| && Covers(src, offsets, i, at) && Covers(src, offsets, j, at)
    ensures |p| == Sum(src)
  {
    var low := Lowest(src, offsets, at, 0);
    seq(Sum(src), k requires 0 <= k < Sum(src) => if k < Start(src, low) + src[low].actualLength then 1 else 0)
  }

  lemma OverlapShows(buf: seq<Byte>, payload: seq<Byte>, src: seq<Descriptor>, offsets: seq<nat>,
                     i: nat, j: nat, at: nat)
    requires AllFit(src, offsets, |buf|, 0, |src|) && i < j < |src|
    requires Covers(src, offsets, i, at) && Covers(src, offsets, j, at)
    requires payload == TellingPayload(src, offsets, i, j, at)
    ensures !SameOrder(buf, payload, src, offsets)
  {
    hide ScatterDown, ScatterUp, Sum, Start, Lowest, Highest;
    assert FitsAt(src, offsets, |buf|, i);
    ScatterDownAt(buf, payload, src, offsets, 0, at);
    ScatterUpAt(buf, payload, src, offsets, |src|, at);
    var low, high := Lowest(src, offsets, at, 0), Highest(src, offsets, at, |src|) - 1;
    assert low <= i < j <= high;
    StartNext(src, low);
    StartMonotonic(src, low + 1, high);
    InPayload(src, low);
    InPayload(src, high);
  }

  /** Of all responses that are complete in the ring, the ring decoder takes those the in-place one takes, and
      two kinds more: packets that would have to move backward in place, and packets that claim too much when
      nothing follows the response in the ring. */
  lemma RingTakesMore(ring: seq<Byte>, offsets: seq<nat>, bufferLength: nat, actualLength: nat)
    requires RingHolds(ring, |offsets|, actualLength)
    ensures var src := SentDescriptors(ring, |offsets|, actualLength);
            RingAccepts(ring, offsets, true, bufferLength, actualLength) <==>
            || InPlaceAccepts(src, offsets, bufferLength, actualLength)
            || (&& AllFit(src, offsets, bufferLength, 0, |src|) && Sum(src) == actualLength
                && exists i: nat :: MovesBackward(src, offsets, i))
            || (&& AllFit(src, offsets, bufferLength, 0, |src|)
                && Sum(src) > actualLength && |ring| == actualLength + 16 * |offsets|)
  {
    hide DescriptorAt, SentDescriptors, AllFit, Sum, Start;
    assert DataLength(true, actualLength) == actualLength;
    var src := SentDescriptors(ring, |offsets|, actualLength);
    if Sum(src) == actualLength && !NotBehind(src, offsets, actualLength, 0) {
      var i: nat :| i < |src| && src[i].actualLength > 0 && Start(src, i) + actualLength > offsets[i] + Sum(src);
      assert MovesBackward(src, offsets, i);
    }
  }

  /** A packet whose bytes arrive behind the place where they belong. */
  predicate MovesBackward(src: seq<Descriptor>, offsets: seq<nat>, i: nat) {
    i < |src| == |offsets| && src[i].actualLength > 0 && Start(src, i) > offsets[i]
  }

  /** With the layout echoed, only claims that are too large are left of the difference. */
  lemma RingTakesMoreOfEchoed(ring: seq<Byte>, packets: seq<Packet>, total: nat, actualLength: nat)
    requires RingHolds(ring, |packets|, actualLength)
    requires Echoes(SentDescriptors(ring, |packets|, actualLength), packets, total)
    ensures var src := SentDescriptors(ring, |packets|, actualLength);
            RingAccepts(ring, Offsets(packets), true, total, actualLength) <==>
            || InPlaceAccepts(src, Offsets(packets), total, actualLength)
            || (&& WithinLengths(src)
                && Sum(src) > actualLength && |ring| == actualLength + 16 * |packets|)
  {
    hide DescriptorAt, SentDescriptors, AllFit, Sum, InPlaceAccepts, Echoes;
    var src := SentDescriptors(ring, |packets|, actualLength);
    assert DataLength(true, actualLength) == actualLength;
    EchoedLayoutAccepts(src, packets, total, actualLength);
  }

  // ----- two responses -----

  /** A descriptor with status zero on the wire, for small numbers. */
  function Wire(offset: Byte, length: Byte, actualLength: Byte): (raw: seq<Byte>)
    ensures |raw| == 16
  {
    [0, 0, 0, offset] + [0, 0, 0, length] + [0, 0, 0, actualLength] + [0, 0, 0, 0]
  }

  lemma WireIs(offset: Byte, length: Byte, actualLength: Byte)
    ensures Decode(Wire(offset, length, actualLength)) == Descriptor(offset, length, actualLength, 0)
  {
    var raw := Wire(offset, length, actualLength);
    assert raw[3] == offset && raw[7] == length && raw[11] == actualLength && raw[15] == 0;
    assert forall k | 0 <= k < 16 && k % 4 != 3 :: raw[k] == 0;
  }

  /** Six bytes for two packets that share bytes 4 and 5 of the buffer. */
  function Overlapping(): (ring: seq<Byte>)
    ensures |ring| == 38
  {
    [1, 2, 3, 4, 5, 6] + Wire(2, 4, 4) + Wire(4, 2, 2)
  }

  lemma OverlappingIs()
    ensures SentDescriptors(Overlapping(), 2, 6) == [Descriptor(2, 4, 4, 0), Descriptor(4, 2, 2, 0)]
  {
    hide Decode, Wire;
    var ring := Overlapping();
    WireIs(2, 4, 4);
    WireIs(4, 2, 2);
    assert ring[6 + 16 * 0..6 + 16 * (0 + 1)] == Wire(2, 4, 4);
    assert ring[6 + 16 * 1..6 + 16 * (1 + 1)] == Wire(4, 2, 2);
    assert DescriptorAt(ring, 6, 0) == Descriptor(2, 4, 4, 0);
    assert DescriptorAt(ring, 6, 1) == Descriptor(4, 2, 2, 0);
  }

  lemma SumOfTwo(a: Descriptor, b: Descriptor)
    ensures Sum([a, b]) == a.actualLength + b.actualLength
    ensures Start([a, b], 0) == 0 && Start([a, b], 1) == a.actualLength
  {
    assert [a, b][..1] == [a] && [a][..0] == [] && [a, b][..0] == [];
    assert Sum([a]) == a.actualLength;
  }

  /** Where two packets cover a byte, one decoder stores that of the first and the other that of the second. */
  lemma TwoOrders(was: seq<Byte>, payload: seq<Byte>, src: seq<Descriptor>, offsets: seq<nat>, at: nat)
    requires |src| == 2 && AllFit(src, offsets, |was|, 0, 2) && Sum(src) <= |payload| && at < |was|
    requires Covers(src, offsets, 0, at) && Covers(src, offsets, 1, at)
    ensures ScatterDown(was, payload, src, offsets, 0)[at] == From(payload, src, offsets, 0, at)
    ensures ScatterUp(was, payload, src, offsets, 2)[at] == From(payload, src, offsets, 1, at)
  {
    hide ScatterDown, ScatterUp, Sum, AllFit, Covers, From;
    ScatterDownAt(was, payload, src, offsets, 0, at);
    ScatterUpAt(was, payload, src, offsets, 2, at);
  }

  /** Both decoders take this response, and put different bytes into the same place. */
  lemma BothTakeOverlapping()
    ensures var ring, offsets, was: seq<Byte> := Overlapping(), [2, 4], [1, 2, 3, 4, 5, 6, 0, 0];
            var src := SentDescriptors(ring, 2, 6);
            && InPlaceAccepts(src, offsets, 8, 6) && RingAccepts(ring, offsets, true, 8, 6)
            && ScatterDown(was, was[..6], src, offsets, 0)[4] == 3
            && ScatterUp(was, ring, src, offsets, 2)[4] == 5
  {
    hide ScatterDown, ScatterUp, Sum, Start, SentDescriptors;
    OverlappingIs();
    var ring, offsets, was: seq<Byte> := Overlapping(), [2, 4], [1, 2, 3, 4, 5, 6, 0, 0];
    var src := SentDescriptors(ring, 2, 6);
    SumOfTwo(src[0], src[1]);
    assert FitsAt(src, offsets, 8, 0) && FitsAt(src, offsets, 8, 1);
    TwoOrders(was, was[..6], src, offsets, 4);
    TwoOrders(was, ring, src, offsets, 4);
  }

  /** A packet of one byte in a response without data, and nothing behind it: only the ring decoder takes it. */
  lemma OnlyTheRingTakes()
    ensures var ring, offsets := Wire(0, 1, 1), [0];
            && RingAccepts(ring, offsets, true, 1, 0)
            && !InPlaceAccepts(SentDescriptors(ring, 1, 0), offsets, 1, 0)
  {
    hide Decode, Wire;
    var ring := Wire(0, 1, 1);
    WireIs(0, 1, 1);
    assert ring[0 + 16 * 0..0 + 16 * (0 + 1)] == ring;
    assert DescriptorAt(ring, 0, 0) == Descriptor(0, 1, 1, 0);
    var src := SentDescriptors(ring, 1, 0);
    assert src[..0] == [] && Sum(src) == 1;
    assert FitsAt(src, [0], 1, 0);
  }
}
