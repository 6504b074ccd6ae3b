/** Isochronous responses: the compacted payload is spread over the packet ranges of the URB,
    in place from last to first, or off the ring buffer from first to last. */
module Isochronous {
  import opened RingBuffer
  import opened NtStatus

  const STATUS_INVALID_PARAMETER: Status := 0xC000_000D
  const STATUS_BUFFER_TOO_SMALL: Status := 0xC000_0023
  const STATUS_INVALID_BUFFER_SIZE: Status := 0xC000_0206

  /** iso_packet_descriptor in host byte order; 16 bytes on the wire. */
  datatype Descriptor = Descriptor(offset: nat, length: nat, actualLength: nat, status: nat)

  /** USBD_ISO_PACKET_DESCRIPTOR */
  datatype Packet = Packet(offset: nat, length: nat, status: nat)

  /** validate of one packet */
  predicate Fits(sd: Descriptor, offset: nat, bufferLength: nat) {
    sd.actualLength <= sd.length && sd.offset == offset && offset + sd.actualLength <= bufferLength
  }

  function Sum(src: seq<Descriptor>): nat {
    if src == [] then 0 else Sum(src[..|src| - 1]) + src[|src| - 1].actualLength
  }

  /** Where packet i starts in the compacted payload. */
  function Start(src: seq<Descriptor>, i: nat): nat
    requires i <= |src|
  {
    Sum(src[..i])
  }

  lemma StartNext(src: seq<Descriptor>, i: nat)
    requires i < |src|
    ensures Start(src, i + 1) == Start(src, i) + src[i].actualLength
  {
    assert src[..i + 1][..i] == src[..i];
  }

  lemma {:induction false} StartMonotonic(src: seq<Descriptor>, i: nat, j: nat)
    requires i <= j <= |src|
    ensures Start(src, i) <= Start(src, j)
    decreases j - i
  {
    if i < j {
      StartNext(src, i);
      StartMonotonic(src, i + 1, j);
    }
  }

  // ----- the buffer as a value -----

  /** buf with bytes stored at offset. */
  function Put(buf: seq<Byte>, offset: nat, bytes: seq<Byte>): (r: seq<Byte>)
    requires offset + |bytes| <= |buf|
    ensures |r| == |buf|
  {
    buf[..offset] + bytes + buf[offset + |bytes|..]
  }

  /** The bytes packet i gets, as far as the payload goes. */
  function Piece(payload: seq<Byte>, src: seq<Descriptor>, i: nat): (p: seq<Byte>)
    requires i < |src|
    ensures |p| <= src[i].actualLength
  {
    var from := Min(Start(src, i), |payload|);
    payload[from..Min(from + src[i].actualLength, |payload|)]
  }

  predicate FitsAt(src: seq<Descriptor>, offsets: seq<nat>, bufferLength: nat, i: nat)
    requires i < |src| == |offsets|
  {
    src[i].actualLength > 0 ==> Fits(src[i], offsets[i], bufferLength)
  }

  /** The packets from lo up to hi fit the buffer. */
  predicate AllFit(src: seq<Descriptor>, offsets: seq<nat>, bufferLength: nat, lo: nat, hi: nat) {
    lo <= hi <= |src| == |offsets| && forall i | lo <= i < hi :: FitsAt(src, offsets, bufferLength, i)
  }

  /** Packets k.. stored last to first. */
  function ScatterDown(buf: seq<Byte>, payload: seq<Byte>, src: seq<Descriptor>, offsets: seq<nat>, k: nat)
    : (r: seq<Byte>)
    requires AllFit(src, offsets, |buf|, k, |src|)
    ensures |r| == |buf|
    decreases |src| - k
  {
    if k == |src| then buf
    else
      assert FitsAt(src, offsets, |buf|, k);
      var later := ScatterDown(buf, payload, src, offsets, k + 1);
      if src[k].actualLength == 0 then later else Put(later, offsets[k], Piece(payload, src, k))
  }

  /** Packets below k stored first to last. */
  function ScatterUp(buf: seq<Byte>, payload: seq<Byte>, src: seq<Descriptor>, offsets: seq<nat>, k: nat)
    : (r: seq<Byte>)
    requires AllFit(src, offsets, |buf|, 0, k)
    ensures |r| == |buf|
  {
    if k == 0 then buf
    else
      assert FitsAt(src, offsets, |buf|, k - 1);
      var earlier := ScatterUp(buf, payload, src, offsets, k - 1);
      if src[k - 1].actualLength == 0 then earlier
      else Put(earlier, offsets[k - 1], Piece(payload, src, k - 1))
  }

  // ----- fill_isoc_data on the transfer buffer -----

  /** The packets from lo on do not start behind their place in the URB; the compacted payload
      ends at actualLength. */
  predicate NotBehind(src: seq<Descriptor>, offsets: seq<nat>, actualLength: nat, lo: nat) {
    lo <= |src| == |offsets| &&
    forall i | lo <= i < |src| && src[i].actualLength > 0 :: Start(src, i) + actualLength <= offsets[i] + Sum(src)
  }

  predicate InPlaceAccepts(src: seq<Descriptor>, offsets: seq<nat>, bufferLength: nat, actualLength: nat) {
    AllFit(src, offsets, bufferLength, 0, |src|) && NotBehind(src, offsets, actualLength, 0) && Sum(src) == actualLength
  }

  /** The responses that the in-place decoder takes: the lengths add up, and each packet with data has the offset of
      the URB, is no longer than the response says it may be, ends inside the buffer, and does not move backward. */
  lemma InPlaceAcceptsExactly(src: seq<Descriptor>, offsets: seq<nat>, bufferLength: nat, actualLength: nat)
    requires |src| == |offsets|
    ensures InPlaceAccepts(src, offsets, bufferLength, actualLength) <==>
            && Sum(src) == actualLength
            && forall i: nat | i < |src| && src[i].actualLength > 0 ::
                 && src[i].offset == offsets[i] && src[i].actualLength <= src[i].length
                 && offsets[i] + src[i].actualLength <= bufferLength && Start(src, i) <= offsets[i]
  {
    hide Sum, Start;
    forall i: nat | i < |src|
      ensures FitsAt(src, offsets, bufferLength, i) <==>
              src[i].actualLength > 0 ==>
                && src[i].offset == offsets[i] && src[i].actualLength <= src[i].length
                && offsets[i] + src[i].actualLength <= bufferLength
    {
    }
  }

  function Offsets(packets: seq<Packet>): (o: seq<nat>)
    ensures |o| == |packets|
    ensures forall i | 0 <= i < |packets| :: o[i] == packets[i].offset
  {
    seq(|packets|, i requires 0 <= i < |packets| => packets[i].offset)
  }

  /** The packet after a response: the status always, the length for received data only. */
  function Received(p: Packet, sd: Descriptor, dirIn: bool, toWindows: nat -> nat): Packet {
    Packet(p.offset,
           if dirIn && sd.actualLength > 0 then sd.actualLength else p.length,
           if sd.status != 0 then toWindows(sd.status) else 0)
  }

  /** One packet with data: the checks, and the RtlMoveMemory that cannot be skipped. */
  method PlacePacket(buffer: array<Byte>, sd: Descriptor, offset: nat, end: nat) returns (ok: bool)
    requires end <= buffer.Length
    modifies buffer
    ensures ok <==> Fits(sd, offset, buffer.Length) && sd.actualLength <= end <= offset + sd.actualLength
    ensures ok ==> buffer[..] == Put(old(buffer[..]), offset, old(buffer[end - sd.actualLength..end]))
  {
    if !Fits(sd, offset, buffer.Length) || end < sd.actualLength {
      return false;
    }
    var from := end - sd.actualLength;
    if offset < from {
      return false;
    }
    if offset > from {
      forall k | 0 <= k < sd.actualLength {
        buffer[offset + k] := buffer[from + k];
      }
    }
    return true;
  }

  lemma RefusedPacket(src: seq<Descriptor>, offsets: seq<nat>, bufferLength: nat, actualLength: nat, i: nat, end: nat)
    requires i < |src| == |offsets| && src[i].actualLength > 0
    requires end + Sum(src) == actualLength + Start(src, i + 1)
    requires !(Fits(src[i], offsets[i], bufferLength) &&
               src[i].actualLength <= end <= offsets[i] + src[i].actualLength)
    ensures !InPlaceAccepts(src, offsets, bufferLength, actualLength)
  {
    StartNext(src, i);
    assert InPlaceAccepts(src, offsets, bufferLength, actualLength) ==> FitsAt(src, offsets, bufferLength, i);
  }

  /** The bytes below the packet that is placed stay where they are: nothing unmoved is overwritten. */
  lemma PlacedPacket(buf: seq<Byte>, was: seq<Byte>, actualLength: nat, src: seq<Descriptor>, offsets: seq<nat>,
                     i: nat, end: nat)
    requires actualLength <= |was| == |buf| && i < |src| == |offsets| && src[i].actualLength > 0
    requires AllFit(src, offsets, |was|, i + 1, |src|) && Fits(src[i], offsets[i], |was|)
    requires Sum(src) == actualLength && end == Start(src, i + 1)
    requires src[i].actualLength <= end <= offsets[i] + src[i].actualLength && end <= actualLength
    requires buf[..end] == was[..end] && buf == ScatterDown(was, was[..actualLength], src, offsets, i + 1)
    ensures AllFit(src, offsets, |was|, i, |src|)
    ensures var from := end - src[i].actualLength;
            var next := Put(buf, offsets[i], buf[from..end]);
            && next[..from] == was[..from]
            && next == ScatterDown(was, was[..actualLength], src, offsets, i)
  {
    StartNext(src, i);
    var from := end - src[i].actualLength;
    assert buf[from..end] == buf[..end][from..end] == was[..actualLength][from..end];
    assert Piece(was[..actualLength], src, i) == was[..actualLength][from..end];
    assert Put(buf, offsets[i], buf[from..end])[..from] == buf[..from] == buf[..end][..from];
    assert FitsAt(src, offsets, |was|, i);
  }

  /** The decoder of the IRP receiver. buffer is the transfer buffer, null for OUT transfers. */
  method FillInPlace(packets: array<Packet>, buffer: array?<Byte>, actualLength: nat, src: seq<Descriptor>,
                     toWindows: nat -> nat)
    returns (st: Status)
    requires |src| == packets.Length
    requires buffer != null ==> actualLength <= buffer.Length
    modifies packets, buffer
    ensures st == STATUS_SUCCESS <==>
            buffer == null || InPlaceAccepts(src, Offsets(old(packets[..])), buffer.Length, actualLength)
    ensures st == STATUS_SUCCESS ==>
              forall i | 0 <= i < packets.Length ::
                packets[i] == Received(old(packets[i]), src[i], buffer != null, toWindows)
    ensures st == STATUS_SUCCESS && buffer != null ==>
              var was := old(buffer[..]);
              buffer[..] == ScatterDown(was, was[..actualLength], src, Offsets(old(packets[..])), 0)
  {
    hide ScatterDown, Put, Piece, Sum, Start;
    ghost var offsets := Offsets(packets[..]);
    ghost var was := if buffer == null then [] else buffer[..];
    var left: nat, i := actualLength, packets.Length;
    StartIsSum(src);
    if buffer != null {
      ScatterDownEnd(was, was[..actualLength], src, offsets);
    }
    while i > 0
      invariant 0 <= i <= packets.Length
      invariant forall j | 0 <= j < i :: packets[j] == old(packets[j])
      invariant forall j | i <= j < packets.Length ::
          packets[j] == Received(old(packets[j]), src[j], buffer != null, toWindows)
      invariant buffer != null ==>
          && left <= actualLength && left + Sum(src) == actualLength + Start(src, i)
          && AllFit(src, offsets, |was|, i, |src|) && NotBehind(src, offsets, actualLength, i)
          && (Sum(src) == actualLength ==>
                && buffer[..left] == was[..left]
                && buffer[..] == ScatterDown(was, was[..actualLength], src, offsets, i))
    {
      i := i - 1;
      StartNext(src, i);
      var sd, dd := src[i], packets[i];
      packets[i] := dd.(status := if sd.status != 0 then toWindows(sd.status) else 0);
      if buffer == null {
        continue;
      }
      assert FitsAt(src, offsets, |was|, i) <==> sd.actualLength == 0 || Fits(sd, dd.offset, |was|);
      if sd.actualLength == 0 {
        ScatterDownEmpty(was, was[..actualLength], src, offsets, i);
        continue;
      }
      ghost var before := buffer[..];
      var ok := PlacePacket(buffer, sd, dd.offset, left);
      if !ok {
        RefusedPacket(src, offsets, buffer.Length, actualLength, i, left);
        return STATUS_INVALID_PARAMETER;
      }
      if Sum(src) == actualLength {
        PlacedPacket(before, was, actualLength, src, offsets, i, left);
      }
      packets[i] := packets[i].(length := sd.actualLength);
      left := left - sd.actualLength;
    }
    StartIsSum(src);
    return if buffer != null && left > 0 then STATUS_INVALID_PARAMETER else STATUS_SUCCESS;
  }

  lemma StartIsSum(src: seq<Descriptor>)
    ensures Start(src, |src|) == Sum(src) && Start(src, 0) == 0
  {
    assert src[..|src|] == src;
  }

  lemma ScatterDownEnd(buf: seq<Byte>, payload: seq<Byte>, src: seq<Descriptor>, offsets: seq<nat>)
    requires |src| == |offsets|
    ensures ScatterDown(buf, payload, src, offsets, |src|) == buf
  {
  }

  lemma ScatterDownEmpty(buf: seq<Byte>, payload: seq<Byte>, src: seq<Descriptor>, offsets: seq<nat>, k: nat)
    requires k < |src| && AllFit(src, offsets, |buf|, k + 1, |src|) && src[k].actualLength == 0
    ensures AllFit(src, offsets, |buf|, k, |src|)
    ensures ScatterDown(buf, payload, src, offsets, k) == ScatterDown(buf, payload, src, offsets, k + 1)
  {
    assert FitsAt(src, offsets, |buf|, k);
  }
}
