/** The decoder of the event receiver, which takes payload and descriptors off the ring buffer, the
    layout sent with the request, and how the two decoders compare. */
module IsochronousRing {
  import opened RingBuffer
  import opened NtStatus
  import opened Wrappers
  import opened Isochronous
  import opened PduHeader

  /** byteswap of one descriptor */
  function Decode(raw: seq<Byte>): Descriptor
    requires |raw| == 16
  {
    Descriptor(U32(raw, 0), U32(raw, 4), U32(raw, 8), U32(raw, 12))
  }

  /** usbip_iso_packet_descriptor as a server sends it. */
  lemma DecodeReadsBack(offset: int, length: int, actualLength: int, status: int)
    requires 0 <= offset < 0x1_0000_0000 && 0 <= length < 0x1_0000_0000
    requires 0 <= actualLength < 0x1_0000_0000 && 0 <= status < 0x1_0000_0000
    ensures Decode(Digits(offset) + Digits(length) + Digits(actualLength) + Digits(status)) ==
            Descriptor(offset, length, actualLength, status)
  {
    hide Digits, U32;
    var o, l, a, s := Digits(offset), Digits(length), Digits(actualLength), Digits(status);
    var raw := o + l + a + s;
    assert raw == [] + o + (l + a + s);
    DigitsAreRead([], offset, l + a + s);
    assert raw == o + l + (a + s);
    DigitsAreRead(o, length, a + s);
    assert raw == (o + l) + a + s;
    DigitsAreRead(o + l, actualLength, s);
    assert raw == (o + l + a) + s + [];
    DigitsAreRead(o + l + a, status, []);
  }

  function DescriptorAt(wire: seq<Byte>, from: nat, i: nat): Descriptor
    requires from + 16 * (i + 1) <= |wire|
  {
    Decode(wire[from + 16 * i..from + 16 * (i + 1)])
  }

  /** How much of the ring the response occupies before its descriptors. */
  function DataLength(dirIn: bool, actualLength: nat): nat { if dirIn then actualLength else 0 }

  predicate RingHolds(ring: seq<Byte>, n: nat, data: nat) {
    data + 16 * n <= |ring|
  }

  function SentDescriptors(ring: seq<Byte>, n: nat, data: nat): (src: seq<Descriptor>)
    requires RingHolds(ring, n, data)
    ensures |src| == n
    ensures forall i | 0 <= i < n :: src[i] == DescriptorAt(ring, data, i)
  {
    seq(n, i requires 0 <= i < n => DescriptorAt(ring, data, i))
  }

  predicate RingAccepts(ring: seq<Byte>, offsets: seq<nat>, dirIn: bool, bufferLength: nat, actualLength: nat) {
    var n, data := |offsets|, DataLength(dirIn, actualLength);
    RingHolds(ring, n, data) &&
    var src := SentDescriptors(ring, n, data);
    dirIn ==> AllFit(src, offsets, bufferLength, 0, n) &&
              (Sum(src) == actualLength || (Sum(src) > actualLength && |ring| == data + 16 * n))
  }

  /** The IN responses that the ring decoder takes, of those that are complete in the ring. */
  lemma RingAcceptsExactly(ring: seq<Byte>, offsets: seq<nat>, bufferLength: nat, actualLength: nat)
    requires actualLength + 16 * |offsets| <= |ring|
    ensures var n := |offsets|;
            var src := SentDescriptors(ring, n, actualLength);
            RingAccepts(ring, offsets, true, bufferLength, actualLength) <==>
            && (Sum(src) == actualLength || (Sum(src) > actualLength && |ring| == actualLength + 16 * n))
            && forall i: nat | i < n && src[i].actualLength > 0 ::
                 && src[i].offset == offsets[i] && src[i].actualLength <= src[i].length
                 && offsets[i] + src[i].actualLength <= bufferLength
  {
    hide Sum, DescriptorAt;
    var src := SentDescriptors(ring, |offsets|, actualLength);
    forall i: nat | i < |src|
      ensures FitsAt(src, offsets, bufferLength, i) <==>
              src[i].actualLength > 0 ==>
                && src[i].offset == offsets[i] && src[i].actualLength <= src[i].length
                && offsets[i] + src[i].actualLength <= bufferLength
    {
    }
  }

  /** Nothing but the descriptors of an OUT response is in the ring, and they are all that is asked for. */
  lemma OutAcceptsExactly(ring: seq<Byte>, offsets: seq<nat>, bufferLength: nat, actualLength: nat)
    ensures RingAccepts(ring, offsets, false, bufferLength, actualLength) <==> 16 * |offsets| <= |ring|
  {
  }

  /** The first packet from i on that does not fit, |src| if they all do. */
  function FirstMisfit(src: seq<Descriptor>, offsets: seq<nat>, bufferLength: nat, i: nat): (k: nat)
    requires i <= |src| == |offsets|
    ensures i <= k <= |src|
    ensures AllFit(src, offsets, bufferLength, i, k)
    ensures k < |src| ==> !FitsAt(src, offsets, bufferLength, k)
    decreases |src| - i
  {
    if i < |src| && FitsAt(src, offsets, bufferLength, i) then FirstMisfit(src, offsets, bufferLength, i + 1) else i
  }

  predicate StopsAt(src: seq<Descriptor>, offsets: seq<nat>, bufferLength: nat, i: nat) {
    i < |src| == |offsets| && AllFit(src, offsets, bufferLength, 0, i) && !FitsAt(src, offsets, bufferLength, i)
  }

  /** How many bytes the ring decoder takes off the ring, whether or not it accepts the response. */
  function IsochTaken(ring: seq<Byte>, offsets: seq<nat>, dirIn: bool, bufferLength: nat, actualLength: nat): (t: nat)
    ensures t <= |ring|
  {
    var n, data := |offsets|, DataLength(dirIn, actualLength);
    if !RingHolds(ring, n, data) then 0
    else if !dirIn then 16 * n
    else
      var src := SentDescriptors(ring, n, data);
      var k := FirstMisfit(src, offsets, bufferLength, 0);
      if k < n then Min(Start(src, k), |ring|) else Min(Start(src, n) + 16 * n, |ring|)
  }

  /** rb.read into the transfer buffer: as many of len bytes as the ring has. */
  method ReadInto(ring: Ring, buffer: array<Byte>, offset: nat, len: nat)
    requires ring.Valid() && buffer != ring.buf && offset + len <= buffer.Length
    modifies ring`tail, ring`size, buffer
    ensures ring.Valid()
    ensures var n := Min(len, old(ring.size));
            && buffer[..] == Put(old(buffer[..]), offset, old(ring.Contents())[..n])
            && ring.Contents() == old(ring.Contents())[n..]
  {
    hide Ring.Contents;
    var bytes := ring.Read(len);
    forall k | 0 <= k < |bytes| {
      buffer[offset + k] := bytes[k];
    }
    assert ring.Contents() == old(ring.Contents())[|bytes|..];
  }

  lemma ScatterUpStep(was: seq<Byte>, wire: seq<Byte>, src: seq<Descriptor>, offsets: seq<nat>, i: nat)
    requires i < |src| && AllFit(src, offsets, |was|, 0, i)
    requires src[i].actualLength > 0 ==> Fits(src[i], offsets[i], |was|)
    ensures AllFit(src, offsets, |was|, 0, i + 1)
    ensures var from := Min(Start(src, i), |wire|);
            && Piece(wire, src, i) == wire[from..][..Min(src[i].actualLength, |wire| - from)]
            && wire[from..][Min(src[i].actualLength, |wire| - from)..] == wire[Min(Start(src, i + 1), |wire|)..]
            && ScatterUp(was, wire, src, offsets, i + 1) ==
               (var earlier := ScatterUp(was, wire, src, offsets, i);
                if src[i].actualLength == 0 then earlier else Put(earlier, offsets[i], Piece(wire, src, i)))
  {
    StartNext(src, i);
    assert FitsAt(src, offsets, |was|, i);
  }

  /** iso.read and byteswap */
  method NextDescriptor(iso: Ring, ghost wire: seq<Byte>, ghost from: nat, ghost i: nat) returns (sd: Descriptor)
    requires iso.Valid() && from + 16 * (i + 1) <= |wire|
    requires iso.Contents() == wire[from + 16 * i..]
    modifies iso`tail, iso`size
    ensures iso.Valid() && iso.Contents() == wire[from + 16 * (i + 1)..]
    ensures sd == DescriptorAt(wire, from, i)
  {
    hide Ring.Contents, Decode;
    var raw := iso.Read(16);
    assert raw == wire[from + 16 * i..from + 16 * (i + 1)];
    return Decode(raw);
  }

  /** The data of packet i, if it has any; src are the descriptors read so far and yet to be read. */
  method TakePacket(ring: Ring, buffer: array<Byte>, sd: Descriptor, offset: nat,
                    ghost was: seq<Byte>, ghost wire: seq<Byte>, ghost src: seq<Descriptor>, ghost offsets: seq<nat>,
                    ghost i: nat)
    returns (ok: bool)
    requires ring.Valid() && buffer != ring.buf && |was| == buffer.Length
    requires i < |src| == |offsets| && src[i] == sd && offsets[i] == offset
    requires AllFit(src, offsets, |was|, 0, i)
    requires buffer[..] == ScatterUp(was, wire, src, offsets, i)
    requires ring.Contents() == wire[Min(Start(src, i), |wire|)..]
    modifies ring`tail, ring`size, buffer
    ensures ring.Valid()
    ensures ok <==> FitsAt(src, offsets, |was|, i)
    ensures ok ==> AllFit(src, offsets, |was|, 0, i + 1) && buffer[..] == ScatterUp(was, wire, src, offsets, i + 1)
    ensures ring.Contents() == wire[Min(Start(src, if ok then i + 1 else i), |wire|)..]
  {
    hide Ring.Contents, ScatterUp, Piece, Sum, Start;
    StartNext(src, i);
    if sd.actualLength == 0 {
      ScatterUpStep(was, wire, src, offsets, i);
      return true;
    }
    if !Fits(sd, offset, buffer.Length) {
      return false;
    }
    ScatterUpStep(was, wire, src, offsets, i);
    ReadInto(ring, buffer, offset, sd.actualLength);
    return true;
  }

  /** The packets below i are in the buffer. */
  ghost predicate Stored(buffer: array<Byte>, was: seq<Byte>, wire: seq<Byte>, src: seq<Descriptor>,
                         offsets: seq<nat>, i: nat)
    reads buffer
  {
    buffer.Length == |was| && AllFit(src, offsets, |was|, 0, i) && buffer[..] == ScatterUp(was, wire, src, offsets, i)
  }

  /** The descriptors behind the data of a response. */
  predicate Describes(src: seq<Descriptor>, wire: seq<Byte>, from: nat) {
    RingHolds(wire, |src|, from) && src == SentDescriptors(wire, |src|, from)
  }

  /** Before packet i: iso is at its descriptor, ring at its data, and the packets below it are stored. */
  ghost predicate Reading(ring: Ring, iso: Ring, buffer: array?<Byte>, was: seq<Byte>, wire: seq<Byte>,
                          src: seq<Descriptor>, offsets: seq<nat>, from: nat, i: nat)
    reads ring, ring.buf, iso, iso.buf, buffer
  {
    && ring.Valid() && iso.Valid() && iso != ring && iso.buf == ring.buf && ring.buf != buffer
    && i <= |src| == |offsets| && Describes(src, wire, from)
    && iso.Contents() == wire[from + 16 * i..]
    && ring.Contents() == wire[if buffer == null then 0 else Min(Start(src, i), |wire|)..]
    && (buffer != null ==> Stored(buffer, was, wire, src, offsets, i))
  }

  /** One turn of the loop, without the update of the packet. */
  method Turn(ring: Ring, iso: Ring, buffer: array?<Byte>, offset: nat, ghost was: seq<Byte>, ghost wire: seq<Byte>,
              ghost src: seq<Descriptor>, ghost offsets: seq<nat>, ghost from: nat, ghost i: nat)
    returns (sd: Descriptor, ok: bool)
    requires Reading(ring, iso, buffer, was, wire, src, offsets, from, i) && i < |src| && offsets[i] == offset
    modifies ring`tail, ring`size, iso`tail, iso`size, buffer
    ensures sd == src[i] && ring.Valid()
    ensures ok <==> buffer == null || FitsAt(src, offsets, buffer.Length, i)
    ensures ok ==> Reading(ring, iso, buffer, was, wire, src, offsets, from, i + 1)
    ensures !ok ==> buffer != null && StopsAt(src, offsets, buffer.Length, i)
    ensures !ok ==> ring.Contents() == wire[Min(Start(src, i), |wire|)..]
  {
    hide Ring.Contents, Ring.Valid, ScatterUp, Put, Piece, Sum, Start, DescriptorAt, Fits, FitsAt, AllFit,
         SentDescriptors;
    sd := NextDescriptor(iso, wire, from, i);
    ok := true;
    if buffer != null {
      ok := TakePacket(ring, buffer, sd, offset, was, wire, src, offsets, i);
    }
  }

  /** A second cursor over the ring that has skipped its first from bytes. */
  method SharedAt(ring: Ring, from: nat) returns (iso: Ring)
    requires ring.Valid() && from <= ring.size
    ensures fresh(iso) && iso.Valid() && iso.buf == ring.buf && iso.Contents() == ring.Contents()[from..]
  {
    hide Ring.Contents;
    iso := new Ring.Share(ring);
    var _ := iso.Skip(from);
  }

  /** The loop over the packets. */
  method ReadPackets(packets: array<Packet>, buffer: array?<Byte>, ring: Ring, iso: Ring, toWindows: nat -> nat,
                     ghost was: seq<Byte>, ghost wire: seq<Byte>, ghost src: seq<Descriptor>,
                     ghost offsets: seq<nat>, ghost from: nat)
    returns (ok: bool)
    requires Reading(ring, iso, buffer, was, wire, src, offsets, from, 0)
    requires packets.Length == |src| == |offsets| && offsets == Offsets(packets[..])
    modifies packets, buffer, ring`tail, ring`size, iso`tail, iso`size
    ensures ring.Valid()
    ensures !ok ==> buffer != null && exists i: nat ::
              StopsAt(src, offsets, buffer.Length, i) && ring.Contents() == wire[Min(Start(src, i), |wire|)..]
    ensures ok ==> Reading(ring, iso, buffer, was, wire, src, offsets, from, |src|)
    ensures ok ==> forall i | 0 <= i < |src| ::
              packets[i] == Received(old(packets[i]), src[i], buffer != null, toWindows)
  {
    hide Ring.Contents, Ring.Valid, FitsAt, Received, Reading, Offsets, Start;
    for i := 0 to packets.Length
      invariant Reading(ring, iso, buffer, was, wire, src, offsets, from, i)
      invariant forall j | i <= j < |src| :: packets[j] == old(packets[j])
      invariant forall j | 0 <= j < i :: packets[j] == Received(old(packets[j]), src[j], buffer != null, toWindows)
    {
      var dd := packets[i];
      var sd, fits := Turn(ring, iso, buffer, dd.offset, was, wire, src, offsets, from, i);
      packets[i] := dd.(status := if sd.status != 0 then toWindows(sd.status) else 0);
      if !fits {
        return false;
      }
      if buffer != null && sd.actualLength > 0 {
        packets[i] := packets[i].(length := sd.actualLength);
      }
      ReceivedIs(dd, sd, buffer != null, toWindows);
    }
    ReadingIsValid(ring, iso, buffer, was, wire, src, offsets, from);
    return true;
  }

  lemma ReadingIsValid(ring: Ring, iso: Ring, buffer: array?<Byte>, was: seq<Byte>, wire: seq<Byte>,
                       src: seq<Descriptor>, offsets: seq<nat>, from: nat)
    requires Reading(ring, iso, buffer, was, wire, src, offsets, from, |src|)
    ensures ring.Valid()
  {
  }

  method FillFromRing(packets: array<Packet>, buffer: array?<Byte>, actualLength: nat, ring: Ring,
                      toWindows: nat -> nat)
    returns (st: Status)
    requires ring.Valid() && (buffer != null ==> buffer != ring.buf)
    modifies packets, buffer, ring`tail, ring`size
    ensures ring.Valid()
    ensures var wire, offsets := old(ring.Contents()), Offsets(old(packets[..]));
            var dirIn := buffer != null;
            st == STATUS_SUCCESS <==>
            RingAccepts(wire, offsets, dirIn, if dirIn then buffer.Length else 0, actualLength)
    ensures NtError(st) <==> st != STATUS_SUCCESS
    ensures var wire, offsets := old(ring.Contents()), Offsets(old(packets[..]));
            var dirIn := buffer != null;
            var length := if dirIn then buffer.Length else 0;
            ring.Contents() == wire[IsochTaken(wire, offsets, dirIn, length, actualLength)..]
    ensures st == STATUS_SUCCESS ==>
              var wire, offsets := old(ring.Contents()), Offsets(old(packets[..]));
              var src := SentDescriptors(wire, packets.Length, DataLength(buffer != null, actualLength));
              && (forall i | 0 <= i < packets.Length ::
                    packets[i] == Received(old(packets[i]), src[i], buffer != null, toWindows))
              && (buffer != null ==> buffer[..] == ScatterUp(old(buffer[..]), wire, src, offsets, |src|))
              && ring.Contents() == wire[DataLength(buffer != null, actualLength) + 16 * packets.Length..]
  {
    hide Ring.Contents, Ring.Valid, ScatterUp, Put, Piece, Sum, DescriptorAt, Fits, FitsAt, AllFit, Received,
         RingAccepts, Reading, SentDescriptors, Offsets, DataLength, Start, IsochTaken;
    ghost var wire, offsets := ring.Contents(), Offsets(packets[..]);
    ghost var was := if buffer == null then [] else buffer[..];
    var n, data := packets.Length, DataLength(buffer != null, actualLength);
    if ring.size < data + 16 * n {
      RefusedShort(wire, offsets, buffer != null, |was|, actualLength);
      return STATUS_BUFFER_TOO_SMALL;
    }
    ghost var src := SentDescriptors(wire, n, data);
    var iso := SharedAt(ring, data);
    ReadingStarts(ring, iso, buffer, wire, offsets, data);
    var ok := ReadPackets(packets, buffer, ring, iso, toWindows, was, wire, src, offsets, data);
    if !ok {
      ghost var i: nat :|
        StopsAt(src, offsets, |was|, i) && ring.Contents() == wire[Min(Start(src, i), |wire|)..];
      RefusedMisfit(wire, offsets, |was|, actualLength, i);
      return STATUS_INVALID_PARAMETER;
    }
    ReadingDone(ring, iso, buffer, was, wire, src, offsets, data);
    var _ := ring.Skip(16 * n);
    TakenTogether(wire, offsets, buffer != null, |was|, actualLength, ring.Contents());
    TakenWhole(wire, offsets, buffer != null, |was|, actualLength, ring.Contents());
    return if ring.size != iso.size then STATUS_INVALID_BUFFER_SIZE else STATUS_SUCCESS;
  }

  lemma ReadingStarts(ring: Ring, iso: Ring, buffer: array?<Byte>, wire: seq<Byte>, offsets: seq<nat>, from: nat)
    requires ring.Valid() && iso.Valid() && iso != ring && iso.buf == ring.buf && ring.buf != buffer
    requires wire == ring.Contents() && from + 16 * |offsets| <= |wire| && iso.Contents() == wire[from..]
    ensures var was := if buffer == null then [] else buffer[..];
            Reading(ring, iso, buffer, was, wire, SentDescriptors(wire, |offsets|, from), offsets, from, 0)
  {
    hide Ring.Contents, Ring.Valid, DescriptorAt;
    if buffer != null {
      ScatterUpStart(buffer[..], wire, SentDescriptors(wire, |offsets|, from), offsets);
    }
  }

  lemma ReadingDone(ring: Ring, iso: Ring, buffer: array?<Byte>, was: seq<Byte>, wire: seq<Byte>,
                    src: seq<Descriptor>, offsets: seq<nat>, from: nat)
    requires Reading(ring, iso, buffer, was, wire, src, offsets, from, |src|)
    ensures ring.Valid() && iso.Valid() && iso.size == |wire| - from - 16 * |src|
    ensures ring.Contents() == wire[if buffer == null then 0 else Min(Start(src, |src|), |wire|)..]
    ensures buffer != null ==>
              && buffer.Length == |was| && AllFit(src, offsets, |was|, 0, |src|)
              && buffer[..] == ScatterUp(was, wire, src, offsets, |src|)
  {
    hide Ring.Contents, Ring.Valid, DescriptorAt;
  }

  lemma ScatterUpStart(was: seq<Byte>, wire: seq<Byte>, src: seq<Descriptor>, offsets: seq<nat>)
    requires |src| == |offsets|
    ensures AllFit(src, offsets, |was|, 0, 0)
    ensures ScatterUp(was, wire, src, offsets, 0) == was
    ensures Start(src, 0) == 0
  {
  }

  lemma ReceivedIs(p: Packet, sd: Descriptor, dirIn: bool, toWindows: nat -> nat)
    ensures var q := p.(status := if sd.status != 0 then toWindows(sd.status) else 0);
            Received(p, sd, dirIn, toWindows) ==
            if dirIn && sd.actualLength > 0 then q.(length := sd.actualLength) else q
  {
  }

  lemma RefusedShort(wire: seq<Byte>, offsets: seq<nat>, dirIn: bool, bufferLength: nat, actualLength: nat)
    requires |wire| < DataLength(dirIn, actualLength) + 16 * |offsets|
    ensures !RingAccepts(wire, offsets, dirIn, bufferLength, actualLength)
    ensures IsochTaken(wire, offsets, dirIn, bufferLength, actualLength) == 0
  {
  }

  lemma RefusedMisfit(wire: seq<Byte>, offsets: seq<nat>, bufferLength: nat, actualLength: nat, i: nat)
    requires RingHolds(wire, |offsets|, DataLength(true, actualLength))
    requires StopsAt(SentDescriptors(wire, |offsets|, DataLength(true, actualLength)), offsets, bufferLength, i)
    ensures !RingAccepts(wire, offsets, true, bufferLength, actualLength)
    ensures var src := SentDescriptors(wire, |offsets|, DataLength(true, actualLength));
            IsochTaken(wire, offsets, true, bufferLength, actualLength) == Min(Start(src, i), |wire|)
  {
    var src := SentDescriptors(wire, |offsets|, DataLength(true, actualLength));
    var k := FirstMisfit(src, offsets, bufferLength, 0);
    assert k == i;
  }

  /** The size check after the loop, in terms of the lengths the descriptors claim. */
  lemma TakenTogether(wire: seq<Byte>, offsets: seq<nat>, dirIn: bool, bufferLength: nat, actualLength: nat,
                      rest: seq<Byte>)
    requires var n, data := |offsets|, DataLength(dirIn, actualLength);
             RingHolds(wire, n, data) &&
             var src := SentDescriptors(wire, n, data);
             && (dirIn ==> AllFit(src, offsets, bufferLength, 0, n))
             && var from := if dirIn then Min(Start(src, n), |wire|) else 0;
                rest == wire[from..][Min(16 * n, |wire| - from)..]
    ensures var n, data := |offsets|, DataLength(dirIn, actualLength);
            && (|rest| == |wire| - data - 16 * n <==>
                RingAccepts(wire, offsets, dirIn, bufferLength, actualLength))
            && (|rest| == |wire| - data - 16 * n ==> rest == wire[data + 16 * n..])
  {
    StartIsSum(SentDescriptors(wire, |offsets|, DataLength(dirIn, actualLength)));
  }

  /** The ring after a loop that got through all packets. */
  lemma TakenWhole(wire: seq<Byte>, offsets: seq<nat>, dirIn: bool, bufferLength: nat, actualLength: nat,
                   rest: seq<Byte>)
    requires var n, data := |offsets|, DataLength(dirIn, actualLength);
             RingHolds(wire, n, data) &&
             var src := SentDescriptors(wire, n, data);
             && (dirIn ==> AllFit(src, offsets, bufferLength, 0, n))
             && var from := if dirIn then Min(Start(src, n), |wire|) else 0;
                rest == wire[from..][Min(16 * n, |wire| - from)..]
    ensures rest == wire[IsochTaken(wire, offsets, dirIn, bufferLength, actualLength)..]
  {
    var n, data := |offsets|, DataLength(dirIn, actualLength);
    var src := SentDescriptors(wire, n, data);
    if dirIn {
      assert FirstMisfit(src, offsets, bufferLength, 0) == n;
    }
  }
}
