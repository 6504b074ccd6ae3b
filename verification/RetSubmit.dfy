/** ret_submit of the event receiver: what a claimed response takes off the ring buffer. */
module RetSubmit {
  import opened RingBuffer
  import opened NtStatus
  import opened Wrappers
  import opened PduHeader
  import opened Isochronous
  import opened IsochronousRing

  const STATUS_UNSUCCESSFUL: Status := 0xC000_0001

  type Ulong = x: int | 0 <= x < 0x1_0000_0000

  /** What the request of a response brings along. retrieved: the result of UdecxUrbRetrieveBuffer; length: the
      TransferBufferLength of the URB. */
  datatype Urb =
    | NoUrb
    | Transfer(retrieved: Status, length: Ulong)
    | Isoch(packets: seq<Packet>, retrieved: Status, length: Ulong)

  function AsUlong(n: int): Ulong { n % 0x1_0000_0000 }

  /** check of wsk_receive.h */
  predicate Assignable(length: Ulong, actualLength: int) { 0 <= actualLength <= length }

  /** A transfer whose data is read: it has a buffer, and the length of the response is the expected one or
      can be expected. */
  predicate Reads(retrieved: Status, length: Ulong, h: Header) {
    !NtError(retrieved) && (length == AsUlong(h.actualLength) || Assignable(length, h.actualLength)) && h.DirIn()
  }

  /** What isoch_transfer demands before it looks at the ring. */
  predicate IsochProceeds(urb: Urb, h: Header)
    requires urb.Isoch?
  {
    && h.numberOfPackets == |urb.packets| && Assignable(urb.length, h.actualLength)
    && (h.DirIn() ==> !NtError(urb.retrieved))
  }

  /** How many of the bytes behind the header ret_submit takes off the ring. */
  function Taken(urb: Urb, h: Header, behind: seq<Byte>): (t: nat)
    ensures t <= |behind|
  {
    match urb
    case NoUrb => 0
    case Transfer(retrieved, length) =>
      if Reads(retrieved, length, h) then Min(AsUlong(h.actualLength), |behind|) else 0
    case Isoch(packets, _, length) =>
      if IsochProceeds(urb, h) then IsochTaken(behind, Offsets(packets), h.DirIn(), length, h.actualLength) else 0
  }

  /** The responses that are answered with success. */
  predicate Succeeds(urb: Urb, h: Header, behind: seq<Byte>) {
    match urb
    case NoUrb => true
    case Transfer(retrieved, length) =>
      if NtError(retrieved) then retrieved == STATUS_INVALID_PARAMETER
      else
        && (length == AsUlong(h.actualLength) || Assignable(length, h.actualLength))
        && (h.DirIn() ==> AsUlong(h.actualLength) <= |behind|)
    case Isoch(packets, _, length) =>
      IsochProceeds(urb, h) && RingAccepts(behind, Offsets(packets), h.DirIn(), length, h.actualLength)
  }

  /** What UdecxUrbSetBytesCompleted is told: the length of the response if it is not the expected one, zero if
      that is out of range. */
  function BytesCompleted(urb: Urb, h: Header): Option<Ulong> {
    if !urb.Transfer? || NtError(urb.retrieved) || urb.length == AsUlong(h.actualLength) then None
    else Some(if Assignable(urb.length, h.actualLength) then h.actualLength else 0)
  }

  /** A buffer that bytes have been read to the start of. */
  predicate ReadTo(buffer: seq<Byte>, was: seq<Byte>, bytes: seq<Byte>) {
    |bytes| <= |was| == |buffer| && buffer[..|bytes|] == bytes && buffer[|bytes|..] == was[|bytes|..]
  }

  /** rb.read of the whole length */
  method ReadWhole(ring: Ring, buffer: array<Byte>, length: nat) returns (ok: bool)
    requires ring.Valid() && buffer != ring.buf && length <= buffer.Length
    modifies buffer, ring`tail, ring`size
    ensures ring.Valid() && (ok <==> length <= |old(ring.Contents())|)
    ensures var n := Min(length, |old(ring.Contents())|);
            && ring.Contents() == old(ring.Contents())[n..]
            && ReadTo(buffer[..], old(buffer[..]), old(ring.Contents())[..n])
  {
    hide Ring.Contents;
    var before := ring.size;
    ReadInto(ring, buffer, 0, length);
    return before - ring.size == length;
  }

  /** The length that is going to be read, and what the framework is told about it. */
  method AssignLength(urb: Urb, h: Header) returns (ok: bool, length: nat, completed: Option<Ulong>)
    requires urb.Transfer? && !NtError(urb.retrieved)
    ensures ok <==> urb.length == AsUlong(h.actualLength) || Assignable(urb.length, h.actualLength)
    ensures ok ==> length == AsUlong(h.actualLength) <= urb.length
    ensures completed == BytesCompleted(urb, h)
  {
    ok, length, completed := true, urb.length, None;
    if length != AsUlong(h.actualLength) {
      ok := Assignable(urb.length, h.actualLength);
      length := if ok then h.actualLength else 0;
      completed := Some(length);
    }
  }

  lemma TransferIs(urb: Urb, h: Header, wire: seq<Byte>)
    requires urb.Transfer?
    ensures var expected := urb.length == AsUlong(h.actualLength) || Assignable(urb.length, h.actualLength);
            if NtError(urb.retrieved) then
              && Taken(urb, h, wire) == 0 && BytesCompleted(urb, h) == None
              && (Succeeds(urb, h, wire) <==> urb.retrieved == STATUS_INVALID_PARAMETER)
            else
              && Taken(urb, h, wire) == (if expected && h.DirIn() then Min(AsUlong(h.actualLength), |wire|) else 0)
              && (Succeeds(urb, h, wire) <==> expected && (h.DirIn() ==> AsUlong(h.actualLength) <= |wire|))
  {
  }

  /** ret_submit_urb for all but isochronous transfers. */
  method FinishTransfer(urb: Urb, h: Header, buffer: array<Byte>, ring: Ring)
    returns (st: Status, completed: Option<Ulong>)
    requires urb.Transfer? && ring.Valid() && buffer != ring.buf && buffer.Length == urb.length
    modifies buffer, ring`tail, ring`size
    ensures ring.Valid()
    ensures var taken := Taken(urb, h, old(ring.Contents()));
            && ring.Contents() == old(ring.Contents())[taken..]
            && ReadTo(buffer[..], old(buffer[..]), old(ring.Contents())[..taken])
    ensures NtError(st) <==> !Succeeds(urb, h, old(ring.Contents()))
    ensures !NtError(st) ==> st == STATUS_SUCCESS
    ensures completed == BytesCompleted(urb, h)
  {
    hide Ring.Contents, Ring.Valid, Taken, Succeeds, BytesCompleted, AsUlong, Assignable;
    ghost var wire := ring.Contents();
    TransferIs(urb, h, wire);
    NothingRead(buffer[..], wire);
    if NtError(urb.retrieved) {
      return if urb.retrieved == STATUS_INVALID_PARAMETER then STATUS_SUCCESS else urb.retrieved, None;
    }
    var ok, length;
    ok, length, completed := AssignLength(urb, h);
    if !ok {
      return STATUS_INVALID_BUFFER_SIZE, completed;
    }
    if length > 0 && h.DirIn() {
      hide ReadTo;
      ok := ReadWhole(ring, buffer, length);
      if !ok {
        return STATUS_INVALID_BUFFER_SIZE, completed;
      }
    }
    return STATUS_SUCCESS, completed;
  }

  lemma NothingRead(buffer: seq<Byte>, wire: seq<Byte>)
    ensures wire[..0] == [] && wire[0..] == wire && ReadTo(buffer, buffer, [])
  {
  }

  /** Packets and buffer of the URB after an isochronous response has been accepted. */
  predicate IsochStored(urb: Urb, h: Header, wire: seq<Byte>, was: seq<Byte>, packets: seq<Packet>, buffer: seq<Byte>,
                        toWindows: nat -> nat)
    requires urb.Isoch?
  {
    var n, offsets, data := |urb.packets|, Offsets(urb.packets), if h.DirIn() then h.actualLength else 0;
    && 0 <= data && RingHolds(wire, n, data) && |packets| == n &&
    var src := SentDescriptors(wire, n, data);
    && (forall i | 0 <= i < n :: packets[i] == Received(urb.packets[i], src[i], h.DirIn(), toWindows))
    && if h.DirIn() then AllFit(src, offsets, |was|, 0, n) && buffer == ScatterUp(was, wire, src, offsets, n)
       else buffer == was
  }

  /** The call of the ring decoder, with a buffer for IN data only. */
  method DecodeRing(urb: Urb, h: Header, packets: array<Packet>, buffer: array<Byte>, ring: Ring,
                    toWindows: nat -> nat)
    returns (st: Status)
    requires urb.Isoch? && packets[..] == urb.packets && h.actualLength >= 0
    requires ring.Valid() && buffer != ring.buf && buffer.Length == urb.length
    modifies packets, buffer, ring`tail, ring`size
    ensures ring.Valid()
    ensures var wire, offsets := old(ring.Contents()), Offsets(urb.packets);
            && ring.Contents() == wire[IsochTaken(wire, offsets, h.DirIn(), urb.length, h.actualLength)..]
            && (st == STATUS_SUCCESS <==> RingAccepts(wire, offsets, h.DirIn(), urb.length, h.actualLength))
    ensures NtError(st) <==> st != STATUS_SUCCESS
    ensures st == STATUS_SUCCESS ==>
              IsochStored(urb, h, old(ring.Contents()), old(buffer[..]), packets[..], buffer[..], toWindows)
  {
    hide Ring.Contents, Ring.Valid, RingAccepts, IsochTaken, Offsets, IsochStored, ScatterUp, SentDescriptors, Received;
    ghost var wire, was := ring.Contents(), buffer[..];
    if h.DirIn() {
      st := FillFromRing(packets, buffer, h.actualLength, ring, toWindows);
    } else {
      AcceptsIsochOut(wire, Offsets(urb.packets), buffer.Length, h.actualLength);
      st := FillFromRing(packets, null, h.actualLength, ring, toWindows);
    }
    if st == STATUS_SUCCESS {
      StoredIs(urb, h, wire, was, packets[..], buffer[..], toWindows);
    }
  }

  /** isoch_transfer with the event receiver. */
  method FinishIsoch(urb: Urb, h: Header, packets: array<Packet>, buffer: array<Byte>, ring: Ring,
                     toWindows: nat -> nat)
    returns (st: Status)
    requires urb.Isoch? && packets[..] == urb.packets
    requires ring.Valid() && buffer != ring.buf && buffer.Length == urb.length
    modifies packets, buffer, ring`tail, ring`size
    ensures ring.Valid()
    ensures ring.Contents() == old(ring.Contents())[Taken(urb, h, old(ring.Contents()))..]
    ensures NtError(st) <==> !Succeeds(urb, h, old(ring.Contents()))
    ensures !NtError(st) ==> st == STATUS_SUCCESS
    ensures st == STATUS_SUCCESS ==>
              IsochStored(urb, h, old(ring.Contents()), old(buffer[..]), packets[..], buffer[..], toWindows)
  {
    hide Ring.Contents, Ring.Valid, RingAccepts, IsochTaken, Offsets, IsochStored;
    if h.numberOfPackets != packets.Length || !Assignable(urb.length, h.actualLength) {
      return STATUS_INVALID_PARAMETER;
    }
    if h.DirIn() && NtError(urb.retrieved) {
      return urb.retrieved;
    }
    st := DecodeRing(urb, h, packets, buffer, ring, toWindows);
  }

  lemma StoredIs(urb: Urb, h: Header, wire: seq<Byte>, was: seq<Byte>, packets: seq<Packet>, buffer: seq<Byte>,
                 toWindows: nat -> nat)
    requires urb.Isoch? && |packets| == |urb.packets| && 0 <= h.actualLength
    requires RingAccepts(wire, Offsets(urb.packets), h.DirIn(), |was|, h.actualLength)
    requires var src := SentDescriptors(wire, |packets|, DataLength(h.DirIn(), h.actualLength));
             && (forall i | 0 <= i < |packets| ::
                   packets[i] == Received(urb.packets[i], src[i], h.DirIn(), toWindows))
             && if h.DirIn() then buffer == ScatterUp(was, wire, src, Offsets(urb.packets), |src|) else buffer == was
    ensures IsochStored(urb, h, wire, was, packets, buffer, toWindows)
  {
    hide ScatterUp, DescriptorAt, Received;
  }

  /** Nothing is stored for an OUT transfer, so the length of its buffer does not matter. */
  lemma AcceptsIsochOut(ring: seq<Byte>, offsets: seq<nat>, bufferLength: nat, actualLength: nat)
    ensures RingAccepts(ring, offsets, false, bufferLength, actualLength) <==>
            RingAccepts(ring, offsets, false, 0, actualLength)
    ensures IsochTaken(ring, offsets, false, bufferLength, actualLength) ==
            IsochTaken(ring, offsets, false, 0, actualLength)
  {
  }

  /** ret_submit; packets and buffer belong to the URB. */
  method Submit(urb: Urb, h: Header, packets: array<Packet>, buffer: array<Byte>, ring: Ring,
                toWindows: nat -> nat)
    returns (st: Status, completed: Option<Ulong>)
    requires ring.Valid() && buffer != ring.buf
    requires urb.Isoch? ==> packets[..] == urb.packets
    requires !urb.NoUrb? ==> buffer.Length == urb.length
    modifies packets, buffer, ring`tail, ring`size
    ensures ring.Valid()
    ensures ring.Contents() == old(ring.Contents())[Taken(urb, h, old(ring.Contents()))..]
    ensures urb.Transfer? ==>
              ReadTo(buffer[..], old(buffer[..]), old(ring.Contents())[..Taken(urb, h, old(ring.Contents()))])
    ensures urb.Isoch? && st == STATUS_SUCCESS ==>
              IsochStored(urb, h, old(ring.Contents()), old(buffer[..]), packets[..], buffer[..], toWindows)
    ensures NtError(st) <==> if urb.NoUrb? then h.status != 0 else !Succeeds(urb, h, old(ring.Contents()))
    ensures completed == BytesCompleted(urb, h)
  {
    hide Ring.Contents;
    completed := None;
    match urb {
      case NoUrb =>
        return if h.status != 0 then STATUS_UNSUCCESSFUL else STATUS_SUCCESS, completed;
      case Transfer(_, _) =>
        st, completed := FinishTransfer(urb, h, buffer, ring);
      case Isoch(_, _, _) =>
        st := FinishIsoch(urb, h, packets, buffer, ring, toWindows);
    }
  }

  // ----- what the answers come to -----

  /** A transfer with a buffer of the URB's length, answered with no more than that: an IN answer succeeds exactly if
      its data is there, and takes exactly that; an OUT answer always succeeds and takes nothing. A length that was
      not expected is reported. */
  lemma ShortAnswers(urb: Urb, h: Header, behind: seq<Byte>)
    requires urb.Transfer? && !NtError(urb.retrieved) && 0 <= h.actualLength <= urb.length
    ensures h.seqnum % 2 == 1 ==>
              && (Succeeds(urb, h, behind) <==> h.actualLength <= |behind|)
              && Taken(urb, h, behind) == Min(h.actualLength, |behind|)
    ensures h.seqnum % 2 == 0 ==> Succeeds(urb, h, behind) && Taken(urb, h, behind) == 0
    ensures BytesCompleted(urb, h) == if h.actualLength == urb.length then None else Some(h.actualLength)
  {
  }

  /** An answer that is longer than the buffer, or of a negative length other than that of the buffer in two's
      complement, is an error; nothing is read, and zero bytes are reported. */
  lemma LongAnswers(urb: Urb, h: Header, behind: seq<Byte>)
    requires urb.Transfer? && !NtError(urb.retrieved)
    requires h.actualLength > urb.length || (h.actualLength < 0 && urb.length != h.actualLength + 0x1_0000_0000)
    ensures !Succeeds(urb, h, behind) && Taken(urb, h, behind) == 0 && BytesCompleted(urb, h) == Some(0)
  {
  }

  /** A negative length that is that of the buffer in two's complement is taken for it. */
  lemma NegativeAnswers(urb: Urb, h: Header, behind: seq<Byte>)
    requires urb.Transfer? && !NtError(urb.retrieved)
    requires h.actualLength < 0 && urb.length == h.actualLength + 0x1_0000_0000
    ensures Succeeds(urb, h, behind) <==> h.seqnum % 2 == 0 || urb.length <= |behind|
    ensures Taken(urb, h, behind) == if h.seqnum % 2 == 1 then Min(urb.length, |behind|) else 0
    ensures BytesCompleted(urb, h) == None
  {
  }

  /** Without a buffer nothing is read; that is an error unless the URB has none. */
  lemma AnswersWithoutBuffer(urb: Urb, h: Header, behind: seq<Byte>)
    requires urb.Transfer? && NtError(urb.retrieved)
    ensures Succeeds(urb, h, behind) <==> urb.retrieved == 0xC000_000D
    ensures Taken(urb, h, behind) == 0 && BytesCompleted(urb, h) == None
  {
  }

  /** An isochronous request is answered with success exactly if the counts of packets agree, the data is no longer
      than the buffer, there is a buffer for IN data, and the ring decoder takes the response. */
  lemma IsochAnswers(urb: Urb, h: Header, behind: seq<Byte>)
    requires urb.Isoch?
    ensures Succeeds(urb, h, behind) <==>
            && h.numberOfPackets == |urb.packets| && 0 <= h.actualLength <= urb.length
            && (h.seqnum % 2 == 1 ==> urb.retrieved < 0xC000_0000)
            && RingAccepts(behind, Offsets(urb.packets), h.seqnum % 2 == 1, urb.length, h.actualLength)
    ensures Taken(urb, h, behind) > 0 ==>
              && h.numberOfPackets == |urb.packets| && 0 <= h.actualLength <= urb.length
              && (h.seqnum % 2 == 1 ==> urb.retrieved < 0xC000_0000)
  {
    hide RingAccepts, IsochTaken;
  }

  // ----- what the framer relies on -----

  /** ret_submit takes the payload of the response and nothing else. */
  predicate TakesPayload(urb: Urb, h: Header, behind: seq<Byte>) {
    HEADER_SIZE + Taken(urb, h, behind) == TotalSize(h)
  }

  predicate Empty(h: Header) { h.DataSize() + 16 * h.numberOfPackets == 0 }

  /** Not all packets of the response fit, and what the ones before the first misfit took is as long as data and
      descriptors together, or would be longer and nothing follows in the ring. */
  predicate MisfitAtTheEnd(urb: Urb, h: Header, behind: seq<Byte>)
    requires urb.Isoch? && IsochProceeds(urb, h) && h.actualLength + 16 * h.numberOfPackets <= |behind|
  {
    var n := |urb.packets|;
    var src := SentDescriptors(behind, n, h.actualLength);
    var k := FirstMisfit(src, Offsets(urb.packets), urb.length, 0);
    var end := h.actualLength + 16 * n;
    k < n && (Start(src, k) == end || (Start(src, k) > end && |behind| == end))
  }

  /** The responses whose payload is taken exactly: those without one to requests that read nothing; data
      without packets, and no more of it than asked for; isochronous responses that are accepted. Besides them
      two accidents: reading into a huge buffer for a negative length empties the ring, and packets read before
      one that does not fit can be as long as what was to be taken. */
  predicate Proper(urb: Urb, h: Header, behind: seq<Byte>)
    requires h.command == RET_SUBMIT && TotalSize(h) <= HEADER_SIZE + |behind|
  {
    match urb
    case NoUrb => Empty(h)
    case Transfer(retrieved, length) =>
      if !Reads(retrieved, length, h) then Empty(h)
      else if h.actualLength >= 0 then h.numberOfPackets == 0
      else |behind| == h.actualLength + 16 * h.numberOfPackets
    case Isoch(packets, _, length) =>
      if !IsochProceeds(urb, h) then Empty(h)
      else
        || RingAccepts(behind, Offsets(packets), h.DirIn(), length, h.actualLength)
        || (h.DirIn() && h.actualLength + 16 * h.numberOfPackets <= |behind| && MisfitAtTheEnd(urb, h, behind))
  }

  lemma SmallTotal(raw: seq<Byte>, h: Header, behind: seq<Byte>)
    requires |raw| == HEADER_SIZE && Validate(raw) == Some(h)
    requires TotalSize(h) <= HEADER_SIZE + |behind| && |behind| < 0x8000_0000_0000_0000
    ensures TotalSize(h) == HEADER_SIZE + h.DataSize() + 16 * h.numberOfPackets
    ensures -0x8000_0000 <= h.actualLength < 0x8000_0000 && h.numberOfPackets <= MAX_ISO_PACKETS
  {
    SizeRange(raw);
  }

  lemma IsochExactly(urb: Urb, h: Header, behind: seq<Byte>)
    requires urb.Isoch? && IsochProceeds(urb, h) && h.command == RET_SUBMIT
    requires TotalSize(h) == HEADER_SIZE + h.DataSize() + 16 * h.numberOfPackets <= HEADER_SIZE + |behind|
    ensures TakesPayload(urb, h, behind) <==> Proper(urb, h, behind)
  {
    hide SentDescriptors, TotalSize, FitsAt, Sum;
    if h.DirIn() {
      var src := SentDescriptors(behind, |urb.packets|, h.actualLength);
      StartIsSum(src);
      MisfitOrNone(src, Offsets(urb.packets), urb.length);
      assert RingHolds(behind, |urb.packets|, h.actualLength);
    } else {
      assert RingHolds(behind, |urb.packets|, 0);
      assert Taken(urb, h, behind) == 16 * |urb.packets|;
    }
  }

  lemma MisfitOrNone(src: seq<Descriptor>, offsets: seq<nat>, bufferLength: nat)
    requires |src| == |offsets|
    ensures FirstMisfit(src, offsets, bufferLength, 0) < |src| <==> !AllFit(src, offsets, bufferLength, 0, |src|)
  {
  }

  /** Exactly which responses leave the ring where the framer expects it. */
  lemma TakenExactly(raw: seq<Byte>, h: Header, urb: Urb, behind: seq<Byte>)
    requires |raw| == HEADER_SIZE && Validate(raw) == Some(h) && h.command == RET_SUBMIT
    requires TotalSize(h) <= HEADER_SIZE + |behind| && |behind| < 0x8000_0000_0000_0000
    ensures TakesPayload(urb, h, behind) <==> Proper(urb, h, behind)
  {
    hide Validate, TotalSize, IsochTaken, RingAccepts;
    SmallTotal(raw, h, behind);
    if urb.Isoch? && IsochProceeds(urb, h) {
      IsochExactly(urb, h, behind);
    }
  }

  /** An isochronous response that is accepted, packet count and all, leaves the ring at the next PDU. */
  lemma AcceptedIsochTakesPayload(raw: seq<Byte>, h: Header, urb: Urb, behind: seq<Byte>)
    requires |raw| == HEADER_SIZE && Validate(raw) == Some(h) && h.command == RET_SUBMIT
    requires TotalSize(h) <= HEADER_SIZE + |behind| && |behind| < 0x8000_0000_0000_0000
    requires urb.Isoch? && Succeeds(urb, h, behind)
    ensures TakesPayload(urb, h, behind)
  {
    hide Validate, TotalSize, TakesPayload, RingAccepts, MisfitAtTheEnd;
    TakenExactly(raw, h, urb, behind);
  }
}
