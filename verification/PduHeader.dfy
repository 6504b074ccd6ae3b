/** The header of a USB/IP response as it arrives, and the size of the PDU it announces. */
module PduHeader {
  import opened RingBuffer
  import opened Seqnum
  import opened Wrappers

  const HEADER_SIZE := 48
  const MAX_ISO_PACKETS := 1024
  const RET_SUBMIT := 3
  const RET_UNLINK := 4

  type Int32 = x: int | -0x8000_0000 <= x < 0x8000_0000

  /** The fields of usbip::header the framer looks at, in host byte order and after validate. */
  datatype Header = Header(command: nat, seqnum: Seqnum, status: Int32, actualLength: Int32, numberOfPackets: nat)
  {
    /** The direction of a response is the one its number was given for. */
    predicate DirIn() { ExtractDirIn(seqnum) }

    /** The data behind the header, as a signed number. */
    function DataSize(): int { if command == RET_SUBMIT && DirIn() then actualLength else 0 }
  }

  /** A big-endian 32-bit field, unsigned and signed. */
  function U32(raw: seq<Byte>, at: nat): (n: nat)
    requires at + 4 <= |raw|
    ensures n < 0x1_0000_0000
  {
    var b0: int, b1: int, b2: int, b3: int := raw[at], raw[at + 1], raw[at + 2], raw[at + 3];
    b0 * 0x100_0000 + b1 * 0x1_0000 + b2 * 0x100 + b3
  }

  function I32(raw: seq<Byte>, at: nat): Int32
    requires at + 4 <= |raw|
  {
    if U32(raw, at) < 0x8000_0000 then U32(raw, at) else U32(raw, at) - 0x1_0000_0000
  }

  /** validate: byte order, command, packet count and sequence number; not the actual length. */
  function Validate(raw: seq<Byte>): Option<Header>
    requires |raw| == HEADER_SIZE
  {
    var command := U32(raw, 0);
    var seqnum := U32(raw, 4);
    var packets := I32(raw, 32);
    if command != RET_SUBMIT && command != RET_UNLINK then None
    else if command == RET_SUBMIT && packets != -1 && !(0 <= packets <= MAX_ISO_PACKETS) then None
    else if ExtractNum(seqnum) == 0 then None
    else
      var count := if command == RET_SUBMIT && packets != -1 then packets else 0;
      Some(Header(command, seqnum, I32(raw, 20), I32(raw, 24), count))
  }

  /** The size of the PDU, with 16 bytes per isochronous descriptor, before it is converted to size_t. */
  function SignedSize(h: Header): int {
    HEADER_SIZE + h.DataSize() + 16 * h.numberOfPackets
  }

  /** get_total_size: a negative sum wraps to a huge size_t. */
  function TotalSize(h: Header): nat {
    SignedSize(h) % 0x1_0000_0000_0000_0000
  }

  /** SignedSize of a validated header fits 33 bits, so only a negative one wraps. */
  lemma SizeRange(raw: seq<Byte>)
    requires |raw| == HEADER_SIZE && Validate(raw).Some?
    ensures -0x8000_0000 <= SignedSize(Validate(raw).value) < 0x1_0000_0000
  {
    var h := Validate(raw).value;
    assert -0x8000_0000 <= h.actualLength < 0x8000_0000;
    assert h.numberOfPackets <= MAX_ISO_PACKETS;
  }

  lemma ProperTotals(raw: seq<Byte>)
    requires |raw| == HEADER_SIZE && Validate(raw).Some?
    ensures var h := Validate(raw).value;
            && (h.DataSize() >= 0 ==> HEADER_SIZE <= TotalSize(h) == SignedSize(h))
            && (h.actualLength >= 0 || h.command == RET_UNLINK || h.seqnum % 2 == 0 ==>
                  TotalSize(h) == 48 + 16 * h.numberOfPackets +
                                  if h.command == RET_SUBMIT && h.seqnum % 2 == 1 then h.actualLength else 0)
            && (TotalSize(h) <= MAX_BYTES ==> TotalSize(h) == SignedSize(h))
            && (TotalSize(h) == 0 <==>
                  h.command == RET_SUBMIT && h.DirIn() &&
                  h.actualLength == -(HEADER_SIZE + 16 * h.numberOfPackets))
  {
    hide Validate;
    SizeRange(raw);
  }

  /** A response that carries a number of next_seqnum is not refused for it, and has the direction for which
      the number was given. */
  lemma IssuedIsRecognised(raw: seq<Byte>, n: nat, nums: seq<Seqnum>, k: nat)
    requires |raw| == HEADER_SIZE && Issued(n, nums) && k < |nums| && U32(raw, 4) == nums[k]
    requires U32(raw, 0) == RET_UNLINK || (U32(raw, 0) == RET_SUBMIT && -1 <= I32(raw, 32) <= MAX_ISO_PACKETS)
    ensures Validate(raw).Some?
    ensures Validate(raw).value.seqnum == nums[k] && Validate(raw).value.DirIn() == ExtractDirIn(nums[k])
  {
    hide U32, I32, Nth;
    assert ExtractNum(nums[k]) == Nth(n, k + 1);
  }

  // ----- what a server sends -----

  /** The digits of a number in base 256, the highest first. */
  function Digits(n: int): (raw: seq<Byte>)
    requires 0 <= n < 0x1_0000_0000
    ensures |raw| == 4
  {
    [n / 256 / 256 / 256, n / 256 / 256 % 256, n / 256 % 256, n % 256]
  }

  /** A signed number in two's complement. */
  function Signed(n: int): (raw: seq<Byte>)
    requires -0x8000_0000 <= n < 0x8000_0000
    ensures |raw| == 4
  {
    Digits(if n < 0 then n + 0x1_0000_0000 else n)
  }

  lemma DigitsAreRead(before: seq<Byte>, n: int, after: seq<Byte>)
    requires 0 <= n < 0x1_0000_0000
    ensures U32(before + Digits(n) + after, |before|) == n
  {
    var raw, at := before + Digits(n) + after, |before|;
    assert raw[at] == Digits(n)[0] && raw[at + 1] == Digits(n)[1];
    assert raw[at + 2] == Digits(n)[2] && raw[at + 3] == Digits(n)[3];
    var high := n / 256;
    assert n == 256 * high + n % 256 && high == 256 * (high / 256) + high % 256;
    assert high / 256 == 256 * (high / 256 / 256) + high / 256 % 256;
  }

  lemma SignedIsRead(before: seq<Byte>, n: int, after: seq<Byte>)
    requires -0x8000_0000 <= n < 0x8000_0000
    ensures I32(before + Signed(n) + after, |before|) == n
  {
    hide Digits, U32;
    DigitsAreRead(before, if n < 0 then n + 0x1_0000_0000 else n, after);
  }

  /** usbip_header with a ret_submit in it. address: device id, direction and endpoint; startFrame and padding
      are not looked at either. */
  function Encode(command: int, seqnum: int, address: seq<Byte>, status: int, actualLength: int,
                  startFrame: seq<Byte>, packets: int, padding: seq<Byte>): (raw: seq<Byte>)
    requires 0 <= command < 0x1_0000_0000 && 0 <= seqnum < 0x1_0000_0000
    requires -0x8000_0000 <= status < 0x8000_0000 && -0x8000_0000 <= actualLength < 0x8000_0000
    requires -0x8000_0000 <= packets < 0x8000_0000
    requires |address| == 12 && |startFrame| == 4 && |padding| == 12
    ensures |raw| == HEADER_SIZE
  {
    Digits(command) + Digits(seqnum) + address + Signed(status) + Signed(actualLength) + startFrame + Signed(packets)
    + padding
  }

  lemma FieldsAreRead(command: int, seqnum: int, address: seq<Byte>, status: int, actualLength: int,
                      startFrame: seq<Byte>, packets: int, padding: seq<Byte>)
    requires 0 <= command < 0x1_0000_0000 && 0 <= seqnum < 0x1_0000_0000
    requires -0x8000_0000 <= status < 0x8000_0000 && -0x8000_0000 <= actualLength < 0x8000_0000
    requires -0x8000_0000 <= packets < 0x8000_0000
    requires |address| == 12 && |startFrame| == 4 && |padding| == 12
    ensures var raw := Encode(command, seqnum, address, status, actualLength, startFrame, packets, padding);
            && U32(raw, 0) == command && U32(raw, 4) == seqnum && I32(raw, 20) == status
            && I32(raw, 24) == actualLength && I32(raw, 32) == packets
  {
    hide Digits, Signed, U32, I32;
    var raw := Encode(command, seqnum, address, status, actualLength, startFrame, packets, padding);
    var head := Digits(command) + Digits(seqnum) + address;
    var c, d := Signed(status), Signed(actualLength);
    assert raw == [] + Digits(command) + raw[4..];
    DigitsAreRead([], command, raw[4..]);
    assert raw == Digits(command) + Digits(seqnum) + raw[8..];
    DigitsAreRead(Digits(command), seqnum, raw[8..]);
    assert raw == head + c + raw[24..];
    SignedIsRead(head, status, raw[24..]);
    assert raw == (head + c) + d + raw[28..];
    SignedIsRead(head + c, actualLength, raw[28..]);
    assert raw == (head + c + d + startFrame) + Signed(packets) + raw[36..];
    SignedIsRead(head + c + d + startFrame, packets, raw[36..]);
  }

  /** A header is accepted exactly if it is a RET_SUBMIT (3) with -1 or up to 1024 packets or a RET_UNLINK (4), with
      a number above the direction bit, and every field is then read as it was written. */
  lemma ValidateReadsBack(command: int, seqnum: int, address: seq<Byte>, status: int, actualLength: int,
                          startFrame: seq<Byte>, packets: int, padding: seq<Byte>)
    requires 0 <= command < 0x1_0000_0000 && 0 <= seqnum < 0x1_0000_0000
    requires -0x8000_0000 <= status < 0x8000_0000 && -0x8000_0000 <= actualLength < 0x8000_0000
    requires -0x8000_0000 <= packets < 0x8000_0000
    requires |address| == 12 && |startFrame| == 4 && |padding| == 12
    ensures Validate(Encode(command, seqnum, address, status, actualLength, startFrame, packets, padding)) ==
            if seqnum >= 2 && command == 4 then Some(Header(4, seqnum, status, actualLength, 0))
            else if seqnum >= 2 && command == 3 && packets == -1 then Some(Header(3, seqnum, status, actualLength, 0))
            else if seqnum >= 2 && command == 3 && 0 <= packets <= 1024
            then Some(Header(3, seqnum, status, actualLength, packets))
            else None
  {
    hide U32, I32, Encode;
    FieldsAreRead(command, seqnum, address, status, actualLength, startFrame, packets, padding);
  }
}
