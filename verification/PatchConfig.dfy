/** The configuration descriptor of a low- or full-speed device, rewritten in place for the hub driver,
    which takes every device for a high-speed one. */
module PatchConfig {
  import opened RingBuffer

  const CONFIGURATION_TYPE := 2
  const ENDPOINT_TYPE := 5
  const CONFIGURATION_SIZE := 9
  const ENDPOINT_SIZE := 7

  // ----- intervals -----

  function Pow2(n: nat): (p: nat)
    ensures p > 0
  {
    if n == 0 then 1 else 2 * Pow2(n - 1)
  }

  /** How many microframes apart a high-speed endpoint with interval i is polled. */
  function Microframes(i: nat): nat
    requires i >= 1
  {
    Pow2(i - 1)
  }

  lemma {:induction false} Pow2Increases(n: nat, m: nat)
    requires n < m
    ensures Pow2(n) < Pow2(m)
  {
    if n + 1 < m {
      Pow2Increases(n, m - 1);
    }
  }

  lemma Pow2OfEleven()
    ensures Pow2(11) == 2048
  {
    assert Pow2(4) == 16;
    assert Pow2(8) == 256;
  }

  /** An interrupt interval b of slower devices is b frames of eight microframes. */
  predicate LeastInterval(i: nat, b: Byte) {
    && 1 <= i <= 12 && Microframes(i) >= 8 * b
    && forall j: nat | 1 <= j < i :: Microframes(j) < 8 * b
  }

  method ToHighSpeedInterval(b: Byte) returns (r: Byte)
    ensures LeastInterval(r, b)
  {
    var microframes := 8 * b;
    r := 16;
    var i := 1;
    while i <= 16
      invariant 1 <= i <= 12
      invariant forall j: nat | 1 <= j < i :: Microframes(j) < microframes
    {
      if Microframes(i) >= microframes {
        return i;
      }
      Pow2OfEleven();
      i := i + 1;
    }
    assert false;  // 2048 microframes are enough for any interval
  }

  /** The interval as a function of the old one, and why there is only one. */
  function HighSpeedInterval(b: Byte): (i: Byte)
    ensures LeastInterval(i, b)
  {
    LeastFrom(b, 1)
  }

  function LeastFrom(b: Byte, i: nat): (r: Byte)
    requires 1 <= i <= 12 && forall j: nat | 1 <= j < i :: Microframes(j) < 8 * b
    ensures LeastInterval(r, b)
    decreases 12 - i
  {
    if Microframes(i) >= 8 * b then i
    else
      Pow2OfEleven();
      LeastFrom(b, i + 1)
  }

  lemma LeastIsUnique(i: nat, j: nat, b: Byte)
    requires LeastInterval(i, b) && LeastInterval(j, b)
    ensures i == j
  {
  }

  function Clamped(b: Byte): Byte { if b < 1 then 1 else if b > 16 then 16 else b }

  function IsochronousInterval(b: Byte): Byte { Min(Clamped(b) + 3, 16) }

  /** The isochronous interval names the same time, 2^(b - 1) frames, unless the high-speed range is too short. */
  lemma IsochronousPeriodIsKept(b: Byte)
    ensures Microframes(IsochronousInterval(b)) == 8 * Microframes(Clamped(b)) <==> b <= 13
  {
    var c := Clamped(b);
    assert Pow2(c + 2) == 8 * Pow2(c - 1) by {
      assert Pow2(c + 2) == 2 * Pow2(c + 1);
      assert Pow2(c + 1) == 2 * Pow2(c);
    }
    if c > 13 {
      Pow2Increases(15, c + 2);
    }
  }

  // ----- the chain of descriptors -----

  predicate ValidConfiguration(d: seq<Byte>) {
    |d| >= CONFIGURATION_SIZE && d[0] == CONFIGURATION_SIZE && d[1] == CONFIGURATION_TYPE && TotalLength(d) > d[0]
  }

  function TotalLength(d: seq<Byte>): nat
    requires |d| >= CONFIGURATION_SIZE
  {
    d[2] as int + 256 * d[3] as int
  }

  /** A whole descriptor at an offset. */
  predicate DescriptorAt(d: seq<Byte>, total: nat, at: nat) {
    at + 2 <= total <= |d| && d[at] >= 2 && at + d[at] <= total
  }

  /** The first descriptor of a type in the chain from an offset on. */
  function Find(d: seq<Byte>, total: nat, ty: Byte, at: nat): (r: int)
    ensures r == -1 || (at <= r && DescriptorAt(d, total, r) && d[r + 1] == ty)
    decreases total - at
  {
    if !DescriptorAt(d, total, at) then -1
    else if d[at + 1] == ty then at
    else Find(d, total, ty, at + d[at])
  }

  /** cur: the result of the call before, -1 for the first call; so is "none" in the result. */
  method FindNext(d: array<Byte>, ty: Byte, cur: int) returns (r: int)
    requires ValidConfiguration(d[..]) ==> TotalLength(d[..]) <= d.Length
    requires ValidConfiguration(d[..]) && cur != -1 ==> cur >= 0 && DescriptorAt(d[..], TotalLength(d[..]), cur)
    ensures r == if !ValidConfiguration(d[..]) then -1
                 else Find(d[..], TotalLength(d[..]), ty, if cur == -1 then 0 else cur + d[cur])
  {
    if d.Length < CONFIGURATION_SIZE || d[0] != CONFIGURATION_SIZE || d[1] != CONFIGURATION_TYPE {
      return -1;
    }
    var end := d[2] as int + 256 * d[3] as int;
    if end <= d[0] {
      return -1;
    }
    var at: nat := if cur == -1 then 0 else cur + d[cur];
    while at + 2 <= end
      invariant at <= end
      invariant Find(d[..], end, ty, if cur == -1 then 0 else cur + d[cur]) == Find(d[..], end, ty, at)
      decreases end - at
    {
      if d[at] < 2 || at + d[at] > end {
        break;
      }
      if d[at + 1] == ty {
        return at;
      }
      at := at + d[at];
    }
    return -1;
  }

  // ----- patching -----

  /** One endpoint rewritten: a bulk endpoint gets 512 bytes, the periodic ones an interval. */
  function PatchedAt(d: seq<Byte>, at: nat): (r: seq<Byte>)
    requires at + ENDPOINT_SIZE <= |d|
    ensures |r| == |d|
    ensures forall k | 0 <= k < |d| && !(at + 4 <= k <= at + 6) :: r[k] == d[k]
  {
    match d[at + 3] % 4
    case 0 => d
    case 1 => d[at + 6 := IsochronousInterval(d[at + 6])]
    case 2 => d[at + 4 := 0][at + 5 := 2]
    case _ => d[at + 6 := HighSpeedInterval(d[at + 6])]
  }

  /** The endpoints of the chain, up to the first truncated one. */
  function Endpoints(d: seq<Byte>, total: nat, at: nat): (r: seq<nat>)
    ensures forall i | 0 <= i < |r| :: at <= r[i] && r[i] + ENDPOINT_SIZE <= total <= |d|
    decreases total - at
  {
    var r := Find(d, total, ENDPOINT_TYPE, at);
    if r == -1 || d[r] < ENDPOINT_SIZE then [] else [r] + Endpoints(d, total, r + d[r])
  }

  function PatchedAll(d: seq<Byte>, ts: seq<nat>): (r: seq<Byte>)
    requires forall i | 0 <= i < |ts| :: ts[i] + ENDPOINT_SIZE <= |d|
    ensures |r| == |d|
    decreases |ts|
  {
    if ts == [] then d else PatchedAll(PatchedAt(d, ts[0]), ts[1..])
  }

  /** Which endpoints there are is read off the descriptor as it arrived. */
  function Patched(d: seq<Byte>): (r: seq<Byte>)
    ensures |r| == |d|
  {
    if ValidConfiguration(d) then PatchedAll(d, Endpoints(d, TotalLength(d), 0)) else d
  }

  method PatchEndpoint(d: array<Byte>, cur: nat)
    requires cur + ENDPOINT_SIZE <= d.Length
    modifies d
    ensures d[..] == PatchedAt(old(d[..]), cur)
  {
    match d[cur + 3] % 4
    case 2 =>
      d[cur + 4], d[cur + 5] := 0, 2;  // wMaxPacketSize is 512
    case 1 =>
      if !(1 <= d[cur + 6] <= 16) {
        d[cur + 6] := Min(if d[cur + 6] > 1 then d[cur + 6] else 1, 16);
      }
      d[cur + 6] := Min(d[cur + 6] + 3, 16);
    case 3 =>
      var i := ToHighSpeedInterval(d[cur + 6]);
      LeastIsUnique(i, HighSpeedInterval(d[cur + 6]), d[cur + 6]);
      d[cur + 6] := i;
    case _ =>
  }

  predicate Agree(d: seq<Byte>, e: seq<Byte>, lo: nat, hi: nat) {
    hi <= |d| == |e| && forall k | lo <= k < hi :: d[k] == e[k]
  }

  /** Find looks at the bytes from its start on only. */
  lemma {:induction false} FindAgrees(d: seq<Byte>, e: seq<Byte>, total: nat, ty: Byte, at: nat)
    requires Agree(d, e, at, |d|)
    ensures Find(d, total, ty, at) == Find(e, total, ty, at)
    decreases total - at
  {
    if DescriptorAt(d, total, at) {
      FindAgrees(d, e, total, ty, at + d[at]);
    }
  }

  /** Between two turns: the endpoint at cur is next, and nothing from there on has been touched. */
  predicate Midway(d: seq<Byte>, was: seq<Byte>, cur: nat) {
    && ValidConfiguration(was) && CONFIGURATION_SIZE <= cur && DescriptorAt(was, TotalLength(was), cur)
    && Agree(d, was, cur, |d|) && Agree(d, was, 0, CONFIGURATION_SIZE)
    && PatchedAll(d, if was[cur] < ENDPOINT_SIZE then []
                     else [cur] + Endpoints(was, TotalLength(was), cur + was[cur])) == Patched(was)
  }

  lemma FirstFound(was: seq<Byte>)
    requires ValidConfiguration(was) ==> TotalLength(was) <= |was|
    ensures !ValidConfiguration(was) ==> Patched(was) == was
    ensures ValidConfiguration(was) ==>
              var r := Find(was, TotalLength(was), ENDPOINT_TYPE, 0);
              if r == -1 then Patched(was) == was else Midway(was, was, r)
  {
    hide Endpoints, PatchedAll;
    if ValidConfiguration(was) {
      EndpointsAre(was, TotalLength(was), 0);
      NothingToPatch(was);
    }
  }

  lemma EndpointsAre(d: seq<Byte>, total: nat, at: nat)
    ensures var r := Find(d, total, ENDPOINT_TYPE, at);
            Endpoints(d, total, at) ==
            if r == -1 || d[r] < ENDPOINT_SIZE then [] else [r] + Endpoints(d, total, r + d[r])
  {
  }

  lemma NothingToPatch(d: seq<Byte>)
    ensures PatchedAll(d, []) == d
  {
  }

  lemma PatchedFirst(d: seq<Byte>, t: nat, ts: seq<nat>)
    requires t + ENDPOINT_SIZE <= |d| && forall i | 0 <= i < |ts| :: ts[i] + ENDPOINT_SIZE <= |d|
    ensures PatchedAll(d, [t] + ts) == PatchedAll(PatchedAt(d, t), ts)
  {
    assert ([t] + ts)[0] == t && ([t] + ts)[1..] == ts;
  }

  lemma NextFound(before: seq<Byte>, was: seq<Byte>, cur: nat)
    requires Midway(before, was, cur) && before[cur] >= ENDPOINT_SIZE
    ensures var d, total := PatchedAt(before, cur), TotalLength(was);
            && d[cur] == was[cur] && Agree(d, was, 0, CONFIGURATION_SIZE) && DescriptorAt(d, total, cur)
            && var r := Find(d, total, ENDPOINT_TYPE, cur + d[cur]);
               if r == -1 then d == Patched(was) else cur < r && Midway(d, was, r)
  {
    hide Endpoints, PatchedAll, Patched, HighSpeedInterval, IsochronousInterval, PatchedAt, Find;
    var d, total := PatchedAt(before, cur), TotalLength(was);
    var next := cur + was[cur];
    PatchedFirst(before, cur, Endpoints(was, total, next));
    EndpointsAre(was, total, next);
    FindAgrees(d, was, total, ENDPOINT_TYPE, next);
    NothingToPatch(d);
  }

  method Patch(d: array<Byte>)
    requires ValidConfiguration(d[..]) ==> TotalLength(d[..]) <= d.Length
    modifies d
    ensures d[..] == Patched(old(d[..]))
  {
    hide Endpoints, PatchedAll, Patched, PatchedAt, Find;
    ghost var was := d[..];
    var cur := FindNext(d, ENDPOINT_TYPE, -1);
    FirstFound(was);
    while cur != -1
      invariant cur == -1 || (cur >= 0 && Midway(d[..], was, cur))
      invariant cur == -1 ==> d[..] == Patched(was)
      decreases if cur == -1 then -1 else |was| - cur
    {
      assert d[cur] == d[..][cur] == was[cur];
      if d[cur] < ENDPOINT_SIZE {
        NothingToPatch(d[..]);
        break;
      }
      NextFound(d[..], was, cur);
      PatchEndpoint(d, cur);
      SameHeader(d[..], was);
      cur := FindNext(d, ENDPOINT_TYPE, cur);
    }
  }

  lemma SameHeader(d: seq<Byte>, was: seq<Byte>)
    requires Agree(d, was, 0, CONFIGURATION_SIZE) && ValidConfiguration(was)
    ensures ValidConfiguration(d) && TotalLength(d) == TotalLength(was)
  {
  }

  // ----- what patching means, and what stays -----

  /** Bytes apart from size and interval of the endpoints stay. */
  lemma {:induction false} PatchedAllKeeps(d: seq<Byte>, ts: seq<nat>, k: nat)
    requires forall i | 0 <= i < |ts| :: ts[i] + ENDPOINT_SIZE <= |d| && !(ts[i] + 4 <= k <= ts[i] + 6)
    requires k < |d|
    ensures PatchedAll(d, ts)[k] == d[k]
    decreases |ts|
  {
    if ts != [] {
      PatchedAllKeeps(PatchedAt(d, ts[0]), ts[1..], k);
    }
  }

  /** Offset, length and type of each descriptor, in order. */
  function Chain(d: seq<Byte>, total: nat, at: nat): seq<(nat, Byte, Byte)>
    decreases total - at
  {
    if !DescriptorAt(d, total, at) then [] else [(at, d[at], d[at + 1])] + Chain(d, total, at + d[at])
  }

  /** A byte behind length and type of its descriptor. */
  predicate InBody(d: seq<Byte>, total: nat, at: nat, k: nat)
    decreases total - at
  {
    DescriptorAt(d, total, at) && if k < at + d[at] then at + 2 <= k else InBody(d, total, at + d[at], k)
  }

  lemma {:induction false} BodiesDoNotMatter(d: seq<Byte>, e: seq<Byte>, total: nat, at: nat)
    requires |d| == |e| && forall k: nat | at <= k < |d| && e[k] != d[k] :: InBody(d, total, at, k)
    ensures Chain(e, total, at) == Chain(d, total, at)
    decreases total - at
  {
    if at + 2 <= total <= |d| {
      assert !InBody(d, total, at, at) && !InBody(d, total, at, at + 1);
      if DescriptorAt(d, total, at) {
        BodiesDoNotMatter(d, e, total, at + d[at]);
      }
    }
  }

  lemma {:induction false} FoundInBody(d: seq<Byte>, total: nat, at: nat, k: nat)
    requires var r := Find(d, total, ENDPOINT_TYPE, at);
             r != -1 && (r + 2 <= k < r + d[r] || (r + d[r] <= k && InBody(d, total, r + d[r], k)))
    ensures InBody(d, total, at, k)
    decreases total - at
  {
    if d[at + 1] != ENDPOINT_TYPE {
      FoundInBody(d, total, at + d[at], k);
    }
  }

  lemma {:induction false} EndpointInBody(d: seq<Byte>, total: nat, at: nat, t: nat, k: nat)
    requires t in Endpoints(d, total, at) && t + 4 <= k <= t + 6
    ensures InBody(d, total, at, k)
    decreases total - at
  {
    var r := Find(d, total, ENDPOINT_TYPE, at);
    if t != r {
      EndpointInBody(d, total, r + d[r], t, k);
    }
    FoundInBody(d, total, at, k);
  }

  /** The descriptors that the walk over the patched bytes finds are the ones it found before. */
  lemma PatchingKeepsTheChain(d: seq<Byte>)
    requires ValidConfiguration(d)
    ensures Chain(Patched(d), TotalLength(d), 0) == Chain(d, TotalLength(d), 0)
  {
    var total := TotalLength(d);
    var ts := Endpoints(d, total, 0);
    forall k: nat | k < |d| && Patched(d)[k] != d[k] ensures InBody(d, total, 0, k) {
      if i :| 0 <= i < |ts| && ts[i] + 4 <= k <= ts[i] + 6 {
        EndpointInBody(d, total, 0, ts[i], k);
      } else {
        PatchedAllKeeps(d, ts, k);
      }
    }
    BodiesDoNotMatter(d, Patched(d), total, 0);
  }

  lemma SameEndpoint(d: seq<Byte>, e: seq<Byte>, t: nat, k: nat)
    requires Agree(e, d, t, |d|) && t <= k < t + ENDPOINT_SIZE <= |d|
    ensures PatchedAt(e, t)[k] == PatchedAt(d, t)[k]
  {
  }

  /** Every endpoint is patched once, from the bytes it arrived with. */
  lemma {:induction false} EachEndpointOnce(d: seq<Byte>, e: seq<Byte>, total: nat, at: nat, t: nat, k: nat)
    requires Agree(e, d, at, |d|) && t in Endpoints(d, total, at) && t <= k < t + ENDPOINT_SIZE
    ensures PatchedAll(e, Endpoints(d, total, at))[k] == PatchedAt(d, t)[k]
    decreases total - at
  {
    hide PatchedAt, PatchedAll;
    var r := Find(d, total, ENDPOINT_TYPE, at);
    var rest := Endpoints(d, total, r + d[r]);
    PatchedFirst(e, r, rest);
    if t == r {
      SameEndpoint(d, e, t, k);
      PatchedAllKeeps(PatchedAt(e, r), rest, k);
    } else {
      EachEndpointOnce(d, PatchedAt(e, r), total, r + d[r], t, k);
    }
  }

  /** Every endpoint after patching, by the transfer type in the low bits of its attributes: interrupt endpoints (3)
      get the least high-speed interval that covers the old one; isochronous ones (1) three steps more, up to the
      longest there is; bulk ones (2) packets of 512 bytes; everything else about an endpoint stays. */
  lemma EndpointValues(d: seq<Byte>, t: nat)
    requires ValidConfiguration(d) && t in Endpoints(d, TotalLength(d), 0)
    ensures var e, ty := Patched(d), d[t + 3] % 4;
            && e[t] == d[t] && e[t + 1] == d[t + 1] && e[t + 2] == d[t + 2] && e[t + 3] == d[t + 3]
            && (if ty == 3 then LeastInterval(e[t + 6], d[t + 6])
                else if ty == 1 then
                  var was := if d[t + 6] == 0 then 1 else if d[t + 6] > 16 then 16 else d[t + 6];
                  e[t + 6] >= 1 && Pow2(e[t + 6] - 1) == if was <= 13 then 8 * Pow2(was - 1) else Pow2(15)
                else e[t + 6] == d[t + 6])
            && (if ty == 2 then e[t + 4] as int + 256 * e[t + 5] as int == 512
                else e[t + 4] == d[t + 4] && e[t + 5] == d[t + 5])
  {
    hide Endpoints, PatchedAll, HighSpeedInterval, LeastInterval, Pow2;
    forall k: nat | t <= k < t + ENDPOINT_SIZE ensures Patched(d)[k] == PatchedAt(d, t)[k] {
      EachEndpointOnce(d, d, TotalLength(d), 0, t, k);
    }
    if d[t + 3] % 4 == 1 {
      EightTimes(Clamped(d[t + 6]) - 1);
    }
  }

  lemma EightTimes(n: nat)
    ensures Pow2(n + 3) == 8 * Pow2(n)
  {
    assert Pow2(n + 3) == 2 * Pow2(n + 2);
    assert Pow2(n + 2) == 2 * Pow2(n + 1);
  }

  /** The endpoints are the descriptors of type 5 in the chain, as far as none of them is shorter than 7 bytes. */
  lemma {:induction false} EndpointsAreAllOfThem(d: seq<Byte>, total: nat, at: nat)
    requires forall c | c in Chain(d, total, at) && c.2 == 5 :: c.1 >= 7
    ensures forall t :: t in Endpoints(d, total, at) <==> (exists c :: c in Chain(d, total, at) && c.0 == t && c.2 == 5)
    decreases total - at
  {
    if DescriptorAt(d, total, at) {
      var rest := Chain(d, total, at + d[at]);
      assert Chain(d, total, at) == [(at, d[at], d[at + 1])] + rest;
      assert (at, d[at], d[at + 1]) in Chain(d, total, at);
      forall c | c in rest ensures c in Chain(d, total, at) {
      }
      EndpointsAreAllOfThem(d, total, at + d[at]);
      if d[at + 1] == 5 {
        assert Endpoints(d, total, at) == [at] + Endpoints(d, total, at + d[at]);
      } else {
        assert Endpoints(d, total, at) == Endpoints(d, total, at + d[at]);
      }
    }
  }

  /** A mouse: its interrupt endpoint, polled every 10 ms, gets interval 8, which is 16 ms. */
  lemma MouseIsPatched()
    ensures var configuration: seq<Byte> := [9, 2, 16, 0, 1, 1, 0, 0xA0, 50];
            Patched(configuration + [7, 5, 0x81, 3, 8, 0, 10]) == configuration + [7, 5, 0x81, 3, 8, 0, 8]
  {
    hide Endpoints, PatchedAll, HighSpeedInterval, Pow2;
    var configuration: seq<Byte> := [9, 2, 16, 0, 1, 1, 0, 0xA0, 50];
    var d := configuration + [7, 5, 0x81, 3, 8, 0, 10];
    assert Find(d, 16, 5, 9) == 9 && Find(d, 16, 5, 16) == -1;
    EndpointsAre(d, 16, 0);
    EndpointsAre(d, 16, 16);
    assert Endpoints(d, 16, 0) == [9];
    PatchedFirst(d, 9, []);
    NothingToPatch(PatchedAt(d, 9));
    EightIsLeast();
    LeastIsUnique(HighSpeedInterval(10), 8, 10);
  }

  lemma EightIsLeast()
    ensures LeastInterval(8, 10)
  {
    assert Pow2(3) == 8;
    assert Pow2(6) == 64 && Pow2(7) == 128;
    forall j: nat | 1 <= j < 8 ensures Microframes(j) < 80 {
      if j < 7 {
        Pow2Increases(j - 1, 6);
      }
    }
  }
}
