/** The byte ring that sits between the socket and the PDU framer. */
module RingBuffer {

  type Byte = x: int | 0 <= x < 256

  const PAGE_SIZE := 4096
  const MAX_BYTES := 4 * 1024 * 1024
  const STRUCT_OVERHEAD := 40  // sizeof(ring_buffer_data) on a 64-bit target

  function Min(a: nat, b: nat): nat { if a < b then a else b }

  /** BYTES_TO_PAGES(bytes + overhead) pages, less the overhead. */
  function CapacityFor(bytes: nat): int {
    (bytes + STRUCT_OVERHEAD + PAGE_SIZE - 1) / PAGE_SIZE * PAGE_SIZE - STRUCT_OVERHEAD
  }

  lemma CapacityIsEnough(bytes: nat)
    requires bytes > 0
    ensures bytes <= CapacityFor(bytes) < bytes + PAGE_SIZE && CapacityFor(bytes) >= PAGE_SIZE - STRUCT_OVERHEAD
  {
    var pages := (bytes + STRUCT_OVERHEAD + PAGE_SIZE - 1) / PAGE_SIZE;
    assert pages >= 1;
  }

  /** The n bytes that start at index from and wrap at the end of the ring. */
  function Wrapped(ring: seq<Byte>, from: nat, n: nat): (r: seq<Byte>)
    requires from <= |ring| && n <= |ring|
    ensures |r| == n
  {
    if from + n <= |ring| then ring[from..from + n] else ring[from..] + ring[..from + n - |ring|]
  }

  /** The ring after src has been stored from index at on, wrapping at its end. */
  function Overlay(ring: seq<Byte>, at: nat, src: seq<Byte>): (r: seq<Byte>)
    requires at <= |ring| && |src| <= |ring|
    ensures |r| == |ring|
  {
    var first := Min(|src|, |ring| - at);
    var rest := |src| - first;
    if rest == 0 then ring[..at] + src + ring[at + first..]
    else src[first..] + ring[rest..at] + src[..first]
  }

  lemma OverlayAt(ring: seq<Byte>, at: nat, src: seq<Byte>, k: nat)
    requires at <= |ring| && |src| <= |ring| && k < |ring|
    ensures Overlay(ring, at, src)[k] ==
            if at <= k < at + |src| then src[k - at]
            else if k + |ring| < at + |src| then src[k + |ring| - at]
            else ring[k]
  {
  }

  /** The same place of the ring: head is the end of the stored bytes, modulo the capacity. */
  predicate Meets(head: nat, end: nat, capacity: nat) {
    head == end || head + capacity == end || head == end + capacity
  }

  /** Storing behind the n bytes that start at tail appends to them. */
  lemma OverlayAppends(ring: seq<Byte>, tail: nat, n: nat, head: nat, src: seq<Byte>)
    requires tail <= |ring| && n + |src| <= |ring| && head <= |ring|
    requires Meets(head, tail + n, |ring|)
    ensures Wrapped(Overlay(ring, head, src), tail, n + |src|) == Wrapped(ring, tail, n) + src
  {
    hide Overlay, Wrapped;
    var after := Wrapped(Overlay(ring, head, src), tail, n + |src|);
    forall i: nat | i < n + |src|
      ensures after[i] == (Wrapped(ring, tail, n) + src)[i]
    {
      WrappedAt(Overlay(ring, head, src), tail, n + |src|, i);
      if i < n {
        WrappedAt(ring, tail, n, i);
      }
      OverlayAt(ring, head, src, if tail + i < |ring| then tail + i else tail + i - |ring|);
    }
  }

  lemma WrappedAt(ring: seq<Byte>, from: nat, n: nat, i: nat)
    requires from <= |ring| && i < n <= |ring|
    ensures Wrapped(ring, from, n)[i] == ring[if from + i < |ring| then from + i else from + i - |ring|]
  {
  }

  lemma WrappedPrefix(ring: seq<Byte>, from: nat, n: nat, k: nat)
    requires from <= |ring| && k <= n <= |ring|
    ensures Wrapped(ring, from, n)[..k] == Wrapped(ring, from, k)
  {
  }

  /** Dropping k bytes moves the start, modulo the size of the ring. */
  lemma WrappedSuffix(ring: seq<Byte>, from: nat, n: nat, k: nat, start: nat)
    requires from <= |ring| && 0 < k <= n <= |ring| && start < |ring|
    requires start == from + k || start + |ring| == from + k
    ensures Wrapped(ring, from, n)[k..] == Wrapped(ring, start, n - k)
  {
    hide Wrapped;
    forall i: nat | i < n - k
      ensures Wrapped(ring, from, n)[k..][i] == Wrapped(ring, start, n - k)[i]
    {
      WrappedAt(ring, from, n, k + i);
      WrappedAt(ring, start, n - k, i);
    }
  }

  class Ring {
    var capacity: nat
    var size: nat
    var head: nat  // write index
    var tail: nat  // read index
    var buf: array<Byte>

    /** A null ring_buffer_data: no capacity, no bytes. */
    constructor ()
      ensures Valid() && Contents() == [] && capacity == 0 && fresh(buf)
    {
      capacity, size, head, tail := 0, 0, 0, 0;
      buf := new Byte[0];
    }

    /** A second cursor over the same bytes. */
    constructor Share(other: Ring)
      requires other.Valid()
      ensures Valid() && buf == other.buf && capacity == other.capacity && Contents() == other.Contents()
    {
      capacity, size, head, tail, buf := other.capacity, other.size, other.head, other.tail, other.buf;
    }

    /** head may stay equal to capacity after Realloc; it is then the same place as zero. */
    ghost predicate Valid()
      reads this
    {
      && buf.Length == capacity && size <= capacity
      && head <= capacity && tail <= capacity && (capacity > 0 ==> tail < capacity)
      && Meets(head, tail + size, capacity)
    }

    ghost function Contents(): (s: seq<Byte>)
      requires Valid()
      reads this, buf
      ensures |s| == size
    {
      Wrapped(buf[..], tail, size)
    }

    /** The two copies of write: up to the end of the buffer, then from its start. */
    method StoreWrapped(src: seq<Byte>)
      requires buf.Length == capacity && head <= capacity && |src| <= capacity
      modifies buf
      ensures buf[..] == Overlay(old(buf[..]), head, src)
    {
      var first := Min(|src|, capacity - head);
      forall i | 0 <= i < first {
        buf[head + i] := src[i];
      }
      forall i | 0 <= i < |src| - first {
        buf[i] := src[first + i];
      }
      forall k: nat | k < capacity
        ensures buf[k] == Overlay(old(buf[..]), head, src)[k]
      {
        OverlayAt(old(buf[..]), head, src, k);
      }
    }

    method Write(src: seq<Byte>) returns (n: nat)
      requires Valid()
      modifies this`head, this`size, buf
      ensures Valid() && n == Min(|src|, capacity - old(size))
      ensures Contents() == old(Contents()) + src[..n]
    {
      hide Overlay, Wrapped;
      n := Min(|src|, capacity - size);
      if n == 0 {
        assert src[..n] == [];
        return;
      }
      OverlayAppends(buf[..], tail, size, head, src[..n]);
      StoreWrapped(src[..n]);
      head := Advance(head, n, capacity);
      size := size + n;
    }

    method Peek(len: nat) returns (dest: seq<Byte>)
      requires Valid()
      ensures dest == Contents()[..Min(len, size)]
    {
      var n := Min(len, size);
      if n == 0 {
        return [];
      }
      WrappedPrefix(buf[..], tail, size, n);
      var first := Min(n, capacity - tail);
      dest := buf[tail..tail + first];
      if n > first {
        dest := dest + buf[..n - first];
      }
    }

    method Skip(len: nat) returns (n: nat)
      requires Valid()
      modifies this`tail, this`size
      ensures Valid() && n == Min(len, old(size)) && Contents() == old(Contents())[n..]
    {
      n := Min(len, size);
      if n > 0 {
        WrappedSuffix(buf[..], tail, size, n, Advance(tail, n, capacity));
        tail := Advance(tail, n, capacity);
        size := size - n;
      }
    }

    method Read(len: nat) returns (dest: seq<Byte>)
      requires Valid()
      modifies this`tail, this`size
      ensures Valid()
      ensures dest == old(Contents())[..Min(len, old(size))]
      ensures Contents() == old(Contents())[|dest|..]
    {
      dest := Peek(len);
      var _ := Skip(|dest|);
    }

    /** hasMemory: whether the pool allocation succeeds. */
    method Realloc(bytes: nat, hasMemory: bool) returns (ok: bool)
      requires Valid()
      modifies this
      ensures Valid() && (buf == old(buf) || fresh(buf))
      ensures bytes == 0 ==> ok && capacity == 0 && Contents() == []
      ensures bytes > 0 ==>
                (ok <==> bytes <= MAX_BYTES && old(size) <= CapacityFor(bytes) && hasMemory)
      ensures bytes > 0 && ok ==> capacity == CapacityFor(bytes) >= bytes && Contents() == old(Contents())
      ensures !ok ==> capacity == old(capacity) && buf == old(buf) && Contents() == old(Contents())
    {
      if bytes == 0 {
        capacity, size, head, tail := 0, 0, 0, 0;
        buf := new Byte[0];
        return true;
      }
      if bytes > MAX_BYTES {
        return false;
      }
      CapacityIsEnough(bytes);
      var newCapacity := CapacityFor(bytes);
      if size > newCapacity || !hasMemory {
        return false;
      }
      var contents := Peek(size);
      var p := new Byte[newCapacity];
      forall i | 0 <= i < size {
        p[i] := contents[i];
      }
      assert p[..size] == contents;
      capacity, head, tail, buf := newCapacity, size, 0, p;
      return true;
    }
  }

  /** (index + n) % capacity, for at most one turn. */
  function Advance(index: nat, n: nat, capacity: nat): (r: nat)
    requires capacity > 0 && index <= capacity && 0 < n <= capacity
    ensures r < capacity && (r == index + n || r == index + n - capacity || r == index + n - 2 * capacity)
    ensures r == index + n - 2 * capacity ==> index == n == capacity
  {
    assert index + n <= 2 * capacity;
    ModUpToTwo(index + n, capacity);
    (index + n) % capacity
  }

  lemma MulAtLeast(c: nat, d: int)
    requires d >= 1
    ensures c * d >= c
  {
  }

  lemma DivisionIsUnique(c: int, q: int, r: int, q': int, r': int)
    requires 0 <= r < c && 0 <= r' < c && c * q + r == c * q' + r'
    ensures r == r'
  {
    assert c * (q - q') == r' - r;
    if q > q' {
      MulAtLeast(c, q - q');
    } else if q < q' {
      MulAtLeast(c, q' - q);
    }
  }

  lemma ModUnique(x: int, c: int, q: int, r: int)
    requires 0 <= r < c && x == c * q + r
    ensures x % c == r
  {
    assert x == c * (x / c) + x % c;
    DivisionIsUnique(c, q, r, x / c, x % c);
  }

  lemma ModUpToTwo(x: nat, c: nat)
    requires 0 < c && x <= 2 * c
    ensures x % c == if x < c then x else if x < 2 * c then x - c else 0
  {
    if x < c {
      ModUnique(x, c, 0, x);
    } else if x < 2 * c {
      ModUnique(x, c, 1, x - c);
    } else {
      ModUnique(x, c, 2, 0);
    }
  }
}
