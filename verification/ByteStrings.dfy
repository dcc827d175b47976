/** Octet strings, the partial loads every packet parser makes, and a way to talk
    about what stands at an offset of a packet. */
module ByteStrings {

  datatype Option<+T> = None | Some(value: T) {
    predicate IsFailure() {
      None?
    }

    function PropagateFailure<U>(): Option<U>
      requires None?
    {
      None
    }

    function Extract(): T
      requires Some?
    {
      value
    }
  }

  type Byte = b: int | 0 <= b < 256
  type Bytes = seq<Byte>

  const DOT: Byte := 46

  /** A one-byte load; it fails past the end of the packet. */
  function LoadU8(p: Bytes, off: nat): Option<Byte> {
    if off < |p| then Some(p[off]) else None
  }

  /** A big-endian two-byte load. */
  function LoadU16(p: Bytes, off: nat): Option<nat> {
    if off + 2 <= |p| then
      var hi: int, lo: int := p[off], p[off + 1];
      Some(hi * 256 + lo)
    else
      None
  }

  /** The big-endian encoding of n, cut to 16 bits. */
  function U16(n: nat): (b: Bytes)
    ensures |b| == 2
  {
    [(n / 256) % 256, n % 256]
  }

  /** The packet p continues with x at offset off, and x runs to its end. */
  ghost predicate Ends(p: Bytes, off: nat, x: Bytes) {
    off + |x| == |p| && forall i :: 0 <= i < |x| ==> x[i] == p[off + i]
  }

  lemma EndsSplit(p: Bytes, off: nat, x: Bytes, y: Bytes) returns (next: nat)
    requires Ends(p, off, x + y)
    ensures next == off + |x| && Ends(p, next, y)
  {
    next := off + |x|;
    forall i | 0 <= i < |y|
      ensures y[i] == p[next + i]
    {
      assert (x + y)[|x| + i] == p[off + (|x| + i)];
    }
  }

  lemma EndsByte(p: Bytes, off: nat, x: Bytes, i: nat)
    requires Ends(p, off, x) && i < |x|
    ensures LoadU8(p, off + i) == Some(x[i])
  {
  }

  lemma EndsU16(p: Bytes, off: nat, n: nat, y: Bytes) returns (next: nat)
    requires Ends(p, off, U16(n) + y) && n < 65536
    ensures LoadU16(p, off) == Some(n)
    ensures next == off + 2 && Ends(p, next, y)
  {
    var x := U16(n) + y;
    assert x[0] == p[off + 0] && x[1] == p[off + 1];
    next := EndsSplit(p, off, U16(n), y);
  }

  /** At every index from lo to hi the two packets have the same byte, or both have none. */
  ghost predicate SameBetween(p: Bytes, q: Bytes, lo: nat, hi: nat) {
    forall i :: lo <= i < hi ==> LoadU8(p, i) == LoadU8(q, i)
  }

  lemma LoadsAgree(p: Bytes, q: Bytes, lo: nat, hi: nat, off: nat)
    requires SameBetween(p, q, lo, hi)
    ensures lo <= off < hi ==> LoadU8(p, off) == LoadU8(q, off)
    ensures lo <= off && off + 2 <= hi ==> LoadU16(p, off) == LoadU16(q, off)
  {
    if lo <= off && off + 2 <= hi {
      assert LoadU8(p, off) == LoadU8(q, off) && LoadU8(p, off + 1) == LoadU8(q, off + 1);
    }
  }
}
