/** Byte-level building blocks shared by the command and response frames of
    the SDS011 serial protocol: the byte type, the 8-bit additive checksum and
    little-endian 16-bit decoding. */
module Bytes {

  /** One octet on the serial line. */
  type byte = x: int | 0 <= x < 256

  /** The head byte that starts every frame, command and response alike. */
  const HEAD: byte := 0xAA
  /** The tail byte that ends every frame, command and response alike. */
  const TAIL: byte := 0xAB

  /** Sum of the bytes of `s`, as Python's `sum` over a bytes slice. */
  function Sum(s: seq<byte>): (r: nat)
    ensures r <= 255 * |s|
    ensures s == [] ==> r == 0
  {
    if s == [] then 0 else s[0] + Sum(s[1..])
  }

  /** The protocol checksum: the sum of the bytes truncated to 8 bits. */
  function Checksum(s: seq<byte>): (r: byte)
    ensures s == [] ==> r == 0
    ensures |s| == 1 ==> r == s[0]
  {
    Sum(s) % 256
  }

  /** The truncated sum is what an 8-bit accumulator that wraps around gets
      by adding the bytes one at a time, starting from 0. */
  lemma ChecksumRunning(s: seq<byte>)
    requires s != []
    ensures Checksum(s) == (s[0] + Checksum(s[1..])) % 256
  {
    var rest := Sum(s[1..]);
    assert Sum(s) == s[0] + rest;
    assert rest == 256 * (rest / 256) + rest % 256;
    assert (s[0] + rest) % 256 == (s[0] + rest % 256) % 256;
  }

  /** Sum distributes over concatenation. */
  lemma {:induction false} SumConcat(a: seq<byte>, b: seq<byte>)
    ensures Sum(a + b) == Sum(a) + Sum(b)
  {
    if a == [] {
      assert a + b == b;
    } else {
      assert (a + b)[1..] == a[1..] + b;
      SumConcat(a[1..], b);
    }
  }

  /** A run of zero bytes sums to zero. */
  lemma {:induction false} ZerosSum(z: seq<byte>)
    requires forall i :: 0 <= i < |z| ==> z[i] == 0
    ensures Sum(z) == 0
  {
    if z != [] {
      ZerosSum(z[1..]);
    }
  }

  /** Replacing one byte changes the sum by exactly the difference. */
  lemma {:induction false} SumUpdate(s: seq<byte>, i: nat, x: byte)
    requires i < |s|
    ensures Sum(s[i := x]) == Sum(s) - s[i] + x
  {
    if i == 0 {
      assert s[i := x][1..] == s[1..];
    } else {
      assert s[i := x][1..] == s[1..][i - 1 := x];
      SumUpdate(s[1..], i - 1, x);
    }
  }

  /** An 8-bit additive checksum detects every single-byte change. */
  lemma ChecksumDetectsSingleChange(s: seq<byte>, i: nat, x: byte)
    requires i < |s| && x != s[i]
    ensures Checksum(s[i := x]) != Checksum(s)
  {
    SumUpdate(s, i, x);
    var d := x - s[i];
    assert -256 < d < 256 && d != 0;
    assert Sum(s[i := x]) == Sum(s) + d;
  }

  /** Decoding of an unsigned 16-bit little-endian field (struct format `<H`). */
  function U16Le(lo: byte, hi: byte): (r: nat)
    ensures r < 0x1_0000
    ensures r % 256 == lo && r / 256 == hi
  {
    lo + 256 * hi
  }

  /** Two fields decode to the same value only if their bytes are equal. */
  lemma U16LeInjective(lo: byte, hi: byte, lo': byte, hi': byte)
    requires U16Le(lo, hi) == U16Le(lo', hi')
    ensures lo == lo' && hi == hi'
  {
  }

  /** Every 16-bit value is the decoding of its low and high bytes. */
  lemma U16LeSurjective(v: nat)
    requires v < 0x1_0000
    ensures 0 <= v % 256 < 256 && 0 <= v / 256 < 256
    ensures U16Le(v % 256, v / 256) == v
  {
  }

  /** The bytes of a sequence of chunks, in order: the bytes that reach the
      line from a sequence of write calls, or a stream made of whole chunks. */
  function Flatten(ws: seq<seq<byte>>): seq<byte> {
    if ws == [] then [] else ws[0] + Flatten(ws[1..])
  }

  lemma {:induction false} FlattenAppend(a: seq<seq<byte>>, b: seq<seq<byte>>)
    ensures Flatten(a + b) == Flatten(a) + Flatten(b)
  {
    if a == [] {
      assert a + b == b;
    } else {
      assert (a + b)[1..] == a[1..] + b;
      FlattenAppend(a[1..], b);
    }
  }
}
