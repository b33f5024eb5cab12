/** Byte strings, little-endian fields and concatenation of byte strings. */
module Bytes {
  type Byte = x: int | 0 <= x < 256
  type Bytes = seq<Byte>

  /** The two low-order bytes of `n`, least significant first: Go's `uint16(n)` written little-endian. */
  function Put16(n: int): (b: Bytes)
    ensures |b| == 2
  {
    [n % 256, n / 256 % 256]
  }

  /** The four low-order bytes of `n`, least significant first. */
  function Put32(n: int): (b: Bytes)
    ensures |b| == 4
  {
    [n % 256, n / 256 % 256, n / 65536 % 256, n / 16777216 % 256]
  }

  /** The little-endian 16-bit field at `off`. */
  function Get16(b: Bytes, off: nat): (n: nat)
    requires off + 2 <= |b|
    ensures n < 65536
  {
    b[off] as int + 256 * b[off + 1] as int
  }

  /** The little-endian 32-bit field at `off`. */
  function Get32(b: Bytes, off: nat): (n: nat)
    requires off + 4 <= |b|
    ensures n < 0x1_0000_0000
  {
    b[off] as int + 256 * b[off + 1] as int + 65536 * b[off + 2] as int + 16777216 * b[off + 3] as int
  }

  lemma Get16OfPut16(n: int, pre: Bytes, post: Bytes)
    ensures Get16(pre + Put16(n) + post, |pre|) == n % 65536
  {
    var b := pre + Put16(n) + post;
    assert b[|pre|] == Put16(n)[0] && b[|pre| + 1] == Put16(n)[1];
  }

  lemma Digits16(n: int)
    ensures n % 256 + 256 * (n / 256 % 256) == n % 65536
  {
  }

  lemma Digits32(n: int)
    ensures n % 256 + 256 * (n / 256 % 256) + 65536 * (n / 65536 % 256) + 16777216 * (n / 16777216 % 256)
            == n % 0x1_0000_0000
  {
    var hi := n / 65536;
    Digits16(n);
    Digits16(hi);
    assert hi / 256 == n / 16777216;
    assert n % 0x1_0000_0000 == n % 65536 + 65536 * (hi % 65536);
  }

  /** A field is read back, reduced to its width, wherever it was written. */
  lemma Get32OfPut32(n: int, pre: Bytes, post: Bytes)
    ensures Get32(pre + Put32(n) + post, |pre|) == n % 0x1_0000_0000
  {
    var b, p := pre + Put32(n) + post, Put32(n);
    assert b[|pre|] == p[0] && b[|pre| + 1] == p[1] && b[|pre| + 2] == p[2] && b[|pre| + 3] == p[3];
    Digits32(n);
  }

  /** Two ways of writing one stream that agree on its end agree on its start. */
  lemma SameStart(a: Bytes, x: Bytes, y: Bytes, e: Bytes, rest: Bytes)
    requires a + (x + y) == e + (rest + y)
    ensures a + x == e + rest
  {
    assert (a + x) + y == a + (x + y) && (e + rest) + y == e + (rest + y);
    CancelRight(a + x, e + rest, y);
  }

  lemma CancelRight(a: Bytes, b: Bytes, c: Bytes)
    requires a + c == b + c
    ensures a == b
  {
    assert |a| == |b|;
    assert a == (a + c)[..|a|] && b == (b + c)[..|b|];
  }

  function Concat(parts: seq<Bytes>): Bytes {
    if parts == [] then [] else parts[0] + Concat(parts[1..])
  }

  lemma {:induction false} ConcatAppend(a: seq<Bytes>, b: seq<Bytes>)
    ensures Concat(a + b) == Concat(a) + Concat(b)
  {
    if a == [] {
      assert a + b == b;
    } else {
      ConcatAppend(a[1..], b);
      assert (a + b)[0] == a[0] && (a + b)[1..] == a[1..] + b;
    }
  }

  lemma ConcatSnoc(a: seq<Bytes>, x: Bytes)
    ensures Concat(a + [x]) == Concat(a) + x
  {
    ConcatAppend(a, [x]);
    assert Concat([x]) == x + Concat([]);
  }
}
