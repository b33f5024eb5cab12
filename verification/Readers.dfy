/** A cursor over a byte string, with the short-read behaviour of Go's encoding/binary and bytes.Reader. */
module Readers {
  import opened Bytes

  function Zeros(n: nat): (z: Bytes)
    ensures |z| == n
  {
    seq(n, _ => 0)
  }

  /** A fixed-size field, or zero when the data ends before the field does. */
  function Field8(data: Bytes, at: nat): (n: Byte) {
    if at + 1 <= |data| then data[at] else 0
  }

  function Field16(data: Bytes, at: nat): (n: nat)
    ensures n < 0x1_0000
  {
    if at + 2 <= |data| then Get16(data, at) else 0
  }

  function Field32(data: Bytes, at: nat): (n: nat)
    ensures n < 0x1_0000_0000
  {
    if at + 4 <= |data| then Get32(data, at) else 0
  }

  /** `n` bytes if all of them are there, else `n` zeros. */
  function FieldAll(data: Bytes, at: nat, n: nat): (b: Bytes)
    ensures |b| == n
  {
    if at + n <= |data| then data[at..at + n] else Zeros(n)
  }

  /** As many of `n` bytes as are there, then zeros. */
  function FieldSome(data: Bytes, at: nat, n: nat): (b: Bytes)
    ensures |b| == n
  {
    if at + n <= |data| then data[at..at + n]
    else if at <= |data| then data[at..] + Zeros(at + n - |data|)
    else Zeros(n)
  }

  /** `at` is the offset the fields read so far add up to. A short read consumes what is left, so from
      then on `pos` and `at` may differ, but both are at or past the end. */
  class Reader {
    const data: Bytes
    var pos: nat
    ghost var at: nat

    ghost predicate Valid()
      reads this
    {
      if at <= |data| then pos == at else pos >= |data|
    }

    constructor (data: Bytes)
      ensures Valid() && this.data == data && at == 0
    {
      this.data, pos, at := data, 0, 0;
    }

    /** io.ReadFull: `n` bytes, or none and the rest of the data gone. */
    method ReadFull(n: nat) returns (b: Bytes, short: bool)
      requires Valid()
      modifies this
      ensures Valid() && at == old(at) + n
      ensures short == (n > 0 && old(at) + n > |data|)
      ensures !short ==> b == (if n == 0 then [] else data[old(at)..old(at) + n])
    {
      b, short := [], false;
      at := at + n;
      if n == 0 {
      } else if pos + n <= |data| {
        b := data[pos..pos + n];
        pos := pos + n;
      } else {
        short := true;
        if pos < |data| { pos := |data|; }
      }
    }

    method Read8() returns (n: Byte)
      requires Valid()
      modifies this
      ensures Valid() && at == old(at) + 1 && n == Field8(data, old(at))
    {
      var b, short := ReadFull(1);
      n := if short then 0 else b[0];
    }

    method Read16() returns (n: nat)
      requires Valid()
      modifies this
      ensures Valid() && at == old(at) + 2 && n == Field16(data, old(at))
    {
      var b, short := ReadFull(2);
      n := if short then 0 else Get16(b, 0);
    }

    method Read32() returns (n: nat)
      requires Valid()
      modifies this
      ensures Valid() && at == old(at) + 4 && n == Field32(data, old(at))
    {
      var b, short := ReadFull(4);
      n := if short then 0 else Get32(b, 0);
    }

    /** binary.Read into a zeroed slice. */
    method ReadAll(n: nat) returns (b: Bytes)
      requires Valid()
      modifies this
      ensures Valid() && at == old(at) + n && b == FieldAll(data, old(at), n)
    {
      var short;
      b, short := ReadFull(n);
      if short {
        b := Zeros(n);
      } else if n == 0 {
        b := [];
      }
    }

    /** Reader.Read into a zeroed slice. */
    method ReadSome(n: nat) returns (b: Bytes)
      requires Valid()
      modifies this
      ensures Valid() && at == old(at) + n && b == FieldSome(data, old(at), n)
    {
      at := at + n;
      if pos >= |data| {
        b := Zeros(n);
      } else {
        var k := if pos + n <= |data| then n else |data| - pos;
        b := data[pos..pos + k] + Zeros(n - k);
        pos := pos + k;
      }
    }

    /** Seek relative to the current position; going past the end is allowed. */
    method Skip(n: nat)
      requires Valid()
      modifies this
      ensures Valid() && at == old(at) + n
    {
      pos, at := pos + n, at + n;
    }
  }
}
