/** Byte strings and the little-endian integers of a DataView. */
module Bytes {

  type Bytes = seq<bv8>

  /** The byte of this value. */
  function Byte(n: nat): bv8
    requires n < 256
  {
    if n == 0 then 0 else Byte(n - 1) + 1
  }

  lemma NextByte(b: bv8)
    requires b as int < 255
    ensures (b + 1) as int == b as int + 1
  {
  }

  lemma {:induction false} ByteValue(n: nat)
    requires n < 256
    ensures Byte(n) as int == n
  {
    if n > 0 {
      ByteValue(n - 1);
      NextByte(Byte(n - 1));
    }
  }

  function ToByte(n: nat): bv8 {
    Byte(n % 256)
  }

  lemma ToByteValue(n: nat)
    ensures ToByte(n) as int == n % 256
  {
    ByteValue(n % 256);
  }

  /** What setUint16(.., value, true) stores: the value modulo 2^16. */
  function Le16(n: nat): (b: Bytes)
    ensures |b| == 2
  {
    [ToByte(n), ToByte(n / 0x100)]
  }

  /** What setUint32(.., value, true) stores: the value modulo 2^32. */
  function Le32(n: nat): (b: Bytes)
    ensures |b| == 4
  {
    [ToByte(n), ToByte(n / 0x100), ToByte(n / 0x1_0000), ToByte(n / 0x100_0000)]
  }

  function U16(b: Bytes, at: nat): (n: nat)
    requires at + 2 <= |b|
    ensures n < 0x1_0000
  {
    b[at] as int + 0x100 * (b[at + 1] as int)
  }

  function U32(b: Bytes, at: nat): (n: nat)
    requires at + 4 <= |b|
    ensures n < 0x1_0000_0000
  {
    b[at] as int + 0x100 * (b[at + 1] as int) + 0x1_0000 * (b[at + 2] as int) + 0x100_0000 * (b[at + 3] as int)
  }

  lemma TwoBytes(n: nat)
    ensures n % 0x100 + 0x100 * (n / 0x100 % 0x100) == n % 0x1_0000
    ensures n / 0x100 / 0x100 == n / 0x1_0000
  {
    var b := n / 0x100;
    assert n == 0x1_0000 * (b / 0x100) + 0x100 * (b % 0x100) + n % 0x100;
  }

  lemma TwoHalves(n: nat)
    ensures n % 0x1_0000 + 0x1_0000 * (n / 0x1_0000 % 0x1_0000) == n % 0x1_0000_0000
  {
    var b := n / 0x1_0000;
    assert n == 0x1_0000_0000 * (b / 0x1_0000) + 0x1_0000 * (b % 0x1_0000) + n % 0x1_0000;
  }

  lemma TopByte(n: nat)
    ensures n / 0x1_0000 / 0x100 == n / 0x100_0000
  {
    var b := n / 0x1_0000;
    assert n == 0x100_0000 * (b / 0x100) + 0x1_0000 * (b % 0x100) + n % 0x1_0000;
  }

  /** Reading back what was written gives the value that fits the field. */
  lemma ReadLe16(b: Bytes, at: nat, n: nat)
    requires at + 2 <= |b| && b[at..at + 2] == Le16(n)
    ensures U16(b, at) == n % 0x1_0000
  {
    hide ToByte;
    assert b[at] == b[at..at + 2][0] && b[at + 1] == b[at..at + 2][1];
    ToByteValue(n);
    ToByteValue(n / 0x100);
    TwoBytes(n);
  }

  lemma ReadLe32(b: Bytes, at: nat, n: nat)
    requires at + 4 <= |b| && b[at..at + 4] == Le32(n)
    ensures U32(b, at) == n % 0x1_0000_0000
  {
    hide ToByte;
    TwoHalves(n);
    TopByte(n);
    assert Le32(n) == Le16(n) + Le16(n / 0x1_0000);
    assert b[at..at + 2] == b[at..at + 4][..2];
    assert b[at + 2..at + 4] == b[at..at + 4][2..];
    hide Le16, Le32;
    ReadLe16(b, at, n);
    ReadLe16(b, at + 2, n / 0x1_0000);
    assert U32(b, at) == U16(b, at) + 0x1_0000 * U16(b, at + 2);
  }

  /** Stores a 16-bit field right after the part of the buffer already written. */
  method SetUint16(view: array<bv8>, at: nat, value: nat)
    requires at + 2 <= view.Length
    modifies view
    ensures view[..at + 2] == old(view[..at]) + Le16(value)
  {
    hide ToByte;
    view[at] := ToByte(value);
    view[at + 1] := ToByte(value / 0x100);
  }

  method SetUint32(view: array<bv8>, at: nat, value: nat)
    requires at + 4 <= view.Length
    modifies view
    ensures view[..at + 4] == old(view[..at]) + Le32(value)
  {
    hide ToByte;
    view[at] := ToByte(value);
    view[at + 1] := ToByte(value / 0x100);
    view[at + 2] := ToByte(value / 0x1_0000);
    view[at + 3] := ToByte(value / 0x100_0000);
  }

  /** Copies a part into the buffer. */
  method SetBytes(view: array<bv8>, part: Bytes, at: nat)
    requires at + |part| <= view.Length
    modifies view
    ensures view[..at + |part|] == old(view[..at]) + part
  {
    for i := 0 to |part|
      invariant view[..at] == old(view[..at])
      invariant view[at..at + i] == part[..i]
    {
      view[at + i] := part[i];
    }
  }

  function Join(parts: seq<Bytes>): Bytes {
    if parts == [] then [] else Join(parts[..|parts| - 1]) + parts[|parts| - 1]
  }

  lemma JoinAppend(parts: seq<Bytes>, part: Bytes)
    ensures Join(parts + [part]) == Join(parts) + part
  {
    assert (parts + [part])[..|parts|] == parts;
  }

  lemma {:induction false} JoinConcat(a: seq<Bytes>, b: seq<Bytes>)
    ensures Join(a + b) == Join(a) + Join(b)
  {
    if b == [] {
      assert a + b == a;
    } else {
      var front, last := b[..|b| - 1], b[|b| - 1];
      assert a + b == (a + front) + [last] && b == front + [last];
      JoinConcat(a, front);
      JoinAppend(a + front, last);
      JoinAppend(front, last);
    }
  }

  /** Copies all parts into one buffer of their total size. */
  method Concat(parts: seq<Bytes>) returns (result: array<bv8>)
    ensures fresh(result) && result[..] == Join(parts)
  {
    var total := 0;
    assert parts[..0] == [];
    for i := 0 to |parts|
      invariant total == |Join(parts[..i])|
    {
      assert parts[..i + 1] == parts[..i] + [parts[i]];
      JoinAppend(parts[..i], parts[i]);
      total := total + |parts[i]|;
    }
    assert parts[..|parts|] == parts;
    result := new bv8[total](_ => 0);
    var offset := 0;
    for i := 0 to |parts|
      invariant fresh(result) && result.Length == |Join(parts)|
      invariant offset == |Join(parts[..i])| <= result.Length
      invariant result[..offset] == Join(parts[..i])
    {
      assert parts[..i + 1] == parts[..i] + [parts[i]];
      JoinAppend(parts[..i], parts[i]);
      assert parts == parts[..i + 1] + parts[i + 1..];
      JoinConcat(parts[..i + 1], parts[i + 1..]);
      SetBytes(result, parts[i], offset);
      offset := offset + |parts[i]|;
    }
    assert result[..] == result[..offset];
  }
}
