/** The fields of an archive as section 4.3 of PKWARE APPNOTE 6.3 lays them out, in plain numbers. */
module ZipFormat {
  import opened Bytes

  /** Bytes as a number, the lowest first. */
  function Number(b: Bytes): nat {
    if b == [] then 0 else b[0] as int + 256 * Number(b[1..])
  }

  /** The field of n bytes at a position. */
  function Field(b: Bytes, at: nat, n: nat): nat
    requires at + n <= |b|
  {
    Number(b[at..at + n])
  }

  lemma TwoByteField(b: Bytes, at: nat)
    requires at + 2 <= |b|
    ensures Field(b, at, 2) == U16(b, at)
  {
    var f := b[at..at + 2];
    assert f[0] == b[at] && f[1..][0] == b[at + 1] && f[1..][1..] == [];
    assert Number(f[1..]) == b[at + 1] as int + 256 * Number(f[1..][1..]);
  }

  lemma FourByteField(b: Bytes, at: nat)
    requires at + 4 <= |b|
    ensures Field(b, at, 4) == U32(b, at)
  {
    hide U16;
    var f := b[at..at + 4];
    assert f[1..][1..] == f[2..] && f[2..][1..] == f[3..] && f[3..][1..] == [];
    NumberNext(f);
    NumberNext(f[1..]);
    NumberNext(f[2..]);
    NumberNext(f[3..]);
  }

  lemma NumberNext(b: Bytes)
    requires b != []
    ensures Number(b) == b[0] as int + 256 * Number(b[1..])
    ensures Number([]) == 0
  {
  }
}
