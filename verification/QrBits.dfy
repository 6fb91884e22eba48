/** The QR encoder's bit stream: version choice, segment header, terminator, padding and packing into codewords. */
module QrBits {
  import opened Arithmetic
  import opened Galois
  import opened Results

  /* ---- Numbers as bits, most significant first ---- */

  function ShiftRight(value: nat, i: nat): nat {
    if i == 0 then value else ShiftRight(value / 2, i - 1)
  }

  function Bits(value: nat, length: nat): (bits: seq<bool>)
    ensures |bits| == length
  {
    if length == 0 then [] else Bits(value / 2, length - 1) + [value % 2 == 1]
  }

  function Number(bits: seq<bool>): nat {
    if bits == [] then 0 else 2 * Number(bits[..|bits| - 1]) + (if bits[|bits| - 1] then 1 else 0)
  }

  lemma {:induction false} ShiftRightStep(value: nat, i: nat)
    ensures ShiftRight(value, i + 1) == ShiftRight(value, i) / 2
  {
    if i > 0 {
      ShiftRightStep(value / 2, i - 1);
    }
  }

  lemma {:induction false} ShiftRightZero(i: nat)
    ensures ShiftRight(0, i) == 0
  {
    if i > 0 {
      ShiftRightZero(i - 1);
    }
  }

  lemma {:induction false} NumberOfBits(value: nat, length: nat)
    requires ShiftRight(value, length) == 0
    ensures Number(Bits(value, length)) == value
  {
    if length > 0 {
      NumberOfBits(value / 2, length - 1);
      assert Bits(value, length)[..length - 1] == Bits(value / 2, length - 1);
    }
  }

  /** Appends the low length bits of value, refusing a value that does not fit. */
  method AppendBits(value: nat, length: int, bits: seq<bool>) returns (r: Result<seq<bool>>)
    requires value < 0x1_0000_0000
    ensures r.Ok? <==> 0 <= length <= 31 && ShiftRight(value, length) == 0
    ensures r.Ok? ==> r.value == bits + Bits(value, length)
    ensures r.Err? ==> r.code == "QR_BIT_INPUT_INVALID"
  {
    if length < 0 || length > 31 || ShiftRight(value, length) != 0 {
      return Err("QR_BIT_INPUT_INVALID");
    }
    var out := bits;
    var i := length - 1;
    while i >= 0
      invariant -1 <= i < length
      invariant out == bits + Bits(ShiftRight(value, i + 1), length - 1 - i)
    {
      ShiftRightStep(value, i);
      out := out + [ShiftRight(value, i) % 2 == 1];
      i := i - 1;
    }
    return Ok(out);
  }

  /* ---- Octets as bits ---- */

  function OctetBits(o: Octet): (bits: seq<bool>)
    ensures |bits| == 8
  {
    [o.b7, o.b6, o.b5, o.b4, o.b3, o.b2, o.b1, o.b0]
  }

  function OctetOf(bits: seq<bool>): Octet
    requires |bits| == 8
  {
    Octet(bits[0], bits[1], bits[2], bits[3], bits[4], bits[5], bits[6], bits[7])
  }

  /** (n << 1) | bit, within an octet. */
  function ShiftIn(n: Octet, bit: bool): Octet {
    Octet(n.b6, n.b5, n.b4, n.b3, n.b2, n.b1, n.b0, bit)
  }

  function Unpack(octets: seq<Octet>): (bits: seq<bool>)
    ensures |bits| == 8 * |octets|
  {
    if octets == [] then [] else Unpack(octets[..|octets| - 1]) + OctetBits(octets[|octets| - 1])
  }

  function Pack(bits: seq<bool>): (octets: seq<Octet>)
    requires |bits| % 8 == 0
    ensures 8 * |octets| == |bits|
  {
    if bits == [] then [] else Pack(bits[..|bits| - 8]) + [OctetOf(bits[|bits| - 8..])]
  }

  lemma PackAppend(bits: seq<bool>, last: seq<bool>)
    requires |bits| % 8 == 0 && |last| == 8
    ensures Pack(bits + last) == Pack(bits) + [OctetOf(last)]
  {
    hide OctetOf;
    var all := bits + last;
    assert all[..|all| - 8] == bits && all[|all| - 8..] == last;
  }

  lemma UnpackAppend(octets: seq<Octet>, o: Octet)
    ensures Unpack(octets + [o]) == Unpack(octets) + OctetBits(o)
  {
    hide OctetBits;
    assert (octets + [o])[..|octets|] == octets;
  }

  lemma {:induction false} PackUnpack(octets: seq<Octet>)
    ensures Pack(Unpack(octets)) == octets
  {
    hide OctetOf, OctetBits, Pack, Unpack;
    if octets == [] {
      NothingPacked();
    } else {
      var front, o := octets[..|octets| - 1], octets[|octets| - 1];
      PackUnpack(front);
      UnpackAppend(front, o);
      PackAppend(Unpack(front), OctetBits(o));
      OctetOfBits(o);
      assert octets == front + [o];
    }
  }

  lemma NothingPacked()
    ensures Unpack([]) == [] && Pack([]) == []
  {
  }

  lemma OctetOfBits(o: Octet)
    ensures OctetOf(OctetBits(o)) == o
  {
  }

  lemma OctetBitsOf(bits: seq<bool>)
    requires |bits| == 8
    ensures OctetBits(OctetOf(bits)) == bits
  {
  }

  lemma {:induction false} UnpackPack(bits: seq<bool>)
    requires |bits| % 8 == 0
    ensures Unpack(Pack(bits)) == bits
  {
    hide OctetOf, OctetBits, Pack, Unpack;
    if bits == [] {
      NothingPacked();
    } else {
      var front, last := bits[..|bits| - 8], bits[|bits| - 8..];
      UnpackPack(front);
      assert bits == front + last;
      PackAppend(front, last);
      UnpackAppend(Pack(front), OctetOf(last));
      OctetBitsOf(last);
    }
  }

  lemma {:induction false} UnpackAt(octets: seq<Octet>, i: nat)
    requires i < 8 * |octets|
    ensures Unpack(octets)[i] == OctetBits(octets[i / 8])[i % 8]
  {
    if i < 8 * (|octets| - 1) {
      UnpackAt(octets[..|octets| - 1], i);
    }
  }

  lemma ValueHalves(o: Octet)
    ensures Value(o) % 2 == 1 <==> o.b0
    ensures Value(o) / 2 == Value(Octet(false, o.b7, o.b6, o.b5, o.b4, o.b3, o.b2, o.b1))
  {
    var h := Octet(false, o.b7, o.b6, o.b5, o.b4, o.b3, o.b2, o.b1);
    assert Value(o) == 2 * Value(h) + (if o.b0 then 1 else 0);
  }

  /** The low bits of an octet's value are its last bits. */
  lemma {:induction false} BitsOfValue(o: Octet, length: nat)
    requires length <= 8
    ensures Bits(Value(o), length) == OctetBits(o)[8 - length..]
    decreases length
  {
    hide Value;
    if length > 0 {
      var h := Octet(false, o.b7, o.b6, o.b5, o.b4, o.b3, o.b2, o.b1);
      ValueHalves(o);
      BitsOfValue(h, length - 1);
      OctetTail(o, length);
      hide OctetBits;
    }
  }

  lemma OctetTail(o: Octet, length: nat)
    requires 1 <= length <= 8
    ensures OctetBits(o)[8 - length..]
         == OctetBits(Octet(false, o.b7, o.b6, o.b5, o.b4, o.b3, o.b2, o.b1))[9 - length..] + [o.b0]
  {
  }

  lemma {:induction false} FitsBits(value: nat, n: nat)
    ensures ShiftRight(value, n) == 0 <==> value < Power2(n)
  {
    if n > 0 {
      FitsBits(value / 2, n - 1);
    }
  }

  /* ---- Versions and their blocks ---- */

  /** One error-correction block: its codewords in all, and how many of them carry data. */
  datatype Block = Block(total: nat, data: nat)

  predicate IsVersion(version: nat) {
    1 <= version <= 10
  }

  /** Rows (count, total, data) of error-correction level L. */
  function RsBlocks(version: nat): seq<(nat, Block)>
    requires IsVersion(version)
  {
    match version
    case 1 => [(1, Block(26, 19))]
    case 2 => [(1, Block(44, 34))]
    case 3 => [(1, Block(70, 55))]
    case 4 => [(1, Block(100, 80))]
    case 5 => [(1, Block(134, 108))]
    case 6 => [(2, Block(86, 68))]
    case 7 => [(2, Block(98, 78))]
    case 8 => [(2, Block(121, 97))]
    case 9 => [(2, Block(146, 116))]
    case _ => [(2, Block(86, 68)), (2, Block(87, 69))]
  }

  function Repeat<T>(n: nat, x: T): seq<T> {
    seq(n, _ => x)
  }

  function Expand(rows: seq<(nat, Block)>): seq<Block> {
    if rows == [] then [] else Expand(rows[..|rows| - 1]) + Repeat(rows[|rows| - 1].0, rows[|rows| - 1].1)
  }

  function BlocksOf(version: nat): seq<Block>
    requires IsVersion(version)
  {
    Expand(RsBlocks(version))
  }

  method Blocks(version: nat) returns (out: seq<Block>)
    requires IsVersion(version)
    ensures out == BlocksOf(version)
  {
    out := [];
    var rows := RsBlocks(version);
    for r := 0 to |rows|
      invariant out == Expand(rows[..r])
    {
      ghost var before := out;
      for i := 0 to rows[r].0
        invariant out == before + Repeat(i, rows[r].1)
      {
        out := out + [rows[r].1];
      }
      assert rows[..r + 1][..r] == rows[..r];
    }
    assert rows[..|rows|] == rows;
  }

  function DataLength(blocks: seq<Block>): nat {
    if blocks == [] then 0 else DataLength(blocks[..|blocks| - 1]) + blocks[|blocks| - 1].data
  }

  function TotalLength(blocks: seq<Block>): nat {
    if blocks == [] then 0 else TotalLength(blocks[..|blocks| - 1]) + blocks[|blocks| - 1].total
  }

  lemma BlocksListed(version: nat)
    requires IsVersion(version)
    ensures version <= 5 ==> BlocksOf(version) == [RsBlocks(version)[0].1]
    ensures 6 <= version <= 9 ==> BlocksOf(version) == [RsBlocks(version)[0].1, RsBlocks(version)[0].1]
    ensures version == 10 ==> BlocksOf(version) == [Block(86, 68), Block(86, 68), Block(87, 69), Block(87, 69)]
  {
    var rows := RsBlocks(version);
    assert Expand(rows[..0]) == [];
    assert rows[..1][..0] == rows[..0];
    if version == 10 {
      assert rows[..1] == [rows[0]] && rows[..2] == rows;
    } else {
      assert rows[..1] == rows;
    }
  }

  /** The data and total capacities of the ten versions, in codewords (Table 7 and Table 9 of ISO/IEC 18004:2015). */
  function DataCapacity(version: nat): nat
    requires IsVersion(version)
  {
    match version
    case 1 => 19 case 2 => 34 case 3 => 55 case 4 => 80 case 5 => 108
    case 6 => 136 case 7 => 156 case 8 => 194 case 9 => 232 case _ => 274
  }

  function TotalCapacity(version: nat): nat
    requires IsVersion(version)
  {
    match version
    case 1 => 26 case 2 => 44 case 3 => 70 case 4 => 100 case 5 => 134
    case 6 => 172 case 7 => 196 case 8 => 242 case 9 => 292 case _ => 346
  }

  lemma Capacities(version: nat)
    requires IsVersion(version)
    ensures DataLength(BlocksOf(version)) == DataCapacity(version)
    ensures TotalLength(BlocksOf(version)) == TotalCapacity(version)
  {
    hide Expand, DataLength, TotalLength;
    BlocksListed(version);
    var blocks := BlocksOf(version);
    LengthsOfNone();
    if version <= 5 {
      assert [] + [blocks[0]] == blocks;
      LengthsAppend([], blocks[0]);
    } else if version <= 9 {
      LengthsOfPair(blocks[0], blocks[1]);
    } else {
      CapacitiesOfTen();
    }
  }

  lemma CapacitiesOfTen()
    ensures DataLength([Block(86, 68), Block(86, 68), Block(87, 69), Block(87, 69)]) == 274
    ensures TotalLength([Block(86, 68), Block(86, 68), Block(87, 69), Block(87, 69)]) == 346
  {
    var a, b := Block(86, 68), Block(87, 69);
    LengthsOfPair(a, a);
    LengthsAppend([a, a], b);
    LengthsAppend([a, a, b], b);
    assert [a, a] + [b] == [a, a, b] && [a, a, b] + [b] == [a, a, b, b];
  }

  lemma LengthsOfNone()
    ensures DataLength([]) == 0 && TotalLength([]) == 0
  {
  }

  lemma LengthsAppend(blocks: seq<Block>, b: Block)
    ensures DataLength(blocks + [b]) == DataLength(blocks) + b.data
    ensures TotalLength(blocks + [b]) == TotalLength(blocks) + b.total
  {
    assert (blocks + [b])[..|blocks|] == blocks;
  }

  lemma LengthsOfPair(a: Block, b: Block)
    ensures DataLength([a, b]) == a.data + b.data
    ensures TotalLength([a, b]) == a.total + b.total
  {
    LengthsAppend([], a);
    LengthsAppend([a], b);
    assert [] + [a] == [a] && [a] + [b] == [a, b];
  }

  /** The width of the character count field. */
  function CountBits(version: nat): nat {
    if version < 10 then 8 else 16
  }

  predicate Fits(version: nat, byteLength: nat)
    requires IsVersion(version)
  {
    4 + CountBits(version) + 8 * byteLength <= 8 * DataCapacity(version)
  }

  method CountData(version: nat) returns (count: nat)
    requires IsVersion(version)
    ensures count == DataCapacity(version)
  {
    var blocks := Blocks(version);
    count := 0;
    for i := 0 to |blocks|
      invariant count == DataLength(blocks[..i])
    {
      count := count + blocks[i].data;
      assert blocks[..i + 1][..i] == blocks[..i];
    }
    assert blocks[..|blocks|] == blocks;
    Capacities(version);
  }

  /** The smallest version that holds the text. */
  method SelectVersion(byteLength: nat) returns (r: Result<nat>)
    ensures r.Ok? <==> byteLength <= 271
    ensures r.Ok? ==> IsVersion(r.value) && Fits(r.value, byteLength)
    ensures r.Ok? ==> forall v :: 1 <= v < r.value ==> !Fits(v, byteLength)
    ensures r.Err? ==> r.code == "QR_DATA_TOO_LONG"
  {
    for version := 1 to 11
      invariant forall v :: 1 <= v < version ==> !Fits(v, byteLength)
    {
      var data := CountData(version);
      var countBits := if version < 10 then 8 else 16;
      if 4 + countBits + byteLength * 8 <= data * 8 {
        return Ok(version);
      }
    }
    assert !Fits(10, byteLength);
    return Err("QR_DATA_TOO_LONG");
  }

  /* ---- The data codewords of a text ---- */

  const PAD0 := Octet(true, true, true, false, true, true, false, false)
  const PAD1 := Octet(false, false, false, true, false, false, false, true)

  /** n padding octets, starting with the given one of the two. */
  function Padding(n: nat, pad: Octet): (octets: seq<Octet>)
    ensures |octets| == n
  {
    if n == 0 then [] else [pad] + Padding(n - 1, Add(pad, Add(PAD0, PAD1)))
  }

  /** Mode indicator, count and text, before the terminator. */
  function Segment(bytes: seq<Octet>, version: nat): (bits: seq<bool>)
    ensures |bits| == 4 + CountBits(version) + 8 * |bytes|
  {
    Bits(4, 4) + Bits(|bytes|, CountBits(version)) + Unpack(bytes)
  }

  /** The segment with its terminator and the zeros that complete its last codeword. */
  function Terminated(segment: seq<bool>, capacity: nat): (bits: seq<bool>)
    requires |segment| <= capacity && capacity % 8 == 0
    ensures |segment| <= |bits| <= capacity && |bits| % 8 == 0
    ensures bits[..|segment|] == segment
  {
    var closed := segment + Repeat(Min(4, capacity - |segment|), false);
    closed + Repeat((8 - |closed| % 8) % 8, false)
  }

  /** The whole bit stream of a text at a version. */
  function DataBits(bytes: seq<Octet>, version: nat): (bits: seq<bool>)
    requires IsVersion(version) && Fits(version, |bytes|)
    ensures |bits| == 8 * DataCapacity(version) && |bits| % 8 == 0
  {
    var body := Terminated(Segment(bytes, version), 8 * DataCapacity(version));
    body + Unpack(Padding(DataCapacity(version) - |body| / 8, PAD0))
  }

  lemma {:induction false} BitsOfZero(n: nat)
    ensures Bits(0, n) == Repeat(n, false)
  {
    if n > 0 {
      BitsOfZero(n - 1);
    }
  }

  /** A text that fits also fits its count field. */
  lemma FitsCount(version: nat, byteLength: nat)
    requires IsVersion(version) && Fits(version, byteLength)
    ensures byteLength <= 271 && ShiftRight(byteLength, CountBits(version)) == 0
  {
    FitsBits(byteLength, CountBits(version));
    assert Power2(8) == 256;
    assert Power2(12) == 4096;
    assert Power2(16) == 65536;
  }

  lemma OctetAppend(bits: seq<bool>, octets: seq<Octet>, o: Octet)
    ensures (bits + Unpack(octets)) + Bits(Value(o), 8) == bits + Unpack(octets + [o])
    ensures ShiftRight(Value(o), 8) == 0
  {
    hide Value, OctetBits;
    BitsOfValue(o, 8);
    assert OctetBits(o)[0..] == OctetBits(o);
    assert (octets + [o])[..|octets|] == octets;
    FitsBits(Value(o), 8);
    assert Power2(8) == 256;
  }

  lemma ModeFits()
    ensures ShiftRight(4, 4) == 0
  {
    FitsBits(4, 4);
    assert Power2(4) == 16;
  }

  method AppendSegment(bytes: seq<Octet>, version: nat) returns (r: Result<seq<bool>>)
    requires |bytes| < 0x1_0000_0000
    ensures r.Ok? <==> ShiftRight(|bytes|, CountBits(version)) == 0
    ensures r.Ok? ==> r.value == Segment(bytes, version)
  {
    hide Value, Bits, ShiftRight, Unpack;
    ModeFits();
    r := AppendBits(4, 4, []);
    var bits := r.value;
    r := AppendBits(|bytes|, if version < 10 then 8 else 16, bits);
    if r.Err? {
      return;
    }
    bits := r.value;
    assert bits == Bits(4, 4) + Bits(|bytes|, CountBits(version));
    bits := AppendBytes(bytes, bits);
    r := Ok(bits);
  }

  method AppendBytes(bytes: seq<Octet>, start: seq<bool>) returns (bits: seq<bool>)
    ensures bits == start + Unpack(bytes)
  {
    hide Value, Bits, ShiftRight;
    bits := start;
    for i := 0 to |bytes|
      invariant bits == start + Unpack(bytes[..i])
    {
      OctetAppend(start, bytes[..i], bytes[i]);
      assert bytes[..i] + [bytes[i]] == bytes[..i + 1];
      var r := AppendBits(Value(bytes[i]), 8, bits);
      bits := r.value;
    }
    assert bytes[..|bytes|] == bytes;
  }

  lemma {:induction false} PaddingAppend(n: nat, pad: Octet)
    ensures Padding(n + 1, pad) == Padding(n, pad) + [PadAfter(n, pad)]
  {
    if n > 0 {
      PaddingAppend(n - 1, Add(pad, Add(PAD0, PAD1)));
    }
  }

  /** The padding octet n places after the given one. */
  function PadAfter(n: nat, pad: Octet): Octet {
    if n == 0 then pad else PadAfter(n - 1, Add(pad, Add(PAD0, PAD1)))
  }

  lemma {:induction false} PadAfterNext(n: nat, pad: Octet)
    ensures PadAfter(n + 1, pad) == Add(PadAfter(n, pad), Add(PAD0, PAD1))
  {
    hide Add;
    if n > 0 {
      PadAfterNext(n - 1, Add(pad, Add(PAD0, PAD1)));
    }
  }

  method CompleteOctet(closed: seq<bool>) returns (bits: seq<bool>)
    ensures bits == closed + Repeat((8 - |closed| % 8) % 8, false)
  {
    bits := closed;
    while |bits| % 8 != 0
      invariant |closed| <= |bits| <= |closed| + (8 - |closed| % 8) % 8
      invariant bits == closed + Repeat(|bits| - |closed|, false)
      decreases |closed| + 8 - |bits|
    {
      bits := bits + [false];
    }
  }

  /** Appends the terminator and completes the last codeword; a segment over capacity is refused. */
  method Terminate(segment: seq<bool>, capacity: nat) returns (r: Result<seq<bool>>)
    requires capacity % 8 == 0
    ensures r.Ok? <==> |segment| <= capacity
    ensures r.Ok? ==> r.value == Terminated(segment, capacity)
  {
    hide Bits, ShiftRight;
    if |segment| <= capacity {
      ShiftRightZero(Min(4, capacity - |segment|));
      BitsOfZero(Min(4, capacity - |segment|));
    }
    r := AppendBits(0, Min(4, capacity - |segment|), segment);
    if r.Err? {
      return;
    }
    var bits := CompleteOctet(r.value);
    r := Ok(bits);
  }

  lemma NoPadding()
    ensures Padding(0, PAD0) == [] && Unpack([]) == []
    ensures PadAfter(0, PAD0) == PAD0
  {
  }

  method AppendPadding(start: seq<bool>, capacity: nat) returns (bits: seq<bool>)
    requires |start| <= capacity && |start| % 8 == 0 && capacity % 8 == 0
    ensures bits == start + Unpack(Padding((capacity - |start|) / 8, PAD0))
  {
    hide Value, Add, Bits, ShiftRight, Unpack, Padding, PadAfter;
    NoPadding();
    bits := start;
    var pad := PAD0;
    ghost var n: nat := 0;
    while |bits| < capacity
      invariant |bits| == |start| + 8 * n <= capacity
      invariant pad == PadAfter(n, PAD0)
      invariant bits == start + Unpack(Padding(n, PAD0))
      decreases capacity - |bits|
    {
      OctetAppend(start, Padding(n, PAD0), pad);
      PaddingAppend(n, PAD0);
      PadAfterNext(n, PAD0);
      var r := AppendBits(Value(pad), 8, bits);
      bits := r.value;
      pad := Add(pad, Add(PAD0, PAD1));
      n := n + 1;
    }
  }

  /** The last eight of the given bits, shifted into an octet one by one. */
  function Gather(bits: seq<bool>): Octet {
    if bits == [] then ZERO else ShiftIn(Gather(bits[..|bits| - 1]), bits[|bits| - 1])
  }

  lemma GatherFour(bits: seq<bool>)
    requires |bits| >= 4
    ensures var (n, k) := (Gather(bits[..|bits| - 4]), |bits| - 4);
            Gather(bits) == ShiftIn(ShiftIn(ShiftIn(ShiftIn(n, bits[k]), bits[k + 1]), bits[k + 2]), bits[k + 3])
  {
    hide ShiftIn;
    var k := |bits| - 4;
    var p, q, r := bits[..k + 1], bits[..k + 2], bits[..k + 3];
    assert p[..k] == bits[..k] && q[..k + 1] == p && r[..k + 2] == q;
    assert Gather(r) == ShiftIn(Gather(q), bits[k + 2]);
    assert Gather(q) == ShiftIn(Gather(p), bits[k + 1]);
  }

  lemma GatherEight(bits: seq<bool>)
    requires |bits| == 8
    ensures Gather(bits) == OctetOf(bits)
  {
    hide Gather;
    GatherFour(bits);
    GatherFour(bits[..4]);
  }

  method GatherOctet(bits: seq<bool>) returns (n: Octet)
    requires |bits| == 8
    ensures n == OctetOf(bits)
  {
    hide ShiftIn, OctetOf;
    n := ZERO;
    for j := 0 to 8
      invariant n == Gather(bits[..j])
    {
      assert bits[..j + 1][..j] == bits[..j];
      n := ShiftIn(n, bits[j]);
    }
    assert bits[..8] == bits;
    GatherEight(bits);
  }

  lemma PackNext(bits: seq<bool>, i: nat)
    requires i % 8 == 0 && i + 8 <= |bits|
    ensures (i + 8) % 8 == 0
    ensures Pack(bits[..i + 8]) == Pack(bits[..i]) + [OctetOf(bits[i..i + 8])]
  {
    hide OctetOf, Pack;
    PackAppend(bits[..i], bits[i..i + 8]);
    assert bits[..i + 8] == bits[..i] + bits[i..i + 8];
  }

  method PackCodewords(bits: seq<bool>) returns (out: seq<Octet>)
    requires |bits| % 8 == 0
    ensures out == Pack(bits)
  {
    hide OctetOf, Pack;
    out := [];
    assert Pack(bits[..0]) == [];
    var i := 0;
    while i < |bits|
      invariant 0 <= i <= |bits| && i % 8 == 0
      invariant out == Pack(bits[..i])
    {
      PackNext(bits, i);
      var n := GatherOctet(bits[i..i + 8]);
      out := out + [n];
      i := i + 8;
    }
    assert bits[..|bits|] == bits;
  }

  /** The text as data codewords: segment, terminator, completion to whole codewords, padding. */
  method DataCodewords(bytes: seq<Octet>, version: nat) returns (r: Result<seq<Octet>>)
    requires IsVersion(version) && |bytes| < 0x1_0000_0000
    ensures r.Ok? <==> Fits(version, |bytes|)
    ensures r.Ok? ==> r.value == Pack(DataBits(bytes, version))
  {
    hide Terminated, Segment, ShiftRight, Unpack, Padding, Pack, DataCapacity;
    var count := CountData(version);
    var head := AppendSegment(bytes, version);
    if head.Err? {
      if Fits(version, |bytes|) {
        FitsCount(version, |bytes|);
      }
      return Err(head.code);
    }
    var tail := Terminate(head.value, count * 8);
    if tail.Err? {
      return Err(tail.code);
    }
    var bits := AppendPadding(tail.value, count * 8);
    var out := PackCodewords(bits);
    return Ok(out);
  }

  /* ---- Reading a text back ---- */

  lemma EightTimes(n: nat)
    ensures 8 * n % 8 == 0
  {
  }

  /** Reads one byte-mode segment from the front of a bit stream. */
  function Parse(bits: seq<bool>, version: nat): Option<seq<Octet>> {
    var header := 4 + CountBits(version);
    if |bits| < header || bits[..4] != [false, true, false, false] then None
    else
      var count := Number(bits[4..header]);
      if header + 8 * count > |bits| then None
      else
        EightTimes(count);
        Some(Pack(bits[header..header + 8 * count]))
  }

  lemma ParseDataBits(bytes: seq<Octet>, version: nat)
    requires IsVersion(version) && Fits(version, |bytes|)
    ensures Parse(DataBits(bytes, version), version) == Some(bytes)
  {
    hide Terminated, Segment, Padding, Bits, Number, Unpack, Pack, Fits, DataCapacity;
    var bits, segment := DataBits(bytes, version), Segment(bytes, version);
    var header := 4 + CountBits(version);
    DataBitsPrefix(bytes, version);
    SegmentParts(bytes, version);
    PrefixSlice(segment, bits, 0, 4);
    PrefixSlice(segment, bits, 4, header);
    PrefixSlice(segment, bits, header, |segment|);
    assert bits[0..4] == bits[..4] && segment[0..4] == segment[..4] && segment[header..|segment|] == segment[header..];
    FitsCount(version, |bytes|);
    NumberOfBits(|bytes|, CountBits(version));
    PackUnpack(bytes);
  }

  lemma DataBitsPrefix(bytes: seq<Octet>, version: nat)
    requires IsVersion(version) && Fits(version, |bytes|)
    ensures Segment(bytes, version) <= DataBits(bytes, version)
  {
    hide Segment, Terminated, DataCapacity;
  }

  lemma PrefixSlice<T>(a: seq<T>, b: seq<T>, i: nat, j: nat)
    requires a <= b && i <= j <= |a|
    ensures b[i..j] == a[i..j]
  {
  }

  lemma ModeBits()
    ensures Bits(4, 4) == [false, true, false, false]
  {
    BitsOfZero(1);
    assert Bits(1, 2) == [false, true];
    assert Bits(2, 3) == [false, true, false];
  }

  lemma SegmentParts(bytes: seq<Octet>, version: nat)
    ensures Segment(bytes, version)[..4] == [false, true, false, false]
    ensures Segment(bytes, version)[4..4 + CountBits(version)] == Bits(|bytes|, CountBits(version))
    ensures Segment(bytes, version)[4 + CountBits(version)..] == Unpack(bytes)
  {
    ModeBits();
    Slices(Bits(4, 4), Bits(|bytes|, CountBits(version)), Unpack(bytes));
  }

  lemma Slices<T>(a: seq<T>, b: seq<T>, c: seq<T>)
    ensures (a + b + c)[..|a|] == a
    ensures (a + b + c)[|a|..|a| + |b|] == b
    ensures (a + b + c)[|a| + |b|..] == c
  {
  }
}
