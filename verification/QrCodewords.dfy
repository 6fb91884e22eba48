/** The codewords that the encoder draws, against the standard's description of message and blocks. */
module QrCodewords {
  import opened Galois
  import opened QrBits
  import opened QrBlocks
  import RS = ReedSolomon
  import S = QrSymbol

  /** The capacities in bytes. */
  lemma FitsWhen(version: nat, n: nat)
    requires IsVersion(version)
    ensures Fits(version, n) <==> n <= S.ByteCount(version)
  {
  }

  /* ---- Blocks ---- */

  lemma BlockSizes(version: nat, b: nat)
    requires IsVersion(version) && b < S.BlockCount(version)
    ensures var blocks := BlocksOf(version);
            && |blocks| == S.BlockCount(version) && blocks[b].data == S.BlockData(version, b)
            && blocks[b].total == S.BlockData(version, b) + S.EccCount(version)
  {
    hide BlocksOf;
    BlocksListed(version);
  }

  lemma {:induction false} EqualBlocks(blocks: seq<Block>, b: nat, size: nat)
    requires b <= |blocks| && forall k :: 0 <= k < b ==> blocks[k].data == size
    ensures DataLength(blocks[..b]) == b * size
  {
    hide DataLength;
    if b == 0 {
      LengthsOfNone();
      assert blocks[..0] == [];
    } else {
      EqualBlocks(blocks, b - 1, size);
      LengthsAppend(blocks[..b - 1], blocks[b - 1]);
      assert blocks[..b] == blocks[..b - 1] + [blocks[b - 1]];
      assert b * size == (b - 1) * size + size;
    }
  }

  lemma BlocksAre(version: nat, b: nat)
    requires IsVersion(version) && b < S.BlockCount(version)
    ensures var blocks := BlocksOf(version);
            && |blocks| == S.BlockCount(version) && blocks[b].data == S.BlockData(version, b)
            && blocks[b].total == S.BlockData(version, b) + S.EccCount(version)
            && DataLength(blocks[..b]) == S.BlockStart(version, b)
  {
    hide BlocksOf, DataLength, S.DataCount, S.EccCount;
    BlockSizes(version, b);
    var blocks := BlocksOf(version);
    forall k | 0 <= k < b ensures blocks[k].data == S.BlockData(version, k) {
      BlockSizes(version, k);
    }
    if version == 10 && b == 3 {
      EqualBlocks(blocks, 2, 68);
      LengthsAppend(blocks[..2], blocks[2]);
      assert blocks[..3] == blocks[..2] + [blocks[2]];
    } else {
      EqualBlocks(blocks, b, S.BlockData(version, 0));
    }
  }

  lemma {:induction false} AllReach(lengths: seq<nat>, k: nat, i: nat)
    requires k <= |lengths| && forall b :: 0 <= b < |lengths| ==> i < lengths[b]
    ensures Reaching(lengths, k, i) == k
  {
    if k > 0 {
      AllReach(lengths, k - 1, i);
    }
  }

  lemma {:induction false} FullColumns(lengths: seq<nat>, i: nat)
    requires forall b :: 0 <= b < |lengths| ==> i <= lengths[b]
    ensures ColumnStart(lengths, i) == i * |lengths|
  {
    hide Reaching;
    if i > 0 {
      FullColumns(lengths, i - 1);
      AllReach(lengths, |lengths|, i - 1);
      assert i * |lengths| == (i - 1) * |lengths| + |lengths|;
    }
  }

  lemma LastColumn(lengths: seq<nat>, b: nat)
    requires lengths == [68, 68, 69, 69] && b < 4
    ensures Reaching(lengths, b, 68) == if b < 2 then 0 else b - 2
  {
    assert Reaching(lengths, 0, 68) == 0;
    assert Reaching(lengths, 1, 68) == 0;
    assert Reaching(lengths, 2, 68) == 0;
  }

  /** The interleaving's places. */
  lemma PlacesAre(version: nat, b: nat, i: nat)
    requires IsVersion(version) && b < S.BlockCount(version)
    ensures |BlocksOf(version)| == S.BlockCount(version)
    ensures i < S.BlockData(version, b) ==> Place(DataLengths(BlocksOf(version)), b, i) == S.DataPlace(version, b, i)
    ensures i < S.EccCount(version) ==> DataCapacity(version) + Place(EccLengths(BlocksOf(version)), b, i) == S.EccPlace(version, b, i)
  {
    hide BlocksOf, ColumnStart, Reaching;
    BlocksListed(version);
    BlocksAre(version, 0);
    var blocks := BlocksOf(version);
    var data, ecc := DataLengths(blocks), EccLengths(blocks);
    if i < S.EccCount(version) {
      FullColumns(ecc, i);
      AllReach(ecc, b, i);
    }
    if i < S.BlockData(version, b) {
      FullColumns(data, i);
      if version == 10 && i == 68 {
        LastColumn(data, b);
      } else {
        AllReach(data, b, i);
      }
    }
  }

  lemma BlockCollected(stream: seq<Octet>, version: nat, b: nat)
    requires IsVersion(version) && b < S.BlockCount(version)
    ensures b < |BlocksOf(version)| && ReceivedBlock(stream, BlocksOf(version), b) == S.BlockOf(stream, version, b)
  {
    hide BlocksOf, Place, S.DataPlace, S.EccPlace, S.BlockData, S.EccCount, DataCapacity;
    BlocksAre(version, b);
    Capacities(version);
    var received, block := ReceivedBlock(stream, BlocksOf(version), b), S.BlockOf(stream, version, b);
    var n := S.BlockData(version, b);
    forall i | 0 <= i < |block| ensures received[i] == block[i] {
      if i < n {
        PlacesAre(version, b, i);
      } else {
        PlacesAre(version, b, i - n);
      }
    }
  }

  /** Interleaving gives the stream that a scanner takes apart. */
  lemma StreamConforms(data: seq<Octet>, version: nat)
    requires IsVersion(version) && |data| == DataCapacity(version)
    ensures S.IsStream(Interleaved(data, version), version, data)
  {
    hide BlocksOf, Interleaved, ReceivedBlock, S.BlockOf, S.DataPlace, S.BlockStart, RS.Eval, Alpha, DataLength, ReadData;
    var stream := Interleaved(data, version);
    InterleavedLength(data, version);
    forall b, e | 0 <= b < S.BlockCount(version) && 0 <= e < S.EccCount(version)
      ensures RS.Eval(S.BlockOf(stream, version, b), Alpha(e)) == ZERO
    {
      BlocksAre(version, b);
      BlockCollected(stream, version, b);
      InterleavedReadBack(data, version, b, e);
    }
    forall b, i | 0 <= b < S.BlockCount(version) && 0 <= i < S.BlockData(version, b)
      ensures S.At(stream, S.DataPlace(version, b, i)) == S.At(data, S.BlockStart(version, b) + i)
    {
      DataCollected(data, version, b, i);
    }
  }

  lemma DataCollected(data: seq<Octet>, version: nat, b: nat, i: nat)
    requires IsVersion(version) && |data| == DataCapacity(version) && b < S.BlockCount(version) && i < S.BlockData(version, b)
    ensures S.At(Interleaved(data, version), S.DataPlace(version, b, i)) == S.At(data, S.BlockStart(version, b) + i)
  {
    hide BlocksOf, Interleaved, ReceivedBlock, S.DataPlace, S.BlockStart, S.EccPlace, RS.Eval, Alpha, DataLength, ReadData, S.BlockData, DataCapacity;
    var stream := Interleaved(data, version);
    BlocksAre(version, b);
    BlockCollected(stream, version, b);
    InterleavedReadBack(data, version, b, 0);
    var block := S.BlockOf(stream, version, b);
    assert block[i] == block[..S.BlockData(version, b)][i];
    assert block[i] == S.At(stream, S.DataPlace(version, b, i));
  }

  /* ---- The message ---- */

  lemma {:induction false} PackFront(first: seq<bool>, rest: seq<bool>)
    requires |first| == 8 && |rest| % 8 == 0
    ensures Pack(first + rest) == [OctetOf(first)] + Pack(rest)
  {
    hide OctetOf, Pack;
    if rest == [] {
      NothingPacked();
      PackAppend([], first);
      assert first + rest == [] + first;
    } else {
      var front, last := rest[..|rest| - 8], rest[|rest| - 8..];
      PackFront(first, front);
      PackAppend(first + front, last);
      PackAppend(front, last);
      assert first + rest == (first + front) + last && rest == front + last;
    }
  }

  lemma {:induction false} UnpackFront(o: Octet, rest: seq<Octet>)
    ensures Unpack([o] + rest) == OctetBits(o) + Unpack(rest)
  {
    hide OctetBits, Unpack;
    if rest == [] {
      NothingPacked();
      UnpackAppend([], o);
      assert [o] + rest == [] + [o];
    } else {
      var front, last := rest[..|rest| - 1], rest[|rest| - 1];
      UnpackFront(o, front);
      UnpackAppend([o] + front, last);
      UnpackAppend(front, last);
      assert [o] + rest == ([o] + front) + [last] && rest == front + [last];
    }
  }

  /** Four bits, octets and four bits, cut into octets. */
  function Shifted(first: seq<bool>, octets: seq<Octet>, last: seq<bool>): (r: seq<Octet>)
    requires |first| == 4 && |last| == 4
    ensures |r| == |octets| + 1
    decreases |octets|
  {
    if octets == [] then [OctetOf(first + last)]
    else [OctetOf(first + OctetBits(octets[0])[..4])] + Shifted(OctetBits(octets[0])[4..], octets[1..], last)
  }

  lemma {:induction false} PackShifted(first: seq<bool>, octets: seq<Octet>, last: seq<bool>)
    requires |first| == 4 && |last| == 4
    ensures |first + Unpack(octets) + last| % 8 == 0
    ensures Pack(first + Unpack(octets) + last) == Shifted(first, octets, last)
    decreases |octets|
  {
    hide OctetOf, OctetBits, Pack, Unpack;
    if octets == [] {
      NothingPacked();
      assert first + [] + last == (first + last) + [];
      PackFront(first + last, []);
    } else {
      var o, rest := octets[0], octets[1..];
      var bits := OctetBits(o);
      PackShifted(bits[4..], rest, last);
      UnpackFront(o, rest);
      assert octets == [o] + rest;
      assert first + (bits + Unpack(rest)) + last == (first + bits[..4]) + (bits[4..] + Unpack(rest) + last);
      PackFront(first + bits[..4], bits[4..] + Unpack(rest) + last);
    }
  }

  /** Half an octet as a number. */
  function Nibble(bits: seq<bool>): nat
    requires |bits| == 4
  {
    (if bits[0] then 8 else 0) + (if bits[1] then 4 else 0) + (if bits[2] then 2 else 0) + (if bits[3] then 1 else 0)
  }

  lemma JoinedValue(a: seq<bool>, b: seq<bool>)
    requires |a| == 4 && |b| == 4
    ensures Value(OctetOf(a + b)) == 16 * Nibble(a) + Nibble(b)
  {
  }

  lemma SplitValue(o: Octet)
    ensures Nibble(OctetBits(o)[..4]) == Value(o) / 16 && Nibble(OctetBits(o)[4..]) == Value(o) % 16
  {
    assert Value(o) == 16 * Nibble(OctetBits(o)[..4]) + Nibble(OctetBits(o)[4..]);
  }

  function Values(octets: seq<Octet>): (numbers: seq<nat>)
    ensures |numbers| == |octets| && forall i :: 0 <= i < |numbers| ==> numbers[i] == Value(octets[i])
  {
    seq(|octets|, i requires 0 <= i < |octets| => Value(octets[i]))
  }

  /** The octets of a shifted message, by number. */
  lemma {:induction false} ShiftedValue(first: seq<bool>, octets: seq<Octet>, last: seq<bool>, k: nat)
    requires |first| == 4 && |last| == 4 && k <= |octets|
    ensures Value(Shifted(first, octets, last)[k])
         == 16 * (if k == 0 then Nibble(first) else Value(octets[k - 1]) % 16) + (if k < |octets| then Value(octets[k]) / 16 else Nibble(last))
    decreases |octets|
  {
    hide Value, OctetOf, OctetBits, Nibble;
    if octets == [] {
      JoinedValue(first, last);
    } else {
      var bits := OctetBits(octets[0]);
      SplitValue(octets[0]);
      if k == 0 {
        JoinedValue(first, bits[..4]);
      } else {
        ShiftedValue(bits[4..], octets[1..], last, k - 1);
      }
    }
  }

  lemma {:induction false} PaddingAlternates(n: nat, pad: Octet, k: nat)
    requires k < n && (pad == PAD0 || pad == PAD1)
    ensures Padding(n, pad)[k] == if k % 2 == 0 then pad else if pad == PAD0 then PAD1 else PAD0
  {
    if k > 0 {
      PaddingAlternates(n - 1, Add(pad, Add(PAD0, PAD1)), k - 1);
    }
  }

  lemma PadValues()
    ensures Value(PAD0) == 0xec && Value(PAD1) == 0x11
  {
  }

  /** The octet of the low eight bits of a number. */
  function LowOctet(n: nat): Octet {
    OctetOf(Bits(n, 8))
  }

  lemma LowBits(n: nat)
    ensures Bits(n, 4) == [n / 8 % 2 == 1, n / 4 % 2 == 1, n / 2 % 2 == 1, n % 2 == 1]
  {
    assert n / 2 / 2 == n / 4 && n / 4 / 2 == n / 8;
    assert Bits(n / 8, 1) == [n / 8 % 2 == 1];
    assert Bits(n / 4, 2) == [n / 8 % 2 == 1, n / 4 % 2 == 1];
    assert Bits(n / 2, 3) == [n / 8 % 2 == 1, n / 4 % 2 == 1, n / 2 % 2 == 1];
  }

  lemma LowHalf(n: nat)
    ensures n % 16 == 8 * (n / 8 % 2) + 4 * (n / 4 % 2) + 2 * (n / 2 % 2) + n % 2
  {
    var q := n / 2;
    var r := q / 2;
    assert r == n / 4 && r / 2 == n / 8;
    assert n == 2 * q + n % 2 && q == 2 * r + q % 2 && r == 2 * (r / 2) + r % 2;
    assert r / 2 == 2 * (r / 2 / 2) + r / 2 % 2;
  }

  lemma NibbleOfBits(n: nat)
    ensures Nibble(Bits(n, 4)) == n % 16
  {
    hide Bits;
    LowBits(n);
    LowHalf(n);
  }

  lemma {:induction false} BitsSplit(n: nat, a: nat, b: nat)
    ensures Bits(n, a + b) == Bits(ShiftRight(n, b), a) + Bits(n, b)
    decreases b
  {
    if b > 0 {
      BitsSplit(n / 2, a, b - 1);
    } else {
      assert Bits(n, 0) == [];
    }
  }

  lemma ShiftFour(n: nat)
    ensures ShiftRight(n, 4) == n / 16
  {
    assert ShiftRight(n, 4) == ShiftRight(n / 2, 3);
    assert ShiftRight(n / 2, 3) == ShiftRight(n / 4, 2);
    assert ShiftRight(n / 4, 2) == ShiftRight(n / 8, 1);
    assert ShiftRight(n / 8, 1) == ShiftRight(n / 16, 0);
  }

  lemma LowOctetValue(n: nat)
    ensures Value(LowOctet(n)) == n % 256 && OctetBits(LowOctet(n)) == Bits(n, 8)
  {
    hide Value, OctetOf, OctetBits, Bits, Nibble, ShiftRight;
    BitsSplit(n, 4, 4);
    ShiftFour(n);
    NibbleOfBits(n);
    NibbleOfBits(n / 16);
    JoinedValue(Bits(n / 16, 4), Bits(n, 4));
    OctetBitsOf(Bits(n, 8));
    assert n % 256 == 16 * (n / 16 % 16) + n % 16;
  }

  /** The count of the bytes as octets. */
  function CountOctets(version: nat, n: nat): seq<Octet> {
    if version < 10 then [LowOctet(n)] else [LowOctet(n / 256), LowOctet(n)]
  }

  lemma ShiftEight(n: nat)
    ensures ShiftRight(n, 8) == n / 256
  {
    hide ShiftRight;
    ShiftFour(n);
    ShiftFour(n / 16);
    ShiftSum(n, 4, 4);
  }

  lemma {:induction false} ShiftSum(n: nat, a: nat, b: nat)
    ensures ShiftRight(n, a + b) == ShiftRight(ShiftRight(n, a), b)
    decreases a
  {
    if a > 0 {
      ShiftSum(n / 2, a - 1, b);
    }
  }

  lemma CountUnpacked(version: nat, n: nat)
    ensures Unpack(CountOctets(version, n)) == Bits(n, CountBits(version))
  {
    hide OctetBits, Unpack, Bits, LowOctet, ShiftRight;
    NothingPacked();
    LowOctetValue(n);
    if version < 10 {
      UnpackAppend([], LowOctet(n));
      assert [] + [LowOctet(n)] == [LowOctet(n)];
    } else {
      LowOctetValue(n / 256);
      UnpackAppend([], LowOctet(n / 256));
      UnpackAppend([LowOctet(n / 256)], LowOctet(n));
      assert [] + [LowOctet(n / 256)] == [LowOctet(n / 256)];
      assert [LowOctet(n / 256)] + [LowOctet(n)] == CountOctets(version, n);
      BitsSplit(n, 8, 8);
      ShiftEight(n);
    }
  }

  lemma {:induction false} UnpackConcat(a: seq<Octet>, b: seq<Octet>)
    ensures Unpack(a + b) == Unpack(a) + Unpack(b)
  {
    hide OctetBits, Unpack;
    if b == [] {
      NothingPacked();
      assert a + b == a;
    } else {
      var front, last := b[..|b| - 1], b[|b| - 1];
      UnpackConcat(a, front);
      UnpackAppend(a + front, last);
      UnpackAppend(front, last);
      assert a + b == (a + front) + [last] && b == front + [last];
    }
  }

  lemma {:induction false} PackTail(bits: seq<bool>, octets: seq<Octet>)
    requires |bits| % 8 == 0
    ensures |bits + Unpack(octets)| % 8 == 0 && Pack(bits + Unpack(octets)) == Pack(bits) + octets
  {
    hide OctetOf, OctetBits, Pack, Unpack;
    if octets == [] {
      NothingPacked();
      assert bits + [] == bits;
    } else {
      var front, last := octets[..|octets| - 1], octets[|octets| - 1];
      PackTail(bits, front);
      UnpackAppend(front, last);
      assert octets == front + [last];
      assert bits + (Unpack(front) + OctetBits(last)) == (bits + Unpack(front)) + OctetBits(last);
      PackAppend(bits + Unpack(front), OctetBits(last));
      OctetOfBits(last);
    }
  }

  /** Four zeros close the segment at an octet's end. */
  lemma TerminatedIs(bytes: seq<Octet>, version: nat)
    requires IsVersion(version) && Fits(version, |bytes|)
    ensures |Segment(bytes, version)| + 4 <= 8 * DataCapacity(version)
    ensures Terminated(Segment(bytes, version), 8 * DataCapacity(version)) == Segment(bytes, version) + Repeat(4, false)
  {
    hide Unpack, Bits, DataCapacity, Segment;
    var segment := Segment(bytes, version);
    assert |segment| == 4 + CountBits(version) + 8 * |bytes|;
    var closed := segment + Repeat(4, false);
    assert closed + Repeat(0, false) == closed;
  }

  /** The message, by octets: the shifted segment and the padding. */
  lemma MessageParts(bytes: seq<Octet>, version: nat)
    requires IsVersion(version) && Fits(version, |bytes|)
    ensures var q := CountOctets(version, |bytes|) + bytes;
            && |q| + 1 <= DataCapacity(version)
            && Pack(DataBits(bytes, version)) == Shifted(Bits(4, 4), q, Repeat(4, false)) + Padding(DataCapacity(version) - |q| - 1, PAD0)
  {
    hide Unpack, Bits, DataCapacity, Pack, Padding, Shifted, Terminated, OctetBits;
    var q := CountOctets(version, |bytes|) + bytes;
    TerminatedIs(bytes, version);
    CountUnpacked(version, |bytes|);
    UnpackConcat(CountOctets(version, |bytes|), bytes);
    var body := Bits(4, 4) + Unpack(q) + Repeat(4, false);
    assert Bits(4, 4) + Bits(|bytes|, CountBits(version)) + Unpack(bytes) + Repeat(4, false) == body;
    assert |body| == 8 * (|q| + 1);
    PackShifted(Bits(4, 4), q, Repeat(4, false));
    PackTail(body, Padding(DataCapacity(version) - |q| - 1, PAD0));
  }

  lemma ValuesConcat(a: seq<Octet>, b: seq<Octet>)
    ensures Values(a + b) == Values(a) + Values(b)
  {
    hide Value;
  }

  lemma CountedIs(bytes: seq<Octet>, version: nat)
    requires |bytes| <= 271 && (version < 10 ==> |bytes| < 256)
    ensures S.Counted(version, bytes) == Values(CountOctets(version, |bytes|) + bytes)
  {
    hide LowOctet, Value;
    var n := |bytes|;
    LowOctetValue(n);
    LowOctetValue(n / 256);
    ValuesConcat(CountOctets(version, n), bytes);
    var numbers := seq(n, i requires 0 <= i < n => Value(bytes[i]));
    assert Values(bytes) == numbers;
    if version < 10 {
      assert Values(CountOctets(version, n)) == [n];
    } else {
      assert n / 256 < 256 && Values(CountOctets(version, n)) == [n / 256, n % 256];
    }
    assert S.Counted(version, bytes) == Values(CountOctets(version, n)) + numbers;
  }

  lemma CountFits(version: nat, n: nat)
    requires IsVersion(version) && Fits(version, n)
    ensures n <= 271 && (version < 10 ==> n < 256)
  {
  }

  lemma ZeroNibble()
    ensures Nibble(Repeat(4, false)) == 0 && Nibble(Bits(4, 4)) == 4
  {
    ModeBits();
  }

  lemma CapacityIsCount(version: nat)
    requires IsVersion(version)
    ensures DataCapacity(version) == S.DataCount(version)
  {
  }

  /** The message is what a scanner reads: mode, count, bytes, terminator, and the two pad octets in turns. */
  lemma MessageConforms(bytes: seq<Octet>, version: nat)
    requires IsVersion(version) && Fits(version, |bytes|)
    ensures S.IsMessage(Pack(DataBits(bytes, version)), version, bytes)
  {
    hide Unpack, Bits, DataCapacity, Pack, Padding, Shifted, DataBits, CountOctets, Value, Fits, S.DataCount, S.Counted, Nibble;
    var q := CountOctets(version, |bytes|) + bytes;
    MessageParts(bytes, version);
    CountFits(version, |bytes|);
    CountedIs(bytes, version);
    CapacityIsCount(version);
    ZeroNibble();
    PadValues();
    var message, n := Pack(DataBits(bytes, version)), DataCapacity(version) - |q| - 1;
    forall k | 0 <= k <= |q| ensures Value(message[k]) == S.HalfShifted(Values(q), k) {
      ShiftedValue(Bits(4, 4), q, Repeat(4, false), k);
      NibbleStays(q, k);
    }
    forall k | |q| < k < |message| ensures Value(message[k]) == if (k - |q|) % 2 == 1 then 0xec else 0x11 {
      PaddingAlternates(n, PAD0, k - |q| - 1);
    }
  }

  lemma NibbleStays(q: seq<Octet>, k: nat)
    requires k <= |q|
    ensures S.HalfShifted(Values(q), k)
         == 16 * (if k == 0 then 4 else Value(q[k - 1]) % 16) + (if k < |q| then Value(q[k]) / 16 else 0)
  {
    hide Value;
  }
}
