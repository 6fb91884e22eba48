/** Base64 without platform helpers, and the tolerant decoder that reads it (RFC 4648). */
module Base64 {
  import opened Results
  import opened Bytes
  import opened Text

  type Sextet = s: int | 0 <= s < 64

  type Octet = n: int | 0 <= n < 256

  function Value(b: bv8): Octet {
    b as int
  }

  /** The byte at a position, or 0 beyond the end: bytes[index] ?? 0. */
  function At(bytes: Bytes, index: nat): Octet {
    if index < |bytes| then Value(bytes[index]) else 0
  }

  const PAD: Unit := '=' as int

  /** The standard alphabet (Table 1 of RFC 4648). */
  function Alphabet(s: Sextet): Unit {
    if s < 26 then 'A' as int + s
    else if s < 52 then 'a' as int + (s - 26)
    else if s < 62 then '0' as int + (s - 52)
    else if s == 62 then '+' as int else '/' as int
  }

  function SextetOf(u: Unit): Option<Sextet> {
    if 'A' as int <= u <= 'Z' as int then Some(u - 'A' as int)
    else if 'a' as int <= u <= 'z' as int then Some(u - 'a' as int + 26)
    else if '0' as int <= u <= '9' as int then Some(u - '0' as int + 52)
    else if u == '+' as int then Some(62)
    else if u == '/' as int then Some(63)
    else None
  }

  function Combined(first: Octet, second: Octet, third: Octet): (n: nat) {
    var high: nat, middle: nat := first, second;
    high * 0x1_0000 + middle * 0x100 + third
  }

  /** The four characters of the group at index, as the loop body computes them. */
  function Group(bytes: Bytes, index: nat): (t: Text)
    requires index < |bytes|
    ensures |t| == 4
  {
    var combined := Combined(At(bytes, index), At(bytes, index + 1), At(bytes, index + 2));
    [Alphabet(combined / 0x4_0000 % 64), Alphabet(combined / 0x1000 % 64),
     if index + 1 < |bytes| then Alphabet(combined / 0x40 % 64) else PAD,
     if index + 2 < |bytes| then Alphabet(combined % 64) else PAD]
  }

  /** The groups from index on. */
  function EncodedFrom(bytes: Bytes, index: nat): Text
    decreases |bytes| - index
  {
    if index >= |bytes| then [] else Group(bytes, index) + EncodedFrom(bytes, index + 3)
  }

  function Encoded(bytes: Bytes): Text {
    EncodedFrom(bytes, 0)
  }

  method Base64Encode(bytes: Bytes) returns (output: Text)
    ensures output == Encoded(bytes)
  {
    hide Group, EncodedFrom;
    output := [];
    var index := 0;
    assert [] + EncodedFrom(bytes, 0) == EncodedFrom(bytes, 0);
    while index < |bytes|
      invariant output + EncodedFrom(bytes, index) == Encoded(bytes)
      decreases |bytes| - index
    {
      EncodedStep(bytes, index, output);
      output := output + Group(bytes, index);
      index := index + 3;
    }
    NothingEncoded(bytes, index);
    assert output + [] == output;
  }

  lemma EncodedStep(bytes: Bytes, index: nat, output: Text)
    requires index < |bytes|
    ensures output + EncodedFrom(bytes, index) == output + Group(bytes, index) + EncodedFrom(bytes, index + 3)
  {
    hide Group;
    var next := EncodedFrom(bytes, index + 3);
    assert output + (Group(bytes, index) + next) == output + Group(bytes, index) + next;
  }

  lemma NothingEncoded(bytes: Bytes, index: nat)
    requires index >= |bytes|
    ensures EncodedFrom(bytes, index) == []
  {
  }

  function Replaced(t: Text, from: char, to: char): (r: Text)
    requires from as int < 0x80 && to as int < 0x80
    ensures |r| == |t|
    ensures forall i :: 0 <= i < |t| ==> r[i] == if t[i] == from as int then to as int else t[i]
  {
    seq(|t|, i requires 0 <= i < |t| => if t[i] == from as int then to as int else t[i])
  }

  /** replace(/=+$/g, '') */
  function WithoutPads(t: Text): Text {
    if t != [] && t[|t| - 1] == PAD then WithoutPads(t[..|t| - 1]) else t
  }

  function UrlEncoded(bytes: Bytes): Text {
    WithoutPads(Replaced(Replaced(Encoded(bytes), '+', '-'), '/', '_'))
  }

  /* ---- The decoder ---- */

  /** ASCII whitespace, which atob skips. */
  predicate IsBlank(u: Unit) {
    u == 9 || u == 10 || u == 12 || u == 13 || u == 32
  }

  function WithoutBlanks(t: Text): Text {
    if t == [] then []
    else if IsBlank(t[0]) then WithoutBlanks(t[1..])
    else [t[0]] + WithoutBlanks(t[1..])
  }

  /** At most two pads, from a text of whole groups only. */
  function WithoutGroupPads(t: Text): Text {
    if |t| % 4 != 0 || t == [] || t[|t| - 1] != PAD then t
    else if t[|t| - 2] != PAD then t[..|t| - 1]
    else t[..|t| - 2]
  }

  function SextetsOf(t: Text): Option<seq<Sextet>> {
    if t == [] then Some([])
    else match (SextetOf(t[0]), SextetsOf(t[1..]))
      case (Some(s), Some(others)) => Some([s] + others)
      case _ => None
  }

  /** The three bytes of a group's four sextets. */
  function FirstByte(s0: Sextet, s1: Sextet): (n: nat)
    ensures n < 256
  {
    var high: nat := s0;
    high * 4 + s1 / 16
  }

  function SecondByte(s1: Sextet, s2: Sextet): (n: nat)
    ensures n < 256
  {
    var high: nat := s1 % 16;
    high * 16 + s2 / 4
  }

  function ThirdByte(s2: Sextet, s3: Sextet): (n: nat)
    ensures n < 256
  {
    var high: nat := s2 % 4;
    high * 64 + s3
  }

  /** Every four characters are three bytes; bits that do not fill a byte are dropped. */
  function BytesOf(sextets: seq<Sextet>): Bytes {
    if |sextets| < 2 then []
    else
      var a := Byte(FirstByte(sextets[0], sextets[1]));
      if |sextets| == 2 then [a]
      else
        var b := Byte(SecondByte(sextets[1], sextets[2]));
        if |sextets| == 3 then [a, b]
        else [a, b, Byte(ThirdByte(sextets[2], sextets[3]))] + BytesOf(sextets[4..])
  }

  /** atob: the forgiving-base64 decode of the WHATWG Infra Standard. */
  function Atob(t: Text): Option<Bytes> {
    var data := WithoutGroupPads(WithoutBlanks(t));
    if |data| % 4 == 1 then None
    else match SextetsOf(data)
      case None => None
      case Some(sextets) => Some(BytesOf(sextets))
  }

  /** decodeBase64: either alphabet, and never an empty result. */
  function Decoded(value: Text, code: string): Result<Bytes> {
    match Atob(Replaced(Replaced(value, '-', '+'), '_', '/'))
    case None => Err(code)
    case Some(bytes) => if bytes == [] then Err(code) else Ok(bytes)
  }

  /* ---- Round trips ---- */

  /** The four sextets of a group's three bytes. */
  function Sextet0(a: Octet): Sextet {
    a / 4
  }

  function Sextet1(a: Octet, b: Octet): Sextet {
    var low: nat := a % 4;
    low * 16 + b / 16
  }

  function Sextet2(b: Octet, c: Octet): Sextet {
    var low: nat := b % 16;
    low * 4 + c / 64
  }

  function Sextet3(c: Octet): Sextet {
    c % 64
  }

  /** The sextets of the bytes from index on, without pads. */
  function SextetsFrom(bytes: Bytes, index: nat): seq<Sextet>
    decreases |bytes| - index
  {
    if index >= |bytes| then []
    else
      var a, b, c := At(bytes, index), At(bytes, index + 1), At(bytes, index + 2);
      if index + 1 == |bytes| then [Sextet0(a), Sextet1(a, b)]
      else if index + 2 == |bytes| then [Sextet0(a), Sextet1(a, b), Sextet2(b, c)]
      else [Sextet0(a), Sextet1(a, b), Sextet2(b, c), Sextet3(c)] + SextetsFrom(bytes, index + 3)
  }

  function Units(sextets: seq<Sextet>): (t: Text)
    ensures |t| == |sextets| && forall i :: 0 <= i < |t| ==> t[i] == Alphabet(sextets[i])
  {
    seq(|sextets|, i requires 0 <= i < |sextets| => Alphabet(sextets[i]))
  }

  function Pads(length: nat): Text {
    if length % 3 == 0 then [] else if length % 3 == 1 then [PAD, PAD] else [PAD]
  }

  lemma CombinedParts(a1: nat, a0: nat, b1: nat, b0: nat, c1: nat, c0: nat)
    requires a1 < 64 && a0 < 4 && b1 < 16 && b0 < 16 && c1 < 4 && c0 < 64
    ensures var n := (4 * a1 + a0) * 0x1_0000 + (16 * b1 + b0) * 0x100 + (64 * c1 + c0);
            && n / 0x4_0000 % 64 == a1 && n / 0x1000 % 64 == a0 * 16 + b1
            && n / 0x40 % 64 == b0 * 4 + c1 && n % 64 == c0
  {
    var n := (4 * a1 + a0) * 0x1_0000 + (16 * b1 + b0) * 0x100 + (64 * c1 + c0);
    assert n / 0x4_0000 == a1;
    assert n / 0x1000 == 64 * a1 + (16 * a0 + b1);
    assert n / 0x40 == 64 * (64 * a1 + 16 * a0 + b1) + (4 * b0 + c1);
  }

  lemma CombinedSextets(a: Octet, b: Octet, c: Octet)
    ensures var n := Combined(a, b, c);
            && n / 0x4_0000 % 64 == Sextet0(a) && n / 0x1000 % 64 == Sextet1(a, b)
            && n / 0x40 % 64 == Sextet2(b, c) && n % 64 == Sextet3(c)
  {
    CombinedParts(a / 4, a % 4, b / 16, b % 16, c / 64, c % 64);
  }

  lemma GroupIsSextets(bytes: Bytes, index: nat)
    requires index < |bytes|
    ensures var (a, b, c) := (At(bytes, index), At(bytes, index + 1), At(bytes, index + 2));
            Group(bytes, index)
              == [Alphabet(Sextet0(a)), Alphabet(Sextet1(a, b)),
                  if index + 1 < |bytes| then Alphabet(Sextet2(b, c)) else PAD,
                  if index + 2 < |bytes| then Alphabet(Sextet3(c)) else PAD]
  {
    hide Alphabet, Sextet0, Sextet1, Sextet2, Sextet3, At, Combined;
    CombinedSextets(At(bytes, index), At(bytes, index + 1), At(bytes, index + 2));
  }

  lemma {:induction false} EncodedIsSextets(bytes: Bytes, index: nat)
    requires index <= |bytes| && (|bytes| - index) % 3 == |bytes| % 3
    ensures EncodedFrom(bytes, index) == Units(SextetsFrom(bytes, index)) + Pads(|bytes|)
    decreases |bytes| - index
  {
    hide Alphabet, Group, Sextet0, Sextet1, Sextet2, Sextet3, At;
    if index < |bytes| {
      GroupIsSextets(bytes, index);
      if index + 2 < |bytes| {
        EncodedIsSextets(bytes, index + 3);
      }
    }
  }

  lemma BytesBack(b: bv8)
    ensures Byte(Value(b)) == b
  {
    hide Byte;
    ByteValue(b as int);
    SameByte(Byte(b as int), b);
  }

  lemma SameByte(a: bv8, b: bv8)
    requires a as int == b as int
    ensures a == b
  {
  }

  lemma SextetBits(a: Octet, b: Octet, c: Octet)
    ensures FirstByte(Sextet0(a), Sextet1(a, b)) == a
    ensures SecondByte(Sextet1(a, b), Sextet2(b, c)) == b
    ensures ThirdByte(Sextet2(b, c), Sextet3(c)) == c
  {
    assert Sextet1(a, b) / 16 == a % 4 && Sextet1(a, b) % 16 == b / 16;
    assert Sextet2(b, c) / 4 == b % 16 && Sextet2(b, c) % 4 == c / 64;
  }

  lemma {:induction false} BytesOfSextets(bytes: Bytes, index: nat)
    requires index <= |bytes|
    ensures BytesOf(SextetsFrom(bytes, index)) == bytes[index..]
    decreases |bytes| - index
  {
    hide Byte, Sextet0, Sextet1, Sextet2, Sextet3, FirstByte, SecondByte, ThirdByte, Value;
    if index < |bytes| {
      SextetBits(At(bytes, index), At(bytes, index + 1), At(bytes, index + 2));
      BytesBack(bytes[index]);
      if index + 1 < |bytes| {
        BytesBack(bytes[index + 1]);
      }
      if index + 2 < |bytes| {
        BytesBack(bytes[index + 2]);
        BytesOfSextets(bytes, index + 3);
        assert SextetsFrom(bytes, index)[4..] == SextetsFrom(bytes, index + 3);
      }
    }
  }

  lemma AlphabetBack(s: Sextet)
    ensures SextetOf(Alphabet(s)) == Some(s) && Alphabet(s) != PAD && !IsBlank(Alphabet(s))
    ensures Alphabet(s) != '-' as int && Alphabet(s) != '_' as int
  {
  }

  lemma {:induction false} SextetsBack(sextets: seq<Sextet>)
    ensures SextetsOf(Units(sextets)) == Some(sextets)
  {
    hide Alphabet, SextetOf;
    if sextets != [] {
      AlphabetBack(sextets[0]);
      assert Units(sextets)[1..] == Units(sextets[1..]);
      SextetsBack(sextets[1..]);
      assert sextets == [sextets[0]] + sextets[1..];
    }
  }

  lemma {:induction false} NoBlanks(t: Text)
    requires forall i :: 0 <= i < |t| ==> !IsBlank(t[i])
    ensures WithoutBlanks(t) == t
  {
    if t != [] {
      NoBlanks(t[1..]);
      assert t == [t[0]] + t[1..];
    }
  }

  /** Whole groups of three bytes give four sextets each; one byte more gives two, two give three. */
  function SextetCount(n: nat): nat {
    n / 3 * 4 + (if n % 3 == 0 then 0 else n % 3 + 1)
  }

  lemma {:induction false} SextetsLength(bytes: Bytes, index: nat)
    requires index <= |bytes|
    ensures |SextetsFrom(bytes, index)| == SextetCount(|bytes| - index)
    decreases |bytes| - index
  {
    hide Sextet0, Sextet1, Sextet2, Sextet3, At;
    if index + 2 < |bytes| {
      SextetsLength(bytes, index + 3);
      assert |bytes| - index == 3 + (|bytes| - (index + 3));
    }
  }

  lemma SextetCountPadded(n: nat)
    ensures (SextetCount(n) + |Pads(n)|) % 4 == 0 && SextetCount(n) % 4 != 1
    ensures SextetCount(n) + |Pads(n)| == 4 * ((n + 2) / 3)
    ensures Pads(n) != [] ==> SextetCount(n) % 4 != 0
  {
  }

  lemma UnitsPlain(sextets: seq<Sextet>)
    ensures forall u :: u in Units(sextets) ==> u != PAD && !IsBlank(u) && u != '-' as int && u != '_' as int
  {
    forall u | u in Units(sextets) ensures u != PAD && !IsBlank(u) && u != '-' as int && u != '_' as int {
      var i :| 0 <= i < |sextets| && Units(sextets)[i] == u;
      AlphabetBack(sextets[i]);
    }
  }

  lemma PadsPlain(n: nat)
    ensures forall u :: u in Pads(n) ==> !IsBlank(u)
  {
  }

  lemma GroupPadsRemoved(units: Text, n: nat, padded: bool)
    requires |units| == SextetCount(n) && forall u :: u in units ==> u != PAD
    ensures WithoutGroupPads(units + (if padded then Pads(n) else [])) == units
  {
    hide SextetCount, WithoutGroupPads, Pads;
    SextetCountPadded(n);
    PadsAre(n);
    TailRemoved(units, if padded then Pads(n) else []);
  }

  lemma PadsAre(n: nat)
    ensures Pads(n) == [] || Pads(n) == [PAD] || Pads(n) == [PAD, PAD]
  {
  }

  lemma TailRemoved(units: Text, pads: Text)
    requires forall u :: u in units ==> u != PAD
    requires pads == [] || ((|units| + |pads|) % 4 == 0 && |units| % 4 != 0 && (pads == [PAD] || pads == [PAD, PAD]))
    ensures WithoutGroupPads(units + pads) == units
  {
    if pads == [] {
      assert units + pads == units;
    }
    if units != [] {
      assert units[|units| - 1] in units;
    }
    assert (units + pads)[..|units|] == units;
  }

  /** atob of the sextets' characters, with or without their pads. */
  lemma AtobBack(bytes: Bytes, padded: bool)
    ensures Atob(Units(SextetsFrom(bytes, 0)) + (if padded then Pads(|bytes|) else [])) == Some(bytes)
  {
    hide Alphabet, SextetOf, BytesOf, SextetsFrom, SextetsOf, WithoutGroupPads, WithoutBlanks, SextetCount, Units, Pads, IsBlank;
    var sextets := SextetsFrom(bytes, 0);
    var t := Units(sextets) + (if padded then Pads(|bytes|) else []);
    UnitsPlain(sextets);
    SextetsLength(bytes, 0);
    PadsPlain(|bytes|);
    assert forall i :: 0 <= i < |t| ==> t[i] in Units(sextets) || t[i] in Pads(|bytes|);
    NoBlanks(t);
    SextetCountPadded(|bytes|);
    GroupPadsRemoved(Units(sextets), |bytes|, padded);
    SextetsBack(sextets);
    BytesOfSextets(bytes, 0);
    assert bytes[0..] == bytes;
  }

  /** Four characters for every three bytes begun. */
  lemma EncodedLength(bytes: Bytes)
    ensures |Encoded(bytes)| == 4 * ((|bytes| + 2) / 3)
  {
    EncodedIsSextets(bytes, 0);
    SextetsLength(bytes, 0);
    SextetCountPadded(|bytes|);
  }

  /** Decoding the encoding of any bytes but none returns them; an empty value is refused. */
  lemma DecodesEncoded(bytes: Bytes, code: string)
    ensures Decoded(Encoded(bytes), code) == if bytes == [] then Err(code) else Ok(bytes)
  {
    hide Units, SextetsFrom, Atob;
    var t := Encoded(bytes);
    EncodedIsSextets(bytes, 0);
    UnitsPlain(SextetsFrom(bytes, 0));
    assert Replaced(Replaced(t, '-', '+'), '_', '/') == t;
    AtobBack(bytes, true);
  }

  lemma {:induction false} PadsRemoved(t: Text, pads: nat)
    requires forall i :: 0 <= i < |t| ==> t[i] != PAD
    ensures WithoutPads(t + seq(pads, i => PAD)) == t
  {
    var whole := t + seq(pads, i => PAD);
    if pads > 0 {
      assert whole[..|whole| - 1] == t + seq(pads - 1, i => PAD);
      PadsRemoved(t, pads - 1);
    } else {
      assert whole == t;
    }
  }

  function Url(t: Text): (r: Text)
    ensures |r| == |t|
  {
    Replaced(Replaced(t, '+', '-'), '/', '_')
  }

  lemma UrlIsSextets(bytes: Bytes)
    ensures UrlEncoded(bytes) == Url(Units(SextetsFrom(bytes, 0)))
  {
    hide SextetsFrom, Alphabet;
    var units := Units(SextetsFrom(bytes, 0));
    EncodedIsSextets(bytes, 0);
    UnitsPlain(SextetsFrom(bytes, 0));
    assert Url(units + Pads(|bytes|)) == Url(units) + Pads(|bytes|);
    assert Pads(|bytes|) == seq(|Pads(|bytes|)|, i => PAD);
    assert forall i :: 0 <= i < |units| ==> units[i] in units;
    PadsRemoved(Url(units), |Pads(|bytes|)|);
  }

  /** The URL form has no pads and no characters outside its alphabet, and decodes to the same bytes. */
  lemma DecodesUrlEncoded(bytes: Bytes, code: string)
    ensures Decoded(UrlEncoded(bytes), code) == if bytes == [] then Err(code) else Ok(bytes)
    ensures forall u :: u in UrlEncoded(bytes) ==> u != PAD && u != '+' as int && u != '/' as int
  {
    hide SextetsFrom, Atob, Alphabet;
    var units := Units(SextetsFrom(bytes, 0));
    UrlIsSextets(bytes);
    UnitsPlain(SextetsFrom(bytes, 0));
    assert forall i :: 0 <= i < |units| ==> units[i] in units;
    assert Replaced(Replaced(Url(units), '-', '+'), '_', '/') == units;
    assert units + [] == units;
    AtobBack(bytes, false);
  }

  /* ---- The exact text ---- */

  /** The table of section 4 of RFC 4648, by character code. */
  lemma AlphabetIs(s: Sextet)
    ensures s < 26 ==> Alphabet(s) == 0x41 + s
    ensures 26 <= s < 52 ==> Alphabet(s) == 0x61 + s - 26
    ensures 52 <= s < 62 ==> Alphabet(s) == 0x30 + s - 52
    ensures Alphabet(62) == 0x2b && Alphabet(63) == 0x2f
  {
  }

  /** Three octets become four characters, six bits each from the highest. */
  lemma Groups(a: bv8, b: bv8, c: bv8, rest: Bytes)
    ensures var (x, y, z) := (Value(a), Value(b), Value(c));
            Encoded([a, b, c] + rest) == [Alphabet(x / 4), Alphabet(x % 4 * 16 + y / 16), Alphabet(y % 16 * 4 + z / 64), Alphabet(z % 64)] + Encoded(rest)
  {
    hide Value, Alphabet;
    GroupOf([a, b, c] + rest, 0);
    EncodedBehind([a, b, c], rest, 0);
  }

  /** One or two octets at the end are padded. */
  lemma LastGroups(a: bv8, b: bv8)
    ensures Encoded([]) == []
    ensures Encoded([a]) == [Alphabet(Value(a) / 4), Alphabet(Value(a) % 4 * 16), 0x3d, 0x3d]
    ensures var (x, y) := (Value(a), Value(b));
            Encoded([a, b]) == [Alphabet(x / 4), Alphabet(x % 4 * 16 + y / 16), Alphabet(y % 16 * 4), 0x3d]
  {
    hide Value, Alphabet;
    GroupOf([a], 0);
    GroupOf([a, b], 0);
    NothingEncoded([a], 3);
    NothingEncoded([a, b], 3);
  }

  lemma SixBits(x: Octet, y: Octet, z: Octet)
    ensures var n := Combined(x, y, z);
            && n / 0x4_0000 % 64 == x / 4 && n / 0x1000 % 64 == x % 4 * 16 + y / 16
            && n / 0x40 % 64 == y % 16 * 4 + z / 64 && n % 64 == z % 64
  {
    var n := Combined(x, y, z);
    assert n / 0x40 == x * 1024 + y * 4 + z / 64;
    assert n / 0x1000 == x * 16 + y / 16;
    assert n / 0x4_0000 == x / 4;
  }

  lemma GroupOf(bytes: Bytes, index: nat)
    requires index < |bytes|
    ensures var (x, y, z) := (At(bytes, index), At(bytes, index + 1), At(bytes, index + 2));
            Group(bytes, index) ==
              [Alphabet(x / 4), Alphabet(x % 4 * 16 + y / 16),
               if index + 1 < |bytes| then Alphabet(y % 16 * 4 + z / 64) else 0x3d,
               if index + 2 < |bytes| then Alphabet(z % 64) else 0x3d]
  {
    hide Alphabet, Combined, At;
    SixBits(At(bytes, index), At(bytes, index + 1), At(bytes, index + 2));
  }

  lemma {:induction false} EncodedBehind(front: Bytes, rest: Bytes, index: nat)
    ensures EncodedFrom(front + rest, |front| + index) == EncodedFrom(rest, index)
    decreases |rest| - index
  {
    hide Group;
    if index < |rest| {
      EncodedBehind(front, rest, index + 3);
      GroupBehind(front, rest, index);
    }
  }

  lemma GroupBehind(front: Bytes, rest: Bytes, index: nat)
    requires index < |rest|
    ensures Group(front + rest, |front| + index) == Group(rest, index)
  {
    hide Alphabet, Combined, Value;
  }
}
