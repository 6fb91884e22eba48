/** JSON.stringify of strings, and the JSON grammar that reads them. */
module JsonString {
  import opened Results
  import opened Text

  const QUOTE: Unit := 0x22
  const BACKSLASH: Unit := 0x5c

  function HexUnit(d: nat): Unit
    requires d < 16
  {
    if d < 10 then '0' as int + d else 'a' as int + (d - 10)
  }

  function HexValue(u: Unit): Option<nat> {
    if '0' as int <= u <= '9' as int then Some(u - '0' as int)
    else if 'a' as int <= u <= 'f' as int then Some(u - 'a' as int + 10)
    else if 'A' as int <= u <= 'F' as int then Some(u - 'A' as int + 10)
    else None
  }

  /** \u and four lower-case hexadecimal digits. */
  function UnicodeEscape(u: Unit): (t: Text)
    ensures |t| == 6
  {
    [BACKSLASH, 'u' as int, HexUnit(u / 0x1000), HexUnit(u / 0x100 % 16), HexUnit(u / 0x10 % 16), HexUnit(u % 16)]
  }

  /** The two-character escapes: \b, \t, \n, \f, \r, \" and \\. */
  function ShortEscape(u: Unit): Option<Unit> {
    match u
    case 8 => Some('b' as int)
    case 9 => Some('t' as int)
    case 10 => Some('n' as int)
    case 12 => Some('f' as int)
    case 13 => Some('r' as int)
    case 0x22 => Some(QUOTE)
    case 0x5c => Some(BACKSLASH)
    case _ => None
  }

  /** A unit that is not half of a surrogate pair, quoted; a lone surrogate is escaped. */
  function QuoteUnit(u: Unit): Text {
    if ShortEscape(u).Some? then [BACKSLASH, ShortEscape(u).value]
    else if u < 0x20 || IsHigh(u) || IsLow(u) then UnicodeEscape(u)
    else [u]
  }

  predicate StartsWithPair(t: Text) {
    |t| >= 2 && IsHigh(t[0]) && IsLow(t[1])
  }

  function QuoteUnits(t: Text): Text {
    if t == [] then []
    else if StartsWithPair(t) then t[..2] + QuoteUnits(t[2..])
    else QuoteUnit(t[0]) + QuoteUnits(t[1..])
  }

  /** QuoteJSONString (section 25.5.2.3 of ECMA-262). */
  function Quote(t: Text): Text {
    [QUOTE] + QuoteUnits(t) + [QUOTE]
  }

  /* ---- Reading ---- */

  function ReadHex(s: Text): Option<Unit>
    requires |s| >= 4
  {
    match (HexValue(s[0]), HexValue(s[1]), HexValue(s[2]), HexValue(s[3]))
    case (Some(a), Some(b), Some(c), Some(d)) =>
      if a < 16 && b < 16 && c < 16 && d < 16 then Some(a * 0x1000 + b * 0x100 + c * 0x10 + d) else None
    case _ => None
  }

  function Unescape(u: Unit): Option<Unit> {
    if u == QUOTE || u == BACKSLASH || u == '/' as int then Some(u)
    else if u == 'b' as int then Some(8)
    else if u == 't' as int then Some(9)
    else if u == 'n' as int then Some(10)
    else if u == 'f' as int then Some(12)
    else if u == 'r' as int then Some(13)
    else None
  }

  /** One character of a string, and what follows it. */
  function ReadUnit(s: Text): (r: Option<(Unit, Text)>)
    requires s != [] && s[0] != QUOTE
    ensures r.Some? ==> |r.value.1| < |s|
  {
    if s[0] < 0x20 then None
    else if s[0] != BACKSLASH then Some((s[0], s[1..]))
    else if |s| < 2 then None
    else if s[1] == 'u' as int then
      if |s| < 6 then None
      else match ReadHex(s[2..])
        case None => None
        case Some(u) => Some((u, s[6..]))
    else match Unescape(s[1])
      case None => None
      case Some(u) => Some((u, s[2..]))
  }

  /** The rest of a string of the JSON grammar (section 7 of RFC 8259), after its opening quote. */
  function ReadString(s: Text): (r: Option<(Text, Text)>)
    ensures r.Some? ==> |r.value.1| < |s|
    decreases |s|
  {
    if s == [] then None
    else if s[0] == QUOTE then Some(([], s[1..]))
    else match ReadUnit(s)
      case None => None
      case Some((u, rest)) =>
        match ReadString(rest)
        case None => None
        case Some((t, after)) => Some(([u] + t, after))
  }

  /* ---- Reading what was written ---- */

  lemma HexBack(u: Unit)
    ensures ReadHex(UnicodeEscape(u)[2..]) == Some(u)
  {
    var a, b, c, d := u / 0x1000, u / 0x100 % 16, u / 0x10 % 16, u % 16;
    HexDigitBack(a);
    HexDigitBack(b);
    HexDigitBack(c);
    HexDigitBack(d);
    Nibbles(u);
  }

  lemma HexDigitBack(d: nat)
    requires d < 16
    ensures HexValue(HexUnit(d)) == Some(d)
  {
  }

  lemma Nibbles(u: Unit)
    ensures u / 0x1000 * 0x1000 + u / 0x100 % 16 * 0x100 + u / 0x10 % 16 * 0x10 + u % 16 == u
  {
    assert u / 0x100 == 16 * (u / 0x1000) + u / 0x100 % 16;
    assert u / 0x10 == 16 * (u / 0x100) + u / 0x10 % 16;
  }

  lemma UnescapeBack(u: Unit)
    requires ShortEscape(u).Some?
    ensures Unescape(ShortEscape(u).value) == Some(u) && ShortEscape(u).value != 'u' as int
  {
  }

  lemma ReadUnitBack(u: Unit, rest: Text)
    ensures var s := QuoteUnit(u) + rest; s[0] != QUOTE && ReadUnit(s) == Some((u, rest))
  {
    hide ReadHex;
    var s := QuoteUnit(u) + rest;
    if ShortEscape(u).Some? {
      UnescapeBack(u);
      assert s[2..] == rest;
    } else if u < 0x20 || IsHigh(u) || IsLow(u) {
      HexBack(u);
      assert s[2..][..4] == UnicodeEscape(u)[2..];
      ReadHexPrefix(UnicodeEscape(u)[2..], rest);
      assert s[2..] == UnicodeEscape(u)[2..] + rest;
      assert s[6..] == rest;
    } else {
      assert s[1..] == rest;
    }
  }

  lemma ReadHexPrefix(s: Text, rest: Text)
    requires |s| >= 4
    ensures ReadHex(s + rest) == ReadHex(s)
  {
  }

  /** A quoted string reads as that string. */
  lemma {:induction false} ReadStringBack(t: Text, rest: Text)
    ensures ReadString(QuoteUnits(t) + [QUOTE] + rest) == Some((t, rest))
  {
    hide QuoteUnit, ReadUnit;
    var s := QuoteUnits(t) + [QUOTE] + rest;
    if t == [] {
      assert s[1..] == rest;
    } else if StartsWithPair(t) {
      var tail := QuoteUnits(t[2..]) + [QUOTE] + rest;
      ReadStringBack(t[2..], rest);
      assert s == [t[0]] + ([t[1]] + tail);
      ReadPlain(t[0], [t[1]] + tail);
      ReadPlain(t[1], tail);
      assert t == [t[0]] + ([t[1]] + t[2..]);
    } else {
      var tail := QuoteUnits(t[1..]) + [QUOTE] + rest;
      ReadStringBack(t[1..], rest);
      assert s == QuoteUnit(t[0]) + tail;
      ReadUnitBack(t[0], tail);
      assert t == [t[0]] + t[1..];
    }
  }

  lemma ReadPlain(u: Unit, rest: Text)
    requires IsHigh(u) || IsLow(u)
    ensures u != QUOTE && ReadUnit([u] + rest) == Some((u, rest))
  {
    assert ([u] + rest)[1..] == rest;
  }

  /* ---- Quoted text can always be encoded as UTF-8 ---- */

  lemma QuoteUnitPlain(u: Unit)
    ensures WellFormed(QuoteUnit(u))
  {
    PlainWellFormed(QuoteUnit(u));
  }

  /** Whatever the string, its quotation has no lone surrogate. */
  lemma {:induction false} QuoteUnitsWellFormed(t: Text)
    ensures WellFormed(QuoteUnits(t))
  {
    hide QuoteUnit;
    if t == [] {
    } else if StartsWithPair(t) {
      QuoteUnitsWellFormed(t[2..]);
      assert t[..2][2..] == [];
      WellFormedConcat(t[..2], QuoteUnits(t[2..]));
    } else {
      QuoteUnitsWellFormed(t[1..]);
      QuoteUnitPlain(t[0]);
      WellFormedConcat(QuoteUnit(t[0]), QuoteUnits(t[1..]));
    }
  }

  lemma QuoteWellFormed(t: Text)
    ensures WellFormed(Quote(t))
  {
    QuoteUnitsWellFormed(t);
    PlainWellFormed([QUOTE]);
    WellFormedConcat([QUOTE], QuoteUnits(t));
    WellFormedConcat([QUOTE] + QuoteUnits(t), [QUOTE]);
  }
}
