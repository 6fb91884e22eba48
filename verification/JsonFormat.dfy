/** The exact text of canonical JSON: its punctuation, its order of keys, its escapes and its numbers. */
module JsonFormat {
  import opened Results
  import opened Text
  import opened Ordering
  import opened JsonNumber
  import opened JsonString
  import opened CanonicalJson
  import opened JsonParser
  import opened CanonicalJsonLaws

  /* ---- Keys ---- */

  /** The texts agree up to unit k, where the first is smaller, or ends and the second goes on. */
  predicate BeforeAt(a: Text, b: Text, k: int) {
    0 <= k <= |a| && k < |b| && a[..k] == b[..k] && (k == |a| || a[k] < b[k])
  }

  ghost predicate ComesBefore(a: Text, b: Text) {
    exists k :: BeforeAt(a, b, k)
  }

  lemma BeforeNext(a: Text, b: Text, k: int)
    requires k >= 0 && a != [] && b != [] && a[0] == b[0]
    ensures BeforeAt(a[1..], b[1..], k) <==> BeforeAt(a, b, k + 1)
  {
    if k + 1 <= |a| && k + 1 <= |b| {
      assert a[..k + 1] == [a[0]] + a[1..][..k] && b[..k + 1] == [b[0]] + b[1..][..k];
      assert a[1..][..k] == a[..k + 1][1..] && b[1..][..k] == b[..k + 1][1..];
    }
  }

  /** Not before at the very beginning means that the first units agree. */
  lemma BeforeLater(a: Text, b: Text, k: int)
    requires BeforeAt(a, b, k) && k > 0
    ensures a[0] == b[0]
  {
    assert a[..k][0] == b[..k][0];
  }

  lemma {:induction false} OrderIsBefore(a: Text, b: Text)
    ensures AtMost(a, b) && a != b <==> ComesBefore(a, b)
  {
    hide BeforeAt;
    if a != [] && b != [] && a[0] == b[0] {
      OrderIsBefore(a[1..], b[1..]);
      assert a == [a[0]] + a[1..] && b == [b[0]] + b[1..];
      if k :| BeforeAt(a[1..], b[1..], k) {
        BeforeStart(a[1..], b[1..], k);
        BeforeNext(a, b, k);
      }
      if k :| BeforeAt(a, b, k) {
        BeforePositive(a, b, k);
        BeforeNext(a, b, k - 1);
      }
    } else {
      FirstDecides(a, b);
    }
  }

  lemma BeforePositive(a: Text, b: Text, k: int)
    requires BeforeAt(a, b, k) && a != [] && b != [] && a[0] == b[0]
    ensures k > 0
  {
  }

  lemma BeforeStart(a: Text, b: Text, k: int)
    requires BeforeAt(a, b, k)
    ensures k >= 0
  {
  }

  lemma FirstDecides(a: Text, b: Text)
    requires a == [] || b == [] || a[0] != b[0]
    ensures AtMost(a, b) && a != b <==> ComesBefore(a, b)
  {
    if b != [] && (a == [] || a[0] < b[0]) {
      assert BeforeAt(a, b, 0);
    }
    forall k | BeforeAt(a, b, k) ensures k == 0 {
      if k > 0 {
        BeforeLater(a, b, k);
      }
    }
  }

  /** At every depth, the keys of an object ascend by code units. */
  ghost predicate Ascends(v: Json) {
    match v
    case Arr(items) => forall i :: 0 <= i < |items| ==> Ascends(items[i])
    case Obj(members) =>
      && (forall i, j :: 0 <= i < j < |members| ==> ComesBefore(members[i].key, members[j].key))
      && forall i :: 0 <= i < |members| ==> Ascends(members[i].value)
    case _ => true
  }

  lemma {:induction false} CanonAscends(v: Json)
    requires IsValue(v)
    ensures Ascends(Canon(v))
  {
    hide ComesBefore, Sort, AtMost;
    match v
    case Arr(items) =>
      var c := CanonArr(items);
      forall i | 0 <= i < |c| ensures Ascends(c[i]) {
        CanonAscends(items[i]);
      }
    case Obj(members) =>
      CanonObj(members);
      var sorted := Sort(members, KeyAtMost);
      SortMembers(members, KeyAtMost);
      SortDistinct(members);
      KeyOrder();
      SortSorts(members, KeyAtMost);
      forall i, j | 0 <= i < j < |sorted| ensures ComesBefore(sorted[i].key, sorted[j].key) {
        assert KeyAtMost(sorted[i], sorted[j]);
        OrderIsBefore(sorted[i].key, sorted[j].key);
      }
      forall i | 0 <= i < |sorted| ensures Ascends(Canon(sorted[i].value)) {
        assert sorted[i] in members;
        CanonAscends(sorted[i].value);
      }
    case _ =>
  }

  /** The text's value, read by the grammar, has its keys in ascending order at every depth. */
  lemma KeysAscend(v: Json)
    requires IsValue(v) && Encodable(v)
    ensures Encode(v).Ok? && Parse(Encode(v).value).Some? && Ascends(Parse(Encode(v).value).value)
  {
    hide Encode, Parse, Ascends, Canon;
    ParseEncoded(v);
    CanonAscends(v);
  }

  /* ---- Punctuation ---- */

  /** Texts with a comma between any two. */
  function WithCommas(texts: seq<Text>): Text {
    if texts == [] then [] else if |texts| == 1 then texts[0] else WithCommas(texts[..|texts| - 1]) + [0x2c] + texts[|texts| - 1]
  }

  lemma {:induction false} JoinedAppend(texts: seq<Text>, t: Text)
    requires texts != []
    ensures Joined(texts + [t]) == Joined(texts) + [0x2c] + t
  {
    if |texts| == 1 {
      assert (texts + [t])[1..] == [t];
    } else {
      assert (texts + [t])[1..] == texts[1..] + [t];
      JoinedAppend(texts[1..], t);
      assert texts[0] + COMMA + (Joined(texts[1..]) + [0x2c] + t) == (texts[0] + COMMA + Joined(texts[1..])) + [0x2c] + t;
    }
  }

  lemma {:induction false} JoinedIs(texts: seq<Text>)
    ensures Joined(texts) == WithCommas(texts)
  {
    if |texts| > 1 {
      var front, last := texts[..|texts| - 1], texts[|texts| - 1];
      JoinedIs(front);
      JoinedAppend(front, last);
      assert texts == front + [last];
    }
  }

  /** The encodings of all items; only called where each has one. */
  function ItemTexts(items: seq<Json>): (texts: seq<Text>)
    ensures |texts| == |items|
    ensures forall i :: 0 <= i < |items| && Encode(items[i]).Ok? ==> texts[i] == Encode(items[i]).value
  {
    seq(|items|, i requires 0 <= i < |items| => if Encode(items[i]).Ok? then Encode(items[i]).value else [])
  }

  /** Key, colon and value, without a space. */
  function MemberTexts(members: seq<Member>): (texts: seq<Text>)
    ensures |texts| == |members|
    ensures forall i :: 0 <= i < |members| && Encode(members[i].value).Ok? ==>
              texts[i] == Quote(members[i].key) + [0x3a] + Encode(members[i].value).value
  {
    seq(|members|, i requires 0 <= i < |members| =>
      if Encode(members[i].value).Ok? then Quote(members[i].key) + [0x3a] + Encode(members[i].value).value else [])
  }

  /** Literals, brackets, braces, commas and colons, and nothing between them. */
  lemma Punctuation(v: Json)
    requires Encodable(v)
    ensures Encode(v).Ok?
    ensures v.Null? ==> Encode(v).value == [0x6e, 0x75, 0x6c, 0x6c]
    ensures v.Bool? ==> Encode(v).value == if v.b then [0x74, 0x72, 0x75, 0x65] else [0x66, 0x61, 0x6c, 0x73, 0x65]
    ensures v.Arr? ==> Encode(v).value == [0x5b] + WithCommas(ItemTexts(v.items)) + [0x5d]
    ensures v.Obj? && (forall i, j :: 0 <= i < j < |v.members| ==> ComesBefore(v.members[i].key, v.members[j].key)) ==>
              Encode(v).value == [0x7b] + WithCommas(MemberTexts(v.members)) + [0x7d]
  {
    EncodePrintsCanon(v);
    match v
    case Arr(items) => ArrayText(items);
    case Obj(members) =>
      if forall i, j :: 0 <= i < j < |members| ==> ComesBefore(members[i].key, members[j].key) {
        ObjectText(members);
      }
    case _ => Words();
  }

  lemma Words()
    ensures Lit("null") == [0x6e, 0x75, 0x6c, 0x6c] && Lit("true") == [0x74, 0x72, 0x75, 0x65] && Lit("false") == [0x66, 0x61, 0x6c, 0x73, 0x65]
  {
  }

  lemma ArrayText(items: seq<Json>)
    requires Encodable(Arr(items))
    ensures Encode(Arr(items)) == Ok([0x5b] + WithCommas(ItemTexts(items)) + [0x5d])
  {
    hide Encode, Collect, WithCommas;
    EncodeArr(items);
    var results := seq(|items|, i requires 0 <= i < |items| => Encode(items[i]));
    forall i | 0 <= i < |items| ensures results[i] == Ok(ItemTexts(items)[i]) {
      EncodePrintsCanon(items[i]);
    }
    CollectOks(results, ItemTexts(items));
    JoinedIs(ItemTexts(items));
  }

  lemma ObjectText(members: seq<Member>)
    requires Encodable(Obj(members))
    requires forall i, j :: 0 <= i < j < |members| ==> ComesBefore(members[i].key, members[j].key)
    ensures Encode(Obj(members)) == Ok([0x7b] + WithCommas(MemberTexts(members)) + [0x7d])
  {
    hide Encode, Collect, WithCommas, Sort, Quote, ComesBefore, AtMost;
    EncodeObj(members);
    forall i, j | 0 <= i < j < |members| ensures KeyAtMost(members[i], members[j]) {
      OrderIsBefore(members[i].key, members[j].key);
    }
    KeyOrder();
    SortedStays(members);
    var results := seq(|members|, i requires 0 <= i < |members| => EncodeMember(members[i]));
    forall i | 0 <= i < |members| ensures results[i] == Ok(MemberTexts(members)[i]) {
      EncodePrintsCanon(members[i].value);
    }
    CollectOks(results, MemberTexts(members));
    JoinedIs(MemberTexts(members));
  }

  lemma {:induction false} SortedStays(members: seq<Member>)
    requires forall i, j :: 0 <= i < j < |members| ==> KeyAtMost(members[i], members[j])
    ensures Sort(members, KeyAtMost) == members
  {
    hide KeyAtMost;
    if members != [] {
      SortedStays(members[1..]);
      assert members == [members[0]] + members[1..];
    }
  }

  /* ---- Strings ---- */

  /** One digit of \u notation: 0 to 9 and a to f. */
  function HexDigit(d: nat): Unit
    requires d < 16
  {
    if d < 10 then 0x30 + d else 0x61 + (d - 10)
  }

  /** How a unit that is no half of a pair appears between the quotes (section 25.5.2.3 of ECMA-262). */
  function UnitText(u: Unit): Text {
    if u == 0x08 then [0x5c, 0x62] else if u == 0x09 then [0x5c, 0x74] else if u == 0x0a then [0x5c, 0x6e]
    else if u == 0x0c then [0x5c, 0x66] else if u == 0x0d then [0x5c, 0x72]
    else if u == 0x22 then [0x5c, 0x22] else if u == 0x5c then [0x5c, 0x5c]
    else if u < 0x20 || 0xd800 <= u <= 0xdfff then
      [0x5c, 0x75, HexDigit(u / 4096), HexDigit(u / 256 % 16), HexDigit(u / 16 % 16), HexDigit(u % 16)]
    else [u]
  }

  predicate IsPair(t: Text) {
    |t| >= 2 && 0xd800 <= t[0] <= 0xdbff && 0xdc00 <= t[1] <= 0xdfff
  }

  /** A string is quoted character by character: a surrogate pair stands for itself. */
  lemma StringText(t: Text)
    ensures Encode(Str(t)) == Ok([0x22] + QuoteUnits(t) + [0x22])
    ensures QuoteUnits([]) == []
    ensures t != [] ==> QuoteUnits(t) == if IsPair(t) then t[..2] + QuoteUnits(t[2..]) else UnitText(t[0]) + QuoteUnits(t[1..])
  {
    if t != [] && !IsPair(t) {
      UnitIs(t[0]);
    }
  }

  lemma UnitIs(u: Unit)
    ensures QuoteUnit(u) == UnitText(u)
  {
  }

  /* ---- Numbers ---- */

  const POINT: Unit := 0x2e
  const LETTER_E: Unit := 0x65

  predicate IsPlainDigit(u: Unit) {
    0x30 <= u <= 0x39
  }

  predicate AllDigits(t: Text) {
    forall i :: 0 <= i < |t| ==> IsPlainDigit(t[i])
  }

  /** Digits without a leading zero, or the single digit zero. */
  predicate IsWhole(t: Text) {
    t != [] && AllDigits(t) && (t[0] != 0x30 || |t| == 1)
  }

  /** Digits that do not end in zero. */
  predicate IsFraction(t: Text) {
    t != [] && AllDigits(t) && t[|t| - 1] != 0x30
  }

  /** A decimal fraction or whole number without exponent. */
  predicate IsPlainNumber(t: Text) {
    IsWhole(t) || exists k :: 0 <= k < |t| && t[k] == POINT && IsWhole(t[..k]) && IsFraction(t[k + 1..])
  }

  /** One digit that is not zero, perhaps a fraction, and an exponent with its sign and without leading zeros. */
  predicate IsScientific(t: Text) {
    exists k :: 0 < k < |t| - 2 && t[k] == LETTER_E && (t[k + 1] == 0x2b || t[k + 1] == 0x2d) && IsWhole(t[k + 2..])
      && IsPlainDigit(t[0]) && t[0] != 0x30 && (k == 1 || (t[1] == POINT && IsFraction(t[2..k])))
  }

  /** A number of this size is written with an exponent: 10^21 or more, or less than 10^-6. */
  predicate NeedsExponent(m: Magnitude) {
    m.Decimal? && (m.point > 21 || m.point <= -6)
  }

  /** The text of a magnitude: plain from 10^-6 up to 10^21, scientific outside, nowhere a superfluous zero. */
  lemma MagnitudeShape(m: Magnitude)
    ensures if NeedsExponent(m) then IsScientific(MagnitudeText(m)) else IsPlainNumber(MagnitudeText(m))
  {
    if m.Decimal? {
      var k, n := |m.digits|, m.point;
      if k <= n <= 21 {
        WholeShape(m);
      } else if 0 < n <= 21 {
        PointShape(m);
      } else if -6 < n <= 0 {
        SmallShape(m);
      } else {
        ScientificShape(m);
      }
    }
  }

  lemma DigitsShape(digits: seq<Digit>)
    ensures AllDigits(DigitUnits(digits))
    ensures digits != [] ==> (DigitUnits(digits)[0] == 0x30 <==> digits[0] == 0)
    ensures digits != [] ==> (DigitUnits(digits)[|digits| - 1] == 0x30 <==> digits[|digits| - 1] == 0)
  {
  }

  lemma WholeShape(m: Magnitude)
    requires m.Decimal? && |m.digits| <= m.point <= 21
    ensures IsPlainNumber(MagnitudeText(m))
  {
    DigitsShape(m.digits + Zeros(m.point - |m.digits|));
  }

  lemma PointShape(m: Magnitude)
    requires m.Decimal? && 0 < m.point <= 21 && m.point < |m.digits|
    ensures IsPlainNumber(MagnitudeText(m))
  {
    var n, text := m.point, MagnitudeText(m);
    DigitsShape(m.digits[..n]);
    DigitsShape(m.digits[n..]);
    assert text[..n] == DigitUnits(m.digits[..n]) && text[n] == POINT && text[n + 1..] == DigitUnits(m.digits[n..]);
  }

  lemma PointParts(whole: Text, fraction: Text)
    requires IsWhole(whole) && IsFraction(fraction)
    ensures IsPlainNumber(whole + [POINT] + fraction)
  {
    hide IsWhole, IsFraction;
    var t, k := whole + [POINT] + fraction, |whole|;
    assert t[k] == POINT && t[..k] == whole && t[k + 1..] == fraction;
  }

  lemma SmallShape(m: Magnitude)
    requires m.Decimal? && -6 < m.point <= 0
    ensures IsPlainNumber(MagnitudeText(m))
  {
    hide IsPlainNumber, DigitUnits;
    DigitsShape(Zeros(-m.point) + m.digits);
    PointParts([0x30], DigitUnits(Zeros(-m.point) + m.digits));
    assert [0x30] + [POINT] == [0x30, POINT];
  }

  lemma {:induction false} NatDigitsShape(n: nat)
    ensures NatDigits(n)[0] != 0 || |NatDigits(n)| == 1
    ensures n > 0 ==> NatDigits(n)[0] != 0
  {
    if n >= 10 {
      NatDigitsShape(n / 10);
    }
  }

  /** Mantissa, e, sign and exponent. */
  lemma ScientificParts(head: Text, sign: Unit, exponent: Text)
    requires head != [] && (sign == 0x2b || sign == 0x2d) && IsWhole(exponent)
    requires IsPlainDigit(head[0]) && head[0] != 0x30 && (|head| == 1 || (head[1] == POINT && IsFraction(head[2..])))
    ensures IsScientific(head + [LETTER_E] + ([sign] + exponent))
  {
    hide IsWhole, IsFraction;
    WholeNotEmpty(exponent);
    var t, k := head + [LETTER_E] + ([sign] + exponent), |head|;
    assert t[k] == LETTER_E && t[k + 1] == sign && t[k + 2..] == exponent && t[0] == head[0];
    if k > 1 {
      FractionNotEmpty(head[2..]);
      assert t[2..k] == head[2..] && t[1] == head[1];
    }
  }

  lemma WholeNotEmpty(t: Text)
    requires IsWhole(t)
    ensures t != []
  {
  }

  lemma FractionNotEmpty(t: Text)
    requires IsFraction(t)
    ensures t != []
  {
  }

  lemma ScientificText(m: Magnitude)
    requires m.Decimal? && (m.point > 21 || m.point <= -6)
    ensures MagnitudeText(m) ==
              (if |m.digits| == 1 then DigitUnits(m.digits) else DigitUnits(m.digits[..1]) + [POINT] + DigitUnits(m.digits[1..]))
              + [LETTER_E] + ExponentText(m.point - 1)
  {
    hide ExponentText, DigitUnits;
  }

  lemma ExponentShape(e: int) returns (sign: Unit, exponent: Text)
    ensures ExponentText(e) == [sign] + exponent && (sign == 0x2b || sign == 0x2d) && IsWhole(exponent)
  {
    hide NatDigits;
    var size: nat := if e < 0 then -e else e;
    sign, exponent := if e < 0 then 0x2d else 0x2b, DigitUnits(NatDigits(size));
    NatDigitsShape(size);
    DigitsShape(NatDigits(size));
  }

  lemma ScientificShape(m: Magnitude)
    requires m.Decimal? && (m.point > 21 || m.point <= -6)
    ensures IsScientific(MagnitudeText(m))
  {
    hide IsScientific, MagnitudeText, ExponentText, IsWhole;
    ScientificText(m);
    var sign, exponent := ExponentShape(m.point - 1);
    DigitsShape(m.digits);
    if |m.digits| == 1 {
      ScientificParts(DigitUnits(m.digits), sign, exponent);
    } else {
      DigitsShape(m.digits[1..]);
      var head := DigitUnits(m.digits[..1]) + [POINT] + DigitUnits(m.digits[1..]);
      assert head[2..] == DigitUnits(m.digits[1..]);
      ScientificParts(head, sign, exponent);
    }
  }

  /** A finite number: a minus sign only before negative numbers that are not zero, and then its magnitude. */
  lemma NumberShape(n: JsNumber)
    requires n.Finite?
    ensures var text := NumberText(n);
            var minus := n.negative && n.magnitude.Decimal?;
            && (minus ==> text != [] && text[0] == 0x2d)
            && (var t := if minus then text[1..] else text;
                if NeedsExponent(n.magnitude) then IsScientific(t) else IsPlainNumber(t))
  {
    hide MagnitudeText, IsScientific, IsPlainNumber;
    MagnitudeShape(n.magnitude);
    assert n.negative && n.magnitude.Decimal? ==> NumberText(n)[1..] == MagnitudeText(n.magnitude);
    assert [] + MagnitudeText(n.magnitude) == MagnitudeText(n.magnitude);
  }
}
