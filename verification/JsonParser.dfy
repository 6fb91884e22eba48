/** JSON.parse, reading numbers exactly; and what it makes of canonical JSON. */
module JsonParser {
  import opened Results
  import opened Text
  import opened Ordering
  import opened JsonNumber
  import opened JsonString
  import opened CanonicalJson

  predicate IsSpace(u: Unit) {
    u == 0x20 || u == 9 || u == 10 || u == 13
  }

  function SkipSpace(s: Text): (r: Text)
    ensures |r| <= |s|
    ensures r == [] || !IsSpace(r[0])
  {
    if s != [] && IsSpace(s[0]) then SkipSpace(s[1..]) else s
  }

  predicate StartsWith(s: Text, c: char) {
    s != [] && s[0] == c as int
  }

  /** Assigning a property: an existing key keeps its place and takes the new value. */
  function Assign(members: seq<Member>, m: Member): seq<Member> {
    if members == [] then [m]
    else if members[0].key == m.key then [m] + members[1..]
    else [members[0]] + Assign(members[1..], m)
  }

  function Assigned(members: seq<Member>): seq<Member> {
    if members == [] then [] else Assign(Assigned(members[..|members| - 1]), members[|members| - 1])
  }

  /** A value of the JSON grammar (RFC 8259) at the start of s, and what follows it. */
  function ReadValue(s: Text): (r: Option<(Json, Text)>)
    ensures r.Some? ==> |r.value.1| < |s|
    decreases |s|, 0
  {
    var t := SkipSpace(s);
    if StartsWith(t, '"') then
      match ReadString(t[1..])
      case None => None
      case Some((text, rest)) => Some((Str(text), rest))
    else if StartsWith(t, '[') then
      if StartsWith(SkipSpace(t[1..]), ']') then Some((Arr([]), SkipSpace(t[1..])[1..]))
      else match ReadItems(t[1..])
        case None => None
        case Some((items, rest)) => Some((Arr(items), rest))
    else if StartsWith(t, '{') then
      if StartsWith(SkipSpace(t[1..]), '}') then Some((Obj([]), SkipSpace(t[1..])[1..]))
      else match ReadMembers(t[1..])
        case None => None
        case Some((members, rest)) => Some((Obj(Assigned(members)), rest))
    else if Lit("null") <= t then Some((Null, t[4..]))
    else if Lit("true") <= t then Some((Bool(true), t[4..]))
    else if Lit("false") <= t then Some((Bool(false), t[5..]))
    else match ReadNumber(t)
      case None => None
      case Some((n, rest)) => Some((Number(n), rest))
  }

  /** The items of an array up to its closing bracket. */
  function ReadItems(s: Text): (r: Option<(seq<Json>, Text)>)
    ensures r.Some? ==> |r.value.1| < |s|
    decreases |s|, 1
  {
    match ReadValue(s)
    case None => None
    case Some((v, rest)) =>
      var t := SkipSpace(rest);
      if StartsWith(t, ']') then Some(([v], t[1..]))
      else if !StartsWith(t, ',') then None
      else match ReadItems(t[1..])
        case None => None
        case Some((others, after)) => Some(([v] + others, after))
  }

  /** The members of an object up to its closing brace. */
  function ReadMembers(s: Text): (r: Option<(seq<Member>, Text)>)
    ensures r.Some? ==> |r.value.1| < |s|
    decreases |s|, 1
  {
    var k := SkipSpace(s);
    if !StartsWith(k, '"') then None
    else match ReadString(k[1..])
      case None => None
      case Some((key, rest)) =>
        var c := SkipSpace(rest);
        if !StartsWith(c, ':') then None
        else match ReadValue(c[1..])
          case None => None
          case Some((v, afterValue)) =>
            var t := SkipSpace(afterValue);
            if StartsWith(t, '}') then Some(([Member(key, v)], t[1..]))
            else if !StartsWith(t, ',') then None
            else match ReadMembers(t[1..])
              case None => None
              case Some((others, after)) => Some(([Member(key, v)] + others, after))
  }

  function Parse(s: Text): Option<Json> {
    match ReadValue(s)
    case None => None
    case Some((v, rest)) => if SkipSpace(rest) == [] then Some(v) else None
  }

  /* ---- Reading what the encoder prints ---- */

  predicate NoNegativeZero(v: Json) {
    match v
    case Number(n) => n.Finite? && n.magnitude.Zero? ==> !n.negative
    case Arr(items) => forall i :: 0 <= i < |items| ==> NoNegativeZero(items[i])
    case Obj(members) => forall i :: 0 <= i < |members| ==> NoNegativeZero(members[i].value)
    case _ => true
  }

  predicate IsCanonical(v: Json) {
    Encodable(v) && IsValue(v) && NoNegativeZero(v)
  }

  /** What may follow a value inside a text. */
  predicate EndsValue(rest: Text) {
    rest == [] || rest[0] == ',' as int || rest[0] == ']' as int || rest[0] == '}' as int
  }

  ghost predicate ReadsBack(v: Json)
    requires Encodable(v)
  {
    forall rest: Text :: EndsValue(rest) ==> ReadValue(Show(v) + rest) == Some((v, rest))
  }

  lemma NoSpace(s: Text)
    requires s == [] || !IsSpace(s[0])
    ensures SkipSpace(s) == s
  {
  }

  lemma WordsReadBack(v: Json)
    requires v.Null? || v.Bool?
    ensures ReadsBack(v)
  {
    hide ReadNumber, ReadString, ReadItems, ReadMembers;
    forall rest: Text | EndsValue(rest) ensures ReadValue(Show(v) + rest) == Some((v, rest)) {
      var s := Word(v) + rest;
      NoSpace(s);
      assert s[|Word(v)|..] == rest;
      assert s[0] == Word(v)[0];
      assert Word(v) <= s;
      if v == Bool(true) {
        assert s[0] != Lit("null")[0];
      } else if v == Bool(false) {
        assert s[0] != Lit("null")[0] && s[0] != Lit("true")[0];
      }
    }
  }

  lemma StrReadsBack(t: Text)
    ensures ReadsBack(Str(t))
  {
    hide ReadNumber, ReadString, QuoteUnits, ReadItems, ReadMembers;
    forall rest: Text | EndsValue(rest) ensures ReadValue(Show(Str(t)) + rest) == Some((Str(t), rest)) {
      var s := Quote(t) + rest;
      NoSpace(s);
      ReadStringBack(t, rest);
      assert s[1..] == QuoteUnits(t) + [QUOTE] + rest;
    }
  }

  lemma {:induction false} NumberStart(n: JsNumber)
    requires n.Finite?
    ensures NumberText(n) != [] && (NumberText(n)[0] == '-' as int || IsDigitUnit(NumberText(n)[0]))
  {
    hide ExponentText;
  }

  lemma NumberReadsBack(n: JsNumber)
    requires n.Finite? && (n.magnitude.Zero? ==> !n.negative)
    ensures ReadsBack(Number(n))
  {
    hide ReadNumber, ReadString, NumberText, ReadItems, ReadMembers;
    forall rest: Text | EndsValue(rest) ensures ReadValue(Show(Number(n)) + rest) == Some((Number(n), rest)) {
      var s := NumberText(n) + rest;
      NumberStart(n);
      assert s[0] == NumberText(n)[0];
      NoSpace(s);
      ReadNumberBack(n, rest);
      assert Lit("null")[0] != s[0] && Lit("true")[0] != s[0] && Lit("false")[0] != s[0];
    }
  }

  /** The first unit of a printed value is neither space nor a closing bracket. */
  lemma ShowStart(v: Json)
    requires Encodable(v)
    ensures Show(v) != [] && !IsSpace(Show(v)[0]) && Show(v)[0] != ']' as int && Show(v)[0] != '}' as int
  {
    hide Quote, NumberText;
    if v.Number? {
      NumberStart(v.n);
    } else if v.Str? {
      QuoteStart(v.t);
    }
  }

  lemma QuoteStart(t: Text)
    ensures Quote(t) != [] && Quote(t)[0] == QUOTE
  {
  }

  function Shows(items: seq<Json>): (texts: seq<Text>)
    requires forall i :: 0 <= i < |items| ==> Encodable(items[i])
    ensures |texts| == |items| && forall i :: 0 <= i < |items| ==> texts[i] == Show(items[i])
  {
    seq(|items|, i requires 0 <= i < |items| => Show(items[i]))
  }

  lemma OneItemBack(v: Json, c: Unit, rest: Text)
    requires Encodable(v) && ReadsBack(v) && (c == ',' as int || c == ']' as int || c == '}' as int)
    ensures ReadValue(Show(v) + ([c] + rest)) == Some((v, [c] + rest))
    ensures SkipSpace([c] + rest) == [c] + rest && ([c] + rest)[1..] == rest
  {
    hide ReadValue, Show;
    NoSpace([c] + rest);
    assert EndsValue([c] + rest);
  }

  lemma {:induction false} ItemsReadBack(items: seq<Json>, rest: Text)
    requires items != [] && forall i :: 0 <= i < |items| ==> Encodable(items[i]) && ReadsBack(items[i])
    ensures ReadItems(Joined(Shows(items)) + [']' as int] + rest) == Some((items, rest))
  {
    hide ReadValue, Show, ReadsBack, SkipSpace;
    var texts := Shows(items);
    var s := Joined(texts) + [']' as int] + rest;
    if |items| == 1 {
      OneItemBack(items[0], ']' as int, rest);
      assert s == Show(items[0]) + ([']' as int] + rest);
      assert items == [items[0]];
    } else {
      var others := Joined(Shows(items[1..])) + [']' as int] + rest;
      assert texts[1..] == Shows(items[1..]);
      OneItemBack(items[0], ',' as int, others);
      assert s == Show(items[0]) + ([',' as int] + others);
      ItemsReadBack(items[1..], rest);
      assert items == [items[0]] + items[1..];
    }
  }

  lemma ReadsBackIntro(v: Json)
    requires Encodable(v) && forall rest: Text :: EndsValue(rest) ==> ReadValue(Show(v) + rest) == Some((v, rest))
    ensures ReadsBack(v)
  {
  }

  lemma ArrReadsBack(items: seq<Json>, rest: Text)
    requires Encodable(Arr(items)) && forall i :: 0 <= i < |items| ==> ReadsBack(items[i])
    ensures ReadValue(Show(Arr(items)) + rest) == Some((Arr(items), rest))
  {
    hide Show, ReadsBack, ReadNumber, ReadString, ReadItems, ReadMembers, SkipSpace, Joined;
    ShowArr(items);
    var texts := Shows(items);
    assert texts == seq(|items|, i requires 0 <= i < |items| => Show(items[i]));
    var s := Show(Arr(items)) + rest;
    var inner := Joined(texts) + [']' as int] + rest;
    assert s == ['[' as int] + inner;
    NoSpace(s);
    assert s[1..] == inner;
    if items == [] {
      JoinedNone();
      assert inner == [']' as int] + rest;
      NoSpace(inner);
      assert inner[1..] == rest;
    } else {
      ShowStart(items[0]);
      JoinedStart(texts);
      NoSpace(inner);
      ItemsReadBack(items, rest);
    }
  }

  lemma JoinedNone()
    ensures Joined([]) == []
  {
  }

  lemma JoinedStart(texts: seq<Text>)
    requires texts != [] && texts[0] != []
    ensures Joined(texts) != [] && Joined(texts)[0] == texts[0][0]
  {
  }

  function MemberShows(members: seq<Member>): (texts: seq<Text>)
    requires forall i :: 0 <= i < |members| ==> Encodable(members[i].value)
    ensures |texts| == |members|
    ensures forall i :: 0 <= i < |members| ==> texts[i] == MemberText(members[i].key, Show(members[i].value))
  {
    seq(|members|, i requires 0 <= i < |members| => MemberText(members[i].key, Show(members[i].value)))
  }

  /** Reading a member's key, and the colon after it. */
  lemma KeyReadBack(key: Text, value: Text, after: Text)
    ensures var s := MemberText(key, value) + after;
            && SkipSpace(s) == s && StartsWith(s, '"')
            && ReadString(s[1..]) == Some((key, COLON + value + after))
            && SkipSpace(COLON + value + after) == COLON + value + after
            && (COLON + value + after)[1..] == value + after
  {
    hide ReadString, QuoteUnits;
    var s := MemberText(key, value) + after;
    NoSpace(s);
    ReadStringBack(key, COLON + value + after);
    assert s[1..] == QuoteUnits(key) + [QUOTE] + (COLON + value + after);
    NoSpace(COLON + value + after);
  }

  lemma {:induction false} MembersReadBack(members: seq<Member>, rest: Text)
    requires members != [] && forall i :: 0 <= i < |members| ==> Encodable(members[i].value) && ReadsBack(members[i].value)
    ensures ReadMembers(Joined(MemberShows(members)) + ['}' as int] + rest) == Some((members, rest))
  {
    hide ReadValue, ReadString, Show, ReadsBack, SkipSpace, MemberText, Encodable;
    var texts := MemberShows(members);
    var s := Joined(texts) + ['}' as int] + rest;
    var m := members[0];
    if |members| == 1 {
      OneItemBack(m.value, '}' as int, rest);
      assert s == MemberText(m.key, Show(m.value)) + (['}' as int] + rest);
      KeyReadBack(m.key, Show(m.value), ['}' as int] + rest);
      assert members == [m];
    } else {
      var others := Joined(MemberShows(members[1..])) + ['}' as int] + rest;
      assert texts[1..] == MemberShows(members[1..]);
      OneItemBack(m.value, ',' as int, others);
      assert s == MemberText(m.key, Show(m.value)) + ([',' as int] + others);
      KeyReadBack(m.key, Show(m.value), [',' as int] + others);
      MembersReadBack(members[1..], rest);
      assert members == [m] + members[1..];
    }
  }

  lemma {:induction false} AssignNew(members: seq<Member>, m: Member)
    requires forall i :: 0 <= i < |members| ==> members[i].key != m.key
    ensures Assign(members, m) == members + [m]
  {
    if members != [] {
      AssignNew(members[1..], m);
      assert members + [m] == [members[0]] + (members[1..] + [m]);
    }
  }

  lemma {:induction false} AssignedDistinct(members: seq<Member>)
    requires DistinctKeys(members)
    ensures Assigned(members) == members
  {
    if members != [] {
      var front, last := members[..|members| - 1], members[|members| - 1];
      AssignedDistinct(front);
      AssignNew(front, last);
      assert members == front + [last];
    }
  }

  lemma ObjReadsBack(members: seq<Member>, rest: Text)
    requires Encodable(Obj(members)) && DistinctKeys(members)
    requires forall i :: 0 <= i < |members| ==> ReadsBack(members[i].value)
    ensures ReadValue(Show(Obj(members)) + rest) == Some((Obj(members), rest))
  {
    hide Show, ReadsBack, ReadNumber, ReadString, ReadItems, ReadMembers, SkipSpace, Joined, MemberText, Assigned;
    ShowObj(members);
    var texts := MemberShows(members);
    assert texts == seq(|members|, i requires 0 <= i < |members| => MemberText(members[i].key, Show(members[i].value)));
    var s := Show(Obj(members)) + rest;
    var inner := Joined(texts) + ['}' as int] + rest;
    assert s == ['{' as int] + inner;
    NoSpace(s);
    assert s[1..] == inner;
    if members == [] {
      JoinedNone();
      assert inner == ['}' as int] + rest;
      NoSpace(inner);
      assert inner[1..] == rest;
    } else {
      MemberTextStart(members[0].key, Show(members[0].value));
      JoinedStart(texts);
      NoSpace(inner);
      MembersReadBack(members, rest);
      AssignedDistinct(members);
    }
  }

  lemma MemberTextStart(key: Text, value: Text)
    ensures MemberText(key, value) != [] && MemberText(key, value)[0] == QUOTE
  {
  }

  lemma {:induction false} CanonicalReadsBack(v: Json)
    requires IsCanonical(v)
    ensures ReadsBack(v)
  {
    hide ReadsBack, Show, ReadValue;
    match v
    case Null => WordsReadBack(v);
    case Bool(_) => WordsReadBack(v);
    case Str(t) => StrReadsBack(t);
    case Number(n) => NumberReadsBack(n);
    case Arr(items) =>
      forall i | 0 <= i < |items| ensures ReadsBack(items[i]) {
        CanonicalReadsBack(items[i]);
      }
      forall rest: Text | EndsValue(rest) ensures ReadValue(Show(v) + rest) == Some((v, rest)) {
        ArrReadsBack(items, rest);
      }
      ReadsBackIntro(v);
    case Obj(members) =>
      forall i | 0 <= i < |members| ensures ReadsBack(members[i].value) {
        CanonicalReadsBack(members[i].value);
      }
      forall rest: Text | EndsValue(rest) ensures ReadValue(Show(v) + rest) == Some((v, rest)) {
        ObjReadsBack(members, rest);
      }
      ReadsBackIntro(v);
  }

  lemma {:induction false} CanonIsCanonical(v: Json)
    requires Encodable(v) && IsValue(v)
    ensures IsCanonical(Canon(v))
  {
    hide Sort;
    CanonEncodable(v);
    match v
    case Arr(items) =>
      var c := CanonArr(items);
      forall i | 0 <= i < |items| ensures IsCanonical(c[i]) {
        CanonIsCanonical(items[i]);
      }
    case Obj(members) =>
      forall m | m in members ensures IsCanonical(Canon(m.value)) {
        CanonIsCanonical(m.value);
      }
      CanonObj(members);
      SortedCanonical(members);
    case _ =>
  }

  lemma SortedCanonical(members: seq<Member>)
    requires DistinctKeys(members) && forall m :: m in members ==> IsCanonical(Canon(m.value))
    ensures IsCanonical(Obj(CanonMembers(Sort(members, KeyAtMost))))
  {
    hide Canon, Sort, IsCanonical;
    var sorted := Sort(members, KeyAtMost);
    SortMembers(members, KeyAtMost);
    SortDistinct(members);
    var c := CanonMembers(sorted);
    forall i | 0 <= i < |c| ensures IsCanonical(c[i].value) {
      assert sorted[i] in members;
    }
    ObjCanonical(c);
  }

  lemma ObjCanonical(members: seq<Member>)
    requires DistinctKeys(members) && forall i :: 0 <= i < |members| ==> IsCanonical(members[i].value)
    ensures IsCanonical(Obj(members))
  {
  }

  /** Sorting keeps the keys distinct. */
  lemma SortDistinct(members: seq<Member>)
    requires DistinctKeys(members)
    ensures DistinctKeys(Sort(members, KeyAtMost))
  {
    hide Sort;
    SortPermutes(members, KeyAtMost);
    DistinctPermutes(members, Sort(members, KeyAtMost), (m: Member) => m.key);
  }
}
