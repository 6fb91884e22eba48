/** The canonical JSON encoder: sorted keys, no whitespace, no lossy values. */
module CanonicalJson {
  import opened Results
  import opened Text
  import opened Ordering
  import opened JsonNumber
  import opened JsonString

  /** A value handed to the encoder; members are in Object.keys order. */
  datatype Json =
    | Null
    | Bool(b: bool)
    | Number(n: JsNumber)
    | Str(t: Text)
    | Arr(items: seq<Json>)
    | Obj(members: seq<Member>)
    | Undefined

  datatype Member = Member(key: Text, value: Json)

  const NON_FINITE := "Canonical JSON rejects non-finite numbers"
  const UNDEFINED_MEMBER := "Canonical JSON rejects undefined at key"
  const NOT_AN_OBJECT := "Cannot convert undefined or null to object"

  const COMMA: Text := [',' as int]
  const COLON: Text := [':' as int]

  predicate KeyAtMost(a: Member, b: Member) {
    AtMost(a.key, b.key)
  }

  /** join(','). */
  function Joined(texts: seq<Text>): Text {
    if texts == [] then [] else if |texts| == 1 then texts[0] else texts[0] + COMMA + Joined(texts[1..])
  }

  /** All values, or the first error. */
  function Collect(results: seq<Result<Text>>): Result<seq<Text>> {
    if results == [] then Ok([])
    else if results[0].Err? then Err(results[0].code)
    else match Collect(results[1..])
      case Err(e) => Err(e)
      case Ok(others) => Ok([results[0].value] + others)
  }

  function Enclosed(open: char, texts: seq<Text>, close: char): Text
    requires open as int < 0x80 && close as int < 0x80
  {
    [open as int] + Joined(texts) + [close as int]
  }

  function Word(v: Json): Text
    requires v.Null? || v.Bool?
  {
    if v.Null? then Lit("null") else if v.b then Lit("true") else Lit("false")
  }

  function MemberText(key: Text, value: Text): Text {
    Quote(key) + COLON + value
  }

  /** The source's encode. */
  function Encode(v: Json): Result<Text> {
    match v
    case Null => Ok(Word(v))
    case Bool(_) => Ok(Word(v))
    case Str(t) => Ok(Quote(t))
    case Number(n) => if n.Finite? then Ok(NumberText(n)) else Err(NON_FINITE)
    case Arr(items) =>
      (match Collect(seq(|items|, i requires 0 <= i < |items| => Encode(items[i])))
       case Err(e) => Err(e)
       case Ok(texts) => Ok(Enclosed('[', texts, ']')))
    case Obj(members) =>
      var entries := Sort(members, KeyAtMost);
      SortMembers(members, KeyAtMost);
      (match Collect(seq(|entries|, i requires 0 <= i < |entries| =>
        assert entries[i] in members;
        if entries[i].value.Undefined? then Err(UNDEFINED_MEMBER)
        else match Encode(entries[i].value)
          case Err(e) => Err(e)
          case Ok(text) => Ok(MemberText(entries[i].key, text))))
       case Err(e) => Err(e)
       case Ok(texts) => Ok(Enclosed('{', texts, '}')))
    case Undefined => Err(NOT_AN_OBJECT)
  }

  /* ---- What a value means ---- */

  predicate DistinctKeys(members: seq<Member>) {
    forall i, j :: 0 <= i < j < |members| ==> members[i].key != members[j].key
  }

  /** An object holds each key once, at every depth. */
  predicate IsValue(v: Json) {
    match v
    case Arr(items) => forall i :: 0 <= i < |items| ==> IsValue(items[i])
    case Obj(members) => DistinctKeys(members) && forall i :: 0 <= i < |members| ==> IsValue(members[i].value)
    case _ => true
  }

  /** Only finite numbers, and nothing undefined. */
  predicate Encodable(v: Json) {
    match v
    case Number(n) => n.Finite?
    case Arr(items) => forall i :: 0 <= i < |items| ==> Encodable(items[i])
    case Obj(members) => forall i :: 0 <= i < |members| ==> Encodable(members[i].value)
    case Undefined => false
    case _ => true
  }

  /** The abstract value: objects are finite maps, and the two zeros are one number. */
  datatype Value =
    | VNull
    | VBool(b: bool)
    | VNumber(negative: bool, magnitude: Magnitude)
    | VText(t: Text)
    | VList(items: seq<Value>)
    | VRecord(fields: map<Text, Value>)

  function MapOf<T>(entries: seq<(Text, T)>): map<Text, T> {
    if entries == [] then map[]
    else MapOf(entries[..|entries| - 1])[entries[|entries| - 1].0 := entries[|entries| - 1].1]
  }

  function Denote(v: Json): Value
    requires Encodable(v)
  {
    match v
    case Null => VNull
    case Bool(b) => VBool(b)
    case Number(n) => VNumber(n.negative && !n.magnitude.Zero?, n.magnitude)
    case Str(t) => VText(t)
    case Arr(items) => VList(seq(|items|, i requires 0 <= i < |items| => Denote(items[i])))
    case Obj(members) =>
      VRecord(MapOf(seq(|members|, i requires 0 <= i < |members| => (members[i].key, Denote(members[i].value)))))
  }

  /* ---- The encoder prints a canonical form ---- */

  /** The value with every object's members in key order and -0 as 0. */
  function Canon(v: Json): Json {
    match v
    case Number(n) => if n.Finite? && n.magnitude.Zero? then Number(Finite(false, n.magnitude)) else v
    case Arr(items) => Arr(seq(|items|, i requires 0 <= i < |items| => Canon(items[i])))
    case Obj(members) =>
      Obj(Sort(seq(|members|, i requires 0 <= i < |members| => Member(members[i].key, Canon(members[i].value))), KeyAtMost))
    case _ => v
  }

  function CanonMember(m: Member): Member {
    Member(m.key, Canon(m.value))
  }

  function CanonMembers(members: seq<Member>): (r: seq<Member>)
    ensures |r| == |members| && forall i :: 0 <= i < |r| ==> r[i] == CanonMember(members[i])
  {
    seq(|members|, i requires 0 <= i < |members| => CanonMember(members[i]))
  }

  /** Prints members in the order they are in. */
  function Show(v: Json): Text
    requires Encodable(v)
  {
    match v
    case Null => Word(v)
    case Bool(_) => Word(v)
    case Number(n) => NumberText(n)
    case Str(t) => Quote(t)
    case Arr(items) => Enclosed('[', seq(|items|, i requires 0 <= i < |items| => Show(items[i])), ']')
    case Obj(members) =>
      Enclosed('{', seq(|members|, i requires 0 <= i < |members| => MemberText(members[i].key, Show(members[i].value))), '}')
  }

  lemma {:induction false} InsertCanon(m: Member, members: seq<Member>)
    ensures Insert(CanonMember(m), CanonMembers(members), KeyAtMost) == CanonMembers(Insert(m, members, KeyAtMost))
  {
    hide Canon, AtMost;
    if members == [] || KeyAtMost(m, members[0]) {
      assert [CanonMember(m)] + CanonMembers(members) == CanonMembers([m] + members);
    } else {
      InsertCanon(m, members[1..]);
      assert CanonMembers(members)[1..] == CanonMembers(members[1..]);
      var r := Insert(m, members[1..], KeyAtMost);
      assert [CanonMember(members[0])] + CanonMembers(r) == CanonMembers([members[0]] + r);
    }
  }

  /** Sorting looks at the keys only. */
  lemma {:induction false} SortCanon(members: seq<Member>)
    ensures Sort(CanonMembers(members), KeyAtMost) == CanonMembers(Sort(members, KeyAtMost))
  {
    hide Canon, AtMost;
    if members != [] {
      assert CanonMembers(members)[1..] == CanonMembers(members[1..]);
      SortCanon(members[1..]);
      InsertCanon(members[0], Sort(members[1..], KeyAtMost));
    }
  }

  lemma CanonObj(members: seq<Member>)
    ensures Canon(Obj(members)) == Obj(Sort(CanonMembers(members), KeyAtMost))
    ensures Canon(Obj(members)) == Obj(CanonMembers(Sort(members, KeyAtMost)))
  {
    hide Sort;
    SortCanon(members);
    assert CanonMembers(members)
        == seq(|members|, i requires 0 <= i < |members| => Member(members[i].key, Canon(members[i].value)));
  }

  lemma {:induction false} CollectOks(results: seq<Result<Text>>, texts: seq<Text>)
    requires |results| == |texts| && forall i :: 0 <= i < |texts| ==> results[i] == Ok(texts[i])
    ensures Collect(results) == Ok(texts)
  {
    if texts != [] {
      CollectOks(results[1..], texts[1..]);
      assert texts == [texts[0]] + texts[1..];
    }
  }

  lemma {:induction false} CollectErrs(results: seq<Result<Text>>, i: nat)
    requires i < |results| && results[i].Err?
    ensures Collect(results).Err?
  {
    if i > 0 {
      CollectErrs(results[1..], i - 1);
    }
  }

  lemma {:induction false} CanonEncodable(v: Json)
    ensures Encodable(Canon(v)) <==> Encodable(v)
  {
    hide Sort;
    match v
    case Arr(items) =>
      forall i | 0 <= i < |items| ensures Encodable(Canon(items[i])) <==> Encodable(items[i]) {
        CanonEncodable(items[i]);
      }
      var c := Canon(v).items;
      assert forall i :: 0 <= i < |items| ==> c[i] == Canon(items[i]);
    case Obj(members) =>
      CanonObj(members);
      var sorted := Sort(members, KeyAtMost);
      SortMembers(members, KeyAtMost);
      forall m | m in members ensures Encodable(Canon(m.value)) <==> Encodable(m.value) {
        CanonEncodable(m.value);
      }
      MembersEncodable(members, sorted);
    case _ =>
  }

  lemma MembersEncodable(members: seq<Member>, sorted: seq<Member>)
    requires forall m :: m in sorted <==> m in members
    requires forall m :: m in members ==> (Encodable(Canon(m.value)) <==> Encodable(m.value))
    ensures Encodable(Obj(CanonMembers(sorted))) <==> Encodable(Obj(members))
  {
    hide Canon;
    if Encodable(Obj(CanonMembers(sorted))) {
      forall i | 0 <= i < |members| ensures Encodable(members[i].value) {
        assert members[i] in sorted;
        var j :| 0 <= j < |sorted| && sorted[j] == members[i];
        assert Encodable(CanonMembers(sorted)[j].value);
      }
    }
    if Encodable(Obj(members)) {
      forall i | 0 <= i < |sorted| ensures Encodable(CanonMembers(sorted)[i].value) {
        assert sorted[i] in members;
        var j :| 0 <= j < |members| && members[j] == sorted[i];
        assert Encodable(members[j].value);
      }
    }
  }

  function EncodeMember(m: Member): Result<Text> {
    if m.value.Undefined? then Err(UNDEFINED_MEMBER)
    else match Encode(m.value)
      case Err(e) => Err(e)
      case Ok(text) => Ok(MemberText(m.key, text))
  }

  lemma EncodeObj(members: seq<Member>)
    ensures var sorted := Sort(members, KeyAtMost);
            Encode(Obj(members)) ==
              match Collect(seq(|sorted|, i requires 0 <= i < |sorted| => EncodeMember(sorted[i])))
              case Err(e) => Err(e)
              case Ok(texts) => Ok(Enclosed('{', texts, '}'))
  {
    hide Sort, Collect, Enclosed;
    var sorted := Sort(members, KeyAtMost);
    SortMembers(members, KeyAtMost);
    var direct := seq(|sorted|, i requires 0 <= i < |sorted| =>
      assert sorted[i] in members;
      if sorted[i].value.Undefined? then Err(UNDEFINED_MEMBER)
      else match Encode(sorted[i].value)
        case Err(e) => Err(e)
        case Ok(text) => Ok(MemberText(sorted[i].key, text)));
    assert direct == seq(|sorted|, i requires 0 <= i < |sorted| => EncodeMember(sorted[i]));
  }

  ghost predicate PrintsCanon(v: Json) {
    && (Encode(v).Ok? <==> Encodable(v))
    && (Encodable(v) ==> Encodable(Canon(v)) && Encode(v) == Ok(Show(Canon(v))))
  }

  lemma ItemsPrint(items: seq<Json>)
    requires forall i :: 0 <= i < |items| ==> PrintsCanon(items[i])
    ensures PrintsCanon(Arr(items))
  {
    hide Enclosed, Canon, Show, Encode, Collect;
    var v := Arr(items);
    var results := seq(|items|, i requires 0 <= i < |items| => Encode(items[i]));
    EncodeArr(items);
    CanonEncodable(v);
    if Encodable(v) {
      var c := CanonArr(items);
      ShowArr(c);
      CollectOks(results, seq(|c|, i requires 0 <= i < |c| => Show(c[i])));
    } else {
      var i :| 0 <= i < |items| && !Encodable(items[i]);
      CollectErrs(results, i);
    }
  }

  lemma EncodeArr(items: seq<Json>)
    ensures Encode(Arr(items)) ==
              match Collect(seq(|items|, i requires 0 <= i < |items| => Encode(items[i])))
              case Err(e) => Err(e)
              case Ok(texts) => Ok(Enclosed('[', texts, ']'))
  {
    hide Collect, Enclosed;
  }

  lemma CanonArr(items: seq<Json>) returns (c: seq<Json>)
    ensures Canon(Arr(items)) == Arr(c)
    ensures |c| == |items| && forall i :: 0 <= i < |c| ==> c[i] == Canon(items[i])
  {
    c := Canon(Arr(items)).items;
  }

  lemma ShowArr(items: seq<Json>)
    requires Encodable(Arr(items))
    ensures Show(Arr(items)) == Enclosed('[', seq(|items|, i requires 0 <= i < |items| => Show(items[i])), ']')
  {
    hide Enclosed;
  }

  lemma GoodMembersPrint(members: seq<Member>)
    requires Encodable(Obj(members)) && forall m :: m in members ==> PrintsCanon(m.value)
    ensures PrintsCanon(Obj(members))
  {
    hide Enclosed, Canon, Show, Encode, Collect, Sort, MemberText;
    var sorted := Sort(members, KeyAtMost);
    SortMembers(members, KeyAtMost);
    EncodeObj(members);
    CanonObj(members);
    CanonEncodable(Obj(members));
    var results := seq(|sorted|, i requires 0 <= i < |sorted| => EncodeMember(sorted[i]));
    var c := CanonMembers(sorted);
    ShowObj(c);
    forall i | 0 <= i < |sorted| ensures results[i] == Ok(MemberText(c[i].key, Show(c[i].value))) {
      assert sorted[i] in members;
    }
    CollectOks(results, seq(|c|, i requires 0 <= i < |c| => MemberText(c[i].key, Show(c[i].value))));
  }

  lemma BadMemberFails(members: seq<Member>, k: nat)
    requires k < |members| && !Encodable(members[k].value) && PrintsCanon(members[k].value)
    ensures Encode(Obj(members)).Err?
  {
    hide Enclosed, Canon, Show, Encode, Collect, Sort, MemberText;
    var sorted := Sort(members, KeyAtMost);
    SortMembers(members, KeyAtMost);
    EncodeObj(members);
    var results := seq(|sorted|, i requires 0 <= i < |sorted| => EncodeMember(sorted[i]));
    assert members[k] in members;
    var j :| 0 <= j < |sorted| && sorted[j] == members[k];
    CollectErrs(results, j);
  }

  lemma MembersPrint(members: seq<Member>)
    requires forall m :: m in members ==> PrintsCanon(m.value)
    ensures PrintsCanon(Obj(members))
  {
    hide Canon, Show, Encode;
    if Encodable(Obj(members)) {
      GoodMembersPrint(members);
    } else {
      var k :| 0 <= k < |members| && !Encodable(members[k].value);
      assert members[k] in members;
      BadMemberFails(members, k);
    }
  }

  lemma ShowObj(members: seq<Member>)
    requires Encodable(Obj(members))
    ensures Show(Obj(members))
         == Enclosed('{', seq(|members|, i requires 0 <= i < |members| => MemberText(members[i].key, Show(members[i].value))), '}')
  {
    hide Enclosed, MemberText;
  }

  /** The encoder succeeds on exactly the encodable values, and prints their canonical form. */
  lemma {:induction false} EncodePrintsCanon(v: Json)
    ensures Encode(v).Ok? <==> Encodable(v)
    ensures Encodable(v) ==> Encodable(Canon(v)) && Encode(v) == Ok(Show(Canon(v)))
  {
    hide Collect, Enclosed, Sort, Quote, Word;
    match v
    case Arr(items) =>
      forall i | 0 <= i < |items| ensures PrintsCanon(items[i]) {
        EncodePrintsCanon(items[i]);
      }
      ItemsPrint(items);
    case Obj(members) =>
      forall m | m in members ensures PrintsCanon(m.value) {
        EncodePrintsCanon(m.value);
      }
      MembersPrint(members);
    case _ =>
  }
}
