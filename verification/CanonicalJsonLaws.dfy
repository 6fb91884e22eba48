/** What the hashes of the system rely on: canonical JSON is injective and ignores key order. */
module CanonicalJsonLaws {
  import opened Results
  import opened Text
  import opened Ordering
  import opened JsonNumber
  import opened JsonString
  import opened CanonicalJson
  import opened JsonParser

  /** Parsing a value's encoding returns the value with its keys sorted and -0 read as 0. */
  lemma ParseEncoded(v: Json)
    requires IsValue(v) && Encodable(v)
    ensures Encode(v).Ok? && Parse(Encode(v).value) == Some(Canon(v))
  {
    hide Encode, Show, Canon, ReadValue, IsCanonical;
    EncodePrintsCanon(v);
    CanonIsCanonical(v);
    var c := Canon(v);
    CanonicalReadsBack(c);
    assert EndsValue([]);
    assert Show(c) + [] == Show(c);
    NoSpace([]);
  }

  /* ---- Maps from members ---- */

  ghost predicate DistinctFirsts<T>(entries: seq<(Text, T)>) {
    forall i, j :: 0 <= i < j < |entries| ==> entries[i].0 != entries[j].0
  }

  lemma {:induction false} MapOfKeys<T>(entries: seq<(Text, T)>, k: Text)
    ensures k in MapOf(entries) <==> exists i :: 0 <= i < |entries| && entries[i].0 == k
  {
    if entries != [] {
      MapOfKeys(entries[..|entries| - 1], k);
      if k in MapOf(entries[..|entries| - 1]) {
        var i :| 0 <= i < |entries| - 1 && entries[..|entries| - 1][i].0 == k;
        assert entries[i].0 == k;
      }
      if i :| 0 <= i < |entries| - 1 && entries[i].0 == k {
        assert entries[..|entries| - 1][i].0 == k;
      }
    }
  }

  lemma {:induction false} MapOfValue<T>(entries: seq<(Text, T)>, i: nat)
    requires DistinctFirsts(entries) && i < |entries|
    ensures entries[i].0 in MapOf(entries) && MapOf(entries)[entries[i].0] == entries[i].1
  {
    if i < |entries| - 1 {
      MapOfValue(entries[..|entries| - 1], i);
    }
  }

  /** With distinct keys, the map depends on the set of entries only. */
  lemma MapOfSame<T>(a: seq<(Text, T)>, b: seq<(Text, T)>)
    requires DistinctFirsts(a) && DistinctFirsts(b) && forall e :: e in a <==> e in b
    ensures MapOf(a) == MapOf(b)
  {
    MapOfInto(a, b);
    MapOfInto(b, a);
    assert MapOf(a).Keys == MapOf(b).Keys;
  }

  lemma MapOfInto<T>(a: seq<(Text, T)>, b: seq<(Text, T)>)
    requires DistinctFirsts(a) && DistinctFirsts(b) && forall e :: e in a ==> e in b
    ensures forall k :: k in MapOf(a) ==> k in MapOf(b) && MapOf(b)[k] == MapOf(a)[k]
  {
    forall k | k in MapOf(a) ensures k in MapOf(b) && MapOf(b)[k] == MapOf(a)[k] {
      MapOfKeys(a, k);
      var i :| 0 <= i < |a| && a[i].0 == k;
      MapOfValue(a, i);
      assert a[i] in b;
      var j :| 0 <= j < |b| && b[j] == a[i];
      MapOfValue(b, j);
    }
  }

  /** Equal maps come from the same entries. */
  lemma MapOfEntries<T>(a: seq<(Text, T)>, b: seq<(Text, T)>, i: nat)
    requires DistinctFirsts(a) && DistinctFirsts(b) && MapOf(a) == MapOf(b) && i < |a|
    ensures a[i] in b
  {
    MapOfValue(a, i);
    MapOfKeys(b, a[i].0);
    var j :| 0 <= j < |b| && b[j].0 == a[i].0;
    MapOfValue(b, j);
    assert b[j] == a[i];
  }

  function Entries(members: seq<Member>): (entries: seq<(Text, Value)>)
    requires forall i :: 0 <= i < |members| ==> Encodable(members[i].value)
    ensures |entries| == |members|
    ensures forall i :: 0 <= i < |entries| ==> entries[i] == (members[i].key, Denote(members[i].value))
  {
    seq(|members|, i requires 0 <= i < |members| => (members[i].key, Denote(members[i].value)))
  }

  lemma DenoteObj(members: seq<Member>)
    requires Encodable(Obj(members))
    ensures Denote(Obj(members)) == VRecord(MapOf(Entries(members)))
  {
    hide MapOf;
    assert Entries(members) == seq(|members|, i requires 0 <= i < |members| => (members[i].key, Denote(members[i].value)));
  }

  /* ---- Canonical forms and meanings ---- */

  /** Sorting and printing lose nothing of the value's meaning. */
  lemma {:induction false} CanonKeepsMeaning(v: Json)
    requires IsValue(v) && Encodable(v)
    ensures Encodable(Canon(v)) && Denote(Canon(v)) == Denote(v)
  {
    hide Sort;
    CanonEncodable(v);
    match v
    case Arr(items) =>
      var c := CanonArr(items);
      forall i | 0 <= i < |items| ensures Encodable(c[i]) && Denote(c[i]) == Denote(items[i]) {
        CanonKeepsMeaning(items[i]);
      }
    case Obj(members) =>
      forall m | m in members ensures Encodable(Canon(m.value)) && Denote(Canon(m.value)) == Denote(m.value) {
        CanonKeepsMeaning(m.value);
      }
      CanonObj(members);
      MembersKeepMeaning(members);
    case _ =>
  }

  lemma MembersKeepMeaning(members: seq<Member>)
    requires DistinctKeys(members) && Encodable(Obj(members))
    requires Encodable(Obj(CanonMembers(Sort(members, KeyAtMost))))
    requires forall m :: m in members ==> Encodable(Canon(m.value)) && Denote(Canon(m.value)) == Denote(m.value)
    ensures Denote(Obj(CanonMembers(Sort(members, KeyAtMost)))) == Denote(Obj(members))
  {
    hide Sort, Denote, Canon, MapOf;
    var sorted := Sort(members, KeyAtMost);
    var c := CanonMembers(sorted);
    SortMembers(members, KeyAtMost);
    SortDistinct(members);
    DenoteObj(members);
    DenoteObj(c);
    var a, b := Entries(c), Entries(members);
    forall i | 0 <= i < |sorted| ensures a[i] in b && a[i].0 == sorted[i].key {
      assert sorted[i] in members;
      var j :| 0 <= j < |members| && members[j] == sorted[i];
      assert b[j] == a[i];
    }
    forall j | 0 <= j < |members| ensures b[j] in a {
      assert members[j] in sorted;
      var i :| 0 <= i < |sorted| && sorted[i] == members[j];
      assert b[j] == a[i];
    }
    MapOfSame(a, b);
  }

  lemma KeyOrder()
    ensures Comparator(KeyAtMost)
  {
    hide AtMost;
    forall a: Member, b: Member ensures KeyAtMost(a, b) || KeyAtMost(b, a) {
      AtMostTotal(a.key, b.key);
    }
    forall a: Member, b: Member, c: Member | KeyAtMost(a, b) && KeyAtMost(b, c) ensures KeyAtMost(a, c) {
      AtMostTransitive(a.key, b.key, c.key);
    }
  }

  lemma KeysSeparate(members: seq<Member>)
    requires DistinctKeys(members)
    ensures Separates(KeyAtMost, members)
  {
    hide AtMost;
    forall a, b | a in members && b in members && KeyAtMost(a, b) && KeyAtMost(b, a) ensures a == b {
      AtMostAntisymmetric(a.key, b.key);
    }
  }

  lemma {:induction false} DistinctMultiset(members: seq<Member>, m: Member)
    requires DistinctKeys(members)
    ensures multiset(members)[m] == if m in members then 1 else 0
  {
    if m in members {
      var k :| 0 <= k < |members| && members[k] == m;
      OnceInside(members, k, (n: Member) => n.key);
    } else {
      assert m !in multiset(members);
    }
  }

  lemma SortSame(a: seq<Member>, b: seq<Member>)
    requires DistinctKeys(a) && DistinctKeys(b) && forall m :: m in a <==> m in b
    ensures Sort(a, KeyAtMost) == Sort(b, KeyAtMost)
  {
    hide Sort, KeyAtMost;
    forall m ensures multiset(a)[m] == multiset(b)[m] {
      DistinctMultiset(a, m);
      DistinctMultiset(b, m);
    }
    assert multiset(a) == multiset(b);
    KeyOrder();
    KeysSeparate(a);
    SortForgetsOrder(a, b, KeyAtMost);
  }

  /** Values with the same meaning have the same canonical form. */
  lemma {:induction false} MeaningFixesCanon(v: Json, w: Json)
    requires IsValue(v) && Encodable(v) && IsValue(w) && Encodable(w)
    requires Denote(v) == Denote(w)
    ensures Canon(v) == Canon(w)
  {
    hide Sort, MapOf;
    match v
    case Arr(items) =>
      assert Denote(v).items == Denote(w).items;
      forall i | 0 <= i < |items| ensures Canon(items[i]) == Canon(w.items[i]) {
        assert Denote(v).items[i] == Denote(w).items[i];
        MeaningFixesCanon(items[i], w.items[i]);
      }
    case Obj(members) =>
      forall m, n | m in members && n in w.members && Denote(m.value) == Denote(n.value) ensures Canon(m.value) == Canon(n.value) {
        MeaningFixesCanon(m.value, n.value);
      }
      MembersFixCanon(members, w.members);
    case _ =>
  }

  lemma MembersFixCanon(a: seq<Member>, b: seq<Member>)
    requires DistinctKeys(a) && DistinctKeys(b) && Encodable(Obj(a)) && Encodable(Obj(b))
    requires Denote(Obj(a)) == Denote(Obj(b))
    requires forall m, n :: m in a && n in b && Denote(m.value) == Denote(n.value) ==> Canon(m.value) == Canon(n.value)
    ensures Canon(Obj(a)) == Canon(Obj(b))
  {
    hide Sort, Canon, Denote, MapOf;
    DenoteObj(a);
    DenoteObj(b);
    CanonObj(a);
    CanonObj(b);
    MembersInto(a, b);
    MembersInto(b, a);
    SortSame(CanonMembers(a), CanonMembers(b));
  }

  lemma MembersInto(a: seq<Member>, b: seq<Member>)
    requires DistinctKeys(a) && DistinctKeys(b) && Encodable(Obj(a)) && Encodable(Obj(b))
    requires MapOf(Entries(a)) == MapOf(Entries(b))
    requires forall m, n :: m in a && n in b && Denote(m.value) == Denote(n.value) ==> Canon(m.value) == Canon(n.value)
    ensures forall c :: c in CanonMembers(a) ==> c in CanonMembers(b)
  {
    hide Sort, Canon, Denote, MapOf;
    forall c | c in CanonMembers(a) ensures c in CanonMembers(b) {
      var i :| 0 <= i < |a| && CanonMembers(a)[i] == c;
      MapOfEntries(Entries(a), Entries(b), i);
      var j :| 0 <= j < |b| && Entries(b)[j] == Entries(a)[i];
      assert a[i] in a && b[j] in b;
      assert CanonMembers(b)[j] == c;
    }
  }

  /* ---- The laws ---- */

  /** Two values have the same encoding exactly when they have the same meaning. */
  lemma EncodingIsMeaning(v: Json, w: Json)
    requires IsValue(v) && Encodable(v) && IsValue(w) && Encodable(w)
    ensures Encode(v) == Encode(w) <==> Denote(v) == Denote(w)
  {
    hide Encode, Denote, Canon, Parse, Show;
    EncodePrintsCanon(v);
    EncodePrintsCanon(w);
    ParseEncoded(v);
    ParseEncoded(w);
    CanonKeepsMeaning(v);
    CanonKeepsMeaning(w);
    if Denote(v) == Denote(w) {
      MeaningFixesCanon(v, w);
    }
  }

  /** Inserting an object's keys in another order changes nothing. */
  lemma KeyOrderForgotten(a: seq<Member>, b: seq<Member>)
    requires multiset(a) == multiset(b) && IsValue(Obj(a)) && Encodable(Obj(a))
    ensures IsValue(Obj(b)) && Encodable(Obj(b))
    ensures Denote(Obj(a)) == Denote(Obj(b)) && Encode(Obj(a)) == Encode(Obj(b))
  {
    hide Denote, Encode, MapOf;
    SameMembers(a, b);
    DistinctPermutes(a, b, (m: Member) => m.key);
    forall i | 0 <= i < |b| ensures IsValue(b[i].value) && Encodable(b[i].value) {
      assert b[i] in a;
    }
    DenoteObj(a);
    DenoteObj(b);
    EntriesInto(a, b);
    EntriesInto(b, a);
    MapOfSame(Entries(a), Entries(b));
    EncodingIsMeaning(Obj(a), Obj(b));
  }

  lemma EntriesInto(a: seq<Member>, b: seq<Member>)
    requires Encodable(Obj(a)) && Encodable(Obj(b)) && forall m :: m in a ==> m in b
    ensures forall e :: e in Entries(a) ==> e in Entries(b)
  {
    hide Denote;
    forall e | e in Entries(a) ensures e in Entries(b) {
      var i :| 0 <= i < |a| && Entries(a)[i] == e;
      assert a[i] in b;
      var j :| 0 <= j < |b| && b[j] == a[i];
      assert Entries(b)[j] == e;
    }
  }

  /* ---- Reordering at every depth ---- */

  predicate SameNumber(a: JsNumber, b: JsNumber) {
    a == b || (a.Finite? && b.Finite? && a.magnitude.Zero? && b.magnitude.Zero?)
  }

  /** The same value but for the order of members in its objects, at any depth, and the sign of its zeros. */
  ghost predicate Reordered(v: Json, w: Json) {
    match v
    case Number(n) => w.Number? && SameNumber(n, w.n)
    case Arr(items) => w.Arr? && |w.items| == |items| && forall i :: 0 <= i < |items| ==> Reordered(items[i], w.items[i])
    case Obj(members) =>
      && w.Obj?
      && (forall m :: m in members ==> exists n :: n in w.members && n.key == m.key && Reordered(m.value, n.value))
      && (forall n :: n in w.members ==> exists m :: m in members && n.key == m.key && Reordered(m.value, n.value))
    case _ => v == w
  }

  lemma ReorderedParts(v: Json, w: Json)
    requires Reordered(v, w)
    ensures v.Arr? ==> w.Arr? && |w.items| == |v.items| && forall i :: 0 <= i < |v.items| ==> Reordered(v.items[i], w.items[i])
    ensures v.Obj? ==> w.Obj? && forall n :: n in w.members ==> exists m :: m in v.members && Reordered(m.value, n.value)
    ensures !v.Arr? && !v.Obj? && Encodable(v) ==> Encodable(w)
  {
  }

  lemma {:induction false} ReorderedEncodable(v: Json, w: Json)
    requires Encodable(v) && Reordered(v, w)
    ensures Encodable(w)
  {
    hide Reordered;
    ReorderedParts(v, w);
    match v
    case Arr(items) =>
      forall i | 0 <= i < |items| ensures Encodable(w.items[i]) {
        ReorderedEncodable(items[i], w.items[i]);
      }
    case Obj(members) =>
      forall j | 0 <= j < |w.members| ensures Encodable(w.members[j].value) {
        assert w.members[j] in w.members;
        var m :| m in members && Reordered(m.value, w.members[j].value);
        ReorderedEncodable(m.value, w.members[j].value);
      }
    case _ =>
  }

  /** Reorderings are the values of one meaning. */
  lemma {:induction false} ReorderedMeans(v: Json, w: Json)
    requires IsValue(v) && IsValue(w) && Encodable(v) && Encodable(w)
    ensures Reordered(v, w) <==> Denote(v) == Denote(w)
  {
    hide MapOf;
    match v
    case Arr(items) =>
      if w.Arr? {
        forall i | 0 <= i < |items| && i < |w.items| ensures Reordered(items[i], w.items[i]) <==> Denote(items[i]) == Denote(w.items[i]) {
          ReorderedMeans(items[i], w.items[i]);
        }
        ItemsMean(items, w.items);
      }
    case Obj(members) =>
      if w.Obj? {
        forall m, n | m in members && n in w.members
          ensures Reordered(m.value, n.value) <==> Encodable(m.value) && Encodable(n.value) && Denote(m.value) == Denote(n.value)
        {
          ReorderedMeans(m.value, n.value);
        }
        MembersMean(members, w.members);
      }
    case _ =>
  }

  lemma ItemsMean(a: seq<Json>, b: seq<Json>)
    requires Encodable(Arr(a)) && Encodable(Arr(b))
    requires forall i :: 0 <= i < |a| && i < |b| ==> (Reordered(a[i], b[i]) <==> Denote(a[i]) == Denote(b[i]))
    ensures Reordered(Arr(a), Arr(b)) <==> Denote(Arr(a)) == Denote(Arr(b))
  {
    var x, y := Denote(Arr(a)).items, Denote(Arr(b)).items;
    assert |x| == |a| && |y| == |b|;
    if |a| == |b| {
      assert forall i :: 0 <= i < |a| ==> x[i] == Denote(a[i]) && y[i] == Denote(b[i]);
      assert x == y <==> forall i :: 0 <= i < |a| ==> Denote(a[i]) == Denote(b[i]);
    }
  }

  ghost predicate MeanAlike(m: Member, n: Member) {
    m.key == n.key && Encodable(m.value) && Encodable(n.value) && Denote(m.value) == Denote(n.value)
  }

  ghost predicate Covered(a: seq<Member>, b: seq<Member>) {
    forall m :: m in a ==> exists n :: n in b && MeanAlike(m, n)
  }

  lemma MembersMean(a: seq<Member>, b: seq<Member>)
    requires DistinctKeys(a) && DistinctKeys(b) && Encodable(Obj(a)) && Encodable(Obj(b))
    requires forall m, n :: m in a && n in b ==>
               (Reordered(m.value, n.value) <==> Encodable(m.value) && Encodable(n.value) && Denote(m.value) == Denote(n.value))
    ensures Reordered(Obj(a), Obj(b)) <==> Denote(Obj(a)) == Denote(Obj(b))
  {
    hide Denote, MapOf, Encodable;
    RelatedMembers(a, b);
    CoveredMeans(a, b);
  }

  lemma RelatedMembers(a: seq<Member>, b: seq<Member>)
    requires forall m, n :: m in a && n in b ==>
               (Reordered(m.value, n.value) <==> Encodable(m.value) && Encodable(n.value) && Denote(m.value) == Denote(n.value))
    ensures Reordered(Obj(a), Obj(b)) <==> Covered(a, b) && Covered(b, a)
  {
    hide Denote, Encodable;
  }

  lemma CoveredMeans(a: seq<Member>, b: seq<Member>)
    requires DistinctKeys(a) && DistinctKeys(b) && Encodable(Obj(a)) && Encodable(Obj(b))
    ensures Covered(a, b) && Covered(b, a) <==> Denote(Obj(a)) == Denote(Obj(b))
  {
    hide Denote, MapOf, Covered;
    DenoteObj(a);
    DenoteObj(b);
    if Covered(a, b) && Covered(b, a) {
      CoveredEntries(a, b);
      CoveredEntries(b, a);
      MapOfSame(Entries(a), Entries(b));
    }
    if Denote(Obj(a)) == Denote(Obj(b)) {
      MapsCover(a, b);
      MapsCover(b, a);
    }
  }

  lemma CoveredEntries(a: seq<Member>, b: seq<Member>)
    requires Encodable(Obj(a)) && Encodable(Obj(b)) && Covered(a, b)
    ensures forall e :: e in Entries(a) ==> e in Entries(b)
  {
    hide Denote;
    forall e | e in Entries(a) ensures e in Entries(b) {
      var i :| 0 <= i < |a| && Entries(a)[i] == e;
      assert a[i] in a;
      var n :| n in b && MeanAlike(a[i], n);
      var j :| 0 <= j < |b| && b[j] == n;
      assert Entries(b)[j] == e;
    }
  }

  lemma MapsCover(a: seq<Member>, b: seq<Member>)
    requires DistinctKeys(a) && DistinctKeys(b) && Encodable(Obj(a)) && Encodable(Obj(b))
    requires MapOf(Entries(a)) == MapOf(Entries(b))
    ensures Covered(a, b)
  {
    hide Denote, MapOf;
    forall m | m in a ensures exists n :: n in b && MeanAlike(m, n) {
      var i :| 0 <= i < |a| && a[i] == m;
      MapOfEntries(Entries(a), Entries(b), i);
      var j :| 0 <= j < |b| && Entries(b)[j] == Entries(a)[i];
      assert b[j] in b && MeanAlike(m, b[j]);
    }
  }

  /** Two values have the same encoding exactly when one is a reordering of the other, at whatever depth. */
  lemma EncodingForgetsOrder(v: Json, w: Json)
    requires IsValue(v) && IsValue(w) && Encodable(v)
    ensures Encode(v) == Encode(w) <==> Reordered(v, w)
  {
    hide Encode, Denote, Reordered;
    EncodePrintsCanon(v);
    EncodePrintsCanon(w);
    if Encodable(w) {
      EncodingIsMeaning(v, w);
      ReorderedMeans(v, w);
    } else if Reordered(v, w) {
      ReorderedEncodable(v, w);
    }
  }

  /* ---- Canonical text can always be encoded as UTF-8 ---- */

  lemma {:induction false} JoinedWellFormed(texts: seq<Text>)
    requires forall i :: 0 <= i < |texts| ==> WellFormed(texts[i])
    ensures WellFormed(Joined(texts))
  {
    hide WellFormed;
    if |texts| == 0 {
      PlainWellFormed([]);
    } else if |texts| > 1 {
      JoinedWellFormed(texts[1..]);
      PlainWellFormed(COMMA);
      WellFormedConcat(texts[0], COMMA);
      WellFormedConcat(texts[0] + COMMA, Joined(texts[1..]));
    }
  }

  lemma EnclosedWellFormed(open: char, texts: seq<Text>, close: char)
    requires open as int < 0x80 && close as int < 0x80
    requires forall i :: 0 <= i < |texts| ==> WellFormed(texts[i])
    ensures WellFormed(Enclosed(open, texts, close))
  {
    hide WellFormed, Joined;
    JoinedWellFormed(texts);
    PlainWellFormed([open as int]);
    PlainWellFormed([close as int]);
    WellFormedConcat([open as int], Joined(texts));
    WellFormedConcat([open as int] + Joined(texts), [close as int]);
  }

  lemma MemberWellFormed(key: Text, value: Text)
    requires WellFormed(value)
    ensures WellFormed(MemberText(key, value))
  {
    hide WellFormed, Quote;
    QuoteWellFormed(key);
    PlainWellFormed(COLON);
    WellFormedConcat(Quote(key), COLON);
    WellFormedConcat(Quote(key) + COLON, value);
  }

  predicate Ascii(t: Text) {
    forall i :: 0 <= i < |t| ==> t[i] < 0x80
  }

  lemma AsciiParts(a: Text, b: Text, c: Text)
    requires Ascii(a) && Ascii(b) && Ascii(c)
    ensures Ascii(a + (b + c))
  {
  }

  lemma ExponentAscii(e: int)
    ensures Ascii(['e' as int] + ExponentText(e))
  {
    hide NatDigits;
  }

  lemma MagnitudeAscii(m: Magnitude)
    ensures Ascii(MagnitudeText(m))
  {
    hide MagnitudeText, Whole, Fraction, Exponent, ExponentText;
    var point := if Fraction(m) != [] then ['.' as int] + DigitUnits(Fraction(m)) else [];
    var tail := if Exponent(m).Some? then ['e' as int] + ExponentText(Exponent(m).value) else [];
    if Exponent(m).Some? {
      ExponentAscii(Exponent(m).value);
    }
    TextOfParts(m, []);
    assert MagnitudeText(m) + [] == MagnitudeText(m) && tail + [] == tail;
    AsciiParts(DigitUnits(Whole(m)), point, tail);
  }

  lemma NumberWellFormed(n: JsNumber)
    requires n.Finite?
    ensures WellFormed(NumberText(n))
  {
    hide WellFormed, MagnitudeText;
    MagnitudeAscii(n.magnitude);
    PlainWellFormed(NumberText(n));
  }

  lemma WordWellFormed(v: Json)
    requires v.Null? || v.Bool?
    ensures WellFormed(Word(v))
  {
    PlainWellFormed(Word(v));
  }

  lemma {:induction false} ShowWellFormed(v: Json)
    requires Encodable(v)
    ensures WellFormed(Show(v))
  {
    hide WellFormed, Joined, Enclosed, MemberText, Quote, NumberText, Word;
    match v
    case Null => WordWellFormed(v);
    case Bool(_) => WordWellFormed(v);
    case Number(n) => NumberWellFormed(n);
    case Str(t) => QuoteWellFormed(t);
    case Arr(items) =>
      var texts := Shows(items);
      forall i | 0 <= i < |items| ensures WellFormed(texts[i]) {
        ShowWellFormed(items[i]);
      }
      EnclosedWellFormed('[', texts, ']');
      ShowArr(items);
      assert texts == seq(|items|, i requires 0 <= i < |items| => Show(items[i]));
    case Obj(members) =>
      var texts := MemberShows(members);
      forall i | 0 <= i < |members| ensures WellFormed(texts[i]) {
        ShowWellFormed(members[i].value);
        MemberWellFormed(members[i].key, Show(members[i].value));
      }
      EnclosedWellFormed('{', texts, '}');
      ShowObj(members);
      assert texts == seq(|members|, i requires 0 <= i < |members| => MemberText(members[i].key, Show(members[i].value)));
  }

  /** Every encoding is Unicode text without a byte order mark, so UTF-8 loses nothing of it. */
  lemma EncodedWellFormed(v: Json)
    requires Encodable(v)
    ensures Encode(v).Ok? && WellFormed(Encode(v).value)
    ensures Encode(v).value != [] && Encode(v).value[0] < 0x80
  {
    hide WellFormed, Encode, Show, Canon;
    EncodePrintsCanon(v);
    ShowWellFormed(Canon(v));
    ShowStartsPlain(Canon(v));
  }

  lemma ShowStartsPlain(v: Json)
    requires Encodable(v)
    ensures Show(v) != [] && Show(v)[0] < 0x80
  {
    hide NumberText, Quote;
    if v.Number? {
      NumberStart(v.n);
    } else if v.Str? {
      QuoteStart(v.t);
    }
  }
}
