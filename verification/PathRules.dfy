/** Which paths the evidence code lets through, position by position. */
module PathRules {
  import opened Results
  import opened Text
  import opened Platform
  import Zip

  /** t[i..j] reaches from a slash or the start of t to a slash or its end. */
  predicate IsStretch(t: Text, i: int, j: int) {
    0 <= i <= j <= |t| && (i == 0 || t[i - 1] == '/' as int) && (j == |t| || t[j] == '/' as int)
  }

  /** 1 to 512 units without backslash and NUL, and nothing empty, "." or ".." between its slashes. */
  ghost predicate IsSafe(t: Text) {
    1 <= |t| <= 512
    && (forall i :: 0 <= i < |t| ==> t[i] != '\\' as int && t[i] != 0)
    && forall i, j :: IsStretch(t, i, j) ==> t[i..j] !in {[], ['.' as int], ['.' as int, '.' as int]}
  }

  /** join('/') */
  function JoinSlash(segments: seq<Text>): Text
    requires segments != []
  {
    if |segments| == 1 then segments[0] else segments[0] + ['/' as int] + JoinSlash(segments[1..])
  }

  /** Splitting is the inverse of joining, into parts without a slash. */
  lemma {:induction false} SegmentsJoin(t: Text)
    ensures JoinSlash(Zip.Segments(t)) == t
    ensures forall s :: s in Zip.Segments(t) ==> '/' as int !in s
  {
    if t != [] {
      SegmentsJoin(t[1..]);
      var others := Zip.Segments(t[1..]);
      if t[0] == '/' as int {
        var r := [[]] + others;
        assert r[1..] == others && JoinSlash(r) == [] + ['/' as int] + JoinSlash(others);
        assert t == ['/' as int] + t[1..];
      } else {
        FirstLonger(others, t[0]);
        assert t == [t[0]] + t[1..];
        assert others[0] in others;
        assert forall s :: s in others[1..] ==> s in others;
      }
    }
  }

  lemma FirstLonger(others: seq<Text>, u: Unit)
    requires others != []
    ensures JoinSlash([[u] + others[0]] + others[1..]) == [u] + JoinSlash(others)
  {
    var r := [[u] + others[0]] + others[1..];
    assert r[1..] == others[1..];
    if |others| > 1 {
      assert [u] + others[0] + ['/' as int] + JoinSlash(others[1..]) == [u] + (others[0] + ['/' as int] + JoinSlash(others[1..]));
    }
  }

  predicate IsBetween(t: Text, i: int, j: int, s: Text) {
    IsStretch(t, i, j) && t[i..j] == s
  }

  ghost predicate HasBetween(t: Text, s: Text) {
    exists i, j :: IsBetween(t, i, j, s)
  }

  /** A stretch after the first unit, seen from the start. */
  lemma Shifted(t: Text, i: int, j: int, s: Text)
    requires t != [] && IsBetween(t[1..], i, j, s) && (i > 0 || t[0] == '/' as int)
    ensures IsBetween(t, i + 1, j + 1, s)
  {
    assert t[i + 1..j + 1] == t[1..][i..j];
  }

  lemma FirstShifted(t: Text, j: int, s: Text)
    requires t != [] && IsBetween(t[1..], 0, j, s)
    ensures IsBetween(t, 0, j + 1, [t[0]] + s)
  {
    assert t[1..j + 1] == t[1..][0..j];
    assert t[0..j + 1] == [t[0]] + t[1..j + 1];
  }

  /** Where segment k lies. */
  lemma {:induction false} SegmentFound(t: Text, k: nat) returns (i: int, j: int)
    requires k < |Zip.Segments(t)|
    ensures IsBetween(t, i, j, Zip.Segments(t)[k]) && (k == 0 <==> i == 0)
  {
    i, j := 0, 0;
    if t != [] && (k > 0 || t[0] != '/' as int) {
      hide IsBetween;
      i, j := SegmentFound(t[1..], if t[0] == '/' as int then k - 1 else k);
      if k == 0 {
        FirstShifted(t, j, Zip.Segments(t[1..])[0]);
        j := j + 1;
      } else {
        Shifted(t, i, j, Zip.Segments(t)[k]);
        i, j := i + 1, j + 1;
      }
    }
  }

  lemma Unshifted(t: Text, i: int, j: int, s: Text)
    requires IsBetween(t, i, j, s) && '/' as int !in s
    ensures i >= 0 && (t == [] ==> i == 0 && s == [])
    ensures t != [] && i == 0 && t[0] == '/' as int ==> s == []
    ensures t != [] && i == 0 && t[0] != '/' as int ==> s != [] && s[0] == t[0] && IsBetween(t[1..], 0, j - 1, s[1..])
    ensures t != [] && i > 0 ==> IsBetween(t[1..], i - 1, j - 1, s) && (i == 1 ==> t[0] == '/' as int)
  {
    if t != [] && i == 0 {
      assert t[0..j] == s;
      if s != [] {
        assert s[0] in s;
        assert t[1..j] == t[1..][0..j - 1];
      }
    } else if t != [] {
      assert t[i..j] == t[1..][i - 1..j - 1];
    }
  }

  /** Every stretch without a slash inside is a segment. */
  lemma {:induction false} StretchFound(t: Text, i: int, j: int, s: Text) returns (k: nat)
    requires IsBetween(t, i, j, s) && '/' as int !in s
    ensures k < |Zip.Segments(t)| && Zip.Segments(t)[k] == s && (k == 0 <==> i == 0)
  {
    hide IsBetween;
    Unshifted(t, i, j, s);
    k := 0;
    if t != [] && i > 0 {
      k := StretchFound(t[1..], i - 1, j - 1, s);
      k := if t[0] == '/' as int then k + 1 else k;
    } else if t != [] && t[0] != '/' as int {
      k := StretchFound(t[1..], 0, j - 1, s[1..]);
      assert s == [s[0]] + s[1..];
    }
  }

  lemma SegmentIsStretch(t: Text, s: Text)
    requires '/' as int !in s
    ensures s in Zip.Segments(t) <==> HasBetween(t, s)
  {
    hide IsBetween;
    if s in Zip.Segments(t) {
      var k :| 0 <= k < |Zip.Segments(t)| && Zip.Segments(t)[k] == s;
      var i, j := SegmentFound(t, k);
    }
    if i, j :| IsBetween(t, i, j, s) {
      var k := StretchFound(t, i, j, s);
    }
  }

  /** The check lets through exactly the safe paths, and returns their normal form. */
  lemma ValidIsSafe(p: Platform, t: Text)
    ensures Zip.ValidatePath(p, t) == if IsSafe(t) then Ok(p.normalize(t)) else Err("EVIDENCE_ZIP_PATH_INVALID")
  {
    hide Zip.Segments, IsStretch;
    BetweenSafe(t);
    if 1 <= |t| <= 512 {
      var none: Text, one: Text, two: Text := [], ['.' as int], ['.' as int, '.' as int];
      assert Lit(".") == one && Lit("..") == two;
      SegmentIsStretch(t, none);
      SegmentIsStretch(t, one);
      SegmentIsStretch(t, two);
      if t[0] == '/' as int || t[|t| - 1] == '/' as int {
        EndsSafe(t);
      }
      assert ('\\' as int in t || 0 in t) <==> exists i :: 0 <= i < |t| && (t[i] == '\\' as int || t[i] == 0);
    }
  }

  lemma BetweenSafe(t: Text)
    ensures IsSafe(t) <==>
              && 1 <= |t| <= 512
              && (forall i :: 0 <= i < |t| ==> t[i] != '\\' as int && t[i] != 0)
              && !HasBetween(t, [])
              && !HasBetween(t, ['.' as int])
              && !HasBetween(t, ['.' as int, '.' as int])
  {
    if !IsSafe(t) && 1 <= |t| <= 512 && forall i :: 0 <= i < |t| ==> t[i] != '\\' as int && t[i] != 0 {
      var i, j :| IsStretch(t, i, j) && t[i..j] in {[], ['.' as int], ['.' as int, '.' as int]};
      assert IsBetween(t, i, j, t[i..j]);
    }
  }

  lemma EndsSafe(t: Text)
    requires t != [] && (t[0] == '/' as int || t[|t| - 1] == '/' as int)
    ensures HasBetween(t, [])
  {
    if t[0] == '/' as int {
      assert IsBetween(t, 0, 0, []);
    } else {
      assert IsBetween(t, |t|, |t|, []);
    }
  }
}
