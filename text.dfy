/** Text helpers used by the search page: case folding and the substring
    test that Python's `in` performs on two strings. Case folding is ASCII
    only (see README). */
module Text {

  /** ASCII lower-casing of one character. */
  function Lower(c: char): (d: char)
    ensures 'A' <= c <= 'Z' ==> 'a' <= d <= 'z' && d as int - c as int == 32
    ensures !('A' <= c <= 'Z') ==> d == c
    ensures !('A' <= d <= 'Z')
  {
    if 'A' <= c <= 'Z' then (c as int + 32) as char else c
  }

  /** `s.lower()`: every character lowered, nothing else changed. */
  function LowerStr(s: string): (r: string)
    ensures |r| == |s|
    ensures forall i :: 0 <= i < |s| ==> r[i] == Lower(s[i])
  {
    if s == [] then [] else [Lower(s[0])] + LowerStr(s[1..])
  }

  /** Two strings are case variants of each other when they agree after
      lowering each position. */
  predicate CaseVariant(a: string, b: string)
  {
    |a| == |b| && forall i :: 0 <= i < |a| ==> Lower(a[i]) == Lower(b[i])
  }

  /** Lowering twice is lowering once. */
  lemma LowerStrIdempotent(s: string)
    ensures LowerStr(LowerStr(s)) == LowerStr(s)
  {
    var l := LowerStr(s);
    assert forall i :: 0 <= i < |l| ==> LowerStr(l)[i] == l[i];
  }

  /** Case variants lower to the same string, and only case variants do. */
  lemma CaseVariantIff(a: string, b: string)
    ensures CaseVariant(a, b) <==> LowerStr(a) == LowerStr(b)
  {
    if CaseVariant(a, b) {
      assert forall i :: 0 <= i < |a| ==> LowerStr(a)[i] == LowerStr(b)[i];
    }
    if LowerStr(a) == LowerStr(b) {
      assert forall i :: 0 <= i < |a| ==> Lower(a[i]) == LowerStr(a)[i] == LowerStr(b)[i] == Lower(b[i]);
    }
  }

  /** `t` occurs in `s` starting at position `k`. */
  predicate OccursAt(t: string, s: string, k: int)
  {
    0 <= k && k + |t| <= |s| && s[k..k + |t|] == t
  }

  /** Python's `t in s` for strings: `t` is a contiguous substring of `s`
      (the empty string is a substring of every string). */
  function Contains(s: string, t: string): (b: bool)
    decreases |s|
  {
    (|t| <= |s| && s[..|t|] == t) || (s != [] && Contains(s[1..], t))
  }

  /** Contains holds exactly when some position of `s` starts an occurrence of `t`. */
  lemma {:induction false} ContainsIff(s: string, t: string)
    ensures Contains(s, t) <==> exists k :: OccursAt(t, s, k)
    decreases |s|
  {
    if |t| <= |s| && s[..|t|] == t {
      assert OccursAt(t, s, 0);
    } else if s == [] {
      assert forall k :: !OccursAt(t, s, k);
    } else {
      ContainsIff(s[1..], t);
      // an occurrence in `s` past position 0 is an occurrence in `s[1..]`, shifted by one
      forall k | 0 < k ensures OccursAt(t, s, k) <==> OccursAt(t, s[1..], k - 1) {
        if k + |t| <= |s| {
          assert s[1..][k - 1..k - 1 + |t|] == s[k..k + |t|];
        }
      }
      if Contains(s[1..], t) {
        var k :| OccursAt(t, s[1..], k);
        assert OccursAt(t, s, k + 1);
      }
    }
  }

  /** The empty term occurs in every string. */
  lemma ContainsEmpty(s: string)
    ensures Contains(s, [])
  {
    assert s[..0] == [];
  }

  /** A term longer than the string never occurs in it. */
  lemma {:induction false} ContainsNoLonger(s: string, t: string)
    requires Contains(s, t)
    ensures |t| <= |s|
    decreases |s|
  {
    if !(|t| <= |s| && s[..|t|] == t) {
      ContainsNoLonger(s[1..], t);
    }
  }
}
