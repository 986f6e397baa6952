/** String operations the replication logic relies on: Python's `str.endswith`,
    the substring test `sub in s`, and the lexicographic order the DNS provider
    uses to list record sets. */
module Strings {

  /** `s.endswith(suffix)`. */
  predicate EndsWith(s: string, suffix: string)
  {
    |suffix| <= |s| && s[|s| - |suffix|..] == suffix
  }

  /** `s.startswith(prefix)`. */
  predicate StartsWith(s: string, prefix: string)
  {
    |prefix| <= |s| && s[..|prefix|] == prefix
  }

  /** Python's `sub in s`: `sub` occurs somewhere in `s`. */
  predicate Contains(s: string, sub: string)
    decreases |s|
  {
    StartsWith(s, sub) || (|s| > 0 && Contains(s[1..], sub))
  }

  /** `s` ends with `suffix` exactly when it is some string followed by `suffix`. */
  lemma EndsWithIffConcat(s: string, suffix: string)
    ensures EndsWith(s, suffix) <==> exists p: string :: s == p + suffix
  {
    if EndsWith(s, suffix) {
      var p := s[..|s| - |suffix|];
      assert s == p + suffix;
    }
    if exists p: string :: s == p + suffix {
      var p: string :| s == p + suffix;
      assert s[|p|..] == suffix;
    }
  }

  /** `sub` occurs in `s` starting at index `i`. */
  predicate OccursAt(s: string, sub: string, i: int)
  {
    0 <= i <= |s| - |sub| && s[i..i + |sub|] == sub
  }

  /** A string contains `sub` exactly when `sub` sits at some position in it. */
  lemma {:induction false} ContainsIffOccurs(s: string, sub: string)
    ensures Contains(s, sub) <==> exists i :: OccursAt(s, sub, i)
    decreases |s|
  {
    if StartsWith(s, sub) {
      assert OccursAt(s, sub, 0);
    } else if |s| == 0 {
    } else {
      ContainsIffOccurs(s[1..], sub);
      if Contains(s[1..], sub) {
        var i :| OccursAt(s[1..], sub, i);
        assert s[1..][i..i + |sub|] == s[i + 1..i + 1 + |sub|];
        assert OccursAt(s, sub, i + 1);
      }
      if exists i :: OccursAt(s, sub, i) {
        var i :| OccursAt(s, sub, i);
        if i > 0 {
          assert s[1..][i - 1..i - 1 + |sub|] == s[i..i + |sub|];
          assert OccursAt(s[1..], sub, i - 1);
        }
      }
    }
  }

  /** `sub` occurs in any string built around it. */
  lemma ContainsPlaced(x: string, sub: string, y: string)
    ensures Contains(x + sub + y, sub)
  {
    var s := x + sub + y;
    assert s[|x|..|x| + |sub|] == sub;
    assert OccursAt(s, sub, |x|);
    ContainsIffOccurs(s, sub);
  }

  /** An occurrence stays one when text is added after it. */
  lemma ContainsExtendRight(x: string, y: string, sub: string)
    requires Contains(x, sub)
    ensures Contains(x + y, sub)
  {
    ContainsIffOccurs(x, sub);
    var i :| OccursAt(x, sub, i);
    assert (x + y)[i..i + |sub|] == x[i..i + |sub|];
    assert OccursAt(x + y, sub, i);
    ContainsIffOccurs(x + y, sub);
  }

  /** An occurrence stays one when text is added before it. */
  lemma ContainsExtendLeft(x: string, y: string, sub: string)
    requires Contains(y, sub)
    ensures Contains(x + y, sub)
  {
    ContainsIffOccurs(y, sub);
    var i :| OccursAt(y, sub, i);
    assert (x + y)[|x| + i..|x| + i + |sub|] == y[i..i + |sub|];
    assert OccursAt(x + y, sub, |x| + i);
    ContainsIffOccurs(x + y, sub);
  }

  /** An occurrence needs room, and every character of `sub` appears in `s`. */
  lemma ContainsNeedsChars(s: string, sub: string)
    requires Contains(s, sub)
    ensures |sub| <= |s|
    ensures forall c :: c in sub ==> c in s
  {
    ContainsIffOccurs(s, sub);
    var i :| OccursAt(s, sub, i);
    forall c | c in sub ensures c in s {
      var k :| 0 <= k < |sub| && sub[k] == c;
      assert s[i..i + |sub|][k] == s[i + k];
    }
  }

  /** When `sub` has no `c` in it, an occurrence in `x + [c] + y` lies wholly
      on one side of that `c`. */
  lemma ContainsSplit(x: string, c: char, y: string, sub: string)
    requires c !in sub
    requires Contains(x + [c] + y, sub)
    ensures Contains(x, sub) || Contains(y, sub)
  {
    var s := x + [c] + y;
    ContainsIffOccurs(s, sub);
    var i :| OccursAt(s, sub, i);
    assert forall k :: 0 <= k < |sub| ==> sub[k] == s[i + k];
    assert s[|x|] == c;
    if i + |sub| <= |x| {
      assert x[i..i + |sub|] == s[i..i + |sub|];
      assert OccursAt(x, sub, i);
      ContainsIffOccurs(x, sub);
    } else {
      assert i > |x|;
      assert s[|x| + 1..] == y;
      assert y[i - |x| - 1..i - |x| - 1 + |sub|] == s[i..i + |sub|];
      assert OccursAt(y, sub, i - |x| - 1);
      ContainsIffOccurs(y, sub);
    }
  }

  /** Strict lexicographic order on character codes. */
  predicate Before(s: string, t: string)
    decreases |s|
  {
    if |s| == 0 then |t| > 0
    else if |t| == 0 then false
    else if s[0] != t[0] then s[0] < t[0]
    else Before(s[1..], t[1..])
  }

  lemma {:induction false} BeforeIrreflexive(s: string)
    ensures !Before(s, s)
    decreases |s|
  {
    if |s| > 0 {
      BeforeIrreflexive(s[1..]);
    }
  }

  lemma {:induction false} BeforeTransitive(s: string, t: string, u: string)
    requires Before(s, t) && Before(t, u)
    ensures Before(s, u)
    decreases |s|
  {
    if |s| > 0 && s[0] == t[0] && t[0] == u[0] {
      BeforeTransitive(s[1..], t[1..], u[1..]);
    }
  }

  /** Any two different strings are ordered one way or the other. */
  lemma {:induction false} BeforeTotal(s: string, t: string)
    requires s != t
    ensures Before(s, t) || Before(t, s)
    decreases |s|
  {
    if |s| > 0 && |t| > 0 && s[0] == t[0] {
      assert s == [s[0]] + s[1..] && t == [t[0]] + t[1..];
      BeforeTotal(s[1..], t[1..]);
    }
  }
}
