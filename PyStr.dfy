/**
  The two Python string operations the answer generator relies on:
  the substring test `t in s` and `s.lower()`, plus the decimal rendering
  of a one-digit int inside an f-string.
 */
module PyStr {

  /** `t` is the slice of `s` that starts at index `i`. */
  predicate OccursAt(t: string, s: string, i: int) {
    0 <= i <= |s| - |t| && s[i..i + |t|] == t
  }

  /** Python's `t in s` for strings: `t` occurs as a contiguous slice of `s`. */
  predicate In(t: string, s: string) {
    exists i | 0 <= i <= |s| - |t| :: OccursAt(t, s, i)
  }

  /** `str.lower()` on one character, for the ASCII letters. */
  function LowerChar(c: char): (r: char)
    ensures 'A' <= c <= 'Z' ==> 'a' <= r <= 'z' && r as int == c as int + 32
    ensures !('A' <= c <= 'Z') ==> r == c
  {
    if 'A' <= c <= 'Z' then (c as int + 32) as char else c
  }

  /** `s.lower()`: lower-cases every character, keeping the length. */
  function Lower(s: string): string {
    seq(|s|, i requires 0 <= i < |s| => LowerChar(s[i]))
  }

  /** `f"{d}"` for a one-digit int. */
  function DigitChar(d: int): (r: char)
    requires 0 <= d <= 9
    ensures '0' <= r <= '9' && r as int - '0' as int == d
  {
    ('0' as int + d) as char
  }

  /** Lower-casing commutes with concatenation. */
  lemma LowerConcat(a: string, b: string)
    ensures Lower(a + b) == Lower(a) + Lower(b)
  {
    var l, r := Lower(a + b), Lower(a) + Lower(b);
    assert |l| == |r|;
    forall i | 0 <= i < |l| ensures l[i] == r[i] {
      if i < |a| {
        assert (a + b)[i] == a[i];
      } else {
        assert (a + b)[i] == b[i - |a|];
      }
    }
  }

  /** A lower-case letter that appears in neither case in `s` is absent from `s.lower()`. */
  lemma LowerOmits(s: string, c: char)
    requires 'a' <= c <= 'z'
    requires c !in s && (c as int - 32) as char !in s
    ensures c !in Lower(s)
  {
    forall i | 0 <= i < |s| ensures Lower(s)[i] != c {
      assert s[i] in s;
    }
  }

  /** A pattern cannot occur in a string that lacks one of the pattern's characters. */
  lemma NotInWithoutChar(t: string, s: string, c: char)
    requires c in t && c !in s
    ensures !In(t, s)
  {
    var j :| 0 <= j < |t| && t[j] == c;
    forall i | 0 <= i <= |s| - |t| ensures !OccursAt(t, s, i) {
      assert s[i..i + |t|][j] == s[i + j];
      assert s[i + j] in s;
    }
  }

  /** A pattern found in `b` is still found once `b` is prefixed by `a`. */
  lemma InSuffix(t: string, a: string, b: string)
    requires In(t, b)
    ensures In(t, a + b)
  {
    var i :| 0 <= i <= |b| - |t| && OccursAt(t, b, i);
    assert (a + b)[|a| + i..|a| + i + |t|] == b[i..i + |t|];
    assert OccursAt(t, a + b, |a| + i);
  }

  /**
    When `b` starts with a character the pattern does not contain, no occurrence
    can straddle the seam, so the pattern is in `a + b` exactly when it is in one part.
   */
  lemma InConcat(t: string, a: string, b: string)
    requires |b| > 0 && b[0] !in t
    ensures In(t, a + b) <==> In(t, a) || In(t, b)
  {
    var ab := a + b;
    forall i | 0 <= i <= |ab| - |t| && i < |a| < i + |t| ensures !OccursAt(t, ab, i) {
      assert ab[i..i + |t|][|a| - i] == ab[|a|] == b[0];
    }
    if In(t, ab) {
      var i :| 0 <= i <= |ab| - |t| && OccursAt(t, ab, i);
      if i + |t| <= |a| {
        assert a[i..i + |t|] == ab[i..i + |t|];
        assert OccursAt(t, a, i);
      } else if i >= |a| {
        assert b[i - |a|..i - |a| + |t|] == ab[i..i + |t|];
        assert OccursAt(t, b, i - |a|);
      }
    }
    if In(t, a) {
      var i :| 0 <= i <= |a| - |t| && OccursAt(t, a, i);
      assert ab[i..i + |t|] == a[i..i + |t|];
      assert OccursAt(t, ab, i);
    }
    if In(t, b) {
      InSuffix(t, a, b);
    }
  }
}
