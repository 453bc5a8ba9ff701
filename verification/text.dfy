/**
 String primitives the server is built from: Rust's `str::replace` and the
 concatenation of a sequence of fragments.
 */
module Text {

  /** `pat` occurs in `s` starting at index `i`. */
  predicate OccursAt(s: string, pat: string, i: nat) {
    i + |pat| <= |s| && s[i..i + |pat|] == pat
  }

  /** `pat` occurs somewhere in `s`. */
  predicate Contains(s: string, pat: string) {
    exists i: nat | i <= |s| :: OccursAt(s, pat, i)
  }

  /**
   Rust's `str::replace(pat, rep)`: the occurrences of `pat` are found left to
   right without overlapping and each is replaced by `rep`. An empty pattern
   matches at every character boundary, so `rep` is inserted before every
   character and once at the end.
   */
  function ReplaceAll(s: string, pat: string, rep: string): string
    decreases |s|
  {
    if |pat| == 0 then
      if |s| == 0 then rep else rep + [s[0]] + ReplaceAll(s[1..], pat, rep)
    else if |s| < |pat| then s
    else if s[..|pat|] == pat then rep + ReplaceAll(s[|pat|..], pat, rep)
    else [s[0]] + ReplaceAll(s[1..], pat, rep)
  }

  /** A non-empty pattern that does not occur leaves the string unchanged. */
  lemma {:induction false} ReplaceAbsent(s: string, pat: string, rep: string)
    requires |pat| > 0
    requires !Contains(s, pat)
    ensures ReplaceAll(s, pat, rep) == s
    decreases |s|
  {
    if |s| < |pat| {
    } else {
      assert !OccursAt(s, pat, 0);
      assert s[..|pat|] != pat;
      forall i: nat | i <= |s[1..]| && OccursAt(s[1..], pat, i)
        ensures OccursAt(s, pat, i + 1)
      {
        assert s[1..][i..i + |pat|] == s[i + 1..i + 1 + |pat|];
      }
      ReplaceAbsent(s[1..], pat, rep);
    }
  }

  /** Replacing one character acts on each character of `s` independently. */
  lemma {:induction false} ReplaceCharDistributes(a: string, b: string, c: char, rep: string)
    ensures ReplaceAll(a + b, [c], rep) == ReplaceAll(a, [c], rep) + ReplaceAll(b, [c], rep)
    decreases |a|
  {
    if |a| == 0 {
      assert a + b == b;
    } else {
      assert (a + b)[..1] == a[..1];
      assert (a + b)[1..] == a[1..] + b;
      ReplaceCharDistributes(a[1..], b, c, rep);
    }
  }

  /** Replacing a character in a one-character string. */
  lemma ReplaceCharSingle(x: char, c: char, rep: string)
    ensures ReplaceAll([x], [c], rep) == if x == c then rep else [x]
  {
    assert [x][..1] == [x];
    assert [x][1..] == [];
    assert ReplaceAll([], [c], rep) == [];
    if x == c {
      assert rep + [] == rep;
    } else {
      assert [x] != [c];
      assert [x] + [] == [x];
    }
  }

  /** The fragments of `ss` joined in order. */
  function Concat(ss: seq<string>): string
    decreases |ss|
  {
    if |ss| == 0 then [] else Concat(ss[..|ss| - 1]) + ss[|ss| - 1]
  }

  /** `t` written `n` times in a row. */
  function Repeat(t: string, n: nat): string
    decreases n
  {
    if n == 0 then [] else Repeat(t, n - 1) + t
  }

  /** Joining fragments that are all `t` is `t` repeated. */
  lemma {:induction false} ConcatConstant(ss: seq<string>, t: string)
    requires forall i :: 0 <= i < |ss| ==> ss[i] == t
    ensures Concat(ss) == Repeat(t, |ss|)
    ensures |Concat(ss)| == |ss| * |t|
    decreases |ss|
  {
    if |ss| > 0 {
      ConcatConstant(ss[..|ss| - 1], t);
    }
  }
}
