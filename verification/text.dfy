/** The string operations the scraper relies on: Python's `str.strip()`,
    `str.lower()` and the substring test `needle in hay`. Case folding and
    whitespace are modelled for ASCII only. */
module Text {

  /** Python's `str.isspace()` restricted to ASCII: space, `\t` through `\r`
      and the four separators 0x1C..0x1F. */
  predicate IsSpace(c: char) {
    c == ' ' || ('\t' <= c <= '\r') || ('\U{1C}' <= c <= '\U{1F}')
  }

  predicate AllSpace(s: string) {
    forall i :: 0 <= i < |s| ==> IsSpace(s[i])
  }

  /** Neither end of `s` is whitespace (vacuous for the empty string). */
  predicate NoEdgeSpace(s: string) {
    |s| == 0 || (!IsSpace(s[0]) && !IsSpace(s[|s| - 1]))
  }

  /** The end of the run of whitespace that starts at `k`. */
  function SpaceRunFrom(s: string, k: nat): (a: nat)
    requires k <= |s|
    ensures k <= a <= |s|
    ensures forall i :: k <= i < a ==> IsSpace(s[i])
    ensures a == |s| || !IsSpace(s[a])
    decreases |s| - k
  {
    if k < |s| && IsSpace(s[k]) then SpaceRunFrom(s, k + 1) else k
  }

  /** The start of the run of whitespace that ends just before `k`. */
  function SpaceRunUpTo(s: string, k: nat): (b: nat)
    requires k <= |s|
    ensures b <= k
    ensures forall i :: b <= i < k ==> IsSpace(s[i])
    ensures b == 0 || !IsSpace(s[b - 1])
  {
    if k > 0 && IsSpace(s[k - 1]) then SpaceRunUpTo(s, k - 1) else k
  }

  /** Python's `s.strip()`: no whitespace is left at either end. */
  function Strip(s: string): (r: string)
    ensures |r| <= |s|
    ensures NoEdgeSpace(r)
  {
    var a := SpaceRunFrom(s, 0);
    var b := SpaceRunUpTo(s, |s|);
    if b <= a then [] else s[a..b]
  }

  /** What `Strip` removes is whitespace only: its result is a contiguous
      piece of the input surrounded by whitespace. */
  lemma StripRemovesOnlySpace(s: string)
    ensures exists a :: StrippedAt(s, Strip(s), a)
  {
    var a := SpaceRunFrom(s, 0);
    var b := SpaceRunUpTo(s, |s|);
    if b <= a {
      assert StrippedAt(s, Strip(s), |s|);
    } else {
      assert StrippedAt(s, Strip(s), a);
    }
  }

  /** `r` occurs in `s` at offset `a`, and only whitespace surrounds it. */
  ghost predicate StrippedAt(s: string, r: string, a: int) {
    && 0 <= a && a + |r| <= |s|
    && s[a..a + |r|] == r
    && AllSpace(s[..a])
    && AllSpace(s[a + |r|..])
  }

  /** Stripping an already stripped string changes nothing. */
  lemma StripIdempotent(s: string)
    ensures Strip(Strip(s)) == Strip(s)
  {
    StripOfEdgeless(Strip(s));
  }

  /** A string with no whitespace at either end is its own strip. */
  lemma StripOfEdgeless(s: string)
    requires NoEdgeSpace(s)
    ensures Strip(s) == s
  {
  }

  /** Python's `str.lower()` on one character, ASCII letters only. */
  function LowerChar(c: char): (d: char)
    ensures !('A' <= d <= 'Z')
    ensures 'A' <= c <= 'Z' ==> d as int == c as int + 32
    ensures !('A' <= c <= 'Z') ==> d == c
  {
    if 'A' <= c <= 'Z' then (c as int + 32) as char else c
  }

  /** Python's `str.lower()`, character by character. */
  function Lower(s: string): (r: string)
    ensures |r| == |s|
  {
    seq(|s|, i requires 0 <= i < |s| => LowerChar(s[i]))
  }

  /** Lowering works character by character. */
  lemma LowerAt(s: string)
    ensures forall i :: 0 <= i < |s| ==> Lower(s)[i] == LowerChar(s[i])
  {
  }

  /** No upper-case ASCII letter survives lowering. */
  lemma LowerLeavesNoUpper(s: string)
    ensures forall i :: 0 <= i < |s| ==> !('A' <= Lower(s)[i] <= 'Z')
  {
  }

  /** Lowering twice is lowering once: the source lowers a name that is
      already lower-case before the substring test. */
  lemma LowerIdempotent(s: string)
    ensures Lower(Lower(s)) == Lower(s)
  {
    var l := Lower(s);
    assert forall i :: 0 <= i < |l| ==> LowerChar(l[i]) == l[i];
  }

  /** `needle` occurs in `hay` starting at position `i`. */
  ghost predicate OccursAt(hay: string, needle: string, i: int) {
    0 <= i && i + |needle| <= |hay| && hay[i..i + |needle|] == needle
  }

  /** Python's `needle in hay`. */
  function Contains(hay: string, needle: string): bool
    decreases |hay|
  {
    (|needle| <= |hay| && hay[..|needle|] == needle)
    || (|hay| > 0 && Contains(hay[1..], needle))
  }

  /** `Contains` is the substring test: it holds iff `needle` occurs at
      some position of `hay`. */
  lemma {:induction false} ContainsIff(hay: string, needle: string)
    ensures Contains(hay, needle) <==> exists i :: OccursAt(hay, needle, i)
    decreases |hay|
  {
    OccursAtShift(hay, needle);
    if |hay| > 0 {
      ContainsIff(hay[1..], needle);
    }
  }

  /** An occurrence is either at the front or one position further in the
      tail. */
  lemma OccursAtShift(hay: string, needle: string)
    ensures (exists i :: OccursAt(hay, needle, i)) <==>
            ((|needle| <= |hay| && hay[..|needle|] == needle)
             || (|hay| > 0 && exists j :: OccursAt(hay[1..], needle, j)))
  {
    if |needle| <= |hay| && hay[..|needle|] == needle {
      assert OccursAt(hay, needle, 0);
    }
    if |hay| > 0 {
      forall j | OccursAt(hay[1..], needle, j)
        ensures OccursAt(hay, needle, j + 1)
      {
        assert hay[j + 1..j + 1 + |needle|] == hay[1..][j..j + |needle|];
      }
    }
    forall i | OccursAt(hay, needle, i) && i > 0
      ensures OccursAt(hay[1..], needle, i - 1)
    {
      assert hay[1..][i - 1..i - 1 + |needle|] == hay[i..i + |needle|];
    }
  }

  /** The empty target is found in every name, as in Python. */
  lemma EmptyIsEverywhere(hay: string)
    ensures Contains(hay, "")
  {
  }
}
