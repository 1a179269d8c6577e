/**
  Runs of characters, `String.prototype.trim` and `String.prototype.padStart`
  on strings modelled as sequences of characters.
 */
module Text {
  import opened Chars

  /** End of the maximal run of digits that starts at `p` (greedy `\d*`). */
  function SkipDigits(s: string, p: nat): (e: nat)
    requires p <= |s|
    ensures p <= e <= |s|
    ensures forall i :: p <= i < e ==> IsDigit(s[i])
    ensures e == |s| || !IsDigit(s[e])
    decreases |s| - p
  {
    if p < |s| && IsDigit(s[p]) then SkipDigits(s, p + 1) else p
  }

  /** End of the greedy `\d{0,n}` that starts at `p`. */
  function SkipDigitsUpTo(s: string, p: nat, n: nat): (e: nat)
    requires p <= |s|
    ensures p <= e <= |s| && e <= p + n
    ensures forall i :: p <= i < e ==> IsDigit(s[i])
    ensures e == |s| || e == p + n || !IsDigit(s[e])
    decreases n
  {
    if n > 0 && p < |s| && IsDigit(s[p]) then SkipDigitsUpTo(s, p + 1, n - 1) else p
  }

  /** End of the maximal run of whitespace that starts at `p` (greedy `\s*`). */
  function SkipSpaces(s: string, p: nat): (e: nat)
    requires p <= |s|
    ensures p <= e <= |s|
    ensures forall i :: p <= i < e ==> IsSpace(s[i])
    ensures e == |s| || !IsSpace(s[e])
    decreases |s| - p
  {
    if p < |s| && IsSpace(s[p]) then SkipSpaces(s, p + 1) else p
  }

  /** A run of digits that stops before a non-digit or at the end of `s` is the one `SkipDigits` finds. */
  lemma {:induction false} SkipDigitsTo(s: string, p: nat, e: nat)
    requires p <= e <= |s|
    requires forall i :: p <= i < e ==> IsDigit(s[i])
    requires e == |s| || !IsDigit(s[e])
    ensures SkipDigits(s, p) == e
    decreases e - p
  {
    if p < e {
      SkipDigitsTo(s, p + 1, e);
    }
  }

  /** A run of whitespace that stops before another character or at the end of `s` is the one `SkipSpaces` finds. */
  lemma {:induction false} SkipSpacesTo(s: string, p: nat, e: nat)
    requires p <= e <= |s|
    requires forall i :: p <= i < e ==> IsSpace(s[i])
    requires e == |s| || !IsSpace(s[e])
    ensures SkipSpaces(s, p) == e
    decreases e - p
  {
    if p < e {
      SkipSpacesTo(s, p + 1, e);
    }
  }

  /** Index just after the last non-whitespace character at or after `lo`, or `lo`. */
  function TrailingSpaceStart(s: string, lo: nat): (b: nat)
    requires lo <= |s|
    ensures lo <= b <= |s|
    ensures forall i :: b <= i < |s| ==> IsSpace(s[i])
    ensures b == lo || !IsSpace(s[b - 1])
    decreases |s|
  {
    if |s| == lo || !IsSpace(s[|s| - 1]) then |s| else TrailingSpaceStart(s[..|s| - 1], lo)
  }

  /** No character of `s` is whitespace next to another whitespace character. */
  ghost predicate NoAdjacentSpace(s: string) {
    forall i, j | 0 <= i && j == i + 1 && j < |s| :: !(IsSpace(s[i]) && IsSpace(s[j]))
  }

  /** Neither leading nor trailing whitespace. */
  ghost predicate Trimmed(s: string) {
    s == [] || (!IsSpace(s[0]) && !IsSpace(s[|s| - 1]))
  }

  /** `s.trim()`: the part of `s` between its leading and its trailing whitespace. */
  function Trim(s: string): (r: string)
    ensures Trimmed(r)
    ensures |r| <= |s|
    ensures var a := SkipSpaces(s, 0);
              a + |r| <= |s| && r == s[a..a + |r|] &&
              (forall i :: a + |r| <= i < |s| ==> IsSpace(s[i]))
  {
    var a := SkipSpaces(s, 0);
    var b := TrailingSpaceStart(s, a);
    s[a..b]
  }

  /** A trimmed string is its own trim. */
  lemma TrimFixed(s: string)
    requires Trimmed(s)
    ensures Trim(s) == s
  {
    var a := SkipSpaces(s, 0);
    var b := TrailingSpaceStart(s, a);
    if s != [] {
      assert a == 0;
      assert b == |s|;
    }
  }

  /** A slice of a string without adjacent whitespace has none either. */
  lemma NoAdjacentSpaceSlice(s: string, a: nat, b: nat)
    requires a <= b <= |s|
    requires NoAdjacentSpace(s)
    ensures NoAdjacentSpace(s[a..b])
  {
    var t := s[a..b];
    forall i, j | 0 <= i && j == i + 1 && j < |t|
      ensures !(IsSpace(t[i]) && IsSpace(t[j]))
    {
      assert t[i] == s[a + i] && t[j] == s[a + i + 1];
    }
  }

  /** Gluing two strings without adjacent whitespace keeps that property if the seam is not two spaces. */
  lemma NoAdjacentSpaceConcat(x: string, y: string)
    requires NoAdjacentSpace(x) && NoAdjacentSpace(y)
    requires x == [] || y == [] || !IsSpace(x[|x| - 1]) || !IsSpace(y[0])
    ensures NoAdjacentSpace(x + y)
  {
    var t := x + y;
    forall i, j | 0 <= i && j == i + 1 && j < |t|
      ensures !(IsSpace(t[i]) && IsSpace(t[j]))
    {
      if j < |x| {
        assert t[i] == x[i] && t[j] == x[j];
      } else if i >= |x| {
        assert t[i] == y[i - |x|] && t[j] == y[j - |x|];
      } else {
        assert t[i] == x[|x| - 1] && t[j] == y[0];
      }
    }
  }

  /** `s.padStart(width, fill)` for a one-character fill string. */
  function PadStart(s: string, width: nat, fill: char): (r: string)
    ensures |r| == if |s| < width then width else |s|
    ensures r[|r| - |s|..] == s
    ensures forall i :: 0 <= i < |r| - |s| ==> r[i] == fill
    decreases width
  {
    if |s| >= width then s else [fill] + PadStart(s, width - 1, fill)
  }
}
