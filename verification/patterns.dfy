/**
  The regular expressions of the label normaliser, each written out as a
  scanner: `MatchEnd(pat, s, p)` is the end of the match of `pat` that starts
  exactly at index `p` of `s`, or `None`.

  None of the patterns needs backtracking: every greedy run (`\d+`, `\s+`,
  `\d{1,3}`) is followed by a character that cannot belong to the run, so
  giving characters back never lets the rest of the pattern match. The
  greedy scanners below are therefore exact.
 */
module Patterns {
  import opened Wrappers
  import opened Chars
  import opened Text

  /** The patterns; all letters in them are compared without regard to case. */
  datatype Pattern =
    | CodeToken          // study code, dash, digits, optional letter; the digits and letter are the group
    | CodeTokenAndSpace  // the same, followed by any whitespace
    | HourMarker         // one to three digits and "-HR" between word boundaries
    | MachineCount       // "(", digits, whitespace, "MACHINE" or "MACHINES", ")"
    | MachineRatio       // "(", digits, "M", digits, ")"
    | SpaceRun           // two or more whitespace characters

  /** The length of the shortest text each pattern matches. */
  function MinWidth(pat: Pattern): nat {
    match pat
    case CodeToken => 5          // "ATR-7"
    case CodeTokenAndSpace => 5
    case HourMarker => 4         // "7-HR"
    case MachineCount => 11      // "(1 MACHINE)"
    case MachineRatio => 5       // "(1M2)"
    case SpaceRun => 2
  }

  /** `w` occurs at index `p` of `s`, letters compared as under the `i` flag. */
  predicate HasAt(s: string, p: nat, w: string) {
    p + |w| <= |s| && forall i :: 0 <= i < |w| ==> SameLetter(s[p + i], w[i])
  }

  /** `(?:ATR|TMC|P&B|QUE|ADT)` matches at `p`. */
  predicate StudyCodeAt(s: string, p: nat) {
    HasAt(s, p, "ATR") || HasAt(s, p, "TMC") || HasAt(s, p, "P&B") || HasAt(s, p, "QUE") || HasAt(s, p, "ADT")
  }

  predicate IsWordAt(s: string, i: int) {
    0 <= i < |s| && IsWordChar(s[i])
  }

  /** `\b` holds at index `i`. */
  predicate WordBoundary(s: string, i: int) {
    IsWordAt(s, i - 1) != IsWordAt(s, i)
  }

  /** The study-code token: code, `-`, digits, an optional letter. */
  function CodeTokenEnd(s: string, p: nat): (r: Option<nat>)
    ensures r.Some? ==> p + 5 <= r.value <= |s|
    ensures r.Some? ==> StudyCodeAt(s, p) && s[p + 3] == '-'
    ensures r.Some? ==> forall i :: p + 4 <= i < r.value - 1 ==> IsDigit(s[i])
    ensures r.Some? ==> IsDigit(s[r.value - 1]) || IsLetter(s[r.value - 1])
  {
    if p + 4 < |s| && StudyCodeAt(s, p) && s[p + 3] == '-' && IsDigit(s[p + 4]) then
      var d := SkipDigits(s, p + 4);
      Some(if d < |s| && IsLetter(s[d]) then d + 1 else d)
    else
      None
  }

  /**
    `s[p..e]` is a study-code token whose digits end at `d`: a study code, a
    dash, the whole run of digits that follows, and the letter after the
    digits when there is one.
   */
  ghost predicate CodeTokenSpan(s: string, p: nat, d: nat, e: nat) {
    p + 4 < d <= |s| && StudyCodeAt(s, p) && s[p + 3] == '-' &&
    (forall i :: p + 4 <= i < d ==> IsDigit(s[i])) &&
    (d == |s| || !IsDigit(s[d])) &&
    ((e == d + 1 && d < |s| && IsLetter(s[d])) || (e == d && (d == |s| || !IsLetter(s[d]))))
  }

  /**
    The scanner finds a token at `p` exactly when a study code, a dash and a
    digit start there, and it takes the whole token.
   */
  lemma CodeTokenExact(s: string, p: nat, d: nat, e: nat)
    ensures CodeTokenEnd(s, p).Some? <==> p + 4 < |s| && StudyCodeAt(s, p) && s[p + 3] == '-' && IsDigit(s[p + 4])
    ensures CodeTokenSpan(s, p, d, e) ==> CodeTokenEnd(s, p) == Some(e)
    ensures CodeTokenEnd(s, p) == Some(e) ==> CodeTokenSpan(s, p, SkipDigits(s, p + 4), e)
  {
    if CodeTokenSpan(s, p, d, e) {
      SkipDigitsTo(s, p + 4, d);
    }
  }

  /** `s[p..f]` is a study-code token ending at `e`, followed by the whole run of whitespace after it. */
  ghost predicate CodeTokenAndSpaceSpan(s: string, p: nat, d: nat, e: nat, f: nat) {
    CodeTokenSpan(s, p, d, e) && e <= f <= |s| &&
    (forall i :: e <= i < f ==> IsSpace(s[i])) &&
    (f == |s| || !IsSpace(s[f]))
  }

  /** The first step's pattern matches at `p` exactly a token and all the whitespace after it. */
  lemma CodeTokenAndSpaceExact(s: string, p: nat, d: nat, e: nat, f: nat)
    ensures CodeTokenAndSpaceSpan(s, p, d, e, f) ==> MatchEnd(CodeTokenAndSpace, s, p) == Some(f)
    ensures MatchEnd(CodeTokenAndSpace, s, p) == Some(f) ==>
              CodeTokenAndSpaceSpan(s, p, SkipDigits(s, p + 4), CodeTokenEnd(s, p).value, f)
  {
    if CodeTokenAndSpaceSpan(s, p, d, e, f) {
      CodeTokenExact(s, p, d, e);
      SkipSpacesTo(s, e, f);
    }
    if MatchEnd(CodeTokenAndSpace, s, p) == Some(f) {
      CodeTokenExact(s, p, d, CodeTokenEnd(s, p).value);
    }
  }

  /** A duration marker such as "24-HR", delimited by word boundaries. */
  function HourMarkerEnd(s: string, p: nat): (r: Option<nat>)
    ensures r.Some? ==> p + 4 <= r.value <= |s|
  {
    if p <= |s| && WordBoundary(s, p) then
      var d := SkipDigitsUpTo(s, p, 3);
      if p < d && d + 3 <= |s| && s[d] == '-' && SameLetter(s[d + 1], 'H') && SameLetter(s[d + 2], 'R')
         && WordBoundary(s, d + 3)
      then Some(d + 3)
      else None
    else
      None
  }

  /** `s[p..p + n + 3]` is a duration marker with `n` digits, with word boundaries on both sides. */
  ghost predicate HourMarkerSpan(s: string, p: nat, n: nat) {
    1 <= n <= 3 && p + n + 3 <= |s| && WordBoundary(s, p) &&
    (forall i :: p <= i < p + n ==> IsDigit(s[i])) &&
    s[p + n] == '-' && SameLetter(s[p + n + 1], 'H') && SameLetter(s[p + n + 2], 'R') &&
    WordBoundary(s, p + n + 3)
  }

  /** The scanner finds a duration marker at `p` exactly when there is one, and takes all of it. */
  lemma HourMarkerExact(s: string, p: nat, n: nat)
    ensures HourMarkerEnd(s, p) == Some(p + n + 3) <==> HourMarkerSpan(s, p, n)
  {
  }

  /** A machine-count annotation such as "(2 MACHINES)" or "(1 machine)". */
  function MachineCountEnd(s: string, p: nat): (r: Option<nat>)
    ensures r.Some? ==> p + 11 <= r.value <= |s|
  {
    if p + 1 < |s| && s[p] == '(' && IsDigit(s[p + 1]) then
      var d := SkipDigits(s, p + 1);
      if d < |s| && IsSpace(s[d]) then
        var w := SkipSpaces(s, d);
        if HasAt(s, w, "MACHINE") then
          var m := w + 7;
          if m + 1 < |s| && SameLetter(s[m], 'S') && s[m + 1] == ')' then Some(m + 2)
          else if m < |s| && s[m] == ')' then Some(m + 1)
          else None
        else None
      else None
    else
      None
  }

  /**
    `s[p..e]` is a machine-count annotation whose digits end at `d` and whose
    whitespace ends at `w`.
   */
  ghost predicate MachineCountSpan(s: string, p: nat, d: nat, w: nat, e: nat) {
    p + 1 < d < w && w + 8 <= e <= |s| && s[p] == '(' &&
    (forall i :: p < i < d ==> IsDigit(s[i])) &&
    (forall i :: d <= i < w ==> IsSpace(s[i])) &&
    HasAt(s, w, "MACHINE") &&
    ((e == w + 8 && s[w + 7] == ')') || (e == w + 9 && SameLetter(s[w + 7], 'S') && s[w + 8] == ')'))
  }

  /** The scanner finds a machine count at `p` exactly when there is one, and takes all of it. */
  lemma MachineCountExact(s: string, p: nat, d: nat, w: nat, e: nat)
    ensures MachineCountSpan(s, p, d, w, e) ==> MachineCountEnd(s, p) == Some(e)
    ensures MachineCountEnd(s, p) == Some(e) ==>
              var d' := SkipDigits(s, p + 1);
              MachineCountSpan(s, p, d', SkipSpaces(s, d'), e)
  {
    if MachineCountSpan(s, p, d, w, e) {
      SkipDigitsTo(s, p + 1, d);
      assert SameLetter(s[w + 0], "MACHINE"[0]);
      SkipSpacesTo(s, d, w);
    }
  }

  /** A machine-ratio annotation such as "(1M2)". */
  function MachineRatioEnd(s: string, p: nat): (r: Option<nat>)
    ensures r.Some? ==> p + 5 <= r.value <= |s|
  {
    if p + 1 < |s| && s[p] == '(' && IsDigit(s[p + 1]) then
      var d := SkipDigits(s, p + 1);
      if d + 1 < |s| && SameLetter(s[d], 'M') && IsDigit(s[d + 1]) then
        var e := SkipDigits(s, d + 1);
        if e < |s| && s[e] == ')' then Some(e + 1) else None
      else None
    else
      None
  }

  /** `s[p..e]` is a machine-ratio annotation whose first number ends at `d`. */
  ghost predicate MachineRatioSpan(s: string, p: nat, d: nat, e: nat) {
    p + 1 < d && d + 2 < e <= |s| && s[p] == '(' &&
    (forall i :: p < i < d ==> IsDigit(s[i])) &&
    SameLetter(s[d], 'M') &&
    (forall i :: d < i < e - 1 ==> IsDigit(s[i])) &&
    s[e - 1] == ')'
  }

  /** The scanner finds a machine ratio at `p` exactly when there is one, and takes all of it. */
  lemma MachineRatioExact(s: string, p: nat, d: nat, e: nat)
    ensures MachineRatioSpan(s, p, d, e) ==> MachineRatioEnd(s, p) == Some(e)
    ensures MachineRatioEnd(s, p) == Some(e) ==> MachineRatioSpan(s, p, SkipDigits(s, p + 1), e)
  {
  }

  /** A run of two or more whitespace characters, taken in full. */
  function SpaceRunEnd(s: string, p: nat): (r: Option<nat>)
    ensures r.Some? ==> p + 2 <= r.value <= |s|
    ensures r.Some? ==> forall i :: p <= i < r.value ==> IsSpace(s[i])
    ensures r.Some? ==> r.value == |s| || !IsSpace(s[r.value])
    ensures r.None? ==> !(p + 1 < |s| && IsSpace(s[p]) && IsSpace(s[p + 1]))
  {
    if p + 1 < |s| && IsSpace(s[p]) && IsSpace(s[p + 1]) then Some(SkipSpaces(s, p)) else None
  }

  /** The end of the match of `pat` that starts at index `p` of `s`. */
  function MatchEnd(pat: Pattern, s: string, p: nat): (r: Option<nat>)
    ensures r.Some? ==> p + MinWidth(pat) <= r.value <= |s|
  {
    match pat
    case CodeToken => CodeTokenEnd(s, p)
    case CodeTokenAndSpace =>
      (match CodeTokenEnd(s, p)
       case None => None
       case Some(e) => Some(SkipSpaces(s, e)))
    case HourMarker => HourMarkerEnd(s, p)
    case MachineCount => MachineCountEnd(s, p)
    case MachineRatio => MachineRatioEnd(s, p)
    case SpaceRun => SpaceRunEnd(s, p)
  }

  /** The patterns whose matches can never overlap one another. */
  predicate NonOverlapping(pat: Pattern) {
    pat == HourMarker || pat == MachineCount || pat == MachineRatio
  }

  /** No match of a non-overlapping pattern starts strictly inside another match of it. */
  lemma NoOverlap(pat: Pattern, s: string, p: nat, q: nat)
    requires NonOverlapping(pat)
    requires MatchEnd(pat, s, p).Some? && p < q < MatchEnd(pat, s, p).value
    ensures MatchEnd(pat, s, q).None?
  {
    match pat
    case HourMarker => HourMarkerNoOverlap(s, p, q);
    case MachineCount => MachineCountNoOverlap(s, p, q);
    case MachineRatio => MachineRatioNoOverlap(s, p, q);
  }

  /** Inside a duration marker no other one starts: a digit follows a word character, and `-HR` holds no digit. */
  lemma HourMarkerNoOverlap(s: string, p: nat, q: nat)
    requires HourMarkerEnd(s, p).Some? && p < q < HourMarkerEnd(s, p).value
    ensures HourMarkerEnd(s, q).None?
  {
    var d := SkipDigitsUpTo(s, p, 3);
    if q < d {
      assert IsWordAt(s, q - 1) && IsWordAt(s, q);
    } else {
      assert !IsDigit(s[q]);
      assert SkipDigitsUpTo(s, q, 3) == q;
    }
  }

  /** Inside a machine count no `(` occurs. */
  lemma MachineCountNoOverlap(s: string, p: nat, q: nat)
    requires MachineCountEnd(s, p).Some? && p < q < MachineCountEnd(s, p).value
    ensures MachineCountEnd(s, q).None?
  {
    var d := SkipDigits(s, p + 1);
    var w := SkipSpaces(s, d);
    if q < d {
      assert IsDigit(s[q]);
    } else if q < w {
      assert IsSpace(s[q]);
    } else if q < w + 7 {
      assert SameLetter(s[w + (q - w)], "MACHINE"[q - w]);
    }
  }

  /** Inside a machine ratio no `(` occurs. */
  lemma MachineRatioNoOverlap(s: string, p: nat, q: nat)
    requires MachineRatioEnd(s, p).Some? && p < q < MachineRatioEnd(s, p).value
    ensures MachineRatioEnd(s, q).None?
  {
    var d := SkipDigits(s, p + 1);
    var e := SkipDigits(s, d + 1);
    if q < d {
      assert IsDigit(s[q]);
    } else if d < q < e {
      assert IsDigit(s[q]);
    }
  }
}
