/**
  How `String.prototype.replace` applies a pattern: the leftmost match from a
  start index (what `RegExp.prototype.exec` finds), the successive matches a
  global pattern collects by resuming at the end of the previous one, and the
  splice that replaces the collected spans in one pass.
 */
module Scan {
  import opened Wrappers
  import opened Chars
  import opened Text
  import opened Patterns

  /** The half-open index range `[start, end)` of one match. */
  datatype Span = Span(start: nat, end: nat)

  /** Non-empty spans in increasing order, none before `from`, none past `n`. */
  ghost predicate Chain(spans: seq<Span>, from: nat, n: nat)
    decreases |spans|
  {
    spans == [] ||
    (from <= spans[0].start < spans[0].end <= n && Chain(spans[1..], spans[0].end, n))
  }

  /** Every span is a match of `pat` in `s`. */
  ghost predicate AllMatch(pat: Pattern, s: string, spans: seq<Span>) {
    forall k :: 0 <= k < |spans| ==> MatchEnd(pat, s, spans[k].start) == Some(spans[k].end)
  }

  /** Index `q` lies inside one of the spans. */
  ghost predicate Covered(spans: seq<Span>, q: nat) {
    exists k :: 0 <= k < |spans| && spans[k].start <= q < spans[k].end
  }

  /** `sp` is a match of `pat` in `s`, and no match starts from `p` up to it. */
  ghost predicate Leftmost(pat: Pattern, s: string, p: nat, sp: Span) {
    p <= sp.start && MatchEnd(pat, s, sp.start) == Some(sp.end) &&
    forall q :: p <= q < sp.start ==> MatchEnd(pat, s, q).None?
  }

  /** The leftmost match of `pat` in `s` that starts at or after `p`. */
  function FirstMatch(pat: Pattern, s: string, p: nat): (r: Option<Span>)
    requires p <= |s|
    ensures r.Some? ==> Leftmost(pat, s, p, r.value)
    ensures r.None? ==> forall q :: p <= q <= |s| ==> MatchEnd(pat, s, q).None?
    decreases |s| - p
  {
    match MatchEnd(pat, s, p)
    case Some(e) => Some(Span(p, e))
    case None => if p == |s| then None else FirstMatch(pat, s, p + 1)
  }

  /** The matches a global pattern collects from index `p` on. */
  function Occurrences(pat: Pattern, s: string, p: nat): (spans: seq<Span>)
    requires p <= |s|
    ensures Chain(spans, p, |s|)
    ensures AllMatch(pat, s, spans)
    decreases |s| - p
  {
    match FirstMatch(pat, s, p)
    case None => []
    case Some(sp) => [sp] + Occurrences(pat, s, sp.end)
  }

  /** Replaces every span by `rep`, keeping the text between the spans. */
  function Splice(s: string, spans: seq<Span>, rep: string, from: nat): (r: string)
    requires from <= |s| && Chain(spans, from, |s|)
    ensures (forall k :: 0 <= k < |spans| ==> |rep| <= spans[k].end - spans[k].start) ==> |r| <= |s| - from
    decreases |spans|
  {
    if spans == [] then s[from..]
    else s[from..spans[0].start] + rep + Splice(s, spans[1..], rep, spans[0].end)
  }

  /** `s.replace(pat, rep)` for a pattern without the `g` flag. */
  function ReplaceFirst(pat: Pattern, rep: string, s: string): string {
    match FirstMatch(pat, s, 0)
    case None => s
    case Some(sp) => s[..sp.start] + rep + s[sp.end..]
  }

  /** `s.replace(pat, rep)` for a pattern with the `g` flag. */
  function ReplaceAll(pat: Pattern, rep: string, s: string): string {
    Splice(s, Occurrences(pat, s, 0), rep, 0)
  }

  /** All spans of a chain start at or after its lower bound. */
  lemma {:induction false} ChainStarts(spans: seq<Span>, from: nat, n: nat)
    requires Chain(spans, from, n)
    ensures forall k :: 0 <= k < |spans| ==> from <= spans[k].start < spans[k].end <= n
    decreases |spans|
  {
    if spans != [] {
      ChainStarts(spans[1..], spans[0].end, n);
      forall k | 1 <= k < |spans|
        ensures from <= spans[k].start < spans[k].end <= n
      {
        assert spans[k] == spans[1..][k - 1];
      }
    }
  }

  /** Every match at or after `p` lies inside one of the collected spans. */
  lemma {:induction false} OccurrencesCover(pat: Pattern, s: string, p: nat, q: nat)
    requires p <= q < |s| && MatchEnd(pat, s, q).Some?
    ensures Covered(Occurrences(pat, s, p), q)
    decreases |s| - p
  {
    var spans := Occurrences(pat, s, p);
    match FirstMatch(pat, s, p)
    case None =>
      assert false;
    case Some(sp) =>
      assert spans[0] == sp;
      if q >= sp.end {
        OccurrencesCover(pat, s, sp.end, q);
        var rest := Occurrences(pat, s, sp.end);
        var k :| 0 <= k < |rest| && rest[k].start <= q < rest[k].end;
        assert spans[k + 1] == rest[k];
      }
  }

  /** A global replace of a non-overlapping pattern catches every one of its matches. */
  lemma EveryMatchCollected(pat: Pattern, s: string, q: nat)
    requires NonOverlapping(pat)
    requires q < |s| && MatchEnd(pat, s, q).Some?
    ensures Span(q, MatchEnd(pat, s, q).value) in Occurrences(pat, s, 0)
  {
    OccurrencesCover(pat, s, 0, q);
    CoveringSpan(pat, s, Occurrences(pat, s, 0), q);
  }

  /** A match that lies inside a span of matches of a non-overlapping pattern is that span. */
  lemma CoveringSpan(pat: Pattern, s: string, spans: seq<Span>, q: nat)
    requires NonOverlapping(pat)
    requires AllMatch(pat, s, spans) && Covered(spans, q)
    requires MatchEnd(pat, s, q).Some?
    ensures Span(q, MatchEnd(pat, s, q).value) in spans
  {
    var k :| 0 <= k < |spans| && spans[k].start <= q < spans[k].end;
    if spans[k].start < q {
      NoOverlap(pat, s, spans[k].start, q);
    }
  }

  /** A stretch of `s` where no whitespace run of length two starts has no adjacent whitespace. */
  lemma NoRunNoAdjacentSpace(s: string, lo: nat, hi: nat)
    requires lo <= hi <= |s|
    requires forall q :: lo <= q < hi ==> MatchEnd(SpaceRun, s, q).None?
    ensures NoAdjacentSpace(s[lo..hi])
  {
    var g := s[lo..hi];
    forall i, j | 0 <= i && j == i + 1 && j < |g|
      ensures !(IsSpace(g[i]) && IsSpace(g[j]))
    {
      assert g[i] == s[lo + i] && g[j] == s[lo + i + 1];
      assert MatchEnd(SpaceRun, s, lo + i).None?;
    }
  }

  /** Before the first collected span, no match starts. */
  lemma GapBeforeFirst(pat: Pattern, s: string, spans: seq<Span>, from: nat)
    requires from <= |s| && Chain(spans, from, |s|) && spans != []
    requires forall q :: from <= q < |s| && MatchEnd(pat, s, q).Some? ==> Covered(spans, q)
    ensures forall q :: from <= q < spans[0].start ==> MatchEnd(pat, s, q).None?
  {
    ChainStarts(spans, from, |s|);
    ChainStarts(spans[1..], spans[0].end, |s|);
  }

  /** After the first span, the remaining spans still cover every match. */
  lemma CoverAfterFirst(pat: Pattern, s: string, spans: seq<Span>, from: nat)
    requires from <= |s| && Chain(spans, from, |s|) && spans != []
    requires AllMatch(pat, s, spans)
    requires forall q :: from <= q < |s| && MatchEnd(pat, s, q).Some? ==> Covered(spans, q)
    ensures AllMatch(pat, s, spans[1..])
    ensures forall q :: spans[0].end <= q < |s| && MatchEnd(pat, s, q).Some? ==> Covered(spans[1..], q)
  {
    var rest := spans[1..];
    forall q | spans[0].end <= q < |s| && MatchEnd(pat, s, q).Some?
      ensures Covered(rest, q)
    {
      CoveredPastFirst(spans, q);
    }
    forall k | 0 <= k < |rest|
      ensures MatchEnd(pat, s, rest[k].start) == Some(rest[k].end)
    {
      assert rest[k] == spans[k + 1];
    }
  }

  /** An index past the first span that some span covers is covered by one of the others. */
  lemma CoveredPastFirst(spans: seq<Span>, q: nat)
    requires spans != [] && spans[0].end <= q && Covered(spans, q)
    ensures Covered(spans[1..], q)
  {
    var k :| 0 <= k < |spans| && spans[k].start <= q < spans[k].end;
    assert spans[k] == spans[1..][k - 1];
  }

  /** The text before the first whitespace run has no adjacent whitespace and does not end in whitespace. */
  lemma CollapseGap(s: string, spans: seq<Span>, from: nat)
    requires from <= |s| && Chain(spans, from, |s|) && spans != []
    requires MatchEnd(SpaceRun, s, spans[0].start) == Some(spans[0].end)
    requires forall q :: from <= q < spans[0].start ==> MatchEnd(SpaceRun, s, q).None?
    ensures var g := s[from..spans[0].start];
            NoAdjacentSpace(g) && (g != [] ==> !IsSpace(g[|g| - 1]))
    ensures from < |s| && !IsSpace(s[from]) ==> from < spans[0].start
  {
    var a := spans[0].start;
    NoRunNoAdjacentSpace(s, from, a);
    assert IsSpace(s[a]);
    var g := s[from..a];
    if g != [] {
      assert g[|g| - 1] == s[a - 1];
      assert MatchEnd(SpaceRun, s, a - 1).None?;
    }
  }

  /** Replacing whitespace runs by one space leaves no two whitespace characters side by side. */
  lemma {:induction false} CollapseSplice(s: string, spans: seq<Span>, from: nat)
    requires from <= |s| && Chain(spans, from, |s|)
    requires AllMatch(SpaceRun, s, spans)
    requires forall q :: from <= q < |s| && MatchEnd(SpaceRun, s, q).Some? ==> Covered(spans, q)
    ensures NoAdjacentSpace(Splice(s, spans, " ", from))
    ensures from < |s| && !IsSpace(s[from]) ==>
              |Splice(s, spans, " ", from)| > 0 && Splice(s, spans, " ", from)[0] == s[from]
    ensures from == |s| ==> Splice(s, spans, " ", from) == []
    decreases |spans|
  {
    if spans == [] {
      forall q | from <= q < |s| ensures MatchEnd(SpaceRun, s, q).None? {
        assert !Covered(spans, q);
      }
      NoRunNoAdjacentSpace(s, from, |s|);
      assert Splice(s, spans, " ", from) == s[from..|s|];
    } else {
      GapBeforeFirst(SpaceRun, s, spans, from);
      CoverAfterFirst(SpaceRun, s, spans, from);
      CollapseSplice(s, spans[1..], spans[0].end);
      CollapseStep(s, spans, from);
    }
  }

  /** One run collapsed: the gap before it, one space, and the already collapsed rest. */
  lemma CollapseStep(s: string, spans: seq<Span>, from: nat)
    requires from <= |s| && Chain(spans, from, |s|) && spans != []
    requires MatchEnd(SpaceRun, s, spans[0].start) == Some(spans[0].end)
    requires forall q :: from <= q < spans[0].start ==> MatchEnd(SpaceRun, s, q).None?
    requires var b, tail := spans[0].end, Splice(s, spans[1..], " ", spans[0].end);
             NoAdjacentSpace(tail) &&
             (b < |s| && !IsSpace(s[b]) ==> |tail| > 0 && tail[0] == s[b]) &&
             (b == |s| ==> tail == [])
    ensures NoAdjacentSpace(Splice(s, spans, " ", from))
    ensures from < |s| && !IsSpace(s[from]) ==>
              |Splice(s, spans, " ", from)| > 0 && Splice(s, spans, " ", from)[0] == s[from]
  {
    var a, b := spans[0].start, spans[0].end;
    CollapseGap(s, spans, from);
    var g := s[from..a];
    var tail := Splice(s, spans[1..], " ", b);
    assert b == |s| || !IsSpace(s[b]);
    JoinWithSpace(g, tail);
    assert Splice(s, spans, " ", from) == g + " " + tail;
  }

  /** Two pieces without adjacent whitespace, joined by one space that touches no other whitespace. */
  lemma JoinWithSpace(g: string, tail: string)
    requires NoAdjacentSpace(g) && (g != [] ==> !IsSpace(g[|g| - 1]))
    requires NoAdjacentSpace(tail) && (tail != [] ==> !IsSpace(tail[0]))
    ensures NoAdjacentSpace(g + " " + tail)
    ensures g != [] ==> (g + " " + tail)[0] == g[0]
  {
    NoAdjacentSpaceConcat(g, " ");
    NoAdjacentSpaceConcat(g + " ", tail);
  }

  /** `ReplaceAll(SpaceRun, " ", s)` leaves no two whitespace characters side by side. */
  lemma CollapseLeavesNoAdjacentSpace(s: string)
    ensures NoAdjacentSpace(ReplaceAll(SpaceRun, " ", s))
  {
    var spans := Occurrences(SpaceRun, s, 0);
    forall q | 0 <= q < |s| && MatchEnd(SpaceRun, s, q).Some?
      ensures Covered(spans, q)
    {
      OccurrencesCover(SpaceRun, s, 0, q);
    }
    CollapseSplice(s, spans, 0);
  }

  /** The leftmost match is the one at `i` when nothing matches between `p` and `i`. */
  lemma {:induction false} FirstMatchAt(pat: Pattern, s: string, p: nat, i: nat)
    requires p <= i <= |s| && MatchEnd(pat, s, i).Some?
    requires forall q :: p <= q < i ==> MatchEnd(pat, s, q).None?
    ensures FirstMatch(pat, s, p) == Some(Span(i, MatchEnd(pat, s, i).value))
  {
    var r := FirstMatch(pat, s, p);
    assert r.Some?;
    assert r.value.start == i;
  }

  /** Where nothing matches from `p` on, nothing is found and nothing is collected. */
  lemma NoMatchFrom(pat: Pattern, s: string, p: nat)
    requires p <= |s|
    requires forall q :: p <= q < |s| ==> MatchEnd(pat, s, q).None?
    ensures FirstMatch(pat, s, p).None? && Occurrences(pat, s, p) == []
  {
    assert MatchEnd(pat, s, |s|).None?;
  }

  /** A text with exactly one match, at `i`, has it replaced and nothing else. */
  lemma SingleOccurrence(pat: Pattern, rep: string, s: string, i: nat)
    requires i < |s| && MatchEnd(pat, s, i).Some?
    requires forall q :: 0 <= q < i ==> MatchEnd(pat, s, q).None?
    requires forall q :: MatchEnd(pat, s, i).value <= q < |s| ==> MatchEnd(pat, s, q).None?
    ensures var e := MatchEnd(pat, s, i).value;
            Occurrences(pat, s, 0) == [Span(i, e)] && ReplaceAll(pat, rep, s) == s[..i] + rep + s[e..]
  {
    var e := MatchEnd(pat, s, i).value;
    FirstMatchAt(pat, s, 0, i);
    NoMatchFrom(pat, s, e);
    assert Occurrences(pat, s, 0) == [Span(i, e)];
    assert Splice(s, [], rep, e) == s[e..];
  }
}
