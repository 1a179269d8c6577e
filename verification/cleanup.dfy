/**
  The name clean-up of the label normaliser as an ordered list of
  (pattern, replacement) steps, with the two versions of the list: the base
  chain and the extended chain that also drops machine annotations.
 */
module Cleanup {
  import opened Wrappers
  import opened Chars
  import opened Text
  import opened Patterns
  import opened Scan

  /** One link of a `.replace(...)` / `.trim()` chain. */
  datatype Step =
    | First(pat: Pattern, rep: string)   // .replace(/.../i, rep)
    | Global(pat: Pattern, rep: string)  // .replace(/.../g, rep)
    | TrimEnds                           // .trim()

  /** The base chain: code token, duration markers, whitespace collapse, trim. */
  const BaseChain: seq<Step> :=
    [First(CodeTokenAndSpace, ""), Global(HourMarker, ""), Global(SpaceRun, " "), TrimEnds]

  /** The extended chain: the base chain with the machine annotations removed before the collapse. */
  const ExtendedChain: seq<Step> :=
    [First(CodeTokenAndSpace, ""), Global(HourMarker, ""),
     Global(MachineCount, ""), Global(MachineRatio, ""),
     Global(SpaceRun, " "), TrimEnds]

  function Apply(step: Step, s: string): string {
    match step
    case First(pat, rep) => ReplaceFirst(pat, rep, s)
    case Global(pat, rep) => ReplaceAll(pat, rep, s)
    case TrimEnds => Trim(s)
  }

  /** The result of running `s` through the steps in order. */
  function Clean(steps: seq<Step>, s: string): string
    decreases |steps|
  {
    if steps == [] then s else Clean(steps[1..], Apply(steps[0], s))
  }

  /** A step whose replacement is never longer than what it replaces. */
  predicate Shrinking(step: Step) {
    step.TrimEnds? || |step.rep| <= MinWidth(step.pat)
  }

  /** A shrinking step never lengthens its input. */
  lemma ApplyShrinks(step: Step, s: string)
    requires Shrinking(step)
    ensures |Apply(step, s)| <= |s|
  {
    match step
    case First(pat, rep) =>
    case Global(pat, rep) =>
      var spans := Occurrences(pat, s, 0);
      ChainStarts(spans, 0, |s|);
      assert forall k :: 0 <= k < |spans| ==> |rep| <= spans[k].end - spans[k].start by {
        forall k | 0 <= k < |spans|
          ensures |rep| <= spans[k].end - spans[k].start
        {
          assert MatchEnd(pat, s, spans[k].start) == Some(spans[k].end);
        }
      }
    case TrimEnds =>
  }

  /** A chain of shrinking steps never lengthens its input. */
  lemma {:induction false} CleanShrinks(steps: seq<Step>, s: string)
    requires forall k :: 0 <= k < |steps| ==> Shrinking(steps[k])
    ensures |Clean(steps, s)| <= |s|
    decreases |steps|
  {
    if steps != [] {
      ApplyShrinks(steps[0], s);
      assert forall k :: 0 <= k < |steps[1..]| ==> Shrinking(steps[1..][k]) by {
        forall k | 0 <= k < |steps[1..]| ensures Shrinking(steps[1..][k]) {
          assert steps[1..][k] == steps[k + 1];
        }
      }
      CleanShrinks(steps[1..], Apply(steps[0], s));
    }
  }

  /** Running two chains one after the other is running their concatenation. */
  lemma {:induction false} CleanAppend(a: seq<Step>, b: seq<Step>, s: string)
    ensures Clean(a + b, s) == Clean(b, Clean(a, s))
    decreases |a|
  {
    if a != [] {
      assert (a + b)[0] == a[0];
      assert (a + b)[1..] == a[1..] + b;
      CleanAppend(a[1..], b, Apply(a[0], s));
    } else {
      assert a + b == b;
    }
  }

  /** A chain that ends with the whitespace collapse and the trim yields a tidy name. */
  lemma CleanTidy(steps: seq<Step>, s: string)
    requires |steps| >= 2 && steps[|steps| - 2..] == [Global(SpaceRun, " "), TrimEnds]
    ensures NoAdjacentSpace(Clean(steps, s)) && Trimmed(Clean(steps, s))
  {
    var n := |steps|;
    assert steps == steps[..n - 2] + [Global(SpaceRun, " "), TrimEnds];
    CleanAppend(steps[..n - 2], [Global(SpaceRun, " "), TrimEnds], s);
    var m := Clean(steps[..n - 2], s);
    var c := ReplaceAll(SpaceRun, " ", m);
    CollapseLeavesNoAdjacentSpace(m);
    assert Clean([Global(SpaceRun, " "), TrimEnds], m) == Trim(c);
    NoAdjacentSpaceSlice(c, SkipSpaces(c, 0), SkipSpaces(c, 0) + |Trim(c)|);
  }

  /**
    The cleaned name of either chain: no whitespace run of two or more, no
    leading or trailing whitespace, and never longer than the name.
   */
  lemma CleanedName(chain: seq<Step>, s: string)
    requires chain == BaseChain || chain == ExtendedChain
    ensures NoAdjacentSpace(Clean(chain, s)) && Trimmed(Clean(chain, s))
    ensures |Clean(chain, s)| <= |s|
  {
    ChainShape(chain);
    CleanTidy(chain, s);
    CleanShrinks(chain, s);
  }

  /** Both chains end with the collapse and the trim, and every step of them is shrinking. */
  lemma ChainShape(chain: seq<Step>)
    requires chain == BaseChain || chain == ExtendedChain
    ensures |chain| >= 2 && chain[|chain| - 2..] == [Global(SpaceRun, " "), TrimEnds]
    ensures forall k :: 0 <= k < |chain| ==> Shrinking(chain[k])
  {
  }

  /** The code-token pattern with and without its trailing whitespace match at the same places. */
  lemma SameFirstStart(s: string)
    ensures FirstMatch(CodeTokenAndSpace, s, 0).Some? <==> FirstMatch(CodeToken, s, 0).Some?
    ensures FirstMatch(CodeToken, s, 0).Some? ==>
              var sp := FirstMatch(CodeToken, s, 0).value;
              FirstMatch(CodeTokenAndSpace, s, 0) == Some(Span(sp.start, SkipSpaces(s, sp.end)))
  {
    match FirstMatch(CodeToken, s, 0)
    case Some(sp) =>
      forall q | 0 <= q < sp.start ensures MatchEnd(CodeTokenAndSpace, s, q).None? {
        assert MatchEnd(CodeToken, s, q).None?;
      }
      FirstMatchAt(CodeTokenAndSpace, s, 0, sp.start);
    case None =>
      forall q | 0 <= q < |s| ensures MatchEnd(CodeTokenAndSpace, s, q).None? {
        assert MatchEnd(CodeToken, s, q).None?;
      }
      NoMatchFrom(CodeTokenAndSpace, s, 0);
  }

  /**
    The first step deletes the leftmost study-code token and the whitespace
    after it, and nothing else; a name without a token passes unchanged.
   */
  lemma FirstCodeTokenRemoved(s: string)
    ensures FirstMatch(CodeToken, s, 0).None? ==> Apply(First(CodeTokenAndSpace, ""), s) == s
    ensures FirstMatch(CodeToken, s, 0).Some? ==>
              var sp := FirstMatch(CodeToken, s, 0).value;
              var k := SkipSpaces(s, sp.end);
              Apply(First(CodeTokenAndSpace, ""), s) == s[..sp.start] + s[k..] &&
              (k == |s| || !IsSpace(s[k]))
  {
    SameFirstStart(s);
  }

  /** A global removal whose pattern finds nothing leaves the text as it is. */
  lemma GlobalNoMatch(pat: Pattern, rep: string, s: string)
    requires forall q :: 0 <= q <= |s| ==> MatchEnd(pat, s, q).None?
    ensures Apply(Global(pat, rep), s) == s
  {
    assert FirstMatch(pat, s, 0).None?;
  }

  /**
    On a name whose intermediate text holds no machine annotation, the
    extended chain cleans exactly as the base chain does.
   */
  lemma ExtendedAgreesWithBase(s: string)
    requires var m := Clean(BaseChain[..2], s);
             forall q :: 0 <= q <= |m| ==> MatchEnd(MachineCount, m, q).None? && MatchEnd(MachineRatio, m, q).None?
    ensures Clean(ExtendedChain, s) == Clean(BaseChain, s)
  {
    var tail := [Global(SpaceRun, " "), TrimEnds];
    var m := Clean(BaseChain[..2], s);
    assert BaseChain == BaseChain[..2] + tail;
    assert ExtendedChain == BaseChain[..2] + ([Global(MachineCount, ""), Global(MachineRatio, "")] + tail);
    CleanAppend(BaseChain[..2], tail, s);
    CleanAppend(BaseChain[..2], [Global(MachineCount, ""), Global(MachineRatio, "")] + tail, s);
    GlobalNoMatch(MachineCount, "", m);
    GlobalNoMatch(MachineRatio, "", m);
  }

  /** A name that starts with a study-code token and its whitespace loses exactly those in the first step. */
  lemma LeadingTokenStep(t: string, d: nat, e: nat, f: nat)
    requires CodeTokenAndSpaceSpan(t, 0, d, e, f)
    ensures Apply(First(CodeTokenAndSpace, ""), t) == t[f..]
  {
    CodeTokenAndSpaceExact(t, 0, d, e, f);
    FirstMatchAt(CodeTokenAndSpace, t, 0, 0);
    assert t[..0] + "" + t[f..] == t[f..];
  }

  /** First step of the worked example: the code token and its space go. */
  lemma ExampleCodeStep()
    ensures Apply(First(CodeTokenAndSpace, ""), "ATR-7 24-HR Main St") == "24-HR Main St"
  {
    var t := "ATR-7 24-HR Main St";
    assert t[..6] == "ATR-7 " && t[6] == '2';
    SevenSpan(t);
    LeadingTokenStep(t, 5, 5, 6);
    assert t[6..] == "24-HR Main St";
  }

  /** A text that starts with "ATR-7", one space and a non-space has that token and space at 0. */
  lemma SevenSpan(t: string)
    requires |t| > 6 && t[..6] == "ATR-7 " && !IsSpace(t[6])
    ensures CodeTokenAndSpaceSpan(t, 0, 5, 5, 6)
  {
    assert t[0] == 'A' && t[1] == 'T' && t[2] == 'R' && t[3] == '-' && t[4] == '7' && t[5] == ' ' by {
      assert t[..6][0] == t[0];
    }
    assert HasAt(t, 0, "ATR");
  }

  /** A text that starts with "QUE-12A", one space and a non-space has that token and space at 0. */
  lemma TwelveASpan(t: string)
    requires |t| > 8 && t[..8] == "QUE-12A " && !IsSpace(t[8])
    ensures CodeTokenAndSpaceSpan(t, 0, 6, 7, 8)
  {
    assert t[0] == 'Q' && t[1] == 'U' && t[2] == 'E' && t[3] == '-' && t[4] == '1' && t[5] == '2' && t[6] == 'A' && t[7] == ' ' by {
      assert t[..8][0] == t[0];
    }
    assert HasAt(t, 0, "QUE");
  }

  /** Second step of the worked example: the duration marker goes. */
  lemma ExampleHourStep()
    ensures Apply(Global(HourMarker, ""), "24-HR Main St") == " Main St"
  {
    var u := "24-HR Main St";
    ExampleHourAt();
    ExampleHourNoneAfter();
    SingleOccurrence(HourMarker, "", u, 0);
    ExampleHourSplice();
  }

  /** The text after the duration marker of the worked example's second step. */
  lemma ExampleHourSplice()
    ensures var u := "24-HR Main St";
            u[..0] + "" + u[5..] == " Main St"
  {
    var u := "24-HR Main St";
    assert u[5..] == " Main St";
  }

  /** The duration marker of the worked example's second step. */
  lemma ExampleHourAt()
    ensures MatchEnd(HourMarker, "24-HR Main St", 0) == Some(5)
  {
    var u := "24-HR Main St";
    assert SkipDigitsUpTo(u, 2, 1) == 2;
    assert SkipDigitsUpTo(u, 1, 2) == 2;
    assert SkipDigitsUpTo(u, 0, 3) == 2;
  }

  /** No duration marker starts after the first one in the worked example's second step. */
  lemma ExampleHourNoneAfter()
    ensures forall q :: 5 <= q < 13 ==> MatchEnd(HourMarker, "24-HR Main St", q).None?
  {
    var u := "24-HR Main St";
    forall q | 5 <= q < |u| ensures MatchEnd(HourMarker, u, q).None? {
      assert !IsDigit(u[q]);
      assert SkipDigitsUpTo(u, q, 3) == q;
    }
  }

  /** Third and fourth steps of the worked example: nothing to collapse, then the trim. */
  lemma ExampleTidySteps()
    ensures Clean([Global(SpaceRun, " "), TrimEnds], " Main St") == "Main St"
  {
    var v := " Main St";
    assert forall k :: 0 <= k < |v| ==> (IsSpace(v[k]) <==> k == 0 || k == 5);
    forall q | 0 <= q < |v| ensures MatchEnd(SpaceRun, v, q).None? {
      assert !(q + 1 < |v| && IsSpace(v[q]) && IsSpace(v[q + 1]));
    }
    NoMatchFrom(SpaceRun, v, 0);
    assert Apply(Global(SpaceRun, " "), v) == v;
    assert SkipSpaces(v, 1) == 1;
    assert SkipSpaces(v, 0) == 1;
    assert TrailingSpaceStart(v, 1) == |v|;
    assert Trim(v) == "Main St";
  }

  /** The base chain on the worked example "ATR-7 24-HR Main St". */
  lemma BaseChainExample()
    ensures Clean(BaseChain, "ATR-7 24-HR Main St") == "Main St"
  {
    ExampleCodeStep();
    ExampleLaterSteps();
    assert BaseChain[0] == First(CodeTokenAndSpace, "");
  }

  /** The worked example after its first step. */
  lemma ExampleLaterSteps()
    ensures Clean(BaseChain[1..], "24-HR Main St") == "Main St"
  {
    var steps := BaseChain[1..];
    assert steps[0] == Global(HourMarker, "");
    assert steps[1..] == [Global(SpaceRun, " "), TrimEnds];
    ExampleHourStep();
    ExampleTidySteps();
  }

  /** First step of the extended example: the code token and its space go. */
  lemma ExtendedCodeStep()
    ensures Apply(First(CodeTokenAndSpace, ""), "ATR-7 (2 MACHINES) 24-HR Oak") == "(2 MACHINES) 24-HR Oak"
  {
    var t := "ATR-7 (2 MACHINES) 24-HR Oak";
    ExtendedCodeParts();
    SevenSpan(t);
    LeadingTokenStep(t, 5, 5, 6);
  }

  /** The pieces of the extended example's name around its token. */
  lemma ExtendedCodeParts()
    ensures var t := "ATR-7 (2 MACHINES) 24-HR Oak";
            t[..6] == "ATR-7 " && t[6] == '(' && t[6..] == "(2 MACHINES) 24-HR Oak"
  {
    var t := "ATR-7 (2 MACHINES) 24-HR Oak";
    assert t[..6] == "ATR-7 ";
    assert t[6..] == "(2 MACHINES) 24-HR Oak";
  }

  /**
    After the first step, a text without digits and already tidy passes the
    rest of the base chain unchanged: no duration marker, no whitespace run,
    nothing to trim.
   */
  lemma PlainTail(u: string)
    requires forall i :: 0 <= i < |u| ==> !IsDigit(u[i])
    requires NoAdjacentSpace(u) && Trimmed(u)
    ensures Clean(BaseChain[1..], u) == u
  {
    var steps := BaseChain[1..];
    assert steps[0] == Global(HourMarker, "");
    assert steps[1..] == [Global(SpaceRun, " "), TrimEnds];
    NoDigitsNoHourMarker(u);
    TidyFixed(u);
  }

  /** An already tidy text passes the collapse and the trim unchanged. */
  lemma TidyFixed(u: string)
    requires NoAdjacentSpace(u) && Trimmed(u)
    ensures Clean([Global(SpaceRun, " "), TrimEnds], u) == u
  {
    var trim := [TrimEnds];
    assert Clean(trim, u) == u by {
      TrimFixed(u);
      assert trim[1..] == [];
    }
    NoAdjacentSpaceNoRun(u);
    assert [Global(SpaceRun, " "), TrimEnds][1..] == trim;
  }

  /** A text without digits holds no duration marker, so the second step leaves it unchanged. */
  lemma NoDigitsNoHourMarker(u: string)
    requires forall i :: 0 <= i < |u| ==> !IsDigit(u[i])
    ensures Apply(Global(HourMarker, ""), u) == u
  {
    forall q | 0 <= q <= |u| ensures MatchEnd(HourMarker, u, q).None? {
      assert SkipDigitsUpTo(u, q, 3) == q;
    }
    GlobalNoMatch(HourMarker, "", u);
  }

  /** A text without adjacent whitespace holds no whitespace run, so the collapse leaves it unchanged. */
  lemma NoAdjacentSpaceNoRun(u: string)
    requires NoAdjacentSpace(u)
    ensures Apply(Global(SpaceRun, " "), u) == u
  {
    forall q | 0 <= q <= |u| ensures MatchEnd(SpaceRun, u, q).None? {
      if q + 1 < |u| {
        assert !(IsSpace(u[q]) && IsSpace(u[q + 1]));
      }
    }
    GlobalNoMatch(SpaceRun, " ", u);
  }

  /** The letter example "QUE-12A School Rd": the token, with its letter, and the space go. */
  lemma LetterChainExample()
    ensures Clean(BaseChain, "QUE-12A School Rd") == "School Rd"
  {
    LetterCodeStep();
    LetterRest();
    PlainTail("School Rd");
    assert BaseChain[0] == First(CodeTokenAndSpace, "");
  }

  /** First step of the letter example. */
  lemma LetterCodeStep()
    ensures Apply(First(CodeTokenAndSpace, ""), "QUE-12A School Rd") == "School Rd"
  {
    var t := "QUE-12A School Rd";
    LetterCodeParts();
    TwelveASpan(t);
    LeadingTokenStep(t, 6, 7, 8);
  }

  /** The pieces of the letter example's name around its token. */
  lemma LetterCodeParts()
    ensures var t := "QUE-12A School Rd";
            t[..8] == "QUE-12A " && t[8] == 'S' && t[8..] == "School Rd"
  {
    var t := "QUE-12A School Rd";
    assert t[..8] == "QUE-12A ";
    assert t[8..] == "School Rd";
  }

  /** What remains of the letter example has no digit and is already tidy. */
  lemma LetterRest()
    ensures var u := "School Rd";
            (forall i :: 0 <= i < |u| ==> !IsDigit(u[i])) && NoAdjacentSpace(u) && Trimmed(u)
  {
  }


  /** No duration marker starts before the one at 13 in the extended example's second step. */
  lemma ExtendedHourNoneBefore()
    ensures forall q :: 0 <= q < 13 ==> MatchEnd(HourMarker, "(2 MACHINES) 24-HR Oak", q).None?
  {
    var u := "(2 MACHINES) 24-HR Oak";
    forall q | 0 <= q < 13 ensures MatchEnd(HourMarker, u, q).None? {
      if q == 1 {
        assert SkipDigitsUpTo(u, 2, 2) == 2;
        assert SkipDigitsUpTo(u, 1, 3) == 2;
      } else {
        assert !IsDigit(u[q]);
        assert SkipDigitsUpTo(u, q, 3) == q;
      }
    }
  }

  /** No duration marker starts after the one at 13 in the extended example's second step. */
  lemma ExtendedHourNoneAfter()
    ensures forall q :: 18 <= q < 22 ==> MatchEnd(HourMarker, "(2 MACHINES) 24-HR Oak", q).None?
  {
    var u := "(2 MACHINES) 24-HR Oak";
    forall q | 18 <= q < 22 ensures MatchEnd(HourMarker, u, q).None? {
      assert !IsDigit(u[q]);
      assert SkipDigitsUpTo(u, q, 3) == q;
    }
  }

  /** Second step of the extended example: the duration marker goes, leaving two spaces. */
  lemma ExtendedHourStep()
    ensures Apply(Global(HourMarker, ""), "(2 MACHINES) 24-HR Oak") == "(2 MACHINES)  Oak"
  {
    var u := "(2 MACHINES) 24-HR Oak";
    ExtendedHourNoneBefore();
    ExtendedHourNoneAfter();
    ExtendedHourAt();
    SingleOccurrence(HourMarker, "", u, 13);
    ExtendedHourSplice();
  }

  /** The text around the duration marker of the extended example's second step. */
  lemma ExtendedHourSplice()
    ensures var u := "(2 MACHINES) 24-HR Oak";
            u[..13] + "" + u[18..] == "(2 MACHINES)  Oak"
  {
    var u := "(2 MACHINES) 24-HR Oak";
    assert u[..13] == "(2 MACHINES) ";
    assert u[18..] == " Oak";
  }

  /** The duration marker of the extended example's second step. */
  lemma ExtendedHourAt()
    ensures MatchEnd(HourMarker, "(2 MACHINES) 24-HR Oak", 13) == Some(18)
  {
    var u := "(2 MACHINES) 24-HR Oak";
    assert SkipDigitsUpTo(u, 15, 1) == 15;
    assert SkipDigitsUpTo(u, 14, 2) == 15;
    assert SkipDigitsUpTo(u, 13, 3) == 15;
  }

  /** Third step of the extended example: the machine count goes. */
  lemma ExtendedMachineCountStep()
    ensures Apply(Global(MachineCount, ""), "(2 MACHINES)  Oak") == "  Oak"
  {
    var u := "(2 MACHINES)  Oak";
    ExtendedMachineCountAt();
    ExtendedMachineCountNoneAfter();
    SingleOccurrence(MachineCount, "", u, 0);
    ExtendedMachineCountSplice();
  }

  /** The text after the machine count of the extended example's third step. */
  lemma ExtendedMachineCountSplice()
    ensures var u := "(2 MACHINES)  Oak";
            u[..0] + "" + u[12..] == "  Oak"
  {
    var u := "(2 MACHINES)  Oak";
    assert u[12..] == "  Oak";
  }

  /** No machine count starts after the first one in the extended example's third step. */
  lemma ExtendedMachineCountNoneAfter()
    ensures forall q :: 12 <= q < 17 ==> MatchEnd(MachineCount, "(2 MACHINES)  Oak", q).None?
  {
    var u := "(2 MACHINES)  Oak";
    forall q | 12 <= q < |u| ensures MatchEnd(MachineCount, u, q).None? {
      assert u[q] != '(';
    }
  }

  /** The machine count of the extended example's third step. */
  lemma ExtendedMachineCountAt()
    ensures MatchEnd(MachineCount, "(2 MACHINES)  Oak", 0) == Some(12)
  {
    var u := "(2 MACHINES)  Oak";
    assert SkipDigits(u, 2) == 2;
    assert SkipDigits(u, 1) == 2;
    assert SkipSpaces(u, 3) == 3;
    assert SkipSpaces(u, 2) == 3;
    assert HasAt(u, 3, "MACHINE");
  }

  /** The last three steps of the extended example: no ratio, one collapse, the trim. */
  lemma ExtendedTidySteps()
    ensures Clean([Global(MachineRatio, ""), Global(SpaceRun, " "), TrimEnds], "  Oak") == "Oak"
  {
    ExtendedRatioStep();
    ExtendedCollapseStep();
    ExtendedTrimStep();
  }

  /** The extended example holds no machine ratio. */
  lemma ExtendedRatioStep()
    ensures Apply(Global(MachineRatio, ""), "  Oak") == "  Oak"
  {
    var v := "  Oak";
    forall q | 0 <= q <= |v| ensures MatchEnd(MachineRatio, v, q).None? {
      assert q < |v| ==> v[q] != '(';
    }
    GlobalNoMatch(MachineRatio, "", v);
  }

  /** The collapse in the extended example: the two leading spaces become one. */
  lemma ExtendedCollapseStep()
    ensures Apply(Global(SpaceRun, " "), "  Oak") == " Oak"
  {
    var v := "  Oak";
    assert SkipSpaces(v, 2) == 2;
    assert SkipSpaces(v, 1) == 2;
    assert SkipSpaces(v, 0) == 2;
    assert MatchEnd(SpaceRun, v, 0) == Some(2);
    forall q | 2 <= q < |v| ensures MatchEnd(SpaceRun, v, q).None? {
      assert !IsSpace(v[q]);
    }
    SingleOccurrence(SpaceRun, " ", v, 0);
    assert v[2..] == "Oak";
    assert v[..0] + " " + "Oak" == " Oak";
  }

  /** The trim in the extended example. */
  lemma ExtendedTrimStep()
    ensures Trim(" Oak") == "Oak"
  {
    var w := " Oak";
    assert SkipSpaces(w, 1) == 1;
    assert SkipSpaces(w, 0) == 1;
    assert TrailingSpaceStart(w, 1) == |w|;
  }

  /** The machine removals and the tidy steps of the extended example. */
  lemma ExtendedLaterSteps()
    ensures Clean(ExtendedChain[2..], "(2 MACHINES)  Oak") == "Oak"
  {
    var steps := ExtendedChain[2..];
    assert steps[0] == Global(MachineCount, "");
    assert steps[1..] == [Global(MachineRatio, ""), Global(SpaceRun, " "), TrimEnds];
    ExtendedMachineCountStep();
    ExtendedTidySteps();
  }

  /** The extended chain on "ATR-7 (2 MACHINES) 24-HR Oak". */
  lemma ExtendedChainExample()
    ensures Clean(ExtendedChain, "ATR-7 (2 MACHINES) 24-HR Oak") == "Oak"
  {
    ExtendedCodeStep();
    ExtendedHourStep();
    ExtendedLaterSteps();
    assert Clean(ExtendedChain[1..], "(2 MACHINES) 24-HR Oak") == Clean(ExtendedChain[2..], "(2 MACHINES)  Oak");
  }
}
