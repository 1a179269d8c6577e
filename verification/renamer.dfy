/**
  The placemark label normaliser: which names are rewritten, what they are
  rewritten to, and the loop that rewrites the names of a document in place
  and counts the rewrites.

  The document is abstracted as an array with one entry per placemark:
  `None` when the placemark has no name element, `Some(text)` with the
  name's text otherwise.
 */
module Renamer {
  import opened Wrappers
  import opened Chars
  import opened Text
  import opened Patterns
  import opened Scan
  import opened Cleanup

  /** The name already carries the project number, followed by a dash or a space. */
  predicate StartsWithProjectNumber(name: string, projectNumber: string) {
    projectNumber + "-" <= name || projectNumber + " " <= name
  }

  /** The names of unnamed shapes, which are never renamed. */
  predicate IsPlaceholder(name: string) {
    name == "Untitled Polygon" || name == "Untitled Path"
  }

  /** The location number: the captured group left-padded with '0' to three characters. */
  function LocationNumber(group: string): string {
    PadStart(group, 3, '0')
  }

  /** The new label: project number, dash, location number and, when there is one, the cleaned name. */
  function NewLabel(projectNumber: string, locationNumber: string, cleanedName: string): string {
    projectNumber + "-" + locationNumber + (if cleanedName != [] then " " + cleanedName else "")
  }

  /**
    The captured group `(\d+[A-Z]?)` of the leftmost study-code token, or
    `None` when the name has no such token.
   */
  function LocationGroup(name: string): Option<string> {
    match FirstMatch(CodeToken, name, 0)
    case None => None
    case Some(sp) => Some(name[sp.start + 4..sp.end])
  }

  /**
    The new label for a name node's text, or `None` when the placemark is
    skipped: a placeholder, a name that already carries the project number,
    or a name without a study-code token.
   */
  function Rename(text: string, projectNumber: string, chain: seq<Step>): Option<string> {
    var originalName := Trim(text);
    if IsPlaceholder(originalName) || StartsWithProjectNumber(originalName, projectNumber) then None
    else
      match LocationGroup(originalName)
      case None => None
      case Some(group) =>
        var locationNumber := LocationNumber(group);
        var cleanedName := Clean(chain, originalName);
        Some(NewLabel(projectNumber, locationNumber, cleanedName))
  }

  /** The name a placemark carries after the pass. */
  function RenameEntry(entry: Option<string>, projectNumber: string, chain: seq<Step>): Option<string> {
    match entry
    case None => None
    case Some(text) =>
      match Rename(text, projectNumber, chain)
      case None => entry
      case Some(newName) => Some(newName)
  }

  /** The pass counts this placemark. */
  predicate Rewrites(entry: Option<string>, projectNumber: string, chain: seq<Step>) {
    entry.Some? && Rename(entry.value, projectNumber, chain).Some?
  }

  /** The names of all placemarks after the pass. */
  function RenameAll(entries: seq<Option<string>>, projectNumber: string, chain: seq<Step>): (r: seq<Option<string>>)
    ensures |r| == |entries|
    ensures forall i :: 0 <= i < |entries| ==> r[i] == RenameEntry(entries[i], projectNumber, chain)
    decreases |entries|
  {
    if entries == [] then []
    else
      RenameAll(entries[..|entries| - 1], projectNumber, chain)
      + [RenameEntry(entries[|entries| - 1], projectNumber, chain)]
  }

  /** The number of placemarks the pass rewrites. */
  function CountRewritten(entries: seq<Option<string>>, projectNumber: string, chain: seq<Step>): nat
    decreases |entries|
  {
    if entries == [] then 0
    else
      CountRewritten(entries[..|entries| - 1], projectNumber, chain)
      + (if Rewrites(entries[|entries| - 1], projectNumber, chain) then 1 else 0)
  }
  /** Each placemark is renamed on its own: the pass over two parts of a document is the two passes joined. */
  lemma {:induction false} RenameAllAppend(a: seq<Option<string>>, b: seq<Option<string>>, projectNumber: string, chain: seq<Step>)
    ensures RenameAll(a + b, projectNumber, chain) == RenameAll(a, projectNumber, chain) + RenameAll(b, projectNumber, chain)
    decreases |b|
  {
    if b == [] {
      assert a + b == a;
    } else {
      var b', x := b[..|b| - 1], b[|b| - 1];
      var ab := a + b;
      assert ab[..|ab| - 1] == a + b' && ab[|ab| - 1] == x;
      calc {
        RenameAll(ab, projectNumber, chain);
        RenameAll(a + b', projectNumber, chain) + [RenameEntry(x, projectNumber, chain)];
        { RenameAllAppend(a, b', projectNumber, chain); }
        RenameAll(a, projectNumber, chain) + RenameAll(b', projectNumber, chain) + [RenameEntry(x, projectNumber, chain)];
        RenameAll(a, projectNumber, chain) + RenameAll(b, projectNumber, chain);
      }
    }
  }

  /** The count of two parts of a document is the sum of their counts. */
  lemma {:induction false} CountRewrittenAppend(a: seq<Option<string>>, b: seq<Option<string>>, projectNumber: string, chain: seq<Step>)
    ensures CountRewritten(a + b, projectNumber, chain) == CountRewritten(a, projectNumber, chain) + CountRewritten(b, projectNumber, chain)
    decreases |b|
  {
    if b == [] {
      assert a + b == a;
    } else {
      var b' := b[..|b| - 1];
      CountRewrittenAppend(a, b', projectNumber, chain);
      assert (a + b)[..|a + b| - 1] == a + b';
      assert (a + b)[|a + b| - 1] == b[|b| - 1];
    }
  }


  /**
    Rewrites the names of the placemarks in place and returns how many it
    rewrote. Placemarks without a name are skipped.
   */
  method RenamePushpins(names: array<Option<string>>, projectNumber: string, chain: seq<Step>)
    returns (renamedCount: nat)
    modifies names
    ensures names[..] == RenameAll(old(names[..]), projectNumber, chain)
    ensures renamedCount == CountRewritten(old(names[..]), projectNumber, chain)
  {
    ghost var original := names[..];
    ghost var renamed := RenameAll(original, projectNumber, chain);
    renamedCount := 0;
    var i := 0;
    while i < names.Length
      invariant 0 <= i <= names.Length
      invariant forall k :: 0 <= k < i ==> names[k] == renamed[k]
      invariant forall k :: i <= k < names.Length ==> names[k] == original[k]
      invariant renamedCount == CountRewritten(original[..i], projectNumber, chain)
    {
      CountRewrittenNext(original, i, projectNumber, chain);
      var counted := RenamePlacemark(names, i, projectNumber, chain);
      if counted {
        renamedCount := renamedCount + 1;
      }
      i := i + 1;
    }
    assert original[..i] == original;
  }

  /** Counting one more placemark adds one exactly when the pass rewrites it. */
  lemma CountRewrittenNext(entries: seq<Option<string>>, i: nat, projectNumber: string, chain: seq<Step>)
    requires i < |entries|
    ensures CountRewritten(entries[..i + 1], projectNumber, chain)
            == CountRewritten(entries[..i], projectNumber, chain) + (if Rewrites(entries[i], projectNumber, chain) then 1 else 0)
  {
    assert entries[..i + 1][..i] == entries[..i];
  }

  /** One turn of the loop: renames the placemark at `i` if it is eligible and says whether it did. */
  method RenamePlacemark(names: array<Option<string>>, i: nat, projectNumber: string, chain: seq<Step>)
    returns (renamed: bool)
    requires i < names.Length
    modifies names
    ensures names[i] == RenameEntry(old(names[i]), projectNumber, chain)
    ensures forall k :: 0 <= k < names.Length && k != i ==> names[k] == old(names[k])
    ensures renamed == Rewrites(old(names[i]), projectNumber, chain)
  {
    renamed := false;
    var nameNode := names[i];
    if nameNode.Some? {
      var newName := Rename(nameNode.value, projectNumber, chain);
      if newName.Some? {
        names[i] := newName;
        renamed := true;
      }
    }
  }

  // ---------------------------------------------------------------------
  // Which placemarks are rewritten

  /** A placeholder name is never rewritten, whatever the project number. */
  lemma PlaceholderNeverRenamed(text: string, projectNumber: string, chain: seq<Step>)
    requires Trim(text) == "Untitled Polygon" || Trim(text) == "Untitled Path"
    ensures Rename(text, projectNumber, chain).None?
  {
  }

  /** A name that already begins with the project number and a dash or space is never rewritten. */
  lemma NumberedNeverRenamed(text: string, projectNumber: string, chain: seq<Step>)
    requires projectNumber + "-" <= Trim(text) || projectNumber + " " <= Trim(text)
    ensures Rename(text, projectNumber, chain).None?
  {
  }

  /** The name holds a study-code token somewhere. */
  ghost predicate HasCodeToken(name: string) {
    exists q :: 0 <= q <= |name| && MatchEnd(CodeToken, name, q).Some?
  }

  /**
    A placemark's name is rewritten exactly when its trimmed text is not a
    placeholder, does not carry the project number yet, and holds a
    study-code token.
   */
  lemma RenameDecision(text: string, projectNumber: string, chain: seq<Step>)
    ensures Rename(text, projectNumber, chain).Some? <==>
              !IsPlaceholder(Trim(text)) && !StartsWithProjectNumber(Trim(text), projectNumber) &&
              HasCodeToken(Trim(text))
  {
    var t := Trim(text);
    var m := FirstMatch(CodeToken, t, 0);
    if m.Some? {
      assert MatchEnd(CodeToken, t, m.value.start).Some?;
    }
  }

  /** An empty or all-whitespace name is skipped. */
  lemma EmptyNameSkipped(text: string, projectNumber: string, chain: seq<Step>)
    requires forall i :: 0 <= i < |text| ==> IsSpace(text[i])
    ensures Rename(text, projectNumber, chain).None?
  {
    assert Trim(text) == [];
    RenameDecision(text, projectNumber, chain);
  }

  // ---------------------------------------------------------------------
  // The location number

  /** A group: digits, possibly ending in one letter. */
  ghost predicate IsGroup(g: string) {
    |g| >= 1 && IsDigit(g[0]) &&
    (forall j :: 0 <= j < |g| - 1 ==> IsDigit(g[j])) &&
    (IsDigit(g[|g| - 1]) || IsLetter(g[|g| - 1]))
  }

  /**
    The group is the one of the leftmost study-code token: it follows the code
    and the dash, consists of digits and possibly one final letter.
   */
  lemma LocationGroupShape(name: string)
    ensures LocationGroup(name).Some? ==>
              GroupAt(name, FirstMatch(CodeToken, name, 0).value.start, LocationGroup(name).value)
  {
    if LocationGroup(name).Some? {
      var sp := FirstMatch(CodeToken, name, 0).value;
      var g := LocationGroup(name).value;
      assert g == name[sp.start + 4..sp.end];
      TokenGroupShape(name, sp.start, sp.end);
      assert GroupAt(name, sp.start, g);
    }
  }

  /**
    `g` is the group of a token at `i` with no token before it: the token's
    digits after the code and dash, and the letter that follows them if any.
   */
  ghost predicate GroupAt(name: string, i: nat, g: string) {
    i + 4 <= |name| && CodeTokenSpan(name, i, SkipDigits(name, i + 4), i + 4 + |g|) &&
    (forall q :: 0 <= q < i ==> MatchEnd(CodeToken, name, q).None?) &&
    name[i + 4..i + 4 + |g|] == g &&
    IsGroup(g)
  }

  /** A name that starts with a study-code token has that token's digits and letter as its group. */
  lemma LeadingGroup(name: string, d: nat, e: nat)
    requires CodeTokenSpan(name, 0, d, e)
    ensures LocationGroup(name) == Some(name[4..e])
  {
    CodeTokenExact(name, 0, d, e);
    FirstMatchAt(CodeToken, name, 0, 0);
  }

  /** A name has a group exactly when it holds a study-code token. */
  lemma LocationGroupFound(name: string)
    ensures LocationGroup(name).Some? <==> HasCodeToken(name)
  {
    match FirstMatch(CodeToken, name, 0)
    case Some(sp) =>
      assert MatchEnd(CodeToken, name, sp.start).Some?;
    case None =>
  }

  /** The group of a token that spans `name[i..e]`: its digits and possibly one following letter. */
  lemma TokenGroupShape(name: string, i: nat, e: nat)
    requires MatchEnd(CodeToken, name, i) == Some(e)
    ensures CodeTokenSpan(name, i, SkipDigits(name, i + 4), e)
    ensures IsGroup(name[i + 4..e])
  {
    CodeTokenExact(name, i, 0, e);
    var g := name[i + 4..e];
    forall j | 0 <= j < |g| - 1 ensures IsDigit(g[j]) {
      assert g[j] == name[i + 4 + j];
    }
    assert g[|g| - 1] == name[e - 1];
  }

  /**
    The location number is the group left-padded with '0': as long as the
    group or three characters, whichever is more, ending with the group.
   */
  lemma LocationNumberShape(group: string)
    ensures |LocationNumber(group)| == if |group| < 3 then 3 else |group|
    ensures LocationNumber(group)[|LocationNumber(group)| - |group|..] == group
    ensures forall i :: 0 <= i < |LocationNumber(group)| - |group| ==> LocationNumber(group)[i] == '0'
  {
  }

  /** The padding of the location numbers from the worked examples. */
  lemma LocationNumberExamples()
    ensures LocationNumber("7") == "007"
    ensures LocationNumber("42") == "042"
    ensures LocationNumber("123") == "123"
    ensures LocationNumber("12A") == "12A"
    ensures LocationNumber("7A") == "07A"
  {
    assert PadStart("7", 1, '0') == "7";
    assert PadStart("7", 2, '0') == "07";
    assert PadStart("42", 2, '0') == "42";
    assert PadStart("7A", 2, '0') == "7A";
  }

  // ---------------------------------------------------------------------
  // The new label

  /**
    `l` reads as the project number, a dash and the location number, followed
    by a space and the cleaned name exactly when the cleaned name is not empty.
   */
  ghost predicate LabelLayout(l: string, projectNumber: string, locationNumber: string, cleanedName: string) {
    var n := |projectNumber| + 1 + |locationNumber|;
    n <= |l| && l[..n] == projectNumber + "-" + locationNumber &&
    (cleanedName == [] <==> |l| == n) &&
    (cleanedName != [] ==> l[n] == ' ' && l[n + 1..] == cleanedName)
  }

  /** A new label has the layout of its project number, the leftmost token's location number and the cleaned name. */
  lemma LabelShape(text: string, projectNumber: string, chain: seq<Step>, newName: string)
    requires Rename(text, projectNumber, chain) == Some(newName)
    ensures LocationGroup(Trim(text)).Some?
    ensures LabelLayout(newName, projectNumber, LocationNumber(LocationGroup(Trim(text)).value), Clean(chain, Trim(text)))
  {
    RenameParts(text, projectNumber, chain, newName);
    LabelParts(projectNumber, LocationNumber(LocationGroup(Trim(text)).value), Clean(chain, Trim(text)));
  }

  /** Every label has the layout of the pieces it is built from. */
  lemma LabelParts(projectNumber: string, locationNumber: string, cleanedName: string)
    ensures LabelLayout(NewLabel(projectNumber, locationNumber, cleanedName), projectNumber, locationNumber, cleanedName)
  {
    var l := NewLabel(projectNumber, locationNumber, cleanedName);
    var n := |projectNumber| + 1 + |locationNumber|;
    assert l[..n] == projectNumber + "-" + locationNumber;
    if cleanedName != [] {
      assert l[n + 1..] == cleanedName;
    }
  }

  /** The group of the worked example's name. */
  lemma ExampleGroup()
    ensures LocationGroup("ATR-7 24-HR Main St") == Some("7")
  {
    var t := "ATR-7 24-HR Main St";
    assert t[..6] == "ATR-7 " && t[6] == '2';
    SevenSpan(t);
    LeadingGroup(t, 5, 5);
    assert t[4..5] == "7";
  }

  /** The worked example: "ATR-7 24-HR Main St" under project "25-260108". */
  lemma WorkedExample()
    ensures Rename("ATR-7 24-HR Main St", "25-260108", BaseChain) == Some("25-260108-007 Main St")
  {
    ExampleRename();
    ExampleLabel();
  }

  /** The worked example's label, in terms of its parts. */
  lemma ExampleRename()
    ensures Rename("ATR-7 24-HR Main St", "25-260108", BaseChain) == Some(NewLabel("25-260108", "007", "Main St"))
  {
    var t := "ATR-7 24-HR Main St";
    ExampleEligible();
    ExampleGroup();
    LocationNumberExamples();
    BaseChainExample();
    EligibleRename(t, "25-260108", BaseChain, "7", "Main St");
  }

  /** The worked example's name is trimmed, not a placeholder and not yet numbered. */
  lemma ExampleEligible()
    ensures var t := "ATR-7 24-HR Main St";
            Trim(t) == t && !IsPlaceholder(t) && !StartsWithProjectNumber(t, "25-260108")
  {
    var t := "ATR-7 24-HR Main St";
    TrimFixed(t);
    assert !StartsWithProjectNumber(t, "25-260108") by {
      assert t[0] != "25-260108-"[0];
    }
  }

  /** The worked example under the extended chain: "ATR-7 (2 MACHINES) 24-HR Oak". */
  lemma ExtendedWorkedExample()
    ensures Rename("ATR-7 (2 MACHINES) 24-HR Oak", "25-260108", ExtendedChain) == Some("25-260108-007 Oak")
  {
    var t := "ATR-7 (2 MACHINES) 24-HR Oak";
    ExtendedEligible();
    ExtendedGroup();
    LocationNumberExamples();
    ExtendedChainExample();
    EligibleRename(t, "25-260108", ExtendedChain, "7", "Oak");
    ExtendedLabel();
  }

  /** The extended example's name is trimmed, not a placeholder and not yet numbered. */
  lemma ExtendedEligible()
    ensures var t := "ATR-7 (2 MACHINES) 24-HR Oak";
            Trim(t) == t && !IsPlaceholder(t) && !StartsWithProjectNumber(t, "25-260108")
  {
    var t := "ATR-7 (2 MACHINES) 24-HR Oak";
    TrimFixed(t);
    assert !StartsWithProjectNumber(t, "25-260108") by {
      assert t[0] != "25-260108-"[0];
    }
  }

  /** The group of the extended example's name. */
  lemma ExtendedGroup()
    ensures LocationGroup("ATR-7 (2 MACHINES) 24-HR Oak") == Some("7")
  {
    var t := "ATR-7 (2 MACHINES) 24-HR Oak";
    ExtendedCodeParts();
    SevenSpan(t);
    LeadingGroup(t, 5, 5);
    assert t[4..5] == "7";
  }

  /** The letter example: "QUE-12A School Rd" keeps its letter in the location number. */
  lemma LetterWorkedExample()
    ensures Rename("QUE-12A School Rd", "25-260108", BaseChain) == Some("25-260108-12A School Rd")
  {
    var t := "QUE-12A School Rd";
    LetterEligible();
    LetterGroup();
    LocationNumberExamples();
    LetterChainExample();
    EligibleRename(t, "25-260108", BaseChain, "12A", "School Rd");
    LetterLabel();
  }

  /** The letter example's name is trimmed, not a placeholder and not yet numbered. */
  lemma LetterEligible()
    ensures var t := "QUE-12A School Rd";
            Trim(t) == t && !IsPlaceholder(t) && !StartsWithProjectNumber(t, "25-260108")
  {
    var t := "QUE-12A School Rd";
    TrimFixed(t);
    assert !StartsWithProjectNumber(t, "25-260108") by {
      assert t[0] != "25-260108-"[0];
    }
  }

  /** The group of the letter example's name is the digits with their letter. */
  lemma LetterGroup()
    ensures LocationGroup("QUE-12A School Rd") == Some("12A")
  {
    var t := "QUE-12A School Rd";
    LetterCodeParts();
    TwelveASpan(t);
    LeadingGroup(t, 6, 7);
    assert t[4..7] == "12A";
  }

  /** The label text of the letter example. */
  lemma LetterLabel()
    ensures NewLabel("25-260108", "12A", "School Rd") == "25-260108-12A School Rd"
  {
  }

  /** The label text of the extended example. */
  lemma ExtendedLabel()
    ensures NewLabel("25-260108", "007", "Oak") == "25-260108-007 Oak"
  {
  }

  /**
    A document with the worked example, a placeholder, an already numbered
    name and a placemark without a name: only the first is rewritten.
   */
  lemma DocumentExample()
    ensures var doc := [Some("ATR-7 24-HR Main St"), Some("Untitled Polygon"), Some("25-260108-003 Already Done"), None];
            var after := RenameAll(doc, "25-260108", BaseChain);
            after[0] == Some("25-260108-007 Main St") && after[1] == doc[1] && after[2] == doc[2] && after[3] == None &&
            CountRewritten(doc, "25-260108", BaseChain) == 1
  {
    var a, b, c := Some("ATR-7 24-HR Main St"), Some("Untitled Polygon"), Some("25-260108-003 Already Done");
    WorkedExample();
    DocumentSkips();
    CountOfFour(a, b, c, None, "25-260108", BaseChain);
  }

  /** The placeholder and the numbered name of the document example are skipped. */
  lemma DocumentSkips()
    ensures Rename("Untitled Polygon", "25-260108", BaseChain).None?
    ensures Rename("25-260108-003 Already Done", "25-260108", BaseChain).None?
  {
    TrimFixed("Untitled Polygon");
    PlaceholderNeverRenamed("Untitled Polygon", "25-260108", BaseChain);
    var done := "25-260108-003 Already Done";
    TrimFixed(done);
    assert done[..10] == "25-260108-";
    NumberedNeverRenamed(done, "25-260108", BaseChain);
  }

  /** A placeholder path is skipped. */
  lemma PathSkipped()
    ensures Rename("Untitled Path", "25-260108", BaseChain).None?
  {
    TrimFixed("Untitled Path");
    PlaceholderNeverRenamed("Untitled Path", "25-260108", BaseChain);
  }

  /**
    A document with the worked example, the letter example, a placeholder and
    a placemark without a name: the first two are rewritten.
   */
  lemma LetterDocumentExample()
    ensures var doc := [Some("ATR-7 24-HR Main St"), Some("QUE-12A School Rd"), Some("Untitled Path"), None];
            var after := RenameAll(doc, "25-260108", BaseChain);
            after[0] == Some("25-260108-007 Main St") && after[1] == Some("25-260108-12A School Rd") &&
            after[2] == doc[2] && after[3] == None &&
            CountRewritten(doc, "25-260108", BaseChain) == 2
  {
    var a, b, c := Some("ATR-7 24-HR Main St"), Some("QUE-12A School Rd"), Some("Untitled Path");
    WorkedExample();
    LetterWorkedExample();
    PathSkipped();
    CountOfFour(a, b, c, None, "25-260108", BaseChain);
  }

  /** The count of a four-placemark document, placemark by placemark. */
  lemma CountOfFour(a: Option<string>, b: Option<string>, c: Option<string>, d: Option<string>,
                    projectNumber: string, chain: seq<Step>)
    ensures CountRewritten([a, b, c, d], projectNumber, chain)
            == (if Rewrites(a, projectNumber, chain) then 1 else 0) + (if Rewrites(b, projectNumber, chain) then 1 else 0)
             + (if Rewrites(c, projectNumber, chain) then 1 else 0) + (if Rewrites(d, projectNumber, chain) then 1 else 0)
  {
    var doc := [a, b, c, d];
    var one := (x: Option<string>) => if Rewrites(x, projectNumber, chain) then 1 else 0;
    assert doc[..3] == [a, b, c] && [a, b, c][..2] == [a, b] && [a, b][..1] == [a] && [a][..0] == [];
    assert CountRewritten([a], projectNumber, chain) == one(a);
    assert CountRewritten([a, b], projectNumber, chain) == one(a) + one(b);
    assert CountRewritten([a, b, c], projectNumber, chain) == one(a) + one(b) + one(c);
  }

  /** The label of an eligible name, from its group and its cleaned name. */
  lemma EligibleRename(text: string, projectNumber: string, chain: seq<Step>, group: string, cleaned: string)
    requires !IsPlaceholder(Trim(text)) && !StartsWithProjectNumber(Trim(text), projectNumber)
    requires LocationGroup(Trim(text)) == Some(group) && Clean(chain, Trim(text)) == cleaned
    ensures Rename(text, projectNumber, chain) == Some(NewLabel(projectNumber, LocationNumber(group), cleaned))
  {
  }

  /** The label text of the worked example. */
  lemma ExampleLabel()
    ensures NewLabel("25-260108", "007", "Main St") == "25-260108-007 Main St"
  {
  }

  // ---------------------------------------------------------------------
  // Running the pass again

  /**
    A label built from a trimmed project number, a location number ending in
    a non-space and a trimmed cleaned name has no outer whitespace and begins
    with the project number and a dash.
   */
  lemma LabelTrimmed(projectNumber: string, locationNumber: string, cleanedName: string)
    requires Trimmed(projectNumber) && Trimmed(cleanedName)
    requires locationNumber != [] && !IsSpace(locationNumber[|locationNumber| - 1])
    ensures var l := NewLabel(projectNumber, locationNumber, cleanedName);
            Trim(l) == l && projectNumber + "-" <= l
  {
    var l := NewLabel(projectNumber, locationNumber, cleanedName);
    assert l[0] == if projectNumber != [] then projectNumber[0] else '-';
    if cleanedName != [] {
      assert l[|l| - 1] == cleanedName[|cleanedName| - 1];
    } else {
      assert l[|l| - 1] == locationNumber[|locationNumber| - 1];
    }
    TrimFixed(l);
    assert l[..|projectNumber| + 1] == projectNumber + "-";
  }

  /** The group of a name ends with a digit or a letter, never with whitespace. */
  lemma GroupEndsInWordChar(name: string)
    requires LocationGroup(name).Some?
    ensures var g := LocationGroup(name).value;
            g != [] && (IsDigit(g[|g| - 1]) || IsLetter(g[|g| - 1])) && !IsSpace(g[|g| - 1])
  {
    var sp := FirstMatch(CodeToken, name, 0).value;
    assert LocationGroup(name).value == name[sp.start + 4..sp.end];
    TokenGroupShape(name, sp.start, sp.end);
  }

  /** A location number ends with the last character of its group. */
  lemma LocationNumberLast(group: string)
    requires group != []
    ensures LocationNumber(group) != []
    ensures LocationNumber(group)[|LocationNumber(group)| - 1] == group[|group| - 1]
  {
    LocationNumberShape(group);
    var loc := LocationNumber(group);
    assert loc[|loc| - 1] == loc[|loc| - |group|..][|group| - 1];
  }

  /** The parts a rewritten label is built from. */
  lemma RenameParts(text: string, projectNumber: string, chain: seq<Step>, newName: string)
    requires Rename(text, projectNumber, chain) == Some(newName)
    ensures LocationGroup(Trim(text)).Some?
    ensures newName == NewLabel(projectNumber, LocationNumber(LocationGroup(Trim(text)).value), Clean(chain, Trim(text)))
  {
  }

  /**
    A rewritten label is left alone by a second pass: it has no outer
    whitespace and begins with the project number and a dash. The project
    number must itself be trimmed, as the form handler supplies it.
   */
  lemma RenameTwice(text: string, projectNumber: string, chain: seq<Step>, newName: string)
    requires Trimmed(projectNumber)
    requires chain == BaseChain || chain == ExtendedChain
    requires Rename(text, projectNumber, chain) == Some(newName)
    ensures Trim(newName) == newName && StartsWithProjectNumber(newName, projectNumber)
    ensures Rename(newName, projectNumber, chain).None?
  {
    RenameParts(text, projectNumber, chain, newName);
    LabelSkipped(Trim(text), projectNumber, chain, newName);
  }

  /** The label built for a name with a study-code token is skipped when met again. */
  lemma LabelSkipped(name: string, projectNumber: string, chain: seq<Step>, newName: string)
    requires Trimmed(projectNumber)
    requires chain == BaseChain || chain == ExtendedChain
    requires LocationGroup(name).Some?
    requires newName == NewLabel(projectNumber, LocationNumber(LocationGroup(name).value), Clean(chain, name))
    ensures Trim(newName) == newName && StartsWithProjectNumber(newName, projectNumber)
    ensures Rename(newName, projectNumber, chain).None?
  {
    var group := LocationGroup(name).value;
    var loc := LocationNumber(group);
    var cleaned := Clean(chain, name);
    assert loc != [] && !IsSpace(loc[|loc| - 1]) by {
      GroupEndsInWordChar(name);
      LocationNumberLast(group);
    }
    assert Trimmed(cleaned) by {
      CleanedName(chain, name);
    }
    assert Trim(newName) == newName && projectNumber + "-" <= newName by {
      LabelTrimmed(projectNumber, loc, cleaned);
    }
    NumberedNeverRenamed(newName, projectNumber, chain);
  }

  /** A rewrite always changes the name. */
  lemma RenameChanges(text: string, projectNumber: string, chain: seq<Step>, newName: string)
    requires Trimmed(projectNumber)
    requires chain == BaseChain || chain == ExtendedChain
    requires Rename(text, projectNumber, chain) == Some(newName)
    ensures newName != text
  {
    RenameTwice(text, projectNumber, chain, newName);
  }

  /** A placemark the pass does not count keeps its name exactly, surrounding whitespace included. */
  lemma SkippedUnchanged(entry: Option<string>, projectNumber: string, chain: seq<Step>)
    ensures !Rewrites(entry, projectNumber, chain) ==> RenameEntry(entry, projectNumber, chain) == entry
  {
  }

  /** The pass counts a placemark exactly when it changes its name. */
  lemma RewritesIffChanged(entry: Option<string>, projectNumber: string, chain: seq<Step>)
    requires Trimmed(projectNumber)
    requires chain == BaseChain || chain == ExtendedChain
    ensures Rewrites(entry, projectNumber, chain) <==> RenameEntry(entry, projectNumber, chain) != entry
  {
    if entry.Some? {
      var r := Rename(entry.value, projectNumber, chain);
      if r.Some? {
        RenameChanges(entry.value, projectNumber, chain, r.value);
      }
    }
  }

  /** Renaming a placemark twice is renaming it once. */
  lemma RenameEntryIdempotent(entry: Option<string>, projectNumber: string, chain: seq<Step>)
    requires Trimmed(projectNumber)
    requires chain == BaseChain || chain == ExtendedChain
    ensures RenameEntry(RenameEntry(entry, projectNumber, chain), projectNumber, chain)
            == RenameEntry(entry, projectNumber, chain)
    ensures !Rewrites(RenameEntry(entry, projectNumber, chain), projectNumber, chain)
  {
    if entry.Some? {
      var r := Rename(entry.value, projectNumber, chain);
      if r.Some? {
        RenameTwice(entry.value, projectNumber, chain, r.value);
      }
    }
  }

  /** A second pass over a document changes no name. */
  lemma SecondPassUnchanged(entries: seq<Option<string>>, projectNumber: string, chain: seq<Step>)
    requires Trimmed(projectNumber)
    requires chain == BaseChain || chain == ExtendedChain
    ensures RenameAll(RenameAll(entries, projectNumber, chain), projectNumber, chain)
            == RenameAll(entries, projectNumber, chain)
  {
    var once := RenameAll(entries, projectNumber, chain);
    forall i | 0 <= i < |entries|
      ensures RenameEntry(once[i], projectNumber, chain) == once[i]
    {
      RenameEntryIdempotent(entries[i], projectNumber, chain);
    }
  }

  /** A second pass over a document reports no rewrites. */
  lemma SecondPassCountsNothing(entries: seq<Option<string>>, projectNumber: string, chain: seq<Step>)
    requires Trimmed(projectNumber)
    requires chain == BaseChain || chain == ExtendedChain
    ensures CountRewritten(RenameAll(entries, projectNumber, chain), projectNumber, chain) == 0
  {
    var once := RenameAll(entries, projectNumber, chain);
    forall i | 0 <= i < |once|
      ensures !Rewrites(once[i], projectNumber, chain)
    {
      RenameEntryIdempotent(entries[i], projectNumber, chain);
    }
    NoneRewritten(once, projectNumber, chain);
  }

  /** The count is at most the number of placemarks. */
  lemma {:induction false} CountRewrittenBound(entries: seq<Option<string>>, projectNumber: string, chain: seq<Step>)
    ensures CountRewritten(entries, projectNumber, chain) <= |entries|
    decreases |entries|
  {
    if entries != [] {
      CountRewrittenBound(entries[..|entries| - 1], projectNumber, chain);
    }
  }

  /** The count is zero exactly when no placemark is eligible for a rewrite. */
  lemma {:induction false} NoneRewritten(entries: seq<Option<string>>, projectNumber: string, chain: seq<Step>)
    ensures CountRewritten(entries, projectNumber, chain) == 0 <==>
              forall i :: 0 <= i < |entries| ==> !Rewrites(entries[i], projectNumber, chain)
    decreases |entries|
  {
    if entries != [] {
      var init := entries[..|entries| - 1];
      var last := entries[|entries| - 1];
      NoneRewritten(init, projectNumber, chain);
      var lastCount := if Rewrites(last, projectNumber, chain) then 1 else 0;
      assert CountRewritten(entries, projectNumber, chain) == CountRewritten(init, projectNumber, chain) + lastCount;
      if CountRewritten(entries, projectNumber, chain) == 0 {
        forall i | 0 <= i < |entries| ensures !Rewrites(entries[i], projectNumber, chain) {
          if i < |init| {
            assert entries[i] == init[i];
          } else {
            assert entries[i] == last;
          }
        }
      } else if Rewrites(last, projectNumber, chain) {
        assert !Rewrites(entries[|entries| - 1], projectNumber, chain) ==> false;
      } else {
        var i :| 0 <= i < |init| && Rewrites(init[i], projectNumber, chain);
        assert entries[i] == init[i];
      }
    }
  }
}
