# Placemark label normaliser

A Dafny model of the label normaliser of the KMZ renamer. The normaliser walks over the placemarks of a parsed KML document. Each placemark whose name holds a study-code token (`ATR`, `TMC`, `P&B`, `QUE` or `ADT`, a dash, digits and an optional letter) gets a new name:

- the project number;
- a dash;
- the token's number, left-padded with `0` to three characters;
- a space and the cleaned rest of the name, when that rest is not empty.

Three kinds of placemark are skipped:
- placeholders ("Untitled Polygon", "Untitled Path");
- names that already begin with the project number followed by a dash or a space;
- names without a study-code token.

The pass rewrites names in place and returns how many it rewrote.

The model has these modules:

- `Chars`: the character classes `\s`, `\d`, `\w` and the letters, with the `i` flag's case folding, all over ASCII.
- `Text`: greedy runs of digits and spaces, `String.prototype.trim` and `String.prototype.padStart`.
- `Patterns`: six regular expressions, each as a scanner that returns the end of the match starting at a given index:
  - the study-code token of the match that reads the location number;
  - the same token followed by its whitespace, which the first clean-up step removes;
  - the duration marker and the whitespace run of the base clean-up;
  - the two machine annotations of the extended clean-up.

  The whitespace run is pinned down by its scanner's own contract. Each of the other five has a reference predicate for the text it must match, and a lemma proves that the scanner finds exactly those texts.
- `Scan`: the leftmost match (`exec`), the successive matches of a global pattern and the splice that `String.prototype.replace` performs.
- `Cleanup`: the clean-up as an ordered list of steps. It has two versions: the base chain (code token, duration markers, whitespace collapse, trim) and the extended chain, which also drops machine annotations before the collapse.
- `Renamer`: the eligibility test, the location number and the label as functions, and `renamePushpins` as a method with a loop over an array of placemark names.

The document is an array with one entry per placemark: `None` when the placemark has no `name` element, `Some(text)` with the element's text otherwise. Writing `textContent` is an array update.

## Model

| member | source | states |
|---|---|---|
| Text.Trim | renamer3-main/src/App.tsx:23 | the trimmed name has no leading or trailing whitespace; it is the slice of the name after its leading whitespace, and everything after it is whitespace |
| Text.PadStart | renamer3-main/src/App.tsx:33 | the padded text is `max(width, length)` long, ends with the text and has only fill characters before it |
| Patterns.CodeTokenEnd | renamer3-main/src/App.tsx:31 | a token found at `p` starts with a study code and a dash, has only digits after the dash, and ends in a digit or a letter |
| Patterns.CodeTokenExact | renamer3-main/src/App.tsx:31 | a token is found at `p` exactly when a study code, a dash and a digit occur there; it takes every digit of the run and the letter after them when there is one, and only such spans are found |
| Patterns.CodeTokenAndSpaceExact | renamer3-main/src/App.tsx:37 | the first step's pattern matches exactly a code token followed by all the whitespace after it |
| Patterns.SpaceRunEnd | renamer3-main/src/App.tsx:39 | a run found at `p` is all whitespace, at least two long and maximal; no run is found where two whitespace characters do not start |
| Patterns.HourMarkerExact | renamer3-main/src/App.tsx:38 | the scanner matches at `p` with `n` digits exactly when `\b`, 1-3 digits, `-HR` (any case) and `\b` occur there |
| Patterns.MachineCountExact | src/App.tsx:6 | the scanner matches exactly the texts `(`, digits, whitespace, `MACHINE`, optional `S`, `)` (any case), and each in full |
| Patterns.MachineRatioExact | src/App.tsx:7 | the scanner matches exactly the texts `(`, digits, `M`, digits, `)` (any case), and each in full |
| Patterns.NoOverlap | renamer3-main/src/App.tsx:38 | no duration marker (nor machine annotation) starts strictly inside another one |
| Text.SkipDigitsTo | renamer3-main/src/App.tsx:31 | a run of digits ended by a non-digit or by the end of the text is the greedy `\d+` run |
| Scan.FirstMatch | renamer3-main/src/App.tsx:31 | the result is a match, no match starts before it, and no result means no match anywhere |
| Scan.Occurrences | renamer3-main/src/App.tsx:38 | the matches a global replace collects are matches, non-empty, in increasing order and disjoint |
| Scan.EveryMatchCollected | renamer3-main/src/App.tsx:38 | every duration marker of the step's input is one of the spans the global replace removes |
| Scan.Splice | renamer3-main/src/App.tsx:38-39 | a replacement no longer than each span never lengthens the text |
| Scan.CollapseLeavesNoAdjacentSpace | renamer3-main/src/App.tsx:39 | after the collapse no two whitespace characters are adjacent |
| Cleanup.FirstCodeTokenRemoved | renamer3-main/src/App.tsx:37 | the first step deletes the leftmost code token and the whitespace after it and keeps everything else; a name without a token passes unchanged |
| Cleanup.CleanedName | renamer3-main/src/App.tsx:36-40 | with either chain, the cleaned name has no two adjacent whitespace characters, no outer whitespace, and is never longer than the name |
| Cleanup.CleanShrinks | src/App.tsx:3-9 | a chain of steps that only delete or shrink never lengthens the name |
| Cleanup.CleanTidy | src/App.tsx:8-9 | a chain that ends with the collapse and the trim leaves no double whitespace and no outer whitespace |
| Cleanup.ExtendedAgreesWithBase | src/App.tsx:6-7 | when the text after the duration-marker removal has no machine annotation, the extended chain cleans as the base chain does |
| Cleanup.LeadingTokenStep | renamer3-main/src/App.tsx:37 | a name that begins with a code token and its whitespace loses exactly that prefix in the first step |
| Cleanup.BaseChainExample | renamer3-main/src/App.tsx:36-40 | "ATR-7 24-HR Main St" cleans to "Main St" |
| Cleanup.ExtendedChainExample | src/App.tsx:3-9 | "ATR-7 (2 MACHINES) 24-HR Oak" cleans to "Oak" |
| Cleanup.LetterChainExample | renamer3-main/src/App.tsx:36-40 | "QUE-12A School Rd" cleans to "School Rd": the letter belongs to the removed token |
| Cleanup.PlainTail | renamer3-main/src/App.tsx:38-40 | a trimmed text without digits or double whitespace passes the last three steps unchanged |
| Renamer.PlaceholderNeverRenamed | renamer3-main/src/App.tsx:24-26 | a name that trims to "Untitled Polygon" or "Untitled Path" is never rewritten |
| Renamer.NumberedNeverRenamed | renamer3-main/src/App.tsx:10-12 | a trimmed name beginning with the project number and a dash or a space is never rewritten |
| Renamer.RenameDecision | renamer3-main/src/App.tsx:23-32 | a name is rewritten if and only if its trimmed text is not a placeholder, does not carry the project number and holds a study-code token |
| Renamer.EmptyNameSkipped | renamer3-main/src/App.tsx:23 | an empty or all-whitespace name is skipped |
| Renamer.LocationGroupFound | renamer3-main/src/App.tsx:31-32 | a name has a group exactly when it holds a study-code token |
| Renamer.LocationGroupShape | renamer3-main/src/App.tsx:31-33 | the group belongs to the leftmost token and is read from the name after the code and the dash: the token's whole digit run, then the letter that follows it when there is one |
| Renamer.LeadingGroup | renamer3-main/src/App.tsx:31-32 | a name that begins with a code token has that token's digits and letter as its group |
| Renamer.LetterGroup | renamer3-main/src/App.tsx:31-32 | the group of "QUE-12A School Rd" is "12A" |
| Renamer.LocationNumberShape | renamer3-main/src/App.tsx:33 | the location number is `max(3, length)` long, ends with the group and is `0` before it |
| Renamer.LocationNumberExamples | renamer3-main/src/App.tsx:33 | "7" → "007", "42" → "042", "123" → "123", "12A" → "12A", "7A" → "07A" |
| Renamer.LabelShape | renamer3-main/src/App.tsx:43 | a label is the project number, a dash and the location number, followed by a space and the cleaned name exactly when the cleaned name is not empty |
| Renamer.LabelParts | renamer3-main/src/App.tsx:43 | any label reads back as the project number, a dash and the location number, then a space and the cleaned name exactly when the cleaned name is not empty |
| Renamer.LabelTrimmed | renamer3-main/src/App.tsx:43 | a label built from a trimmed project number has no outer whitespace and begins with the project number and a dash |
| Renamer.WorkedExample | renamer3-main/src/App.tsx:23-43 | "ATR-7 24-HR Main St" with project "25-260108" becomes "25-260108-007 Main St" |
| Renamer.ExtendedWorkedExample | src/App.tsx:3-9 | with the extended chain, "ATR-7 (2 MACHINES) 24-HR Oak" becomes "25-260108-007 Oak" |
| Renamer.LetterWorkedExample | renamer3-main/src/App.tsx:23-43 | "QUE-12A School Rd" with project "25-260108" becomes "25-260108-12A School Rd" |
| Renamer.RenameTwice | renamer3-main/src/App.tsx:27 | a new label begins with the project number and a dash and has no outer whitespace, so renaming it again is skipped |
| Renamer.RenameChanges | renamer3-main/src/App.tsx:44 | a rewrite always changes the name |
| Renamer.SkippedUnchanged | renamer3-main/src/App.tsx:20-32 | a placemark the pass does not count keeps its name exactly, whitespace included |
| Renamer.RewritesIffChanged | renamer3-main/src/App.tsx:44-45 | the pass counts a placemark if and only if it changes its name |
| Renamer.RenameEntryIdempotent | renamer3-main/src/App.tsx:19-45 | renaming a placemark twice is renaming it once, and the second time is not counted |
| Renamer.RenameAll | renamer3-main/src/App.tsx:18-46 | the pass, placemark after placemark, leaves as many placemarks, each renamed on its own |
| Renamer.RenameAllAppend | renamer3-main/src/App.tsx:18-46 | placemarks do not affect one another: the pass over two parts of a document is the two passes joined |
| Renamer.RenamePlacemark | renamer3-main/src/App.tsx:19-45 | one turn of the loop: the placemark's name becomes its renamed entry, no other placemark changes, and the result says whether it was counted |
| Renamer.RenamePushpins | renamer3-main/src/App.tsx:14-49 | the names after the loop are the renamed names of the original document and the returned count is the number of placemarks rewritten |
| Renamer.CountRewrittenBound | renamer3-main/src/App.tsx:16-45 | the count is at most the number of placemarks |
| Renamer.CountRewrittenAppend | renamer3-main/src/App.tsx:16-45 | the count over two parts of a document is the sum of their counts |
| Renamer.NoneRewritten | renamer3-main/src/App.tsx:16-45 | the count is zero exactly when no placemark is eligible |
| Renamer.SecondPassUnchanged | renamer3-main/src/App.tsx:14-49 | a second pass with the same project number changes no name |
| Renamer.SecondPassCountsNothing | renamer3-main/src/App.tsx:14-49 | a second pass with the same project number returns 0 |
| Renamer.DocumentExample | renamer3-main/src/App.tsx:14-49 | in a document with the worked example, a placeholder, a numbered name and a placemark without a name, only the first is rewritten and the count is 1 |
| Renamer.LetterDocumentExample | renamer3-main/src/App.tsx:14-49 | in a document with the worked example, the letter example, a placeholder path and a placemark without a name, the first two are rewritten and the count is 2 |

## Left out

- Reading and writing the KMZ archive (JSZip), parsing and serialising the XML, the download link and the alerts of `processKMZ`: library I/O with no logic of its own.
- The React state and the form: user interface only.
- The DOM tree: the placemarks are an array of optional name texts. The structure outside the name text is not modelled, so "nothing but the name text changes" holds by construction.
- JavaScript's `\s`, `\w`, case folding and `trim()` over all of Unicode: the model uses the ASCII whitespace set (space, tab, line feed, vertical tab, form feed, carriage return) and ASCII letters and digits.
- A general regular-expression engine: only the six patterns above are modelled, each as a dedicated scanner. Their greedy runs never need backtracking, because the character required after each run cannot belong to it.
- `textContent` is never null on an element, so the `|| ''` fallback is the empty string that `Trim` already produces.
- Renamer.RenameTwice: it, and the lemmas built on it (`RenameChanges`, `RewritesIffChanged`, `RenameEntryIdempotent`, `SecondPassUnchanged`, `SecondPassCountsNothing`), require a trimmed project number and one of the two clean-up chains. The form handler passes `projectNumber.trim()` (renamer3-main/src/App.tsx:74). With leading whitespace in the project number, a new label would be trimmed on the second pass and no longer start with it.
- Scan.EveryMatchCollected: states that every occurrence in a step's input is removed, not that none remains in its output. A removal can join the text around it into a new occurrence: in the extended chain "7(1M2)-HR" becomes "7-HR" after the duration markers are gone, so it stays in the cleaned name, and "((1M2)1M2)" leaves "(1M2)".
- Renamer.DocumentExample: it states each placemark's resulting name separately rather than as one sequence equality.
- Renamer.LetterDocumentExample: likewise states each placemark's resulting name separately.
