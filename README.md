# Indentation detection and conversion (colinodell/indentation)

A Dafny model of `src/Indentation.php`. It covers three parts, and each
part's properties are proved:

- **The value type.** `Indentation` holds an amount and a type (`space`, `tab` or `unknown`), and `__toString` renders it as whitespace.
- **Detection.** `detect` runs the line scan `makeIndentsMap` twice:
  - first ignoring single-space lines;
  - then counting them, but only when the first table is empty.

  It then picks the winning key with `getMostUsedKey` and decodes it with `decodeIndentsKey`.
- **Conversion.** `change` splits the text on `\R`, keeping the separators. It rewrites the whole leading units of the old style on each line as the same number of new units.

Text is `seq<char>`, with one `char` per byte. With no `u` flag, PCRE's
`\R` matches CR LF first, then one of LF, VT, FF, CR or NEL (0x85).

Modules, one per file:

- `Wrappers` (`wrappers.dfy`): `Option`.
- `Style` (`style.dfy`): the `Indentation` datatype, `str_repeat` and `__toString`.
- `Split` (`split.dfy`): the `\R` splitter.
  - `Pieces` models `preg_split` with `PREG_SPLIT_DELIM_CAPTURE`.
  - `Lines` models the plain `preg_split`.
  - It proves that the split loses nothing and that the decomposition is unique.
- `Keys` (`keys.dfy`): the key datatype, with `encodeIndentsKey` and `decodeIndentsKey` over their string form (decimal printing and the leading-digit `intval`).
- `IndentsMap` (`indents_map.dfy`): `makeIndentsMap`.
  - The scan is written once as a specification fold, `Scan`, built from `Step`.
  - It is written again as the source's loop, the method `MakeIndentsMap`.
  - The method is proved equal to the fold.
  - The table is a sequence of entries in insertion order.
- `MostUsed` (`most_used.dfy`): `getMostUsedKey`, as the fold `Pick` and as the loop `GetMostUsedKey`.
- `Detection` (`detection.dfy`): `detect`, as the function `Detected` and the method `Detect`.
- `Conversion` (`conversion.dfy`): `change`, as the function `Changed` and the method `Change`, whose `foreach` is the method `RewriteAll`.

Lines are split on PCRE's `\R`, which breaks on VT, FF and NEL as well as
on CR, LF and CR LF.

## Model

| member | source | states |
|---|---|---|
| Style.Render | src/Indentation.php:52-61 | `__toString` is empty exactly when the amount is 0 or the type is unknown. Otherwise it has length `amount`, and every character is a space for the space type or a tab for the tab type. |
| Style.RenderExamples | src/Indentation.php:52-61 | `(4, space)` renders as four spaces, and `(1, tab)` renders as one tab. |
| Style.Repeat | src/Indentation.php:60 | `str_repeat(u, n)` has length `n` times the length of `u`. |
| Style.RepeatSnoc | src/Indentation.php:60 | `str_repeat(u, n + 1)` is `str_repeat(u, n)` followed by `u`. |
| Split.FirstBreak | src/Indentation.php:132 | Gives the position of the first break character: no break occurs before it, and a break sits at it unless it is the end. |
| Split.SeparatorLength | src/Indentation.php:93 | A match of `\R` is a single separator. CR is taken alone only when no LF follows it. |
| Split.Pieces | src/Indentation.php:93 | The split with captured separators has an odd number of pieces: it starts and ends with a line. |
| Split.PiecesSpec | src/Indentation.php:93 | The split alternates break-free lines with separators, never leaves a CR and an LF split around an empty line, and concatenates back to the input. |
| Split.PiecesConcat | src/Indentation.php:93 | Concatenating the pieces gives back the text. |
| Split.PiecesOfConcat | src/Indentation.php:93 | Uniqueness: any such alternating sequence is exactly what splitting its concatenation returns. |
| Split.Lines | src/Indentation.php:132 | The plain split has one more line than it has separators, its lines are the even pieces, and no line contains a break character. |
| Split.LinesOfNoBreak | src/Indentation.php:132 | A text without break characters is one single line. |
| Split.TwoLines | src/Indentation.php:93 | Two break-free lines joined by one LF split into those two lines and the LF. |
| Keys.Decimal | src/Indentation.php:194 | The decimal string of an amount is non-empty and made of digits only. |
| Keys.EncodeKey | src/Indentation.php:190-195 | The key string is a type letter followed by at least one digit. The letter is `s` exactly for the space type, and `t` otherwise. |
| Keys.DecodeKey | src/Indentation.php:202-210 | The decoded type is always space or tab, never unknown. The amount is 0 when nothing follows the type letter or when a non-digit does, as `intval` gives. |
| Keys.KeyRoundTrip | src/Indentation.php:190-210 | `decodeIndentsKey(encodeIndentsKey(t, n)) == (n, t)` for `t` = space or tab and every `n >= 0`. |
| Keys.EncodeKeyInjective | src/Indentation.php:190-195 | Distinct keys encode to distinct strings, so keying the table by the datatype changes nothing. |
| IndentsMap.LeadingRun | src/Indentation.php:144-151 | The match of `^(?:( )+\|\t+)`: none exactly when the line is empty or starts with neither a space nor a tab. Otherwise it is the maximal run of the first character, and the type is space when that character is a space. |
| IndentsMap.Record | src/Indentation.php:175-181 | A new key is appended as `[1, 0]`. An existing key's count grows by 1 and its weight by the given 0 or 1. Every other entry is unchanged, and the table stays well formed. |
| IndentsMap.Count | src/Indentation.php:157-173 | A counted line keeps the scan invariant and records the line's size and type. Afterwards the last key is present in the table. |
| IndentsMap.Step | src/Indentation.php:137-182 | Each iteration keeps the invariant: every entry has `count >= 1`, `weight <= count - 1`, amount `>= 1` and a known type, and a nonzero previous size comes with a key of that type already in the table. A line that is not counted leaves the table and the key unchanged. |
| IndentsMap.CountedLineKey | src/Indentation.php:157-172 | Proves the assertion at line 170. On a counted line, in the scan invariant, the key the body records is set and has a positive amount and a known type. This holds in the difference-0 branch too, where the key of the previous line is reused. |
| IndentsMap.CountedLine | src/Indentation.php:157-181 | On a counted line, the source's loop body computes exactly `Step`. |
| IndentsMap.Scan | src/Indentation.php:137-182 | The fold over the lines keeps the scan invariant after any number of lines. |
| IndentsMap.IndentsMapOf | src/Indentation.php:121-185 | `makeIndentsMap` returns a well-formed table. |
| IndentsMap.FirstCounted | src/Indentation.php:157-181 | The first counted line records the key of its own run once, with weight 0. |
| IndentsMap.SameIndentAgain | src/Indentation.php:157-181 | After a counted line, a line of the same type that indents by the last key's amount again counts that key once more at its place in the table, with no added weight; every other entry is unchanged. |
| IndentsMap.MakeIndentsMap | src/Indentation.php:121-185 | The loop returns the table of the specification fold, well formed and with no key entered twice. |
| IndentsMap.StepLineKinds | src/Indentation.php:137-155 | An empty line changes nothing. When single spaces are ignored, a single-space line changes nothing. A line starting with neither a space nor a tab resets the previous size and type, and keeps the key and the table. |
| IndentsMap.NeutralLineInsertion | src/Indentation.php:138-155 | Inserting such a neutral line anywhere leaves the whole scan unchanged. |
| IndentsMap.EmptyTableIff | src/Indentation.php:137-182 | A pass's table is empty exactly when no line is counted in that pass. |
| IndentsMap.ScanDistinctKeys | src/Indentation.php:176-181 | No key occurs twice in the table. |
| IndentsMap.ScanTotalCount | src/Indentation.php:176-181 | The counts sum to the number of counted lines. |
| MostUsed.Pick | src/Indentation.php:220-232 | The loop variables after any prefix are as follows. The result is null exactly when every entry is `[0, 0]`, and then `maxUsed` and `maxWeight` are 0. No entry's count exceeds `maxUsed`. No entry with that count has a weight above `maxWeight`. A non-null result is the key of an entry with exactly these values. |
| MostUsed.MostUsedKey | src/Indentation.php:218-235 | `getMostUsedKey` is null exactly when every entry is `[0, 0]`. Otherwise it is the key of an entry whose count no other entry exceeds. |
| MostUsed.GetMostUsedKey | src/Indentation.php:218-235 | The loop with its skip condition computes the fold `MostUsedKey`. |
| MostUsed.PickIsFirstBest | src/Indentation.php:218-235 | The result is null exactly when every entry is `[0, 0]`. Otherwise it is the earliest entry with the highest count and, among those, the highest weight, and `maxUsed` and `maxWeight` are its values. |
| MostUsed.MostUsedKeyNone | src/Indentation.php:218-235 | On a table the scan can produce, the result is null exactly when the table is empty. |
| MostUsed.MostUsedKeyIsFirstBest | src/Indentation.php:224-231 | A non-null result is the key of the first best entry. |
| MostUsed.FirstBestUnique | src/Indentation.php:224-231 | At most one entry is first best. |
| MostUsed.MostUsedKeyOf | src/Indentation.php:224-231 | Conversely, the first best entry's key is what is returned. |
| Detection.DecidingTable | src/Indentation.php:68-72 | The table decided on is well formed. |
| Detection.Detected | src/Indentation.php:66-83 | `detect` gives `(0, unknown)` or a positive amount with a known type. In the second case, that type and amount are the key of an entry of the deciding table. |
| Detection.Detect | src/Indentation.php:66-83 | The method computes `Detected`: the two passes, the winner, and the decode of its string key. |
| Detection.DetectedUnknownIff | src/Indentation.php:66-83 | The result is `(0, unknown)` exactly when the second pass's table is empty, exactly when no line starts with a space or a tab. Otherwise the amount is `>= 1` and the type is space or tab. |
| Detection.DetectedWinner | src/Indentation.php:75-82 | A detected style is the key of the first best entry of the deciding table. |
| Detection.SecondPassOnlyWhenNeeded | src/Indentation.php:68-72 | The first pass's table decides unless no line qualified for it. |
| Detection.SingleSpacesOnly | src/Indentation.php:150-155 | A text whose only indentation is single spaces is detected as `(1, space)`. |
| Detection.DetectedExamples | src/Indentation.php:66-83 | `""` and `"<ul></ul>"` are detected as `(0, unknown)`. |
| Conversion.WholeUnits | src/Indentation.php:106 | The match of `^(?:unit)+`: `k` whole copies of the unit start the line, and `k + 1` copies do not. |
| Conversion.MulDiv | src/Indentation.php:111 | The division of the matched length by the amount is exact. |
| Conversion.RewriteLine | src/Indentation.php:106-112 | A line that does not start with the old unit is kept as it is. A line that does start with one starts with a new unit after the rewrite. |
| Conversion.Rewrite | src/Indentation.php:99-113 | Rewriting keeps the number of pieces and, when the new style renders non-empty, keeps lines and separators alternating. |
| Conversion.RewriteUnits | src/Indentation.php:106-112 | A line of `n` old units and a rest that does not start with one becomes `n` new units and the same rest. |
| Conversion.RewriteAll | src/Indentation.php:100-113 | The `foreach` copies separators and rewrites lines: the result is the concatenation of the rewritten pieces. |
| Conversion.Changed | src/Indentation.php:85-116 | A text with no line starting with a space or a tab is returned unchanged, whatever the new style. |
| Conversion.Change | src/Indentation.php:85-116 | The method computes `Changed`. |
| Conversion.RewriteLineSpec | src/Indentation.php:104-112 | A line that does not start with the old unit is copied unchanged. Otherwise, with `level` the maximal number of whole leading old units, the line becomes `level` new units followed by `line[level * oldAmount..]`. |
| Conversion.RewriteLineSelf | src/Indentation.php:104-112 | Rewriting a line to the style it has keeps it. |
| Conversion.RewriteLineShape | src/Indentation.php:104-112 | With a non-empty new unit, a rewritten line has no break character, and it is empty exactly when the line was. |
| Conversion.ChangedPieces | src/Indentation.php:93-116 | When the new style renders non-empty, splitting the result gives back exactly the rewritten pieces. |
| Conversion.RewriteEvenPieces | src/Indentation.php:100-113 | The even rewritten pieces are the rewritten lines. |
| Conversion.RewrittenLines | src/Indentation.php:100-113 | The same separators in the same places, and the lines are the rewritten lines. |
| Conversion.ChangedStructure | src/Indentation.php:85-116 | Separators are copied verbatim: the result has as many pieces, the same separator at every odd position, and every line is the rewriting of the original line. An undetectable style returns the input. |
| Conversion.ChangeToDetectedIsIdentity | src/Indentation.php:85-116 | `change(s, detect(s)) == s`. |
| Conversion.ChangeIdempotentWhenRedetected | src/Indentation.php:85-116 | When the first result is detected as the new style, changing again to that style returns it unchanged. |
| Conversion.ChangeExamples | src/Indentation.php:87-91 | `change("", S) == ""` and `change("<ul></ul>", S) == "<ul></ul>"`. |
| Conversion.DetectTabLevels | src/Indentation.php:66-83 | `"\ta\n\t\tb"` is detected as one tab. |
| Conversion.ChangeTabLevels | src/Indentation.php:85-116 | Changing `"\ta\n\t\tb"` to one space gives `" a\n  b"`. |
| Conversion.DetectSpaceLevels | src/Indentation.php:150-155 | `" a\n  b"` is detected as two spaces, because the first pass skips its single-space line. |
| Conversion.ChangeSpaceLevels | src/Indentation.php:85-116 | Changing `" a\n  b"` to one space gives `" a\n b"`. |
| Conversion.ChangeNotIdempotent | src/Indentation.php:85-116 | `change` is not idempotent: changing `"\ta\n\t\tb"` to one space twice differs from changing it once. |

## Left out

- The PCRE engine is not modelled. `preg_split`, `preg_match` and `preg_quote` are replaced by explicit scanners: `Pieces`, `Lines`, `LeadingRun` and `WholeUnits`.
- The exceptions thrown when `preg_split` returns `false` (src/Indentation.php:94-95 and 133-134) are not modelled. Without the `u` flag, splitting a byte string cannot fail.
- The constructor's unchecked negative `amount` is not modelled. Amounts are `nat`, and `str_repeat` would reject a negative count anyway.
- `getAmount` and `getType` are the datatype fields `amount` and `indentType`, so they have no contracts of their own.
- `null` and `''` for the previous type are both `None`. The source only compares the previous type with `space` and `tab`, so the two values behave alike.
- Keys.DecodeKey parses only what `encodeIndentsKey` produces: a type letter followed by decimal digits. `intval`'s sign, whitespace and overflow handling is not modelled, because no key of the table contains them.
- `indent` and `unindent` are not modelled, because src/Indentation.php does not contain them.
- The fixture-based detection tests (tests/IndentationTest.php:42-124) read files that are not part of this model. Only the inline detection case, `<ul></ul>` (tests/IndentationTest.php:90-94), is proved, by Detection.DetectedExamples. The inline `change` cases, the empty string and `<ul></ul>` (tests/IndentationTest.php:141-151), are proved by Conversion.ChangeExamples.
- The concrete multi-line `change` test cases are not proved as literal examples. Their general content is proved by Conversion.RewriteLineSpec and Conversion.ChangedStructure.
- Idempotence does not hold for arbitrary text. Conversion.ChangeNotIdempotent proves that changing `"\ta\n\t\tb"` to one space gives `" a\n  b"`, and changing that to one space gives `" a\n b"`. The single-space line is skipped by the first pass, so the result is detected as two spaces. The form that holds, when the result is detected as the new style, is Conversion.ChangeIdempotentWhenRedetected.
- Detect stability and the round trip are not proved for arbitrary text. Both need `detect` to recognise its own output, and the example above shows that it need not.
- Conversion.ChangedStructure and Conversion.ChangedPieces require the new style to render non-empty. An empty new unit can erase an indented blank line between a CR and an LF, and the re-split then reads the two as one CR LF. Conversion.Changed itself is modelled for every style.
- Conversion.Change calls the method RewriteAll for its `foreach`. The source's one function is split in two to keep the proof small, and the behaviour is unchanged.
