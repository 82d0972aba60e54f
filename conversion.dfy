/**
 * `change`: rewrite the leading indentation of every line from the detected
 * style to a new one, leaving the line breaks exactly as they were.
 */
module Conversion {
  import opened Style
  import opened Split
  import opened Detection
  import opened Wrappers
  import opened Keys
  import opened IndentsMap
  import opened MostUsed

  lemma PrefixCancel(u: string, a: string, b: string)
    ensures u + a <= u + b <==> a <= b
  {
    if u + a <= u + b {
      assert (u + a)[|u|..] == a && (u + b)[|u|..] == b;
      assert (u + b)[|u|..|u| + |a|] == (u + a)[|u|..];
    }
  }

  /** The number of whole copies of `unit` at the start of `line`: what the
      greedy match of `^(?:unit)+` covers, in units (0 when it fails). */
  function WholeUnits(line: string, unit: string): (k: nat)
    requires |unit| >= 1
    ensures Repeat(unit, k) <= line
    ensures !(Repeat(unit, k + 1) <= line)
    decreases |line|
  {
    if unit <= line then
      var rest := line[|unit|..];
      var k := WholeUnits(rest, unit);
      assert line == unit + rest;
      PrefixCancel(unit, Repeat(unit, k), rest);
      PrefixCancel(unit, Repeat(unit, k + 1), rest);
      k + 1
    else
      assert Repeat(unit, 1) == unit + [];
      0
  }

  lemma {:induction false} RepeatPrefix(u: string, i: nat, j: nat)
    requires i <= j
    ensures Repeat(u, i) <= Repeat(u, j)
  {
    if i > 0 {
      RepeatPrefix(u, i - 1, j - 1);
      PrefixCancel(u, Repeat(u, i - 1), Repeat(u, j - 1));
    }
  }

  /** The number of whole leading units is unique: it is the `k` with `k`
      units at the start of the line and not `k + 1`. */
  lemma UnitsUnique(line: string, u: string, i: nat, j: nat)
    requires Repeat(u, i) <= line && !(Repeat(u, i + 1) <= line)
    requires Repeat(u, j) <= line && !(Repeat(u, j + 1) <= line)
    ensures i == j
  {
    if i < j {
      RepeatPrefix(u, i + 1, j);
    } else if j < i {
      RepeatPrefix(u, j + 1, i);
    }
  }

  /** A line made of `n` old units and a rest that does not start with one
      becomes `n` new units and the same rest. */
  lemma RewriteUnits(n: nat, rest: string, oldStyle: Indentation, newStyle: Indentation)
    requires Render(oldStyle) != [] && !(Render(oldStyle) <= rest)
    ensures RewriteLine(Repeat(Render(oldStyle), n) + rest, oldStyle, newStyle) == Repeat(Render(newStyle), n) + rest
  {
    var u := Render(oldStyle);
    var line := Repeat(u, n) + rest;
    var level := RewriteLineSpec(line, oldStyle, newStyle);
    RepeatSnoc(u, n);
    PrefixCancel(Repeat(u, n), u, rest);
    UnitsUnique(line, u, level, n);
    assert line[|Repeat(u, n)|..] == rest;
  }

  /** The division of the source is exact: whole units divided by the unit
      length give the number of units. */
  lemma MulDiv(a: nat, b: nat)
    requires b >= 1
    ensures (a * b) / b == a
  {
    var q := (a * b) / b;
    var r := (a * b) % b;
    assert a * b == q * b + r && 0 <= r < b;
  }

  /** One line of `change`: a line that starts with the old unit has its
      whole leading units replaced by as many new units; any other line is
      kept. */
  function RewriteLine(line: string, oldStyle: Indentation, newStyle: Indentation): (r: string)
    requires Render(oldStyle) != []
    ensures !(Render(oldStyle) <= line) ==> r == line
    ensures Render(oldStyle) <= line ==> Render(newStyle) <= r
  {
    var oldUnit := Render(oldStyle);
    var matched := WholeUnits(line, oldUnit);
    assert Repeat(oldUnit, 1) == oldUnit + [];
    if matched == 0 then line
    else
      MulDiv(matched, oldStyle.amount);
      var indentLevel := |Repeat(oldUnit, matched)| / oldStyle.amount;
      Repeat(Render(newStyle), indentLevel) + line[indentLevel * oldStyle.amount..]
  }

  /** Every line rewritten, every separator kept. With a non-empty new
      unit, lines and separators still alternate afterwards. */
  function Rewrite(pieces: seq<string>, oldStyle: Indentation, newStyle: Indentation): (r: seq<string>)
    requires Render(oldStyle) != []
    ensures |r| == |pieces|
    ensures Render(newStyle) != [] && Alternates(pieces) ==> Alternates(r)
  {
    var r := seq(|pieces|, i requires 0 <= i < |pieces| =>
      if i % 2 == 1 then pieces[i] else RewriteLine(pieces[i], oldStyle, newStyle));
    assert Render(newStyle) != [] && Alternates(pieces) ==> Alternates(r) by {
      if Render(newStyle) != [] && Alternates(pieces) {
        forall k | 0 <= k < |pieces| && k % 2 == 0
          ensures NoBreak(r[k]) && (r[k] == [] <==> pieces[k] == [])
        {
          RewriteLineShape(pieces[k], oldStyle, newStyle);
        }
      }
    }
    r
  }

  /** What `change(s, newStyle)` returns. */
  function Changed(s: string, newStyle: Indentation): (r: string)
    ensures (forall k :: 0 <= k < |Lines(s)| ==> !Indented(Lines(s)[k])) ==> r == s
  {
    var oldStyle := Detected(s);
    if oldStyle.indentType == Unknown || oldStyle.amount == 0 then s
    else
      DetectedUnknownIff(s);
      Concat(Rewrite(Pieces(s), oldStyle, newStyle))
  }

  lemma ChangedKnown(s: string, newStyle: Indentation, oldStyle: Indentation)
    requires oldStyle == Detected(s) && Render(oldStyle) != []
    ensures Changed(s, newStyle) == Concat(Rewrite(Pieces(s), oldStyle, newStyle))
  {
  }

  method Change(s: string, newStyle: Indentation) returns (newContent: string)
    ensures newContent == Changed(s, newStyle)
  {
    var oldStyle := Detect(s);
    if oldStyle.indentType == Unknown || oldStyle.amount == 0 {
      return s;
    }
    newContent := RewriteAll(Pieces(s), oldStyle, newStyle);
    ChangedKnown(s, newStyle, oldStyle);
  }

  /** The `foreach` of `change`: separators copied, lines rewritten. */
  method RewriteAll(lines: seq<string>, oldStyle: Indentation, newStyle: Indentation) returns (newContent: string)
    requires Render(oldStyle) != []
    ensures newContent == Concat(Rewrite(lines, oldStyle, newStyle))
  {
    var oldUnit := Render(oldStyle);
    ghost var rewritten := Rewrite(lines, oldStyle, newStyle);
    newContent := "";
    for i := 0 to |lines|
      invariant newContent == Concat(rewritten[..i])
    {
      ConcatPrefixSnoc(rewritten, i);
      // Separators sit at the odd indices of the pieces.
      if i % 2 == 1 {
        assert rewritten[i] == lines[i];
        newContent := newContent + lines[i];
        continue;
      }
      var line := lines[i];
      assert rewritten[i] == RewriteLine(line, oldStyle, newStyle);
      var matched := WholeUnits(line, oldUnit);
      if matched == 0 {
        newContent := newContent + line;
        continue;
      }
      MulDiv(matched, oldStyle.amount);
      var indentLevel := |Repeat(oldUnit, matched)| / oldStyle.amount;
      newContent := newContent + (Repeat(Render(newStyle), indentLevel) + line[indentLevel * oldStyle.amount..]);
    }
    assert rewritten[..|lines|] == rewritten;
  }

  /** A rewritten line is the line with its `level` whole leading old units
      (the most the line starts with, 0 when it does not start with one)
      replaced by `level` new units. */
  lemma RewriteLineSpec(line: string, oldStyle: Indentation, newStyle: Indentation) returns (level: nat)
    requires Render(oldStyle) != []
    ensures level == 0 <==> !(Render(oldStyle) <= line)
    ensures level == 0 ==> RewriteLine(line, oldStyle, newStyle) == line
    ensures Repeat(Render(oldStyle), level) <= line
    ensures !(Repeat(Render(oldStyle), level + 1) <= line)
    ensures |Repeat(Render(oldStyle), level)| == level * oldStyle.amount <= |line|
    ensures RewriteLine(line, oldStyle, newStyle) == Repeat(Render(newStyle), level) + line[level * oldStyle.amount..]
  {
    var oldUnit := Render(oldStyle);
    level := WholeUnits(line, oldUnit);
    assert Repeat(oldUnit, 1) == oldUnit + [];
    MulDiv(level, oldStyle.amount);
    if level == 0 {
      assert line[0..] == line;
    } else {
      assert Repeat(oldUnit, level) == oldUnit + Repeat(oldUnit, level - 1);
    }
  }

  /** Rewriting a line to the style it already has keeps it. */
  lemma RewriteLineSelf(line: string, style: Indentation)
    requires Render(style) != []
    ensures RewriteLine(line, style, style) == line
  {
    var level := RewriteLineSpec(line, style, style);
    var p := Repeat(Render(style), level);
    assert line[..|p|] == p;
    assert line == p + line[|p|..];
  }

  /** `Repeat` of break-free text is break-free. */
  lemma {:induction false} RepeatNoBreak(u: string, n: nat)
    requires NoBreak(u)
    ensures NoBreak(Repeat(u, n))
  {
    if n > 0 {
      RepeatNoBreak(u, n - 1);
      NoBreakAppend(u, Repeat(u, n - 1));
    }
  }

  /** With a non-empty new unit, a rewritten line holds no break character
      when the line held none, and it is empty exactly when the line was. */
  lemma RewriteLineShape(line: string, oldStyle: Indentation, newStyle: Indentation)
    requires Render(oldStyle) != [] && Render(newStyle) != []
    requires NoBreak(line)
    ensures NoBreak(RewriteLine(line, oldStyle, newStyle))
    ensures RewriteLine(line, oldStyle, newStyle) == [] <==> line == []
  {
    var level := RewriteLineSpec(line, oldStyle, newStyle);
    var unit := Render(newStyle);
    assert NoBreak(unit);
    RepeatNoBreak(unit, level);
    var head := Repeat(unit, level);
    var tail := line[|Repeat(Render(oldStyle), level)|..];
    NoBreakSuffix(line, |Repeat(Render(oldStyle), level)|);
    NoBreakAppend(head, tail);
    if level > 0 {
      assert head == unit + Repeat(unit, level - 1);
    }
  }

  /** With a known old style and a non-empty new unit, splitting the result
      of `change` gives back exactly the rewritten pieces. */
  lemma ChangedPieces(s: string, newStyle: Indentation)
    requires Render(newStyle) != [] && Render(Detected(s)) != []
    ensures Pieces(Changed(s, newStyle)) == Rewrite(Pieces(s), Detected(s), newStyle)
  {
    var r := Rewrite(Pieces(s), Detected(s), newStyle);
    PiecesSpec(s);
    ChangedKnown(s, newStyle, Detected(s));
    PiecesOfConcat(r);
  }

  /** The lines of the rewritten pieces are the rewritten lines. */
  lemma RewriteEvenPieces(p: seq<string>, oldStyle: Indentation, newStyle: Indentation)
    requires Render(oldStyle) != []
    ensures forall k :: 0 <= k < |p| / 2 + 1 && 2 * k < |p| ==>
      Rewrite(p, oldStyle, newStyle)[2 * k] == RewriteLine(p[2 * k], oldStyle, newStyle)
  {
    forall k | 0 <= k < |p| / 2 + 1 && 2 * k < |p|
      ensures Rewrite(p, oldStyle, newStyle)[2 * k] == RewriteLine(p[2 * k], oldStyle, newStyle)
    {
      assert (2 * k) % 2 == 0;
    }
  }

  /** What a text whose pieces are the rewritten pieces of `s` shares with
      `s`: the separators, and lines that are the rewritten lines. */
  lemma RewrittenLines(s: string, t: string, oldStyle: Indentation, newStyle: Indentation)
    requires Render(oldStyle) != []
    requires Pieces(t) == Rewrite(Pieces(s), oldStyle, newStyle)
    ensures |Pieces(t)| == |Pieces(s)|
    ensures forall i :: 0 <= i < |Pieces(s)| && i % 2 == 1 ==> Pieces(t)[i] == Pieces(s)[i]
    ensures |Lines(t)| == |Lines(s)|
    ensures forall k :: 0 <= k < |Lines(s)| ==> Lines(t)[k] == RewriteLine(Lines(s)[k], oldStyle, newStyle)
  {
    RewriteEvenPieces(Pieces(s), oldStyle, newStyle);
  }

  /** `change` keeps the line structure: splitting its result gives as many
      lines, the same separators in the same places, and each line the
      rewriting of the original one. (A new style that renders empty is
      excluded: it can make a CR and an LF around an indented blank line
      run together into one CR LF.) */
  lemma ChangedStructure(s: string, newStyle: Indentation)
    requires Render(newStyle) != []
    ensures |Pieces(Changed(s, newStyle))| == |Pieces(s)|
    ensures forall i :: 0 <= i < |Pieces(s)| && i % 2 == 1 ==> Pieces(Changed(s, newStyle))[i] == Pieces(s)[i]
    ensures Render(Detected(s)) != [] ==>
      forall k :: 0 <= k < |Lines(s)| ==> Lines(Changed(s, newStyle))[k] == RewriteLine(Lines(s)[k], Detected(s), newStyle)
    ensures Render(Detected(s)) == [] ==> Changed(s, newStyle) == s
  {
    if Render(Detected(s)) != [] {
      ChangedPieces(s, newStyle);
      RewrittenLines(s, Changed(s, newStyle), Detected(s), newStyle);
    }
  }

  /** Changing to the detected style gives the text back unchanged. */
  lemma ChangeToDetectedIsIdentity(s: string)
    ensures Changed(s, Detected(s)) == s
  {
    var style := Detected(s);
    if style.indentType != Unknown && style.amount != 0 {
      var r := Rewrite(Pieces(s), style, style);
      forall i | 0 <= i < |r| && i % 2 == 0
        ensures r[i] == Pieces(s)[i]
      {
        RewriteLineSelf(Pieces(s)[i], style);
      }
      assert r == Pieces(s);
      PiecesSpec(s);
    }
  }

  /** Changing twice to the same style changes nothing more, as soon as the
      first result is detected as that style. */
  lemma ChangeIdempotentWhenRedetected(s: string, newStyle: Indentation)
    requires Detected(Changed(s, newStyle)) == newStyle
    ensures Changed(Changed(s, newStyle), newStyle) == Changed(s, newStyle)
  {
    ChangeToDetectedIsIdentity(Changed(s, newStyle));
  }

  /** The empty string and markup without indentation are returned as they
      are. */
  lemma ChangeExamples(newStyle: Indentation)
    ensures Changed("", newStyle) == ""
    ensures Changed("<ul></ul>", newStyle) == "<ul></ul>"
  {
    DetectedExamples();
  }

  /** A first-pass table with a single entry decides: its key is detected. */
  lemma DetectedSingleEntry(s: string, e: Entry)
    requires IndentsMapOf(s, true) == [e]
    ensures Detected(s) == Indentation(e.key.amount, e.key.indentType)
  {
    var t := [e];
    assert t[0] == e && t[..0] == [];
    assert MostUsedKey(t) == Some(e.key);
    KeyRoundTrip(e.key);
  }

  /** A text with one tab on the first line and two on the second. */
  const TabLevels := "\ta\n\t\tb"

  lemma TabLevelsLines()
    ensures Pieces(TabLevels) == ["\ta", "\n", "\t\tb"]
    ensures Lines(TabLevels) == ["\ta", "\t\tb"]
  {
    var a, b := "\ta", "\t\tb";
    assert TabLevels == a + "\n" + b;
    TwoLines(a, b);
  }

  lemma TabLevelsRuns()
    ensures LeadingRun("\ta") == Some(Run(1, Tab))
    ensures LeadingRun("\t\tb") == Some(Run(2, Tab))
  {
  }

  /** Both lines count the key of a one-tab indent: the first indents by
      one tab, the second by one more. */
  lemma TabLevelsTable()
    ensures IndentsMapOf(TabLevels, true) == [Entry(Key(Tab, 1), 2, 0)]
  {
    TabLevelsLines();
    TabLevelsRuns();
    var a, b := "\ta", "\t\tb";
    ScanTwo(a, b, true);
    FirstCounted(a, true);
    SameIndentAgain(Step(Initial, a, true), b, true);
  }

  /** So `TabLevels` is detected as one tab. */
  lemma DetectTabLevels()
    ensures Detected(TabLevels) == Indentation(1, Tab)
  {
    TabLevelsTable();
    DetectedSingleEntry(TabLevels, Entry(Key(Tab, 1), 2, 0));
  }

  /** `TabLevels` rewritten to one space per level. */
  const SpaceLevels := " a\n  b"

  lemma SpaceLevelsLines()
    ensures Pieces(SpaceLevels) == [" a", "\n", "  b"]
    ensures Lines(SpaceLevels) == [" a", "  b"]
  {
    var a, b := " a", "  b";
    assert SpaceLevels == a + "\n" + b;
    TwoLines(a, b);
  }

  /** Each leading tab of the two lines becomes a space. */
  lemma TabLinesRewritten()
    ensures RewriteLine("\ta", Indentation(1, Tab), Indentation(1, Space)) == " a"
    ensures RewriteLine("\t\tb", Indentation(1, Tab), Indentation(1, Space)) == "  b"
  {
    TabLineRewritten("\ta", 1, "a", " a");
    TabLineRewritten("\t\tb", 2, "b", "  b");
  }

  lemma TabLineRewritten(line: string, n: nat, rest: string, result: string)
    requires line == Repeat("\t", n) + rest && result == Repeat(" ", n) + rest
    requires |rest| > 0 && rest[0] != '\t'
    ensures RewriteLine(line, Indentation(1, Tab), Indentation(1, Space)) == result
  {
    assert !("\t" <= rest) by {
      assert "\t"[0] != rest[0];
    }
    TabsToSpaces(n, rest);
  }

  /** From one tab to one space, every leading tab becomes a space. */
  lemma TabsToSpaces(n: nat, rest: string)
    requires !("\t" <= rest)
    ensures RewriteLine(Repeat("\t", n) + rest, Indentation(1, Tab), Indentation(1, Space)) == Repeat(" ", n) + rest
  {
    var tab, space := Indentation(1, Tab), Indentation(1, Space);
    assert Render(tab) == "\t" && Render(space) == " ";
    RewriteUnits(n, rest, tab, space);
  }

  /** The lines are rewritten, and the LF is kept. */
  lemma RewriteTabLevels(p: seq<string>, q: seq<string>)
    requires p == ["\ta", "\n", "\t\tb"] && q == [" a", "\n", "  b"]
    ensures Rewrite(p, Indentation(1, Tab), Indentation(1, Space)) == q
  {
    TabLinesRewritten();
    var r := Rewrite(p, Indentation(1, Tab), Indentation(1, Space));
    assert r[0] == q[0] && r[1] == q[1] && r[2] == q[2];
  }

  lemma ChangeTabLevels()
    ensures Changed(TabLevels, Indentation(1, Space)) == SpaceLevels
  {
    DetectTabLevels();
    ChangedKnown(TabLevels, Indentation(1, Space), Indentation(1, Tab));
    TabLevelsLines();
    SpaceLevelsLines();
    RewriteTabLevels(Pieces(TabLevels), Pieces(SpaceLevels));
    PiecesConcat(SpaceLevels);
  }

  lemma SpaceLevelsRuns()
    ensures LeadingRun(" a") == Some(Run(1, Space)) && " a"[1] != ' '
    ensures LeadingRun("  b") == Some(Run(2, Space))
  {
  }

  /** The first pass skips the single-space line, so `SpaceLevels` is
      decided by its second line alone. */
  lemma SpaceLevelsTable()
    ensures IndentsMapOf(SpaceLevels, true) == [Entry(Key(Space, 2), 1, 0)]
  {
    SpaceLevelsLines();
    SpaceLevelsRuns();
    var a, b := " a", "  b";
    ScanTwo(a, b, true);
    StepLineKinds(Initial, a, true);
    FirstCounted(b, true);
  }

  /** So `SpaceLevels` is detected as two spaces. */
  lemma DetectSpaceLevels()
    ensures Detected(SpaceLevels) == Indentation(2, Space)
  {
    SpaceLevelsTable();
    DetectedSingleEntry(SpaceLevels, Entry(Key(Space, 2), 1, 0));
  }

  /** `SpaceLevels` rewritten from two spaces to one. */
  const OneSpace := " a\n b"

  lemma OneSpaceLines()
    ensures Pieces(OneSpace) == [" a", "\n", " b"]
  {
    var a, b := " a", " b";
    assert OneSpace == a + "\n" + b;
    TwoLines(a, b);
  }

  /** The single-space line holds no whole two-space unit and is kept; the
      other loses one of its two spaces. */
  lemma SpaceLinesRewritten()
    ensures RewriteLine(" a", Indentation(2, Space), Indentation(1, Space)) == " a"
    ensures RewriteLine("  b", Indentation(2, Space), Indentation(1, Space)) == " b"
  {
    var two, one := Indentation(2, Space), Indentation(1, Space);
    assert Render(two) == "  " && Render(one) == " ";
    assert !("  " <= " a") && !("  " <= "b") by {
      assert "  "[1] != " a"[1] && "  "[0] != "b"[0];
    }
    assert "  b" == Repeat("  ", 1) + "b";
    RewriteUnits(1, "b", two, one);
    assert Repeat(" ", 1) + "b" == " b";
  }

  lemma RewriteSpaceLevels(p: seq<string>, q: seq<string>)
    requires p == [" a", "\n", "  b"] && q == [" a", "\n", " b"]
    ensures Rewrite(p, Indentation(2, Space), Indentation(1, Space)) == q
  {
    SpaceLinesRewritten();
    var r := Rewrite(p, Indentation(2, Space), Indentation(1, Space));
    assert r[0] == q[0] && r[1] == q[1] && r[2] == q[2];
  }

  lemma ChangeSpaceLevels()
    ensures Changed(SpaceLevels, Indentation(1, Space)) == OneSpace
  {
    DetectSpaceLevels();
    ChangedKnown(SpaceLevels, Indentation(1, Space), Indentation(2, Space));
    SpaceLevelsLines();
    OneSpaceLines();
    RewriteSpaceLevels(Pieces(SpaceLevels), Pieces(OneSpace));
    PiecesConcat(OneSpace);
  }

  /** `change` is not idempotent: changing `TabLevels` to one space gives
      `SpaceLevels`, which is detected as two spaces (its single-space line
      is skipped by the first pass), so changing it to one space again
      halves its second line. */
  lemma ChangeNotIdempotent()
    ensures Changed(Changed(TabLevels, Indentation(1, Space)), Indentation(1, Space)) !=
      Changed(TabLevels, Indentation(1, Space))
  {
    ChangeTabLevels();
    ChangeSpaceLevels();
    assert |OneSpace| != |SpaceLevels|;
  }
}
