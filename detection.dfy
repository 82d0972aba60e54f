/**
 * `detect`: two passes of the indentation scan (first ignoring single
 * spaces, then, only when that table is empty, counting them), then the
 * most used key, decoded back into an `Indentation`.
 */
module Detection {
  import opened Wrappers
  import opened Style
  import opened Split
  import opened Keys
  import opened IndentsMap
  import opened MostUsed

  /** The table the decision is made on: the first pass's, or the second
      pass's when the first is empty. */
  function DecidingTable(s: string): (t: seq<Entry>)
    ensures WellFormed(t)
  {
    var first := IndentsMapOf(s, true);
    if |first| == 0 then IndentsMapOf(s, false) else first
  }

  /** The indentation `detect(s)` returns. The winning key goes through its
      string form and back, as the source's table keys do. */
  function Detected(s: string): (r: Indentation)
    ensures r == Indentation(0, Unknown) || (r.amount >= 1 && r.indentType != Unknown)
    ensures r != Indentation(0, Unknown) ==>
      exists j :: 0 <= j < |DecidingTable(s)| && DecidingTable(s)[j].key == Key(r.indentType, r.amount)
  {
    match MostUsedKey(DecidingTable(s))
    case None => Indentation(0, Unknown)
    case Some(k) =>
      KeyRoundTrip(k);
      var decoded := DecodeKey(EncodeKey(k));
      Indentation(decoded.0, decoded.1)
  }

  method Detect(s: string) returns (r: Indentation)
    ensures r == Detected(s)
  {
    var indents := MakeIndentsMap(s, true);
    if |indents| == 0 {
      indents := MakeIndentsMap(s, false);
    }
    var keyOfMostUsedIndent := GetMostUsedKey(indents);
    if keyOfMostUsedIndent.None? {
      return Indentation(0, Unknown);
    }
    var decoded := DecodeKey(EncodeKey(keyOfMostUsedIndent.value));
    r := Indentation(decoded.0, decoded.1);
  }

  /** A line that starts with a space or a tab. */
  predicate Indented(line: string)
  {
    LeadingRun(line).Some?
  }

  /** Nothing is detected exactly when the second pass's table is empty,
      that is, when no line starts with a space or a tab; otherwise the
      result has a positive amount and a known type. */
  lemma DetectedUnknownIff(s: string)
    ensures Detected(s) == Indentation(0, Unknown) <==> IndentsMapOf(s, false) == []
    ensures Detected(s) == Indentation(0, Unknown) <==>
      forall k :: 0 <= k < |Lines(s)| ==> !Indented(Lines(s)[k])
    ensures Detected(s) == Indentation(0, Unknown) || (Detected(s).amount >= 1 && Detected(s).indentType != Unknown)
  {
    var lines := Lines(s);
    EmptyTableIff(lines, true);
    EmptyTableIff(lines, false);
    var t := DecidingTable(s);
    MostUsedKeyNone(t);
    if |t| > 0 {
      var w := MostUsedKeyIsFirstBest(t);
      KeyRoundTrip(t[w].key);
    }
    if forall k :: 0 <= k < |lines| ==> !Indented(lines[k]) {
      assert forall k :: 0 <= k < |lines| ==> !Qualifies(lines[k], true);
    }
  }

  /** When something is detected, it is the key of the first best entry of
      the deciding table. */
  lemma DetectedWinner(s: string) returns (w: nat)
    requires Detected(s) != Indentation(0, Unknown)
    ensures IsFirstBest(DecidingTable(s), w)
    ensures Detected(s) == Indentation(DecidingTable(s)[w].key.amount, DecidingTable(s)[w].key.indentType)
  {
    var t := DecidingTable(s);
    MostUsedKeyNone(t);
    w := MostUsedKeyIsFirstBest(t);
    KeyRoundTrip(t[w].key);
  }

  /** The second pass decides only when the first pass counted no line. */
  lemma SecondPassOnlyWhenNeeded(s: string)
    ensures DecidingTable(s) == IndentsMapOf(s, true) ||
      forall k :: 0 <= k < |Lines(s)| ==> !Qualifies(Lines(s)[k], true)
  {
    EmptyTableIff(Lines(s), true);
  }

  /** Lines that start with nothing but a single space, if indented at all. */
  predicate AtMostSingleSpace(line: string)
  {
    LeadingRun(line).None? || LeadingRun(line) == Some(Run(1, Space))
  }

  /** Scanning such lines with single spaces counted only ever records the
      key of a single space. */
  lemma {:induction false} ScanSingleSpaces(lines: seq<string>)
    requires forall k :: 0 <= k < |lines| ==> AtMostSingleSpace(lines[k])
    ensures var st := Scan(lines, false);
      && (forall j :: 0 <= j < |st.indents| ==> st.indents[j].key == Key(Space, 1))
      && (st.key.None? || st.key == Some(Key(Space, 1)))
      && st.previousSize <= 1
  {
    if |lines| > 0 {
      var prefix := lines[..|lines| - 1];
      assert forall k :: 0 <= k < |prefix| ==> prefix[k] == lines[k];
      ScanSingleSpaces(prefix);
      var st := Scan(prefix, false);
      var line := lines[|lines| - 1];
      assert AtMostSingleSpace(line);
      if Qualifies(line, false) {
        var r := Count(st, Run(1, Space));
        assert Scan(lines, false) == r;
        var k, weight := CountRecords(st, Run(1, Space));
        assert k == Key(Space, 1);
      }
    }
  }

  /** A document whose only indentation is single spaces is detected as
      one space. */
  lemma SingleSpacesOnly(s: string)
    requires forall k :: 0 <= k < |Lines(s)| ==> AtMostSingleSpace(Lines(s)[k])
    requires exists k :: 0 <= k < |Lines(s)| && Indented(Lines(s)[k])
    ensures Detected(s) == Indentation(1, Space)
  {
    var lines := Lines(s);
    EmptyTableIff(lines, true);
    EmptyTableIff(lines, false);
    assert forall k :: 0 <= k < |lines| ==> !Qualifies(lines[k], true);
    ScanSingleSpaces(lines);
    var t := DecidingTable(s);
    assert t == IndentsMapOf(s, false);
    MostUsedKeyNone(t);
    var w := MostUsedKeyIsFirstBest(t);
    KeyRoundTrip(t[w].key);
  }

  /** Markup with no indentation at all is detected as unknown. */
  lemma DetectedExamples()
    ensures Detected("") == Indentation(0, Unknown)
    ensures Detected("<ul></ul>") == Indentation(0, Unknown)
  {
    LinesOfNoBreak("");
    DetectedUnknownIff("");
    LinesOfNoBreak("<ul></ul>");
    DetectedUnknownIff("<ul></ul>");
  }
}
