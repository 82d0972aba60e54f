/**
 * `makeIndentsMap`: the line-by-line scan that counts, for every key (an
 * indentation type and the size of an indent or unindent), how often it
 * occurs and how often the line after it kept the same indentation.
 */
module IndentsMap {
  import opened Wrappers
  import opened Style
  import opened Split
  import opened Keys

  /** The match of `^(?:( )+|\t+)`: a size and the type of the run. */
  datatype Run = Run(size: nat, indentType: IndentType)

  /** Length of the maximal leading run of `c`. */
  function RunLength(line: string, c: char): (n: nat)
    ensures n <= |line|
    ensures forall k :: 0 <= k < n ==> line[k] == c
    ensures n < |line| ==> line[n] != c
  {
    if |line| == 0 || line[0] != c then 0 else 1 + RunLength(line[1..], c)
  }

  /** The maximal leading run of spaces, else the maximal leading run of
      tabs, else nothing. */
  function LeadingRun(line: string): (r: Option<Run>)
    ensures r.None? <==> |line| == 0 || (line[0] != ' ' && line[0] != '\t')
    ensures r.Some? ==>
      && 1 <= r.value.size <= |line|
      && r.value.indentType == (if line[0] == ' ' then Space else Tab)
      && (forall k :: 0 <= k < r.value.size ==> line[k] == line[0])
      && (r.value.size < |line| ==> line[r.value.size] != line[0])
  {
    if |line| > 0 && line[0] == ' ' then Some(Run(RunLength(line, ' '), Space))
    else if |line| > 0 && line[0] == '\t' then Some(Run(RunLength(line, '\t'), Tab))
    else None
  }

  /** One entry of the map: `$indents[key] = [count, weight]`. */
  datatype Entry = Entry(key: Key, count: nat, weight: nat)

  /** Position of `k` in the table, or `|t|` when it is not there
      (`isset($indents[$key])` is `Find(t, k) < |t|`). */
  function Find(t: seq<Entry>, k: Key): (j: nat)
    ensures j <= |t|
    ensures j < |t| ==> t[j].key == k
    ensures forall i :: 0 <= i < j ==> t[i].key != k
  {
    if |t| == 0 then 0
    else if t[0].key == k then 0
    else 1 + Find(t[1..], k)
  }

  /** Every key is a space or tab key of size at least 1, has been counted
      at least once and has a weight below its count. */
  predicate WellFormed(t: seq<Entry>)
  {
    forall i :: 0 <= i < |t| ==>
      t[i].key.amount >= 1 && t[i].key.indentType != Unknown && t[i].count >= 1 && t[i].weight <= t[i].count - 1
  }

  /** No key appears twice, as in the string-keyed PHP array. */
  predicate DistinctKeys(t: seq<Entry>)
  {
    forall i, j :: 0 <= i < j < |t| ==> t[i].key != t[j].key
  }

  /** "Update the stats": a new key starts at `[1, 0]`, a known one gets one
      more count and `weight` more weight; the order of insertion is kept. */
  function Record(t: seq<Entry>, k: Key, weight: nat): (r: seq<Entry>)
    requires WellFormed(t)
    requires k.amount >= 1 && k.indentType != Unknown && weight <= 1
    ensures WellFormed(r)
    ensures Find(r, k) < |r|
    ensures Find(t, k) == |t| ==> r == t + [Entry(k, 1, 0)]
    ensures Find(t, k) < |t| ==> |r| == |t| && r[Find(t, k)] == Entry(k, t[Find(t, k)].count + 1, t[Find(t, k)].weight + weight)
    ensures forall i :: 0 <= i < |t| && t[i].key != k ==> r[i] == t[i]
  {
    var j := Find(t, k);
    if j == |t| then
      var r := t + [Entry(k, 1, 0)];
      FindLast(t, Entry(k, 1, 0));
      r
    else
      t[j := Entry(k, t[j].count + 1, t[j].weight + weight)]
  }

  lemma FindLast(t: seq<Entry>, e: Entry)
    requires Find(t, e.key) == |t|
    ensures Find(t + [e], e.key) == |t|
  {
    var r := t + [e];
    var f := Find(r, e.key);
    assert r[|t|].key == e.key;
  }

  /** The variables the scan threads from line to line. Both `null` and `''`
      for the previous type are `None`: neither equals a type. */
  datatype ScanState = ScanState(
    previousSize: nat,
    previousIndentType: Option<IndentType>,
    key: Option<Key>,
    indents: seq<Entry>)

  /** What holds between lines: the table is well formed, and a nonzero
      previous size comes with a key of the previous type that is in the
      table. The second half is why the assertion on `$key` holds. */
  predicate Inv(st: ScanState)
  {
    && WellFormed(st.indents)
    && st.previousIndentType != Some(Unknown)
    && (st.previousSize > 0 ==>
          && st.key.Some?
          && st.previousIndentType == Some(st.key.value.indentType)
          && Find(st.indents, st.key.value) < |st.indents|)
  }

  /** A line that contributes to the table in a pass. */
  predicate Qualifies(line: string, ignoreSingleSpaces: bool)
  {
    LeadingRun(line).Some? && !(ignoreSingleSpaces && LeadingRun(line).value == Run(1, Space))
  }

  function Abs(x: int): nat
  {
    if x > 0 then x else -x
  }

  /** A counted line: compare its run with the previous line's (a change of
      type compares with 0), then count the key of the difference, or, when
      there is none, count the previous key again with one more weight. */
  function Count(st: ScanState, run: Run): (r: ScanState)
    requires Inv(st) && run.size >= 1 && run.indentType != Unknown
    ensures Inv(r)
    ensures r.previousSize == run.size && r.previousIndentType == Some(run.indentType)
    ensures r.key.Some? && Find(r.indents, r.key.value) < |r.indents|
    ensures |r.indents| >= |st.indents|
  {
    var previous := if Some(run.indentType) != st.previousIndentType then 0 else st.previousSize;
    var difference := run.size - previous;
    if difference == 0 then
      ScanState(run.size, Some(run.indentType), st.key, Record(st.indents, st.key.value, 1))
    else
      var k := Key(run.indentType, Abs(difference));
      ScanState(run.size, Some(run.indentType), Some(k), Record(st.indents, k, 0))
  }

  /** One iteration of the `foreach` over the lines. */
  function Step(st: ScanState, line: string, ignoreSingleSpaces: bool): (r: ScanState)
    requires Inv(st)
    ensures Inv(r)
    ensures !Qualifies(line, ignoreSingleSpaces) ==> r.indents == st.indents && r.key == st.key
    ensures Qualifies(line, ignoreSingleSpaces) ==> r == Count(st, LeadingRun(line).value)
  {
    if line == [] then st
    else match LeadingRun(line)
      case None => st.(previousSize := 0, previousIndentType := None)
      case Some(run) =>
        if ignoreSingleSpaces && run.indentType == Space && run.size == 1 then st
        else Count(st, run)
  }

  /** The assertion on `$key`: on a counted line, the key the loop body
      records is set, with a positive amount and a known type, even when the
      difference is 0 and the body reuses the previous line's key. */
  lemma CountedLineKey(st: ScanState, line: string, ignoreSingleSpaces: bool,
                       difference: int, key: Option<Key>)
    requires Inv(st) && Qualifies(line, ignoreSingleSpaces)
    requires var run := LeadingRun(line).value;
      && difference == run.size - (if Some(run.indentType) != st.previousIndentType then 0 else st.previousSize)
      && key == (if difference == 0 then st.key else Some(Key(run.indentType, Abs(difference))))
    ensures key.Some? && key.value.amount >= 1 && key.value.indentType != Unknown
  {
  }

  /** The loop body of `MakeIndentsMap` on a counted line computes `Step`. */
  lemma CountedLine(st: ScanState, line: string, ignoreSingleSpaces: bool,
                    difference: int, weight: nat, key: Option<Key>, indents: seq<Entry>)
    requires Inv(st) && Qualifies(line, ignoreSingleSpaces)
    requires var run := LeadingRun(line).value;
      && difference == run.size - (if Some(run.indentType) != st.previousIndentType then 0 else st.previousSize)
      && key == (if difference == 0 then st.key else Some(Key(run.indentType, Abs(difference))))
      && weight == (if difference == 0 then 1 else 0)
    requires indents == Record(st.indents, key.value, weight)
    ensures Step(st, line, ignoreSingleSpaces) ==
      ScanState(LeadingRun(line).value.size, Some(LeadingRun(line).value.indentType), key, indents)
  {
  }

  const Initial := ScanState(0, None, None, [])

  /** The scan state after the given lines. */
  function Scan(lines: seq<string>, ignoreSingleSpaces: bool): (r: ScanState)
    ensures Inv(r)
  {
    if |lines| == 0 then Initial
    else Step(Scan(lines[..|lines| - 1], ignoreSingleSpaces), lines[|lines| - 1], ignoreSingleSpaces)
  }

  /** The scan of two lines is two steps from the initial state. */
  lemma ScanTwo(a: string, b: string, ignoreSingleSpaces: bool)
    ensures Scan([a, b], ignoreSingleSpaces) ==
      Step(Step(Initial, a, ignoreSingleSpaces), b, ignoreSingleSpaces)
  {
    assert [a, b][..1] == [a] && [a][..0] == [];
    assert Scan([a], ignoreSingleSpaces) == Step(Initial, a, ignoreSingleSpaces);
  }

  /** The first counted line records the key of its own run, once. */
  lemma FirstCounted(line: string, ignoreSingleSpaces: bool)
    requires Qualifies(line, ignoreSingleSpaces)
    ensures var run := LeadingRun(line).value; var k := Key(run.indentType, run.size);
      Step(Initial, line, ignoreSingleSpaces) == ScanState(run.size, Some(run.indentType), Some(k), [Entry(k, 1, 0)])
  {
    var run := LeadingRun(line).value;
    var k := Key(run.indentType, run.size);
    assert Record([], k, 0) == [Entry(k, 1, 0)];
  }

  /** A line of the same type that indents by the last key's amount again,
      after a counted line, counts that key once more, with no added
      weight; every other entry is kept. */
  lemma SameIndentAgain(st: ScanState, line: string, ignoreSingleSpaces: bool)
    requires Inv(st) && Qualifies(line, ignoreSingleSpaces) && st.previousSize > 0
    requires LeadingRun(line).value == Run(st.previousSize + st.key.value.amount, st.key.value.indentType)
    ensures var j := Find(st.indents, st.key.value);
      Step(st, line, ignoreSingleSpaces).indents ==
        st.indents[j := Entry(st.key.value, st.indents[j].count + 1, st.indents[j].weight)]
  {
  }

  /** The map that `makeIndentsMap(s, ignoreSingleSpaces)` returns. */
  function IndentsMapOf(s: string, ignoreSingleSpaces: bool): (t: seq<Entry>)
    ensures WellFormed(t)
  {
    Scan(Lines(s), ignoreSingleSpaces).indents
  }

  /** The scan as the source writes it: a loop over the lines that updates
      the previous size, the previous type, the last key and the table. */
  method MakeIndentsMap(s: string, ignoreSingleSpaces: bool) returns (indents: seq<Entry>)
    ensures indents == IndentsMapOf(s, ignoreSingleSpaces)
    ensures WellFormed(indents) && DistinctKeys(indents)
  {
    indents := [];
    var previousSize: nat := 0;
    var previousIndentType: Option<IndentType> := None;
    var key: Option<Key> := None;
    var lines := Lines(s);
    for i := 0 to |lines|
      invariant ScanState(previousSize, previousIndentType, key, indents) == Scan(lines[..i], ignoreSingleSpaces)
    {
      assert lines[..i + 1][..i] == lines[..i];
      ghost var before := Scan(lines[..i], ignoreSingleSpaces);
      var line := lines[i];
      ghost var after := Step(before, line, ignoreSingleSpaces);
      assert Scan(lines[..i + 1], ignoreSingleSpaces) == after;
      if line == [] {
        continue;
      }
      var matched := LeadingRun(line);
      if matched.None? {
        previousSize := 0;
        previousIndentType := None;
        continue;
      }
      var indent := matched.value.size;
      var indentType := matched.value.indentType;
      if ignoreSingleSpaces && indentType == Space && indent == 1 {
        continue;
      }
      if Some(indentType) != previousIndentType {
        previousSize := 0;
      }
      previousIndentType := Some(indentType);
      var weight := 0;
      var indentDifference := indent - previousSize;
      previousSize := indent;
      if indentDifference == 0 {
        weight := weight + 1;
      } else {
        key := Some(Key(indentType, if indentDifference > 0 then indentDifference else -indentDifference));
      }
      CountedLineKey(before, line, ignoreSingleSpaces, indentDifference, key);
      indents := Record(indents, key.value, weight);
      CountedLine(before, line, ignoreSingleSpaces, indentDifference, weight, key, indents);
    }
    assert lines[..|lines|] == lines;
    ScanDistinctKeys(lines, ignoreSingleSpaces);
  }

  /** How the three kinds of uncounted line act on the scan: an empty line
      changes nothing, nor does a line that starts with exactly one space when
      single spaces are ignored, and a line that starts with neither a space
      nor a tab forgets the previous size and type but keeps the key and the
      table. */
  lemma StepLineKinds(st: ScanState, line: string, ignoreSingleSpaces: bool)
    requires Inv(st)
    ensures line == [] ==> Step(st, line, ignoreSingleSpaces) == st
    ensures ignoreSingleSpaces && |line| >= 1 && line[0] == ' ' && (|line| == 1 || line[1] != ' ') ==>
      Step(st, line, ignoreSingleSpaces) == st
    ensures |line| >= 1 && line[0] != ' ' && line[0] != '\t' ==>
      Step(st, line, ignoreSingleSpaces) == ScanState(0, None, st.key, st.indents)
  {
    if ignoreSingleSpaces && |line| >= 1 && line[0] == ' ' && (|line| == 1 || line[1] != ' ') {
      assert LeadingRun(line) == Some(Run(1, Space));
    }
  }

  /** Lines the pass does not count. */
  predicate Neutral(line: string, ignoreSingleSpaces: bool)
  {
    line == [] || (ignoreSingleSpaces && LeadingRun(line) == Some(Run(1, Space)))
  }

  /** Inserting an empty line (or, when single spaces are ignored, a
      single-space line) anywhere leaves the whole scan unchanged. */
  lemma {:induction false} NeutralLineInsertion(a: seq<string>, line: string, b: seq<string>, ignoreSingleSpaces: bool)
    requires Neutral(line, ignoreSingleSpaces)
    ensures Scan(a + [line] + b, ignoreSingleSpaces) == Scan(a + b, ignoreSingleSpaces)
    decreases |b|
  {
    if |b| == 0 {
      assert a + [line] + b == a + [line];
      assert (a + [line])[..|a|] == a;
      assert a + b == a;
    } else {
      var b' := b[..|b| - 1];
      var x := b[|b| - 1];
      assert (a + [line] + b)[..|a + [line] + b| - 1] == a + [line] + b';
      assert (a + b)[..|a + b| - 1] == a + b';
      NeutralLineInsertion(a, line, b', ignoreSingleSpaces);
    }
  }

  /** The table of a pass is empty exactly when no line qualifies for it. */
  lemma {:induction false} EmptyTableIff(lines: seq<string>, ignoreSingleSpaces: bool)
    ensures Scan(lines, ignoreSingleSpaces).indents == [] <==>
      forall k :: 0 <= k < |lines| ==> !Qualifies(lines[k], ignoreSingleSpaces)
  {
    if |lines| > 0 {
      var prefix := lines[..|lines| - 1];
      EmptyTableIff(prefix, ignoreSingleSpaces);
      var last := lines[|lines| - 1];
      assert forall k :: 0 <= k < |prefix| ==> prefix[k] == lines[k];
      if Qualifies(last, ignoreSingleSpaces) {
        assert |Scan(lines, ignoreSingleSpaces).indents| > 0;
      }
    }
  }

  /** The table a counted line leaves is the old one with one key recorded. */
  lemma CountRecords(st: ScanState, run: Run) returns (k: Key, weight: nat)
    requires Inv(st) && run.size >= 1 && run.indentType != Unknown
    ensures k.amount >= 1 && k.indentType != Unknown && weight <= 1
    ensures Count(st, run).indents == Record(st.indents, k, weight)
  {
    var previous := if Some(run.indentType) != st.previousIndentType then 0 else st.previousSize;
    if run.size - previous == 0 {
      k, weight := st.key.value, 1;
    } else {
      k, weight := Key(run.indentType, Abs(run.size - previous)), 0;
    }
  }

  lemma RecordDistinct(t: seq<Entry>, k: Key, weight: nat)
    requires WellFormed(t) && DistinctKeys(t)
    requires k.amount >= 1 && k.indentType != Unknown && weight <= 1
    ensures DistinctKeys(Record(t, k, weight))
  {
    var r := Record(t, k, weight);
    if Find(t, k) == |t| {
      forall i, j | 0 <= i < j < |r| ensures r[i].key != r[j].key {
        if j == |t| {
          assert r[i] == t[i];
        }
      }
    } else {
      assert forall i :: 0 <= i < |r| ==> r[i].key == t[i].key;
    }
  }

  /** No key is entered twice in the table. */
  lemma {:induction false} ScanDistinctKeys(lines: seq<string>, ignoreSingleSpaces: bool)
    ensures DistinctKeys(Scan(lines, ignoreSingleSpaces).indents)
  {
    if |lines| > 0 {
      var st := Scan(lines[..|lines| - 1], ignoreSingleSpaces);
      ScanDistinctKeys(lines[..|lines| - 1], ignoreSingleSpaces);
      var line := lines[|lines| - 1];
      if Qualifies(line, ignoreSingleSpaces) {
        var k, weight := CountRecords(st, LeadingRun(line).value);
        RecordDistinct(st.indents, k, weight);
      }
    }
  }

  /** Sum of the counts of a table. */
  function TotalCount(t: seq<Entry>): nat
  {
    if |t| == 0 then 0 else TotalCount(t[..|t| - 1]) + t[|t| - 1].count
  }

  /** Number of lines a pass counts. */
  function CountedLines(lines: seq<string>, ignoreSingleSpaces: bool): nat
  {
    if |lines| == 0 then 0
    else CountedLines(lines[..|lines| - 1], ignoreSingleSpaces) + (if Qualifies(lines[|lines| - 1], ignoreSingleSpaces) then 1 else 0)
  }

  lemma {:induction false} TotalCountUpdate(t: seq<Entry>, j: nat, e: Entry)
    requires j < |t|
    ensures TotalCount(t[j := e]) + t[j].count == TotalCount(t) + e.count
    decreases |t|
  {
    var u := t[j := e];
    if j < |t| - 1 {
      assert u[..|u| - 1] == t[..|t| - 1][j := e];
      TotalCountUpdate(t[..|t| - 1], j, e);
    } else {
      assert u[..|u| - 1] == t[..|t| - 1];
    }
  }

  lemma RecordTotal(t: seq<Entry>, k: Key, weight: nat)
    requires WellFormed(t)
    requires k.amount >= 1 && k.indentType != Unknown && weight <= 1
    ensures TotalCount(Record(t, k, weight)) == TotalCount(t) + 1
  {
    var j := Find(t, k);
    if j == |t| {
      assert (t + [Entry(k, 1, 0)])[..|t|] == t;
    } else {
      TotalCountUpdate(t, j, Entry(k, t[j].count + 1, t[j].weight + weight));
    }
  }

  /** Every counted line adds exactly one to exactly one count: the counts of
      the table sum to the number of counted lines. */
  lemma {:induction false} ScanTotalCount(lines: seq<string>, ignoreSingleSpaces: bool)
    ensures TotalCount(Scan(lines, ignoreSingleSpaces).indents) == CountedLines(lines, ignoreSingleSpaces)
  {
    if |lines| > 0 {
      var st := Scan(lines[..|lines| - 1], ignoreSingleSpaces);
      ScanTotalCount(lines[..|lines| - 1], ignoreSingleSpaces);
      var line := lines[|lines| - 1];
      if Qualifies(line, ignoreSingleSpaces) {
        var k, weight := CountRecords(st, LeadingRun(line).value);
        RecordTotal(st.indents, k, weight);
      }
    }
  }
}
