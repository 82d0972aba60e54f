/**
 * Line splitting on PCRE's `\R` without the `u` flag: a line break is the
 * pair CR LF, or one of LF, VT, FF, CR and NEL (0x85), CR LF being tried
 * first. Text is a sequence of `char`, one per byte.
 */
module Split {

  predicate IsBreak(c: char)
  {
    c == '\n' || c == '\U{B}' || c == '\U{C}' || c == '\r' || c == '\U{85}'
  }

  predicate NoBreak(line: string)
  {
    forall k :: 0 <= k < |line| ==> !IsBreak(line[k])
  }

  lemma NoBreakAppend(a: string, b: string)
    requires NoBreak(a) && NoBreak(b)
    ensures NoBreak(a + b)
  {
    assert forall k :: |a| <= k < |a + b| ==> (a + b)[k] == b[k - |a|];
  }

  lemma NoBreakSuffix(s: string, n: nat)
    requires NoBreak(s) && n <= |s|
    ensures NoBreak(s[n..])
  {
    assert forall k :: 0 <= k < |s| - n ==> s[n..][k] == s[n + k];
  }

  /** One match of `\R`. */
  predicate IsSeparator(sep: string)
  {
    sep == "\r\n" || (|sep| == 1 && IsBreak(sep[0]))
  }

  /** Index of the first break character, or `|s|` when there is none. */
  function FirstBreak(s: string): (i: nat)
    ensures i <= |s|
    ensures NoBreak(s[..i])
    ensures i < |s| ==> IsBreak(s[i])
  {
    if |s| == 0 || IsBreak(s[0]) then 0
    else
      var j := FirstBreak(s[1..]);
      assert s[1..][..j] == s[1..j + 1];
      1 + j
  }

  /** Length of the `\R` match that starts at a break character. */
  function SeparatorLength(s: string, i: nat): (n: nat)
    requires i < |s| && IsBreak(s[i])
    ensures i + n <= |s| && IsSeparator(s[i..i + n])
    ensures n == 1 && s[i] == '\r' ==> i + 1 == |s| || s[i + 1] != '\n'
  {
    if s[i] == '\r' && i + 1 < |s| && s[i + 1] == '\n' then 2 else 1
  }

  function Concat(pieces: seq<string>): (r: string)
  {
    if |pieces| == 0 then [] else pieces[0] + Concat(pieces[1..])
  }

  lemma {:induction false} ConcatAppend(a: seq<string>, b: seq<string>)
    ensures Concat(a + b) == Concat(a) + Concat(b)
  {
    if |a| > 0 {
      assert (a + b)[1..] == a[1..] + b;
      ConcatAppend(a[1..], b);
    } else {
      assert a + b == b;
    }
  }

  lemma ConcatSnoc(a: seq<string>, x: string)
    ensures Concat(a + [x]) == Concat(a) + x
  {
    ConcatAppend(a, [x]);
    assert Concat([x]) == x + Concat([]);
  }

  lemma ConcatPrefixSnoc(r: seq<string>, i: nat)
    requires i < |r|
    ensures Concat(r[..i + 1]) == Concat(r[..i]) + r[i]
  {
    assert r[..i + 1] == r[..i] + [r[i]];
    ConcatSnoc(r[..i], r[i]);
  }

  lemma ConcatCons2(a: string, b: string, rest: seq<string>)
    ensures Concat([a, b] + rest) == a + (b + Concat(rest))
  {
    var r := [a, b] + rest;
    assert r[1..][1..] == rest;
  }

  /**
   * A decomposition as `preg_split` with `PREG_SPLIT_DELIM_CAPTURE` returns
   * it: lines at the even positions, separators at the odd ones, and a CR
   * separator never followed by an empty line and a lone LF (those two would
   * have been one CR LF).
   */
  predicate Alternates(pieces: seq<string>)
  {
    && |pieces| % 2 == 1
    && (forall k :: 0 <= k < |pieces| && k % 2 == 0 ==> NoBreak(pieces[k]))
    && (forall k :: 0 <= k < |pieces| && k % 2 == 1 ==> IsSeparator(pieces[k]))
    && (forall k :: 0 <= k < |pieces| - 2 && k % 2 == 1 && pieces[k] == "\r" && pieces[k + 1] == [] ==>
          pieces[k + 2] != "\n")
  }

  /** Prepending one line and one separator to an alternating sequence
      keeps it alternating, unless they would have run together into CR LF. */
  lemma AlternatesCons2(a: string, b: string, rest: seq<string>)
    requires NoBreak(a) && IsSeparator(b) && Alternates(rest)
    requires !(b == "\r" && rest[0] == [] && |rest| > 1 && rest[1] == "\n")
    ensures Alternates([a, b] + rest)
  {
    var r := [a, b] + rest;
    forall k | 0 <= k < |r| && k % 2 == 0
      ensures NoBreak(r[k])
    {
      if k >= 2 {
        assert r[k] == rest[k - 2];
      }
    }
    forall k | 0 <= k < |r| && k % 2 == 1
      ensures IsSeparator(r[k])
    {
      if k >= 2 {
        assert r[k] == rest[k - 2];
      }
    }
    forall k | 0 <= k < |r| - 2 && k % 2 == 1 && r[k] == "\r" && r[k + 1] == []
      ensures r[k + 2] != "\n"
    {
      if k >= 2 {
        assert r[k] == rest[k - 2] && r[k + 1] == rest[k - 1] && r[k + 2] == rest[k];
      } else {
        assert r[2] == rest[0] && r[3] == rest[1];
      }
    }
  }

  /** The first line, the first separator and the rest of an alternating
      sequence of more than one piece. */
  lemma AlternatesUncons2(r: seq<string>)
    requires Alternates(r) && |r| > 1
    ensures NoBreak(r[0]) && IsSeparator(r[1]) && Alternates(r[2..])
    ensures !(r[1] == "\r" && r[2] == [] && |r| > 3 && r[3] == "\n")
  {
    var rest := r[2..];
    forall k | 0 <= k < |rest| && k % 2 == 0
      ensures NoBreak(rest[k])
    {
      assert rest[k] == r[k + 2];
    }
    forall k | 0 <= k < |rest| && k % 2 == 1
      ensures IsSeparator(rest[k])
    {
      assert rest[k] == r[k + 2];
    }
    forall k | 0 <= k < |rest| - 2 && k % 2 == 1 && rest[k] == "\r" && rest[k + 1] == []
      ensures rest[k + 2] != "\n"
    {
      assert rest[k] == r[k + 2] && rest[k + 1] == r[k + 3] && rest[k + 2] == r[k + 4];
    }
  }

  /** An alternating sequence whose text starts with LF starts with an
      empty line and a lone LF separator. */
  lemma ConcatStartsWithLf(rest: seq<string>)
    requires Alternates(rest)
    requires |Concat(rest)| > 0 && Concat(rest)[0] == '\n'
    ensures |rest| > 1 && rest[0] == [] && rest[1] == "\n"
  {
    assert Concat(rest) == rest[0] + Concat(rest[1..]);
    if |rest[0]| == 0 && |rest| > 1 {
      assert rest == [rest[0], rest[1]] + rest[2..];
      ConcatCons2(rest[0], rest[1], rest[2..]);
    }
  }

  /** `preg_split('/(\R)/', s, flags: PREG_SPLIT_DELIM_CAPTURE)`. */
  function Pieces(s: string): (r: seq<string>)
    ensures |r| % 2 == 1
    decreases |s|
  {
    var i := FirstBreak(s);
    if i == |s| then [s]
    else
      var n := SeparatorLength(s, i);
      [s[..i], s[i..i + n]] + Pieces(s[i + n..])
  }

  /** A lone CR separator is not followed by an empty line and a lone LF
      when the text after it does not start with LF. */
  lemma CrNotMerged(sep: string, tail: string, rest: seq<string>)
    requires Alternates(rest) && Concat(rest) == tail
    requires sep == "\r" ==> |tail| == 0 || tail[0] != '\n'
    ensures !(sep == "\r" && rest[0] == [] && |rest| > 1 && rest[1] == "\n")
  {
    if rest[0] == [] && |rest| > 1 && rest[1] == "\n" {
      assert rest == [rest[0], rest[1]] + rest[2..];
      ConcatCons2(rest[0], rest[1], rest[2..]);
      assert tail[0] == '\n';
    }
  }

  /** `Pieces` loses no character. */
  lemma {:induction false} PiecesConcat(s: string)
    ensures Concat(Pieces(s)) == s
    decreases |s|
  {
    var i := FirstBreak(s);
    if i == |s| {
      assert s[..i] == s;
      assert Concat([s]) == s + Concat([]);
    } else {
      var n := SeparatorLength(s, i);
      var tail := s[i + n..];
      PiecesConcat(tail);
      ConcatCons2(s[..i], s[i..i + n], Pieces(tail));
      assert s == s[..i] + (s[i..i + n] + tail);
    }
  }

  /** `Pieces` alternates lines and separators and loses no character. */
  lemma {:induction false} PiecesSpec(s: string)
    ensures Alternates(Pieces(s))
    ensures Concat(Pieces(s)) == s
    decreases |s|
  {
    PiecesConcat(s);
    var i := FirstBreak(s);
    if i == |s| {
      assert s[..i] == s;
    } else {
      var n := SeparatorLength(s, i);
      var line := s[..i];
      var sep := s[i..i + n];
      var tail := s[i + n..];
      var rest := Pieces(tail);
      PiecesSpec(tail);
      assert sep == "\r" ==> n == 1 && s[i] == '\r';
      assert |tail| > 0 ==> tail[0] == s[i + n];
      CrNotMerged(sep, tail, rest);
      AlternatesCons2(line, sep, rest);
    }
  }

  /** The lines of `preg_split('/\R/', s)`: the even positions of `Pieces`. */
  function Lines(s: string): (lines: seq<string>)
    ensures |lines| == |Pieces(s)| / 2 + 1
    ensures forall k :: 0 <= k < |lines| ==> lines[k] == Pieces(s)[2 * k]
    ensures forall k :: 0 <= k < |lines| ==> NoBreak(lines[k])
  {
    var p := Pieces(s);
    var lines := seq(|p| / 2 + 1, k requires 0 <= k < |p| / 2 + 1 => p[2 * k]);
    assert forall k :: 0 <= k < |lines| ==> NoBreak(lines[k]) by {
      PiecesSpec(s);
      forall k | 0 <= k < |lines|
        ensures NoBreak(lines[k])
      {
        assert 2 * k < |p| && (2 * k) % 2 == 0;
      }
    }
    lines
  }

  /** A text without break characters is a single line. */
  lemma LinesOfNoBreak(s: string)
    requires NoBreak(s)
    ensures Pieces(s) == [s]
    ensures Lines(s) == [s]
  {
    NoBreakFirstBreak(s, []);
    assert s + [] == s;
  }

  /** Two break-free lines joined by one LF are those two lines. */
  lemma TwoLines(a: string, b: string)
    requires NoBreak(a) && NoBreak(b)
    ensures Pieces(a + "\n" + b) == [a, "\n", b]
    ensures Lines(a + "\n" + b) == [a, b]
  {
    var q := [a, "\n", b];
    assert q == [a, "\n"] + [b];
    LinesOfNoBreak(b);
    PiecesSpec(b);
    assert IsSeparator("\n");
    AlternatesCons2(a, "\n", [b]);
    assert Concat(q) == a + "\n" + b by {
      ConcatCons2(a, "\n", [b]);
      assert Concat([b]) == b + Concat([]);
    }
    PiecesOfConcat(q);
  }

  /**
   * The decomposition is unique: any alternating sequence is the one that
   * `Pieces` recovers from its concatenation.
   */
  lemma {:induction false} PiecesOfConcat(q: seq<string>)
    requires Alternates(q)
    ensures Pieces(Concat(q)) == q
    decreases |q|
  {
    if |q| == 1 {
      var s := Concat(q);
      assert q[1..] == [];
      assert s == q[0] + Concat([]);
      NoBreakFirstBreak(q[0], []);
      assert q[0] + [] == q[0];
      assert q == [q[0]];
    } else {
      var rest := q[2..];
      AlternatesUncons2(q);
      PiecesOfConcat(rest);
      assert q == [q[0], q[1]] + rest;
      PiecesOfConcatCons(q[0], q[1], rest);
    }
  }

  lemma PiecesOfConcatCons(line: string, sep: string, rest: seq<string>)
    requires NoBreak(line) && IsSeparator(sep) && Alternates(rest)
    requires !(sep == "\r" && rest[0] == [] && |rest| > 1 && rest[1] == "\n")
    requires Pieces(Concat(rest)) == rest
    ensures Pieces(Concat([line, sep] + rest)) == [line, sep] + rest
  {
    SeparatorOfConcat(sep, rest);
    PiecesCons(line, sep, Concat(rest), rest);
    ConcatCons2(line, sep, rest);
  }

  /** A break-free line, a separator that the text after it does not
      extend, and that text: `Pieces` of the three is the line, the
      separator and the pieces of the text. */
  lemma PiecesCons(line: string, sep: string, tail: string, rest: seq<string>)
    requires NoBreak(line) && IsSeparator(sep)
    requires SeparatorLength(sep + tail, 0) == |sep|
    requires Pieces(tail) == rest
    ensures Pieces(line + (sep + tail)) == [line, sep] + rest
  {
    var s := line + (sep + tail);
    var i := |line|;
    NoBreakFirstBreak(line, sep + tail);
    assert s[i..] == sep + tail;
    assert s[i] == (sep + tail)[0];
    assert SeparatorLength(s, i) == |sep| by {
      if |sep + tail| > 1 {
        assert s[i + 1] == (sep + tail)[1];
      }
    }
    var n := |sep|;
    assert s[..i] == line;
    assert s[i..i + n] == sep;
    assert s[i + n..] == tail;
  }

  /** Where an alternating text continues after a separator `sep`, the
      match of `\R` there is `sep` itself. */
  lemma SeparatorOfConcat(sep: string, rest: seq<string>)
    requires IsSeparator(sep) && Alternates(rest)
    requires !(sep == "\r" && rest[0] == [] && |rest| > 1 && rest[1] == "\n")
    ensures SeparatorLength(sep + Concat(rest), 0) == |sep|
  {
    var t := sep + Concat(rest);
    if sep == "\r" && 1 < |t| && t[1] == '\n' {
      assert Concat(rest)[0] == t[1];
      ConcatStartsWithLf(rest);
    }
  }

  lemma NoBreakFirstBreak(line: string, tail: string)
    requires NoBreak(line)
    requires tail == [] || IsBreak(tail[0])
    ensures FirstBreak(line + tail) == |line|
    decreases |line|
  {
    if |line| > 0 {
      assert (line + tail)[1..] == line[1..] + tail;
      NoBreakFirstBreak(line[1..], tail);
    }
  }
}
