/** The N-Triples line splitter: the subject ends at the first separator, the
    predicate at the second, and the object at the run of separators that
    precedes the last '.' of the line. No term is scanned for quotes. */
module NTriplesParser {
  import opened JavaLang
  import opened Cuts

  /** The separator used when none is given to the constructor. */
  const DefaultSeparator: char := ' '

  /** The effect of the loop that steps back from the last '.' over the
      separators just before it: the index where the object ends. The loop reads
      `charAt(pos - 1)`, so it throws once it runs out of characters. */
  function ObjectEnd(line: string, separator: char, pos: int): (r: Outcome<int>)
    requires pos < |line|
    ensures r.Returned? ==> 1 <= r.value <= pos && line[r.value - 1] != separator
    ensures r.Returned? ==> forall i :: r.value <= i < pos ==> line[i] == separator
    ensures r.Threw? ==> r.exception == StringIndexOutOfBounds
    ensures r.Threw? ==> forall i :: 0 <= i < pos ==> line[i] == separator
    decreases pos
  {
    match CharAt(line, pos - 1)
    case Threw(e) => Threw(e)
    case Returned(c) => if c == separator then ObjectEnd(line, separator, pos - 1) else Returned(pos)
  }

  /** `parse(line)` for a non-null line: the subject, predicate and object, or
      the StringIndexOutOfBoundsException that `substring`/`charAt` throw. */
  function Parse(line: string, separator: char): (r: Outcome<seq<string>>)
    ensures r.Returned? ==> |r.value| == 3
    ensures r.Threw? ==> r.exception == StringIndexOutOfBounds
  {
    var firstSpacePos := IndexOf(line, separator, 0);
    var secondSpacePos := IndexOf(line, separator, firstSpacePos + 1);
    var end :- ObjectEnd(line, separator, LastIndexOf(line, '.', |line| - 1));
    Cut(line, firstSpacePos, secondSpacePos, end)
  }

  /** `NTriplesParser.parse`, step by step as the Java method runs it: a null line
      gives null, otherwise the indices are found and the end index walks back
      over the separators before the last '.'. */
  method ParseLine(line: Option<string>, separator: char) returns (r: Outcome<Option<seq<string>>>)
    ensures line.None? ==> r == Returned(None)
    ensures line.Some? ==> r == NonNull(Parse(line.value, separator))
  {
    if line.None? {
      return Returned(None);
    }
    var s := line.value;
    var firstSpacePos := IndexOf(s, separator, 0);
    var secondSpacePos := IndexOf(s, separator, firstSpacePos + 1);
    var lastSpacePos := LastIndexOf(s, '.', |s| - 1);
    ghost var dot := lastSpacePos;
    while true
      invariant lastSpacePos <= dot
      invariant ObjectEnd(s, separator, lastSpacePos) == ObjectEnd(s, separator, dot)
      decreases lastSpacePos
    {
      var c := CharAt(s, lastSpacePos - 1);
      if c.Threw? {
        ParseThrowsAtEnd(s, separator);
        return Threw(c.exception);
      }
      if c.value != separator {
        break;
      }
      lastSpacePos := lastSpacePos - 1;
    }
    var subj := Substring(s, 0, firstSpacePos);
    var pred := Substring(s, firstSpacePos + 1, secondSpacePos);
    var obj := Substring(s, secondSpacePos + 1, lastSpacePos);
    if subj.Threw? || pred.Threw? || obj.Threw? {
      ParseThrowsAtCut(s, separator, lastSpacePos);
      return Threw(StringIndexOutOfBounds);
    }
    ParseAtIndices(s, separator, firstSpacePos, secondSpacePos, lastSpacePos, dot);
    return Returned(Some([subj.value, pred.value, obj.value]));
  }

  /** The walk back from `pos` stops at `e` when `line[e..pos]` is all
      separators and the character before `e` is not one. */
  lemma ObjectEndIs(line: string, separator: char, pos: int, e: int)
    requires 1 <= e <= pos < |line| && line[e - 1] != separator
    requires line[e..pos] == Repeat(separator, pos - e)
    ensures ObjectEnd(line, separator, pos) == Returned(e)
  {
    forall i | e <= i < pos ensures line[i] == separator {
      assert line[i] == line[e..pos][i - e];
    }
  }

  /** The converse of `ObjectEndIs`: where the walk back stops, only
      separators lie between it and `pos`. */
  lemma ObjectEndRun(line: string, separator: char, pos: int, e: int)
    requires pos < |line| && ObjectEnd(line, separator, pos) == Returned(e)
    ensures line[e..pos] == Repeat(separator, pos - e)
  {
    var run := line[e..pos];
    forall x | 0 <= x < |run| ensures run[x] == separator {
      assert run[x] == line[e + x];
    }
  }

  /** When `dot` holds the last '.' and only separators lie between it and a
      non-separator at `e - 1`, `parse` finds that '.' and walks back to `e`. */
  lemma DotEndAt(line: string, separator: char, e: int, dot: int)
    requires 1 <= e <= dot < |line| && line[e - 1] != separator
    requires line[e..dot] == Repeat(separator, dot - e)
    requires line[dot] == '.' && '.' !in line[dot + 1..]
    ensures LastIndexOf(line, '.', |line| - 1) == dot
    ensures ObjectEnd(line, separator, dot) == Returned(e)
  {
    assert line[dot + 1..|line|] == line[dot + 1..];
    LastIndexOfIs(line, '.', |line| - 1, dot);
    ObjectEndIs(line, separator, dot, e);
  }

  /** `Parse` in terms of the three indices `parse` computes: it returns
      exactly when the first separator exists, a second one follows it, the walk
      back from the last '.' stops at a non-separator, and that stop lies past
      the second separator. */
  lemma ParseByIndices(line: string, separator: char, first: int, second: int, dot: int)
    requires first == IndexOf(line, separator, 0) && second == IndexOf(line, separator, first + 1)
    requires dot == LastIndexOf(line, '.', |line| - 1)
    ensures var end := ObjectEnd(line, separator, dot);
      Parse(line, separator) ==
        if 0 <= first < second && end.Returned? && second < end.value
        then Returned([line[..first], line[first + 1..second], line[second + 1..end.value]])
        else Threw(StringIndexOutOfBounds)
  {
    var end := ObjectEnd(line, separator, dot);
    if end.Returned? {
      CutIff(line, first, second, end.value);
    }
  }

  /** The line that subject, predicate and object make with the separator
      between them, `k` further separators, the terminating '.' and a tail. */
  function TripleLine(subj: string, pred: string, obj: string, separator: char, k: nat, tail: string): string {
    subj + [separator] + pred + [separator] + obj + Repeat(separator, k) + ['.'] + tail
  }

  /** A successful split exhibits two separators, then a non-separator, then a '.'. */
  lemma ParseSuccessWitness(line: string, separator: char) returns (i: int, j: int, q: int, d: int)
    requires Parse(line, separator).Returned?
    ensures 0 <= i < j < q < d < |line|
    ensures line[i] == separator && line[j] == separator && line[q] != separator && line[d] == '.'
  {
    i := IndexOf(line, separator, 0);
    j := IndexOf(line, separator, i + 1);
    d := LastIndexOf(line, '.', |line| - 1);
    ParseByIndices(line, separator, i, j, d);
    q := ObjectEnd(line, separator, d).value - 1;
  }

  /** Two separators, then a non-separator, then a '.' are enough for the split
      to succeed. */
  lemma ParseSucceedsFrom(line: string, separator: char, i: int, j: int, q: int, d: int)
    requires 0 <= i < j < q < d < |line|
    requires line[i] == separator && line[j] == separator && line[q] != separator && line[d] == '.'
    ensures Parse(line, separator).Returned?
  {
    var first := IndexOf(line, separator, 0);
    var second := IndexOf(line, separator, first + 1);
    var dot := LastIndexOf(line, '.', |line| - 1);
    ParseByIndices(line, separator, first, second, dot);
    var end := ObjectEnd(line, separator, dot);
    IndexOfFirst(line, separator, 0);
    IndexOfFirst(line, separator, first + 1);
    LastIndexOfLast(line, '.', |line| - 1);
    assert 0 <= first <= i;
    assert first < second <= j;
    assert d <= dot;
    assert end.Returned?;
    assert q < end.value;
  }

  /** `Parse` once the indices `parse` computes are known and in order. */
  lemma ParseAtIndices(line: string, separator: char, first: int, second: int, e: int, dot: int)
    requires first == IndexOf(line, separator, 0) && second == IndexOf(line, separator, first + 1)
    requires dot == LastIndexOf(line, '.', |line| - 1) && ObjectEnd(line, separator, dot) == Returned(e)
    requires 0 <= first < second < e
    ensures Parse(line, separator) == Returned([line[..first], line[first + 1..second], line[second + 1..e]])
  {
    ParseByIndices(line, separator, first, second, dot);
  }

  /** When the walk back from the last '.' runs out of characters, `parse` throws. */
  lemma ParseThrowsAtEnd(line: string, separator: char)
    requires ObjectEnd(line, separator, LastIndexOf(line, '.', |line| - 1)).Threw?
    ensures Parse(line, separator) == Threw(StringIndexOutOfBounds)
  {
  }

  /** A line without a '.' throws: `lastIndexOf('.')` is -1 and `charAt(-2)` fails. */
  lemma LineWithoutDotThrows(line: string, separator: char)
    requires '.' !in line
    ensures Parse(line, separator) == Threw(StringIndexOutOfBounds)
  {
    ParseThrowsAtEnd(line, separator);
  }

  /** When the walk back stops at `e` but one of the three cuts is out of order,
      `parse` throws. */
  lemma ParseThrowsAtCut(line: string, separator: char, e: int)
    requires ObjectEnd(line, separator, LastIndexOf(line, '.', |line| - 1)) == Returned(e)
    requires var first := IndexOf(line, separator, 0);
      var second := IndexOf(line, separator, first + 1);
      !(0 <= first < second < e)
    ensures Parse(line, separator) == Threw(StringIndexOutOfBounds)
  {
    var first := IndexOf(line, separator, 0);
    ParseByIndices(line, separator, first, IndexOf(line, separator, first + 1), LastIndexOf(line, '.', |line| - 1));
  }

  /** Some two separators, non-separator and '.' in that order let the split succeed. */
  lemma ParseSucceedsIfOrdered(line: string, separator: char)
    ensures (exists i, j, q, d :: 0 <= i < j < q < d < |line| && line[i] == separator && line[j] == separator
                                  && line[q] != separator && line[d] == '.')
      ==> Parse(line, separator).Returned?
  {
    if exists i, j, q, d :: 0 <= i < j < q < d < |line| && line[i] == separator && line[j] == separator
        && line[q] != separator && line[d] == '.'
    {
      var i, j, q, d :| 0 <= i < j < q < d < |line| && line[i] == separator && line[j] == separator
        && line[q] != separator && line[d] == '.';
      ParseSucceedsFrom(line, separator, i, j, q, d);
    }
  }

  /** The line splits exactly when it has two separators, then a character that
      is not the separator, then a '.'; otherwise `substring` or `charAt` throws. */
  lemma ParseSucceedsIff(line: string, separator: char)
    ensures Parse(line, separator).Returned? <==>
      exists i, j, q, d :: 0 <= i < j < q < d < |line| && line[i] == separator && line[j] == separator
        && line[q] != separator && line[d] == '.'
  {
    if Parse(line, separator).Returned? {
      var i, j, q, d := ParseSuccessWitness(line, separator);
    }
    ParseSucceedsIfOrdered(line, separator);
  }

  /** A successful split in index form: the terms lie between the first
      separator, the second separator and the end `e` of the object, which is
      followed only by separators up to the last '.'. */
  lemma ParseSlices(line: string, separator: char, r: seq<string>) returns (first: int, second: int, e: int, dot: int)
    requires Parse(line, separator) == Returned(r)
    ensures 0 <= first < second < e - 1 < dot < |line|
    ensures r == [line[..first], line[first + 1..second], line[second + 1..e]]
    ensures first == IndexOf(line, separator, 0) && second == IndexOf(line, separator, first + 1)
    ensures dot == LastIndexOf(line, '.', |line| - 1) && ObjectEnd(line, separator, dot) == Returned(e)
  {
    first := IndexOf(line, separator, 0);
    second := IndexOf(line, separator, first + 1);
    dot := LastIndexOf(line, '.', |line| - 1);
    ParseByIndices(line, separator, first, second, dot);
    e := ObjectEnd(line, separator, dot).value;
  }

  /** Where the pieces a successful split cuts out lie in the line. */
  lemma CutPieces(line: string, separator: char, first: int, second: int, e: int, dot: int)
    requires 0 <= first < second < e - 1 < dot < |line|
    requires first == IndexOf(line, separator, 0) && second == IndexOf(line, separator, first + 1)
    requires dot == LastIndexOf(line, '.', |line| - 1) && ObjectEnd(line, separator, dot) == Returned(e)
    ensures separator !in line[..first] && line[first] == separator
    ensures separator !in line[first + 1..second] && line[second] == separator
    ensures line[e - 1] != separator && line[e..dot] == Repeat(separator, dot - e)
    ensures line[dot] == '.' && '.' !in line[dot + 1..]
  {
    FirstTwoSkip(line, separator, first, second);
    LastIndexOfSkips(line, '.', |line| - 1, dot);
    assert line[dot + 1..|line|] == line[dot + 1..];
    ObjectEndRun(line, separator, dot, e);
  }

  /** Cutting a line at four increasing indices and gluing the pieces back. */
  lemma TripleLineFromCuts(line: string, separator: char, first: int, second: int, e: int, dot: int)
    requires 0 <= first < second < e <= dot < |line|
    requires line[first] == separator && line[second] == separator
    requires line[e..dot] == Repeat(separator, dot - e) && line[dot] == '.'
    ensures line == TripleLine(line[..first], line[first + 1..second], line[second + 1..e], separator, dot - e, line[dot + 1..])
  {
    assert line == line[..first] + [separator] + line[first + 1..second] + [separator] + line[second + 1..e]
      + line[e..dot] + ['.'] + line[dot + 1..];
  }

  /** Every successful split takes the line apart as subject, separator,
      predicate, separator, object, a run of separators, the last '.' and a
      '.'-free tail: the subject and predicate hold no separator, and the object
      is non-empty and does not end with the separator. With `RoundTrip` this
      says exactly which lines split into which terms. */
  lemma ParseFields(line: string, separator: char, r: seq<string>)
    requires Parse(line, separator) == Returned(r)
    ensures |r| == 3 && separator !in r[0] && separator !in r[1]
    ensures |r[2]| > 0 && r[2][|r[2]| - 1] != separator
    ensures exists k: nat, tail: string :: '.' !in tail && line == TripleLine(r[0], r[1], r[2], separator, k, tail)
  {
    var first, second, e, dot := ParseSlices(line, separator, r);
    SliceFields(line, separator, first, second, e, dot);
    var tail := line[dot + 1..];
    assert '.' !in tail && line == TripleLine(r[0], r[1], r[2], separator, dot - e, tail);
  }

  /** The pieces of a successful split, in terms of its cut indices. */
  lemma SliceFields(line: string, separator: char, first: int, second: int, e: int, dot: int)
    requires 0 <= first < second < e - 1 < dot < |line|
    requires first == IndexOf(line, separator, 0) && second == IndexOf(line, separator, first + 1)
    requires dot == LastIndexOf(line, '.', |line| - 1) && ObjectEnd(line, separator, dot) == Returned(e)
    ensures separator !in line[..first] && separator !in line[first + 1..second]
    ensures var obj := line[second + 1..e]; |obj| > 0 && obj[|obj| - 1] != separator
    ensures '.' !in line[dot + 1..]
    ensures line == TripleLine(line[..first], line[first + 1..second], line[second + 1..e], separator, dot - e, line[dot + 1..])
  {
    CutPieces(line, separator, first, second, e, dot);
    TripleLineFromCuts(line, separator, first, second, e, dot);
    var obj := line[second + 1..e];
    assert obj[|obj| - 1] == line[e - 1];
  }

  /** Where each piece of a `TripleLine` sits. */
  lemma TripleLineLayout(subj: string, pred: string, obj: string, separator: char, k: nat, tail: string)
    ensures var line := TripleLine(subj, pred, obj, separator, k, tail);
      var n1 := |subj|;
      var n2 := n1 + 1 + |pred|;
      var e := n2 + 1 + |obj|;
      && |line| == e + k + 1 + |tail|
      && line[..n1] == subj && line[n1] == separator
      && line[n1 + 1..n2] == pred && line[n2] == separator
      && line[n2 + 1..e] == obj && line[e..e + k] == Repeat(separator, k)
      && line[e + k] == '.' && line[e + k + 1..] == tail
  {
    var terms := subj + [separator] + pred + [separator] + obj;
    var line := TripleLine(subj, pred, obj, separator, k, tail);
    assert line == terms + (Repeat(separator, k) + ['.'] + tail);
    assert line[..|terms|] == terms;
  }

  /** A line laid out as subject, separator, predicate, separator, object, `k`
      separators, '.' and a '.'-free tail splits back into its three terms. */
  lemma ParseLaidOut(line: string, subj: string, pred: string, obj: string, separator: char, k: nat, tail: string)
    requires separator !in subj && separator !in pred
    requires |obj| > 0 && obj[|obj| - 1] != separator
    requires '.' !in tail
    requires var n1 := |subj|;
      var n2 := n1 + 1 + |pred|;
      var e := n2 + 1 + |obj|;
      && |line| == e + k + 1 + |tail|
      && line[..n1] == subj && line[n1] == separator
      && line[n1 + 1..n2] == pred && line[n2] == separator
      && line[n2 + 1..e] == obj && line[e..e + k] == Repeat(separator, k)
      && line[e + k] == '.' && line[e + k + 1..] == tail
    ensures Parse(line, separator) == Returned([subj, pred, obj])
  {
    var n1 := |subj|;
    var n2 := n1 + 1 + |pred|;
    var e := n2 + 1 + |obj|;
    FirstTwoAt(line, separator, n1, n2);
    assert line[e - 1] == obj[|obj| - 1];
    DotEndAt(line, separator, e, e + k);
    ParseAtIndices(line, separator, n1, n2, e, e + k);
  }

  /** Building a line from a subject and a predicate without the separator, a
      non-empty object that does not end with it, any run of separators, a '.'
      and a '.'-free tail, and splitting it, gives back the three terms.
      Separators and dots inside the object are kept. */
  lemma RoundTrip(subj: string, pred: string, obj: string, separator: char, k: nat, tail: string)
    requires separator !in subj && separator !in pred
    requires |obj| > 0 && obj[|obj| - 1] != separator
    requires '.' !in tail
    ensures Parse(TripleLine(subj, pred, obj, separator, k, tail), separator) == Returned([subj, pred, obj])
  {
    TripleLineLayout(subj, pred, obj, separator, k, tail);
    ParseLaidOut(TripleLine(subj, pred, obj, separator, k, tail), subj, pred, obj, separator, k, tail);
  }
}
