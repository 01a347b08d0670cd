/** The N-Quads line splitter: the subject ends at the first space, the
    predicate at the second, and the object at the second-to-last space, so the
    last two space-delimited tokens (the graph term and the terminator) are
    dropped. The separator is always a space. */
module NQuadsParser {
  import opened JavaLang
  import opened Cuts

  /** `parse(line)` for a non-null line: the subject, predicate and object, or
      the StringIndexOutOfBoundsException that `substring` throws. */
  function Parse(line: string): (r: Outcome<seq<string>>)
    ensures r.Returned? ==> |r.value| == 3
    ensures r.Threw? ==> r.exception == StringIndexOutOfBounds
  {
    var firstSpacePos := IndexOf(line, ' ', 0);
    var secondSpacePos := IndexOf(line, ' ', firstSpacePos + 1);
    var lastSpacePos := LastIndexOf(line, ' ', |line| - 1);
    var secondToLastSpacePos := LastIndexOf(line, ' ', lastSpacePos - 1);
    Cut(line, firstSpacePos, secondSpacePos, secondToLastSpacePos)
  }

  /** `NQuadsParser.parse`: a null line gives null. */
  function ParseLine(line: Option<string>): (r: Outcome<Option<seq<string>>>)
    ensures line.None? <==> r == Returned(None)
    ensures r.Returned? && r.value.Some? ==> |r.value.value| == 3
  {
    match line
    case None => Returned(None)
    case Some(s) => NonNull(Parse(s))
  }

  /** `Parse` in terms of the four space indices `parse` computes. */
  lemma ParseByIndices(line: string, first: int, second: int, secondToLast: int, last: int)
    requires first == IndexOf(line, ' ', 0) && second == IndexOf(line, ' ', first + 1)
    requires last == LastIndexOf(line, ' ', |line| - 1) && secondToLast == LastIndexOf(line, ' ', last - 1)
    ensures Parse(line) ==
      if 0 <= first < second < secondToLast
      then Returned([line[..first], line[first + 1..second], line[second + 1..secondToLast]])
      else Threw(StringIndexOutOfBounds)
  {
    CutIff(line, first, second, secondToLast);
  }

  /** `Parse` once the indices `parse` computes are known and in order. */
  lemma ParseAtIndices(line: string, first: int, second: int, secondToLast: int, last: int)
    requires first == IndexOf(line, ' ', 0) && second == IndexOf(line, ' ', first + 1)
    requires last == LastIndexOf(line, ' ', |line| - 1) && secondToLast == LastIndexOf(line, ' ', last - 1)
    requires 0 <= first < second < secondToLast
    ensures Parse(line) == Returned([line[..first], line[first + 1..second], line[second + 1..secondToLast]])
  {
    ParseByIndices(line, first, second, secondToLast, last);
  }

  /** A successful split exhibits four spaces. */
  lemma ParseSuccessWitness(line: string) returns (i: int, j: int, k: int, l: int)
    requires Parse(line).Returned?
    ensures 0 <= i < j < k < l < |line|
    ensures line[i] == ' ' && line[j] == ' ' && line[k] == ' ' && line[l] == ' '
  {
    i := IndexOf(line, ' ', 0);
    j := IndexOf(line, ' ', i + 1);
    l := LastIndexOf(line, ' ', |line| - 1);
    k := LastIndexOf(line, ' ', l - 1);
    ParseByIndices(line, i, j, k, l);
  }

  /** Any four spaces are enough for the split to succeed. */
  lemma ParseSucceedsFrom(line: string, i: int, j: int, k: int, l: int)
    requires 0 <= i < j < k < l < |line|
    requires line[i] == ' ' && line[j] == ' ' && line[k] == ' ' && line[l] == ' '
    ensures Parse(line).Returned?
  {
    var first := IndexOf(line, ' ', 0);
    var second := IndexOf(line, ' ', first + 1);
    var last := LastIndexOf(line, ' ', |line| - 1);
    var secondToLast := LastIndexOf(line, ' ', last - 1);
    ParseByIndices(line, first, second, secondToLast, last);
    IndexOfFirst(line, ' ', 0);
    IndexOfFirst(line, ' ', first + 1);
    LastIndexOfLast(line, ' ', |line| - 1);
    LastIndexOfLast(line, ' ', last - 1);
    assert 0 <= first <= i;
    assert first < second <= j;
    assert l <= last;
    assert k <= secondToLast;
  }

  lemma ParseSucceedsIfFourSpaces(line: string)
    ensures (exists i, j, k, l :: 0 <= i < j < k < l < |line|
                                  && line[i] == ' ' && line[j] == ' ' && line[k] == ' ' && line[l] == ' ')
      ==> Parse(line).Returned?
  {
    if exists i, j, k, l :: 0 <= i < j < k < l < |line|
        && line[i] == ' ' && line[j] == ' ' && line[k] == ' ' && line[l] == ' '
    {
      var i, j, k, l :| 0 <= i < j < k < l < |line|
        && line[i] == ' ' && line[j] == ' ' && line[k] == ' ' && line[l] == ' ';
      ParseSucceedsFrom(line, i, j, k, l);
    }
  }

  /** The line splits exactly when it holds at least four spaces; with fewer,
      `substring` throws. */
  lemma ParseSucceedsIff(line: string)
    ensures Parse(line).Returned? <==>
      exists i, j, k, l :: 0 <= i < j < k < l < |line|
        && line[i] == ' ' && line[j] == ' ' && line[k] == ' ' && line[l] == ' '
  {
    if Parse(line).Returned? {
      var i, j, k, l := ParseSuccessWitness(line);
    }
    ParseSucceedsIfFourSpaces(line);
  }

  /** The line that subject, predicate, object, graph term and terminator make,
      a single space between each. */
  function QuadLine(subj: string, pred: string, obj: string, graph: string, terminator: string): string {
    subj + " " + pred + " " + obj + " " + graph + " " + terminator
  }

  /** Where each piece of a `QuadLine` sits. */
  lemma QuadLineLayout(subj: string, pred: string, obj: string, graph: string, terminator: string)
    ensures var line := QuadLine(subj, pred, obj, graph, terminator);
      var n1 := |subj|;
      var n2 := n1 + 1 + |pred|;
      var n3 := n2 + 1 + |obj|;
      var n4 := n3 + 1 + |graph|;
      && |line| == n4 + 1 + |terminator|
      && line[..n1] == subj && line[n1] == ' '
      && line[n1 + 1..n2] == pred && line[n2] == ' '
      && line[n2 + 1..n3] == obj && line[n3] == ' '
      && line[n3 + 1..n4] == graph && line[n4] == ' '
      && line[n4 + 1..] == terminator
  {
    var line := QuadLine(subj, pred, obj, graph, terminator);
    var front := subj + " " + pred + " " + obj;
    var back := " " + graph + " " + terminator;
    assert line == front + back;
    assert line[..|front|] == front;
    assert line[|front|..] == back;
  }

  /** A line laid out as a `QuadLine` with space-free subject, predicate, graph
      term and terminator splits back into subject, predicate and object. */
  lemma ParseLaidOut(line: string, subj: string, pred: string, obj: string, graph: string, terminator: string)
    requires ' ' !in subj && ' ' !in pred && ' ' !in graph && ' ' !in terminator
    requires var n1 := |subj|;
      var n2 := n1 + 1 + |pred|;
      var n3 := n2 + 1 + |obj|;
      var n4 := n3 + 1 + |graph|;
      && |line| == n4 + 1 + |terminator|
      && line[..n1] == subj && line[n1] == ' '
      && line[n1 + 1..n2] == pred && line[n2] == ' '
      && line[n2 + 1..n3] == obj && line[n3] == ' '
      && line[n3 + 1..n4] == graph && line[n4] == ' '
      && line[n4 + 1..] == terminator
    ensures Parse(line) == Returned([subj, pred, obj])
  {
    var n1 := |subj|;
    var n2 := n1 + 1 + |pred|;
    var n3 := n2 + 1 + |obj|;
    var n4 := n3 + 1 + |graph|;
    FirstTwoAt(line, ' ', n1, n2);
    LastTwoAt(line, ' ', n3, n4);
    ParseAtIndices(line, n1, n2, n3, n4);
  }

  /** Building a line from a space-free subject, predicate, graph term and
      terminator and any object, and splitting it, gives back subject, predicate
      and object: spaces inside the object survive and the graph term is
      dropped. */
  lemma RoundTrip(subj: string, pred: string, obj: string, graph: string, terminator: string)
    requires ' ' !in subj && ' ' !in pred && ' ' !in graph && ' ' !in terminator
    ensures Parse(QuadLine(subj, pred, obj, graph, terminator)) == Returned([subj, pred, obj])
  {
    QuadLineLayout(subj, pred, obj, graph, terminator);
    ParseLaidOut(QuadLine(subj, pred, obj, graph, terminator), subj, pred, obj, graph, terminator);
  }

  /** A successful split in index form. */
  lemma ParseSlices(line: string, r: seq<string>) returns (first: int, second: int, secondToLast: int, last: int)
    requires Parse(line) == Returned(r)
    ensures 0 <= first < second < secondToLast < last < |line|
    ensures r == [line[..first], line[first + 1..second], line[second + 1..secondToLast]]
    ensures first == IndexOf(line, ' ', 0) && second == IndexOf(line, ' ', first + 1)
    ensures last == LastIndexOf(line, ' ', |line| - 1) && secondToLast == LastIndexOf(line, ' ', last - 1)
  {
    first := IndexOf(line, ' ', 0);
    second := IndexOf(line, ' ', first + 1);
    last := LastIndexOf(line, ' ', |line| - 1);
    secondToLast := LastIndexOf(line, ' ', last - 1);
    ParseByIndices(line, first, second, secondToLast, last);
  }

  /** Where the pieces a successful split cuts out lie in the line. */
  lemma CutPieces(line: string, first: int, second: int, secondToLast: int, last: int)
    requires 0 <= first < second < secondToLast < last < |line|
    requires first == IndexOf(line, ' ', 0) && second == IndexOf(line, ' ', first + 1)
    requires last == LastIndexOf(line, ' ', |line| - 1) && secondToLast == LastIndexOf(line, ' ', last - 1)
    ensures ' ' !in line[..first] && line[first] == ' '
    ensures ' ' !in line[first + 1..second] && line[second] == ' '
    ensures ' ' !in line[secondToLast + 1..last] && line[secondToLast] == ' '
    ensures ' ' !in line[last + 1..] && line[last] == ' '
  {
    FirstTwoSkip(line, ' ', first, second);
    LastTwoSkip(line, ' ', secondToLast, last);
  }

  /** Cutting a line at four increasing space indices and gluing the pieces back. */
  lemma QuadLineFromCuts(line: string, first: int, second: int, secondToLast: int, last: int)
    requires 0 <= first < second < secondToLast < last < |line|
    requires line[first] == ' ' && line[second] == ' ' && line[secondToLast] == ' ' && line[last] == ' '
    ensures line == QuadLine(line[..first], line[first + 1..second], line[second + 1..secondToLast],
                             line[secondToLast + 1..last], line[last + 1..])
  {
    assert line == line[..first] + " " + line[first + 1..second] + " " + line[second + 1..secondToLast]
      + " " + line[secondToLast + 1..last] + " " + line[last + 1..];
  }

  /** Every successful split takes the line apart as a `QuadLine`: the subject
      and predicate hold no space, and what follows the object is one
      space-free graph term and one space-free terminator. With `RoundTrip`
      this says exactly which lines split into which terms. */
  lemma ParseFields(line: string, r: seq<string>)
    requires Parse(line) == Returned(r)
    ensures |r| == 3 && ' ' !in r[0] && ' ' !in r[1]
    ensures exists graph, terminator ::
      ' ' !in graph && ' ' !in terminator && line == QuadLine(r[0], r[1], r[2], graph, terminator)
  {
    var first, second, secondToLast, last := ParseSlices(line, r);
    SliceFields(line, first, second, secondToLast, last);
  }

  /** At the indices the Java code finds, the subject and predicate slices
      hold no space and the line is a `QuadLine` of the three slices with a
      space-free graph term and terminator. */
  lemma SliceFields(line: string, first: int, second: int, secondToLast: int, last: int)
    requires 0 <= first < second < secondToLast < last < |line|
    requires first == IndexOf(line, ' ', 0) && second == IndexOf(line, ' ', first + 1)
    requires last == LastIndexOf(line, ' ', |line| - 1) && secondToLast == LastIndexOf(line, ' ', last - 1)
    ensures ' ' !in line[..first] && ' ' !in line[first + 1..second]
    ensures exists graph, terminator ::
      && ' ' !in graph && ' ' !in terminator
      && line == QuadLine(line[..first], line[first + 1..second], line[second + 1..secondToLast], graph, terminator)
  {
    CutPieces(line, first, second, secondToLast, last);
    QuadLineFromCuts(line, first, second, secondToLast, last);
    var graph, terminator := line[secondToLast + 1..last], line[last + 1..];
    assert ' ' !in graph && ' ' !in terminator;
  }

  /** Where each piece of a line without a graph term sits. */
  lemma GraphlessLayout(subj: string, pred: string, obj: string, terminator: string)
    ensures var line := subj + " " + pred + " " + obj + " " + terminator;
      var n1 := |subj|;
      var n2 := n1 + 1 + |pred|;
      var n3 := n2 + 1 + |obj|;
      && |line| == n3 + 1 + |terminator|
      && line[..n1] == subj && line[n1] == ' '
      && line[n1 + 1..n2] == pred && line[n2] == ' '
      && line[n2 + 1..n3] == obj && line[n3] == ' '
      && line[n3 + 1..] == terminator
  {
    var line := subj + " " + pred + " " + obj + " " + terminator;
    QuadLineLayout(subj, pred, obj, terminator, "");
    assert line + " " == QuadLine(subj, pred, obj, terminator, "");
    assert line == (line + " ")[..|line|];
  }

  /** A statement written without a graph term (`s p o .`) has only three
      spaces: its second-to-last space is the second space, and `substring`
      throws. */
  lemma GraphlessLineThrows(subj: string, pred: string, obj: string, terminator: string)
    requires ' ' !in subj && ' ' !in pred && ' ' !in obj && ' ' !in terminator
    ensures Parse(subj + " " + pred + " " + obj + " " + terminator) == Threw(StringIndexOutOfBounds)
  {
    var line := subj + " " + pred + " " + obj + " " + terminator;
    var n1 := |subj|;
    var n2 := n1 + 1 + |pred|;
    var n3 := n2 + 1 + |obj|;
    GraphlessLayout(subj, pred, obj, terminator);
    FirstTwoAt(line, ' ', n1, n2);
    LastTwoAt(line, ' ', n2, n3);
    ParseByIndices(line, n1, n2, n2, n3);
  }
}
