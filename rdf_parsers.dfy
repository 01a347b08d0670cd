/** The parser objects: a parser knows its RDF dialect and, when it was given an
    input stream, a line reader over it. `ReadNextTriple` skips blank and
    comment lines and splits the next line with the dialect's parser. */
module RdfParsers {
  import opened JavaLang
  import NTriplesParser
  import NQuadsParser

  /** The two concrete parsers: N-Triples with its (final) separator, or N-Quads. */
  datatype Dialect = NTriples(separator: char) | NQuads

  /** `parse(line)` of a parser of dialect `d` on a line that is not null: the
      three terms or the exception the split throws. */
  function Split(d: Dialect, line: string): (r: Outcome<seq<string>>)
    ensures r.Returned? ==> |r.value| == 3
    ensures r.Threw? ==> r.exception == StringIndexOutOfBounds
  {
    match d
    case NTriples(separator) => NTriplesParser.Parse(line, separator)
    case NQuads => NQuadsParser.Parse(line)
  }

  /** `Split` for dialect `d` as a function value. The reading functions below
      take the splitter as a parameter, so what they state holds for any
      dialect and their proofs never look inside a parser. */
  function Splitter(d: Dialect): string -> Outcome<seq<string>> {
    line => Split(d, line)
  }

  /** `parse(line)` of a parser of dialect `d`: null for a null line, otherwise the
      three terms or the exception the split throws. */
  function ParseWith(d: Dialect, line: Option<string>): (r: Outcome<Option<seq<string>>>)
    ensures line.None? <==> r == Returned(None)
    ensures r.Returned? && r.value.Some? ==> |r.value.value| == 3
    ensures r.Threw? ==> r.exception == StringIndexOutOfBounds
    ensures line.Some? ==> r == NonNull(Splitter(d)(line.value))
  {
    match line
    case None => Returned(None)
    case Some(s) => NonNull(Split(d, s))
  }

  /** The lines `readNextTriple` passes over: those whose trim is empty and
      those that start with '#'. */
  predicate Skipped(line: string): (skipped: bool)
    ensures line == [] ==> skipped
    ensures |line| > 0 && line[0] == '#' ==> skipped
    ensures |line| > 0 && line[0] > ' ' && line[0] != '#' ==> !skipped
  {
    TrimEmptyIff(line);
    assert |line| > 0 ==> line[..1] == [line[0]];
    Trim(line) == [] || StartsWith(line, "#")
  }

  /** A line is skipped exactly when all its chars are at or below U+0020, or
      its very first char is '#'. */
  lemma SkippedIff(line: string)
    ensures Skipped(line) <==>
      (forall i :: 0 <= i < |line| ==> line[i] <= ' ') || (|line| > 0 && line[0] == '#')
  {
    TrimEmptyIff(line);
    if |line| > 0 {
      assert StartsWith(line, "#") <==> line[..1] == ['#'];
      assert line[..1] == [line[0]];
    }
  }

  /** A comment indented by blanks is not skipped: only a '#' in column 0 marks
      a comment line. */
  lemma IndentedCommentNotSkipped(indent: string, comment: string)
    requires |indent| > 0 && forall i :: 0 <= i < |indent| ==> indent[i] <= ' '
    ensures !Skipped(indent + "#" + comment)
  {
    var line := indent + "#" + comment;
    SkippedIff(line);
    assert line[0] == indent[0];
    assert line[|indent|] == '#';
  }

  /** A comment indented by blanks holds a '.' only when the comment text does. */
  lemma IndentedCommentDots(indent: string, comment: string)
    requires forall i :: 0 <= i < |indent| ==> indent[i] <= ' '
    requires '.' !in comment
    ensures '.' !in indent + "#" + comment
  {
    var line := indent + "#" + comment;
    forall i | 0 <= i < |line| ensures line[i] != '.' {
      if i < |indent| {
        assert line[i] == indent[i];
      } else if |indent| < i {
        assert line[i] == comment[i - |indent| - 1];
      }
    }
  }

  /** An N-Triples reader whose next line is a comment indented by blanks
      throws instead of skipping it, unless the comment holds a '.'. */
  lemma IndentedCommentThrows(separator: char, indent: string, comment: string, rest: seq<string>)
    requires |indent| > 0 && forall i :: 0 <= i < |indent| ==> indent[i] <= ' '
    requires '.' !in comment
    ensures NextTriple(Splitter(NTriples(separator)), [indent + "#" + comment] + rest, 0) == (Threw(StringIndexOutOfBounds), 1)
  {
    var line := indent + "#" + comment;
    IndentedCommentNotSkipped(indent, comment);
    NextTripleTakesFirstUnskipped(Splitter(NTriples(separator)), [line] + rest, 0, 0);
    IndentedCommentDots(indent, comment);
    NTriplesParser.LineWithoutDotThrows(line, separator);
  }

  /** Where one call of `readNextTriple` stops reading `lines` from `cursor`:
      the index of the line it hands to `parse` (None when the input runs out)
      and the cursor after the call. Skipped lines are passed over. */
  function NextLine(lines: seq<string>, cursor: nat): (res: (Option<nat>, nat))
    requires cursor <= |lines|
    ensures res.0.None? ==> res.1 == |lines|
    ensures res.0.Some? ==> cursor <= res.0.value < |lines| && res.1 == res.0.value + 1
    decreases |lines| - cursor
  {
    if cursor == |lines| then (None, cursor)
    else if Skipped(lines[cursor]) then NextLine(lines, cursor + 1)
    else (Some(cursor), cursor + 1)
  }

  /** A call reads up to and including the first line that is not skipped,
      and hands that line to `parse`. */
  lemma {:induction false} NextLineTakesFirstUnskipped(lines: seq<string>, cursor: nat, k: nat)
    requires cursor <= k < |lines|
    requires forall i :: cursor <= i < k ==> Skipped(lines[i])
    requires !Skipped(lines[k])
    ensures NextLine(lines, cursor) == (Some(k), k + 1)
    decreases k - cursor
  {
    if cursor < k {
      NextLineTakesFirstUnskipped(lines, cursor + 1, k);
    }
  }

  /** When every remaining line is skipped, a call reads them all and finds
      the end of the input. */
  lemma {:induction false} NextLineAtEnd(lines: seq<string>, cursor: nat)
    requires cursor <= |lines|
    requires forall i :: cursor <= i < |lines| ==> Skipped(lines[i])
    ensures NextLine(lines, cursor) == (None, |lines|)
    decreases |lines| - cursor
  {
    if cursor < |lines| {
      NextLineAtEnd(lines, cursor + 1);
    }
  }

  /** A call finds the end of the input exactly when no unskipped line
      remains, and otherwise stops at an unskipped line after only skipped ones. */
  lemma {:induction false} NextLineNoneIff(lines: seq<string>, cursor: nat)
    requires cursor <= |lines|
    ensures NextLine(lines, cursor).0.None? <==> forall i :: cursor <= i < |lines| ==> Skipped(lines[i])
    ensures NextLine(lines, cursor).0.Some? ==>
      var k := NextLine(lines, cursor).0.value;
      !Skipped(lines[k]) && forall i :: cursor <= i < k ==> Skipped(lines[i])
    decreases |lines| - cursor
  {
    if cursor < |lines| {
      NextLineNoneIff(lines, cursor + 1);
    }
  }

  /** What one call of `readNextTriple` does to a reader at `cursor` over
      `lines`, for a parser whose `parse` splits a line with `split`: the
      outcome and the cursor after the call. At the end of the input it
      answers null; otherwise it parses the line `NextLine` stops at. */
  function NextTriple(split: string -> Outcome<seq<string>>, lines: seq<string>, cursor: nat): (res: (Outcome<Option<seq<string>>>, nat))
    requires cursor <= |lines|
    ensures cursor <= res.1 <= |lines|
    ensures res.0 == Returned(None) <==> NextLine(lines, cursor).0.None?
    ensures res.0 != Returned(None) ==> cursor < res.1
  {
    match NextLine(lines, cursor).0
    case None => (Returned(None), |lines|)
    case Some(k) => (NonNull(split(lines[k])), k + 1)
  }

  /** A call consumes the skipped lines up to and including the first line
      that is not skipped, and answers that line's parse. */
  lemma NextTripleTakesFirstUnskipped(split: string -> Outcome<seq<string>>, lines: seq<string>, cursor: nat, k: nat)
    requires cursor <= k < |lines|
    requires forall i :: cursor <= i < k ==> Skipped(lines[i])
    requires !Skipped(lines[k])
    ensures NextTriple(split, lines, cursor) == (NonNull(split(lines[k])), k + 1)
  {
    NextLineTakesFirstUnskipped(lines, cursor, k);
  }

  /** When every remaining line is skipped, a call consumes them all and
      answers null. */
  lemma NextTripleAtEnd(split: string -> Outcome<seq<string>>, lines: seq<string>, cursor: nat)
    requires cursor <= |lines|
    requires forall i :: cursor <= i < |lines| ==> Skipped(lines[i])
    ensures NextTriple(split, lines, cursor) == (Returned(None), |lines|)
  {
    NextLineAtEnd(lines, cursor);
  }

  /** The outcomes of calling `readNextTriple` again and again from `cursor`
      until it answers null. */
  function Results(split: string -> Outcome<seq<string>>, lines: seq<string>, cursor: nat): (r: seq<Outcome<Option<seq<string>>>>)
    requires cursor <= |lines|
    ensures |r| <= |lines| - cursor
    ensures forall i :: 0 <= i < |r| ==> r[i] != Returned(None)
    decreases |lines| - cursor
  {
    var (r, next) := NextTriple(split, lines, cursor);
    if r == Returned(None) then [] else [r] + Results(split, lines, next)
  }

  /** The lines that repeated calls from `cursor` hand to `parse`, in order. */
  function ParsedLines(lines: seq<string>, cursor: nat): seq<string>
    requires cursor <= |lines|
    decreases |lines| - cursor
  {
    match NextLine(lines, cursor).0
    case None => []
    case Some(k) => [lines[k]] + ParsedLines(lines, k + 1)
  }

  /** The lines that are not skipped, in order. */
  function Unskipped(lines: seq<string>): (r: seq<string>)
    ensures |r| <= |lines|
    ensures forall i :: 0 <= i < |r| ==> !Skipped(r[i])
  {
    if lines == [] then []
    else (if Skipped(lines[0]) then [] else [lines[0]]) + Unskipped(lines[1..])
  }

  /** Each line parsed on its own. */
  function ParseAll(split: string -> Outcome<seq<string>>, lines: seq<string>): (r: seq<Outcome<Option<seq<string>>>>)
    ensures |r| == |lines|
    ensures forall i :: 0 <= i < |r| ==> r[i] == NonNull(split(lines[i]))
  {
    if lines == [] then [] else [NonNull(split(lines[0]))] + ParseAll(split, lines[1..])
  }

  /** Parsing a line in front of others puts its parse in front of theirs. */
  lemma ParseAllCons(split: string -> Outcome<seq<string>>, line: string, rest: seq<string>)
    ensures ParseAll(split, [line] + rest) == [NonNull(split(line))] + ParseAll(split, rest)
  {
    assert ([line] + rest)[1..] == rest;
  }

  /** Repeated calls hand exactly the unskipped lines to `parse`, in input order. */
  lemma {:induction false} ParsedLinesAreUnskipped(lines: seq<string>, cursor: nat)
    requires cursor <= |lines|
    ensures ParsedLines(lines, cursor) == Unskipped(lines[cursor..])
    decreases |lines| - cursor
  {
    if cursor < |lines| {
      ParsedLinesAreUnskipped(lines, cursor + 1);
      assert lines[cursor..][1..] == lines[cursor + 1..];
      if !Skipped(lines[cursor]) {
        assert Unskipped(lines[cursor..]) == [lines[cursor]] + Unskipped(lines[cursor + 1..]);
      }
    }
  }

  /** Repeated calls answer the parses of the lines they read, in order. */
  lemma {:induction false} ResultsAreParsedLines(split: string -> Outcome<seq<string>>, lines: seq<string>, cursor: nat)
    requires cursor <= |lines|
    ensures Results(split, lines, cursor) == ParseAll(split, ParsedLines(lines, cursor))
    decreases |lines| - cursor
  {
    var (k, next) := NextLine(lines, cursor);
    if k.Some? {
      var rest := ParsedLines(lines, next);
      assert ParsedLines(lines, cursor) == [lines[k.value]] + rest;
      assert Results(split, lines, cursor) == [NonNull(split(lines[k.value]))] + Results(split, lines, next);
      ResultsAreParsedLines(split, lines, next);
      ParseAllCons(split, lines[k.value], rest);
    }
  }

  /** Repeated calls yield the parses of the unskipped lines, in input order,
      and then null. */
  lemma ResultsAreParsedUnskippedLines(split: string -> Outcome<seq<string>>, lines: seq<string>, cursor: nat)
    requires cursor <= |lines|
    ensures Results(split, lines, cursor) == ParseAll(split, Unskipped(lines[cursor..]))
  {
    ResultsAreParsedLines(split, lines, cursor);
    ParsedLinesAreUnskipped(lines, cursor);
  }

  /** A `BufferedReader` over the lines of an input stream: `readLine` hands
      out the line at the cursor and moves past it, and answers null at the
      end of the input. */
  class LineReader {
    const lines: seq<string>
    var cursor: nat

    ghost predicate Valid()
      reads this
    {
      cursor <= |lines|
    }

    constructor(lines: seq<string>)
      ensures Valid() && this.lines == lines && cursor == 0
    {
      this.lines := lines;
      cursor := 0;
    }

    method ReadLine() returns (line: Option<string>)
      requires Valid()
      modifies this
      ensures Valid()
      ensures old(cursor) == |lines| ==> line == None && cursor == old(cursor)
      ensures old(cursor) < |lines| ==> line == Some(lines[old(cursor)]) && cursor == old(cursor) + 1
    {
      if cursor == |lines| {
        return None;
      }
      line := Some(lines[cursor]);
      cursor := cursor + 1;
    }
  }

  /** An `NTriplesParser` or `NQuadsParser`. Its dialect, and with it the
      N-Triples separator, is fixed at construction; so is its reader, which
      is null when no input stream was given. */
  class RdfParser {
    const dialect: Dialect
    const reader: LineReader?

    /** `new NTriplesParser()`: the default separator, no input. */
    constructor NTriplesDefault()
      ensures dialect == NTriples(' ') && reader == null
    {
      dialect := NTriples(NTriplesParser.DefaultSeparator);
      reader := null;
    }

    /** `new NTriplesParser(separator)`: the given separator, no input. */
    constructor NTriplesWithSeparator(separator: char)
      ensures dialect == NTriples(separator) && reader == null
    {
      dialect := NTriples(separator);
      reader := null;
    }

    /** `new NTriplesParser(inputStream)`: the default separator and a fresh
        reader at the start of the stream's lines. */
    constructor NTriplesFromStream(input: seq<string>)
      ensures dialect == NTriples(' ')
      ensures reader != null && fresh(reader) && reader.Valid() && reader.lines == input && reader.cursor == 0
    {
      dialect := NTriples(NTriplesParser.DefaultSeparator);
      reader := new LineReader(input);
    }

    /** `new NQuadsParser()`: no input. */
    constructor NQuadsWithoutStream()
      ensures dialect == NQuads && reader == null
    {
      dialect := NQuads;
      reader := null;
    }

    /** `new NQuadsParser(inputStream)`: a fresh reader at the start of the
        stream's lines. */
    constructor NQuadsFromStream(input: seq<string>)
      ensures dialect == NQuads
      ensures reader != null && fresh(reader) && reader.Valid() && reader.lines == input && reader.cursor == 0
    {
      dialect := NQuads;
      reader := new LineReader(input);
    }

    /** `parse(line)`, dispatched to the dialect's parser. */
    method Parse(line: Option<string>) returns (r: Outcome<Option<seq<string>>>)
      ensures r == ParseWith(dialect, line)
    {
      match dialect
      case NTriples(separator) =>
        r := NTriplesParser.ParseLine(line, separator);
      case NQuads =>
        r := NQuadsParser.ParseLine(line);
    }

    /** `readNextTriple()`: without a reader it throws IllegalStateException;
        otherwise it reads lines until one is not skipped and parses it, or
        answers null when the input runs out. */
    method ReadNextTriple() returns (r: Outcome<Option<seq<string>>>)
      requires reader != null ==> reader.Valid()
      modifies reader
      ensures reader == null ==> r == Threw(IllegalState)
      ensures reader != null ==> reader.Valid()
      ensures reader != null ==> (r, reader.cursor) == NextTriple(Splitter(dialect), reader.lines, old(reader.cursor))
    {
      if reader == null {
        return Threw(IllegalState);
      }
      ghost var start := reader.cursor;
      var line := "";
      while true
        invariant reader.Valid() && start <= reader.cursor
        invariant NextLine(reader.lines, start) == NextLine(reader.lines, reader.cursor)
        decreases |reader.lines| - reader.cursor
      {
        var next := reader.ReadLine();
        if next.None? {
          return Returned(None);
        }
        line := next.value;
        if !Skipped(line) {
          break;
        }
      }
      r := Parse(Some(line));
    }
  }

  /** `AbstractRDFParser.createRdfParser(inputStream, inputFormat)`: "nt" makes an
      N-Triples parser with the default separator, "nq" an N-Quads parser, each
      reading the stream's lines when there is a stream; any other format
      throws IllegalArgumentException. */
  method CreateRdfParser(input: Option<seq<string>>, inputFormat: string) returns (r: Outcome<RdfParser>)
    ensures inputFormat == "nt" ==> r.Returned? && r.value.dialect == NTriples(' ')
    ensures inputFormat == "nq" ==> r.Returned? && r.value.dialect == NQuads
    ensures inputFormat != "nt" && inputFormat != "nq" ==> r == Threw(IllegalArgument)
    ensures r.Returned? ==> fresh(r.value)
    ensures r.Returned? ==> (r.value.reader == null <==> input.None?)
    ensures r.Returned? && input.Some? && r.value.reader != null ==>
      fresh(r.value.reader) && r.value.reader.Valid() && r.value.reader.lines == input.value && r.value.reader.cursor == 0
  {
    var p: RdfParser;
    if inputFormat == "nt" {
      if input.None? {
        p := new RdfParser.NTriplesDefault();
      } else {
        p := new RdfParser.NTriplesFromStream(input.value);
      }
    } else if inputFormat == "nq" {
      if input.None? {
        p := new RdfParser.NQuadsWithoutStream();
      } else {
        p := new RdfParser.NQuadsFromStream(input.value);
      }
    } else {
      return Threw(IllegalArgument);
    }
    return Returned(p);
  }
}
