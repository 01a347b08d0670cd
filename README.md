# rdf-converter line parsers in Dafny

This project models the line parsers of rdf-converter, a program that converts
N-Triples and N-Quads files to CSV. The model covers three pieces:

- `NTriplesParser.parse` splits one statement line into subject, predicate and object.
- `NQuadsParser.parse` does the same for N-Quads, dropping the graph term.
- `AbstractRDFParser` creates a parser for a format name. Its `readNextTriple`
  skips blank and comment lines and parses the next line.

Neither splitter understands RDF syntax: quotes, escapes and brackets play no part,
and every failed split is a `StringIndexOutOfBoundsException`. Each splitter cuts the
line at fixed positions found with `indexOf`, `lastIndexOf` and `charAt`:

- **N-Triples.**
  - The subject ends at the first separator and the predicate at the second.
  - The object ends where the run of separators before the last '.' of the line begins.
- **N-Quads.**
  - The subject and predicate are cut the same way, with a space as the separator.
  - The object ends at the second-to-last space.

The Java calls can throw, and the model keeps that. Every parse is an `Outcome`: either
`Returned(value)` or `Threw(exception)`, with the exception the JDK would raise. A Java
reference that may be null is an `Option`.

Modules:

- `JavaLang` (java_lang.dfy) models the JDK string operations the parsers use, with
  their edge cases:
  - a negative `from` in `indexOf`;
  - a `from` past the end in `lastIndexOf`;
  - -1 when nothing is found;
  - `StringIndexOutOfBoundsException` from `charAt` and `substring`;
  - `trim` removing every char at or below U+0020.
- `Cuts` (cuts.dfy) holds the three `substring` calls both parsers end with.
- `NTriplesParser` (ntriples_parser.dfy) holds the N-Triples split:
  - the function `Parse` specifies it;
  - the method `ParseLine` runs the walk-back loop of `NTriplesParser.parse` and is proved equal to `Parse`.
- `NQuadsParser` (nquads_parser.dfy) holds the N-Quads split.
- `RdfParsers` (rdf_parsers.dfy) holds the parser objects. A Java parser is an
  `RdfParser` with two constant fields:
  - its `Dialect`, either `NTriples(separator)` or `NQuads`;
  - its reader, which is null when no input stream was given.

  The class also has:
  - the five constructors of the two concrete parsers;
  - `Parse`;
  - `ReadNextTriple`, proved against the function `NextTriple`;
  - `CreateRdfParser`.

  A `LineReader` stands for the `BufferedReader`: a cursor over the lines of the
  input. The functions that describe `readNextTriple` (`NextTriple`, `Results`,
  `ParseAll`) take the splitter as a function value, and `Splitter(d)` plugs in
  the dialect's `parse`. What they state therefore holds for both dialects alike.

What the proofs establish:

- **When a line splits.**
  - N-Triples: it holds two separators, then a character that is not the separator,
    then a '.'.
  - N-Quads: it holds four spaces.
  - Otherwise `StringIndexOutOfBoundsException` is thrown.
- **What comes back.** Each successful split returns three terms, and the terms
  rebuild the line: no separator in the subject or predicate, and for N-Triples an
  object that does not end with the separator.
- **Round trips.**
  - N-Triples: separators and dots inside the object survive.
  - N-Quads: spaces inside the object survive and the graph term is dropped. The
    same lemma covers a graph-less line whose object holds a space. Such a line does
    not throw. It is cut at the object's last space, and the rest of the object is
    taken as the graph term and dropped: `s p a b c .` gives `s`, `p` and `a b`.
- **A graph-less N-Quads line** with a space-free object throws.
- **The skip rule.** A line is skipped exactly when every char is at or below
  U+0020, or when its first char is '#'. A comment indented by blanks is therefore
  parsed. For N-Triples, when the comment holds no '.', parsing it throws.
- **One `readNextTriple` call.** It moves past exactly the skipped lines and the line
  it parses. It returns null at the end of input and throws IllegalState when the
  parser has no reader.
- **Repeated calls** return the parses of the unskipped lines in input order, then null.

## Model

| member | source | states |
|---|---|---|
| JavaLang.TrimEmptyIff | src/main/java/de/hpi/isg/rdf_converter/parser/AbstractRDFParser.java:102 | `line.trim().isEmpty()` holds exactly when every char of the line is at or below U+0020 |
| JavaLang.IndexOf | src/main/java/de/hpi/isg/rdf_converter/parser/NTriplesParser.java:48-49 | `indexOf(c, from)` answers -1 or an index at or after `from` that holds `c` |
| JavaLang.IndexOfIs | src/main/java/de/hpi/isg/rdf_converter/parser/NQuadsParser.java:38-39 | when `c` sits at `i` and nowhere from `from` up to `i`, `indexOf(c, from)` answers exactly `i` |
| JavaLang.LastIndexOf | src/main/java/de/hpi/isg/rdf_converter/parser/NTriplesParser.java:52 | `lastIndexOf(c, from)` answers -1 or an index at or before `from` that holds `c` |
| JavaLang.LastIndexOfIs | src/main/java/de/hpi/isg/rdf_converter/parser/NQuadsParser.java:40-41 | when `c` sits at `i` and nowhere after it up to `from`, `lastIndexOf(c, from)` answers exactly `i` |
| JavaLang.CharAt | src/main/java/de/hpi/isg/rdf_converter/parser/NTriplesParser.java:53 | `charAt(i)` returns the char at `i` exactly when `i` is an index of the string, and otherwise throws StringIndexOutOfBounds |
| JavaLang.Substring | src/main/java/de/hpi/isg/rdf_converter/parser/NQuadsParser.java:42-46 | `substring(begin, end)` returns the slice exactly when 0 <= begin <= end <= length, and otherwise throws StringIndexOutOfBounds |
| Cuts.CutIff | src/main/java/de/hpi/isg/rdf_converter/parser/NTriplesParser.java:57-61 | the three `substring` calls succeed exactly when 0 <= first < second < end <= length, giving the slices between the cuts; otherwise StringIndexOutOfBounds |
| Cuts.Cut | src/main/java/de/hpi/isg/rdf_converter/parser/NTriplesParser.java:57-61 | the three `substring` calls both parsers end with (also NQuadsParser.java:42-46) return exactly three terms, and any failure is StringIndexOutOfBounds |
| NTriplesParser.ObjectEnd | src/main/java/de/hpi/isg/rdf_converter/parser/NTriplesParser.java:52-55 | the walk back from the last '.' stops at an index after a non-separator with only separators up to the dot, or throws StringIndexOutOfBounds when everything before the dot is the separator |
| NTriplesParser.ObjectEndIs | src/main/java/de/hpi/isg/rdf_converter/parser/NTriplesParser.java:52-55 | the walk back stops exactly at the start of the separator run before the dot when a non-separator precedes that run |
| NTriplesParser.ObjectEndRun | src/main/java/de/hpi/isg/rdf_converter/parser/NTriplesParser.java:53-55 | when the walk back stops, everything between the stop and the dot is the separator |
| NTriplesParser.DotEndAt | src/main/java/de/hpi/isg/rdf_converter/parser/NTriplesParser.java:52-55 | with a last '.' preceded by a separator run and a non-separator, `lastIndexOf` finds that '.' and the walk back stops at the start of the run |
| NTriplesParser.Parse | src/main/java/de/hpi/isg/rdf_converter/parser/NTriplesParser.java:42-62 | a split yields exactly three terms; every failure is StringIndexOutOfBounds |
| NTriplesParser.ParseLine | src/main/java/de/hpi/isg/rdf_converter/parser/NTriplesParser.java:42-62 | the loop-and-substring method returns null for a null line and otherwise exactly what `Parse` specifies, exception included |
| NTriplesParser.ParseByIndices | src/main/java/de/hpi/isg/rdf_converter/parser/NTriplesParser.java:48-61 | the split succeeds exactly when the first separator exists, a second follows it, the walk back from the last '.' stops, and the stop lies past the second separator |
| NTriplesParser.ParseAtIndices | src/main/java/de/hpi/isg/rdf_converter/parser/NTriplesParser.java:57-61 | with the indices `parse` computes in order, the terms are the slices between them |
| NTriplesParser.ParseThrowsAtEnd | src/main/java/de/hpi/isg/rdf_converter/parser/NTriplesParser.java:52-53 | when the walk back runs out of characters, `parse` throws StringIndexOutOfBounds |
| NTriplesParser.ParseThrowsAtCut | src/main/java/de/hpi/isg/rdf_converter/parser/NTriplesParser.java:57-61 | when the cuts are out of order, `parse` throws StringIndexOutOfBounds |
| NTriplesParser.LineWithoutDotThrows | src/main/java/de/hpi/isg/rdf_converter/parser/NTriplesParser.java:52-53 | a line without '.' throws StringIndexOutOfBounds (`charAt(-2)`) |
| NTriplesParser.ParseSuccessWitness | src/main/java/de/hpi/isg/rdf_converter/parser/NTriplesParser.java:48-61 | a successful split exhibits two separators, then a non-separator, then a '.' |
| NTriplesParser.ParseSucceedsFrom | src/main/java/de/hpi/isg/rdf_converter/parser/NTriplesParser.java:48-61 | any two separators, a later non-separator and a later '.' make the split succeed |
| NTriplesParser.ParseSucceedsIff | src/main/java/de/hpi/isg/rdf_converter/parser/NTriplesParser.java:42-62 | the line splits if and only if it has two separators, then a non-separator, then a '.'; otherwise it throws |
| NTriplesParser.ParseSlices | src/main/java/de/hpi/isg/rdf_converter/parser/NTriplesParser.java:48-61 | a successful split cuts at the first separator, the second separator and the end of the object, in that order before the last '.' |
| NTriplesParser.CutPieces | src/main/java/de/hpi/isg/rdf_converter/parser/NTriplesParser.java:48-55 | the subject and predicate hold no separator, the object's last char is not the separator, only separators lie between object and last '.', and no '.' follows it |
| NTriplesParser.SliceFields | src/main/java/de/hpi/isg/rdf_converter/parser/NTriplesParser.java:48-61 | at the indices `parse` computes the subject and predicate are separator-free, the object is non-empty and does not end in the separator, and the line is rebuilt from the pieces |
| NTriplesParser.ParseFields | src/main/java/de/hpi/isg/rdf_converter/parser/NTriplesParser.java:42-62 | every successful split returns separator-free subject and predicate and a non-empty object not ending in the separator, and the line is exactly subject, separator, predicate, separator, object, separators, '.', and a '.'-free tail |
| NTriplesParser.ParseLaidOut | src/main/java/de/hpi/isg/rdf_converter/parser/NTriplesParser.java:42-62 | a line laid out as those pieces splits back into subject, predicate and object |
| NTriplesParser.RoundTrip | src/main/java/de/hpi/isg/rdf_converter/parser/NTriplesParser.java:42-62 | building a line from the three terms, any run of separators, '.' and a '.'-free tail and splitting it gives the terms back; separators and dots inside the object are kept |
| NQuadsParser.Parse | src/main/java/de/hpi/isg/rdf_converter/parser/NQuadsParser.java:32-47 | a split yields exactly three terms; every failure is StringIndexOutOfBounds |
| NQuadsParser.ParseLine | src/main/java/de/hpi/isg/rdf_converter/parser/NQuadsParser.java:32-47 | the result is null exactly for a null line; a non-null result has three terms |
| NQuadsParser.ParseByIndices | src/main/java/de/hpi/isg/rdf_converter/parser/NQuadsParser.java:38-46 | the split succeeds exactly when first < second < second-to-last space index, with the slices between them as terms |
| NQuadsParser.ParseAtIndices | src/main/java/de/hpi/isg/rdf_converter/parser/NQuadsParser.java:42-46 | with the indices `parse` computes in order, the terms are the slices between them |
| NQuadsParser.ParseSuccessWitness | src/main/java/de/hpi/isg/rdf_converter/parser/NQuadsParser.java:38-46 | a successful split exhibits four spaces |
| NQuadsParser.ParseSucceedsFrom | src/main/java/de/hpi/isg/rdf_converter/parser/NQuadsParser.java:38-46 | any four spaces make the split succeed |
| NQuadsParser.ParseSucceedsIff | src/main/java/de/hpi/isg/rdf_converter/parser/NQuadsParser.java:32-47 | the line splits if and only if it holds at least four spaces; otherwise it throws |
| NQuadsParser.ParseSlices | src/main/java/de/hpi/isg/rdf_converter/parser/NQuadsParser.java:38-46 | a successful split cuts at the first, second, second-to-last and last spaces, in that order |
| NQuadsParser.CutPieces | src/main/java/de/hpi/isg/rdf_converter/parser/NQuadsParser.java:38-41 | no space lies before the first, between the first two, between the last two, or after the last of the four cut spaces |
| NQuadsParser.QuadLineFromCuts | src/main/java/de/hpi/isg/rdf_converter/parser/NQuadsParser.java:42-46 | a line cut at four increasing spaces is the pieces joined by single spaces |
| NQuadsParser.ParseFields | src/main/java/de/hpi/isg/rdf_converter/parser/NQuadsParser.java:32-47 | every successful split returns space-free subject and predicate, and the line is subject, predicate, object, a space-free graph term and a space-free terminator joined by single spaces |
| NQuadsParser.SliceFields | src/main/java/de/hpi/isg/rdf_converter/parser/NQuadsParser.java:38-46 | at the indices `parse` computes, the subject and predicate are space-free, and the line is the three slices followed by a space-free graph term and a space-free terminator, joined by single spaces |
| NQuadsParser.GraphlessLayout | src/main/java/de/hpi/isg/rdf_converter/parser/NQuadsParser.java:38-41 | a line of subject, predicate, object and terminator joined by single spaces has its spaces and pieces at the offsets the lengths give |
| NQuadsParser.ParseLaidOut | src/main/java/de/hpi/isg/rdf_converter/parser/NQuadsParser.java:32-47 | a line laid out as those pieces splits back into subject, predicate and object |
| NQuadsParser.RoundTrip | src/main/java/de/hpi/isg/rdf_converter/parser/NQuadsParser.java:32-47 | building a line from space-free subject, predicate, graph and terminator and any object and splitting it gives subject, predicate and object back; the graph term is dropped |
| NQuadsParser.GraphlessLineThrows | src/main/java/de/hpi/isg/rdf_converter/parser/NQuadsParser.java:38-46 | a statement without a graph term and with a space-free object throws StringIndexOutOfBounds |
| RdfParsers.Split | src/main/java/de/hpi/isg/rdf_converter/parser/AbstractRDFParser.java:115 | `parse` of either dialect on a non-null line returns exactly three terms, and its only failure is StringIndexOutOfBounds |
| RdfParsers.ParseWith | src/main/java/de/hpi/isg/rdf_converter/parser/AbstractRDFParser.java:110-115 | `parse` returns null exactly for a null line; a non-null result has three terms; failures are StringIndexOutOfBounds |
| RdfParsers.Skipped | src/main/java/de/hpi/isg/rdf_converter/parser/AbstractRDFParser.java:102 | an empty line and a line whose first char is '#' are skipped; a line whose first char is above U+0020 and not '#' is parsed |
| RdfParsers.SkippedIff | src/main/java/de/hpi/isg/rdf_converter/parser/AbstractRDFParser.java:102 | a line is skipped if and only if all its chars are at or below U+0020 or its first char is '#' |
| RdfParsers.IndentedCommentNotSkipped | src/main/java/de/hpi/isg/rdf_converter/parser/AbstractRDFParser.java:102 | a '#' after leading blanks does not make a line a comment |
| RdfParsers.IndentedCommentDots | src/main/java/de/hpi/isg/rdf_converter/parser/AbstractRDFParser.java:102 | blanks and a '#' in front of a comment add no '.' to the line |
| RdfParsers.IndentedCommentThrows | src/main/java/de/hpi/isg/rdf_converter/parser/AbstractRDFParser.java:97-107 | an N-Triples reader whose next line is an indented comment without '.' throws StringIndexOutOfBounds and moves past that line |
| RdfParsers.NextLine | src/main/java/de/hpi/isg/rdf_converter/parser/AbstractRDFParser.java:97-102 | the `do`-`while` loop ends at the end of input with the reader past every line, or at an unskipped line with the reader just past it |
| RdfParsers.NextLineTakesFirstUnskipped | src/main/java/de/hpi/isg/rdf_converter/parser/AbstractRDFParser.java:97-102 | when the lines from the cursor up to `k` are skipped and line `k` is not, the loop stops at `k` |
| RdfParsers.NextLineAtEnd | src/main/java/de/hpi/isg/rdf_converter/parser/AbstractRDFParser.java:97-101 | when every remaining line is skipped, the loop reaches the end of input |
| RdfParsers.NextLineNoneIff | src/main/java/de/hpi/isg/rdf_converter/parser/AbstractRDFParser.java:97-102 | the loop reaches the end of input if and only if every remaining line is skipped; otherwise the line it stops at is unskipped and every line before it is skipped |
| RdfParsers.NextTriple | src/main/java/de/hpi/isg/rdf_converter/parser/AbstractRDFParser.java:96-107 | one call never moves the cursor back or past the end, and moves it forward whenever it does not answer null |
| RdfParsers.NextTripleTakesFirstUnskipped | src/main/java/de/hpi/isg/rdf_converter/parser/AbstractRDFParser.java:96-107 | a call consumes the skipped lines and the first unskipped line, and answers that line's parse |
| RdfParsers.NextTripleAtEnd | src/main/java/de/hpi/isg/rdf_converter/parser/AbstractRDFParser.java:97-101 | when only skipped lines remain, a call consumes them all and answers null |
| RdfParsers.Results | src/main/java/de/hpi/isg/rdf_converter/parser/AbstractRDFParser.java:91-108 | calling `readNextTriple` until it answers null gives at most one outcome per remaining line, none of them null |
| RdfParsers.Unskipped | src/main/java/de/hpi/isg/rdf_converter/parser/AbstractRDFParser.java:102 | the lines kept are no more than the input and none of them is skipped |
| RdfParsers.ParseAll | src/main/java/de/hpi/isg/rdf_converter/parser/AbstractRDFParser.java:104-107 | the i-th result is the parse of the i-th line |
| RdfParsers.ParseAllCons | src/main/java/de/hpi/isg/rdf_converter/parser/AbstractRDFParser.java:104-107 | parsing a line in front of other lines puts its parse in front of theirs |
| RdfParsers.ParsedLinesAreUnskipped | src/main/java/de/hpi/isg/rdf_converter/parser/AbstractRDFParser.java:97-102 | the lines repeated calls hand to `parse` are exactly the unskipped remaining lines, in order |
| RdfParsers.ResultsAreParsedLines | src/main/java/de/hpi/isg/rdf_converter/parser/AbstractRDFParser.java:104-107 | the outcomes of repeated calls are the parses of the lines the calls hand to `parse`, in order |
| RdfParsers.ResultsAreParsedUnskippedLines | src/main/java/de/hpi/isg/rdf_converter/parser/AbstractRDFParser.java:91-108 | calling `readNextTriple` until it answers null yields the parses of the unskipped lines in input order |
| RdfParsers.LineReader.ReadLine | src/main/java/de/hpi/isg/rdf_converter/parser/AbstractRDFParser.java:98 | `readLine` hands out the line at the cursor and advances, or answers null at the end without moving |
| RdfParsers.LineReader.constructor | src/main/java/de/hpi/isg/rdf_converter/parser/AbstractRDFParser.java:77 | the `BufferedReader` over a stream starts before its first line |
| RdfParsers.RdfParser.NTriplesDefault | src/main/java/de/hpi/isg/rdf_converter/parser/NTriplesParser.java:24-26 | the separator is the default ' ' and there is no reader |
| RdfParsers.RdfParser.NTriplesWithSeparator | src/main/java/de/hpi/isg/rdf_converter/parser/NTriplesParser.java:32-34 | the separator is the one given and there is no reader |
| RdfParsers.RdfParser.NTriplesFromStream | src/main/java/de/hpi/isg/rdf_converter/parser/NTriplesParser.java:36-39 | the separator is the default ' ' and a fresh reader starts at the first line of the stream |
| RdfParsers.RdfParser.NQuadsWithoutStream | src/main/java/de/hpi/isg/rdf_converter/parser/NQuadsParser.java:20-22 | an N-Quads parser without a reader |
| RdfParsers.RdfParser.NQuadsFromStream | src/main/java/de/hpi/isg/rdf_converter/parser/NQuadsParser.java:27-29 | an N-Quads parser with a fresh reader at the first line of the stream |
| RdfParsers.RdfParser.Parse | src/main/java/de/hpi/isg/rdf_converter/parser/AbstractRDFParser.java:115 | dispatching to the dialect's parser gives exactly `ParseWith` |
| RdfParsers.RdfParser.ReadNextTriple | src/main/java/de/hpi/isg/rdf_converter/parser/AbstractRDFParser.java:91-108 | without a reader it throws IllegalState; otherwise its outcome and the reader's new cursor are exactly `NextTriple` from the old cursor |
| RdfParsers.CreateRdfParser | src/main/java/de/hpi/isg/rdf_converter/parser/AbstractRDFParser.java:45-54 | "nt" gives an N-Triples parser with separator ' ', "nq" an N-Quads parser, anything else throws IllegalArgument; the parser has a fresh reader over the stream exactly when a stream is given |

## Left out

- `close()` (AbstractRDFParser.java:117-124) is not modelled. It closes the reader and logs an `IOException`, both I/O.
- The constructor `AbstractRDFParser(InputStream)` (AbstractRDFParser.java:76-78) and `createReader` (83-89) are folded into the stream constructors. The stream is given as its lines already decoded from UTF-8 and split at line terminators. `UnsupportedEncodingException` cannot arise for UTF-8.
- The constructor `AbstractRDFParser(BufferedReader)` (AbstractRDFParser.java:60-62) is not a separate member. It is reached only through the stream constructors, which never pass null.
- A null input stream given directly to a stream constructor is not modelled. It would throw NullPointerException inside `InputStreamReader`; the stream constructors take the lines as a non-null value.
- RdfParsers.CreateRdfParser: a null `inputFormat`, which makes the Java `switch` throw NullPointerException, is not modelled. The format is a non-null string.
- RdfParsers.RdfParser.ReadNextTriple: an `IOException` from `readLine` is not modelled. Reading a line always succeeds.
- The loggers are not modelled. They only log.
- The abstract class and its two subclasses are one class carrying a `Dialect`. Dispatch on the dialect replaces the overridden `parse`.
- Java `char` is a UTF-16 code unit and Dafny `char` is a Unicode scalar value. Lines are sequences of Dafny chars, so lone surrogates and surrogate pairs are not represented.
- RdfToCsvConverter, the program that drives the parser and writes CSV, is not part of this model.
