/** The three `substring` calls both line parsers end with: the subject before
    the first cut, the predicate between the first and second cut, and the
    object from after the second cut up to the end index. */
module Cuts {
  import opened JavaLang

  /** `[line.substring(0, first), line.substring(first + 1, second),
      line.substring(second + 1, end)]`, or the exception the first failing
      call throws. */
  function Cut(line: string, first: int, second: int, end: int): (r: Outcome<seq<string>>)
    ensures r.Returned? ==> |r.value| == 3
    ensures r.Threw? ==> r.exception == StringIndexOutOfBounds
  {
    var subj :- Substring(line, 0, first);
    var pred :- Substring(line, first + 1, second);
    var obj :- Substring(line, second + 1, end);
    Returned([subj, pred, obj])
  }

  /** The three calls all succeed exactly when the cuts are in increasing order
      within the line; the terms are then the slices between them. */
  lemma CutIff(line: string, first: int, second: int, end: int)
    ensures Cut(line, first, second, end) ==
      if 0 <= first < second < end <= |line|
      then Returned([line[..first], line[first + 1..second], line[second + 1..end]])
      else Threw(StringIndexOutOfBounds)
  {
    if 0 <= first < second < end <= |line| {
      assert Substring(line, 0, first) == Returned(line[..first]);
    }
  }
}
