/** The parts of java.lang.String that the parsers rely on, with their JDK semantics:
    index searches that answer -1 when nothing is found, and substring/charAt that
    throw StringIndexOutOfBoundsException on bad indices. A Java string is a
    sequence of chars; a Java reference that may be null is an Option. */
module JavaLang {

  datatype Option<+T> = None | Some(value: T)

  /** The exceptions the modelled code can raise. */
  datatype Exception = StringIndexOutOfBounds | IllegalArgument | IllegalState

  /** A Java call either returns a value or throws. */
  datatype Outcome<+T> = Returned(value: T) | Threw(exception: Exception) {
    predicate IsFailure() { Threw? }

    function PropagateFailure<U>(): Outcome<U>
      requires Threw?
    {
      Threw(exception)
    }

    function Extract(): T
      requires Returned?
    {
      value
    }
  }

  /** Wraps a returned value as a non-null reference; an exception passes through. */
  function NonNull<T>(o: Outcome<T>): (r: Outcome<Option<T>>)
    ensures r.Threw? <==> o.Threw?
    ensures o.Threw? ==> r.exception == o.exception
    ensures o.Returned? ==> r.value == Some(o.value)
  {
    match o
    case Returned(v) => Returned(Some(v))
    case Threw(e) => Threw(e)
  }

  /** `s.indexOf(c, from)`: the first index at or after `from` (a negative `from`
      counts as 0) that holds `c`, or -1 when there is none (`IndexOfFirst`). */
  function IndexOf(s: string, c: char, from: int): (r: int)
    ensures -1 <= r < |s|
    ensures r >= 0 ==> s[r] == c && from <= r
    decreases if from < 0 then |s| + 1 else |s| - from
  {
    if from < 0 then IndexOf(s, c, 0)
    else if from >= |s| then -1
    else if s[from] == c then from
    else IndexOf(s, c, from + 1)
  }

  /** `indexOf` answers the FIRST match: nothing between `from` and its answer
      (or, for -1, up to the end) holds `c`. */
  lemma {:induction false} IndexOfFirst(s: string, c: char, from: int)
    ensures var r := IndexOf(s, c, from);
      forall j :: from <= j < |s| && 0 <= j && (r < 0 || j < r) ==> s[j] != c
    decreases if from < 0 then |s| + 1 else |s| - from
  {
    if from < 0 {
      IndexOfFirst(s, c, 0);
    } else if from < |s| && s[from] != c {
      IndexOfFirst(s, c, from + 1);
    }
  }

  /** `s.lastIndexOf(c, from)`: the last index at or before `from` (a `from` past
      the end counts as the last index) that holds `c`, or -1 when there is none
      (`LastIndexOfLast`). `s.lastIndexOf(c)` is `LastIndexOf(s, c, |s| - 1)`. */
  function LastIndexOf(s: string, c: char, from: int): (r: int)
    ensures -1 <= r < |s| && (r >= 0 ==> r <= from)
    ensures r >= 0 ==> s[r] == c
    decreases if from >= |s| then |s| + 1 else from + 1
  {
    if from >= |s| then LastIndexOf(s, c, |s| - 1)
    else if from < 0 then -1
    else if s[from] == c then from
    else LastIndexOf(s, c, from - 1)
  }

  /** `lastIndexOf` answers the LAST match: nothing after its answer (or, for -1,
      anywhere) up to `from` holds `c`. */
  lemma {:induction false} LastIndexOfLast(s: string, c: char, from: int)
    ensures var r := LastIndexOf(s, c, from);
      forall j :: 0 <= j <= from && j < |s| && r < j ==> s[j] != c
    decreases if from >= |s| then |s| + 1 else from + 1
  {
    if from >= |s| {
      LastIndexOfLast(s, c, |s| - 1);
    } else if 0 <= from && s[from] != c {
      LastIndexOfLast(s, c, from - 1);
    }
  }

  /** When `c` sits at `i` and nowhere in `s[from..i]`, `indexOf(c, from)` finds `i`. */
  lemma IndexOfIs(s: string, c: char, from: int, i: int)
    requires 0 <= from <= i < |s| && s[i] == c && c !in s[from..i]
    ensures IndexOf(s, c, from) == i
  {
    IndexOfFirst(s, c, from);
    forall j | from <= j < i ensures s[j] != c {
      assert s[j] == s[from..i][j - from];
    }
  }

  /** When `c` sits at `i` and nowhere after it up to `from`, `lastIndexOf(c, from)` finds `i`. */
  lemma LastIndexOfIs(s: string, c: char, from: int, i: int)
    requires 0 <= i <= from < |s| && s[i] == c && c !in s[i + 1..from + 1]
    ensures LastIndexOf(s, c, from) == i
  {
    LastIndexOfLast(s, c, from);
    forall j | i < j <= from ensures s[j] != c {
      assert s[j] == s[i + 1..from + 1][j - i - 1];
    }
  }

  /** What `indexOf` skipped over to find `r` holds no `c`. */
  lemma IndexOfSkips(s: string, c: char, from: int, r: int)
    requires 0 <= from && r == IndexOf(s, c, from) && r >= 0
    ensures c !in s[from..r]
  {
    IndexOfFirst(s, c, from);
    var before := s[from..r];
    forall y | 0 <= y < |before| ensures before[y] != c {
      assert before[y] == s[from + y];
    }
  }

  /** What lies after the index `r` that `lastIndexOf(c, from)` finds, up to
      `from`, holds no `c`. */
  lemma LastIndexOfSkips(s: string, c: char, from: int, r: int)
    requires from < |s| && r == LastIndexOf(s, c, from) && r >= 0
    ensures c !in s[r + 1..from + 1]
  {
    LastIndexOfLast(s, c, from);
    var after := s[r + 1..from + 1];
    forall y | 0 <= y < |after| ensures after[y] != c {
      assert after[y] == s[r + 1 + y];
    }
  }

  /** `first` and `second` hold the first two `c`s of `s` exactly when they hold
      `c` and nothing before them does: then `indexOf(c)` finds `first` and
      `indexOf(c, first + 1)` finds `second`. */
  lemma FirstTwoAt(s: string, c: char, first: int, second: int)
    requires 0 <= first < second < |s| && s[first] == c && s[second] == c
    requires c !in s[..first] && c !in s[first + 1..second]
    ensures IndexOf(s, c, 0) == first && IndexOf(s, c, first + 1) == second
  {
    assert s[0..first] == s[..first];
    IndexOfIs(s, c, 0, first);
    IndexOfIs(s, c, first + 1, second);
  }

  /** The converse of `FirstTwoAt`. */
  lemma FirstTwoSkip(s: string, c: char, first: int, second: int)
    requires first == IndexOf(s, c, 0) && second == IndexOf(s, c, first + 1) && 0 <= first < second
    ensures s[first] == c && s[second] == c
    ensures c !in s[..first] && c !in s[first + 1..second]
  {
    IndexOfSkips(s, c, 0, first);
    assert s[0..first] == s[..first];
    IndexOfSkips(s, c, first + 1, second);
  }

  /** `secondToLast` and `last` hold the last two `c`s of `s` exactly when they
      hold `c` and nothing after them does: then `lastIndexOf(c)` finds `last`
      and `lastIndexOf(c, last - 1)` finds `secondToLast`. */
  lemma LastTwoAt(s: string, c: char, secondToLast: int, last: int)
    requires 0 <= secondToLast < last < |s| && s[secondToLast] == c && s[last] == c
    requires c !in s[secondToLast + 1..last] && c !in s[last + 1..]
    ensures LastIndexOf(s, c, |s| - 1) == last && LastIndexOf(s, c, last - 1) == secondToLast
  {
    assert s[last + 1..|s|] == s[last + 1..];
    LastIndexOfIs(s, c, |s| - 1, last);
    LastIndexOfIs(s, c, last - 1, secondToLast);
  }

  /** The converse of `LastTwoAt`. */
  lemma LastTwoSkip(s: string, c: char, secondToLast: int, last: int)
    requires last == LastIndexOf(s, c, |s| - 1) && secondToLast == LastIndexOf(s, c, last - 1) && 0 <= secondToLast
    ensures secondToLast < last && s[secondToLast] == c && s[last] == c
    ensures c !in s[secondToLast + 1..last] && c !in s[last + 1..]
  {
    LastIndexOfSkips(s, c, |s| - 1, last);
    assert s[last + 1..|s|] == s[last + 1..];
    LastIndexOfSkips(s, c, last - 1, secondToLast);
  }

  /** `s.charAt(i)`. */
  function CharAt(s: string, i: int): (r: Outcome<char>)
    ensures r.Returned? <==> 0 <= i < |s|
    ensures r.Returned? ==> r.value == s[i]
    ensures r.Threw? ==> r.exception == StringIndexOutOfBounds
  {
    if 0 <= i < |s| then Returned(s[i]) else Threw(StringIndexOutOfBounds)
  }

  /** `s.substring(begin, end)`. */
  function Substring(s: string, begin: int, end: int): (r: Outcome<string>)
    ensures r.Returned? <==> 0 <= begin <= end <= |s|
    ensures r.Returned? ==> r.value == s[begin..end]
    ensures r.Threw? ==> r.exception == StringIndexOutOfBounds
  {
    if 0 <= begin <= end <= |s| then Returned(s[begin..end]) else Threw(StringIndexOutOfBounds)
  }

  /** `s.startsWith(prefix)`. */
  predicate StartsWith(s: string, prefix: string) {
    |prefix| <= |s| && s[..|prefix|] == prefix
  }

  /** `s.trim()`: drops every leading and trailing char at or below U+0020. */
  function Trim(s: string): string {
    TrimTrailing(TrimLeading(s))
  }

  function TrimLeading(s: string): string {
    if |s| > 0 && s[0] <= ' ' then TrimLeading(s[1..]) else s
  }

  function TrimTrailing(s: string): string {
    if |s| > 0 && s[|s| - 1] <= ' ' then TrimTrailing(s[..|s| - 1]) else s
  }

  lemma {:induction false} TrimTrailingEmptyIff(s: string)
    ensures TrimTrailing(s) == [] <==> forall i :: 0 <= i < |s| ==> s[i] <= ' '
  {
    if |s| > 0 && s[|s| - 1] <= ' ' {
      var t := s[..|s| - 1];
      TrimTrailingEmptyIff(t);
      assert forall i :: 0 <= i < |t| ==> t[i] == s[i];
    }
  }

  lemma {:induction false} TrimLeadingEmptyIff(s: string)
    ensures TrimLeading(s) == [] <==> forall i :: 0 <= i < |s| ==> s[i] <= ' '
  {
    if |s| > 0 && s[0] <= ' ' {
      var t := s[1..];
      TrimLeadingEmptyIff(t);
      assert forall i :: 1 <= i < |s| ==> s[i] == t[i - 1];
    }
  }

  /** `s.trim().isEmpty()` holds exactly when every char of `s` is at or below U+0020. */
  lemma {:induction false} TrimEmptyIff(s: string)
    ensures Trim(s) == [] <==> forall i :: 0 <= i < |s| ==> s[i] <= ' '
  {
    TrimLeadingEmptyIff(s);
    TrimTrailingEmptyIff(TrimLeading(s));
    if TrimLeading(s) != [] {
      // TrimLeading stops at a char above U+0020, which TrimTrailing never removes.
      TrimLeadingStopsAtVisible(s);
    }
  }

  lemma {:induction false} TrimLeadingStopsAtVisible(s: string)
    requires TrimLeading(s) != []
    ensures TrimLeading(s)[0] > ' '
    ensures exists i :: 0 <= i < |s| && s[i] > ' '
    ensures exists i :: 0 <= i < |TrimLeading(s)| && TrimLeading(s)[i] > ' '
  {
    if |s| > 0 && s[0] <= ' ' {
      TrimLeadingStopsAtVisible(s[1..]);
      var i :| 0 <= i < |s[1..]| && s[1..][i] > ' ';
      assert s[i + 1] > ' ';
    } else {
      assert s[0] > ' ';
    }
  }

  /** `k` copies of `c`. */
  function Repeat(c: char, k: nat): (r: string)
    ensures |r| == k && forall i :: 0 <= i < k ==> r[i] == c
  {
    if k == 0 then [] else Repeat(c, k - 1) + [c]
  }
}
