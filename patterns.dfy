/** The five regular expressions of the parser (REV, AUTHOR, DATE, CHANGES, CHANGEMODEL)
    as hand-written matchers over a line. Each pattern has a declarative predicate saying
    where and how it can match; the matcher is proved to return the match that the regex
    engine reports (leftmost start first, then greedy or lazy repetition as written). */
module Patterns {
  import opened Text

  datatype CharClass = RevChar | CountChar | Space | Word | Digit

  /** `[\d|a-f]`, `[\d-]`, `[\t\s]`, `\w` and `\d`; the `|` in the first class is literal. */
  predicate InClass(c: char, cls: CharClass) {
    match cls
    case RevChar => IsDigit(c) || ('a' <= c <= 'f') || c == '|'
    case CountChar => IsDigit(c) || c == '-'
    case Space => IsSpace(c)
    case Word => IsWordChar(c)
    case Digit => IsDigit(c)
  }

  /** Every character of `s[lo..hi]` is in `cls`. */
  predicate AllIn(s: string, lo: nat, hi: nat, cls: CharClass) {
    lo <= hi <= |s| && forall k :: lo <= k < hi ==> InClass(s[k], cls)
  }

  /** The end of the longest run of `cls` characters that starts at `i`. */
  function RunEnd(s: string, i: nat, cls: CharClass): (j: nat)
    requires i <= |s|
    ensures i <= j <= |s| && AllIn(s, i, j, cls)
    ensures j < |s| ==> !InClass(s[j], cls)
    decreases |s| - i
  {
    if i < |s| && InClass(s[i], cls) then RunEnd(s, i + 1, cls) else i
  }

  // ---------------------------------------------------------------------------------
  // REV = `\[(?P<rev>[\d|a-f]{5,12})\]`

  /** REV matches at `i` with `n` characters between the brackets. */
  predicate RevMatchAt(s: string, i: nat, n: nat) {
    && i + n + 2 <= |s|
    && s[i] == '['
    && 5 <= n <= 12
    && AllIn(s, i + 1, i + 1 + n, RevChar)
    && s[i + 1 + n] == ']'
  }

  datatype RevMatch = RevMatch(start: nat, rev: string)

  /** The REV match that starts at `i`, if any. */
  function RevAt(s: string, i: nat): (r: Option<string>)
    requires i <= |s|
    ensures r.Some? ==> RevMatchAt(s, i, |r.value|) && r.value == s[i + 1..i + 1 + |r.value|]
    ensures r.None? ==> forall n :: !RevMatchAt(s, i, n)
  {
    if i < |s| && s[i] == '[' then
      var j := RunEnd(s, i + 1, RevChar);
      if 5 <= j - (i + 1) <= 12 && j < |s| && s[j] == ']' then Some(s[i + 1..j]) else None
    else None
  }

  /** `REV.captures(s)` searching from `from`: the leftmost match. */
  function FindRev(s: string, from: nat): (r: Option<RevMatch>)
    requires from <= |s|
    ensures r.Some? ==> && from <= r.value.start
                        && RevMatchAt(s, r.value.start, |r.value.rev|)
                        && r.value.rev == s[r.value.start + 1..r.value.start + 1 + |r.value.rev|]
    ensures r.Some? ==> forall i, n :: from <= i < r.value.start ==> !RevMatchAt(s, i, n)
    ensures r.None? ==> forall i, n :: from <= i ==> !RevMatchAt(s, i, n)
    decreases |s| - from
  {
    match RevAt(s, from)
    case Some(rev) => Some(RevMatch(from, rev))
    case None => if from == |s| then None else FindRev(s, from + 1)
  }

  /** A match of REV pins down its token: two matches at one position agree. */
  lemma RevMatchUnique(s: string, i: nat, n: nat, m: nat)
    requires RevMatchAt(s, i, n) && RevMatchAt(s, i, m)
    ensures n == m
  {
  }

  // ---------------------------------------------------------------------------------
  // AUTHOR = `(?P<author>.*?)\s\d{10}` and DATE = `(?P<date>\d{10})`

  /** Ten digits start at `i`. */
  predicate TenDigitsAt(s: string, i: nat) {
    AllIn(s, i, i + 10, Digit)
  }

  /** A white-space character followed by ten digits starts at `j`. */
  predicate DateMarkAt(s: string, j: nat) {
    j + 11 <= |s| && IsSpace(s[j]) && TenDigitsAt(s, j + 1)
  }

  /** AUTHOR matches with its lazy `.*?` group spanning `s[i..j]`; `.` is any character
      except a line feed. */
  predicate AuthorMatch(s: string, i: nat, j: nat) {
    i <= j && DateMarkAt(s, j) && (forall k :: i <= k < j ==> s[k] != '\n')
  }

  datatype Span = Span(start: nat, end: nat)

  /** The first date mark at or after `from`. */
  function FirstDateMark(s: string, from: nat): (r: Option<nat>)
    requires from <= |s|
    ensures r.Some? ==> from <= r.value && DateMarkAt(s, r.value)
    ensures r.Some? ==> forall j :: from <= j < r.value ==> !DateMarkAt(s, j)
    ensures r.None? ==> forall j :: from <= j ==> !DateMarkAt(s, j)
    decreases |s| - from
  {
    if DateMarkAt(s, from) then Some(from)
    else if from == |s| then None
    else FirstDateMark(s, from + 1)
  }

  /** The start of the line-feed-free stretch of `s` that ends at `j`. */
  function StretchStart(s: string, j: nat): (p: nat)
    requires j <= |s|
    ensures p <= j && (forall k :: p <= k < j ==> s[k] != '\n')
    ensures p == 0 || s[p - 1] == '\n'
  {
    if j == 0 || s[j - 1] == '\n' then j else StretchStart(s, j - 1)
  }

  /** `AUTHOR.captures(s)`: the span of the `author` group of the match the regex engine
      reports, the leftmost one and, from there, the shortest. */
  function AuthorSpan(s: string): (r: Option<Span>)
    ensures r.Some? ==> AuthorMatch(s, r.value.start, r.value.end)
    ensures r.Some? ==> forall i: nat, j: nat :: i < r.value.start ==> !AuthorMatch(s, i, j)
    ensures r.Some? ==> forall j: nat :: j < r.value.end ==> !AuthorMatch(s, r.value.start, j)
    ensures r.None? ==> forall i: nat, j: nat :: !AuthorMatch(s, i, j)
  {
    match FirstDateMark(s, 0)
    case None => None
    case Some(j) =>
      var i := StretchStart(s, j);
      Some(Span(i, j))
  }

  /** `DATE.captures(s)`: where the leftmost run of ten digits starts. */
  function FindDate(s: string, from: nat): (r: Option<nat>)
    requires from <= |s|
    ensures r.Some? ==> from <= r.value && TenDigitsAt(s, r.value)
    ensures r.Some? ==> forall i :: from <= i < r.value ==> !TenDigitsAt(s, i)
    ensures r.None? ==> forall i :: from <= i ==> !TenDigitsAt(s, i)
    decreases |s| - from
  {
    if TenDigitsAt(s, from) then Some(from)
    else if from == |s| then None
    else FindDate(s, from + 1)
  }

  // ---------------------------------------------------------------------------------
  // CHANGES = `(?P<deleted>[\d-]+)[\t\s]+(?P<added>[\d-]+)[\t\s]+(?P<filename>.*)`

  /** The four repeated groups of CHANGES can match at `i`, ending at `d`, `w1`, `a`, `w2`
      (`deleted`, white space, `added`, white space); `.*` then always matches. */
  predicate ChangesShapeAt(s: string, i: nat, d: nat, w1: nat, a: nat, w2: nat) {
    && i < d < w1 < a < w2 <= |s|
    && AllIn(s, i, d, CountChar)
    && AllIn(s, d, w1, Space)
    && AllIn(s, w1, a, CountChar)
    && AllIn(s, a, w2, Space)
  }

  /** Positions of the captures: `deleted` is `s[start..d]`, `added` is `s[w1..a]` and
      `filename` starts at `w2`. */
  datatype ChangesMatch = ChangesMatch(start: nat, d: nat, w1: nat, a: nat, w2: nat)

  /** The end of what `.*` consumes from `i`: up to the next line feed. */
  function LineEnd(s: string, i: nat): (j: nat)
    requires i <= |s|
    ensures i <= j <= |s| && (forall k :: i <= k < j ==> s[k] != '\n')
    ensures j < |s| ==> s[j] == '\n'
    decreases |s| - i
  {
    if i < |s| && s[i] != '\n' then LineEnd(s, i + 1) else i
  }

  /** The CHANGES match at `i` with every repetition taken as long as it can be. */
  function ChangesAt(s: string, i: nat): (r: Option<ChangesMatch>)
    requires i <= |s|
    ensures r.Some? ==> && r.value.start == i
                        && ChangesShapeAt(s, i, r.value.d, r.value.w1, r.value.a, r.value.w2)
                        && (r.value.w2 == |s| || !IsSpace(s[r.value.w2]))
    ensures r.None? ==> forall d, w1, a, w2 :: !ChangesShapeAt(s, i, d, w1, a, w2)
  {
    var d := RunEnd(s, i, CountChar);
    var w1 := RunEnd(s, d, Space);
    var a := RunEnd(s, w1, CountChar);
    var w2 := RunEnd(s, a, Space);
    if i < d < w1 < a < w2 then Some(ChangesMatch(i, d, w1, a, w2))
    else
      assert forall d': nat, w1': nat, a': nat, w2': nat :: ChangesShapeAt(s, i, d', w1', a', w2') ==>
        d' == d && w1' == w1 && a' == a && w2' <= w2 by {
        forall d': nat, w1': nat, a': nat, w2': nat | ChangesShapeAt(s, i, d', w1', a', w2')
          ensures d' == d && w1' == w1 && a' == a && w2' <= w2
        {
          ChangesShapeRuns(s, i, d', w1', a', w2');
        }
      }
      None
  }

  /** Every way CHANGES can match at `i` agrees with the greedy runs on `deleted` and
      `added`; only the second white-space run may be cut short. */
  lemma ChangesShapeRuns(s: string, i: nat, d: nat, w1: nat, a: nat, w2: nat)
    requires ChangesShapeAt(s, i, d, w1, a, w2)
    ensures RunEnd(s, i, CountChar) == d
    ensures RunEnd(s, d, Space) == w1
    ensures RunEnd(s, w1, CountChar) == a
    ensures w2 <= RunEnd(s, a, Space)
  {
    assert InClass(s[d], Space);
    assert InClass(s[w1], CountChar);
    assert InClass(s[a], Space);
  }

  /** `CHANGES.captures(s)` searching from `from`: the leftmost match. */
  function FindChanges(s: string, from: nat): (r: Option<ChangesMatch>)
    requires from <= |s|
    ensures r.Some? ==> && from <= r.value.start
                        && ChangesShapeAt(s, r.value.start, r.value.d, r.value.w1, r.value.a, r.value.w2)
                        && (r.value.w2 == |s| || !IsSpace(s[r.value.w2]))
    ensures r.Some? ==> forall i, d, w1, a, w2 :: from <= i < r.value.start ==> !ChangesShapeAt(s, i, d, w1, a, w2)
    ensures r.None? ==> forall i, d, w1, a, w2 :: from <= i ==> !ChangesShapeAt(s, i, d, w1, a, w2)
    decreases |s| - from
  {
    match ChangesAt(s, from)
    case Some(m) => Some(m)
    case None => if from == |s| then None else FindChanges(s, from + 1)
  }

  // ---------------------------------------------------------------------------------
  // CHANGEMODEL = `\s(\w{1,6})\s(mode 100(\d){3})?\s?(.*)(\s\(\d{2}%\))?`

  /** CHANGEMODEL matches at `i` with a token of `n` word characters between two white-space
      characters; everything after that in the pattern is optional and always matches. */
  predicate ChangeModeMatchAt(s: string, i: nat, n: nat) {
    && i + n + 2 <= |s|
    && IsSpace(s[i])
    && 1 <= n <= 6
    && AllIn(s, i + 1, i + 1 + n, Word)
    && IsSpace(s[i + 1 + n])
  }

  /** Whether CHANGEMODEL matches anywhere at or after `from`. */
  function HasChangeMode(s: string, from: nat): (r: bool)
    requires from <= |s|
    ensures r <==> exists i, n :: from <= i && ChangeModeMatchAt(s, i, n)
    decreases |s| - from
  {
    if from == |s| then false
    else
      var e := RunEnd(s, from + 1, Word);
      if IsSpace(s[from]) && 1 <= e - (from + 1) <= 6 && e < |s| && IsSpace(s[e]) then
        assert ChangeModeMatchAt(s, from, e - (from + 1));
        true
      else
        assert forall n :: !ChangeModeMatchAt(s, from, n);
        HasChangeMode(s, from + 1)
  }
}
