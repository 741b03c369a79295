/** Characters and substrings as the parser's patterns and `str::split` see them.
    Only ASCII is modelled: `\d`, `\s` and `\w` are restricted to their ASCII members. */
module Text {

  datatype Option<+T> = None | Some(value: T)

  /** `\d` */
  predicate IsDigit(c: char) {
    '0' <= c <= '9'
  }

  /** `\s` (the ASCII white-space characters) */
  predicate IsSpace(c: char) {
    c == ' ' || c == '\t' || c == '\n' || c == '\U{0B}' || c == '\U{0C}' || c == '\r'
  }

  /** `\w` */
  predicate IsWordChar(c: char) {
    IsDigit(c) || ('a' <= c <= 'z') || ('A' <= c <= 'Z') || c == '_'
  }

  /** `sep` occurs in `s` starting at index `k`. */
  predicate OccursAt(s: string, sep: string, k: nat) {
    k + |sep| <= |s| && s[k..k + |sep|] == sep
  }

  /** `sep` occurs somewhere in `s`. */
  ghost predicate Occurs(s: string, sep: string) {
    exists k: nat :: OccursAt(s, sep, k)
  }

  /** The first occurrence of `sep` in `s` at or after `from`. */
  function IndexOf(s: string, sep: string, from: nat): (r: Option<nat>)
    requires from <= |s|
    ensures r.Some? ==> from <= r.value && OccursAt(s, sep, r.value)
    ensures r.Some? ==> forall k: nat :: from <= k < r.value ==> !OccursAt(s, sep, k)
    ensures r.None? ==> forall k: nat :: from <= k ==> !OccursAt(s, sep, k)
    decreases |s| - from
  {
    if OccursAt(s, sep, from) then Some(from)
    else if from + |sep| >= |s| then None
    else IndexOf(s, sep, from + 1)
  }

  /** `piece` follows the first occurrence of `sep` in `s`, which starts at `p`, and
      runs up to the next occurrence or to the end of `s`. */
  ghost predicate IsSecondPiece(s: string, sep: string, p: nat, piece: string) {
    && OccursAt(s, sep, p)
    && (forall i: nat :: i < p ==> !OccursAt(s, sep, i))
    && p + |sep| + |piece| <= |s|
    && s[p + |sep|..p + |sep| + |piece|] == piece
    && (forall j: nat :: p + |sep| <= j < p + |sep| + |piece| ==> !OccursAt(s, sep, j))
    && (p + |sep| + |piece| == |s| || OccursAt(s, sep, p + |sep| + |piece|))
  }

  /** `s.split(sep).collect::<Vec<&str>>()[1]`: the piece between the first and the
      second (non-overlapping) occurrence of `sep`, or up to the end of `s` when there is
      no second one. `None` stands for the out-of-bounds index when `sep` does not occur. */
  function SplitSecond(s: string, sep: string): (r: Option<string>)
    requires |sep| > 0
    ensures r.None? <==> !Occurs(s, sep)
    ensures r.Some? ==> exists p: nat :: IsSecondPiece(s, sep, p, r.value)
  {
    match IndexOf(s, sep, 0)
    case None => None
    case Some(p) =>
      var q := p + |sep|;
      match IndexOf(s, sep, q)
      case None =>
        assert IsSecondPiece(s, sep, p, s[q..]);
        Some(s[q..])
      case Some(p2) =>
        assert IsSecondPiece(s, sep, p, s[q..p2]);
        Some(s[q..p2])
  }

  /** `s.split("\n")`: the pieces between line feeds; an empty text is one empty line
      and a trailing line feed yields a final empty line. */
  function SplitLines(s: string): (lines: seq<string>)
    ensures |lines| >= 1
    ensures forall i :: 0 <= i < |lines| ==> '\n' !in lines[i]
    decreases |s|
  {
    if '\n' !in s then [s]
    else
      var k := FirstLineFeed(s, 0);
      [s[..k]] + SplitLines(s[k + 1..])
  }

  /** The index of the first line feed at or after `from`. */
  function FirstLineFeed(s: string, from: nat): (k: nat)
    requires from <= |s| && '\n' in s[from..]
    ensures from <= k < |s| && s[k] == '\n' && '\n' !in s[from..k]
    decreases |s| - from
  {
    if s[from] == '\n' then from
    else
      assert s[from..] == [s[from]] + s[from + 1..];
      FirstLineFeed(s, from + 1)
  }

  /** The lines written back with a line feed between each two. */
  function JoinLines(lines: seq<string>): string
    requires |lines| >= 1
  {
    if |lines| == 1 then lines[0] else lines[0] + "\n" + JoinLines(lines[1..])
  }

  /** Splitting on line feeds undoes joining lines that hold none. */
  lemma {:induction false} SplitJoinLines(lines: seq<string>)
    requires |lines| >= 1
    requires forall i :: 0 <= i < |lines| ==> '\n' !in lines[i]
    ensures SplitLines(JoinLines(lines)) == lines
    decreases |lines|
  {
    if |lines| == 1 {
    } else {
      var rest := JoinLines(lines[1..]);
      var s := lines[0] + "\n" + rest;
      assert s[|lines[0]|] == '\n';
      assert '\n' in s;
      var k := FirstLineFeed(s, 0);
      assert s[..|lines[0]|] == lines[0];
      assert k == |lines[0]|;
      assert s[k + 1..] == rest;
      SplitJoinLines(lines[1..]);
    }
  }

  /** Joining the lines of a text gives the text back. */
  lemma {:induction false} JoinSplitLines(s: string)
    ensures JoinLines(SplitLines(s)) == s
    decreases |s|
  {
    if '\n' in s {
      var k := FirstLineFeed(s, 0);
      JoinSplitLines(s[k + 1..]);
      assert s == s[..k] + "\n" + s[k + 1..];
    }
  }
}
