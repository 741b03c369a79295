/** The line formats the parser expects, written out, and the proof that parsing a
    well-formed line gives back exactly the fields it was written from. */
module LineFormats {
  import opened Text
  import opened Numbers
  import opened Patterns
  import opened Domain
  import opened LineParsing

  /** `[<rev>] <author> <ten-digit epoch> <message>` */
  function FormatHeader(rev: string, author: string, dateText: string, message: string): string {
    "[" + rev + "] " + author + " " + dateText + " " + message
  }

  /** `<deleted><gap><added><gap><file>`, counts in decimal as `git log --numstat` writes them */
  function FormatNumStat(deleted: int, added: int, gap1: string, gap2: string, file: string): string {
    IntToDecimal(deleted) + gap1 + IntToDecimal(added) + gap2 + file
  }

  /** A header line whose fields the parser reads back unchanged: a revision of 5 to 12
      characters of `[0-9a-f|]`, an author with no "white space + ten digits" inside, no
      '[' or line feed in author or message, and no repetition of the separators the parser
      splits on ("<author> " after the author, "<date> " inside the message). */
  ghost predicate WellFormedHeader(rev: string, author: string, dateText: string, message: string) {
    && 5 <= |rev| <= 12 && AllIn(rev, 0, |rev|, RevChar)
    && |dateText| == 10 && AllDigits(dateText)
    && '[' !in author && '[' !in message
    && '\n' !in author && '\n' !in message
    && (forall j :: !DateMarkAt(author, j))
    && !Occurs(dateText + " " + message, author + " ")
    && !Occurs(message, dateText + " ")
  }

  /** A numstat line whose fields the parser reads back unchanged: 32-bit counts, gaps of
      white space other than line feeds, and a file name with no '[' or line feed that does
      not start with white space. */
  ghost predicate WellFormedNumStat(deleted: int, added: int, gap1: string, gap2: string, file: string) {
    && I32_MIN <= deleted <= I32_MAX && I32_MIN <= added <= I32_MAX
    && |gap1| >= 1 && AllIn(gap1, 0, |gap1|, Space) && '\n' !in gap1
    && |gap2| >= 1 && AllIn(gap2, 0, |gap2|, Space) && '\n' !in gap2
    && '[' !in file && '\n' !in file
    && (file == [] || !IsSpace(file[0]))
  }

  /** A string that lacks the first character of `sep` does not contain `sep`. */
  lemma NotOccursWithoutFirst(s: string, sep: string)
    requires |sep| >= 1 && sep[0] !in s
    ensures !Occurs(s, sep)
  {
  }

  /** Splitting `sep + rest` on `sep` yields `rest` when `rest` does not contain `sep`. */
  lemma SplitAfterLeadingSeparator(s: string, sep: string, rest: string)
    requires |sep| >= 1 && s == sep + rest && !Occurs(rest, sep)
    ensures SplitSecond(s, sep) == Some(rest)
  {
    assert OccursAt(s, sep, 0);
    assert IndexOf(s, sep, 0) == Some(0);
    forall k: nat | |sep| <= k && OccursAt(s, sep, k) ensures false {
      assert s[k..k + |sep|] == rest[k - |sep|..k - |sep| + |sep|];
      assert OccursAt(rest, sep, k - |sep|);
    }
    assert IndexOf(s, sep, |sep|) == None;
    assert s[|sep|..] == rest;
  }

  lemma NoRevWithoutBracket(s: string)
    requires '[' !in s
    ensures FindRev(s, 0) == None
  {
  }

  /** The decimal rendering of a count consists of `[\d-]` characters only. */
  lemma DecimalIsCountChars(v: int)
    ensures |IntToDecimal(v)| >= 1 && AllIn(IntToDecimal(v), 0, |IntToDecimal(v)|, CountChar)
    ensures '[' !in IntToDecimal(v) && '\n' !in IntToDecimal(v)
  {
    var s := IntToDecimal(v);
    if v < 0 {
      var t := NatToDecimal(-v);
      assert s == "-" + t;
      assert forall k :: 1 <= k < |s| ==> s[k] == t[k - 1];
    }
    assert forall k :: 0 <= k < |s| ==> InClass(s[k], CountChar);
  }

  /** The first date mark of "<author> <date> ..." is the space after the author. */
  lemma AuthorEndsAtFirstMark(author: string, dateText: string, tail: string)
    requires |dateText| == 10 && AllDigits(dateText)
    requires '\n' !in author && forall j :: !DateMarkAt(author, j)
    ensures AuthorSpan(author + " " + dateText + tail) == Some(Span(0, |author|))
  {
    var s := author + " " + dateText + tail;
    assert DateMarkAt(s, |author|) by {
      assert s[|author| + 1..|author| + 11] == dateText;
      assert forall k :: |author| + 1 <= k < |author| + 11 ==> s[k] == dateText[k - |author| - 1];
    }
    forall j: nat | j < |author| && DateMarkAt(s, j) ensures false {
      if j + 11 <= |author| {
        assert forall k :: j <= k < j + 11 ==> s[k] == author[k];
        assert DateMarkAt(author, j);
      }
    }
    assert FirstDateMark(s, 0) == Some(|author|);
    assert forall k :: 0 <= k < |author| ==> s[k] == author[k];
    assert StretchStart(s, |author|) == 0 by {
      StretchStartNoLineFeed(s, |author|);
    }
  }

  lemma {:induction false} StretchStartNoLineFeed(s: string, j: nat)
    requires j <= |s| && forall k :: 0 <= k < j ==> s[k] != '\n'
    ensures StretchStart(s, j) == 0
  {
    if j > 0 {
      StretchStartNoLineFeed(s, j - 1);
    }
  }

  /** REV matches a header line at its first character. */
  lemma HeaderRev(rev: string, rest: string)
    requires 5 <= |rev| <= 12 && AllIn(rev, 0, |rev|, RevChar)
    ensures FindRev("[" + rev + "] " + rest, 0) == Some(RevMatch(0, rev))
  {
    var line := "[" + rev + "] " + rest;
    assert RunEnd(line, 1, RevChar) == 1 + |rev| by {
      assert forall k :: 1 <= k < 1 + |rev| ==> line[k] == rev[k - 1];
      assert line[1 + |rev|] == ']';
    }
    assert line[1..1 + |rev|] == rev;
  }

  /** The part of a header after the revision holds no '['. */
  lemma HeaderRestHasNoBracket(author: string, dateText: string, message: string)
    requires '[' !in author && '[' !in message && AllDigits(dateText)
    ensures '[' !in author + " " + dateText + " " + message
  {
    var rest := author + " " + dateText + " " + message;
    forall k | 0 <= k < |rest| ensures rest[k] != '[' {
      if k < |author| {
        assert rest[k] == author[k];
      } else if |author| < k < |author| + 1 + |dateText| {
        assert rest[k] == dateText[k - |author| - 1];
      } else if k > |author| + 1 + |dateText| {
        assert rest[k] == message[k - |author| - 2 - |dateText|];
      }
    }
  }

  /** The date and the message are read back from "<date> <message>". */
  lemma DateAndMessageRoundTrip(dateText: string, message: string)
    requires |dateText| == 10 && AllDigits(dateText) && !Occurs(message, dateText + " ")
    ensures DateAndMessage(dateText + " " + message) == Ok((DigitsValue(dateText), message))
  {
    var tail := dateText + " " + message;
    assert TenDigitsAt(tail, 0) by {
      assert forall k :: 0 <= k < 10 ==> tail[k] == dateText[k];
    }
    assert FindDate(tail, 0) == Some(0);
    assert tail[0..10] == dateText;
    assert tail == (dateText + " ") + message;
    SplitAfterLeadingSeparator(tail, dateText + " ", message);
  }

  /** The author, the date and the message are read back from what follows the revision. */
  lemma AfterRevRoundTrip(author: string, dateText: string, message: string)
    requires |dateText| == 10 && AllDigits(dateText)
    requires '\n' !in author && forall j :: !DateMarkAt(author, j)
    requires !Occurs(dateText + " " + message, author + " ")
    requires !Occurs(message, dateText + " ")
    ensures AuthorDateAndMessage(author + " " + dateText + " " + message)
         == Ok((author, DigitsValue(dateText), message))
  {
    var rest := author + " " + dateText + " " + message;
    AuthorEndsAtFirstMark(author, dateText, " " + message);
    assert rest == author + " " + dateText + (" " + message);
    assert rest[0..|author|] == author;
    var tail := dateText + " " + message;
    assert rest == (author + " ") + tail;
    SplitAfterLeadingSeparator(rest, author + " ", tail);
    DateAndMessageRoundTrip(dateText, message);
  }

  /** Parsing a well-formed header line gives back the revision, the author, the epoch and
      the message it was written from, with no changes and empty branch and committer. */
  lemma HeaderRoundTrip(rev: string, author: string, dateText: string, message: string)
    requires WellFormedHeader(rev, author, dateText, message)
    ensures Classify(FormatHeader(rev, author, dateText, message)) == Header(rev)
    ensures CreateCommit(FormatHeader(rev, author, dateText, message), rev)
         == Ok(CocoCommit("", rev, author, "", DigitsValue(dateText), message, []))
  {
    var line := FormatHeader(rev, author, dateText, message);
    var revSep := "[" + rev + "] ";
    var rest := author + " " + dateText + " " + message;
    assert line == revSep + rest;
    HeaderRev(rev, rest);
    HeaderRestHasNoBracket(author, dateText, message);
    NotOccursWithoutFirst(rest, revSep);
    SplitAfterLeadingSeparator(line, revSep, rest);
    AfterRevRoundTrip(author, dateText, message);
  }

  /** Where the captures of a formatted numstat line end. */
  function NumStatMatchOf(deleted: int, added: int, gap1: string, gap2: string): ChangesMatch {
    var d := |IntToDecimal(deleted)|;
    var w1 := d + |gap1|;
    var a := w1 + |IntToDecimal(added)|;
    ChangesMatch(0, d, w1, a, a + |gap2|)
  }

  /** A class holds of a slice that equals a string of that class. */
  lemma AllInSlice(line: string, lo: nat, hi: nat, part: string, cls: CharClass)
    requires lo <= hi <= |line| && line[lo..hi] == part && AllIn(part, 0, |part|, cls)
    ensures AllIn(line, lo, hi, cls)
  {
    assert forall k :: lo <= k < hi ==> line[k] == part[k - lo];
  }

  /** Five parts of the right classes, written one after the other, have the shape CHANGES
      looks for at the start. */
  lemma ShapeOfParts(ds: string, gap1: string, as_: string, gap2: string, file: string)
    requires |ds| >= 1 && AllIn(ds, 0, |ds|, CountChar)
    requires |gap1| >= 1 && AllIn(gap1, 0, |gap1|, Space)
    requires |as_| >= 1 && AllIn(as_, 0, |as_|, CountChar)
    requires |gap2| >= 1 && AllIn(gap2, 0, |gap2|, Space)
    ensures var line := ds + gap1 + as_ + gap2 + file;
            var d := |ds|;
            var w1 := d + |gap1|;
            var a := w1 + |as_|;
            ChangesShapeAt(line, 0, d, w1, a, a + |gap2|)
  {
    var line := ds + gap1 + as_ + gap2 + file;
    var d := |ds|;
    var w1 := d + |gap1|;
    var a := w1 + |as_|;
    var w2 := a + |gap2|;
    assert line[0..d] == ds;
    assert line[d..w1] == gap1;
    assert line[w1..a] == as_;
    assert line[a..w2] == gap2;
    AllInSlice(line, 0, d, ds, CountChar);
    AllInSlice(line, d, w1, gap1, Space);
    AllInSlice(line, w1, a, as_, CountChar);
    AllInSlice(line, a, w2, gap2, Space);
  }

  lemma SpacesHoldNoBracket(g: string)
    requires AllIn(g, 0, |g|, Space)
    ensures '[' !in g
  {
    forall k | 0 <= k < |g| ensures g[k] != '[' {
      assert InClass(g[k], Space);
    }
  }

  /** A well-formed numstat line has no '[' and the shape CHANGES looks for at its start. */
  lemma NumStatShape(deleted: int, added: int, gap1: string, gap2: string, file: string)
    requires WellFormedNumStat(deleted, added, gap1, gap2, file)
    ensures var line := FormatNumStat(deleted, added, gap1, gap2, file);
            var m := NumStatMatchOf(deleted, added, gap1, gap2);
            && '[' !in line
            && ChangesShapeAt(line, 0, m.d, m.w1, m.a, m.w2)
            && line[0..m.d] == IntToDecimal(deleted)
            && line[m.w1..m.a] == IntToDecimal(added)
            && line[m.w2..] == file
  {
    var ds, as_ := IntToDecimal(deleted), IntToDecimal(added);
    DecimalIsCountChars(deleted);
    DecimalIsCountChars(added);
    SpacesHoldNoBracket(gap1);
    SpacesHoldNoBracket(gap2);
    ShapeOfParts(ds, gap1, as_, gap2, file);
    var line := ds + gap1 + as_ + gap2 + file;
    var m := NumStatMatchOf(deleted, added, gap1, gap2);
    assert line[0..m.d] == ds;
    assert line[m.w1..m.a] == as_;
    assert line[m.w2..] == file;
  }

  /** CHANGES reports the match at the start of a well-formed numstat line, with the
      file name starting right after the second gap. */
  lemma NumStatClassified(deleted: int, added: int, gap1: string, gap2: string, file: string)
    requires WellFormedNumStat(deleted, added, gap1, gap2, file)
    ensures Classify(FormatNumStat(deleted, added, gap1, gap2, file))
         == NumStat(NumStatMatchOf(deleted, added, gap1, gap2))
  {
    var line := FormatNumStat(deleted, added, gap1, gap2, file);
    var m := NumStatMatchOf(deleted, added, gap1, gap2);
    NumStatShape(deleted, added, gap1, gap2, file);
    NoRevWithoutBracket(line);
    ChangesShapeRuns(line, 0, m.d, m.w1, m.a, m.w2);
    assert RunEnd(line, m.a, Space) == m.w2 by {
      if m.w2 < |line| {
        assert line[m.w2..][0] == file[0];
      }
    }
    assert ChangesAt(line, 0) == Some(m);
  }

  /** The record built from a numstat match whose counts parse and whose file name runs to
      the end of the line. */
  lemma FileChangeOfMatch(line: string, m: ChangesMatch, deleted: int, added: int)
    requires ChangesShapeAt(line, m.start, m.d, m.w1, m.a, m.w2)
    requires ParseI32(line[m.w1..m.a]) == Some(added) && ParseI32(line[m.start..m.d]) == Some(deleted)
    requires LineEnd(line, m.w2) == |line|
    ensures CreateFileChange(line, m) == Ok((line[m.w2..], FileChange(added, deleted, line[m.w2..], "")))
  {
    assert line[m.w2..LineEnd(line, m.w2)] == line[m.w2..];
  }

  /** The counts of a well-formed numstat line parse back and its file name runs to the
      end of the line. */
  lemma NumStatFields(deleted: int, added: int, gap1: string, gap2: string, file: string)
    requires WellFormedNumStat(deleted, added, gap1, gap2, file)
    ensures var line := FormatNumStat(deleted, added, gap1, gap2, file);
            var m := NumStatMatchOf(deleted, added, gap1, gap2);
            && ChangesShapeAt(line, m.start, m.d, m.w1, m.a, m.w2)
            && ParseI32(line[m.w1..m.a]) == Some(added)
            && ParseI32(line[m.start..m.d]) == Some(deleted)
            && LineEnd(line, m.w2) == |line|
            && line[m.w2..] == file
  {
    var line := FormatNumStat(deleted, added, gap1, gap2, file);
    var m := NumStatMatchOf(deleted, added, gap1, gap2);
    NumStatShape(deleted, added, gap1, gap2, file);
    assert LineEnd(line, m.w2) == |line| by {
      assert forall k :: m.w2 <= k < |line| ==> line[k] == file[k - m.w2];
      LineEndNoLineFeed(line, m.w2);
    }
    ParseI32RoundTrip(deleted);
    ParseI32RoundTrip(added);
  }

  /** Parsing a well-formed numstat line gives back the file name and both counts. */
  lemma NumStatRoundTrip(deleted: int, added: int, gap1: string, gap2: string, file: string)
    requires WellFormedNumStat(deleted, added, gap1, gap2, file)
    ensures Classify(FormatNumStat(deleted, added, gap1, gap2, file))
         == NumStat(NumStatMatchOf(deleted, added, gap1, gap2))
    ensures CreateFileChange(FormatNumStat(deleted, added, gap1, gap2, file), NumStatMatchOf(deleted, added, gap1, gap2))
         == Ok((file, FileChange(added, deleted, file, "")))
  {
    var line := FormatNumStat(deleted, added, gap1, gap2, file);
    var m := NumStatMatchOf(deleted, added, gap1, gap2);
    NumStatClassified(deleted, added, gap1, gap2, file);
    NumStatFields(deleted, added, gap1, gap2, file);
    FileChangeOfMatch(line, m, deleted, added);
  }

  lemma {:induction false} LineEndNoLineFeed(s: string, i: nat)
    requires i <= |s| && forall k :: i <= k < |s| ==> s[k] != '\n'
    ensures LineEnd(s, i) == |s|
    decreases |s| - i
  {
    if i < |s| {
      LineEndNoLineFeed(s, i + 1);
    }
  }
}
