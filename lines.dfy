/** What the parser reads off one line, without state: which branch the line takes and,
    for a header or a numstat line, the record built from it (`create_commit` and
    `create_file_change`). A failed `unwrap` or out-of-bounds `[1]` in those functions
    aborts the whole parse; here it is an `Err` naming the step that failed. */
module LineParsing {
  import opened Text
  import opened Numbers
  import opened Patterns
  import opened Domain

  datatype ParseError =
    | MissingRevSeparator   // "[<rev>] " does not occur: `split(..)[1]` is out of bounds
    | MissingAuthor         // AUTHOR does not match: `unwrap` on `None`
    | MissingAuthorSeparator
    | MissingDate           // DATE does not match
    | MissingDateSeparator
    | InvalidCount(text: string)  // `parse::<i32>()` failed

  datatype Result<T> = Ok(value: T) | Err(error: ParseError)

  /** The branch a line takes in `parse_log_by_line`. */
  datatype LineKind =
    | Header(rev: string)
    | NumStat(m: ChangesMatch)
    | ChangeMode
    | Boundary

  /** Patterns are tried in the order REV, CHANGES, CHANGEMODEL; the first that matches
      decides the branch and any other line is a boundary (`ClassifyKinds`). */
  function Classify(line: string): (k: LineKind)
    ensures k.Header? ==> FindRev(line, 0).Some? && k.rev == FindRev(line, 0).value.rev
    ensures k.NumStat? ==> FindRev(line, 0).None? && FindChanges(line, 0) == Some(k.m)
    ensures k.NumStat? ==> ChangesShapeAt(line, k.m.start, k.m.d, k.m.w1, k.m.a, k.m.w2)
  {
    match FindRev(line, 0)
    case Some(m) => Header(m.rev)
    case None =>
      match FindChanges(line, 0)
      case Some(m) => NumStat(m)
      case None => if HasChangeMode(line, 0) then ChangeMode else Boundary
  }

  /** Each branch is taken exactly when its pattern matches somewhere in the line and no
      earlier pattern does; a header carries the revision of the leftmost REV match. */
  lemma ClassifyKinds(line: string)
    ensures Classify(line).Header? <==> exists i, n :: RevMatchAt(line, i, n)
    ensures Classify(line).Header? ==>
              exists i: nat :: && RevMatchAt(line, i, |Classify(line).rev|)
                               && Classify(line).rev == line[i + 1..i + 1 + |Classify(line).rev|]
                               && forall j: nat, n :: j < i ==> !RevMatchAt(line, j, n)
    ensures Classify(line).NumStat? <==> (forall i, n :: !RevMatchAt(line, i, n))
                                         && exists i, d, w1, a, w2 :: ChangesShapeAt(line, i, d, w1, a, w2)
    ensures Classify(line).NumStat? ==>
              var m := Classify(line).m;
              && (forall i: nat, d, w1, a, w2 :: i < m.start ==> !ChangesShapeAt(line, i, d, w1, a, w2))
              && (m.w2 == |line| || !IsSpace(line[m.w2]))
    ensures Classify(line).ChangeMode? <==> (forall i, n :: !RevMatchAt(line, i, n))
                                            && (forall i, d, w1, a, w2 :: !ChangesShapeAt(line, i, d, w1, a, w2))
                                            && exists i, n :: ChangeModeMatchAt(line, i, n)
    ensures Classify(line).Boundary? <==> (forall i, n :: !RevMatchAt(line, i, n))
                                          && (forall i, d, w1, a, w2 :: !ChangesShapeAt(line, i, d, w1, a, w2))
                                          && (forall i, n :: !ChangeModeMatchAt(line, i, n))
  {
  }

  /** `create_file_change`: the filename and a record with both counts parsed as `i32`
      (`added` first, as the struct literal evaluates it) and an empty mode. */
  function CreateFileChange(line: string, m: ChangesMatch): (r: Result<(string, FileChange)>)
    requires ChangesShapeAt(line, m.start, m.d, m.w1, m.a, m.w2)
    ensures r.Ok? <==> ParseI32(line[m.w1..m.a]).Some? && ParseI32(line[m.start..m.d]).Some?
    ensures r.Err? ==> r.error.InvalidCount?
    ensures r.Ok? ==> && r.value.0 == r.value.1.file
                      && '\n' !in r.value.0
                      && m.w2 + |r.value.0| <= |line|
                      && line[m.w2..m.w2 + |r.value.0|] == r.value.0
                      && (m.w2 + |r.value.0| == |line| || line[m.w2 + |r.value.0|] == '\n')
                      && r.value.1.mode == ""
                      && I32_MIN <= r.value.1.added <= I32_MAX
                      && I32_MIN <= r.value.1.deleted <= I32_MAX
  {
    var filename := line[m.w2..LineEnd(line, m.w2)];
    assert forall k :: 0 <= k < |filename| ==> filename[k] != '\n';
    match ParseI32(line[m.w1..m.a])
    case None => Err(InvalidCount(line[m.w1..m.a]))
    case Some(added) =>
      match ParseI32(line[m.start..m.d])
      case None => Err(InvalidCount(line[m.start..m.d]))
      case Some(deleted) => Ok((filename, FileChange(added, deleted, filename, "")))
  }

  /** `date_str.parse::<i64>()` on the ten digits DATE captured, which cannot fail. */
  function EpochValue(dateText: string): (v: int)
    requires |dateText| == 10 && AllDigits(dateText)
    ensures 0 <= v <= 9999999999
  {
    assert Pow10(10) == 10000000000;
    DigitsValue(dateText)
  }

  /** The fields after the author: the first ten-digit run after "<author> " is the date
      and what follows "<date> " is the message. */
  function DateAndMessage(withoutAuthor: string): (r: Result<(int, string)>)
    ensures r.Ok? ==> 0 <= r.value.0 <= 9999999999
    ensures r.Err? ==> r.error.MissingDate? || r.error.MissingDateSeparator?
    ensures r == Err(MissingDate) <==> forall i: nat :: !TenDigitsAt(withoutAuthor, i)
  {
    match FindDate(withoutAuthor, 0)
    case None => Err(MissingDate)
    case Some(k) =>
      var dateText := withoutAuthor[k..k + 10];
      match SplitSecond(withoutAuthor, dateText + " ")
      case None => Err(MissingDateSeparator)
      case Some(message) => Ok((EpochValue(dateText), message))
  }

  /** The fields after the revision: the author is the AUTHOR group, and the date and the
      message are read from what follows "<author> ". */
  function AuthorDateAndMessage(withoutRev: string): (r: Result<(string, int, string)>)
    ensures r.Ok? ==> 0 <= r.value.1 <= 9999999999
    ensures r.Err? ==> || r.error.MissingAuthor? || r.error.MissingAuthorSeparator?
                       || r.error.MissingDate? || r.error.MissingDateSeparator?
    ensures r == Err(MissingAuthor) <==> forall i: nat, j: nat :: !AuthorMatch(withoutRev, i, j)
  {
    match AuthorSpan(withoutRev)
    case None => Err(MissingAuthor)
    case Some(span) =>
      var author := withoutRev[span.start..span.end];
      match SplitSecond(withoutRev, author + " ")
      case None => Err(MissingAuthorSeparator)
      case Some(withoutAuthor) =>
        match DateAndMessage(withoutAuthor)
        case Err(e) => Err(e)
        case Ok((date, message)) => Ok((author, date, message))
  }

  /** `create_commit`: the revision from REV; the rest of the fields from the text after
      the first "[<rev>] " (up to any second one). */
  function CreateCommit(text: string, rev: string): (r: Result<CocoCommit>)
    ensures r.Ok? ==> && r.value.rev == rev
                      && r.value.branch == "" && r.value.committer == ""
                      && r.value.changes == []
                      && 0 <= r.value.date <= 9999999999
    ensures r.Ok? ==> Occurs(text, "[" + rev + "] ")
    ensures r == Err(MissingRevSeparator) <==> !Occurs(text, "[" + rev + "] ")
  {
    match SplitSecond(text, "[" + rev + "] ")
    case None => Err(MissingRevSeparator)
    case Some(withoutRev) =>
      match AuthorDateAndMessage(withoutRev)
      case Err(e) => Err(e)
      case Ok((author, date, message)) => Ok(CocoCommit("", rev, author, "", date, message, []))
  }
}
