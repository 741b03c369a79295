/** The parser as a pure state machine over lines. It is the specification the mutable
    parser is proved against. The entries a flush appends come from iterating a hash map,
    so their order is unspecified; here a commit's changes are a multiset. */
module LogSpec {
  import opened Text
  import opened Numbers
  import opened Patterns
  import opened Domain
  import opened LineParsing

  /** A flushed commit with its changes taken as a multiset. */
  datatype Summary = Summary(
    branch: string,
    rev: string,
    author: string,
    committer: string,
    date: int,
    message: string,
    changes: multiset<FileChange>)

  function SummaryOf(c: CocoCommit, changes: multiset<FileChange>): Summary {
    Summary(c.branch, c.rev, c.author, c.committer, c.date, c.message, changes)
  }

  function Summarize(c: CocoCommit): Summary {
    SummaryOf(c, multiset(c.changes))
  }

  /** `current` is `current_commit` (its `changes` field is only ever overwritten before
      use), `accumulated` the contents of `current_file_change`, `pending` the map
      `current_file_change_map` and `commits` the output so far. */
  datatype State = State(
    current: CocoCommit,
    accumulated: multiset<FileChange>,
    pending: map<string, FileChange>,
    commits: seq<Summary>)

  const Init: State := State(DefaultCommit, multiset{}, map[], [])

  /** Every pending entry is stored under its own file name. */
  ghost predicate PendingKeyed(st: State) {
    forall f :: f in st.pending ==> st.pending[f].file == f
  }

  /** The boundary branch: the pending entries join the accumulated ones, the current
      commit is emitted with all of them, and the map is cleared. `Values` is a set, so
      two keys holding equal entries would count once; in every reachable state each
      entry is stored under its own file name (`PendingKeyed`, kept by
      `StepKeepsPendingKeyed`), so entries of different keys differ and each is counted
      once, as the source pushes each. */
  function Flush(st: State): (r: State)
    ensures r.current == st.current && r.pending == map[]
    ensures st.accumulated <= r.accumulated && multiset(st.pending.Values) <= r.accumulated
    ensures |r.commits| == |st.commits| + 1 && r.commits[..|st.commits|] == st.commits
    ensures r.commits[|st.commits|].rev == st.current.rev
    ensures r.commits[|st.commits|].changes == r.accumulated
  {
    var acc := st.accumulated + multiset(st.pending.Values);
    st.(accumulated := acc, pending := map[], commits := st.commits + [SummaryOf(st.current, acc)])
  }

  /** `parse_log_by_line` on one line. Only a header or a numstat line can fail, and at
      most one commit is emitted, only by a boundary line after a header. */
  function Step(st: State, line: string): (r: Result<State>)
    ensures r.Err? ==> Classify(line).Header? || Classify(line).NumStat?
    ensures r.Ok? ==> |st.commits| <= |r.value.commits| <= |st.commits| + 1
    ensures r.Ok? ==> r.value.commits[..|st.commits|] == st.commits
    ensures r.Ok? && |r.value.commits| > |st.commits| ==>
              Classify(line).Boundary? && st.current.rev != ""
              && r.value.commits[|st.commits|].rev == st.current.rev
  {
    match Classify(line)
    case Header(rev) =>
      (match CreateCommit(line, rev)
       case Err(e) => Err(e)
       case Ok(c) => Ok(st.(current := c)))
    case NumStat(m) =>
      (match CreateFileChange(line, m)
       case Err(e) => Err(e)
       case Ok(entry) => Ok(st.(pending := st.pending[entry.0 := entry.1])))
    case ChangeMode => Ok(st)
    case Boundary => if st.current.rev == "" then Ok(st) else Ok(Flush(st))
  }

  /** The lines fed to the parser one after another; the first failure aborts. Each line
      emits at most one commit, earlier commits are kept, and every commit emitted on the
      way has a revision. */
  function Run(st: State, lines: seq<string>): (r: Result<State>)
    ensures r.Ok? ==> |st.commits| <= |r.value.commits| <= |st.commits| + |lines|
    ensures r.Ok? ==> r.value.commits[..|st.commits|] == st.commits
    ensures r.Ok? ==> forall k :: |st.commits| <= k < |r.value.commits| ==> r.value.commits[k].rev != ""
    decreases |lines|
  {
    if lines == [] then Ok(st)
    else
      match Run(st, lines[..|lines| - 1])
      case Err(e) => Err(e)
      case Ok(mid) => Step(mid, lines[|lines| - 1])
  }

  /** `to_commit_message`: the text split on line feeds and run from the initial state.
      There are at most as many commits as lines, and each one has a revision. */
  function Parse(text: string): (r: Result<seq<Summary>>)
    ensures r.Ok? ==> |r.value| <= |SplitLines(text)|
    ensures r.Ok? ==> forall k :: 0 <= k < |r.value| ==> r.value[k].rev != ""
  {
    match Run(Init, SplitLines(text))
    case Err(e) => Err(e)
    case Ok(st) => Ok(st.commits)
  }

  // ---------------------------------------------------------------------------------
  // One line

  /** A line that only CHANGEMODEL matches changes nothing. */
  lemma ChangeModeLineIsNoOp(st: State, line: string)
    requires forall i, n :: !RevMatchAt(line, i, n)
    requires forall i, d, w1, a, w2 :: !ChangesShapeAt(line, i, d, w1, a, w2)
    requires exists i, n :: ChangeModeMatchAt(line, i, n)
    ensures Step(st, line) == Ok(st)
  {
    ClassifyKinds(line);
  }

  /** A header line replaces the current commit by one carrying the bracketed revision, an
      epoch of ten digits, no changes and empty branch and committer, and leaves everything
      else alone, even if the line also looks like a numstat line. */
  lemma HeaderLine(st: State, line: string)
    requires exists i, n :: RevMatchAt(line, i, n)
    ensures Classify(line).Header?
    ensures Step(st, line).Ok? ==>
      var next := Step(st, line).value;
      && next.current.rev == Classify(line).rev
      && 0 <= next.current.date <= 9999999999
      && next.current.changes == [] && next.current.branch == "" && next.current.committer == ""
      && next.accumulated == st.accumulated
      && next.pending == st.pending
      && next.commits == st.commits
  {
    ClassifyKinds(line);
  }

  /** A numstat line stores its entry under its file name, replacing any earlier entry for
      that name, and changes nothing else; the key is the `filename` capture and the counts
      are the `i32` values of the `added` and `deleted` captures. */
  lemma NumStatLine(st: State, line: string)
    requires Classify(line).NumStat?
    ensures Step(st, line).Ok? ==>
      var next := Step(st, line).value;
      exists f :: f in next.pending
        && next.pending[f].file == f && next.pending[f].mode == ""
        && next.pending == st.pending[f := next.pending[f]]
        && next.current == st.current
        && next.accumulated == st.accumulated
        && next.commits == st.commits
    ensures Step(st, line).Err? ==> Step(st, line).error.InvalidCount?
    ensures var m := Classify(line).m;
            var entry := CreateFileChange(line, m);
            && (Step(st, line).Ok? <==> entry.Ok?)
            && (entry.Ok? ==>
                  && Step(st, line).value.pending == st.pending[entry.value.0 := entry.value.1]
                  && line[m.w2..m.w2 + |entry.value.0|] == entry.value.0
                  && entry.value.1.added == ParseI32(line[m.w1..m.a]).value
                  && entry.value.1.deleted == ParseI32(line[m.start..m.d]).value)
  {
    if Step(st, line).Ok? {
      var entry := CreateFileChange(line, Classify(line).m).value;
      var next := Step(st, line).value;
      assert next.pending == st.pending[entry.0 := entry.1];
      assert entry.0 in next.pending && next.pending[entry.0] == entry.1;
    }
  }

  /** A boundary line before any header does nothing; after one it emits exactly one commit
      with the current revision, author, date and message, and empties the map. */
  lemma BoundaryLine(st: State, line: string)
    requires Classify(line).Boundary?
    ensures st.current.rev == "" ==> Step(st, line) == Ok(st)
    ensures st.current.rev != "" ==>
      && Step(st, line).Ok?
      && var next := Step(st, line).value;
      && |next.commits| == |st.commits| + 1
      && next.commits[..|st.commits|] == st.commits
      && var emitted := next.commits[|st.commits|];
      && emitted.rev == st.current.rev && emitted.author == st.current.author
      && emitted.date == st.current.date && emitted.message == st.current.message
      && emitted.branch == st.current.branch && emitted.committer == st.current.committer
      && emitted.changes == st.accumulated + multiset(st.pending.Values)
      && next.accumulated == st.accumulated + multiset(st.pending.Values)
      && next.pending == map[]
      && next.current == st.current
  {
    if st.current.rev != "" {
      assert Flush(st).commits[..|st.commits|] == st.commits;
    }
  }

  // ---------------------------------------------------------------------------------
  // Several lines

  /** A non-empty sequence is its front followed by its last element, also after a
      prefix. */
  lemma SplitLast(a: seq<string>, b: seq<string>)
    requires b != []
    ensures b == b[..|b| - 1] + [b[|b| - 1]]
    ensures a + b == (a + b[..|b| - 1]) + [b[|b| - 1]]
    ensures (a + b)[..|a + b| - 1] == a + b[..|b| - 1] && (a + b)[|a + b| - 1] == b[|b| - 1]
  {
  }

  /** Running one more line is one more step after the lines before it. */
  lemma RunSnoc(st: State, lines: seq<string>, line: string)
    ensures Run(st, lines + [line]) ==
              (match Run(st, lines) case Err(e) => Err(e) case Ok(mid) => Step(mid, line))
  {
    SplitLast([], lines + [line]);
    assert [] + (lines + [line]) == lines + [line];
  }

  /** Running two stretches of lines one after the other is running their concatenation. */
  lemma {:induction false} RunAppend(st: State, a: seq<string>, b: seq<string>)
    ensures Run(st, a + b) == (match Run(st, a) case Err(e) => Err(e) case Ok(mid) => Run(mid, b))
    decreases |b|
  {
    if b == [] {
      assert a + b == a;
    } else {
      var front, last := b[..|b| - 1], b[|b| - 1];
      SplitLast(a, b);
      RunAppend(st, a, front);
      RunSnoc(st, a + front, last);
      if Run(st, a).Ok? {
        RunSnoc(Run(st, a).value, front, last);
      }
    }
  }

  /** Because the current commit is never reset, two boundary lines in a row after a header
      emit the same commit twice. */
  lemma DoubleBoundaryEmitsTwice(st: State, b1: string, b2: string)
    requires st.current.rev != ""
    requires Classify(b1).Boundary? && Classify(b2).Boundary?
    ensures Run(st, [b1, b2]).Ok?
    ensures var commits := Run(st, [b1, b2]).value.commits;
            && |commits| == |st.commits| + 2
            && commits[|st.commits|] == commits[|st.commits| + 1]
  {
    var once := Flush(st);
    assert Step(st, b1) == Ok(once);
    assert once.pending.Values == {};
    assert Step(once, b2) == Ok(Flush(once));
    RunSnoc(st, [], b1);
    assert [] + [b1] == [b1];
    RunSnoc(st, [b1], b2);
    assert [b1] + [b2] == [b1, b2];
  }

  /** A step never drops or alters an emitted commit, and adds one only on a boundary
      line. */
  lemma StepKeepsCommits(st: State, line: string)
    requires Step(st, line).Ok?
    ensures |st.commits| <= |Step(st, line).value.commits|
    ensures Step(st, line).value.commits[..|st.commits|] == st.commits
    ensures !Classify(line).Boundary? ==> Step(st, line).value.commits == st.commits
  {
    if Classify(line).Boundary? && st.current.rev != "" {
      assert Flush(st).commits[..|st.commits|] == st.commits;
    }
  }

  /** No line other than a boundary line adds a commit, and emitted commits are never
      changed afterwards. */
  lemma {:induction false} CommitsGrowOnlyAtBoundaries(st: State, lines: seq<string>)
    requires Run(st, lines).Ok?
    ensures |st.commits| <= |Run(st, lines).value.commits|
    ensures Run(st, lines).value.commits[..|st.commits|] == st.commits
    ensures (forall i :: 0 <= i < |lines| ==> !Classify(lines[i]).Boundary?) ==>
              Run(st, lines).value.commits == st.commits
    decreases |lines|
  {
    if lines != [] {
      var front, last := lines[..|lines| - 1], lines[|lines| - 1];
      var mid := Run(st, front).value;
      CommitsGrowOnlyAtBoundaries(st, front);
      StepKeepsCommits(mid, last);
      var final := Run(st, lines).value.commits;
      assert final[..|st.commits|] == final[..|mid.commits|][..|st.commits|];
      if forall i :: 0 <= i < |lines| ==> !Classify(lines[i]).Boundary? {
        assert !Classify(lines[|lines| - 1]).Boundary?;
        assert forall i :: 0 <= i < |front| ==> !Classify(front[i]).Boundary? by {
          forall i | 0 <= i < |front| ensures !Classify(front[i]).Boundary? {
            assert front[i] == lines[i];
          }
        }
      }
    }
  }

  /** A last block with no boundary line after it is never emitted: appending lines
      without a boundary line leaves the output as it was. */
  lemma TrailingBlockIsDropped(lines: seq<string>, tail: seq<string>)
    requires Run(Init, lines + tail).Ok?
    requires forall i :: 0 <= i < |tail| ==> !Classify(tail[i]).Boundary?
    ensures Run(Init, lines).Ok?
    ensures Run(Init, lines + tail).value.commits == Run(Init, lines).value.commits
  {
    RunAppend(Init, lines, tail);
    CommitsGrowOnlyAtBoundaries(Run(Init, lines).value, tail);
  }

  /** The accumulated entries only grow, and each emitted commit's changes contain those of
      every commit emitted before it. */
  ghost predicate ChangesNest(st: State) {
    && (forall i :: 0 <= i < |st.commits| ==> st.commits[i].changes <= st.accumulated)
    && (forall i, j :: 0 <= i < j < |st.commits| ==> st.commits[i].changes <= st.commits[j].changes)
  }

  lemma StepKeepsChangesNested(st: State, line: string)
    requires ChangesNest(st) && Step(st, line).Ok?
    ensures ChangesNest(Step(st, line).value)
    ensures st.accumulated <= Step(st, line).value.accumulated
  {
    if Classify(line).Boundary? && st.current.rev != "" {
      var next := Flush(st);
      assert forall i :: 0 <= i < |st.commits| ==> next.commits[i] == st.commits[i];
    }
  }

  lemma {:induction false} RunKeepsChangesNested(st: State, lines: seq<string>)
    requires ChangesNest(st) && Run(st, lines).Ok?
    ensures ChangesNest(Run(st, lines).value)
    ensures st.accumulated <= Run(st, lines).value.accumulated
    decreases |lines|
  {
    if lines != [] {
      var front := lines[..|lines| - 1];
      RunKeepsChangesNested(st, front);
      StepKeepsChangesNested(Run(st, front).value, lines[|lines| - 1]);
    }
  }

  /** Every pending entry stays stored under its own file name. */
  lemma StepKeepsPendingKeyed(st: State, line: string)
    requires PendingKeyed(st) && Step(st, line).Ok?
    ensures PendingKeyed(Step(st, line).value)
  {
  }
}
