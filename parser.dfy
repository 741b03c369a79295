/** `GitMessageParser`: the mutable parser that `to_commit_message` feeds line by line.
    Each method is proved against the pure state machine `LogSpec.Step` / `LogSpec.Run`
    through the abstraction `Parser.Abs`. */
module GitMessageParser {
  import opened Text
  import opened Domain
  import opened LineParsing
  import opened LogSpec

  /** The commits with their change lists read as multisets. */
  function Summaries(cs: seq<CocoCommit>): seq<Summary> {
    seq(|cs|, i requires 0 <= i < |cs| => Summarize(cs[i]))
  }

  /** The values of `m` stored under the keys in `ks`. */
  ghost function Image(m: map<string, FileChange>, ks: set<string>): set<FileChange> {
    set k | k in ks && k in m :: m[k]
  }

  class Parser {
    var currentCommit: CocoCommit
    var currentFileChange: seq<FileChange>
    var commits: seq<CocoCommit>
    var currentFileChangeMap: map<string, FileChange>

    /** Every map entry sits under its own file name, and every emitted commit's change list
        is a prefix of the accumulated list and of every later commit's list. */
    ghost predicate Valid()
      reads this
    {
      && (forall f :: f in currentFileChangeMap ==> currentFileChangeMap[f].file == f)
      && (forall i :: 0 <= i < |commits| ==> commits[i].changes <= currentFileChange)
      && (forall i, j :: 0 <= i < j < |commits| ==> commits[i].changes <= commits[j].changes)
    }

    /** The parser seen as a state of `LogSpec`. */
    ghost function Abs(): State
      reads this
    {
      State(currentCommit.(changes := []), multiset(currentFileChange), currentFileChangeMap,
            Summaries(commits))
    }

    /** `GitMessageParser::default()`. */
    constructor()
      ensures Valid() && Abs() == Init
      ensures currentCommit == DefaultCommit && currentFileChange == [] && commits == []
      ensures currentFileChangeMap == map[]
    {
      currentCommit := DefaultCommit;
      currentFileChange := [];
      commits := [];
      currentFileChangeMap := map[];
    }

    /** `parse_log_by_line`. A header line replaces the current commit; a numstat line
        stores its entry under its file name; a CHANGEMODEL line does nothing; any other
        line, once a header has been seen, flushes (`FlushPending`). A panic of the source
        is an `Err` that leaves the parser as it was. */
    method ParseLogByLine(text: string) returns (outcome: Result<()>)
      requires Valid()
      modifies this
      ensures Valid()
      ensures outcome.Ok? ==> Step(old(Abs()), text) == Ok(Abs())
      ensures outcome.Err? ==> Step(old(Abs()), text) == Err(outcome.error) && unchanged(this)
      ensures Classify(text).Header? ==>
                && (outcome.Ok? <==> CreateCommit(text, Classify(text).rev).Ok?)
                && (outcome.Ok? ==> && currentCommit == CreateCommit(text, Classify(text).rev).value
                                    && currentFileChange == old(currentFileChange)
                                    && commits == old(commits)
                                    && currentFileChangeMap == old(currentFileChangeMap))
      ensures Classify(text).NumStat? ==>
                var entry := CreateFileChange(text, Classify(text).m);
                && (outcome.Ok? <==> entry.Ok?)
                && (outcome.Ok? ==> && currentFileChangeMap == old(currentFileChangeMap)[entry.value.0 := entry.value.1]
                                    && currentCommit == old(currentCommit)
                                    && currentFileChange == old(currentFileChange)
                                    && commits == old(commits))
      ensures Classify(text).ChangeMode? ==> outcome.Ok? && unchanged(this)
      ensures Classify(text).Boundary? && old(currentCommit.rev) == "" ==> outcome.Ok? && unchanged(this)
      ensures Classify(text).Boundary? && old(currentCommit.rev) != "" ==>
                && outcome.Ok?
                && |currentFileChange| == |old(currentFileChange)| + |old(currentFileChangeMap)|
                && currentFileChange[..|old(currentFileChange)|] == old(currentFileChange)
                && multiset(currentFileChange[|old(currentFileChange)|..])
                     == multiset(old(currentFileChangeMap).Values)
                && currentCommit == old(currentCommit).(changes := currentFileChange)
                && commits == old(commits) + [currentCommit]
                && currentFileChangeMap == map[]
    {
      ghost var st := Abs();
      outcome := Ok(());
      match Classify(text)
      case Header(rev) =>
        match CreateCommit(text, rev) {
          case Err(e) =>
            outcome := Err(e);
            assert Step(st, text) == Err(e);
          case Ok(commit) =>
            currentCommit := commit;
            assert Step(st, text) == Ok(st.(current := commit));
        }
      case NumStat(m) =>
        match CreateFileChange(text, m) {
          case Err(e) =>
            outcome := Err(e);
            assert Step(st, text) == Err(e);
          case Ok(entry) =>
            currentFileChangeMap := currentFileChangeMap[entry.0 := entry.1];
            assert Step(st, text) == Ok(st.(pending := st.pending[entry.0 := entry.1]));
        }
      case ChangeMode =>
        assert Step(st, text) == Ok(st);
      case Boundary =>
        if currentCommit.rev != "" {
          FlushPending();
          assert Step(st, text) == Ok(Flush(st));
        } else {
          assert Step(st, text) == Ok(st);
        }
    }

    /** The boundary branch after a header: the map's entries are appended, in the map's
        unspecified order, to the accumulated list, which is never cleared; the current
        commit takes the whole list as its changes and is emitted; the map is emptied. */
    method FlushPending()
      requires Valid() && currentCommit.rev != ""
      modifies this
      ensures Valid() && Abs() == Flush(old(Abs()))
      ensures |currentFileChange| == |old(currentFileChange)| + |old(currentFileChangeMap)|
      ensures currentFileChange[..|old(currentFileChange)|] == old(currentFileChange)
      ensures multiset(currentFileChange[|old(currentFileChange)|..])
                == multiset(old(currentFileChangeMap).Values)
      ensures currentCommit == old(currentCommit).(changes := currentFileChange)
      ensures commits == old(commits) + [currentCommit]
      ensures currentFileChangeMap == map[]
    {
      var entries := IterateMap(currentFileChangeMap);
      currentFileChange := currentFileChange + entries;
      currentCommit := currentCommit.(changes := currentFileChange);
      commits := commits + [currentCommit];
      currentFileChangeMap := map[];
      assert currentFileChange[..|old(currentFileChange)|] == old(currentFileChange);
      assert currentFileChange[|old(currentFileChange)|..] == entries;
      assert Summaries(commits) == Summaries(old(commits)) + [Summarize(currentCommit)];
    }

    /** `to_commit_message`: a fresh parser fed every line of `text`, split on line feeds.
        The result is what `LogSpec.Parse` prescribes, and the commits' change lists form a
        chain of prefixes because the accumulated list is never cleared. */
    static method ToCommitMessage(text: string) returns (r: Result<seq<CocoCommit>>)
      ensures r.Ok? <==> Parse(text).Ok?
      ensures r.Ok? ==> Summaries(r.value) == Parse(text).value
      ensures r.Err? ==> r.error == Parse(text).error
      ensures r.Ok? ==> forall i, j :: 0 <= i < j < |r.value| ==> r.value[i].changes <= r.value[j].changes
    {
      var lines := SplitLines(text);
      var parser := new Parser();
      var i := 0;
      ghost var done: seq<string> := [];
      while i < |lines|
        invariant 0 <= i <= |lines| && done == lines[..i]
        invariant fresh(parser) && parser.Valid()
        invariant Run(Init, done) == Ok(parser.Abs())
      {
        ghost var before := parser.Abs();
        var outcome := parser.ParseLogByLine(lines[i]);
        if outcome.Err? {
          RunFailsAt(Init, lines, done, i, before);
          return Err(outcome.error);
        }
        RunOneMore(Init, done, lines[i], before);
        PrefixGrows(lines, i);
        done := done + [lines[i]];
        i := i + 1;
      }
      PrefixGrows(lines, i);
      return Ok(parser.commits);
    }
  }

  /** When the lines run so far end in `st`, one more line takes one more step. */
  lemma RunOneMore(st: State, done: seq<string>, line: string, mid: State)
    requires Run(st, done) == Ok(mid)
    ensures Run(st, done + [line]) == Step(mid, line)
  {
    RunSnoc(st, done, line);
  }

  /** When the lines run so far end in `mid` and the next line fails, the whole run fails
      with that error, whatever follows. */
  lemma RunFailsBefore(st: State, done: seq<string>, line: string, rest: seq<string>, mid: State)
    requires Run(st, done) == Ok(mid) && Step(mid, line).Err?
    ensures Run(st, done + [line] + rest) == Step(mid, line)
  {
    RunOneMore(st, done, line, mid);
    RunAppend(st, done + [line], rest);
  }

  /** The same for line `i` of `lines`, `done` being the lines before it. */
  lemma RunFailsAt(st: State, lines: seq<string>, done: seq<string>, i: nat, mid: State)
    requires i < |lines| && done == lines[..i]
    requires Run(st, done) == Ok(mid) && Step(mid, lines[i]).Err?
    ensures Run(st, lines) == Step(mid, lines[i])
  {
    SplitAround(lines, i);
    RunFailsBefore(st, done, lines[i], lines[i + 1..], mid);
  }

  /** The prefix before `i + 1` extends the prefix before `i` by element `i`; the prefix
      before the length is the whole sequence. */
  lemma PrefixGrows(lines: seq<string>, i: nat)
    requires i <= |lines|
    ensures i < |lines| ==> lines[..i] + [lines[i]] == lines[..i + 1]
    ensures lines[..|lines|] == lines
  {
  }

  /** A sequence is what comes before index `i`, the element there, and what follows. */
  lemma SplitAround(lines: seq<string>, i: nat)
    requires i < |lines|
    ensures lines[..i] + [lines[i]] + lines[i + 1..] == lines
  {
  }

  /** The values of a map in the order a `for` loop over a `HashMap` visits them, which is
      unspecified: one entry per key. */
  method IterateMap(m: map<string, FileChange>) returns (values: seq<FileChange>)
    requires forall f :: f in m ==> m[f].file == f
    ensures |values| == |m|
    ensures multiset(values) == multiset(m.Values)
  {
    var keys := m.Keys;
    ghost var visited: set<string> := {};
    values := [];
    while keys != {}
      invariant visited <= m.Keys && keys == m.Keys - visited
      invariant |values| == |visited|
      invariant multiset(values) == multiset(Image(m, visited))
      decreases keys
    {
      var k :| k in keys;
      PushOne(m, visited, values, k);
      values := values + [m[k]];
      keys := keys - {k};
      visited := visited + {k};
    }
    assert visited == m.Keys;
    ImageOfAllKeys(m);
  }

  /** The image of every key is the set of values. */
  lemma ImageOfAllKeys(m: map<string, FileChange>)
    ensures Image(m, m.Keys) == m.Values
    ensures |m.Keys| == |m|
  {
  }

  /** Pushing the value of one more key keeps the pushed list a listing of the image. */
  lemma PushOne(m: map<string, FileChange>, pushed: set<string>, added: seq<FileChange>, k: string)
    requires forall f :: f in m ==> m[f].file == f
    requires k in m && k !in pushed
    requires multiset(added) == multiset(Image(m, pushed))
    ensures multiset(added + [m[k]]) == multiset(Image(m, pushed + {k}))
    ensures |pushed + {k}| == |pushed| + 1
  {
    ImageGrows(m, pushed, k);
  }

  /** Adding a key to `ks` adds its value to the image, and that value is new there
      because every value is stored under its own file name. */
  lemma ImageGrows(m: map<string, FileChange>, ks: set<string>, k: string)
    requires forall f :: f in m ==> m[f].file == f
    requires k in m && k !in ks
    ensures m[k] !in Image(m, ks)
    ensures Image(m, ks + {k}) == Image(m, ks) + {m[k]}
  {
  }
}
