/** The log the parser is written for: blocks of a header line, one numstat line per file
    and a blank line. For well-formed blocks the whole parse is computed here in closed
    form: one commit per block, in order, carrying the block's header fields and every
    change seen so far, since the accumulated list is never cleared between commits. */
module LogBlocks {
  import opened Text
  import opened Patterns
  import opened Numbers
  import opened Domain
  import opened LineParsing
  import opened LineFormats
  import opened LogSpec

  /** One numstat line: the counts, the two gaps and the file name. */
  datatype Entry = Entry(deleted: int, added: int, gap1: string, gap2: string, file: string)

  /** One commit's block: the header fields and the numstat entries. */
  datatype Block = Block(rev: string, author: string, dateText: string, message: string, entries: seq<Entry>)

  function EntryLine(e: Entry): string {
    FormatNumStat(e.deleted, e.added, e.gap1, e.gap2, e.file)
  }

  function EntryChange(e: Entry): FileChange {
    FileChange(e.added, e.deleted, e.file, "")
  }

  function EntryLines(es: seq<Entry>): seq<string>
    decreases |es|
  {
    if es == [] then [] else EntryLines(es[..|es| - 1]) + [EntryLine(es[|es| - 1])]
  }

  function HeaderLineOf(b: Block): string {
    FormatHeader(b.rev, b.author, b.dateText, b.message)
  }

  /** The header, the numstat lines and the blank line that closes the block. */
  function BlockLines(b: Block): seq<string> {
    [HeaderLineOf(b)] + EntryLines(b.entries) + [""]
  }

  function LogLines(bs: seq<Block>): seq<string>
    decreases |bs|
  {
    if bs == [] then [] else LogLines(bs[..|bs| - 1]) + BlockLines(bs[|bs| - 1])
  }

  /** The commit a block's header describes. */
  function CommitOf(b: Block): CocoCommit
    requires AllDigits(b.dateText)
  {
    CocoCommit("", b.rev, b.author, "", DigitsValue(b.dateText), b.message, [])
  }

  /** Well-formed header and numstat lines, each file named once. */
  ghost predicate WellFormedBlock(b: Block) {
    && WellFormedHeader(b.rev, b.author, b.dateText, b.message)
    && (forall i :: 0 <= i < |b.entries| ==>
          WellFormedNumStat(b.entries[i].deleted, b.entries[i].added, b.entries[i].gap1,
                            b.entries[i].gap2, b.entries[i].file))
    && (forall i, j :: 0 <= i < j < |b.entries| ==> b.entries[i].file != b.entries[j].file)
  }

  /** The changes a block's entries describe. */
  function ChangesOf(es: seq<Entry>): multiset<FileChange>
    decreases |es|
  {
    if es == [] then multiset{} else ChangesOf(es[..|es| - 1]) + multiset{EntryChange(es[|es| - 1])}
  }

  /** Each entry contributes one change. */
  lemma {:induction false} ChangesOfCount(es: seq<Entry>)
    ensures |ChangesOf(es)| == |es|
    decreases |es|
  {
    if es != [] {
      ChangesOfCount(es[..|es| - 1]);
    }
  }

  /** The changes of every block so far. */
  function Accumulated(bs: seq<Block>): multiset<FileChange>
    decreases |bs|
  {
    if bs == [] then multiset{} else Accumulated(bs[..|bs| - 1]) + ChangesOf(bs[|bs| - 1].entries)
  }

  /** Every block's epoch is written in digits. */
  predicate DatesInDigits(bs: seq<Block>) {
    forall k :: 0 <= k < |bs| ==> AllDigits(bs[k].dateText)
  }

  /** The commits the parser should emit for `bs`. */
  function Expected(bs: seq<Block>): seq<Summary>
    requires DatesInDigits(bs)
    decreases |bs|
  {
    if bs == [] then []
    else Expected(bs[..|bs| - 1]) + [SummaryOf(CommitOf(bs[|bs| - 1]), Accumulated(bs))]
  }

  /** The map the numstat lines of a block leave behind. */
  function EntriesMap(es: seq<Entry>): map<string, FileChange>
    decreases |es|
  {
    if es == [] then map[]
    else EntriesMap(es[..|es| - 1])[es[|es| - 1].file := EntryChange(es[|es| - 1])]
  }

  // ---------------------------------------------------------------------------------
  // Closed form of the expected output

  /** Commit `k` carries block `k`'s revision, author, epoch and message and every change
      of blocks `0..k`. */
  lemma {:induction false} ExpectedCommits(bs: seq<Block>)
    requires DatesInDigits(bs)
    ensures |Expected(bs)| == |bs|
    ensures forall k :: 0 <= k < |bs| ==> ExpectedAt(bs, k)
    decreases |bs|
  {
    if bs != [] {
      var front := bs[..|bs| - 1];
      ExpectedCommits(front);
      forall k | 0 <= k < |bs| ensures ExpectedAt(bs, k) {
        if k < |front| {
          assert ExpectedAt(front, k);
          assert bs[k] == front[k];
          assert bs[..k + 1] == front[..k + 1];
        } else {
          assert bs[..k + 1] == bs;
        }
      }
    }
  }

  /** Commit `k` of `Expected(bs)` as the closed form describes it. */
  ghost predicate ExpectedAt(bs: seq<Block>, k: nat)
    requires DatesInDigits(bs)
  {
    && |Expected(bs)| == |bs| && k < |bs|
    && Expected(bs)[k].rev == bs[k].rev
    && Expected(bs)[k].author == bs[k].author
    && Expected(bs)[k].date == DigitsValue(bs[k].dateText)
    && Expected(bs)[k].message == bs[k].message
    && Expected(bs)[k].branch == "" && Expected(bs)[k].committer == ""
    && Expected(bs)[k].changes == Accumulated(bs[..k + 1])
  }

  /** Each commit's changes contain those of every commit before it. */
  lemma {:induction false} AccumulatedGrows(bs: seq<Block>, k: nat)
    requires k <= |bs|
    ensures Accumulated(bs[..k]) <= Accumulated(bs)
    decreases |bs|
  {
    if k < |bs| {
      var front := bs[..|bs| - 1];
      assert bs[..k] == front[..k];
      AccumulatedGrows(front, k);
    } else {
      assert bs[..k] == bs;
    }
  }

  // ---------------------------------------------------------------------------------
  // The map of a block's numstat lines

  /** With distinct file names, the map holds every entry under its file name, one value
      per entry. */
  lemma {:induction false} EntriesMapValues(es: seq<Entry>)
    requires forall i, j :: 0 <= i < j < |es| ==> es[i].file != es[j].file
    ensures forall f :: f in EntriesMap(es) ==> EntriesMap(es)[f].file == f
    ensures multiset(EntriesMap(es).Values) == ChangesOf(es)
    decreases |es|
  {
    if es != [] {
      var front, last := es[..|es| - 1], es[|es| - 1];
      EntriesMapValues(front);
      var m := EntriesMap(front);
      var v := EntryChange(last);
      assert last.file !in m by {
        FilesOfEntriesMap(front);
        forall i | 0 <= i < |front| ensures front[i].file != last.file {
          assert front[i] == es[i];
        }
      }
      assert v !in m.Values;
      AddedKeyAddsValue(m, last.file, v);
    }
  }

  /** Storing a value under a new key adds exactly that value. */
  lemma AddedKeyAddsValue(m: map<string, FileChange>, k: string, v: FileChange)
    requires k !in m
    ensures m[k := v].Values == m.Values + {v}
  {
    forall x | x in m.Values ensures x in m[k := v].Values {
      var key :| key in m && m[key] == x;
      assert m[k := v][key] == x;
    }
    assert m[k := v][k] == v;
  }

  /** The keys of the map are the file names of the entries. */
  lemma {:induction false} FilesOfEntriesMap(es: seq<Entry>)
    ensures forall f :: f in EntriesMap(es) <==> exists i :: 0 <= i < |es| && es[i].file == f
    decreases |es|
  {
    if es != [] {
      var front := es[..|es| - 1];
      FilesOfEntriesMap(front);
      forall f | f in EntriesMap(es) ensures exists i :: 0 <= i < |es| && es[i].file == f {
        if f != es[|es| - 1].file {
          assert f in EntriesMap(front);
          var i :| 0 <= i < |front| && front[i].file == f;
          assert es[i] == front[i];
        }
      }
      forall f | exists i :: 0 <= i < |es| && es[i].file == f ensures f in EntriesMap(es) {
        var i :| 0 <= i < |es| && es[i].file == f;
        if i < |front| {
          assert front[i] == es[i];
        }
      }
    }
  }

  // ---------------------------------------------------------------------------------
  // Running a block

  /** A blank line matches none of the patterns. */
  lemma BlankLineIsBoundary()
    ensures Classify("").Boundary?
  {
    ClassifyKinds("");
  }

  /** An empty text is one empty line, a boundary before any header: no commits. */
  lemma ParseEmptyText()
    ensures Parse("") == Ok([])
  {
    BlankLineIsBoundary();
    assert SplitLines("") == [""];
    RunSnoc(Init, [], "");
    assert [] + [""] == [""];
  }

  /** A well-formed header line makes its commit current. */
  lemma HeaderStep(st: State, b: Block)
    requires WellFormedHeader(b.rev, b.author, b.dateText, b.message)
    ensures Step(st, HeaderLineOf(b)) == Ok(st.(current := CommitOf(b)))
  {
    HeaderRoundTrip(b.rev, b.author, b.dateText, b.message);
  }

  /** A well-formed numstat line stores its entry under its file name. */
  lemma EntryStep(st: State, e: Entry)
    requires WellFormedNumStat(e.deleted, e.added, e.gap1, e.gap2, e.file)
    ensures Step(st, EntryLine(e)) == Ok(st.(pending := st.pending[e.file := EntryChange(e)]))
  {
    NumStatRoundTrip(e.deleted, e.added, e.gap1, e.gap2, e.file);
  }

  /** The numstat lines of a block fill an empty map with its entries. */
  lemma {:induction false} RunEntries(st: State, es: seq<Entry>)
    requires st.pending == map[]
    requires forall i :: 0 <= i < |es| ==>
               WellFormedNumStat(es[i].deleted, es[i].added, es[i].gap1, es[i].gap2, es[i].file)
    ensures Run(st, EntryLines(es)) == Ok(st.(pending := EntriesMap(es)))
    decreases |es|
  {
    if es == [] {
      assert st.(pending := map[]) == st;
    } else {
      var front, last := es[..|es| - 1], es[|es| - 1];
      RunEntries(st, front);
      RunSnoc(st, EntryLines(front), EntryLine(last));
      EntryStep(st.(pending := EntriesMap(front)), last);
    }
  }

  /** The header and the numstat lines of a block make its commit current and fill an
      empty map with its entries. */
  lemma RunBlockBody(st: State, b: Block)
    requires WellFormedBlock(b) && st.pending == map[]
    ensures Run(st, [HeaderLineOf(b)] + EntryLines(b.entries))
              == Ok(st.(current := CommitOf(b), pending := EntriesMap(b.entries)))
  {
    var header := HeaderLineOf(b);
    HeaderStep(st, b);
    RunSnoc(st, [], header);
    assert [header] == [] + [header];
    RunEntries(st.(current := CommitOf(b)), b.entries);
    RunAppend(st, [header], EntryLines(b.entries));
  }

  /** A block run from a state with no pending entries emits the block's commit with all
      changes accumulated so far and leaves the map empty again. */
  lemma RunBlock(st: State, b: Block)
    requires WellFormedBlock(b) && st.pending == map[]
    ensures var acc := st.accumulated + ChangesOf(b.entries);
            Run(st, BlockLines(b))
              == Ok(State(CommitOf(b), acc, map[], st.commits + [SummaryOf(CommitOf(b), acc)]))
  {
    var header := HeaderLineOf(b);
    var filled := st.(current := CommitOf(b), pending := EntriesMap(b.entries));
    assert BlockLines(b) == ([header] + EntryLines(b.entries)) + [""];
    RunBlockBody(st, b);
    EntriesMapValues(b.entries);
    BlankLineIsBoundary();
    assert Step(filled, "") == Ok(Flush(filled));
    RunSnoc(st, [header] + EntryLines(b.entries), "");
  }

  /** Splitting the last block off the log. */
  lemma LogLinesLast(bs: seq<Block>)
    requires bs != []
    ensures LogLines(bs) == LogLines(bs[..|bs| - 1]) + BlockLines(bs[|bs| - 1])
  {
  }

  /** Running the lines of well-formed blocks emits exactly the expected commits and ends
      with the last block's commit current, every change accumulated and the map empty. */
  lemma {:induction false} RunBlocks(bs: seq<Block>)
    requires forall k :: 0 <= k < |bs| ==> WellFormedBlock(bs[k])
    requires DatesInDigits(bs)
    ensures Run(Init, LogLines(bs)).Ok?
    ensures Run(Init, LogLines(bs)).value.commits == Expected(bs)
    ensures Run(Init, LogLines(bs)).value.accumulated == Accumulated(bs)
    ensures Run(Init, LogLines(bs)).value.pending == map[]
    decreases |bs|
  {
    if bs != [] {
      var front, last := bs[..|bs| - 1], bs[|bs| - 1];
      RunBlocks(front);
      var mid := Run(Init, LogLines(front)).value;
      LogLinesLast(bs);
      RunAppend(Init, LogLines(front), BlockLines(last));
      RunBlock(mid, last);
    }
  }

  /** No line of `lines` holds a line feed. */
  predicate NoLineFeeds(lines: seq<string>) {
    forall i :: 0 <= i < |lines| ==> '\n' !in lines[i]
  }

  lemma NoLineFeedsAppend(a: seq<string>, b: seq<string>)
    requires NoLineFeeds(a) && NoLineFeeds(b)
    ensures NoLineFeeds(a + b)
  {
    forall i | 0 <= i < |a + b| ensures '\n' !in (a + b)[i] {
      if i >= |a| {
        assert (a + b)[i] == b[i - |a|];
      }
    }
  }

  lemma HeaderHasNoLineFeed(b: Block)
    requires WellFormedHeader(b.rev, b.author, b.dateText, b.message)
    ensures '\n' !in HeaderLineOf(b)
  {
    assert '\n' !in b.rev by {
      forall k | 0 <= k < |b.rev| ensures b.rev[k] != '\n' {
        assert InClass(b.rev[k], RevChar);
      }
    }
    assert '\n' !in b.dateText by {
      forall k | 0 <= k < |b.dateText| ensures b.dateText[k] != '\n' {
        assert IsDigit(b.dateText[k]);
      }
    }
  }

  lemma EntryHasNoLineFeed(e: Entry)
    requires WellFormedNumStat(e.deleted, e.added, e.gap1, e.gap2, e.file)
    ensures '\n' !in EntryLine(e)
  {
    DecimalIsCountChars(e.deleted);
    DecimalIsCountChars(e.added);
  }

  lemma {:induction false} EntryLinesHaveNoLineFeed(es: seq<Entry>)
    requires forall i :: 0 <= i < |es| ==>
               WellFormedNumStat(es[i].deleted, es[i].added, es[i].gap1, es[i].gap2, es[i].file)
    ensures NoLineFeeds(EntryLines(es))
    decreases |es|
  {
    if es != [] {
      EntryLinesHaveNoLineFeed(es[..|es| - 1]);
      EntryHasNoLineFeed(es[|es| - 1]);
      NoLineFeedsAppend(EntryLines(es[..|es| - 1]), [EntryLine(es[|es| - 1])]);
    }
  }

  /** No line of a log of well-formed blocks holds a line feed. */
  lemma {:induction false} LogHasNoLineFeed(bs: seq<Block>)
    requires forall k :: 0 <= k < |bs| ==> WellFormedBlock(bs[k])
    ensures NoLineFeeds(LogLines(bs))
    decreases |bs|
  {
    if bs != [] {
      var last := bs[|bs| - 1];
      LogHasNoLineFeed(bs[..|bs| - 1]);
      HeaderHasNoLineFeed(last);
      EntryLinesHaveNoLineFeed(last.entries);
      NoLineFeedsAppend([HeaderLineOf(last)], EntryLines(last.entries));
      NoLineFeedsAppend([HeaderLineOf(last)] + EntryLines(last.entries), [""]);
      NoLineFeedsAppend(LogLines(bs[..|bs| - 1]), BlockLines(last));
    }
  }

  /** The parse of the text of well-formed blocks, written with a line feed between lines,
      is exactly one commit per block as `Expected` describes. */
  lemma ParseBlocks(bs: seq<Block>)
    requires bs != []
    requires forall k :: 0 <= k < |bs| ==> WellFormedBlock(bs[k])
    requires DatesInDigits(bs)
    ensures |LogLines(bs)| >= 1
    ensures Parse(JoinLines(LogLines(bs))) == Ok(Expected(bs))
  {
    LogLinesLast(bs);
    LogHasNoLineFeed(bs);
    SplitJoinLines(LogLines(bs));
    RunBlocks(bs);
  }
}
