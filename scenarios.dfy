/** The parser's two unit tests replayed through the model: each log is written as its
    lines joined by line feeds, shown to be the log of a list of well-formed blocks, and
    parsed with `Parser.ToCommitMessage`; the methods promise what the tests assert. */
module Scenarios {
  import opened Text
  import opened Numbers
  import opened Patterns
  import opened Domain
  import opened LineParsing
  import opened LineFormats
  import opened LogSpec
  import opened LogBlocks
  import opened GitMessageParser
  import opened TestText

  /** A header whose author starts with `initial`, which neither the epoch nor the message
      contains, and whose message has no '1' is read back unchanged. */
  lemma HeaderWellFormed(rev: string, author: string, message: string, initial: char)
    requires 5 <= |rev| <= 12 && AllIn(rev, 0, |rev|, RevChar)
    requires (forall j :: !DateMarkAt(author, j)) && Clean(author) && |author| >= 1 && author[0] == initial
    requires initial != ' ' && initial !in Epoch
    requires Clean(message) && '1' !in message && initial !in message
    ensures WellFormedHeader(rev, author, Epoch, message)
  {
    EpochFacts();
    NotOccursWithoutFirst(Epoch + " " + message, author + " ");
    NotOccursWithoutFirst(message, Epoch + " ");
  }

  /** What the summary of an output commit says about the commit itself. */
  lemma SummaryOfCommit(cs: seq<CocoCommit>, k: nat)
    requires k < |cs|
    ensures |Summaries(cs)| == |cs|
    ensures var c := Summaries(cs)[k];
            && c.rev == cs[k].rev && c.author == cs[k].author && c.date == cs[k].date
            && c.message == cs[k].message && |c.changes| == |cs[k].changes|
  {
    assert |multiset(cs[k].changes)| == |cs[k].changes|;
  }

  /** git writes `-` for both counts of a binary file. The line takes the numstat branch,
      and parsing its `added` count as `i32` fails, which aborts the whole parse. White
      space at the start of the file name joins the gap before it. A `[` in the name is
      excluded because REV could then match first and the line would be a header. */
  lemma BinaryEntryFails(st: State, file: string)
    requires '[' !in file
    ensures Classify("-\t-\t" + file).NumStat?
    ensures Step(st, "-\t-\t" + file) == Err(InvalidCount("-"))
  {
    var line := "-\t-\t" + file;
    assert '[' !in line by { assert line == "-\t-\t" + file; }
    NoRevWithoutBracket(line);
    assert RunEnd(line, 3, CountChar) == 3;
    assert RunEnd(line, 2, CountChar) == 3;
    assert RunEnd(line, 1, CountChar) == 1;
    assert RunEnd(line, 0, CountChar) == 1;
    assert RunEnd(line, 1, Space) == 2;
    var w2 := RunEnd(line, 3, Space);
    assert w2 == RunEnd(line, 4, Space);
    assert ChangesAt(line, 0) == Some(ChangesMatch(0, 1, 2, 3, w2));
    assert line[2..3] == "-";
    ParseI32RejectsDashes();
  }

  // ---------------------------------------------------------------------------------
  // should_success_parse_one_line_log

  const SpringLines: seq<string> := [
    "[" + SpringRev + "] " + Rossen + " " + Epoch + " " + SpringMessage,
    "5" + Gap7 + "3" + Gap7 + ClientResponse,
    "1" + Gap7 + "1" + Gap7 + DefaultWebClient,
    "9" + Gap7 + "3" + Gap7 + WebClient,
    "6" + Gap7 + "11" + Gap6 + WebClientDoc,
    ""]

  /** One commit touching four files; the text ends with a line feed. */
  const SpringLog: string := JoinLines(SpringLines)

  const SpringBlock: Block :=
    Block(SpringRev, Rossen, Epoch, SpringMessage, [
      Entry(5, 3, Gap7, Gap7, ClientResponse),
      Entry(1, 1, Gap7, Gap7, DefaultWebClient),
      Entry(9, 3, Gap7, Gap7, WebClient),
      Entry(6, 11, Gap7, Gap6, WebClientDoc)])

  lemma SpringBlockWellFormed()
    ensures WellFormedBlock(SpringBlock)
  {
    SpringHeaderFacts();
    SpringMessageFacts();
    assert 'R' !in Epoch;
    HeaderWellFormed(SpringRev, Rossen, SpringMessage, 'R');
    ClientFilesClean();
    DocFileClean();
    GapsAreSpace();
  }

  lemma SpringLogIsBlock()
    ensures LogLines([SpringBlock]) == SpringLines
  {
    Numerals();
    var es := SpringBlock.entries;
    assert es[..1][..0] == [];
    assert EntryLines(es[..1]) == [EntryLine(es[0])];
    assert es[..2][..1] == es[..1];
    assert EntryLines(es[..2]) == [EntryLine(es[0]), EntryLine(es[1])];
    assert es[..3][..2] == es[..2];
    assert EntryLines(es[..3]) == [EntryLine(es[0]), EntryLine(es[1]), EntryLine(es[2])];
    assert es[..3] == es[..|es| - 1];
    assert EntryLines(es) == [EntryLine(es[0]), EntryLine(es[1]), EntryLine(es[2]), EntryLine(es[3])];
    assert [SpringBlock][..0] == [];
  }

  /** The first test's log is the log of its one block. */
  lemma SpringLogExpected()
    ensures Parse(SpringLog) == Ok(Expected([SpringBlock]))
  {
    SpringBlockWellFormed();
    EpochFacts();
    SpringLogIsBlock();
    ParseBlocks([SpringBlock]);
  }

  /** The commit the block describes: the header's fields and four changes. */
  lemma SpringExpected()
    ensures DatesInDigits([SpringBlock])
    ensures |Expected([SpringBlock])| == 1
    ensures var c := Expected([SpringBlock])[0];
            && c.rev == SpringRev && c.author == Rossen && c.date == 1575388800
            && c.message == SpringMessage && |c.changes| == 4
  {
    var bs := [SpringBlock];
    EpochFacts();
    ExpectedCommits(bs);
    assert ExpectedAt(bs, 0);
    assert bs[..1] == bs && Accumulated(bs) == ChangesOf(SpringBlock.entries) by {
      assert bs[..0] == [];
    }
    ChangesOfCount(SpringBlock.entries);
  }

  /** `to_commit_message` on the first test's log yields what the test asserts: one commit
      with the header's revision, author, epoch and message and four changes. */
  method ParseOneCommitLog() returns (commits: seq<CocoCommit>)
    ensures |commits| == 1
    ensures commits[0].rev == "828fe39523"
    ensures commits[0].author == "Rossen Stoyanchev"
    ensures commits[0].date == 1575388800
    ensures commits[0].message == "Consistently use releaseBody in DefaultWebClient"
    ensures |commits[0].changes| == 4
  {
    var r := Parser.ToCommitMessage(SpringLog);
    SpringLogExpected();
    SpringExpected();
    SpringMessageText();
    commits := r.value;
    SummaryOfCommit(commits, 0);
  }

  // ---------------------------------------------------------------------------------
  // should_success_parse_multiple_line_log

  /** Four commits, each block closed by a blank line; `cmd/bs.go` is listed again in
      every block after the first. */
  const PhodalLines0: seq<string> := [
    "[" + "d00f0124d" + "] " + Phodal + " " + Epoch + " " + UpdateFiles,
    "0" + Gap7 + "0" + Gap7 + DomainApp,
    ""]
  const PhodalLines1: seq<string> := [
    "[" + "1d00f0124b" + "] " + Phodal + " " + Epoch + " " + UpdateFiles,
    "1" + Gap7 + "1" + Gap7 + CmdBs,
    "0" + Gap7 + "0" + Gap7 + DomainApp,
    ""]
  const PhodalLines2: seq<string> := [
    "[" + "d00f04111b" + "] " + Phodal + " " + Epoch + " " + MoveMessage,
    "1" + Gap7 + "1" + Gap7 + CmdBs,
    "5" + Gap7 + "5" + Gap7 + MovedApp,
    ""]
  const PhodalLines3: seq<string> := [
    "[" + "d00f01214b" + "] " + Phodal + " " + Epoch + " " + UpdateFiles,
    "1" + Gap7 + "1" + Gap7 + CmdBs,
    "0" + Gap7 + "0" + Gap7 + AdapterApp,
    ""]
  const PhodalLines: seq<string> := PhodalLines0 + PhodalLines1 + PhodalLines2 + PhodalLines3

  const PhodalLog: string := JoinLines(PhodalLines)

  const PhodalBlock0: Block :=
    Block("d00f0124d", Phodal, Epoch, UpdateFiles, [Entry(0, 0, Gap7, Gap7, DomainApp)])
  const PhodalBlock1: Block :=
    Block("1d00f0124b", Phodal, Epoch, UpdateFiles,
          [Entry(1, 1, Gap7, Gap7, CmdBs), Entry(0, 0, Gap7, Gap7, DomainApp)])
  const PhodalBlock2: Block :=
    Block("d00f04111b", Phodal, Epoch, MoveMessage,
          [Entry(1, 1, Gap7, Gap7, CmdBs), Entry(5, 5, Gap7, Gap7, MovedApp)])
  const PhodalBlock3: Block :=
    Block("d00f01214b", Phodal, Epoch, UpdateFiles,
          [Entry(1, 1, Gap7, Gap7, CmdBs), Entry(0, 0, Gap7, Gap7, AdapterApp)])

  const PhodalBlocks: seq<Block> := [PhodalBlock0, PhodalBlock1, PhodalBlock2, PhodalBlock3]

  /** A block of the second log: Phodal Huang's header and entries with single-digit
      counts over the test's file names, each named once. */
  lemma PhodalBlockWellFormed(b: Block)
    requires 5 <= |b.rev| <= 12 && AllIn(b.rev, 0, |b.rev|, RevChar)
    requires b.author == Phodal && b.dateText == Epoch
    requires b.message == UpdateFiles || b.message == MoveMessage
    requires forall i :: 0 <= i < |b.entries| ==>
               && b.entries[i].gap1 == Gap7 && b.entries[i].gap2 == Gap7
               && 0 <= b.entries[i].deleted <= 9 && 0 <= b.entries[i].added <= 9
               && Clean(b.entries[i].file) && |b.entries[i].file| >= 1 && b.entries[i].file[0] == 'c'
    requires forall i, j :: 0 <= i < j < |b.entries| ==> b.entries[i].file != b.entries[j].file
    ensures WellFormedBlock(b)
  {
    PhodalFacts();
    UpdateFilesFacts();
    MoveMessageFacts();
    assert 'P' !in Epoch;
    HeaderWellFormed(b.rev, Phodal, b.message, 'P');
    GapsAreSpace();
  }

  lemma PhodalBlock0WellFormed()
    ensures WellFormedBlock(PhodalBlock0)
  {
    PhodalRevFacts();
    DomainFilesClean();
    PhodalBlockWellFormed(PhodalBlock0);
  }

  lemma PhodalBlock1WellFormed()
    ensures WellFormedBlock(PhodalBlock1)
  {
    PhodalRevFacts();
    DomainFilesClean();
    PhodalBlockWellFormed(PhodalBlock1);
  }

  lemma PhodalBlock2WellFormed()
    ensures WellFormedBlock(PhodalBlock2)
  {
    PhodalRevFacts();
    DomainFilesClean();
    AdapterFilesClean();
    PhodalBlockWellFormed(PhodalBlock2);
  }

  lemma PhodalBlock3WellFormed()
    ensures WellFormedBlock(PhodalBlock3)
  {
    PhodalRevFacts();
    DomainFilesClean();
    AdapterFilesClean();
    PhodalBlockWellFormed(PhodalBlock3);
  }

  /** Every block of the second log is well formed. */
  lemma PhodalBlocksWellFormed()
    ensures forall k :: 0 <= k < |PhodalBlocks| ==> WellFormedBlock(PhodalBlocks[k])
  {
    PhodalBlock0WellFormed();
    PhodalBlock1WellFormed();
    PhodalBlock2WellFormed();
    PhodalBlock3WellFormed();
  }

  /** The numstat lines of one entry. */
  lemma EntryLinesOfOne(es: seq<Entry>)
    requires |es| == 1
    ensures EntryLines(es) == [EntryLine(es[0])]
  {
    assert es[..0] == [];
  }

  /** The numstat lines of two entries. */
  lemma EntryLinesOfTwo(es: seq<Entry>)
    requires |es| == 2
    ensures EntryLines(es) == [EntryLine(es[0]), EntryLine(es[1])]
  {
    EntryLinesOfOne(es[..1]);
  }

  lemma PhodalBlock0Lines()
    ensures BlockLines(PhodalBlock0) == PhodalLines0
  {
    Numerals();
    EntryLinesOfOne(PhodalBlock0.entries);
  }

  lemma PhodalBlock1Lines()
    ensures BlockLines(PhodalBlock1) == PhodalLines1
  {
    Numerals();
    EntryLinesOfTwo(PhodalBlock1.entries);
  }

  lemma PhodalBlock2Lines()
    ensures BlockLines(PhodalBlock2) == PhodalLines2
  {
    Numerals();
    EntryLinesOfTwo(PhodalBlock2.entries);
  }

  lemma PhodalBlock3Lines()
    ensures BlockLines(PhodalBlock3) == PhodalLines3
  {
    Numerals();
    EntryLinesOfTwo(PhodalBlock3.entries);
  }

  lemma PhodalLogIsBlocks()
    ensures LogLines(PhodalBlocks) == PhodalLines
  {
    var bs := PhodalBlocks;
    PhodalBlock0Lines();
    PhodalBlock1Lines();
    PhodalBlock2Lines();
    PhodalBlock3Lines();
    assert bs[..1][..0] == [];
    assert LogLines(bs[..1]) == PhodalLines0;
    assert bs[..2][..1] == bs[..1];
    assert LogLines(bs[..2]) == PhodalLines0 + PhodalLines1;
    assert bs[..3][..2] == bs[..2];
    assert LogLines(bs[..3]) == PhodalLines0 + PhodalLines1 + PhodalLines2;
    assert bs[..3] == bs[..|bs| - 1];
  }

  /** The second test's log is the log of its four blocks. */
  lemma PhodalLogExpected()
    ensures Parse(PhodalLog) == Ok(Expected(PhodalBlocks))
  {
    PhodalBlocksWellFormed();
    EpochFacts();
    PhodalLogIsBlocks();
    ParseBlocks(PhodalBlocks);
  }

  /** The accumulated list after each block: 1, 3, 5 and 7 changes. */
  lemma PhodalAccumulated()
    ensures |Accumulated(PhodalBlocks[..1])| == 1 && |Accumulated(PhodalBlocks[..2])| == 3
    ensures |Accumulated(PhodalBlocks[..3])| == 5 && |Accumulated(PhodalBlocks[..4])| == 7
  {
    var bs := PhodalBlocks;
    ChangesOfCount(bs[0].entries);
    ChangesOfCount(bs[1].entries);
    ChangesOfCount(bs[2].entries);
    ChangesOfCount(bs[3].entries);
    assert bs[..1][..0] == [];
    assert bs[..2][..1] == bs[..1];
    assert bs[..3][..2] == bs[..2];
    assert bs[..4][..3] == bs[..3];
  }

  /** The four commits carry the four revisions; since the accumulated list is never
      cleared, they carry 1, 3, 5 and 7 changes. */
  lemma PhodalExpected()
    ensures DatesInDigits(PhodalBlocks)
    ensures |Expected(PhodalBlocks)| == 4
    ensures Expected(PhodalBlocks)[0].rev == "d00f0124d" && |Expected(PhodalBlocks)[0].changes| == 1
    ensures Expected(PhodalBlocks)[1].rev == "1d00f0124b" && |Expected(PhodalBlocks)[1].changes| == 3
    ensures Expected(PhodalBlocks)[2].rev == "d00f04111b" && |Expected(PhodalBlocks)[2].changes| == 5
    ensures Expected(PhodalBlocks)[3].rev == "d00f01214b" && |Expected(PhodalBlocks)[3].changes| == 7
  {
    var bs := PhodalBlocks;
    EpochFacts();
    assert DatesInDigits(bs);
    ExpectedCommits(bs);
    assert ExpectedAt(bs, 0) && ExpectedAt(bs, 1) && ExpectedAt(bs, 2) && ExpectedAt(bs, 3);
    PhodalAccumulated();
  }

  /** `to_commit_message` on the second test's log yields the four commits the test
      counts. */
  method ParseMultipleCommitLog() returns (commits: seq<CocoCommit>)
    ensures |commits| == 4
    ensures commits[0].rev == "d00f0124d" && |commits[0].changes| == 1
    ensures commits[1].rev == "1d00f0124b" && |commits[1].changes| == 3
    ensures commits[2].rev == "d00f04111b" && |commits[2].changes| == 5
    ensures commits[3].rev == "d00f01214b" && |commits[3].changes| == 7
  {
    var r := Parser.ToCommitMessage(PhodalLog);
    PhodalLogExpected();
    PhodalExpected();
    commits := r.value;
    SummaryOfCommit(commits, 0);
    SummaryOfCommit(commits, 1);
    SummaryOfCommit(commits, 2);
    SummaryOfCommit(commits, 3);
  }
}
