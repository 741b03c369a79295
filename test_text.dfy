/** The text of the parser's two unit-test logs, piece by piece, with the facts about
    their characters that the replays need. Long strings are spelled in pieces of a few
    characters and each fact is proved for a few pieces at a time, which keeps every
    proof about literal text small. */
module TestText {
  import opened Text
  import opened Numbers
  import opened Patterns

  /** No '[' and no line feed. */
  predicate Clean(s: string) {
    '[' !in s && '\n' !in s
  }

  /** The value of `s` with one more digit written after it. */
  lemma DigitsValueSnoc(s: string, d: string)
    requires AllDigits(s) && |d| == 1 && IsDigit(d[0])
    ensures AllDigits(s + d)
    ensures DigitsValue(s + d) == DigitsValue(s) * 10 + DigitValue(d[0])
  {
    assert (s + d)[..|s|] == s;
  }

  // ---------------------------------------------------------------------------------
  // Shared by both logs

  /** The counts the two logs write. */
  lemma Numerals()
    ensures IntToDecimal(0) == "0" && IntToDecimal(1) == "1" && IntToDecimal(3) == "3"
    ensures IntToDecimal(5) == "5" && IntToDecimal(6) == "6" && IntToDecimal(9) == "9"
    ensures IntToDecimal(11) == "11"
  {
    assert NatToDecimal(11) == NatToDecimal(1) + [DigitChar(1)];
  }

  const Epoch: string := "1575388800"
  const Gap6: string := "      "
  const Gap7: string := "       "

  /** The epoch both logs carry, 2019-12-03T16:00:00Z. */
  lemma EpochFacts()
    ensures AllDigits(Epoch) && DigitsValue(Epoch) == 1575388800
  {
    assert "1"[..0] == [];
    var e := "1";
    DigitsValueSnoc(e, "5"); e := e + "5";
    DigitsValueSnoc(e, "7"); e := e + "7";
    DigitsValueSnoc(e, "5"); e := e + "5";
    DigitsValueSnoc(e, "3"); e := e + "3";
    DigitsValueSnoc(e, "8"); e := e + "8";
    DigitsValueSnoc(e, "8"); e := e + "8";
    DigitsValueSnoc(e, "8"); e := e + "8";
    DigitsValueSnoc(e, "0"); e := e + "0";
    DigitsValueSnoc(e, "0"); e := e + "0";
    assert DigitsValue(e) == 1575388800;
    assert Epoch == e;
  }

  lemma GapsAreSpace()
    ensures AllIn(Gap6, 0, |Gap6|, Space) && AllIn(Gap7, 0, |Gap7|, Space)
    ensures '\n' !in Gap6 && '\n' !in Gap7
  {
  }

  // ---------------------------------------------------------------------------------
  // should_success_parse_one_line_log

  const SpringRev: string := "828fe39523"
  const Rossen: string := "Rossen Stoyanchev"
  const ConsistentlyUse: string := "Consist" + "ently" + " use"
  const ReleaseBodyIn: string := " release" + "Body" + " in"
  const DefaultWebClientWords: string := " Default" + "WebClient"
  const SpringMessage: string := ConsistentlyUse + ReleaseBodyIn + DefaultWebClientWords
  const SpringWebflux: string := "spring-" + "webflux/" + "core/" + "main/" + "java/"
  const OrgSpring: string := "org/" + "spring" + "framework/" + "web/"
  const ReactiveClient: string := "reactive/" + "function/" + "client/"
  const ClientDir: string := SpringWebflux + OrgSpring + ReactiveClient
  const ClientResponse: string := ClientDir + "Client" + "Response" + ".java"
  const DefaultWebClient: string := ClientDir + "Default" + "WebClient" + ".java"
  const WebClient: string := ClientDir + "WebClient" + ".java"
  const WebClientDoc: string := "core/" + "docs/" + "asciidoc/" + "web/" + "webflux-" + "webclient" + ".adoc"

  lemma SpringWebfluxClean()
    ensures Clean(SpringWebflux) && SpringWebflux[0] == 's'
  {
  }

  lemma OrgSpringClean()
    ensures Clean(OrgSpring)
  {
  }

  lemma ReactiveClientClean()
    ensures Clean(ReactiveClient)
  {
  }

  lemma ClientDirClean()
    ensures Clean(ClientDir) && ClientDir[0] == 's' && |ClientDir| == 79
  {
    SpringWebfluxClean();
    OrgSpringClean();
    ReactiveClientClean();
  }

  lemma ClientFilesClean()
    ensures Clean(ClientResponse) && Clean(DefaultWebClient) && Clean(WebClient)
    ensures ClientResponse[0] == 's' && DefaultWebClient[0] == 's' && WebClient[0] == 's'
    ensures |ClientResponse| == 98 && |DefaultWebClient| == 100 && |WebClient| == 93
  {
    ClientDirClean();
    assert Clean("Client") && Clean("Response") && Clean("Default") && Clean("WebClient") && Clean(".java");
  }

  lemma DocFileClean()
    ensures Clean(WebClientDoc) && WebClientDoc[0] == 'c' && |WebClientDoc| == 45
  {
  }

  lemma SpringHeaderFacts()
    ensures 5 <= |SpringRev| <= 12 && AllIn(SpringRev, 0, |SpringRev|, RevChar)
    ensures (forall j :: !DateMarkAt(Rossen, j)) && Clean(Rossen) && Rossen[0] == 'R'
  {
    forall j: nat ensures !DateMarkAt(Rossen, j) {
      if j + 11 <= |Rossen| {
        if j == 6 {
          assert !InClass(Rossen[7], Digit);
        } else {
          assert !IsSpace(Rossen[j]);
        }
      }
    }
  }

  /** Without '1' no "<date> " occurs, and without 'R' no "Rossen Stoyanchev ". */
  predicate SpringMessagePiece(s: string) {
    Clean(s) && '1' !in s && 'R' !in s
  }

  lemma ConsistentlyUseFacts()
    ensures SpringMessagePiece(ConsistentlyUse)
  {
  }

  lemma ReleaseBodyInFacts()
    ensures SpringMessagePiece(ReleaseBodyIn)
  {
  }

  lemma DefaultWebClientWordsFacts()
    ensures SpringMessagePiece(DefaultWebClientWords)
  {
  }

  lemma SpringMessageText()
    ensures SpringMessage == "Consistently use releaseBody in DefaultWebClient"
  {
  }

  lemma SpringMessageFacts()
    ensures Clean(SpringMessage) && '1' !in SpringMessage && 'R' !in SpringMessage
  {
    ConsistentlyUseFacts();
    ReleaseBodyInFacts();
    DefaultWebClientWordsFacts();
  }

  // ---------------------------------------------------------------------------------
  // should_success_parse_multiple_line_log

  const Phodal: string := "Phodal Huang"
  const UpdateFiles: string := "update" + " files"
  const MoveMessage: string := "refactor:" + " move" + " bs" + " to" + " adapter"
  const DomainApp: string := "core/" + "domain/" + "bs/" + "BadSmell" + "App.go"
  const CmdBs: string := "cmd/" + "bs.go"
  const MovedApp: string := "core/" + "{domain" + " => " + "adapter}" + "/bs/" + "BadSmell" + "App.go"
  const AdapterApp: string := "core/" + "adapter/" + "bs/" + "BadSmell" + "App.go"

  lemma DomainFilesClean()
    ensures Clean(DomainApp) && Clean(CmdBs)
    ensures DomainApp[0] == 'c' && CmdBs[0] == 'c' && |DomainApp| == 29 && |CmdBs| == 9
  {
  }

  lemma AdapterFilesClean()
    ensures Clean(MovedApp) && Clean(AdapterApp)
    ensures MovedApp[0] == 'c' && AdapterApp[0] == 'c' && |MovedApp| == 42 && |AdapterApp| == 30
  {
  }

  /** A revision REV accepts: 5 to 12 characters of `[0-9a-f|]`. */
  predicate HexRev(rev: string) {
    5 <= |rev| <= 12 && AllIn(rev, 0, |rev|, RevChar)
  }

  lemma PhodalRevFacts()
    ensures HexRev("d00f0124d") && HexRev("1d00f0124b") && HexRev("d00f04111b") && HexRev("d00f01214b")
  {
  }

  lemma PhodalFacts()
    ensures (forall j :: !DateMarkAt(Phodal, j)) && Clean(Phodal) && Phodal[0] == 'P'
  {
    forall j: nat ensures !DateMarkAt(Phodal, j) {
      if j + 11 <= |Phodal| {
        assert !IsSpace(Phodal[j]);
      }
    }
  }

  /** Without '1' no "<date> " occurs, and without 'P' no "Phodal Huang ". */
  predicate PhodalMessagePiece(s: string) {
    Clean(s) && '1' !in s && 'P' !in s
  }

  lemma UpdateFilesFacts()
    ensures PhodalMessagePiece(UpdateFiles)
  {
  }

  lemma MoveMessageFacts()
    ensures PhodalMessagePiece(MoveMessage)
  {
    assert PhodalMessagePiece("refactor:" + " move");
  }
}
