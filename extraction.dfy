/**
 The segmentation state machine of `extract_collection`: after a fixed
 preamble, every line is stripped and fed to a machine that collects a title,
 switches to body mode after two blank lines, and closes a document after
 three blank lines (counted outside body mode, or escalated from inside it).

 `Step` is one iteration of the source's `for line in file` loop, `Run` folds
 it over the lines, `EndOfStream` is the final flush, and `ExtractCollection`
 is the loop itself written imperatively, proved to compute the same catalog.
 */
module Extraction {
  import opened Wrappers
  import opened Text
  import opened Documents

  /** Number of front-matter lines skipped before segmentation starts. */
  const PreambleLength: nat := 307

  /** The loop variables of extract_collection, under their own names. */
  datatype State = State(
    currentTitle: Option<string>,
    currentText: string,
    insideRawText: bool,
    blankLineCount: nat,
    blankLineInsideRawText: nat,
    documentId: nat,
    catalog: seq<Doc>)

  /** The values the variables hold when the loop starts. */
  const Init := State(None, "", false, 0, 0, 0, [])

  /** The lines left once the preamble is skipped; a shorter file leaves none. */
  function Remainder(fileLines: seq<string>): (lines: seq<string>)
    ensures |fileLines| <= PreambleLength ==> lines == []
    ensures |fileLines| > PreambleLength ==> |lines| == |fileLines| - PreambleLength
    ensures forall i :: 0 <= i < |lines| ==> lines[i] == fileLines[PreambleLength + i]
  {
    if |fileLines| <= PreambleLength then [] else fileLines[PreambleLength..]
  }

  /** What a record built by the extractor looks like: its id, terms that are the words of its raw text, and raw text with no surrounding whitespace. */
  ghost predicate Extracted(d: Doc, id: nat) {
    && d.documentId == Some(id)
    && d.rawText.Some?
    && (d.rawText.value == [] || Trimmed(d.rawText.value))
    && d.terms == Some(Split(d.rawText.value))
    && d.filteredTerms == None
    && d.stemmedTerms == None
  }

  /** The record built when a document is closed: id, title, stripped text, and the words of the text. */
  function MakeDoc(id: nat, title: Option<string>, text: string): (d: Doc)
    ensures Extracted(d, id) && d.title == title
    ensures d.rawText == Some(Strip(text))
    ensures d.terms == Some(Split(text))
  {
    SplitIgnoresStrip(text);
    EmptyDoc.(documentId := Some(id), title := title, rawText := Some(Strip(text)), terms := Some(Split(text)))
  }

  /** Closing the current document: append its record, take the next id, and reset everything else. */
  function Flush(s: State): (r: State)
    ensures |r.catalog| == |s.catalog| + 1 && s.catalog <= r.catalog
    ensures var d := r.catalog[|s.catalog|];
            Extracted(d, s.documentId) && d.title == s.currentTitle
            && d.rawText == Some(Strip(s.currentText))
    ensures r.currentTitle == None && r.currentText == "" && !r.insideRawText
    ensures r.blankLineCount == 0 && r.blankLineInsideRawText == 0
    ensures r.documentId == s.documentId + 1
  {
    State(None, "", false, 0, 0, s.documentId + 1,
          s.catalog + [MakeDoc(s.documentId, s.currentTitle, s.currentText)])
  }

  /** One iteration of the loop over the lines (extraction.py lines 30-62). */
  function Step(s: State, raw: string): (r: State)
    ensures s.catalog <= r.catalog && |r.catalog| <= |s.catalog| + 1
    ensures r.documentId == s.documentId + (|r.catalog| - |s.catalog|)
  {
    var line := Strip(raw);
    if line == "" && !s.insideRawText then
      s.(blankLineCount := s.blankLineCount + 1)
    else
      var s1 :=
        if s.blankLineCount == 2 then
          if line == "" then
            s.(insideRawText := true, blankLineInsideRawText := s.blankLineInsideRawText + 1)
          else
            s.(insideRawText := true, currentText := s.currentText + line + " ", blankLineInsideRawText := 0)
        else s;
      var s2 := if s1.blankLineInsideRawText == 3 then s1.(blankLineCount := 3) else s1;
      if s2.blankLineCount == 3 then
        Flush(s2)
      else if line != "" && !s2.insideRawText then
        s2.(currentTitle := Some(line))
      else
        s2
  }

  /** The loop over `lines` started in state `s`. */
  function Run(s: State, lines: seq<string>): (r: State)
    ensures s.catalog <= r.catalog && |r.catalog| <= |s.catalog| + |lines|
    ensures r.documentId == s.documentId + (|r.catalog| - |s.catalog|)
    decreases |lines|
  {
    if lines == [] then s else Step(Run(s, lines[..|lines| - 1]), lines[|lines| - 1])
  }

  /** After the loop: one more record if there is text or a (non-empty) title left over. */
  function EndOfStream(s: State): (r: seq<Doc>)
    ensures s.catalog <= r && |r| <= |s.catalog| + 1
    ensures |r| == |s.catalog| + 1 <==>
              s.currentText != "" || (s.currentTitle.Some? && s.currentTitle.value != "")
    ensures |r| == |s.catalog| + 1 ==>
              Extracted(r[|s.catalog|], s.documentId) && r[|s.catalog|].title == s.currentTitle
              && r[|s.catalog|].rawText == Some(Strip(s.currentText))
  {
    if s.currentText != "" || (s.currentTitle.Some? && s.currentTitle.value != "") then
      s.catalog + [MakeDoc(s.documentId, s.currentTitle, s.currentText)]
    else
      s.catalog
  }

  /** The catalog produced for the lines after the preamble. */
  function Segment(lines: seq<string>): seq<Doc> {
    EndOfStream(Run(Init, lines))
  }

  /** The catalog extract_collection returns for a whole file. */
  function Collection(fileLines: seq<string>): (r: seq<Doc>)
    ensures |fileLines| <= PreambleLength ==> r == []
    ensures forall k :: 0 <= k < |r| ==> Extracted(r[k], k)
  {
    SegmentRecords(Remainder(fileLines));
    Segment(Remainder(fileLines))
  }

  /**
   The states the loop can be in between two lines. Outside body mode there is
   no text and no in-body blank count; inside it the outer count is exactly 2 and
   the in-body count is below 3. A pending title is never empty, the next id is
   the number of records, and every record is well formed with its position as id.
   */
  ghost predicate Reachable(s: State) {
    && (s.insideRawText ==> s.blankLineCount == 2 && s.blankLineInsideRawText <= 2)
    && (!s.insideRawText ==> s.blankLineInsideRawText == 0 && s.currentText == "")
    && (s.currentTitle.Some? ==> s.currentTitle.value != "")
    && s.documentId == |s.catalog|
    && forall k :: 0 <= k < |s.catalog| ==> Extracted(s.catalog[k], k)
  }

  /** The lines on which Step closes a document. */
  ghost predicate Closes(s: State, raw: string) {
    var line := Strip(raw);
    || (line == "" && s.insideRawText && s.blankLineInsideRawText == 2)
    || (line != "" && !s.insideRawText && s.blankLineCount == 3)
  }

  /** Closing a document from a state whose records are well formed keeps the state reachable. */
  lemma FlushReachable(s: State)
    requires s.documentId == |s.catalog|
    requires forall k :: 0 <= k < |s.catalog| ==> Extracted(s.catalog[k], k)
    ensures Reachable(Flush(s))
  {
    AppendExtracted(s.catalog, MakeDoc(s.documentId, s.currentTitle, s.currentText));
  }

  /** Every step keeps the state reachable and only ever appends to the catalog. */
  lemma StepReachable(s: State, raw: string)
    requires Reachable(s)
    ensures Reachable(Step(s, raw))
    ensures s.catalog <= Step(s, raw).catalog
  {
    var line := Strip(raw);
    if !(line == "" && !s.insideRawText) {
      var s1 :=
        if s.blankLineCount == 2 then
          if line == "" then
            s.(insideRawText := true, blankLineInsideRawText := s.blankLineInsideRawText + 1)
          else
            s.(insideRawText := true, currentText := s.currentText + line + " ", blankLineInsideRawText := 0)
        else s;
      var s2 := if s1.blankLineInsideRawText == 3 then s1.(blankLineCount := 3) else s1;
      if s2.blankLineCount == 3 {
        FlushReachable(s2);
      }
    }
  }

  lemma {:induction false} RunReachable(s: State, lines: seq<string>)
    requires Reachable(s)
    ensures Reachable(Run(s, lines))
    ensures s.catalog <= Run(s, lines).catalog
    decreases |lines|
  {
    if lines != [] {
      var p := lines[..|lines| - 1];
      RunReachable(s, p);
      StepReachable(Run(s, p), lines[|lines| - 1]);
    }
  }

  /**
   Document ids are exactly 0..N-1 in order (the end-of-stream record takes the
   next one), every record's terms are the words of its raw text, and its raw
   text carries no surrounding whitespace.
   */
  lemma SegmentRecords(lines: seq<string>)
    ensures forall k :: 0 <= k < |Segment(lines)| ==> Extracted(Segment(lines)[k], k)
  {
    RunReachable(Init, lines);
    var s := Run(Init, lines);
    if s.currentText != "" || (s.currentTitle.Some? && s.currentTitle.value != "") {
      var d := MakeDoc(s.documentId, s.currentTitle, s.currentText);
      AppendExtracted(s.catalog, d);
    }
  }

  lemma AppendExtracted(c: seq<Doc>, d: Doc)
    requires forall k :: 0 <= k < |c| ==> Extracted(c[k], k)
    requires Extracted(d, |c|)
    ensures forall k :: 0 <= k < |c + [d]| ==> Extracted((c + [d])[k], k)
  {
    forall k | 0 <= k < |c + [d]|
      ensures Extracted((c + [d])[k], k)
    {
      if k < |c| {
        assert (c + [d])[k] == c[k];
      }
    }
  }

  /**
   Step appends exactly one record when it closes a document, and none
   otherwise. Closing resets title, text, both counters and body mode, takes the
   next id, and the closing line itself adds nothing to any record; on the
   fourth line after a blank-free title (three blanks outside body mode) the
   record is appended even if title and text are empty.
   */
  lemma StepCloses(s: State, raw: string)
    requires Reachable(s)
    ensures Closes(s, raw) ==> Step(s, raw) == Flush(s)
    ensures !Closes(s, raw) ==> Step(s, raw).catalog == s.catalog && Step(s, raw).documentId == s.documentId
  {
  }

  /** A blank line outside body mode only increments the blank-line count; nothing else changes. */
  lemma BlankOutsideBody(s: State, raw: string)
    requires Reachable(s) && !s.insideRawText && Strip(raw) == ""
    ensures Step(s, raw) == s.(blankLineCount := s.blankLineCount + 1)
  {
  }

  /**
   A non-blank line outside body mode, when the blank-line count is neither 2
   nor 3, replaces the pending title and leaves the blank-line count as it is.
   */
  lemma TitleLine(s: State, raw: string)
    requires Reachable(s) && !s.insideRawText && Strip(raw) != ""
    requires s.blankLineCount != 2 && s.blankLineCount != 3
    ensures Step(s, raw) == s.(currentTitle := Some(Strip(raw)))
  {
  }

  /**
   A non-blank line once the blank-line count is 2 is body text: it is
   appended with one trailing space, body mode is on, and the in-body blank
   count drops to 0; the title is kept.
   */
  lemma BodyLine(s: State, raw: string)
    requires Reachable(s) && s.blankLineCount == 2 && Strip(raw) != ""
    ensures Step(s, raw) == s.(insideRawText := true, currentText := s.currentText + Strip(raw) + " ",
                               blankLineInsideRawText := 0)
  {
  }

  /** A blank line in body mode only counts, until it is the third in a row. */
  lemma BlankInsideBody(s: State, raw: string)
    requires Reachable(s) && s.insideRawText && Strip(raw) == ""
    ensures s.blankLineInsideRawText < 2 ==>
              Step(s, raw) == s.(blankLineInsideRawText := s.blankLineInsideRawText + 1)
    ensures s.blankLineInsideRawText == 2 ==> Step(s, raw) == Flush(s)
  {
  }

  /**
   Once four or more blank lines have piled up outside body mode, the count
   has skipped past 2 and 3 for good: no further document closes before the end
   of the stream, and the machine never enters body mode again.
   */
  lemma {:induction false} StuckAfterFourBlanks(s: State, lines: seq<string>)
    requires Reachable(s) && !s.insideRawText && s.blankLineCount >= 4
    ensures Run(s, lines).catalog == s.catalog
    ensures !Run(s, lines).insideRawText && Run(s, lines).blankLineCount >= 4
    ensures Reachable(Run(s, lines))
    decreases |lines|
  {
    if lines != [] {
      var p := lines[..|lines| - 1];
      StuckAfterFourBlanks(s, p);
      StepReachable(Run(s, p), lines[|lines| - 1]);
    }
  }

  /**
   At the end of the stream exactly one record is added, with the next id, if
   and only if text or a title is pending; otherwise the catalog is returned as
   the loop left it.
   */
  lemma EndOfStreamFlush(lines: seq<string>)
    ensures var s := Run(Init, lines);
            (s.currentText != "" || s.currentTitle.Some?) <==> |Segment(lines)| == |s.catalog| + 1
    ensures var s := Run(Init, lines);
            !(s.currentText != "" || s.currentTitle.Some?) <==> Segment(lines) == s.catalog
    ensures var s := Run(Init, lines);
            s.catalog <= Segment(lines)
  {
  }

  /**
   The stripped non-blank lines of the document still open after `lines`, in
   the order they were appended to current_text.
   */
  ghost function BodyLines(lines: seq<string>): (ls: seq<string>)
    decreases |lines|
  {
    if lines == [] then []
    else
      var p := lines[..|lines| - 1];
      var raw := lines[|lines| - 1];
      var s := Run(Init, p);
      if Closes(s, raw) then []
      else if s.blankLineCount == 2 && Strip(raw) != "" then BodyLines(p) + [Strip(raw)]
      else BodyLines(p)
  }

  /** current_text is always the pending body lines, each followed by one space. */
  lemma {:induction false} TextIsAccumulatedBody(lines: seq<string>)
    ensures Run(Init, lines).currentText == Accumulate(BodyLines(lines))
    ensures forall k :: 0 <= k < |BodyLines(lines)| ==> Trimmed(BodyLines(lines)[k])
    decreases |lines|
  {
    if lines != [] {
      var p := lines[..|lines| - 1];
      var raw := lines[|lines| - 1];
      TextIsAccumulatedBody(p);
      RunReachable(Init, p);
      var s := Run(Init, p);
      assert Run(Init, lines) == Step(s, raw);
      var ls := BodyLines(p);
      if Closes(s, raw) {
        StepCloses(s, raw);
      } else if s.blankLineCount == 2 && Strip(raw) != "" {
        BodyLine(s, raw);
        assert (ls + [Strip(raw)])[..|ls|] == ls;
      } else if Strip(raw) == "" && !s.insideRawText {
        BlankOutsideBody(s, raw);
      } else if Strip(raw) == "" {
        BlankInsideBody(s, raw);
      } else {
        TitleLine(s, raw);
      }
    }
  }

  /**
   The record a closing line appends has as raw text the pending body lines
   joined by single spaces, and as terms the words of that text, which are
   the words of each body line in turn.
   */
  lemma ClosedRecordJoinsBody(lines: seq<string>, raw: string)
    requires Closes(Run(Init, lines), raw)
    ensures var c := Run(Init, lines + [raw]).catalog;
            c != [] && c[|c| - 1].rawText == Some(JoinSpace(BodyLines(lines)))
            && c[|c| - 1].terms == Some(Split(JoinSpace(BodyLines(lines))))
            && c[|c| - 1].terms == Some(SplitLines(BodyLines(lines)))
  {
    var s := Run(Init, lines);
    var ls := BodyLines(lines);
    assert Run(Init, lines + [raw]).catalog == Flush(s).catalog by {
      RunReachable(Init, lines);
      assert (lines + [raw])[..|lines|] == lines;
      StepCloses(s, raw);
    }
    assert Strip(s.currentText) == JoinSpace(ls) by {
      TextIsAccumulatedBody(lines);
      StripAccumulate(ls);
    }
    SplitJoinSpace(ls);
  }

  /** The same holds of the record flushed at the end of the stream. */
  lemma FinalRecordJoinsBody(lines: seq<string>)
    requires |Segment(lines)| > |Run(Init, lines).catalog|
    ensures var c := Segment(lines);
            c[|c| - 1].rawText == Some(JoinSpace(BodyLines(lines)))
            && c[|c| - 1].terms == Some(Split(JoinSpace(BodyLines(lines))))
            && c[|c| - 1].terms == Some(SplitLines(BodyLines(lines)))
  {
    var s := Run(Init, lines);
    var ls := BodyLines(lines);
    assert Strip(s.currentText) == JoinSpace(ls) by {
      TextIsAccumulatedBody(lines);
      StripAccumulate(ls);
    }
    SplitJoinSpace(ls);
  }

  /** The loop over one more line is one more step. */
  lemma RunOneMore(lines: seq<string>, k: nat)
    requires k < |lines|
    ensures Run(Init, lines[..k + 1]) == Step(Run(Init, lines[..k]), lines[k])
  {
    assert lines[..k + 1][..k] == lines[..k];
  }

  /**
   The loop of extract_collection over the lines that follow the preamble,
   with the source's variables, `continue`s and final flush.
   */
  method ExtractCollection(fileLines: seq<string>) returns (catalog: seq<Doc>)
    ensures catalog == Collection(fileLines)
  {
    catalog := [];
    var documentId: nat := 0;
    var lines := Remainder(fileLines);
    var currentTitle: Option<string> := None;
    var currentText := "";
    var insideRawText := false;
    var blankLineCount: nat := 0;
    var blankLineInsideRawText: nat := 0;

    for i := 0 to |lines|
      invariant State(currentTitle, currentText, insideRawText, blankLineCount,
                      blankLineInsideRawText, documentId, catalog) == Run(Init, lines[..i])
    {
      RunOneMore(lines, i);
      var line := Strip(lines[i]);
      if line == "" && !insideRawText {
        blankLineCount := blankLineCount + 1;
        continue;
      }
      if blankLineCount == 2 {
        insideRawText := true;
        if line == "" {
          blankLineInsideRawText := blankLineInsideRawText + 1;
        } else {
          currentText := currentText + line + " ";
          blankLineInsideRawText := 0;
        }
      }
      if blankLineInsideRawText == 3 {
        blankLineCount := 3;
      }
      if blankLineCount == 3 {
        var doc := MakeDoc(documentId, currentTitle, currentText);
        catalog := catalog + [doc];
        documentId := documentId + 1;
        currentTitle := None;
        currentText := "";
        blankLineCount := 0;
        blankLineInsideRawText := 0;
        insideRawText := false;
        continue;
      }
      if line != "" && !insideRawText {
        currentTitle := Some(line);
      }
    }

    assert lines[..|lines|] == lines;
    if currentText != "" || (currentTitle.Some? && currentTitle.value != "") {
      var doc := MakeDoc(documentId, currentTitle, currentText);
      catalog := catalog + [doc];
    }
  }
}

module ExtractionScenarios {
  import opened Wrappers
  import opened Text
  import opened Documents
  import opened Extraction

  /** One document after the preamble: a title, two blank lines, one body line, three blank lines. */
  function DocLines(title: string, body: string): seq<string> {
    [title, "", "", body, "", "", ""]
  }

  const FableBody := "Once upon a time."
  const FableLines := DocLines("The Fox", FableBody)

  /** The title line and the two blank lines after it. */
  lemma RunTitle(title: string, body: string)
    requires Strip(title) != ""
    ensures Run(Init, DocLines(title, body)[..1]) == State(Some(Strip(title)), "", false, 0, 0, 0, [])
  {
    var lines := DocLines(title, body);
    RunOneMore(lines, 0);
    assert lines[..0] == [];
    TitleLine(Init, title);
  }

  lemma RunFirstBlank(title: string, body: string)
    requires Strip(title) != ""
    ensures Run(Init, DocLines(title, body)[..2]) == State(Some(Strip(title)), "", false, 1, 0, 0, [])
  {
    RunTitle(title, body);
    RunOneMore(DocLines(title, body), 1);
    assert Strip("") == "";
    BlankOutsideBody(State(Some(Strip(title)), "", false, 0, 0, 0, []), "");
  }

  lemma RunHeading(title: string, body: string)
    requires Strip(title) != ""
    ensures Run(Init, DocLines(title, body)[..3]) == State(Some(Strip(title)), "", false, 2, 0, 0, [])
  {
    RunFirstBlank(title, body);
    RunOneMore(DocLines(title, body), 2);
    assert Strip("") == "";
    BlankOutsideBody(State(Some(Strip(title)), "", false, 1, 0, 0, []), "");
  }

  /** The body line. */
  lemma RunBodyLine(title: string, body: string)
    requires Strip(title) != "" && Strip(body) != ""
    ensures Run(Init, DocLines(title, body)[..4])
            == State(Some(Strip(title)), Strip(body) + " ", true, 2, 0, 0, [])
  {
    RunHeading(title, body);
    RunOneMore(DocLines(title, body), 3);
    BodyLine(State(Some(Strip(title)), "", false, 2, 0, 0, []), body);
  }

  /** The first blank line after the body. */
  lemma RunBody(title: string, body: string)
    requires Strip(title) != "" && Strip(body) != ""
    ensures Run(Init, DocLines(title, body)[..5])
            == State(Some(Strip(title)), Strip(body) + " ", true, 2, 1, 0, [])
  {
    RunBodyLine(title, body);
    RunOneMore(DocLines(title, body), 4);
    assert Strip("") == "";
    BlankInsideBody(State(Some(Strip(title)), Strip(body) + " ", true, 2, 0, 0, []), "");
  }

  /** The state before the last of the three closing blank lines. */
  lemma RunBeforeLastLine(title: string, body: string)
    requires Strip(title) != "" && Strip(body) != ""
    ensures Run(Init, DocLines(title, body)[..6])
            == State(Some(Strip(title)), Strip(body) + " ", true, 2, 2, 0, [])
  {
    RunBody(title, body);
    assert Strip("") == "";
    RunOneMore(DocLines(title, body), 5);
  }

  /**
   After the preamble, a title line, two blank lines, one body line and three
   blank lines make exactly one document: id 0, the stripped title, the
   stripped body as raw text and the body's words as terms. The title and body
   lines may carry surrounding whitespace (a line read from a file ends in its
   newline), as long as neither is blank.
   */
  lemma OneDocument(preamble: seq<string>, title: string, body: string)
    requires |preamble| == PreambleLength
    requires Strip(title) != "" && Strip(body) != ""
    ensures Collection(preamble + DocLines(title, body))
            == [Doc(Some(0), Some(Strip(title)), Some(Strip(body)), Some(Split(body)), None, None)]
  {
    var lines := DocLines(title, body);
    assert Remainder(preamble + lines) == lines;
    RunOneDocument(title, body);
  }

  /** The third closing blank line closes the document and leaves a fresh state behind. */
  lemma RunOneDocument(title: string, body: string)
    requires Strip(title) != "" && Strip(body) != ""
    ensures Run(Init, DocLines(title, body))
            == State(None, "", false, 0, 0, 1,
                     [Doc(Some(0), Some(Strip(title)), Some(Strip(body)), Some(Split(body)), None, None)])
  {
    var lines := DocLines(title, body);
    RunBeforeLastLine(title, body);
    var s := Run(Init, lines[..6]);
    assert Step(s, "") == Flush(s) by {
      assert Strip("") == "";
      BlankInsideBody(s, "");
    }
    assert Run(Init, lines) == Step(s, "");
    FlushOneDocument(title, body);
  }

  /** Closing the document: its record holds the stripped title, the stripped body and the body's words. */
  lemma FlushOneDocument(title: string, body: string)
    requires Strip(title) != "" && Strip(body) != ""
    ensures Flush(State(Some(Strip(title)), Strip(body) + " ", true, 2, 2, 0, []))
            == State(None, "", false, 0, 0, 1,
                     [Doc(Some(0), Some(Strip(title)), Some(Strip(body)), Some(Split(body)), None, None)])
  {
    StripBodyLine(Strip(body));
    SplitIgnoresStrip(body);
  }

  /** The four words of the fable's body, split at its three spaces. */
  lemma FableWords()
    ensures Split(FableBody) == ["Once", "upon", "a", "time."]
  {
    var ws := ["Once", "upon", "a", "time."];
    assert JoinSpace(ws) == FableBody by {
      assert ws[..3][..2][..1] == ["Once"];
      assert JoinSpace(["Once"]) == "Once";
      assert ws[..3][..2] == ["Once", "upon"];
      assert JoinSpace(["Once", "upon"]) == "Once" + " " + "upon";
      assert ws[..3] == ["Once", "upon", "a"];
      assert JoinSpace(ws[..3]) == "Once upon" + " " + "a";
      assert "Once upon a" + " " + "time." == FableBody;
    }
    SplitJoinWords(ws);
  }

  /** The fable example: one document titled "The Fox" with four words. */
  lemma OneFable(preamble: seq<string>)
    requires |preamble| == PreambleLength
    ensures Collection(preamble + FableLines)
            == [Doc(Some(0), Some("The Fox"), Some("Once upon a time."),
                    Some(["Once", "upon", "a", "time."]), None, None)]
  {
    StripTrimmed("The Fox");
    StripTrimmed(FableBody);
    OneDocument(preamble, "The Fox", FableBody);
    FableWords();
  }
}
