/** What the validating parser guarantees about the quizzes it accepts and
    the texts it refuses. */
module ParserProperties {
  import opened Wrappers
  import opened PyStr
  import opened QuizModel
  import opened QuizParser

  // ---------------------------------------------------------------------
  // Reference descriptions of the scan's result
  // ---------------------------------------------------------------------

  /** What a line contributes to the question list of the strict parser:
      a question header opens a question, a numbered line adds an option,
      an answer line that parses sets the answer, and every other line,
      the title and the description included, contributes nothing. */
  function StrictItem(line: string): Item
  {
    match Classify(line)
    case QuestionLine => Header(AfterColon(line).GetOr([]))
    case OptionLine =>
      assert line[DigitRun(line)] == '.';
      Opt(ParseOptionLine(line))
    case AnswerLine =>
      (match ParseCorrectAnswer(line)
       case Ok(v) => Ans(v)
       case Err(_) => Skip)
    case _ => Skip
  }

  function StrictItems(lines: seq<string>): (items: seq<Item>)
    ensures |items| == |lines|
    decreases |lines|
  {
    if |lines| == 0 then []
    else StrictItems(lines[..|lines| - 1]) + [StrictItem(lines[|lines| - 1])]
  }

  /** The number of question header lines. */
  function QuestionLineCount(lines: seq<string>): nat
    decreases |lines|
  {
    if |lines| == 0 then 0
    else QuestionLineCount(lines[..|lines| - 1]) + (if Classify(lines[|lines| - 1]) == QuestionLine then 1 else 0)
  }

  /** The value of the last line of the given header kind, or the empty
      text when there is none. */
  function LastHeader(lines: seq<string>, kind: LineKind): string
    decreases |lines|
  {
    if |lines| == 0 then []
    else if Classify(lines[|lines| - 1]) == kind then AfterColon(lines[|lines| - 1]).GetOr([])
    else LastHeader(lines[..|lines| - 1], kind)
  }

  /** The open question, as a list of zero or one. */
  function Pending(d: Draft): seq<Question>
  {
    if d.current.Some? then [d.current.value] else []
  }

  /** The reasons the scan and the closing checks can give; the other two
      come only from the checks on the whole text. */
  predicate IsLineReason(r: Reason)
  {
    !r.EmptyText? && !r.TooShort?
  }

  /** What the scan keeps true of its draft: closed questions are well
      formed and a stated answer is never negative. */
  predicate Sound(d: Draft)
  {
    && (forall k :: 0 <= k < |d.questions| ==> WellFormed(d.questions[k]))
    && (d.current.Some? && d.current.value.correctAnswer.Some? ==> d.current.value.correctAnswer.value >= 0)
  }

  // ---------------------------------------------------------------------
  // One line of the scan
  // ---------------------------------------------------------------------

  /** A line fails only with a reason about that line or its question. */
  lemma StepReasons(d: Draft, line: string)
    ensures Step(d, line).Err? ==> IsLineReason(Step(d, line).error) && !Step(d, line).error.InQuestion?
  {
    match Classify(line) {
      case QuestionLine =>
      case AnswerLine =>
      case OptionLine =>
      case _ =>
    }
  }

  lemma CloseSound(d: Draft)
    requires Sound(d) && Close(d).Ok?
    ensures Sound(Close(d).value)
  {
    if d.current.Some? {
      var qs := Close(d).value.questions;
      assert qs == d.questions + [d.current.value];
      assert WellFormed(d.current.value);
      forall k | 0 <= k < |qs|
        ensures WellFormed(qs[k])
      {
        if k < |d.questions| {
          assert qs[k] == d.questions[k];
        }
      }
    }
  }

  lemma StepSound(d: Draft, line: string)
    requires Sound(d) && Step(d, line).Ok?
    ensures Sound(Step(d, line).value)
  {
    var e := Step(d, line).value;
    match Classify(line) {
      case QuestionLine =>
        CloseSound(d);
        assert e.questions == Close(d).value.questions;
      case AnswerLine =>
        assert e.questions == d.questions;
      case OptionLine =>
        assert e.questions == d.questions;
      case _ =>
        assert e.questions == d.questions;
    }
  }

  /** The draft matches the question blocks of the items seen so far. */
  predicate MatchesBlocks(d: Draft, items: seq<Item>)
  {
    Group(items) == d.questions + Pending(d) && (d.current.None? ==> d.questions == [])
  }

  lemma StepBlocks(d: Draft, line: string, items: seq<Item>)
    requires MatchesBlocks(d, items) && Step(d, line).Ok?
    ensures MatchesBlocks(Step(d, line).value, items + [StrictItem(line)])
  {
    var e := Step(d, line).value;
    var it := StrictItem(line);
    match Classify(line) {
      case QuestionLine =>
        GroupSnocHeader(items, it);
        assert e.questions == d.questions + Pending(d);
      case OptionLine =>
        GroupSnocOther(items, it);
        var g := d.questions + Pending(d);
        assert g[..|g| - 1] == d.questions;
      case AnswerLine =>
        GroupSnocOther(items, it);
        var g := d.questions + Pending(d);
        assert g[..|g| - 1] == d.questions;
      case _ =>
        assert it == Skip && e.questions == d.questions && e.current == d.current;
        GroupSnocOther(items, it);
        if d.current.Some? {
          var g := d.questions + Pending(d);
          assert g == g[..|g| - 1] + [g[|g| - 1]];
        }
    }
  }

  lemma StepHeaders(d: Draft, line: string)
    requires Step(d, line).Ok?
    ensures Step(d, line).value.title ==
      if Classify(line) == TitleLine then AfterColon(line).GetOr([]) else d.title
    ensures Step(d, line).value.description ==
      if Classify(line) == DescriptionLine then AfterColon(line).GetOr([]) else d.description
  {
    match Classify(line) {
      case QuestionLine =>
      case _ =>
    }
  }

  /** Header and unrecognised lines never fail and leave the questions alone. */
  lemma StepQuiet(d: Draft, line: string)
    requires Classify(line) in {TitleLine, DescriptionLine, OtherLine}
    ensures Step(d, line).Ok?
    ensures Step(d, line).value.questions == d.questions && Step(d, line).value.current == d.current
  {
    HeaderLineHasColon(line, TitlePrefix);
    HeaderLineHasColon(line, DescriptionPrefix);
  }

  // ---------------------------------------------------------------------
  // Invariants of the scan
  // ---------------------------------------------------------------------

  /** The scan never fails with an error reserved for the whole text, nor
      with the numbered per-question error of the final check. */
  lemma {:induction false} ScanReasons(lines: seq<string>)
    ensures Scan(lines).Err? ==> IsLineReason(Scan(lines).error) && !Scan(lines).error.InQuestion?
    decreases |lines|
  {
    if |lines| > 0 {
      var init := lines[..|lines| - 1];
      ScanReasons(init);
      if Scan(init).Ok? {
        StepReasons(Scan(init).value, lines[|lines| - 1]);
      }
    }
  }

  lemma {:induction false} ScanSound(lines: seq<string>)
    ensures Scan(lines).Ok? ==> Sound(Scan(lines).value)
    decreases |lines|
  {
    if |lines| > 0 {
      var init := lines[..|lines| - 1];
      ScanSound(init);
      if Scan(init).Ok? && Scan(lines).Ok? {
        StepSound(Scan(init).value, lines[|lines| - 1]);
      }
    }
  }

  /** The closed questions and the open one are the question blocks of the
      lines scanned so far; no question is closed while none is open. */
  lemma {:induction false} ScanBlocks(lines: seq<string>)
    ensures Scan(lines).Ok? ==> MatchesBlocks(Scan(lines).value, StrictItems(lines))
    decreases |lines|
  {
    if |lines| > 0 {
      var init := lines[..|lines| - 1];
      ScanBlocks(init);
      if Scan(init).Ok? && Scan(lines).Ok? {
        StepBlocks(Scan(init).value, lines[|lines| - 1], StrictItems(init));
      }
    }
  }

  /** Title and description are those of the last title and description
      lines, or empty when there is none. */
  lemma {:induction false} ScanHeaders(lines: seq<string>)
    ensures Scan(lines).Ok? ==>
      Scan(lines).value.title == LastHeader(lines, TitleLine)
      && Scan(lines).value.description == LastHeader(lines, DescriptionLine)
    decreases |lines|
  {
    if |lines| > 0 {
      var init := lines[..|lines| - 1];
      ScanHeaders(init);
      if Scan(init).Ok? && Scan(lines).Ok? {
        StepHeaders(Scan(init).value, lines[|lines| - 1]);
      }
    }
  }

  lemma {:induction false} StrictHeaderCount(lines: seq<string>)
    ensures HeaderCount(StrictItems(lines)) == QuestionLineCount(lines)
    decreases |lines|
  {
    if |lines| > 0 {
      var items := StrictItems(lines);
      StrictHeaderCount(lines[..|lines| - 1]);
      assert items[..|items| - 1] == StrictItems(lines[..|lines| - 1]);
    }
  }

  /** A line of no recognised kind leaves the scan where it was. */
  lemma OtherLineIgnored(lines: seq<string>, line: string)
    requires Classify(line) == OtherLine
    ensures Scan(lines + [line]) == Scan(lines)
  {
    assert (lines + [line])[..|lines|] == lines;
  }

  /** Before the first question header, only header and unrecognised lines
      can have been seen for the scan to have no question. */
  lemma {:induction false} NoQuestionYet(lines: seq<string>)
    requires forall m :: 0 <= m < |lines| ==> Classify(lines[m]) in {TitleLine, DescriptionLine, OtherLine}
    ensures Scan(lines).Ok? && Scan(lines).value.current.None? && Scan(lines).value.questions == []
    decreases |lines|
  {
    if |lines| > 0 {
      var init := lines[..|lines| - 1];
      NoQuestionYet(init);
      StepQuiet(Scan(init).value, lines[|lines| - 1]);
    }
  }

  // ---------------------------------------------------------------------
  // The parser's promises
  // ---------------------------------------------------------------------

  /** No title or description header starts with the given character. */
  lemma NotHeaderByFirst(line: string)
    requires |line| > 0 && line[0] != 'Н' && line[0] != 'О'
    ensures !IsHeaderLine(line, TitlePrefix)
    ensures !IsHeaderLine(line, DescriptionPrefix)
  {
    FirstCharBars(line, TitlePrefix + ":");
    FirstCharBars(line, TitlePrefix + " квиза:");
    FirstCharBars(line, DescriptionPrefix + ":");
    FirstCharBars(line, DescriptionPrefix + " квиза:");
  }

  /** A piece of the text holds something other than whitespace. */
  predicate Visible(piece: string)
  {
    exists j :: 0 <= j < |piece| && !IsSpace(piece[j])
  }

  /** The pieces that hold something other than whitespace, in order. */
  function VisiblePieces(parts: seq<string>): (r: seq<string>)
    ensures |r| <= |parts|
    ensures forall k :: 0 <= k < |r| ==> Visible(r[k])
    decreases |parts|
  {
    if |parts| == 0 then []
    else
      var last := parts[|parts| - 1];
      VisiblePieces(parts[..|parts| - 1]) + if Visible(last) then [last] else []
  }

  function StripEach(pieces: seq<string>): (r: seq<string>)
    ensures |r| == |pieces|
    ensures forall k :: 0 <= k < |r| ==> r[k] == Strip(pieces[k])
  {
    seq(|pieces|, k requires 0 <= k < |pieces| => Strip(pieces[k]))
  }

  /** The lines the scan visits are the pieces holding something other than
      whitespace, each stripped, in their order in the text; so the
      too-short test counts exactly those pieces. */
  lemma {:induction false} NonBlankLinesSpec(parts: seq<string>)
    ensures NonBlankLines(parts) == StripEach(VisiblePieces(parts))
    ensures |NonBlankLines(parts)| == |VisiblePieces(parts)|
    decreases |parts|
  {
    if |parts| > 0 {
      var init, last := parts[..|parts| - 1], parts[|parts| - 1];
      NonBlankLinesSpec(init);
      StripSpec(last);
      assert Strip(last) == [] <==> !Visible(last);
      assert StripEach(VisiblePieces(init) + [last]) == StripEach(VisiblePieces(init)) + [Strip(last)];
    }
  }

  lemma LinesOfEmpty()
    ensures Lines([]) == []
  {
    assert Split([], '\n') == [[]];
    assert NonBlankLines([[]]) == NonBlankLines([]) + [];
  }

  // The closing step

  lemma FinishReasons(d: Draft)
    ensures Finish(d).Err? ==> IsLineReason(Finish(d).error)
  {
  }

  lemma FinishSound(d: Draft)
    requires Sound(d) && Finish(d).Ok?
    ensures var quiz := Finish(d).value;
      && quiz.title != []
      && 1 <= |quiz.questions| <= MaxQuestions
      && forall k :: 0 <= k < |quiz.questions| ==> WellFormed(quiz.questions[k])
  {
    CloseSound(d);
  }

  /** With every closed question well formed, closing never reports a
      numbered question. */
  lemma FinishNoPerQuestionError(d: Draft)
    requires Sound(d)
    ensures Finish(d).Err? ==> !Finish(d).error.InQuestion?
  {
    if Close(d).Ok? {
      CloseSound(d);
      var qs := Close(d).value.questions;
      assert forall k :: 0 <= k < |qs| ==> ValidateQuestion(qs[k]).Pass?;
    }
  }

  // The scan and the closing step together

  lemma ParseLinesReasons(lines: seq<string>)
    ensures ParseLines(lines).Err? ==> IsLineReason(ParseLines(lines).error)
  {
    ScanReasons(lines);
    if Scan(lines).Ok? {
      FinishReasons(Scan(lines).value);
    }
  }

  lemma ParseLinesWellFormed(lines: seq<string>)
    requires ParseLines(lines).Ok?
    ensures var quiz := ParseLines(lines).value;
      && quiz.title != []
      && 1 <= |quiz.questions| <= MaxQuestions
      && forall k :: 0 <= k < |quiz.questions| ==> WellFormed(quiz.questions[k])
  {
    ScanSound(lines);
    FinishSound(Scan(lines).value);
  }

  lemma ParseLinesNoPerQuestionError(lines: seq<string>)
    ensures ParseLines(lines).Err? ==> !ParseLines(lines).error.InQuestion?
  {
    ScanReasons(lines);
    ScanSound(lines);
    if Scan(lines).Ok? {
      FinishNoPerQuestionError(Scan(lines).value);
    }
  }

  lemma ParseLinesFollowBlocks(lines: seq<string>)
    requires ParseLines(lines).Ok?
    ensures ParseLines(lines).value.questions == Group(StrictItems(lines))
  {
    ScanBlocks(lines);
  }

  lemma ParseLinesHeaders(lines: seq<string>)
    requires ParseLines(lines).Ok?
    ensures ParseLines(lines).value.title == LastHeader(lines, TitleLine)
    ensures ParseLines(lines).value.description == LastHeader(lines, DescriptionLine)
  {
    ScanHeaders(lines);
  }

  lemma ParseLinesOrphanRejected(lines: seq<string>, k: nat)
    requires k < |lines|
    requires Classify(lines[k]) in {OptionLine, AnswerLine}
    requires forall m :: 0 <= m < k ==> Classify(lines[m]) in {TitleLine, DescriptionLine, OtherLine}
    ensures ParseLines(lines).Err?
    ensures ParseLines(lines).error ==
      if Classify(lines[k]) == OptionLine then OptionWithoutQuestion else AnswerWithoutQuestion
  {
    assert forall m :: 0 <= m < k ==> lines[..k][m] == lines[m];
    NoQuestionYet(lines[..k]);
    ScanSnoc(lines, k);
    ScanErrSticky(lines, k + 1);
  }

  // ---------------------------------------------------------------------
  // The parser's promises
  // ---------------------------------------------------------------------

  /** Text that is empty once leading byte-order marks and surrounding
      whitespace are gone is refused as empty, and only such text is. */
  lemma EmptyInputRejected(raw: string)
    ensures Parse(raw) == Err(ValidationError(EmptyText)) <==> Strip(DropLeading(raw, ByteOrderMark)) == []
  {
    var s := Strip(DropLeading(raw, ByteOrderMark));
    if s == [] {
      assert Sanitize(raw) == Escape([]);
    } else {
      assert |Sanitize(raw)| >= |s|;
      ParseLinesReasons(Lines(Sanitize(raw)));
    }
  }

  /** Non-empty text with fewer than five non-blank lines is refused as too
      short, before any line is classified, and only such text is. */
  lemma ShortInputRejected(raw: string)
    ensures Parse(raw) == Err(ValidationError(TooShort))
        <==> Sanitize(raw) != [] && |Lines(Sanitize(raw))| < MinLines
    ensures |Lines(Sanitize(raw))| == |VisiblePieces(Split(Sanitize(raw), '\n'))|
  {
    ParseLinesReasons(Lines(Sanitize(raw)));
    NonBlankLinesSpec(Split(Sanitize(raw), '\n'));
  }

  /** An option or answer line met while no question is open makes the
      whole text fail, with the reason that names that line. */
  lemma OrphanLineRejected(raw: string, k: nat)
    requires |Lines(Sanitize(raw))| >= MinLines
    requires k < |Lines(Sanitize(raw))|
    requires Classify(Lines(Sanitize(raw))[k]) in {OptionLine, AnswerLine}
    requires forall m :: 0 <= m < k ==>
               Classify(Lines(Sanitize(raw))[m]) in {TitleLine, DescriptionLine, OtherLine}
    ensures Parse(raw) == Err(ValidationError(
              if Classify(Lines(Sanitize(raw))[k]) == OptionLine then OptionWithoutQuestion
              else AnswerWithoutQuestion))
  {
    LinesOfEmpty();
    ParseLinesOrphanRejected(Lines(Sanitize(raw)), k);
  }

  /** An answer line whose text after the colon is a numeral, possibly
      after whitespace, stores that number minus one when it is at least 1,
      and is refused when it is 0. */
  lemma CorrectAnswerRoundTrip(head: string, pad: string, n: nat)
    requires ':' !in head
    requires forall k :: 0 <= k < |pad| ==> IsSpace(pad[k])
    ensures var r := ParseCorrectAnswer(head + ":" + (pad + Decimal(n)));
      if n >= 1 then r.Ok? && r.value == n - 1 else r.Err?
  {
    NumeralAfterPad(pad, n);
    AnswerAfterColon(head, pad + Decimal(n), n);
  }

  /** A negative stated number is refused. */
  lemma NegativeAnswerRejected(head: string, pad: string, n: nat)
    requires ':' !in head
    requires forall k :: 0 <= k < |pad| ==> IsSpace(pad[k])
    ensures ParseCorrectAnswer(head + ":" + (pad + ("-" + Decimal(n)))).Err?
  {
    NegativeNumeralAfterPad(pad, n);
    AnswerAfterColon(head, pad + ("-" + Decimal(n)), -(n as int));
  }

  lemma NumeralAfterPad(pad: string, n: nat)
    requires forall k :: 0 <= k < |pad| ==> IsSpace(pad[k])
    ensures ParseInt(Strip(pad + Decimal(n))) == Some(n)
  {
    var d := Decimal(n);
    DigitNotSpace(d[0]);
    DigitNotSpace(d[|d| - 1]);
    StripPadded(pad, d);
    ParseIntDecimal(n);
  }

  lemma NegativeNumeralAfterPad(pad: string, n: nat)
    requires forall k :: 0 <= k < |pad| ==> IsSpace(pad[k])
    ensures ParseInt(Strip(pad + ("-" + Decimal(n)))) == Some(-(n as int))
  {
    var d := "-" + Decimal(n);
    DigitNotSpace(d[|d| - 1]);
    StripPadded(pad, d);
    ParseIntDecimal(n);
  }

  lemma AnswerAfterColon(head: string, rest: string, n: int)
    requires ':' !in head
    requires ParseInt(Strip(rest)) == Some(n)
    ensures var r := ParseCorrectAnswer(head + ":" + rest);
      if n >= 1 then r.Ok? && r.value == n - 1 else r.Err?
  {
    var line := head + ":" + rest;
    assert line == head + [':'] + rest;
    AfterFirstAt(head, ':', rest);
    assert AfterColon(line) == Some(Strip(rest));
  }

  /** An accepted quiz has a title, between one and fifty questions, and
      every question has text, at least two options and an answer that
      indexes one of them. */
  lemma SuccessWellFormed(raw: string)
    requires Parse(raw).Ok?
    ensures var quiz := Parse(raw).value;
      && quiz.title != []
      && 1 <= |quiz.questions| <= MaxQuestions
      && forall k :: 0 <= k < |quiz.questions| ==> WellFormed(quiz.questions[k])
  {
    ParseLinesWellFormed(Lines(Sanitize(raw)));
  }

  /** The numbered per-question error of the final check never surfaces:
      every question was already validated when it was closed. */
  lemma NoPerQuestionError(raw: string)
    ensures Parse(raw).Err? ==> !Parse(raw).error.reason.InQuestion?
  {
    ParseLinesNoPerQuestionError(Lines(Sanitize(raw)));
  }

  /** The questions of an accepted quiz are the question blocks of its
      lines: one per question header, in the order of the headers, each
      with the options and the last answer that follow its header up to
      the next one. */
  lemma QuestionsFollowBlocks(raw: string)
    requires Parse(raw).Ok?
    ensures var lines := Lines(Sanitize(raw));
      && Parse(raw).value.questions == Group(StrictItems(lines))
      && |Parse(raw).value.questions| == QuestionLineCount(lines)
      && Texts(Parse(raw).value.questions) == HeaderTexts(StrictItems(lines))
  {
    var lines := Lines(Sanitize(raw));
    ParseLinesFollowBlocks(lines);
    GroupLength(StrictItems(lines));
    GroupTexts(StrictItems(lines));
    StrictHeaderCount(lines);
  }

  /** A repeated title or description line overwrites the earlier one. */
  lemma HeadersLastWins(raw: string)
    requires Parse(raw).Ok?
    ensures Parse(raw).value.title == LastHeader(Lines(Sanitize(raw)), TitleLine)
    ensures Parse(raw).value.description == LastHeader(Lines(Sanitize(raw)), DescriptionLine)
  {
    ParseLinesHeaders(Lines(Sanitize(raw)));
  }
}
