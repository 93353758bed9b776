/** The validating parser that turns the text an author sends into a quiz
    (`parse_quiz_text` in services/quiz_parser.py). The text is cleaned, cut
    into trimmed non-blank lines and scanned once from top to bottom with a
    cursor on the question being built; every question is validated when it
    is closed and the whole quiz once more at the end. */
module QuizParser {
  import opened Wrappers
  import opened PyStr
  import opened QuizModel

  /** Why quiz text was refused. The source raises a single exception type
      for all of them; the message it carries is what tells them apart. */
  datatype Reason =
    | EmptyText
    | TooShort
    | OptionWithoutQuestion
    | AnswerWithoutQuestion
    | QuestionLineWithoutColon
    | BadAnswerFormat
    | MalformedHeader(prefix: string)
    | EmptyQuestionText
    | TooFewOptions
    | MissingAnswer
    | AnswerOutOfRange(stated: int, count: nat)
    | MissingTitle
    | NoQuestions
    | TooManyQuestions(limit: nat)
    | InQuestion(index: nat, inner: Reason)

  /** The one error kind every failure of the parser is reported as. */
  datatype ValidationError = ValidationError(reason: Reason)

  const TitlePrefix: string := "Название"
  const DescriptionPrefix: string := "Описание"
  /** Fewer non-blank lines than this cannot make a quiz. */
  const MinLines: nat := 5
  const ByteOrderMark: char := '\U{FEFF}'

  // ---------------------------------------------------------------------
  // Cleaning and line classification
  // ---------------------------------------------------------------------

  /** Drop leading byte-order marks, strip surrounding whitespace, then
      HTML-escape. */
  function Sanitize(raw: string): (text: string)
    ensures text == [] <==> Strip(DropLeading(raw, ByteOrderMark)) == []
    ensures Unescape(text) == Strip(DropLeading(raw, ByteOrderMark))
  {
    UnescapeEscape(Strip(DropLeading(raw, ByteOrderMark)));
    Escape(Strip(DropLeading(raw, ByteOrderMark)))
  }

  /** The trimmed non-blank lines among `parts`, in order. */
  function NonBlankLines(parts: seq<string>): (lines: seq<string>)
    ensures |lines| <= |parts|
    ensures forall k :: 0 <= k < |lines| ==> lines[k] != []
    ensures forall k :: 0 <= k < |lines| ==> Strip(lines[k]) == lines[k]
    decreases |parts|
  {
    if |parts| == 0 then []
    else
      var line := Strip(parts[|parts| - 1]);
      StripIdempotent(parts[|parts| - 1]);
      NonBlankLines(parts[..|parts| - 1]) + (if line == [] then [] else [line])
  }

  /** The lines the scan visits. */
  function Lines(text: string): seq<string>
  {
    NonBlankLines(Split(text, '\n'))
  }

  /** The kinds of line the scan tells apart, tested in this order. */
  datatype LineKind = TitleLine | DescriptionLine | QuestionLine | OptionLine | AnswerLine | OtherLine

  /** `prefix:` or `prefix квиза:` opens the line. */
  predicate IsHeaderLine(line: string, prefix: string)
  {
    StartsWith(line, prefix + ":") || StartsWith(line, prefix + " квиза:")
  }

  /** The line starts with one or more decimal digits followed by a dot. */
  predicate IsOptionLine(line: string)
  {
    var n := DigitRun(line);
    0 < n < |line| && line[n] == '.'
  }

  /** The pattern `^\d+\.`: one or more digits, then a dot. */
  predicate NumberedAt(line: string, n: nat)
  {
    0 < n < |line| && line[n] == '.' && AllDigits(line[..n])
  }

  /** The digit run test is the regular expression's match. */
  lemma OptionLinePattern(line: string)
    ensures IsOptionLine(line) <==> exists n :: NumberedAt(line, n)
  {
    var r := DigitRun(line);
    if IsOptionLine(line) {
      assert NumberedAt(line, r);
    }
    forall n: nat | NumberedAt(line, n)
      ensures IsOptionLine(line)
    {
      if r < n {
        assert line[..n][r] == line[r];
      }
    }
  }

  /** A title or description line always contains its colon, so its value
      can always be read. */
  function Classify(line: string): (r: LineKind)
    ensures r == TitleLine || r == DescriptionLine ==> ':' in line
  {
    HeaderLineHasColon(line, TitlePrefix);
    HeaderLineHasColon(line, DescriptionPrefix);
    if IsHeaderLine(line, TitlePrefix) then TitleLine
    else if IsHeaderLine(line, DescriptionPrefix) then DescriptionLine
    else if StartsWith(line, "Вопрос") || StartsWith(line, "Question") then QuestionLine
    else if IsOptionLine(line) then OptionLine
    else if StartsWith(line, "Правильный ответ") || StartsWith(line, "Correct answer") then AnswerLine
    else OtherLine
  }

  // ---------------------------------------------------------------------
  // Line parsers
  // ---------------------------------------------------------------------

  /** The trimmed text after the first colon; `None` when the line has no
      colon, where taking the second piece of the split fails. */
  function AfterColon(line: string): (r: Option<string>)
    ensures r.None? <==> ':' !in line
    ensures r.Some? ==> exists k :: 0 <= k < |line| && line[k] == ':' && ':' !in line[..k]
                                    && r.value == Strip(line[k + 1..])
  {
    match AfterFirst(line, ':')
    case None => None
    case Some(rest) =>
      var k := |line| - |rest| - 1;
      assert line[k + 1..] == rest;
      Some(Strip(rest))
  }

  /** A title or description line always contains a colon. */
  lemma HeaderLineHasColon(line: string, prefix: string)
    ensures IsHeaderLine(line, prefix) ==> ':' in line
  {
    if StartsWith(line, prefix + ":") {
      assert line[|prefix|] == (prefix + ":")[|prefix|];
    } else if StartsWith(line, prefix + " квиза:") {
      var p := prefix + " квиза:";
      assert line[|p| - 1] == p[|p| - 1];
    }
  }

  /** The value of a title or description line. The failure branch exists
      in the source but cannot be taken for a line that was classified as a
      header, since such a line contains a colon. */
  function ParseHeader(line: string, prefix: string): (r: Result<string, Reason>)
    ensures r.Ok? <==> ':' in line
    ensures IsHeaderLine(line, prefix) ==> r.Ok?
    ensures r.Ok? ==> Some(r.value) == AfterColon(line)
    ensures r.Err? ==> r.error == MalformedHeader(prefix)
  {
    HeaderLineHasColon(line, prefix);
    match AfterColon(line)
    case None => Err(MalformedHeader(prefix))
    case Some(v) => Ok(v)
  }

  /** The text of a question header: what follows its first colon. A header
      without a colon is refused. */
  function ParseQuestionLine(line: string): (r: Result<string, Reason>)
    ensures r.Ok? <==> ':' in line
    ensures r.Ok? ==> Some(r.value) == AfterColon(line)
    ensures r.Err? ==> r.error == QuestionLineWithoutColon
  {
    match AfterColon(line)
    case None => Err(QuestionLineWithoutColon)
    case Some(v) => Ok(v)
  }

  /** In a numbered option line the first dot is the one after the number. */
  lemma OptionDotIsFirst(line: string)
    requires IsOptionLine(line)
    ensures AfterFirst(line, '.') == Some(line[DigitRun(line) + 1..])
  {
    var n := DigitRun(line);
    assert line == line[..n] + ['.'] + line[n + 1..];
    assert forall k :: 0 <= k < n ==> line[..n][k] != '.';
    AfterFirstAt(line[..n], '.', line[n + 1..]);
  }

  /** The text of an option line: what follows its first dot, trimmed; for
      a numbered option, what follows the number and its dot. */
  function ParseOptionLine(line: string): (r: string)
    requires '.' in line
    ensures IsOptionLine(line) ==> r == Strip(line[DigitRun(line) + 1..])
  {
    if IsOptionLine(line) then OptionDotIsFirst(line); Strip(AfterFirst(line, '.').value)
    else Strip(AfterFirst(line, '.').value)
  }

  /** The number an answer line states after its first colon, as `int()`
      reads it; `None` when there is no colon or no integer there. */
  function StatedNumber(line: string): Option<int>
  {
    match AfterColon(line)
    case None => None
    case Some(v) => ParseInt(v)
  }

  /** The 0-based index an answer line states: the stated number minus one.
      A missing colon, a non-integer or a number below 1 is refused. */
  function ParseCorrectAnswer(line: string): (r: Result<int, Reason>)
    ensures r.Ok? <==> StatedNumber(line).Some? && StatedNumber(line).value >= 1
    ensures r.Ok? ==> r.value >= 0 && r.value == StatedNumber(line).value - 1
    ensures r.Err? ==> r.error == BadAnswerFormat
  {
    match StatedNumber(line)
    case None => Err(BadAnswerFormat)
    case Some(n) => if n - 1 < 0 then Err(BadAnswerFormat) else Ok(n - 1)
  }

  // ---------------------------------------------------------------------
  // Validation
  // ---------------------------------------------------------------------

  /** The checks a question must pass when it is closed, in the source's
      order. On answers that are not negative, which are the only ones the
      parser stores, it passes exactly the well-formed questions. */
  function ValidateQuestion(q: Question): (r: Outcome<Reason>)
    ensures (q.correctAnswer.Some? ==> q.correctAnswer.value >= 0) ==> (r.Pass? <==> WellFormed(q))
    ensures r.Pass? ==> q.correctAnswer.Some?
    ensures q.text == [] ==> r == Fail(EmptyQuestionText)
  {
    if q.text == [] then Fail(EmptyQuestionText)
    else if |q.options| < 2 then Fail(TooFewOptions)
    else if q.correctAnswer.None? then Fail(MissingAnswer)
    else if q.correctAnswer.value >= |q.options| then
      Fail(AnswerOutOfRange(q.correctAnswer.value + 1, |q.options|))
    else Pass
  }

  /** The re-validation of every question from the `i`-th on, reporting the
      first failure with its 1-based position. */
  function CheckQuestionsFrom(qs: seq<Question>, i: nat): (r: Outcome<Reason>)
    requires i <= |qs|
    ensures r.Pass? <==> forall k :: i <= k < |qs| ==> ValidateQuestion(qs[k]).Pass?
    ensures r.Fail? ==> r.error.InQuestion? && i < r.error.index <= |qs|
                        && Fail(r.error.inner) == ValidateQuestion(qs[r.error.index - 1])
    ensures r.Fail? ==> forall k :: i <= k < r.error.index - 1 ==> ValidateQuestion(qs[k]).Pass?
    decreases |qs| - i
  {
    if i == |qs| then Pass
    else match ValidateQuestion(qs[i])
      case Fail(e) => Fail(InQuestion(i + 1, e))
      case Pass => CheckQuestionsFrom(qs, i + 1)
  }

  /** The final check of a whole quiz: a title, between one and
      `MaxQuestions` questions, and every question valid. */
  function StructureCheck(quiz: Quiz): (r: Outcome<Reason>)
    ensures r.Pass? <==> quiz.title != [] && 1 <= |quiz.questions| <= MaxQuestions
                         && forall k :: 0 <= k < |quiz.questions| ==> ValidateQuestion(quiz.questions[k]).Pass?
    ensures quiz.title == [] ==> r == Fail(MissingTitle)
    ensures quiz.title != [] && |quiz.questions| == 0 ==> r == Fail(NoQuestions)
    ensures quiz.title != [] && |quiz.questions| > MaxQuestions ==> r == Fail(TooManyQuestions(MaxQuestions))
  {
    if quiz.title == [] then Fail(MissingTitle)
    else if |quiz.questions| == 0 then Fail(NoQuestions)
    else if |quiz.questions| > MaxQuestions then Fail(TooManyQuestions(MaxQuestions))
    else CheckQuestionsFrom(quiz.questions, 0)
  }

  /** The final check as the source runs it, with a loop over the questions. */
  method ValidateQuizStructure(quiz: Quiz) returns (r: Outcome<Reason>)
    ensures r == StructureCheck(quiz)
  {
    if quiz.title == [] {
      return Fail(MissingTitle);
    }
    if |quiz.questions| == 0 {
      return Fail(NoQuestions);
    }
    if |quiz.questions| > MaxQuestions {
      return Fail(TooManyQuestions(MaxQuestions));
    }
    var qs := quiz.questions;
    for i := 0 to |qs|
      invariant CheckQuestionsFrom(qs, i) == CheckQuestionsFrom(qs, 0)
    {
      var v := ValidateQuestion(qs[i]);
      if v.Fail? {
        return Fail(InQuestion(i + 1, v.error));
      }
    }
    return Pass;
  }

  // ---------------------------------------------------------------------
  // The scan
  // ---------------------------------------------------------------------

  /** What the scan has built so far: the headers seen, the questions
      already closed and the question still being filled in. */
  datatype Draft = Draft(title: string, description: string, questions: seq<Question>, current: Option<Question>)

  const Start: Draft := Draft([], [], [], None)

  /** Validate the open question, if any, and move it to the closed ones. */
  function Close(d: Draft): (r: Result<Draft, Reason>)
    ensures r.Ok? ==> r.value.current.None? && r.value.title == d.title
                      && r.value.description == d.description
    ensures r.Ok? ==> r.value.questions == d.questions + (if d.current.Some? then [d.current.value] else [])
    ensures r.Err? ==> d.current.Some? && ValidateQuestion(d.current.value) == Fail(r.error)
  {
    match d.current
    case None => Ok(d)
    case Some(q) =>
      match ValidateQuestion(q)
      case Fail(e) => Err(e)
      case Pass => Ok(d.(questions := d.questions + [q], current := None))
  }

  /** One line of the scan. */
  function Step(d: Draft, line: string): Result<Draft, Reason>
  {
    match Classify(line)
    case TitleLine =>
      var t :- ParseHeader(line, TitlePrefix);
      Ok(d.(title := t))
    case DescriptionLine =>
      var t :- ParseHeader(line, DescriptionPrefix);
      Ok(d.(description := t))
    case QuestionLine =>
      var closed :- Close(d);
      var text :- ParseQuestionLine(line);
      Ok(closed.(current := Some(Question(text, [], None))))
    case OptionLine =>
      if d.current.None? then Err(OptionWithoutQuestion)
      else
        assert line[DigitRun(line)] == '.';
        var q := d.current.value;
        Ok(d.(current := Some(q.(options := q.options + [ParseOptionLine(line)]))))
    case AnswerLine =>
      if d.current.None? then Err(AnswerWithoutQuestion)
      else
        var a :- ParseCorrectAnswer(line);
        Ok(d.(current := Some(d.current.value.(correctAnswer := Some(a)))))
    case OtherLine => Ok(d)
  }

  /** The scan over a sequence of lines, stopping at the first failure. */
  function Scan(lines: seq<string>): Result<Draft, Reason>
    decreases |lines|
  {
    if |lines| == 0 then Ok(Start)
    else
      var d :- Scan(lines[..|lines| - 1]);
      Step(d, lines[|lines| - 1])
  }

  /** Close the last question and check the whole quiz. */
  function Finish(d: Draft): Result<Quiz, Reason>
  {
    var closed :- Close(d);
    var quiz := Quiz(closed.title, closed.description, closed.questions);
    match StructureCheck(quiz)
    case Fail(e) => Err(e)
    case Pass => Ok(quiz)
  }

  /** The scan and the closing checks over the lines of a text. */
  function ParseLines(lines: seq<string>): Result<Quiz, Reason>
  {
    var d :- Scan(lines);
    Finish(d)
  }

  /** `parse_quiz_text`: the quiz the text describes, or why it is refused. */
  function Parse(raw: string): Result<Quiz, ValidationError>
  {
    var text := Sanitize(raw);
    if text == [] then Err(ValidationError(EmptyText))
    else
      var lines := Lines(text);
      if |lines| < MinLines then Err(ValidationError(TooShort))
      else match ParseLines(lines)
        case Err(e) => Err(ValidationError(e))
        case Ok(quiz) => Ok(quiz)
  }

  lemma ScanSnoc(lines: seq<string>, i: nat)
    requires i < |lines|
    ensures Scan(lines[..i + 1]) ==
      match Scan(lines[..i]) case Err(e) => Err(e) case Ok(d) => Step(d, lines[i])
  {
    assert lines[..i + 1][..i] == lines[..i];
  }

  /** Once a prefix of the lines fails, the whole scan fails the same way:
      no partial result survives a failure. */
  lemma {:induction false} ScanErrSticky(lines: seq<string>, i: nat)
    requires i <= |lines| && Scan(lines[..i]).Err?
    ensures Scan(lines) == Scan(lines[..i])
    decreases |lines| - i
  {
    if i == |lines| {
      assert lines[..i] == lines;
    } else {
      ScanSnoc(lines, i);
      ScanErrSticky(lines, i + 1);
    }
  }

  /** One pass of the scan loop as the source runs it: the title or the
      description is overwritten, the open question is validated and
      appended, or the open question gets an option or an answer. */
  method ScanLine(d: Draft, line: string) returns (r: Result<Draft, Reason>)
    ensures r == Step(d, line)
  {
    var title, description, questions, current := d.title, d.description, d.questions, d.current;
    match Classify(line) {
      case TitleLine =>
        // A classified header holds a colon, so reading its value cannot fail.
        var h := ParseHeader(line, TitlePrefix);
        title := h.value;
      case DescriptionLine =>
        // A classified header holds a colon, so reading its value cannot fail.
        var h := ParseHeader(line, DescriptionPrefix);
        description := h.value;
      case QuestionLine =>
        if current.Some? {
          var v := ValidateQuestion(current.value);
          if v.Fail? {
            return Err(v.error);
          }
          questions := questions + [current.value];
        }
        var t := ParseQuestionLine(line);
        if t.Err? {
          return Err(t.error);
        }
        current := Some(Question(t.value, [], None));
      case OptionLine =>
        if current.None? {
          return Err(OptionWithoutQuestion);
        }
        assert line[DigitRun(line)] == '.';
        var option := ParseOptionLine(line);
        current := Some(current.value.(options := current.value.options + [option]));
      case AnswerLine =>
        if current.None? {
          return Err(AnswerWithoutQuestion);
        }
        var a := ParseCorrectAnswer(line);
        if a.Err? {
          return Err(a.error);
        }
        current := Some(current.value.(correctAnswer := Some(a.value)));
      case OtherLine =>
    }
    return Ok(Draft(title, description, questions, current));
  }

  /** The scan loop, which stops at the first line that fails. */
  method ScanLines(lines: seq<string>) returns (r: Result<Draft, Reason>)
    ensures r == Scan(lines)
  {
    var d := Start;
    var i := 0;
    while i < |lines|
      invariant 0 <= i <= |lines|
      invariant Scan(lines[..i]) == Ok(d)
    {
      ScanSnoc(lines, i);
      var next := ScanLine(d, lines[i]);
      if next.Err? {
        ScanErrSticky(lines, i + 1);
        return next;
      }
      d := next.value;
      i := i + 1;
    }
    assert lines[..i] == lines;
    return Ok(d);
  }

  /** `parse_quiz_text` as the source runs it: the up-front checks, the
      scan, closing the last question and the final check. */
  method ParseQuizText(raw: string) returns (r: Result<Quiz, ValidationError>)
    ensures r == Parse(raw)
  {
    var text := Sanitize(raw);
    if text == [] {
      return Err(ValidationError(EmptyText));
    }
    var lines := Lines(text);
    if |lines| < MinLines {
      return Err(ValidationError(TooShort));
    }
    var scanned := ScanLines(lines);
    if scanned.Err? {
      return Err(ValidationError(scanned.error));
    }
    var quiz := FinishDraft(scanned.value);
    if quiz.Err? {
      return Err(ValidationError(quiz.error));
    }
    return Ok(quiz.value);
  }

  /** Closing the last question and the final check, as the source runs them. */
  method FinishDraft(d: Draft) returns (r: Result<Quiz, Reason>)
    ensures r == Finish(d)
  {
    var questions := d.questions;
    if d.current.Some? {
      var v := ValidateQuestion(d.current.value);
      if v.Fail? {
        return Err(v.error);
      }
      questions := questions + [d.current.value];
    }
    var quiz := Quiz(d.title, d.description, questions);
    var check := ValidateQuizStructure(quiz);
    if check.Fail? {
      return Err(check.error);
    }
    return Ok(quiz);
  }
}
