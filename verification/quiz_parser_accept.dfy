/** Which texts the validating parser accepts, and the quiz it returns for
    them; and the reason the final check gives when a scanned text has no
    title or a wrong number of questions. */
module ParserAcceptance {
  import opened Wrappers
  import opened PyStr
  import opened QuizModel
  import opened QuizParser
  import opened ParserProperties

  // ---------------------------------------------------------------------
  // The blocks of a prefix
  // ---------------------------------------------------------------------

  /** The questions of a prefix of the items agree with those of the whole
      sequence, all but the last, which may still grow. */
  lemma {:induction false} GroupPrefix(items: seq<Item>, j: nat)
    requires j <= |items|
    ensures |Group(items[..j])| <= |Group(items)|
    ensures var g := Group(items[..j]);
      |g| > 0 ==> g[..|g| - 1] == Group(items)[..|g| - 1]
    decreases |items|
  {
    if j < |items| {
      var init, it := items[..|items| - 1], items[|items| - 1];
      assert items == init + [it];
      assert init[..j] == items[..j];
      GroupPrefix(init, j);
      var g, g0 := Group(items[..j]), Group(init);
      if it.Header? {
        GroupSnocHeader(init, it);
        if |g| > 0 {
          assert Group(items)[..|g| - 1] == g0[..|g| - 1];
        }
      } else {
        GroupSnocOther(init, it);
        if |g| > 0 {
          assert Group(items)[..|g| - 1] == g0[..|g0| - 1][..|g| - 1];
        }
      }
    } else {
      assert items[..j] == items;
    }
  }

  /** Before a header, every question of the prefix is complete: the
      prefix's questions are the first questions of the whole sequence. */
  lemma ClosedBlocks(items: seq<Item>, j: nat)
    requires j < |items| && items[j].Header?
    ensures |Group(items[..j])| < |Group(items)|
    ensures Group(items[..j]) == Group(items)[..|Group(items[..j])|]
  {
    var g := Group(items[..j]);
    var q := Question(items[j].text, [], None);
    assert items[..j + 1] == items[..j] + [items[j]];
    GroupSnocHeader(items[..j], items[j]);
    GroupPrefix(items, j + 1);
    assert (g + [q])[..|g|] == g;
  }

  lemma {:induction false} StrictItemsPrefix(lines: seq<string>, j: nat)
    requires j <= |lines|
    ensures StrictItems(lines[..j]) == StrictItems(lines)[..j]
    decreases |lines|
  {
    if j < |lines| {
      var init := lines[..|lines| - 1];
      assert init[..j] == lines[..j];
      StrictItemsPrefix(init, j);
    } else {
      assert lines[..j] == lines;
    }
  }

  lemma StrictItemAt(lines: seq<string>, i: nat)
    requires i < |lines|
    ensures StrictItems(lines)[i] == StrictItem(lines[i])
  {
    StrictItemsPrefix(lines, i + 1);
    assert lines[..i + 1][..i] == lines[..i];
    assert StrictItems(lines)[..i + 1][i] == StrictItems(lines)[i];
  }

  /** A question has been opened once some question line was read. */
  lemma OpenAfterQuestionLine(lines: seq<string>)
    requires Scan(lines).Ok?
    ensures Scan(lines).value.current.Some? <==> QuestionLineCount(lines) > 0
  {
    ScanBlocks(lines);
    StrictHeaderCount(lines);
    GroupLength(StrictItems(lines));
  }

  // ---------------------------------------------------------------------
  // The accepted line sequences
  // ---------------------------------------------------------------------

  /** Every line can be read where it stands: options and answers follow a
      question line, question lines hold a colon, answer lines state a
      number of at least 1. */
  predicate LinesReadable(lines: seq<string>)
  {
    && (forall k :: 0 <= k < |lines| && Classify(lines[k]) in {OptionLine, AnswerLine} ==>
          QuestionLineCount(lines[..k]) > 0)
    && (forall k :: 0 <= k < |lines| && Classify(lines[k]) == QuestionLine ==> ':' in lines[k])
    && (forall k :: 0 <= k < |lines| && Classify(lines[k]) == AnswerLine ==> ParseCorrectAnswer(lines[k]).Ok?)
  }

  /** Every question block of the lines is well formed. */
  predicate BlocksWellFormed(lines: seq<string>)
  {
    forall k :: 0 <= k < |Group(StrictItems(lines))| ==> WellFormed(Group(StrictItems(lines))[k])
  }

  /** A line sequence the parser accepts: readable lines, well-formed
      question blocks, a non-empty title and 1 to `MaxQuestions` question
      lines. */
  predicate Acceptable(lines: seq<string>)
  {
    && LinesReadable(lines)
    && BlocksWellFormed(lines)
    && LastHeader(lines, TitleLine) != []
    && 1 <= QuestionLineCount(lines) <= MaxQuestions
  }

  /** The quiz an acceptable line sequence describes. */
  function QuizOf(lines: seq<string>): Quiz
  {
    Quiz(LastHeader(lines, TitleLine), LastHeader(lines, DescriptionLine), Group(StrictItems(lines)))
  }

  /** An option or a readable answer line is taken while a question is
      open. */
  lemma StepIntoQuestion(d: Draft, line: string)
    requires d.current.Some?
    requires Classify(line) == OptionLine || (Classify(line) == AnswerLine && ParseCorrectAnswer(line).Ok?)
    ensures Step(d, line).Ok?
  {
  }

  /** A question line with a colon is taken when the open question, if any,
      is well formed. */
  lemma StepQuestionLine(d: Draft, line: string)
    requires Classify(line) == QuestionLine && ':' in line
    requires d.current.Some? ==> WellFormed(d.current.value)
    ensures Step(d, line).Ok?
  {
    assert Close(d).Ok?;
  }

  /** A step that is taken found its line readable. */
  lemma StepReadable(d: Draft, line: string)
    requires Step(d, line).Ok?
    ensures Classify(line) in {OptionLine, AnswerLine} ==> d.current.Some?
    ensures Classify(line) == QuestionLine ==> ':' in line
    ensures Classify(line) == AnswerLine ==> ParseCorrectAnswer(line).Ok?
  {
    match Classify(line) {
      case QuestionLine =>
      case _ =>
    }
  }

  /** The open question before a question line is a complete block of the
      whole sequence. */
  lemma OpenBlockComplete(lines: seq<string>, i: nat)
    requires BlocksWellFormed(lines)
    requires i < |lines| && Classify(lines[i]) == QuestionLine
    requires Scan(lines[..i]).Ok? && Scan(lines[..i]).value.current.Some?
    ensures WellFormed(Scan(lines[..i]).value.current.value)
  {
    var d := Scan(lines[..i]).value;
    var items := StrictItems(lines);
    ScanBlocks(lines[..i]);
    StrictItemsPrefix(lines, i);
    StrictItemAt(lines, i);
    assert items[i].Header?;
    ClosedBlocks(items, i);
    var g := Group(items[..i]);
    assert d.current.value == g[|g| - 1] == Group(items)[|g| - 1];
  }

  /** One readable line more keeps the scan going. */
  lemma ScanStepAccepted(lines: seq<string>, i: nat)
    requires LinesReadable(lines) && BlocksWellFormed(lines)
    requires i < |lines| && Scan(lines[..i]).Ok?
    ensures Scan(lines[..i + 1]).Ok?
  {
    var pre, line := lines[..i], lines[i];
    var d := Scan(pre).value;
    ScanSnoc(lines, i);
    var kind := Classify(line);
    if kind == OptionLine || kind == AnswerLine {
      OpenAfterQuestionLine(pre);
      StepIntoQuestion(d, line);
    } else if kind == QuestionLine {
      if d.current.Some? {
        OpenBlockComplete(lines, i);
      }
      StepQuestionLine(d, line);
    } else {
      StepQuiet(d, line);
    }
  }

  lemma {:induction false} ScanAccepted(lines: seq<string>, i: nat)
    requires LinesReadable(lines) && BlocksWellFormed(lines)
    requires i <= |lines|
    ensures Scan(lines[..i]).Ok?
    decreases i
  {
    if i > 0 {
      ScanAccepted(lines, i - 1);
      ScanStepAccepted(lines, i - 1);
    } else {
      assert lines[..0] == [];
    }
  }

  /** Closing the scan's draft and checking the quiz accept it when its
      blocks are well formed, titled and 1 to `MaxQuestions` many. */
  lemma FinishAccepted(d: Draft, g: seq<Question>)
    requires d.questions + Pending(d) == g
    requires forall k :: 0 <= k < |g| ==> WellFormed(g[k])
    requires d.title != [] && 1 <= |g| <= MaxQuestions
    ensures Finish(d) == Ok(Quiz(d.title, d.description, g))
  {
    if d.current.Some? {
      assert d.current.value == g[|g| - 1];
    }
    assert Close(d).Ok? && Close(d).value.questions == g;
    assert StructureCheck(Quiz(d.title, d.description, g)).Pass?;
  }

  /** An acceptable line sequence is accepted, and gives the quiz of its
      question blocks with the last title and description. */
  lemma ParseLinesAccepted(lines: seq<string>)
    requires Acceptable(lines)
    ensures ParseLines(lines) == Ok(QuizOf(lines))
  {
    ScanAccepted(lines, |lines|);
    assert lines[..|lines|] == lines;
    var d := Scan(lines).value;
    ScanBlocks(lines);
    ScanHeaders(lines);
    StrictHeaderCount(lines);
    GroupLength(StrictItems(lines));
    FinishAccepted(d, Group(StrictItems(lines)));
  }

  /** Where the scan succeeds, its last line could be read from the scan
      of the lines before it. */
  lemma ScanLastReadable(lines: seq<string>)
    requires Scan(lines).Ok? && |lines| > 0
    ensures var init, last := lines[..|lines| - 1], lines[|lines| - 1];
      && Scan(init).Ok?
      && (Classify(last) in {OptionLine, AnswerLine} ==> Scan(init).value.current.Some?)
      && (Classify(last) == QuestionLine ==> ':' in last)
      && (Classify(last) == AnswerLine ==> ParseCorrectAnswer(last).Ok?)
  {
    StepReadable(Scan(lines[..|lines| - 1]).value, lines[|lines| - 1]);
  }

  /** Readable lines stay readable when a line that is readable after them
      is added. */
  lemma ReadableSnoc(lines: seq<string>)
    requires |lines| > 0
    requires var init, last := lines[..|lines| - 1], lines[|lines| - 1];
      && LinesReadable(init)
      && (Classify(last) in {OptionLine, AnswerLine} ==> QuestionLineCount(init) > 0)
      && (Classify(last) == QuestionLine ==> ':' in last)
      && (Classify(last) == AnswerLine ==> ParseCorrectAnswer(last).Ok?)
    ensures LinesReadable(lines)
  {
    var init, n := lines[..|lines| - 1], |lines| - 1;
    forall k | 0 <= k < |lines| && Classify(lines[k]) in {OptionLine, AnswerLine}
      ensures QuestionLineCount(lines[..k]) > 0
    {
      if k < n {
        assert lines[k] == init[k] && lines[..k] == init[..k];
      } else {
        assert lines[..k] == init;
      }
    }
    forall k | 0 <= k < |lines| && Classify(lines[k]) == QuestionLine
      ensures ':' in lines[k]
    {
      if k < n {
        assert lines[k] == init[k];
      }
    }
    forall k | 0 <= k < |lines| && Classify(lines[k]) == AnswerLine
      ensures ParseCorrectAnswer(lines[k]).Ok?
    {
      if k < n {
        assert lines[k] == init[k];
      }
    }
  }

  /** Where the scan succeeds, every line was readable where it stands. */
  lemma {:induction false} ScanReadable(lines: seq<string>)
    requires Scan(lines).Ok?
    ensures LinesReadable(lines)
    decreases |lines|
  {
    if |lines| > 0 {
      var init := lines[..|lines| - 1];
      ScanLastReadable(lines);
      OpenAfterQuestionLine(init);
      ScanReadable(init);
      ReadableSnoc(lines);
    }
  }

  /** Only acceptable line sequences are accepted. */
  lemma ParseLinesAcceptedOnly(lines: seq<string>)
    requires ParseLines(lines).Ok?
    ensures Acceptable(lines)
  {
    ParseLinesWellFormed(lines);
    ParseLinesFollowBlocks(lines);
    ParseLinesHeaders(lines);
    StrictHeaderCount(lines);
    GroupLength(StrictItems(lines));
    ScanReadable(lines);
  }

  /** `parse_quiz_text` accepts exactly the texts that are not empty, have
      at least five non-blank lines and whose lines are acceptable; it then
      returns the quiz of their question blocks, in input order. */
  lemma ParseAccepted(raw: string)
    ensures var lines := Lines(Sanitize(raw));
      Parse(raw).Ok? <==> Sanitize(raw) != [] && |lines| >= MinLines && Acceptable(lines)
    ensures Parse(raw).Ok? ==> Parse(raw).value == QuizOf(Lines(Sanitize(raw)))
  {
    var lines := Lines(Sanitize(raw));
    if Sanitize(raw) != [] && |lines| >= MinLines {
      if Acceptable(lines) {
        ParseLinesAccepted(lines);
      }
      if ParseLines(lines).Ok? {
        ParseLinesAcceptedOnly(lines);
      }
    }
  }

  /** An accepted text with `n` question lines gives exactly `n` questions,
      the i-th carrying the text of the i-th question line. */
  lemma AcceptedQuestionCount(raw: string)
    requires Parse(raw).Ok?
    ensures |Parse(raw).value.questions| == QuestionLineCount(Lines(Sanitize(raw)))
    ensures Texts(Parse(raw).value.questions) == HeaderTexts(StrictItems(Lines(Sanitize(raw))))
  {
    var lines := Lines(Sanitize(raw));
    ParseAccepted(raw);
    StrictHeaderCount(lines);
    GroupLength(StrictItems(lines));
    GroupTexts(StrictItems(lines));
  }

  // ---------------------------------------------------------------------
  // The reasons of the final check
  // ---------------------------------------------------------------------

  /** Once every line is scanned and the last question passes, a missing
      title is reported first, then a quiz without questions, then one over
      the limit. */
  lemma ParseLinesStructureReasons(lines: seq<string>)
    requires Scan(lines).Ok? && Close(Scan(lines).value).Ok?
    ensures LastHeader(lines, TitleLine) == [] ==> ParseLines(lines) == Err(MissingTitle)
    ensures LastHeader(lines, TitleLine) != [] && QuestionLineCount(lines) == 0 ==>
      ParseLines(lines) == Err(NoQuestions)
    ensures LastHeader(lines, TitleLine) != [] && QuestionLineCount(lines) > MaxQuestions ==>
      ParseLines(lines) == Err(TooManyQuestions(MaxQuestions))
  {
    ScanBlocks(lines);
    ScanHeaders(lines);
    StrictHeaderCount(lines);
    GroupLength(StrictItems(lines));
    var d := Scan(lines).value;
    assert Close(d).value.questions == Group(StrictItems(lines));
  }

  /** The same at the level of the whole text: a text without a title is
      refused for its title, and one with more than `MaxQuestions`
      questions for the limit. */
  lemma StructureRejected(raw: string)
    requires Sanitize(raw) != [] && |Lines(Sanitize(raw))| >= MinLines
    requires var lines := Lines(Sanitize(raw));
      Scan(lines).Ok? && Close(Scan(lines).value).Ok?
    ensures var lines := Lines(Sanitize(raw));
      LastHeader(lines, TitleLine) == [] ==> Parse(raw) == Err(ValidationError(MissingTitle))
    ensures var lines := Lines(Sanitize(raw));
      LastHeader(lines, TitleLine) != [] && QuestionLineCount(lines) == 0 ==>
        Parse(raw) == Err(ValidationError(NoQuestions))
    ensures var lines := Lines(Sanitize(raw));
      LastHeader(lines, TitleLine) != [] && QuestionLineCount(lines) > MaxQuestions ==>
        Parse(raw) == Err(ValidationError(TooManyQuestions(MaxQuestions)))
  {
    ParseLinesStructureReasons(Lines(Sanitize(raw)));
  }

  // ---------------------------------------------------------------------
  // A quiz with one question
  // ---------------------------------------------------------------------

  /** A value that the parser reads back unchanged after `: ` or `. `: not
      empty, and neither starting nor ending in whitespace. */
  predicate Trimmed(v: string)
  {
    v != [] && !IsSpace(v[0]) && !IsSpace(v[|v| - 1])
  }

  /** After a colon and one space, a trimmed value is read back as it is. */
  lemma ValueAfterColon(head: string, v: string)
    requires ':' !in head && Trimmed(v)
    ensures AfterColon(head + ": " + v) == Some(v)
  {
    assert head + ": " + v == head + [':'] + (" " + v);
    AfterFirstAt(head, ':', " " + v);
    StripPadded(" ", v);
  }

  /** `Название: t` sets the title to `t`. */
  lemma TitleStep(d: Draft, t: string)
    requires Trimmed(t)
    ensures Step(d, TitlePrefix + ": " + t) == Ok(d.(title := t))
  {
    var line := TitlePrefix + ": " + t;
    assert line[..|TitlePrefix + ":"|] == TitlePrefix + ":";
    ValueAfterColon(TitlePrefix, t);
    assert Classify(line) == TitleLine;
  }

  /** `Описание: s` sets the description to `s`. */
  lemma DescriptionStep(d: Draft, s: string)
    requires Trimmed(s)
    ensures Step(d, DescriptionPrefix + ": " + s) == Ok(d.(description := s))
  {
    var line := DescriptionPrefix + ": " + s;
    assert line[0] == 'О';
    FirstCharBars(line, TitlePrefix + ":");
    FirstCharBars(line, TitlePrefix + " квиза:");
    assert line[..|DescriptionPrefix + ":"|] == DescriptionPrefix + ":";
    ValueAfterColon(DescriptionPrefix, s);
    assert Classify(line) == DescriptionLine;
  }

  /** `Вопрос 1: q` is a question line with the text `q`. */
  lemma QuestionLineOf(q: string)
    requires Trimmed(q)
    ensures Classify("Вопрос 1: " + q) == QuestionLine
    ensures ParseQuestionLine("Вопрос 1: " + q) == Ok(q)
  {
    var line := "Вопрос 1: " + q;
    assert line[0] == 'В';
    NotHeaderByFirst(line);
    assert line[..|"Вопрос"|] == "Вопрос";
    assert line == "Вопрос 1" + ": " + q;
    ValueAfterColon("Вопрос 1", q);
  }

  /** `Вопрос 1: q` opens a question `q` when none is open. */
  lemma QuestionStep(d: Draft, q: string)
    requires Trimmed(q) && d.current.None?
    ensures Step(d, "Вопрос 1: " + q) == Ok(d.(current := Some(Question(q, [], None))))
  {
    QuestionLineOf(q);
  }

  /** An option line `c. a` numbered with one digit adds the option `a` to
      the open question. */
  lemma OptionStep(d: Draft, c: char, a: string)
    requires IsDigit(c) && Trimmed(a) && d.current.Some?
    ensures var q := d.current.value;
      Step(d, [c] + ". " + a) == Ok(d.(current := Some(q.(options := q.options + [a]))))
  {
    var line := [c] + ". " + a;
    assert line[0] == c && line[1] == '.';
    NotHeaderByFirst(line);
    FirstCharBars(line, "Вопрос");
    FirstCharBars(line, "Question");
    assert DigitRun(line[1..]) == 0;
    assert DigitRun(line) == 1;
    assert line[2..] == " " + a;
    StripPadded(" ", a);
    assert Classify(line) == OptionLine;
  }

  /** `Правильный ответ: 2` is an answer line stating the second option. */
  lemma SecondAnswerLine()
    ensures Classify("Правильный ответ: 2") == AnswerLine
  {
    var line := "Правильный ответ: 2";
    NotHeaderByFirst(line);
    FirstCharBars(line, "Вопрос");
    FirstCharBars(line, "Question");
    assert DigitRun(line) == 0;
    assert line[..|"Правильный ответ"|] == "Правильный ответ";
  }

  /** The index `Правильный ответ: 2` stores is 1. */
  lemma SecondAnswerValue()
    ensures ParseCorrectAnswer("Правильный ответ: 2") == Ok(1)
  {
    assert Decimal(2) == "2";
    assert "Правильный ответ: 2" == "Правильный ответ" + ":" + (" " + Decimal(2));
    CorrectAnswerRoundTrip("Правильный ответ", " ", 2);
  }

  /** `Правильный ответ: 2` marks the second option of the open question
      as the correct one. */
  lemma SecondAnswerStep(d: Draft)
    requires d.current.Some?
    ensures Step(d, "Правильный ответ: 2")
      == Ok(d.(current := Some(d.current.value.(correctAnswer := Some(1)))))
  {
    SecondAnswerLine();
    SecondAnswerValue();
  }

  // Each kind of line, one step further into a scan that has reached `d`.
  // The lines are left abstract here: only the one being read is pinned.

  lemma ScanTitle(lines: seq<string>, i: nat, d: Draft, t: string)
    requires i < |lines| && lines[i] == TitlePrefix + ": " + t && Trimmed(t)
    requires Scan(lines[..i]) == Ok(d)
    ensures Scan(lines[..i + 1]) == Ok(d.(title := t))
  {
    TitleStep(d, t);
    ScanSnoc(lines, i);
  }

  lemma ScanDescription(lines: seq<string>, i: nat, d: Draft, s: string)
    requires i < |lines| && lines[i] == DescriptionPrefix + ": " + s && Trimmed(s)
    requires Scan(lines[..i]) == Ok(d)
    ensures Scan(lines[..i + 1]) == Ok(d.(description := s))
  {
    DescriptionStep(d, s);
    ScanSnoc(lines, i);
  }

  lemma ScanQuestion(lines: seq<string>, i: nat, d: Draft, q: string)
    requires i < |lines| && lines[i] == "Вопрос 1: " + q && Trimmed(q)
    requires Scan(lines[..i]) == Ok(d) && d.current.None?
    ensures Scan(lines[..i + 1]) == Ok(d.(current := Some(Question(q, [], None))))
  {
    QuestionStep(d, q);
    ScanSnoc(lines, i);
  }

  lemma ScanOption(lines: seq<string>, i: nat, d: Draft, c: char, a: string)
    requires i < |lines| && lines[i] == [c] + ". " + a && IsDigit(c) && Trimmed(a)
    requires Scan(lines[..i]) == Ok(d) && d.current.Some?
    ensures var q := d.current.value;
      Scan(lines[..i + 1]) == Ok(d.(current := Some(q.(options := q.options + [a]))))
  {
    OptionStep(d, c, a);
    ScanSnoc(lines, i);
  }

  lemma ScanSecondAnswer(lines: seq<string>, i: nat, d: Draft)
    requires i < |lines| && lines[i] == "Правильный ответ: 2"
    requires Scan(lines[..i]) == Ok(d) && d.current.Some?
    ensures Scan(lines[..i + 1]) == Ok(d.(current := Some(d.current.value.(correctAnswer := Some(1)))))
  {
    SecondAnswerStep(d);
    ScanSnoc(lines, i);
  }

  /** The lines of a quiz with a title, a description and one question
      with two options, the second of them correct. */
  predicate OneQuestionText(lines: seq<string>, t: string, s: string, q: string, a: string, b: string)
  {
    && |lines| == 6
    && lines[0] == TitlePrefix + ": " + t && lines[1] == DescriptionPrefix + ": " + s
    && lines[2] == "Вопрос 1: " + q && lines[3] == "1. " + a && lines[4] == "2. " + b
    && lines[5] == "Правильный ответ: 2"
  }

  // The scan of such lines, one line at a time; each lemma pins only the
  // lines read so far.

  lemma OneQuestionTitle(lines: seq<string>, t: string)
    requires 1 <= |lines| && lines[0] == TitlePrefix + ": " + t && Trimmed(t)
    ensures Scan(lines[..1]) == Ok(Draft(t, [], [], None))
  {
    assert lines[..0] == [];
    ScanTitle(lines, 0, Start, t);
  }

  lemma OneQuestionHeaders(lines: seq<string>, t: string, s: string)
    requires 2 <= |lines| && lines[0] == TitlePrefix + ": " + t && Trimmed(t)
    requires lines[1] == DescriptionPrefix + ": " + s && Trimmed(s)
    ensures Scan(lines[..2]) == Ok(Draft(t, s, [], None))
  {
    OneQuestionTitle(lines, t);
    ScanDescription(lines, 1, Draft(t, [], [], None), s);
  }

  lemma OneQuestionOpened(lines: seq<string>, t: string, s: string, q: string)
    requires 3 <= |lines| && lines[0] == TitlePrefix + ": " + t && Trimmed(t)
    requires lines[1] == DescriptionPrefix + ": " + s && Trimmed(s)
    requires lines[2] == "Вопрос 1: " + q && Trimmed(q)
    ensures Scan(lines[..3]) == Ok(Draft(t, s, [], Some(Question(q, [], None))))
  {
    OneQuestionHeaders(lines, t, s);
    ScanQuestion(lines, 2, Draft(t, s, [], None), q);
  }

  lemma OneQuestionFirstOption(lines: seq<string>, t: string, s: string, q: string, a: string)
    requires 4 <= |lines| && lines[0] == TitlePrefix + ": " + t && Trimmed(t)
    requires lines[1] == DescriptionPrefix + ": " + s && Trimmed(s)
    requires lines[2] == "Вопрос 1: " + q && Trimmed(q)
    requires lines[3] == "1. " + a && Trimmed(a)
    ensures Scan(lines[..4]) == Ok(Draft(t, s, [], Some(Question(q, [a], None))))
  {
    OneQuestionOpened(lines, t, s, q);
    assert lines[3] == ['1'] + ". " + a;
    assert [] + [a] == [a];
    ScanOption(lines, 3, Draft(t, s, [], Some(Question(q, [], None))), '1', a);
  }

  lemma OneQuestionSecondOption(lines: seq<string>, t: string, s: string, q: string, a: string, b: string)
    requires 5 <= |lines| && lines[0] == TitlePrefix + ": " + t && Trimmed(t)
    requires lines[1] == DescriptionPrefix + ": " + s && Trimmed(s)
    requires lines[2] == "Вопрос 1: " + q && Trimmed(q)
    requires lines[3] == "1. " + a && Trimmed(a)
    requires lines[4] == "2. " + b && Trimmed(b)
    ensures Scan(lines[..5]) == Ok(Draft(t, s, [], Some(Question(q, [a, b], None))))
  {
    OneQuestionFirstOption(lines, t, s, q, a);
    assert lines[4] == ['2'] + ". " + b;
    assert [a] + [b] == [a, b];
    ScanOption(lines, 4, Draft(t, s, [], Some(Question(q, [a], None))), '2', b);
  }

  /** The scan of such lines ends with their one question still open. */
  lemma OneQuestionScan(lines: seq<string>, t: string, s: string, q: string, a: string, b: string)
    requires OneQuestionText(lines, t, s, q, a, b)
    requires Trimmed(t) && Trimmed(s) && Trimmed(q) && Trimmed(a) && Trimmed(b)
    ensures Scan(lines) == Ok(Draft(t, s, [], Some(Question(q, [a, b], Some(1)))))
  {
    OneQuestionSecondOption(lines, t, s, q, a, b);
    ScanSecondAnswer(lines, 5, Draft(t, s, [], Some(Question(q, [a, b], None))));
    assert lines[..6] == lines;
  }

  /** Such lines are accepted as the quiz they describe. */
  lemma OneQuestionAccepted(lines: seq<string>, t: string, s: string, q: string, a: string, b: string)
    requires OneQuestionText(lines, t, s, q, a, b)
    requires Trimmed(t) && Trimmed(s) && Trimmed(q) && Trimmed(a) && Trimmed(b)
    ensures ParseLines(lines) == Ok(Quiz(t, s, [Question(q, [a, b], Some(1))]))
  {
    OneQuestionScan(lines, t, s, q, a, b);
    var question := Question(q, [a, b], Some(1));
    assert ValidateQuestion(question) == Pass;
    assert [] + [question] == [question];
    assert StructureCheck(Quiz(t, s, [question])) == Pass;
  }

  /** The lines of the worked example below have the one-question form. */
  lemma SampleText(lines: seq<string>)
    requires |lines| == 6
    requires lines[0] == "Название: T" && lines[1] == "Описание: D" && lines[2] == "Вопрос 1: Q1?"
    requires lines[3] == "1. A" && lines[4] == "2. B" && lines[5] == "Правильный ответ: 2"
    ensures OneQuestionText(lines, "T", "D", "Q1?", "A", "B")
  {
    assert TitlePrefix + ": " + "T" == "Название: T";
    assert DescriptionPrefix + ": " + "D" == "Описание: D";
    assert "Вопрос 1: " + "Q1?" == "Вопрос 1: Q1?";
    assert "1. " + "A" == "1. A";
    assert "2. " + "B" == "2. B";
  }

  /** A worked example: these six lines are accepted as one question with
      the options `A` and `B`, the second of them correct. */
  lemma SampleQuiz(lines: seq<string>)
    requires |lines| == 6
    requires lines[0] == "Название: T" && lines[1] == "Описание: D" && lines[2] == "Вопрос 1: Q1?"
    requires lines[3] == "1. A" && lines[4] == "2. B" && lines[5] == "Правильный ответ: 2"
    ensures ParseLines(lines) == Ok(Quiz("T", "D", [Question("Q1?", ["A", "B"], Some(1))]))
  {
    SampleText(lines);
    GraphicNotSpace('T');
    GraphicNotSpace('D');
    GraphicNotSpace('Q');
    GraphicNotSpace('?');
    GraphicNotSpace('A');
    GraphicNotSpace('B');
    OneQuestionAccepted(lines, "T", "D", "Q1?", "A", "B");
  }
}
