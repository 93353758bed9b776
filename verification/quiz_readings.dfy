/** The same stored text is read twice: by the authoring parser when the quiz
    is saved, and by the processor when it is played. These lemmas pin down
    lines on which the two readings part ways, so that a text the parser
    accepts can still play differently, or fail to load. */
module Readings {
  import opened Wrappers
  import opened PyStr
  import opened QuizModel
  import QuizParser
  import QuizProcessor
  import ParserProperties
  import ProcessorProperties

  /** A text ending in something other than whitespace is its own strip
      when it starts with a digit. */
  lemma StripKeepsDigitLine(line: string)
    requires line != [] && IsDigit(line[0]) && !IsSpace(line[|line| - 1])
    ensures Strip(line) == line
  {
    DigitNotSpace(line[0]);
    assert [] + line == line;
    StripPadded([], line);
  }

  /** A line holding a single digit is ignored by the parser but makes the
      processor raise `IndexError` when it looks at the second character. */
  lemma LoneDigitLine(d: char, p: QuizProcessor.Play)
    requires IsDigit(d)
    ensures QuizParser.Classify([d]) == QuizParser.OtherLine
    ensures ParserProperties.StrictItem([d]) == Skip
    ensures QuizProcessor.PStep(p, [d]) == Err(QuizProcessor.IndexError)
  {
    DigitNotSpace(d);
    StripKeepsDigitLine([d]);
    assert QuizProcessor.KindOf([d]) == QuizProcessor.LoneDigit;
  }

  /** An option numbered with two digits is an option to the parser and is
      ignored by the processor, which only knows one-digit numbers. */
  lemma MultiDigitOption(a: char, b: char, t: string)
    requires IsDigit(a) && IsDigit(b)
    requires t == [] || !IsSpace(t[|t| - 1])
    ensures var line := [a, b, '.'] + t;
      && QuizParser.Classify(line) == QuizParser.OptionLine
      && ParserProperties.StrictItem(line) == Opt(Strip(t))
      && ProcessorProperties.LenientItem(line) == Skip
  {
    var line := [a, b, '.'] + t;
    assert line[0] == a && line[1] == b && line[2] == '.';
    assert !IsSpace('.');
    StripKeepsDigitLine(line);
    assert DigitRun(line) == 2;
    assert line[3..] == t;
    ParserProperties.NotHeaderByFirst(line);
    FirstCharBars(line, QuizProcessor.QuestionPrefix);
    FirstCharBars(line, "Вопрос");
    FirstCharBars(line, "Question");
    FirstCharBars(line, QuizProcessor.AnswerPrefix);
    assert QuizParser.Classify(line) == QuizParser.OptionLine;
    assert QuizProcessor.KindOf(line) == QuizProcessor.Ignored;
  }

  /** A question line in English opens a question for the parser and is
      ignored by the processor. */
  lemma EnglishQuestionLine(t: string)
    requires t == [] || !IsSpace(t[|t| - 1])
    ensures var line := "Question" + t;
      && QuizParser.Classify(line) == QuizParser.QuestionLine
      && ProcessorProperties.LenientItem(line) == Skip
  {
    var line := "Question" + t;
    assert line[0] == 'Q' && line[|line| - 1] == (if t == [] then 'n' else t[|t| - 1]);
    assert !IsSpace('Q') && !IsSpace('n');
    assert [] + line == line;
    StripPadded([], line);
    ParserProperties.NotHeaderByFirst(line);
    assert line[..8] == "Question";
    FirstCharBars(line, QuizProcessor.QuestionPrefix);
    FirstCharBars(line, QuizProcessor.AnswerPrefix);
    assert QuizParser.Classify(line) == QuizParser.QuestionLine;
    assert QuizProcessor.KindOf(line) == QuizProcessor.Ignored;
  }

  /** An answer line stating 0 is refused by the parser; the processor
      reads it as the index -1. */
  lemma ZeroAnswerLine(pad: string)
    requires forall k :: 0 <= k < |pad| ==> IsSpace(pad[k])
    ensures var line := QuizProcessor.AnswerPrefix + (pad + Decimal(0));
      && QuizParser.ParseCorrectAnswer(line).Err?
      && QuizProcessor.AnswerIndex(line).Ok?
      && QuizProcessor.AnswerIndex(line).value == -1
  {
    var head := "Правильный ответ";
    assert head + ":" == QuizProcessor.AnswerPrefix;
    ParserProperties.CorrectAnswerRoundTrip(head, pad, 0);
    ProcessorProperties.AnswerLineIndex(pad, 0);
  }
}
