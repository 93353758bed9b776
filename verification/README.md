# Quiz bot core in Dafny

This project models the three parts of the Telegram quiz bot that carry real
logic, and proves properties of them.

- **The authoring parser** (`services/quiz_parser.py`, `parse_quiz_text`). It
  cleans the submitted text, which means dropping leading byte-order marks,
  stripping it and HTML-escaping it. It refuses empty or too-short text. It
  then scans the trimmed non-blank lines with one open question. Title and
  description headers overwrite earlier ones. A `Вопрос`/`Question` header
  validates and closes the open question, then opens a new one. A numbered
  line adds an option and an answer line sets the answer; both are refused
  when no question is open. Finally it closes the last question and checks
  the whole quiz: a title, 1 to 50 questions, every question valid. Every
  failure is one error kind carrying a reason.
- **The play-time processor** (`services/quiz_processor.py`, `process_quiz`).
  It reads the same stored text again, with the same scan shape and no
  validation. A `Вопрос` line without a colon, or a line that is a single
  digit, raises `IndexError`. While a question is open, an answer number
  that `int()` refuses raises `ValueError`; outside a question, option and
  answer lines are dropped without being read.
- **The quiz-taking session** (`handlers/callbacks.py`). Choosing a quiz
  loads the processor's questions into the per-chat data store. Each answer
  scores and advances. When the position passes the last question, the
  session saves the result and clears the store.

Modules:

- `Wrappers` holds `Option`, `Result` and a pass/fail `Outcome`.
- `PyStr` holds the Python string operations the code relies on: `strip`,
  `lstrip`, `split`, `startswith`, `int()` on decimal numerals and
  `html.escape`.
- `QuizModel` holds the question and quiz records. It also defines question
  blocks (`LayoutOf`/`Group`), which is how a sequence of classified lines
  makes up questions. Both parsers are proved against this one reference.
- `QuizParser` and `QuizProcessor` hold the two parsers. Each has a
  left-fold specification function (`Scan`, `Process`) and the imperative
  loop that the source runs (`ScanLines`, `ProcessQuizText`). Each loop is
  proved equal to its specification.
- `ParserProperties` and `ProcessorProperties` hold what each parser
  guarantees.
- `ParserAcceptance` characterises exactly which line sequences the
  authoring parser accepts (`Acceptable`) and the quiz it builds from them
  (`QuizOf`). It also names the reason the final structure check gives, and
  works one six-line quiz through the parser.
- `Readings` holds lines on which the two readings of one stored text part
  ways. The text is stored raw (`handlers/messages.py:30`) and is processed
  again at play time (`handlers/callbacks.py:92`).
- `Callbacks` holds the session as a class whose methods update its fields.

The handlers behave as follows, and the model follows them:

- An answer is always scored against the question at the current position.
  A repeated press of an earlier question's button is not rejected.
- When the feedback line fails (the question has no answer, or its answer
  does not index an option), the score and position are already updated but
  no next question is shown and the old buttons stay. This is
  `AnswerOutcome.Stalled`. If the stalled question was the last one, the
  session stays loaded and never finishes: every later press is `Rejected`.
  Otherwise the next press is scored against the next question, which was
  never shown.

## Model

| member | source | states |
|---|---|---|
| PyStr.TrimStartSpec | services/quiz_parser.py:102 | `lstrip()` leaves a suffix of the text. Everything it drops is whitespace, and what is left does not start with whitespace. |
| PyStr.TrimEndSpec | services/quiz_parser.py:102 | `rstrip()` leaves a prefix of the text. Everything it drops is whitespace, and what is left does not end with whitespace. |
| PyStr.StripSlice | services/quiz_parser.py:102 | `strip()` returns the slice between the longest all-whitespace prefix and suffix. A non-empty result starts and ends with non-whitespace. |
| PyStr.StripSpec | services/quiz_parser.py:40 | A stripped line is empty exactly when the line is all whitespace, so `if line.strip()` drops exactly the blank lines. |
| PyStr.StripIdempotent | services/quiz_parser.py:40 | Stripping an already stripped text changes nothing. |
| PyStr.StripPadded | services/quiz_parser.py:147 | Whitespace in front of a text with non-whitespace ends is exactly what `strip()` removes. |
| PyStr.DropLeadingSpec | services/quiz_parser.py:102 | `lstrip('﻿')` drops exactly the leading run of byte-order marks. |
| PyStr.Split | services/quiz_parser.py:40 | `split(sep)` gives at least one piece, and no piece contains the separator. There are two or more pieces exactly when the separator occurs. |
| PyStr.SplitJoin | services/quiz_parser.py:40 | Joining the pieces of a split with the separator gives back the text. |
| PyStr.SplitWithoutSeparator | services/quiz_processor.py:27 | A text without the separator splits into itself alone. |
| PyStr.AfterFirst | services/quiz_parser.py:136 | `split(c, 1)[1]` is missing exactly when `c` is absent. Otherwise it is the suffix right after the first `c`. |
| PyStr.AfterFirstAt | services/quiz_parser.py:136 | For `p + c + x` with no `c` in `p`, the text after the first `c` is `x`. |
| PyStr.SecondFieldIsRest | services/quiz_processor.py:27 | When `c` occurs once, `split(c)[1]` is the same text as `split(c, 1)[1]`. |
| PyStr.ParseInt | services/quiz_parser.py:147 | `int()` on a stripped text. `ParseIntDecimal` proves it reads back every numeral, signed or not. `ParseIntCharacters` proves it refuses any text holding a character other than a digit or a sign. |
| PyStr.DigitValue | services/quiz_parser.py:147 | A decimal digit's value is below 10. |
| PyStr.DigitChar | services/quiz_parser.py:147 | The digit written for a value below 10 is a digit with that value. |
| PyStr.DigitRun | services/quiz_parser.py:72 | The digit run matched by `^\d+` is maximal: every character before it is a digit, and the next one, if any, is not. |
| PyStr.Decimal | services/quiz_parser.py:147 | The numeral of a natural number is a non-empty string of digits. |
| PyStr.DecimalValue | services/quiz_parser.py:147 | Reading back the numeral of `n` gives `n`. |
| PyStr.ParseIntDecimal | services/quiz_parser.py:147 | `int()` reads `n` from the numeral of `n`, and `-n` from that numeral after a minus sign. |
| PyStr.ParseIntCharacters | services/quiz_parser.py:147 | A text that `int()` accepts holds only digits and signs, so it cannot contain a colon. |
| PyStr.Escape | services/quiz_parser.py:104 | `html.escape` never shortens the text, and no `<`, `>`, `"` or `'` survives it. |
| PyStr.UnescapeEscapeChar | services/quiz_parser.py:104 | Decoding one escaped character followed by more text gives that character, then the decoded rest. |
| PyStr.UnescapeEscape | services/quiz_parser.py:104 | Escaping loses nothing: decoding the escaped text gives back the original. |
| PyStr.EscapeIdentity | services/quiz_parser.py:104 | A text without any of the five escaped characters is left unchanged. |
| QuizModel.LayoutOf | services/quiz_parser.py:59-84 | In the block layout of a line sequence, the items before the first header hold no header. |
| QuizModel.GroupSnocHeader | services/quiz_parser.py:59-69 | A new header appends a question with its text, no options and no answer. The earlier blocks stay as they were. |
| QuizModel.GroupSnocOther | services/quiz_parser.py:72-84 | Any other item changes only the last question. Before the first header, it joins the items that belong to no question. |
| QuizModel.GroupLength | services/quiz_processor.py:14-30 | There is one question per header item. |
| QuizModel.GroupTexts | services/quiz_processor.py:14-21 | The questions carry the header texts, in header order. |
| QuizModel.AnswerInIsLast | services/quiz_processor.py:25-27 | A block's answer is the last answer item in it, so a later answer line overwrites an earlier one. Without an answer item, the answer stays unset. |
| QuizParser.NonBlankLines | services/quiz_parser.py:40 | The kept lines are no more than the pieces. Each is non-empty and already stripped. |
| ParserProperties.NonBlankLinesSpec | services/quiz_parser.py:40 | The lines are exactly the pieces holding something other than whitespace, each stripped, in their order in the text. |
| QuizParser.Sanitize | services/quiz_parser.py:99-104 | The cleaned text is empty exactly when nothing is left after dropping leading byte-order marks and surrounding whitespace. Decoding it gives back that trimmed text, so escaping loses nothing. |
| QuizParser.IsHeaderLine | services/quiz_parser.py:107-109 | `prefix:` or `prefix квиза:` opens the line. `HeaderLineHasColon` proves every such line holds a colon. |
| QuizParser.IsOptionLine | services/quiz_parser.py:72 | The test through the maximal digit run. `OptionLinePattern` proves it equals the match of `^\d+\.`. |
| QuizParser.OptionLinePattern | services/quiz_parser.py:72 | A line passes the option test exactly when one or more digits followed by a dot open it. |
| QuizParser.Classify | services/quiz_parser.py:53-84 | The if/elif chain, tested in the source's order. A line classified as a title or description always holds a colon. |
| QuizParser.AfterColon | services/quiz_parser.py:136 | Missing exactly when the line has no colon. Otherwise it is the stripped text after the first colon. |
| QuizParser.HeaderLineHasColon | services/quiz_parser.py:107-109 | A line that passes `_is_header_line` contains a colon. |
| QuizParser.ParseHeader | services/quiz_parser.py:112-131 | Fails exactly when the line has no colon, which never happens for a classified header. Otherwise it returns the stripped text after the first colon. |
| QuizParser.ParseQuestionLine | services/quiz_parser.py:134-136 | Fails exactly when the line has no colon. Otherwise it returns the stripped text after the first colon. |
| QuizParser.OptionDotIsFirst | services/quiz_parser.py:139-141 | In a numbered option line, the first dot is the one right after the number. |
| QuizParser.ParseOptionLine | services/quiz_parser.py:139-141 | A numbered option's text is what follows the number and its dot, stripped. |
| QuizParser.ParseCorrectAnswer | services/quiz_parser.py:144-152 | Accepted exactly when the text after the first colon is an integer of at least 1. The result is that number minus 1, so it is at least 0. Anything else gives `BadAnswerFormat`. |
| QuizParser.ValidateQuestion | services/quiz_parser.py:155-170 | For answers that are not negative, it passes exactly the well-formed questions: text, two or more options, an answer indexing an option. Empty text is reported first. |
| QuizParser.CheckQuestionsFrom | services/quiz_parser.py:185-189 | Passes exactly when every question from position `i` on passes. A failure names the 1-based position of the first failing question, and that question's own reason; every question before it passes. |
| QuizParser.StructureCheck | services/quiz_parser.py:173-189 | Passes exactly when the title is non-empty, there are 1 to 50 questions and every question passes. A missing title is reported first, then no questions, then more than 50. |
| QuizParser.ValidateQuizStructure | services/quiz_parser.py:173-189 | The loop of `_validate_quiz_structure` computes `StructureCheck`. |
| QuizParser.Close | services/quiz_parser.py:60-62 | Closing a question validates it and appends it, leaving no open question. A failure is the open question's own validation failure. |
| QuizParser.Step | services/quiz_parser.py:51-84 | One pass of the loop body on the draft. Its guarantees are `StepReasons`, `StepSound`, `StepBlocks`, `StepHeaders` and `StepQuiet`. |
| QuizParser.Finish | services/quiz_parser.py:86-92 | Closing the last question, then the structure check. Its guarantees are `FinishReasons`, `FinishSound` and `FinishNoPerQuestionError`. |
| QuizParser.Parse | services/quiz_parser.py:19-96 | `parse_quiz_text` as a function. `ParserAcceptance.ParseAccepted` states exactly which texts it accepts and the quiz it returns. The `ParserProperties` lemmas from `EmptyInputRejected` on state what it refuses and why. |
| QuizParser.ScanErrSticky | services/quiz_parser.py:51-96 | Once a prefix of the lines fails, the whole scan fails the same way, so no partial result is returned. |
| QuizParser.ScanLine | services/quiz_parser.py:51-84 | One pass of the loop body, with its in-place updates, computes one step of the scan. |
| QuizParser.ScanLines | services/quiz_parser.py:51-89 | The `for` loop over the lines computes the scan and stops at the first failure. |
| QuizParser.ParseQuizText | services/quiz_parser.py:34-96 | `parse_quiz_text` as written computes `Parse`, which every property below is about. |
| QuizParser.FinishDraft | services/quiz_parser.py:86-92 | Closing the last question and the final check compute `Finish`. |
| ParserProperties.StrictItems | services/quiz_parser.py:51-84 | There is one item per line. |
| ParserProperties.StepReasons | services/quiz_parser.py:51-84 | A step fails only with a reason about its line or its question. It never fails with an empty-text, too-short or numbered per-question reason. |
| ParserProperties.CloseSound | services/quiz_parser.py:60-62 | Closing keeps every closed question well formed. |
| ParserProperties.StepSound | services/quiz_parser.py:51-84 | Every step keeps every closed question well formed and the open answer not negative. |
| ParserProperties.StepBlocks | services/quiz_parser.py:59-84 | Every step keeps the draft equal to the question blocks of the lines read so far. |
| ParserProperties.StepHeaders | services/quiz_parser.py:53-56 | A title or description line sets that field to its value. Other lines leave both fields alone. |
| ParserProperties.StepQuiet | services/quiz_parser.py:53-56 | Header and unrecognised lines never fail, and they leave the questions and the open question alone. |
| ParserProperties.ScanReasons | services/quiz_parser.py:51-89 | A failing scan fails with a line reason, never with a numbered per-question one. |
| ParserProperties.ScanSound | services/quiz_parser.py:51-89 | After a successful scan, every closed question is well formed. |
| ParserProperties.ScanBlocks | services/quiz_parser.py:51-89 | After a successful scan, the closed questions plus the open one are the question blocks of the lines. |
| ParserProperties.ScanHeaders | services/quiz_parser.py:53-56 | After a successful scan, the title and description are the values of the last title and description lines. |
| ParserProperties.StrictHeaderCount | services/quiz_parser.py:59 | The header items are exactly the question lines. |
| ParserProperties.OtherLineIgnored | services/quiz_parser.py:51-84 | A line of no recognised kind leaves the scan's result unchanged. |
| ParserProperties.NoQuestionYet | services/quiz_parser.py:51-56 | Lines that are only headers or unrecognised lines scan without failure and leave no question. |
| ParserProperties.FinishReasons | services/quiz_parser.py:86-92 | Finishing fails only with a reason about the questions or the quiz. |
| ParserProperties.FinishSound | services/quiz_parser.py:86-92 | From a sound draft, an accepted quiz has a title, 1 to 50 questions, and only well-formed questions. |
| ParserProperties.FinishNoPerQuestionError | services/quiz_parser.py:185-189 | From a sound draft, finishing never reports a numbered per-question failure. |
| ParserProperties.ParseLinesReasons | services/quiz_parser.py:44-92 | Scanning and finishing never fail with an empty-text or too-short reason. |
| ParserProperties.ParseLinesWellFormed | services/quiz_parser.py:60-62 | An accepted line sequence gives a titled quiz of 1 to 50 well-formed questions. |
| ParserProperties.ParseLinesNoPerQuestionError | services/quiz_parser.py:185-189 | The numbered per-question failure of the final check is never reported. |
| ParserProperties.ParseLinesFollowBlocks | services/quiz_parser.py:59-89 | An accepted line sequence gives exactly its question blocks. |
| ParserProperties.ParseLinesHeaders | services/quiz_parser.py:53-56 | An accepted line sequence takes its title and description from the last such lines. |
| ParserProperties.ParseLinesOrphanRejected | services/quiz_parser.py:72-82 | An option or answer line before any question header makes the lines fail, with the reason naming that line's kind. |
| ParserProperties.NotHeaderByFirst | services/quiz_parser.py:107-109 | A line starting with neither `Н` nor `О` is no title or description header. |
| ParserProperties.EmptyInputRejected | services/quiz_parser.py:36-38 | Text is refused as empty exactly when nothing is left after dropping leading byte-order marks and surrounding whitespace. |
| ParserProperties.ShortInputRejected | services/quiz_parser.py:40-42 | Text is refused as too short exactly when it is not empty and has fewer than five non-blank lines. That count is the number of pieces holding something other than whitespace. |
| ParserProperties.OrphanLineRejected | services/quiz_parser.py:72-82 | An option or answer line met before any question line makes the whole text fail, naming that line's kind. |
| ParserProperties.CorrectAnswerRoundTrip | services/quiz_parser.py:144-152 | An answer line stating `n` after its colon, possibly after whitespace, stores `n - 1` when `n >= 1`, and is refused when `n` is 0. |
| ParserProperties.NegativeAnswerRejected | services/quiz_parser.py:148-149 | An answer line stating a negative number is refused. |
| ParserProperties.NumeralAfterPad | services/quiz_parser.py:147 | `int(x.strip())` reads `n` from whitespace followed by the numeral of `n`. |
| ParserProperties.NegativeNumeralAfterPad | services/quiz_parser.py:147 | `int(x.strip())` reads `-n` from whitespace followed by `-` and the numeral of `n`. |
| ParserProperties.AnswerAfterColon | services/quiz_parser.py:144-152 | An answer line with no colon before its first one, stating `n` after it, stores `n - 1` when `n >= 1` and is refused otherwise. |
| ParserProperties.SuccessWellFormed | services/quiz_parser.py:155-183 | An accepted quiz has a non-empty title and 1 to 50 questions. Each has text, at least two options and an answer that indexes one of them. |
| ParserProperties.NoPerQuestionError | services/quiz_parser.py:185-189 | The numbered per-question failure of `_validate_quiz_structure` never surfaces from `parse_quiz_text`. |
| ParserProperties.QuestionsFollowBlocks | services/quiz_parser.py:59-77 | An accepted quiz has one question per question line, in order. Each carries its header text, the options that follow it up to the next header, and the last answer among them. |
| ParserProperties.HeadersLastWins | services/quiz_parser.py:53-56 | A repeated title or description line overwrites the earlier one. |
| ParserAcceptance.OpenAfterQuestionLine | services/quiz_parser.py:59-69 | After a successful scan, a question is open exactly when some question line was read. |
| ParserAcceptance.StepIntoQuestion | services/quiz_parser.py:72-84 | An option line, or an answer line whose number reads, is taken whenever a question is open. |
| ParserAcceptance.StepQuestionLine | services/quiz_parser.py:59-69 | A question line with a colon is taken whenever the open question, if any, is well formed. |
| ParserAcceptance.StepReadable | services/quiz_parser.py:59-84 | A step that is taken had a question open for an option or answer line, a colon in a question line and a readable number in an answer line. |
| ParserAcceptance.OpenBlockComplete | services/quiz_parser.py:60-61 | When every question block is well formed, the question a later question line closes is well formed. |
| ParserAcceptance.ScanAccepted | services/quiz_parser.py:51-84 | Readable lines whose blocks are all well formed scan without failure, prefix by prefix. |
| ParserAcceptance.ScanReadable | services/quiz_parser.py:51-84 | Conversely, lines that scan without failure are readable: no option or answer line before the first question line, a colon in every question line, a readable number in every answer line. |
| ParserAcceptance.FinishAccepted | services/quiz_parser.py:86-92 | A titled draft whose closed and open questions are 1 to 50 well-formed questions finishes with exactly those questions. |
| ParserAcceptance.ParseLinesAccepted | services/quiz_parser.py:51-93 | Every acceptable line sequence is accepted, and the quiz is its last title, its last description and its question blocks. |
| ParserAcceptance.ParseLinesAcceptedOnly | services/quiz_parser.py:51-93 | Every accepted line sequence is acceptable, so `Acceptable` is exactly the set the scan and final check let through. |
| ParserAcceptance.ParseAccepted | services/quiz_parser.py:34-96 | `parse_quiz_text` accepts a text exactly when its cleaned form is not empty, has at least five non-blank lines, and those lines are acceptable. The quiz returned is the one those lines describe. |
| ParserAcceptance.AcceptedQuestionCount | services/quiz_parser.py:59-69 | An accepted text has one question per question line, carrying the header texts in order. |
| ParserAcceptance.ParseLinesStructureReasons | services/quiz_parser.py:173-183 | When scanning and closing the last question succeed, a missing title is refused as such; with a title, no question line is refused for having no questions, and more than 50 for the limit. |
| ParserAcceptance.StructureRejected | services/quiz_parser.py:173-183 | The same reasons at the level of the whole text, wrapped in the one validation error kind. |
| ParserAcceptance.ValueAfterColon | services/quiz_parser.py:134-136 | After a colon and a space, a value with no surrounding whitespace is read back unchanged. |
| ParserAcceptance.TitleStep | services/quiz_parser.py:53-54 | `Название: t` sets the title to `t` and changes nothing else. |
| ParserAcceptance.DescriptionStep | services/quiz_parser.py:55-56 | `Описание: s` sets the description to `s` and changes nothing else. |
| ParserAcceptance.QuestionStep | services/quiz_parser.py:59-69 | With no question open, `Вопрос 1: q` opens a question with text `q`, no options and no answer. |
| ParserAcceptance.OptionStep | services/quiz_parser.py:72-77 | A one-digit option line `c. a` appends `a` to the open question's options. |
| ParserAcceptance.SecondAnswerStep | services/quiz_parser.py:80-84 | `Правильный ответ: 2` sets the open question's answer to index 1. |
| ParserAcceptance.OneQuestionScan | services/quiz_parser.py:51-84 | Six lines giving a title, a description, one question, two options and `Правильный ответ: 2` scan to that draft with the question still open. |
| ParserAcceptance.OneQuestionAccepted | services/quiz_parser.py:34-96 | Such lines are accepted as a quiz with that title and description and one question whose answer is its second option. |
| ParserAcceptance.SampleQuiz | services/quiz_parser.py:19-33 | The docstring's format on one concrete quiz: `Название: T`, `Описание: D`, `Вопрос 1: Q1?`, `1. A`, `2. B`, `Правильный ответ: 2` parse to that quiz. |
| QuizProcessor.KindOf | services/quiz_processor.py:14-25 | The if/elif chain on a stripped non-empty line, in the source's order. A single digit reaches `line[1]` and is its own kind; `LoneDigitLine` proves that line raises `IndexError`. |
| QuizProcessor.PStep | services/quiz_processor.py:10-27 | One pass of the loop body. `StepRaises`, `StepOpen` and `StepBlocks` state when it raises and what it builds. |
| QuizProcessor.ProcessQuiz | services/quiz_processor.py:4-32 | `process_quiz` as a function. `ProcessQuizRaises`, `QuestionsFollowBlocks` and `OrphansDropped` state when it raises and what it returns. |
| QuizProcessor.OptionText | services/quiz_processor.py:22-24 | The text after the first dot of a `d.` line is everything after the digit and the dot, stripped. |
| QuizProcessor.AnswerIndex | services/quiz_processor.py:27 | The answer line fails with `IndexError` exactly when it has no colon. Any other failure is `ValueError` from `int()`. |
| QuizProcessor.ProcessErrSticky | services/quiz_processor.py:9-27 | Once a piece raises, the whole call raises the same way. |
| QuizProcessor.ProcessLine | services/quiz_processor.py:10-27 | One pass of the loop body, with its in-place updates, computes one step. |
| QuizProcessor.ProcessQuizText | services/quiz_processor.py:4-32 | `process_quiz` as written, a loop plus the final append, computes `ProcessQuiz`. |
| ProcessorProperties.LenientItems | services/quiz_processor.py:9-27 | There is one item per piece. |
| ProcessorProperties.StepRaises | services/quiz_processor.py:14-27 | A step raises exactly when its line is a question line without a colon, or a single digit, or an answer line `int()` refuses while a question is open. |
| ProcessorProperties.StepOpen | services/quiz_processor.py:14-21 | After a step, a question is open exactly when one was before or the line opened one. |
| ProcessorProperties.StepBlocks | services/quiz_processor.py:14-30 | Every step keeps the result so far equal to the question blocks of the pieces read. |
| ProcessorProperties.ProcessOpen | services/quiz_processor.py:15-21 | After the loop, a question is open exactly when some line opened one. |
| ProcessorProperties.ProcessBlocks | services/quiz_processor.py:9-30 | After a loop that completes, the questions are the question blocks of the pieces. |
| ProcessorProperties.ProcessRaises | services/quiz_processor.py:9-27 | The loop raises exactly when some line raises, given whether a question was opened before it. |
| ProcessorProperties.OrphansDropped | services/quiz_processor.py:22-27 | Without a question line the result is empty. Options and answers outside a question are dropped, not refused. |
| ProcessorProperties.ProcessQuizRaises | services/quiz_processor.py:4-32 | `process_quiz` raises exactly when some line of the text raises, given whether a question was opened before it. |
| ProcessorProperties.QuestionsFollowBlocks | services/quiz_processor.py:14-32 | The result has one question per `Вопрос` line, in order, each carrying its header text. Each also has the `d.` options up to the next question line and the last answer among them. |
| ProcessorProperties.AnswerLineIndex | services/quiz_processor.py:25-27 | `Правильный ответ:` followed by `n` gives index `n - 1` for every `n`, so a stated 0 gives -1. Nothing is checked against the options. |
| ProcessorProperties.NegativeAnswerLineIndex | services/quiz_processor.py:25-27 | A stated `-n` gives index `-n - 1`. |
| ProcessorProperties.AnswerAfterPad | services/quiz_processor.py:27 | An answer line whose text after the colon is whitespace and then an integer gives that integer minus one. |
| ProcessorProperties.StatedAfterPrefix | services/quiz_processor.py:25 | The text after the colon of `Правильный ответ:` is everything after that prefix. |
| ProcessorProperties.StepOnQuestionLine | services/quiz_processor.py:14-21 | A question line closes the open question and opens one with the stripped text after its colon. |
| ProcessorProperties.QuestionWithoutOptions | services/quiz_processor.py:17-21 | A single question line is read as a question with no options and no answer: nothing is validated. |
| Readings.LoneDigitLine | services/quiz_processor.py:22 | A line holding one digit is ignored by the parser. The processor raises `IndexError` on it. |
| Readings.MultiDigitOption | services/quiz_processor.py:22 | A line like `10. x` is an option with text `x` to the parser and is ignored by the processor. |
| Readings.EnglishQuestionLine | services/quiz_processor.py:14 | A `Question ...` line opens a question for the parser and is ignored by the processor. |
| Readings.ZeroAnswerLine | services/quiz_processor.py:27 | `Правильный ответ: 0` is refused by the parser, and the processor reads it as index -1. |
| Callbacks.Scores | handlers/callbacks.py:124-125 | A selection scores exactly when it equals the stored answer. A question without an answer never scores. `PerfectScore` and `ScoreBoundedByScorable` build on it. |
| Callbacks.FeedbackFails | handlers/callbacks.py:136 | The feedback line fails when the answer is missing or outside Python's index range for the options, negative indexes included. `WellFormedFeedback` proves it never fails on a question the parser accepted. |
| Callbacks.Matches | handlers/callbacks.py:124-129 | The number of selections that matched their question's answer never exceeds the number of selections. |
| Callbacks.Scorable | handlers/callbacks.py:124-125 | The number of questions that some selection can match never exceeds the number of questions. |
| Callbacks.Percentage | handlers/callbacks.py:67 | The reported percentage lies between 0 and 100. It is 100 exactly for a full score. |
| Callbacks.QuizSession.constructor | handlers/callbacks.py:75 | A new store is empty and has saved nothing. |
| Callbacks.QuizSession.Clear | handlers/callbacks.py:107-110 | `state.clear()` empties the store and keeps the saved results. |
| Callbacks.QuizSession.Finish | handlers/callbacks.py:45-75 | Saves the quiz id, the score and the question count as they stand, then clears the store. The saved score equals the matching selections, and it is at most the count, which is at least 1. |
| Callbacks.QuizSession.ShowQuestion | handlers/callbacks.py:24-42 | Finishes exactly when the position has reached the number of questions. Otherwise it presents the question at the position and changes nothing. |
| Callbacks.QuizSession.Select | handlers/callbacks.py:78-110 | A missing quiz changes nothing. A text the processor raises on, or finds no question in, clears the store. Otherwise the store holds the questions at position 0 with score 0 and count `len(questions)`, and the first question is shown. |
| Callbacks.QuizSession.Answer | handlers/callbacks.py:113-142 | With nothing loaded, or past the last question, nothing changes. Otherwise the score grows by exactly 1 when the selection equals the answer, and the position grows by 1 either way. Then the feedback line stalls, or the next question or the result is shown. A result's score is the number of matching selections. |
| Callbacks.PerfectScore | handlers/callbacks.py:124-129 | A full score means every selection matched its question's answer, and conversely. |
| Callbacks.ScoreBoundedByScorable | handlers/callbacks.py:124-125 | The score never exceeds the number of questions answered so far that have an answer that is not negative. A missing answer or a stated 0 can never be scored. |
| Callbacks.WellFormedFeedback | handlers/callbacks.py:136 | A question that passed the authoring checks never makes the feedback line fail. |

Proof helpers, which unfold a definition one step or fix a concrete fact
and model no source line of their own: `QuizModel.CollectSnoc`,
`QuizModel.TextsSnoc`, `QuizModel.OptionsIn`, `QuizParser.ScanSnoc`,
`QuizProcessor.ProcessSnoc`, `Callbacks.MatchesSnoc`,
`ProcessorProperties.RaisesAtLast`, `ProcessorProperties.SingleQuestionLine`,
`ParserProperties.LinesOfEmpty`, `PyStr.FirstCharBars`,
`PyStr.GraphicNotSpace`, `Readings.StripKeepsDigitLine`,
`ParserAcceptance.GroupPrefix`, `ParserAcceptance.ClosedBlocks`,
`ParserAcceptance.StrictItemsPrefix`, `ParserAcceptance.StrictItemAt`,
`ParserAcceptance.ScanStepAccepted`, `ParserAcceptance.ScanLastReadable`,
`ParserAcceptance.ReadableSnoc`, `ParserAcceptance.QuestionLineOf`,
`ParserAcceptance.SecondAnswerLine`, `ParserAcceptance.SecondAnswerValue`,
the one-line scan steps `ParserAcceptance.ScanTitle`, `ScanDescription`,
`ScanQuestion`, `ScanOption` and `ScanSecondAnswer`, the prefixes
`ParserAcceptance.OneQuestionTitle`, `OneQuestionHeaders`,
`OneQuestionOpened`, `OneQuestionFirstOption` and `OneQuestionSecondOption`,
and `ParserAcceptance.SampleText`.

The session's invariant `QuizSession.Valid` holds before and after every
method. While a quiz is loaded, it requires:

- the count equals the number of questions, and is at least 1;
- the position equals the number of selections made;
- the score equals `Matches` of those selections.

Together these give `0 <= correct <= current <= total`.

## Left out

- Chat transport is not modelled: message rendering, keyboards, callback acknowledgements and `edit_text`. A `TelegramBadRequest` from `edit_text` is caught by the handler and changes nothing the model tracks. Only the two failures of the feedback line's own expression are modelled (`Stalled`).
- Persistence is abstracted. `get_quiz_by_id` becomes the `stored` parameter of `Select`. `save_quiz_result` becomes appending to `saved`. `get_or_create_user` and the user id in the saved record are omitted.
- The aiogram state filter on `answer_callback` (`StateFilter(QuizStates.quiz_in_progress)`, handlers/callbacks.py:113) is not modelled. In the source nothing ever sets `quiz_in_progress`: the only `set_state` call, handlers/commands.py:57, sets `waiting_for_quiz`. So as written the filter stops every answer press, and the handler that `QuizSession.Answer` models is never reached. The model describes that handler as if the filter let presses through. Async scheduling is not modelled either.
- Callback data parsing (`int(callback.data.split("_")[1])`) is not modelled. The selected option and the quiz id arrive as numbers.
- Callbacks.Percentage: it is an exact real, not the rounded float `finish_quiz` formats. A zero count cannot reach it, since a loaded quiz has at least one question.
- Python's `\d`, `isdigit()` and `int()` also accept non-ASCII digits, and `int()` accepts underscores between digits. The model accepts ASCII digits with an optional sign only.
- `str.isspace` is taken to be the fixed set of whitespace characters listed in `PyStr.Whitespace`.
- `html.escape` is modelled as a character map. `Unescape` is only its partner for the round trip; it is not a model of `html.unescape`.
- `services/quiz_parser.py:95-96` wraps every failure in one error kind. The model keeps a `Reason` inside `ValidationError` instead of the message text.
- The title and description parts of `Quiz`, and the dataclass `QuizQuestion`, are used only as records.
- No theorem states that the two parsers agree on a restricted input class. `Readings` instead pins down the lines where they disagree.
- QuizParser.ScanLine: has no branch for a failing `_parse_header`, because `Classify` proves a title or description line holds a colon, so `services/quiz_parser.py:112-131` cannot raise there. `ParseHeader` keeps that failure for lines without a colon.
- `retry_quiz_callback` and the command handlers are not part of this model.
