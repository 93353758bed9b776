/** The play-time reading of quiz text (`services/quiz_processor.py`): the
    stored text of a quiz is read again, line by line and without any
    validation, into the questions a session plays. */
module QuizProcessor {
  import opened Wrappers
  import opened PyStr
  import opened QuizModel

  /** The exceptions `process_quiz` lets escape: indexing past the pieces of
      a split or past the end of a line, and `int()` refusing a text. */
  datatype ProcessError = IndexError | ValueError

  const QuestionPrefix: string := "Вопрос"
  const AnswerPrefix: string := "Правильный ответ:"

  /** What a trimmed line is to the processor, tested in the source's order.
      A line that is a single digit reaches the test of its second character
      and fails there. */
  datatype Kind = Blank | QuestionStart | LoneDigit | OptionStart | AnswerStart | Ignored

  function KindOf(line: string): Kind
  {
    if line == [] then Blank
    else if StartsWith(line, QuestionPrefix) then QuestionStart
    else if IsDigit(line[0]) && |line| == 1 then LoneDigit
    else if IsDigit(line[0]) && line[1] == '.' then OptionStart
    else if StartsWith(line, AnswerPrefix) then AnswerStart
    else Ignored
  }

  /** The text of an option line: what follows its first dot, trimmed, which
      is everything after the digit and the dot that open it. */
  function OptionText(line: string): (r: string)
    requires KindOf(line) == OptionStart
    ensures r == Strip(line[2..])
  {
    assert line == [line[0]] + ['.'] + line[2..];
    AfterFirstAt([line[0]], '.', line[2..]);
    Strip(AfterFirst(line, '.').value)
  }

  /** The 0-based answer an answer line states: the second colon-separated
      piece, trimmed, read by `int()`, minus one. Nothing checks that it is
      positive or that it indexes an option. */
  function AnswerIndex(line: string): (r: Result<int, ProcessError>)
    ensures r == Err(IndexError) <==> ':' !in line
    ensures r.Err? && ':' in line ==> r.error == ValueError
  {
    var parts := Split(line, ':');
    if |parts| < 2 then Err(IndexError)
    else
      match ParseInt(Strip(parts[1]))
      case None => Err(ValueError)
      case Some(n) => Ok(n - 1)
  }

  /** What the loop has built: the questions already closed and the one
      being filled in. */
  datatype Play = Play(questions: seq<Question>, current: Option<Question>)

  const Fresh: Play := Play([], None)

  /** The questions once the open one, if any, is appended. */
  function Flush(p: Play): seq<Question>
  {
    p.questions + if p.current.Some? then [p.current.value] else []
  }

  /** One pass of the loop over an untrimmed piece of the text. */
  function PStep(p: Play, raw: string): Result<Play, ProcessError>
  {
    var line := Strip(raw);
    match KindOf(line)
    case Blank => Ok(p)
    case QuestionStart =>
      (match AfterFirst(line, ':')
       case None => Err(IndexError)
       case Some(rest) => Ok(Play(Flush(p), Some(Question(Strip(rest), [], None)))))
    case LoneDigit => Err(IndexError)
    case OptionStart =>
      if p.current.None? then Ok(p)
      else
        var q := p.current.value;
        Ok(p.(current := Some(q.(options := q.options + [OptionText(line)]))))
    case AnswerStart =>
      if p.current.None? then Ok(p)
      else
        var a :- AnswerIndex(line);
        Ok(p.(current := Some(p.current.value.(correctAnswer := Some(a)))))
    case Ignored => Ok(p)
  }

  /** The loop over the pieces of the text, stopping at the first exception. */
  function Process(parts: seq<string>): Result<Play, ProcessError>
    decreases |parts|
  {
    if |parts| == 0 then Ok(Fresh)
    else
      var p :- Process(parts[..|parts| - 1]);
      PStep(p, parts[|parts| - 1])
  }

  /** `process_quiz`: the questions of a stored quiz text. */
  function ProcessQuiz(content: string): Result<seq<Question>, ProcessError>
  {
    var p :- Process(Split(content, '\n'));
    Ok(Flush(p))
  }

  lemma ProcessSnoc(parts: seq<string>, i: nat)
    requires i < |parts|
    ensures Process(parts[..i + 1]) ==
      match Process(parts[..i]) case Err(e) => Err(e) case Ok(p) => PStep(p, parts[i])
  {
    assert parts[..i + 1][..i] == parts[..i];
  }

  /** An exception ends the loop: no later line undoes it. */
  lemma {:induction false} ProcessErrSticky(parts: seq<string>, i: nat)
    requires i <= |parts| && Process(parts[..i]).Err?
    ensures Process(parts) == Process(parts[..i])
    decreases |parts| - i
  {
    if i == |parts| {
      assert parts[..i] == parts;
    } else {
      ProcessSnoc(parts, i);
      ProcessErrSticky(parts, i + 1);
    }
  }

  /** One pass of the loop as the source runs it. */
  method ProcessLine(p: Play, raw: string) returns (r: Result<Play, ProcessError>)
    ensures r == PStep(p, raw)
  {
    var questions, current := p.questions, p.current;
    var line := Strip(raw);
    match KindOf(line) {
      case Blank =>
      case QuestionStart =>
        if current.Some? {
          questions := questions + [current.value];
        }
        var rest := AfterFirst(line, ':');
        if rest.None? {
          return Err(IndexError);
        }
        assert questions == Flush(p);
        current := Some(Question(Strip(rest.value), [], None));
      case LoneDigit =>
        return Err(IndexError);
      case OptionStart =>
        if current.Some? {
          var option := OptionText(line);
          current := Some(current.value.(options := current.value.options + [option]));
        }
      case AnswerStart =>
        if current.Some? {
          var a := AnswerIndex(line);
          if a.Err? {
            return Err(a.error);
          }
          current := Some(current.value.(correctAnswer := Some(a.value)));
        }
      case Ignored =>
    }
    return Ok(Play(questions, current));
  }

  /** `process_quiz` as the source runs it: the loop over the lines, then
      the last question. */
  method ProcessQuizText(content: string) returns (r: Result<seq<Question>, ProcessError>)
    ensures r == ProcessQuiz(content)
  {
    var parts := Split(content, '\n');
    var p := Fresh;
    var i := 0;
    while i < |parts|
      invariant 0 <= i <= |parts|
      invariant Process(parts[..i]) == Ok(p)
    {
      ProcessSnoc(parts, i);
      var next := ProcessLine(p, parts[i]);
      if next.Err? {
        ProcessErrSticky(parts, i + 1);
        return Err(next.error);
      }
      p := next.value;
      i := i + 1;
    }
    assert parts[..i] == parts;
    var questions := p.questions;
    if p.current.Some? {
      questions := questions + [p.current.value];
    }
    assert questions == Flush(p);
    return Ok(questions);
  }
}
