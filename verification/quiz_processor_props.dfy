/** What the play-time reader computes, stated against the question blocks
    of the text, and exactly which texts make it raise. */
module ProcessorProperties {
  import opened Wrappers
  import opened PyStr
  import opened QuizModel
  import opened QuizProcessor

  /** The block item a piece of text is to the processor: a question line
      is a header, an option line an option, an answer line that reads an
      answer; anything else adds nothing. */
  function LenientItem(raw: string): Item
  {
    var line := Strip(raw);
    match KindOf(line)
    case QuestionStart => Header(Strip(AfterFirst(line, ':').GetOr([])))
    case OptionStart => Opt(OptionText(line))
    case AnswerStart => (match AnswerIndex(line) case Ok(v) => Ans(v) case Err(_) => Skip)
    case _ => Skip
  }

  function LenientItems(parts: seq<string>): (items: seq<Item>)
    ensures |items| == |parts|
    decreases |parts|
  {
    if |parts| == 0 then []
    else LenientItems(parts[..|parts| - 1]) + [LenientItem(parts[|parts| - 1])]
  }

  /** The piece opens a question. */
  predicate Opens(raw: string)
  {
    KindOf(Strip(raw)) == QuestionStart
  }

  /** Some piece opens a question. */
  predicate HasQuestion(parts: seq<string>)
    decreases |parts|
  {
    |parts| > 0 && (HasQuestion(parts[..|parts| - 1]) || Opens(parts[|parts| - 1]))
  }

  /** Whether the loop raises on a piece, given whether a question is open:
      a question line without a colon, a line that is one digit, or, under
      an open question, an answer line whose number `int()` refuses. */
  predicate Raises(raw: string, open: bool)
  {
    var line := Strip(raw);
    match KindOf(line)
    case QuestionStart => ':' !in line
    case LoneDigit => true
    case AnswerStart => open && AnswerIndex(line).Err?
    case _ => false
  }

  /** Line `k` raises under the questions opened before it. */
  predicate RaisesAt(parts: seq<string>, k: nat)
    requires k < |parts|
  {
    Raises(parts[k], HasQuestion(parts[..k]))
  }

  /** Some line raises under the questions opened before it. */
  predicate SomeLineRaises(parts: seq<string>)
  {
    exists k :: 0 <= k < |parts| && RaisesAt(parts, k)
  }

  /** The loop state agrees with the blocks of the items read so far. */
  predicate MatchesBlocks(p: Play, items: seq<Item>)
  {
    && Group(items) == Flush(p)
    && (p.current.None? ==> p.questions == [])
  }

  // ---------------------------------------------------------------------
  // One pass of the loop
  // ---------------------------------------------------------------------

  lemma StepRaises(p: Play, raw: string)
    ensures PStep(p, raw).Err? <==> Raises(raw, p.current.Some?)
  {
    match KindOf(Strip(raw))
    case Blank =>
    case QuestionStart =>
    case LoneDigit =>
    case OptionStart =>
    case AnswerStart =>
    case Ignored =>
  }

  lemma StepOpen(p: Play, raw: string)
    requires PStep(p, raw).Ok?
    ensures PStep(p, raw).value.current.Some? <==> p.current.Some? || Opens(raw)
  {
    match KindOf(Strip(raw))
    case Blank =>
    case QuestionStart =>
    case LoneDigit =>
    case OptionStart =>
    case AnswerStart =>
    case Ignored =>
  }

  lemma StepBlocks(p: Play, items: seq<Item>, raw: string)
    requires MatchesBlocks(p, items) && PStep(p, raw).Ok?
    ensures MatchesBlocks(PStep(p, raw).value, items + [LenientItem(raw)])
  {
    var it := LenientItem(raw);
    var g := Group(items);
    match KindOf(Strip(raw))
    case QuestionStart =>
      GroupSnocHeader(items, it);
    case OptionStart =>
      GroupSnocOther(items, it);
      if p.current.Some? {
        assert g[..|g| - 1] == p.questions;
      }
    case AnswerStart =>
      GroupSnocOther(items, it);
      if p.current.Some? {
        assert g[..|g| - 1] == p.questions;
      }
    case Blank =>
      GroupSnocOther(items, it);
      if p.current.Some? {
        assert g[..|g| - 1] == p.questions;
        assert g == g[..|g| - 1] + [g[|g| - 1]];
      }
    case LoneDigit =>
    case Ignored =>
      GroupSnocOther(items, it);
      if p.current.Some? {
        assert g[..|g| - 1] == p.questions;
        assert g == g[..|g| - 1] + [g[|g| - 1]];
      }
  }

  // ---------------------------------------------------------------------
  // The whole loop
  // ---------------------------------------------------------------------

  /** A question is open after the loop exactly when some line opened one. */
  lemma {:induction false} ProcessOpen(parts: seq<string>)
    requires Process(parts).Ok?
    ensures Process(parts).value.current.Some? <==> HasQuestion(parts)
    decreases |parts|
  {
    if |parts| > 0 {
      var init := parts[..|parts| - 1];
      ProcessOpen(init);
      StepOpen(Process(init).value, parts[|parts| - 1]);
    }
  }

  /** The questions of a loop that completes are the blocks of its items. */
  lemma {:induction false} ProcessBlocks(parts: seq<string>)
    requires Process(parts).Ok?
    ensures MatchesBlocks(Process(parts).value, LenientItems(parts))
    decreases |parts|
  {
    if |parts| > 0 {
      var init := parts[..|parts| - 1];
      ProcessBlocks(init);
      StepBlocks(Process(init).value, LenientItems(init), parts[|parts| - 1]);
    }
  }

  /** The loop raises exactly when some line raises under the questions
      opened before it. */
  lemma {:induction false} ProcessRaises(parts: seq<string>)
    ensures Process(parts).Err? <==> SomeLineRaises(parts)
    decreases |parts|
  {
    if |parts| > 0 {
      var n := |parts| - 1;
      var init := parts[..n];
      ProcessRaises(init);
      if Process(init).Err? {
        var k :| 0 <= k < |init| && RaisesAt(init, k);
        assert init[..k] == parts[..k];
        assert RaisesAt(parts, k);
      } else {
        ProcessOpen(init);
        StepRaises(Process(init).value, parts[n]);
        RaisesAtLast(parts);
      }
    }
  }

  /** When no earlier line raises, some line raises exactly when the last
      one does. */
  lemma RaisesAtLast(parts: seq<string>)
    requires |parts| > 0
    requires !SomeLineRaises(parts[..|parts| - 1])
    ensures SomeLineRaises(parts) <==> RaisesAt(parts, |parts| - 1)
  {
    var n := |parts| - 1;
    var init := parts[..n];
    forall k | 0 <= k < n
      ensures !RaisesAt(parts, k)
    {
      assert init[k] == parts[k] && init[..k] == parts[..k];
      assert !RaisesAt(init, k);
    }
  }

  // ---------------------------------------------------------------------
  // process_quiz
  // ---------------------------------------------------------------------

  /** The questions `process_quiz` returns are the blocks of the text: one
      per question line, in order, carrying that line's text, the option
      lines that follow it and the last answer among them. Lines before the
      first question are dropped. */
  lemma QuestionsFollowBlocks(content: string)
    requires ProcessQuiz(content).Ok?
    ensures var items := LenientItems(Split(content, '\n'));
      && ProcessQuiz(content).value == Group(items)
      && |ProcessQuiz(content).value| == HeaderCount(items)
      && Texts(ProcessQuiz(content).value) == HeaderTexts(items)
  {
    var items := LenientItems(Split(content, '\n'));
    ProcessBlocks(Split(content, '\n'));
    GroupLength(items);
    GroupTexts(items);
  }

  /** Without a question line nothing is kept: option and answer lines
      outside a question are dropped, not refused. */
  lemma OrphansDropped(content: string)
    requires ProcessQuiz(content).Ok? && !HasQuestion(Split(content, '\n'))
    ensures ProcessQuiz(content).value == []
  {
    ProcessOpen(Split(content, '\n'));
    ProcessBlocks(Split(content, '\n'));
  }

  /** `process_quiz` raises exactly when some line of the text raises under
      the questions opened before it. */
  lemma ProcessQuizRaises(content: string)
    ensures ProcessQuiz(content).Err? <==> SomeLineRaises(Split(content, '\n'))
  {
    var parts := Split(content, '\n');
    ProcessRaises(parts);
    assert ProcessQuiz(content).Err? <==> Process(parts).Err?;
  }

  // ---------------------------------------------------------------------
  // Answer lines
  // ---------------------------------------------------------------------

  /** An answer line stating `n` after whitespace gives the index `n - 1`,
      whatever `n` is: a stated 0 gives -1 and nothing is checked against
      the options. */
  lemma AnswerLineIndex(pad: string, n: nat)
    requires forall k :: 0 <= k < |pad| ==> IsSpace(pad[k])
    ensures var r := AnswerIndex(AnswerPrefix + (pad + Decimal(n)));
      r.Ok? && r.value == n - 1
  {
    var d := Decimal(n);
    ParseIntDecimal(n);
    DigitNotSpace(d[0]);
    DigitNotSpace(d[|d| - 1]);
    AnswerAfterPad(pad, d, n);
  }

  /** A negative stated number `-n` gives the index `-n - 1`. */
  lemma NegativeAnswerLineIndex(pad: string, n: nat)
    requires forall k :: 0 <= k < |pad| ==> IsSpace(pad[k])
    ensures var r := AnswerIndex(AnswerPrefix + (pad + ("-" + Decimal(n))));
      r.Ok? && r.value == -(n as int) - 1
  {
    var d := "-" + Decimal(n);
    ParseIntDecimal(n);
    DigitNotSpace(d[|d| - 1]);
    AnswerAfterPad(pad, d, -(n as int));
  }

  /** An answer line whose text after the colon is whitespace and then an
      integer numeral gives that integer minus one. */
  lemma AnswerAfterPad(pad: string, d: string, v: int)
    requires forall k :: 0 <= k < |pad| ==> IsSpace(pad[k])
    requires ParseInt(d) == Some(v)
    requires d != [] && !IsSpace(d[0]) && !IsSpace(d[|d| - 1])
    ensures var r := AnswerIndex(AnswerPrefix + (pad + d));
      r.Ok? && r.value == v - 1
  {
    var rest := pad + d;
    StatedAfterPrefix(rest);
    ParseIntCharacters(d, ':');
    assert ':' !in rest by {
      forall k | 0 <= k < |rest|
        ensures rest[k] != ':'
      {
        if k >= |pad| {
          assert rest[k] == d[k - |pad|];
        }
      }
    }
    SecondFieldIsRest(AnswerPrefix + rest, ':');
    StripPadded(pad, d);
  }

  /** The text after the answer prefix is what follows its colon. */
  lemma StatedAfterPrefix(rest: string)
    ensures AfterFirst(AnswerPrefix + rest, ':') == Some(rest)
  {
    var head := "Правильный ответ";
    assert AnswerPrefix + rest == head + [':'] + rest;
    AfterFirstAt(head, ':', rest);
  }

  // ---------------------------------------------------------------------
  // No validation
  // ---------------------------------------------------------------------

  lemma StepOnQuestionLine(p: Play, raw: string, rest: string)
    requires KindOf(Strip(raw)) == QuestionStart && AfterFirst(Strip(raw), ':') == Some(rest)
    ensures PStep(p, raw) == Ok(Play(Flush(p), Some(Question(Strip(rest), [], None))))
  {
  }

  /** A text that is a single question line is read as that question with
      no options and no answer: nothing is checked. */
  lemma QuestionWithoutOptions(t: string)
    requires '\n' !in t && (t == [] || !IsSpace(t[|t| - 1]))
    ensures ProcessQuiz(QuestionPrefix + ":" + t) == Ok([Question(Strip(t), [], None)])
  {
    var s := QuestionPrefix + ":" + t;
    SingleQuestionLine(t);
    var q := Question(Strip(t), [], None);
    StepOnQuestionLine(Fresh, s, t);
    assert Flush(Fresh) == [];
    assert [s][..0] == [];
    assert Process([s]) == Ok(Play([], Some(q)));
    assert Flush(Play([], Some(q))) == [q];
  }

  lemma SingleQuestionLine(t: string)
    requires '\n' !in t && (t == [] || !IsSpace(t[|t| - 1]))
    ensures var s := QuestionPrefix + ":" + t;
      && Split(s, '\n') == [s] && Strip(s) == s
      && KindOf(s) == QuestionStart && AfterFirst(s, ':') == Some(t)
  {
    var s := QuestionPrefix + ":" + t;
    assert s == QuestionPrefix + [':'] + t;
    assert s[0] == 'В' && !IsSpace('В');
    assert s[|s| - 1] == (if t == [] then ':' else t[|t| - 1]) && !IsSpace(':');
    assert '\n' !in s by {
      forall k | 0 <= k < |s|
        ensures s[k] != '\n'
      {
        if k > |QuestionPrefix| {
          assert s[k] == t[k - |QuestionPrefix| - 1];
        }
      }
    }
    SplitWithoutSeparator(s, '\n');
    assert [] + s == s;
    StripPadded([], s);
    assert s[..|QuestionPrefix|] == QuestionPrefix;
    AfterFirstAt(QuestionPrefix, ':', t);
  }
}
