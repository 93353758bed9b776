/** The quiz data shared by the authoring parser, the play-time processor
    and the quiz-taking session, and a declarative description of how quiz
    text is made of question blocks. */
module QuizModel {
  import opened Wrappers

  /** One multiple-choice question: its text, its options in input order and
      the 0-based index of the correct option, when an answer line gave one.
      The same shape serves for a question under construction, a parsed
      question and a question replayed at play time. */
  datatype Question = Question(text: string, options: seq<string>, correctAnswer: Option<int>)

  /** An authored quiz as the parser returns it. */
  datatype Quiz = Quiz(title: string, description: string, questions: seq<Question>)

  /** The most questions one quiz may hold. */
  const MaxQuestions: nat := 50

  /** A question fit to be played: non-empty text, at least two options and
      a correct answer that indexes one of them. */
  predicate WellFormed(q: Question)
  {
    && q.text != []
    && |q.options| >= 2
    && q.correctAnswer.Some?
    && 0 <= q.correctAnswer.value < |q.options|
  }

  // ---------------------------------------------------------------------
  // Question blocks
  // ---------------------------------------------------------------------

  /** What one line of quiz text contributes to the question list, once a
      parser has classified it: a question header with its text, an option
      with its text, a stated 0-based answer, or nothing. */
  datatype Item = Header(text: string) | Opt(text: string) | Ans(value: int) | Skip

  /** How a sequence of items lays out into questions: the items before the
      first header, which belong to no question, and the questions. */
  datatype Layout = Layout(preamble: seq<Item>, questions: seq<Question>)

  /** Every header opens a question whose options and answer come from the
      run of non-header items that follows it, up to the next header. */
  function LayoutOf(items: seq<Item>): (l: Layout)
    ensures forall k :: 0 <= k < |l.preamble| ==> !l.preamble[k].Header?
    decreases |items|
  {
    if |items| == 0 then Layout([], [])
    else
      var rest := LayoutOf(items[1..]);
      if items[0].Header? then Layout([], [Collect(items[0].text, rest.preamble)] + rest.questions)
      else Layout([items[0]] + rest.preamble, rest.questions)
  }

  /** The questions a sequence of items describes. */
  function Group(items: seq<Item>): seq<Question>
  {
    LayoutOf(items).questions
  }

  /** The option texts of a block body, in order. */
  function OptionsIn(body: seq<Item>): (opts: seq<string>)
    ensures |opts| <= |body|
    decreases |body|
  {
    if |body| == 0 then []
    else
      var last := body[|body| - 1];
      OptionsIn(body[..|body| - 1]) + (if last.Opt? then [last.text] else [])
  }

  /** The answer a block body states, if any. */
  function AnswerIn(body: seq<Item>): Option<int>
    decreases |body|
  {
    if |body| == 0 then None
    else if body[|body| - 1].Ans? then Some(body[|body| - 1].value)
    else AnswerIn(body[..|body| - 1])
  }

  /** The question a header with text `text` and body `body` describes. */
  function Collect(text: string, body: seq<Item>): Question
  {
    Question(text, OptionsIn(body), AnswerIn(body))
  }

  /** What a non-header item adds to the question it belongs to. */
  function Extend(q: Question, it: Item): Question
  {
    match it
    case Opt(t) => q.(options := q.options + [t])
    case Ans(v) => q.(correctAnswer := Some(v))
    case _ => q
  }

  /** The number of headers among the items. */
  function HeaderCount(items: seq<Item>): nat
    decreases |items|
  {
    if |items| == 0 then 0
    else HeaderCount(items[..|items| - 1]) + (if items[|items| - 1].Header? then 1 else 0)
  }

  /** The header texts, in order. */
  function HeaderTexts(items: seq<Item>): seq<string>
    decreases |items|
  {
    if |items| == 0 then []
    else
      var last := items[|items| - 1];
      HeaderTexts(items[..|items| - 1]) + (if last.Header? then [last.text] else [])
  }

  function Texts(qs: seq<Question>): seq<string>
    decreases |qs|
  {
    if |qs| == 0 then [] else Texts(qs[..|qs| - 1]) + [qs[|qs| - 1].text]
  }

  // ---------------------------------------------------------------------
  // Lemmas about blocks
  // ---------------------------------------------------------------------

  /** Appending an item to a body extends the block's question by it. */
  lemma CollectSnoc(text: string, body: seq<Item>, it: Item)
    requires !it.Header?
    ensures Collect(text, body + [it]) == Extend(Collect(text, body), it)
  {
    assert (body + [it])[..|body|] == body;
  }

  /** A header starts a new question with no options and no answer. */
  lemma {:induction false} GroupSnocHeader(items: seq<Item>, it: Item)
    requires it.Header?
    ensures LayoutOf(items + [it]) ==
      Layout(LayoutOf(items).preamble, Group(items) + [Question(it.text, [], None)])
    decreases |items|
  {
    if |items| > 0 {
      assert (items + [it])[1..] == items[1..] + [it];
      GroupSnocHeader(items[1..], it);
      var r := LayoutOf(items[1..]);
      if items[0].Header? {
        var c := Collect(items[0].text, r.preamble);
        assert [c] + (r.questions + [Question(it.text, [], None)])
            == ([c] + r.questions) + [Question(it.text, [], None)];
      }
    } else {
      assert [it][1..] == [];
    }
  }

  /** Any other item extends the last question, or joins the preamble while
      there is no question yet. */
  lemma {:induction false} GroupSnocOther(items: seq<Item>, it: Item)
    requires !it.Header?
    ensures var l := LayoutOf(items);
      LayoutOf(items + [it]) ==
        if |l.questions| == 0 then Layout(l.preamble + [it], [])
        else Layout(l.preamble, l.questions[..|l.questions| - 1]
                                + [Extend(l.questions[|l.questions| - 1], it)])
    decreases |items|
  {
    if |items| > 0 {
      assert (items + [it])[1..] == items[1..] + [it];
      GroupSnocOther(items[1..], it);
      var r := LayoutOf(items[1..]);
      if items[0].Header? {
        var c := Collect(items[0].text, r.preamble);
        if |r.questions| == 0 {
          CollectSnoc(items[0].text, r.preamble, it);
        } else {
          var g := r.questions;
          assert ([c] + g)[..|g|] == [c] + g[..|g| - 1];
        }
      } else {
        assert [items[0]] + (r.preamble + [it]) == ([items[0]] + r.preamble) + [it];
      }
    } else {
      assert [it][1..] == [];
    }
  }

  /** There is one question per header. */
  lemma {:induction false} GroupLength(items: seq<Item>)
    ensures |Group(items)| == HeaderCount(items)
    decreases |items|
  {
    if |items| > 0 {
      var init := items[..|items| - 1];
      var it := items[|items| - 1];
      assert items == init + [it];
      GroupLength(init);
      if it.Header? { GroupSnocHeader(init, it); } else { GroupSnocOther(init, it); }
    }
  }

  lemma TextsSnoc(qs: seq<Question>, q: Question)
    ensures Texts(qs + [q]) == Texts(qs) + [q.text]
  {
    assert (qs + [q])[..|qs|] == qs;
  }

  /** The questions carry the header texts, in the order of the headers. */
  lemma {:induction false} GroupTexts(items: seq<Item>)
    ensures Texts(Group(items)) == HeaderTexts(items)
    decreases |items|
  {
    if |items| > 0 {
      var init := items[..|items| - 1];
      var it := items[|items| - 1];
      assert items == init + [it];
      GroupTexts(init);
      var g := Group(init);
      if it.Header? {
        GroupSnocHeader(init, it);
        TextsSnoc(g, Question(it.text, [], None));
      } else {
        GroupSnocOther(init, it);
        if |g| > 0 {
          var front := g[..|g| - 1];
          assert g == front + [g[|g| - 1]];
          TextsSnoc(front, g[|g| - 1]);
          TextsSnoc(front, Extend(g[|g| - 1], it));
        }
      }
    }
  }

  /** The answer of a block is the last one its body states: later answer
      lines overwrite earlier ones, and a body without one leaves it unset. */
  lemma {:induction false} AnswerInIsLast(body: seq<Item>, k: int)
    requires -1 <= k < |body|
    requires k >= 0 ==> body[k].Ans?
    requires forall m :: k < m < |body| ==> !body[m].Ans?
    ensures AnswerIn(body) == if k >= 0 then Some(body[k].value) else None
    decreases |body|
  {
    if |body| > 0 && k < |body| - 1 {
      var init := body[..|body| - 1];
      assert forall m :: k < m < |init| ==> init[m] == body[m];
      AnswerInIsLast(init, k);
    }
  }
}
