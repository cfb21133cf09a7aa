/** The ask handler `process_question`: a generator that checks the session
    path and the question, yields three "thinking" statuses, calls the
    question answerer and yields one final text. */
module Ask {
  import opened Protocol
  import opened PyText

  const ThinkingStatus := "\U{1F4AD} Thinking"
  const AnswerPrefix := "\U{1F4A1} "
  const NoAnswer := "\U{1F937} No answer generated"

  /** Python truthiness of the session path: `None` and `""` are false. */
  predicate IsTruthy(path: Option<string>): (r: bool)
    ensures !r <==> path == None || path == Some("")
  {
    path.Some? && path.value != ""
  }

  /** The status yielded on the `i`-th turn of the counting loop. */
  function Thinking(i: nat): string
    requires i < 3
  {
    ThinkingStatus + "..."[..i + 1]
  }

  /** The three statuses, in the order the loop yields them. */
  function ThinkingEvents(): seq<string>
  {
    [Thinking(0), Thinking(1), Thinking(2)]
  }

  /** The statuses are "Thinking" followed by one, two and three dots: each
      is one dot longer than the one before. */
  lemma ThinkingLiteral()
    ensures ThinkingEvents() == ["\U{1F4AD} Thinking.", "\U{1F4AD} Thinking..", "\U{1F4AD} Thinking..."]
    ensures forall i :: 0 < i < 3 ==> ThinkingEvents()[i] == ThinkingEvents()[i - 1] + "."
  {
    assert "..."[..1] == "." && "..."[..2] == ".." && "..."[..3] == "...";
    assert ThinkingStatus + "." == "\U{1F4AD} Thinking.";
    assert ThinkingStatus + ".." == "\U{1F4AD} Thinking..";
    assert ThinkingStatus + "..." == "\U{1F4AD} Thinking...";
  }

  /** The final text for what the answerer did: the answer when it is not
      empty, a fixed placeholder when it is, the error message when the
      answerer raised. The answer and the error message are shown in full,
      at the end of the text. */
  function AnswerEvent(answer: Outcome<string>): (r: string)
    ensures answer.Fail? ==> |answer.msg| < |r| && r[|r| - |answer.msg|..] == answer.msg
    ensures answer.Ok? && answer.value != "" ==>
      |answer.value| < |r| && r[|r| - |answer.value|..] == answer.value
  {
    match answer
    case Fail(m) => ErrorPrefix + m
    case Ok(a) => if a != "" then AnswerPrefix + a else NoAnswer
  }

  /** The final text never starts the way a status does, and it is the
      placeholder exactly for an empty answer, never for an error. */
  lemma AnswerEventKinds(answer: Outcome<string>)
    ensures var r := AnswerEvent(answer);
      && r != [] && r[0] != ThinkingStatus[0]
      && (r == NoAnswer <==> answer == Ok(""))
  {
    match answer
    case Fail(m) =>
      PrefixedDiffers(ErrorPrefix, m, NoAnswer);
      assert (ErrorPrefix + m)[0] == ErrorPrefix[0];
    case Ok(a) =>
      if a != "" {
        PrefixedDiffers(AnswerPrefix, a, NoAnswer);
        assert (AnswerPrefix + a)[0] == AnswerPrefix[0];
      }
  }

  /** The final text is never one of the thinking statuses, so exactly one
      event of a run is not a status. */
  lemma AnswerIsNotThinking(answer: Outcome<string>)
    ensures AnswerEvent(answer) !in ThinkingEvents()
  {
    AnswerEventKinds(answer);
    var r := AnswerEvent(answer);
    assert r == [r[0]] + r[1..];
    PrefixedDiffers([r[0]], r[1..], Thinking(0));
    PrefixedDiffers([r[0]], r[1..], Thinking(1));
    PrefixedDiffers([r[0]], r[1..], Thinking(2));
  }

  /** The steps of one run of `process_question`. The handler is a
      generator, so its early `return` for a falsy path or a blank question
      yields nothing and calls nothing; the path is tested first. The
      question goes to the answerer unstripped. */
  function AskTrace(path: Option<string>, question: string, answer: Outcome<string>): (r: seq<Step<string>>)
    ensures r != [] ==> r[|r| - 1].Yield? && IsTruthy(path)
  {
    if !IsTruthy(path) || Strip(question) == "" then []
    else
      [Yield(Thinking(0)), Yield(Thinking(1)), Yield(Thinking(2)),
       Invoke(Answer(path.value, question)),
       Yield(AnswerEvent(answer))]
  }

  /** The handler as written: a counting loop yields the statuses, then
      the answerer is called and the final text yielded. */
  method ProcessQuestion(path: Option<string>, question: string, answer: Outcome<string>)
    returns (trace: seq<Step<string>>)
    ensures trace == AskTrace(path, question, answer)
  {
    if path.None? || path.value == "" || Strip(question) == "" {
      return [];
    }
    trace := [];
    for i := 0 to 3
      invariant |trace| == i
      invariant forall k :: 0 <= k < i ==> trace[k] == Yield(Thinking(k))
    {
      trace := trace + [Yield(ThinkingStatus + "..."[..i + 1])];
    }
    assert trace == [Yield(Thinking(0)), Yield(Thinking(1)), Yield(Thinking(2))];
    trace := trace + [Invoke(Answer(path.value, question))];
    trace := trace + [Yield(AnswerEvent(answer))];
    assert trace == [Yield(Thinking(0)), Yield(Thinking(1)), Yield(Thinking(2)),
                     Invoke(Answer(path.value, question)), Yield(AnswerEvent(answer))];
  }

  /** Different outcomes of the answerer are shown as different texts. */
  lemma AnswerEventInjective(x: Outcome<string>, y: Outcome<string>)
    ensures AnswerEvent(x) == AnswerEvent(y) ==> x == y
  {
    if AnswerEvent(x) == AnswerEvent(y) {
      var t := AnswerEvent(x);
      assert t[0] == if x.Fail? then ErrorPrefix[0] else if x.value != "" then AnswerPrefix[0] else NoAnswer[0];
      assert t[0] == if y.Fail? then ErrorPrefix[0] else if y.value != "" then AnswerPrefix[0] else NoAnswer[0];
      if x.Fail? && y.Fail? {
        assert x.msg == t[|ErrorPrefix|..] == y.msg;
      } else if x.Ok? && y.Ok? && x.value != "" && y.value != "" {
        assert x.value == t[|AnswerPrefix|..] == y.value;
      }
    }
  }

  /** Nothing is yielded and the answerer is not called exactly when the
      path is falsy or the question is empty or all whitespace. */
  lemma AskRejects(path: Option<string>, question: string, answer: Outcome<string>)
    ensures AskTrace(path, question, answer) == [] <==> !IsTruthy(path) || IsBlank(question)
    ensures !IsTruthy(path) ==> AskTrace(path, question, answer) == []
  {
    StripEmptyIffBlank(question);
  }

  /** With a truthy path and a non-blank question, the run yields the three
      statuses, then calls the answerer once with the path and the question
      as given, and only then yields the final text. */
  lemma AskSequence(path: Option<string>, question: string, answer: Outcome<string>)
    requires IsTruthy(path) && !IsBlank(question)
    ensures var t := AskTrace(path, question, answer);
      && |t| == 5
      && t[3] == Invoke(Answer(path.value, question))
      && Yields(t) == ThinkingEvents() + [AnswerEvent(answer)]
      && Calls(t) == [Answer(path.value, question)]
  {
    StripEmptyIffBlank(question);
    StatusesCallFinal(Thinking(0), Thinking(1), Thinking(2), Answer(path.value, question), AnswerEvent(answer));
  }
}
