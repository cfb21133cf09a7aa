/** The interface state the two buttons share. The analyze button binds the
    triples of `process_image` to the output image, the status text and the
    session slot `image_path_state`; the ask button reads that slot and
    binds the texts of `process_question` to the answer box. */
module Wiring {
  import opened Protocol
  import opened PyText
  import opened Analysis
  import opened Ask

  class Session {
    var outputImage: Option<AnnotatedImage>
    var outputText: string
    var slot: Option<string>
    var answerOutput: string
    /** Every backend call made so far, in order. */
    ghost var calls: seq<Call>

    /** The slot only ever holds what an analyze triple carried. */
    ghost predicate Valid()
      reads this
    {
      slot == None || slot == Some(UploadPath)
    }

    /** A fresh session: empty outputs and no analyzed image. */
    constructor ()
      ensures Valid()
      ensures outputImage == None && outputText == "" && answerOutput == ""
      ensures slot == None && calls == []
    {
      outputImage := None;
      outputText := "";
      slot := None;
      answerOutput := "";
      calls := [];
    }

    /** A click on the analyze button: each triple `process_image` yields
        overwrites the three bound outputs in turn. */
    method Analyze(image: Upload, detect: Outcome<AnnotatedImage>, caption: Outcome<string>)
      requires Valid()
      modifies this
      ensures Valid()
      ensures var t := AnalyzeTrace(image, detect, caption);
        && ImageEvent(outputImage, outputText, slot)
           == Overwrite(ImageEvent(old(outputImage), old(outputText), old(slot)), Yields(t))
        && calls == old(calls) + Calls(t)
      ensures answerOutput == old(answerOutput)
      ensures image.NoImage? ==>
        outputImage == old(outputImage) && outputText == old(outputText) && slot == old(slot)
      ensures image.Uploaded? ==>
        (slot == Some(UploadPath) <==> image.saved.Ok? && detect.Ok? && caption.Ok?)
    {
      var t := AnalyzeTrace(image, detect, caption);
      AnalyzeSessionSlot(ImageEvent(outputImage, outputText, slot), image, detect, caption);
      var shown := Overwrite(ImageEvent(outputImage, outputText, slot), Yields(t));
      outputImage, outputText, slot := shown.image, shown.text, shown.path;
      calls := calls + Calls(t);
    }

    /** A click on the ask button: `process_question` reads the slot, never
        writes it, and each text it yields overwrites the answer box. */
    method Ask(question: string, answer: Outcome<string>)
      requires Valid()
      modifies this`answerOutput, this`calls
      ensures Valid() && slot == old(slot)
      ensures var t := AskTrace(slot, question, answer);
        && answerOutput == Overwrite(old(answerOutput), Yields(t))
        && calls == old(calls) + Calls(t)
      ensures slot.None? || IsBlank(question) ==>
        answerOutput == old(answerOutput) && calls == old(calls)
      ensures slot.Some? && !IsBlank(question) ==>
        answerOutput == AnswerEvent(answer) && calls == old(calls) + [Answer(UploadPath, question)]
    {
      var t := ProcessQuestion(slot, question, answer);
      AskRejects(slot, question, answer);
      if slot.Some? && !IsBlank(question) {
        AskSequence(slot, question, answer);
      }
      OverwriteKeepsLast(answerOutput, Yields(t));
      answerOutput := Overwrite(answerOutput, Yields(t));
      calls := calls + Calls(t);
    }
  }

  /** After an analysis in which every stage succeeded, a non-blank question
      reaches the answerer with the scratch path, and the answer box ends
      with the answerer's reply verbatim (after its prefix), whatever the
      slot held before. */
  lemma HandoffAfterSuccess(before: ImageEvent, img: AnnotatedImage, cap: string,
                            question: string, answer: Outcome<string>)
    requires !IsBlank(question)
    ensures var evs := Yields(AnalyzeTrace(Uploaded(Ok(())), Ok(img), Ok(cap)));
      var slot := Overwrite(before, evs).path;
      var t := AskTrace(slot, question, answer);
      && Calls(t) == [Answer(UploadPath, question)]
      && Yields(t)[|Yields(t)| - 1] == AnswerEvent(answer)
      && (answer.Ok? && answer.value != "" ==>
            Yields(t)[|Yields(t)| - 1] == AnswerPrefix + answer.value)
  {
    AnalyzeSessionSlot(before, Uploaded(Ok(())), Ok(img), Ok(cap));
    AskSequence(Some(UploadPath), question, answer);
  }

  /** After an analysis of an uploaded image in which any stage failed
      (saving, detection or captioning), the slot is `None`, so the next
      question yields nothing and reaches no backend, even if an earlier
      analysis had succeeded. */
  lemma FailedAnalysisSilencesAsk(before: ImageEvent, image: Upload, detect: Outcome<AnnotatedImage>,
                                  caption: Outcome<string>, question: string, answer: Outcome<string>)
    requires image.Uploaded? && !(image.saved.Ok? && detect.Ok? && caption.Ok?)
    ensures var slot := Overwrite(before, Yields(AnalyzeTrace(image, detect, caption))).path;
      slot == None && AskTrace(slot, question, answer) == []
  {
    AnalyzeSessionSlot(before, image, detect, caption);
  }

  /** Without an image the analyze click changes nothing, so a session that
      could answer questions before still can. */
  lemma MissingImageKeepsSession(before: ImageEvent, detect: Outcome<AnnotatedImage>,
                                 caption: Outcome<string>, question: string, answer: Outcome<string>)
    ensures var slot := Overwrite(before, Yields(AnalyzeTrace(NoImage, detect, caption))).path;
      AskTrace(slot, question, answer) == AskTrace(before.path, question, answer)
  {
    AnalyzeSessionSlot(before, NoImage, detect, caption);
  }
}
