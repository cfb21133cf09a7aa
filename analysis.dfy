/** The analyze handler `process_image`: a generator that saves the upload to
    a fixed scratch path, runs the detector, then the captioner, yielding a
    triple (annotated image, status text, session path) after each stage. */
module Analysis {
  import opened Protocol

  /** The image the detector returns; the handler only passes it on. */
  datatype AnnotatedImage = AnnotatedImage(handle: nat)

  /** The image input: nothing uploaded (`None`), or an uploaded image
      together with the outcome of saving it to the scratch path. */
  datatype Upload = NoImage | Uploaded(saved: Outcome<()>)

  /** One yielded triple, bound to the output image, the status text and
      the session path slot. */
  datatype ImageEvent = ImageEvent(image: Option<AnnotatedImage>, text: string, path: Option<string>)

  const UploadPath := "temp/uploaded.jpg"
  const AnalyzingStatus := "\U{1F50D} Analyzing image..."
  const GeneratingStatus := "\U{1F4DD} Generating caption..."
  const CaptionPrefix := "\U{2728} "

  function ErrorEvent(msg: string): ImageEvent
  {
    ImageEvent(None, ErrorPrefix + msg, None)
  }

  /** The steps of one run of `process_image`, given what the image write,
      the detector and the captioner would do. The handler is a generator,
      so its early `return` for a missing image yields nothing at all. Any
      exception from a stage ends the run with one error triple. */
  function AnalyzeTrace(image: Upload, detect: Outcome<AnnotatedImage>, caption: Outcome<string>)
    : (r: seq<Step<ImageEvent>>)
    ensures r == [] <==> image.NoImage?
    ensures r != [] ==> r[0] == Invoke(WriteUpload(UploadPath)) && r[|r| - 1].Yield?
    ensures r != [] ==>
      (r[|r| - 1].event.path == Some(UploadPath) <==> image.saved.Ok? && detect.Ok? && caption.Ok?)
    ensures forall k :: 0 <= k < |r| && r[k].Invoke? ==> r[k].call.path == UploadPath
  {
    match image
    case NoImage => []
    case Uploaded(saved) =>
      [Invoke(WriteUpload(UploadPath))] +
      match saved
      case Fail(m) => [Yield(ErrorEvent(m))]
      case Ok(_) =>
        [Yield(ImageEvent(None, AnalyzingStatus, None)), Invoke(Detect(UploadPath))] +
        match detect
        case Fail(m) => [Yield(ErrorEvent(m))]
        case Ok(img) =>
          [Yield(ImageEvent(Some(img), GeneratingStatus, Some(UploadPath))), Invoke(Caption(UploadPath))] +
          match caption
          case Fail(m) => [Yield(ErrorEvent(m))]
          case Ok(c) => [Yield(ImageEvent(Some(img), CaptionPrefix + c, Some(UploadPath)))]
  }

  /** A status that announces the next stage, as opposed to a final result
      or an error. */
  predicate IsProgress(e: ImageEvent)
  {
    e.text == AnalyzingStatus || e.text == GeneratingStatus
  }

  lemma FinalTextsAreNotProgress(rest: string)
    ensures !IsProgress(ErrorEvent(rest))
    ensures !IsProgress(ImageEvent(None, CaptionPrefix + rest, None))
  {
    PrefixedDiffers(ErrorPrefix, rest, AnalyzingStatus);
    PrefixedDiffers(ErrorPrefix, rest, GeneratingStatus);
    PrefixedDiffers(CaptionPrefix, rest, AnalyzingStatus);
    PrefixedDiffers(CaptionPrefix, rest, GeneratingStatus);
  }

  /** What a run yields and calls, stage by stage. */
  lemma {:induction false} AnalyzeSteps(image: Upload, detect: Outcome<AnnotatedImage>, caption: Outcome<string>)
    ensures var t := AnalyzeTrace(image, detect, caption);
      && (image.NoImage? ==> Yields(t) == [] && Calls(t) == [])
      && (image.Uploaded? && image.saved.Fail? ==>
            Yields(t) == [ErrorEvent(image.saved.msg)] && Calls(t) == [WriteUpload(UploadPath)])
      && (image.Uploaded? && image.saved.Ok? && detect.Fail? ==>
            Yields(t) == [ImageEvent(None, AnalyzingStatus, None), ErrorEvent(detect.msg)]
            && Calls(t) == [WriteUpload(UploadPath), Detect(UploadPath)])
      && (image.Uploaded? && image.saved.Ok? && detect.Ok? ==>
            Calls(t) == [WriteUpload(UploadPath), Detect(UploadPath), Caption(UploadPath)]
            && Yields(t) == [ImageEvent(None, AnalyzingStatus, None),
                             ImageEvent(Some(detect.value), GeneratingStatus, Some(UploadPath)),
                             if caption.Fail? then ErrorEvent(caption.msg)
                             else ImageEvent(Some(detect.value), CaptionPrefix + caption.value, Some(UploadPath))])
  {
    if image.Uploaded? {
      var t := AnalyzeTrace(image, detect, caption);
      var rest := t[1..];
      assert t == [Invoke(WriteUpload(UploadPath))] + rest;
      CallFirst(WriteUpload(UploadPath), rest);
      if image.saved.Fail? {
        StepAlone(Yield(ErrorEvent(image.saved.msg)));
      } else {
        var analyzing := ImageEvent(None, AnalyzingStatus, None);
        var rest2 := rest[2..];
        assert Yields(rest) == [analyzing] + Yields(rest2) && Calls(rest) == [Detect(UploadPath)] + Calls(rest2) by {
          assert rest == [Yield(analyzing), Invoke(Detect(UploadPath))] + rest2;
          YieldThenCall(analyzing, Detect(UploadPath), rest2);
        }
        if detect.Fail? {
          StepAlone(Yield(ErrorEvent(detect.msg)));
        } else {
          var shown := ImageEvent(Some(detect.value), GeneratingStatus, Some(UploadPath));
          var rest3 := rest2[2..];
          assert Yields(rest2) == [shown] + Yields(rest3) && Calls(rest2) == [Caption(UploadPath)] + Calls(rest3) by {
            assert rest2 == [Yield(shown), Invoke(Caption(UploadPath))] + rest3;
            YieldThenCall(shown, Caption(UploadPath), rest3);
          }
          assert Yields(rest3) == [rest3[0].event] && Calls(rest3) == [] by {
            assert rest3 == [rest3[0]];
            StepAlone(rest3[0]);
          }
        }
      }
    }
  }

  /** A missing image yields nothing and calls nothing; an uploaded image
      yields one to three triples, every one but the last a progress status
      and the last a result or an error. If the save fails, the only triple
      is the error and the detector is never called. If it succeeds, the
      "analyzing" triple (with no path) is yielded after the write and
      before the detector is called. */
  lemma AnalyzeEventOrder(image: Upload, detect: Outcome<AnnotatedImage>, caption: Outcome<string>)
    ensures image.NoImage? ==> AnalyzeTrace(image, detect, caption) == []
    ensures image.Uploaded? ==>
      var t := AnalyzeTrace(image, detect, caption);
      var evs := Yields(t);
      && 1 <= |evs| <= 3
      && !IsProgress(evs[|evs| - 1])
      && (forall i :: 0 <= i < |evs| - 1 ==> IsProgress(evs[i]))
    ensures image.Uploaded? && image.saved.Fail? ==>
      var t := AnalyzeTrace(image, detect, caption);
      Yields(t) == [ImageEvent(None, ErrorPrefix + image.saved.msg, None)]
      && Detect(UploadPath) !in Calls(t)
    ensures forall c :: c in Calls(AnalyzeTrace(image, detect, caption)) ==> c.path == UploadPath
    ensures image.Uploaded? && image.saved.Ok? ==>
      var t := AnalyzeTrace(image, detect, caption);
      t[..3] == [Invoke(WriteUpload(UploadPath)), Yield(ImageEvent(None, AnalyzingStatus, None)), Invoke(Detect(UploadPath))]
  {
    AnalyzeSteps(image, detect, caption);
    if image.Uploaded? {
      FinalTextsAreNotProgress(if image.saved.Fail? then image.saved.msg else if detect.Fail? then detect.msg
                               else if caption.Fail? then caption.msg else caption.value);
    }
  }

  /** Every triple carries either no path or the scratch path; a triple
      carries the path exactly when it carries the detector's image, so the
      final caption triple shows the same annotated image as the
      "generating caption" triple before it. */
  lemma AnalyzePaths(image: Upload, detect: Outcome<AnnotatedImage>, caption: Outcome<string>)
    ensures var evs := Yields(AnalyzeTrace(image, detect, caption));
      forall e :: e in evs ==>
        && (e.path == None || e.path == Some(UploadPath))
        && (e.path.Some? <==> e.image.Some?)
        && (e.image.Some? ==> detect == Ok(e.image.value))
  {
    AnalyzeSteps(image, detect, caption);
  }

  /** The outputs after a run: unchanged without an image; otherwise the
      last triple. The session path ends as the scratch path exactly when
      saving, detection and captioning all succeeded, and as `None` after
      any failure, although an earlier triple of the same run may have
      carried the path. */
  lemma AnalyzeSessionSlot(before: ImageEvent, image: Upload, detect: Outcome<AnnotatedImage>, caption: Outcome<string>)
    ensures var after := Overwrite(before, Yields(AnalyzeTrace(image, detect, caption)));
      && (image.NoImage? ==> after == before)
      && (image.Uploaded? ==>
            && (after.path == Some(UploadPath) <==> image.saved.Ok? && detect.Ok? && caption.Ok?)
            && (after.path == None <==> !(image.saved.Ok? && detect.Ok? && caption.Ok?)))
      && (image.Uploaded? && image.saved.Ok? && detect.Ok? && caption.Ok? ==>
            after == ImageEvent(Some(detect.value), CaptionPrefix + caption.value, Some(UploadPath)))
  {
    AnalyzeSteps(image, detect, caption);
    OverwriteKeepsLast(before, Yields(AnalyzeTrace(image, detect, caption)));
  }
}
