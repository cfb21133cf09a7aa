# Analyze/ask protocol of the vision chatbot, in Dafny

The chatbot is a Gradio app with two buttons. "Analyze Image" runs the
generator `process_image`. It saves the upload to `temp/uploaded.jpg`, runs
the object detector and then the captioner. After each stage it yields a
triple (annotated image, status text, session path). "Ask Question" runs the
generator `process_question`. It checks the session path and the question,
yields three "thinking" statuses, calls the question answerer, and yields one
final text. The two are linked by the session slot `image_path_state`. Every
analyze triple overwrites that slot with its third component. The ask handler
only reads the slot.

The model has five modules:

- `Protocol` (protocol.dfy) holds the shared vocabulary. It defines backend
  outcomes (`Ok(value)` or `Fail(msg)`, where `msg` stands for `str(e)` of the
  exception) and the backend calls. A run of a handler is a trace of steps:
  `Yield(event)` or `Invoke(call)`, in the order they happen. The trace keeps
  the laziness of a generator. For example, the "analyzing" status reaches
  the user before the detector is called. `Overwrite` is how Gradio consumes
  a generator: each yielded value replaces the bound outputs.
- `PyText` (pytext.dfy) models `str.strip()` and Python's whitespace set.
- `Analysis` (analysis.dfy) models `process_image` as a function of what the
  image write, the detector and the captioner do, with lemmas about the
  events, the calls and the final slot.
- `Ask` (ask.dfy) models `process_question`. `AskTrace` is its
  specification. `ProcessQuestion` is the handler as written, with its
  counting loop, and is proved equal to that specification.
- `Wiring` (wiring.dfy) holds the class `Session`. It has the output
  components, the slot `image_path_state`, and a ghost log of backend calls.
  `Analyze` and `Ask` model the two button clicks. The module also has
  lemmas about the handoff from analyze to ask.

Python generator semantics are followed exactly. Both handlers contain
`yield`, so each early `return <value>` (chatbot_app.py lines 117 and 141)
ends the generator without yielding anything. The returned message is never
shown. The program's own messages "🛑 Please upload an image first" (line
117) and "🛑 Missing image or question" (line 141) suggest that they were
meant to reach the user, but they do not, and the model follows the code:

- Analyzing with no image yields no event. The outputs and the slot stay as
  they were, and no "please upload" message appears.
- Asking with a falsy path or a blank question yields no event, and no
  "missing image or question" message appears.
- The "analyzing" triple and every error triple carry `None` as the path.
  So after any failed stage the slot is `None`. This holds for a failed save,
  a failed detection and a failed caption alike. It also holds when an
  earlier triple of the same run had carried the path, and when an earlier
  analysis had succeeded. Every later question then yields nothing
  (`FailedAnalysisSilencesAsk`).

## Model

| member | source | states |
|---|---|---|
| `Protocol.Overwrite` | chatbot_app.py:190-200 | after a handler runs, each bound output holds either its old value or one of the values the handler yielded, and it can only have changed if the handler yielded something |
| `Protocol.OverwriteKeepsLast` | chatbot_app.py:190-200 | after a handler runs, the bound outputs hold its last yielded value, or their old value if it yielded nothing |
| `PyText.TrimStart` | chatbot_app.py:140 | the result is a suffix of the input that does not start with whitespace, and everything removed is whitespace |
| `PyText.TrimEnd` | chatbot_app.py:140 | the result is a prefix of the input that does not end with whitespace, and everything removed is whitespace |
| `PyText.Strip` | chatbot_app.py:140 | `question.strip()` is the contiguous slice of the question that begins where its leading whitespace ends; every character outside that slice is whitespace, and the slice is empty or has non-whitespace at both ends |
| `PyText.StripEmptyIffBlank` | chatbot_app.py:140 | `not question.strip()` holds exactly when the question is empty or all whitespace |
| `Analysis.AnalyzeTrace` | chatbot_app.py:115-137 | a run is empty exactly when no image was given; otherwise it starts with the image write and ends with a yielded triple, that last triple carries the path exactly when save, detection and caption all succeeded, and every backend call is on `temp/uploaded.jpg` |
| `Analysis.AnalyzeSteps` | chatbot_app.py:115-137 | for each combination of outcomes, the exact triples yielded and the exact backend calls made, in order |
| `Analysis.AnalyzeEventOrder` | chatbot_app.py:115-137 | no image gives an empty run; an uploaded image gives 1 to 3 triples, all progress statuses except the last; a failed save gives only the error triple and no detector call; a successful save yields `(None, "🔍 Analyzing image...", None)` after the write and before the detector call; every backend call it makes is on `temp/uploaded.jpg` |
| `Analysis.AnalyzePaths` | chatbot_app.py:121-137 | every triple's path is `None` or `temp/uploaded.jpg`; a triple has a path exactly when it has an image, and that image is the detector's, so the caption triple shows the same image as the "generating caption" triple |
| `Analysis.AnalyzeSessionSlot` | chatbot_app.py:128-137 | without an image the outputs are unchanged; with one, the slot ends as `temp/uploaded.jpg` exactly when save, detection and caption all succeeded, and as `None` otherwise; on full success the outputs show the detector's image and `"✨ " + caption` |
| `Ask.ThinkingLiteral` | chatbot_app.py:143-144 | the statuses are `"💭 Thinking."`, `"💭 Thinking.."`, `"💭 Thinking..."`, each one dot longer than the one before |
| `Ask.AnswerEventKinds` | chatbot_app.py:147-150 | the final text is never empty and never starts like a thinking status, and it is the "🤷 No answer generated" placeholder exactly when the answerer returned the empty string (never for an error) |
| `Ask.AnswerIsNotThinking` | chatbot_app.py:147-150 | the final text is never one of the three thinking statuses |
| `Ask.AnswerEvent` | chatbot_app.py:147-150 | the final text ends with the answerer's non-empty answer, or with the error message `str(e)`, shown in full |
| `Ask.AnswerEventInjective` | chatbot_app.py:147-150 | different answerer outcomes (non-empty answer, empty answer, error message) always produce different final texts |
| `Ask.IsTruthy` | chatbot_app.py:140 | `not image_path` holds exactly when the slot is `None` or the empty string |
| `Ask.AskTrace` | chatbot_app.py:139-150 | a non-empty run ends with a yield and needs a truthy path |
| `Ask.ProcessQuestion` | chatbot_app.py:139-150 | the handler as written, with its counting loop, produces exactly the trace `AskTrace` specifies |
| `Ask.AskRejects` | chatbot_app.py:139-141 | the run is empty (no event, no answerer call) exactly when the path is falsy or the question is blank; a falsy path gives an empty run whatever the question is |
| `Ask.AskSequence` | chatbot_app.py:142-150 | with valid inputs the run has five steps: it yields the three thinking statuses, then calls `vqa.answer` once with the path and the unstripped question, then yields the final text; that is its only backend call |
| `Wiring.Session.constructor` | chatbot_app.py:170 | a new session has an empty slot, empty outputs and no backend calls |
| `Wiring.Session.Analyze` | chatbot_app.py:190-194 | the three outputs are overwritten by each yielded triple in turn; the slot stays `None` or `temp/uploaded.jpg`; without an image nothing changes; with one, the slot is set exactly when every stage succeeded; the answer box is untouched |
| `Wiring.Session.Ask` | chatbot_app.py:196-200 | the slot is only read; the answer box is overwritten by each yielded text; with no slot or a blank question nothing changes and no backend is called; otherwise the box ends with the final text and exactly one answerer call on `temp/uploaded.jpg` is logged |
| `Wiring.HandoffAfterSuccess` | chatbot_app.py:190-200 | after a fully successful analysis, a non-blank question reaches the answerer with `temp/uploaded.jpg`, and the last text is `"💡 " + answer` for a non-empty answer |
| `Wiring.FailedAnalysisSilencesAsk` | chatbot_app.py:190-200 | after an analysis in which any stage failed, the slot is `None` and the next question yields nothing and calls no backend |
| `Wiring.MissingImageKeepsSession` | chatbot_app.py:115-117 | analyzing with no image leaves the slot as it was, so questions behave exactly as before |

## Left out

- The Gradio layout, CSS and HTML (chatbot_app.py:15-85, 152-188) are presentation only. Only the output bindings of the two buttons are kept, as the `Overwrite` rule.
- The API-key file read (lines 12-13) and model initialisation (lines 98-113) are I/O and foreign constructors, and are not modelled.
- `find_free_port` and `demo.launch` (lines 87-96, 202-216) are socket and server plumbing, and are not modelled.
- The image write (lines 119-126) is one outcome, "saved" or "failed with a message". This covers `import cv2`, `os.makedirs`, the `np.ndarray`/PIL branch, `cvtColor`, `imwrite` and `save`. Pixel content is not modelled.
- `time.sleep(0.5)` (line 145) only adds delay and is not modelled.
- The detector, captioner and answerer (YOLO and Gemini) are not part of this model. Each is an oracle outcome given as a parameter. The annotated image is an opaque token.
- The captioner and answerer are taken to return strings. A `None` caption (rendered as "None") and a `None` answer (falsy, so the placeholder) are not modelled.
- The question is always a string, as the textbox supplies. A `None` question, which would raise outside the `try`, is not modelled.
- The value a generator returns is discarded by the interface, so it is not modelled beyond the empty run.
- A handler whose generator yields nothing is taken to leave the bound outputs unchanged.
- Each click runs its handler to the end. Overlapping clicks, a consumer that stops pulling events, and exceptions thrown into a generator are not modelled.
- test_caption.py, test_vqa.py and test_yolo.py are manual scripts with no assertions, and are not modelled.
