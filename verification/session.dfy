/** The "Generate Math Solution" button handler and the result display of
    `main` (math-prodigy-bot.py, lines 159-173), as a transition on the
    session state. The call to the hosted model is a parameter. */
module Session {
  import opened Wrappers
  import opened Latex
  import opened Prompt
  import opened Text
  import opened ConvertFacts

  /** An uploaded screenshot, passed on to the model and echoed back for display. */
  datatype Upload = Upload(name: string, bytes: seq<bv8>)

  /** The session-state keys the handler reads and writes: the API key (set
      from the sidebar), the normalised solution and the uploaded image. */
  datatype State = State(apiKey: Option<string>, solution: Option<string>, image: Option<Upload>)

  /** A fresh session: no key, no stored result. */
  const Initial := State(None, None, None)

  /** The widget values of one run of the page (lines 50-54). */
  datatype Preferences = Preferences(upload: Option<Upload>, detail: Detail, practice: Practice)

  /** The one call made to the model: the key the model is built with, the
      stripped prompt and the screenshot. */
  datatype Call = Call(apiKey: string, prompt: string, image: Upload)

  /** The hosted model: it answers a call with text, or fails (raises, or
      returns no content) with None. */
  type Model = Call -> Option<string>

  /** How a press of the button ends. */
  datatype Outcome =
    | MissingKey    // line 161
    | MissingImage  // line 163
    | ModelFailed   // the call raised; nothing in the handler catches it
    | Solved        // lines 169-170

  /** The error shown when no API key is stored (line 161). */
  const KeyMessage: string := "Please provide your OpenAI API key in the sidebar."

  /** The error shown when nothing is uploaded (line 163). */
  const UploadMessage: string := "Please upload a math problem screenshot to proceed."

  /** The result of one press: its outcome, the error message shown (if
      any), the model call made (if any), and the session state afterwards. */
  datatype Step = Step(outcome: Outcome, message: Option<string>, call: Option<Call>, state: State)

  /** A press of the button. The key is checked first, then the upload; only
      with both is the model called, and only a successful call writes the
      normalised answer and the image, together. */
  function Press(s: State, prefs: Preferences, model: Model): (r: Step)
    ensures r.outcome == MissingKey <==> s.apiKey.None?
    ensures r.outcome == MissingImage <==> s.apiKey.Some? && prefs.upload.None?
    ensures r.message == Some(KeyMessage) <==> r.outcome == MissingKey
    ensures r.message == Some(UploadMessage) <==> r.outcome == MissingImage
    ensures r.message.None? <==> r.call.Some?
    ensures r.call.Some? <==> s.apiKey.Some? && prefs.upload.Some?
    ensures r.call.Some? ==>
              r.call.value == Call(s.apiKey.value, PromptText(prefs.detail, prefs.practice), prefs.upload.value)
    ensures r.outcome == Solved <==> r.call.Some? && model(r.call.value).Some?
    ensures r.outcome != Solved ==> r.state == s
    ensures r.outcome == Solved ==>
              && r.state.apiKey == s.apiKey
              && r.state.solution == Some(ConvertLatexToMarkdown(model(r.call.value).value))
              && r.state.image == prefs.upload
  {
    if s.apiKey.None? then Step(MissingKey, Some(KeyMessage), None, s)
    else if prefs.upload.None? then Step(MissingImage, Some(UploadMessage), None, s)
    else
      var call := Call(s.apiKey.value, PromptText(prefs.detail, prefs.practice), prefs.upload.value);
      match model(call)
      case None => Step(ModelFailed, None, Some(call), s)
      case Some(raw) =>
        Step(Solved, None, Some(call), s.(solution := Some(ConvertLatexToMarkdown(raw)), image := prefs.upload))
  }

  /** What line 173 shows: the image and the solution, when both keys are set. */
  function Display(s: State): (r: Option<(Upload, string)>)
    ensures r.Some? <==> s.solution.Some? && s.image.Some?
    ensures r.Some? ==> r.value == (s.image.value, s.solution.value)
  {
    if s.solution.Some? && s.image.Some? then Some((s.image.value, s.solution.value)) else None
  }

  /** The solution and the image are either both stored or both absent. */
  predicate Paired(s: State) {
    s.solution.Some? <==> s.image.Some?
  }

  /** A fresh session stores neither a solution nor an image. */
  lemma InitialIsPaired()
    ensures Paired(Initial)
  {
  }

  /** What the run of a press shows. A press whose call raises ends the run
      before line 173, so nothing is shown; otherwise line 173 shows the
      stored result, if any. */
  function Shown(r: Step): (v: Option<(Upload, string)>)
    ensures v.Some? <==> r.outcome != ModelFailed && r.state.solution.Some? && r.state.image.Some?
    ensures v.Some? ==> v.value == (r.state.image.value, r.state.solution.value)
  {
    if r.outcome == ModelFailed then None else Display(r.state)
  }

  /** A press keeps the two result keys paired. */
  lemma PressKeepsPaired(s: State, prefs: Preferences, model: Model)
    requires Paired(s)
    ensures Paired(Press(s, prefs, model).state)
  {
  }

  /** With a key and an upload, a model that returns `answer` leaves the page
      showing the uploaded image with the normalised `answer`. */
  lemma SolvedIsDisplayed(s: State, prefs: Preferences, answer: string)
    requires s.apiKey.Some? && prefs.upload.Some?
    ensures Shown(Press(s, prefs, _ => Some(answer)))
            == Some((prefs.upload.value, ConvertLatexToMarkdown(answer)))
  {
  }

  /** With a key and an upload, a model call that fails leaves the state as
      it was and its run shows nothing, even a result stored before. */
  lemma FailedCallShowsNothing(s: State, prefs: Preferences)
    requires s.apiKey.Some? && prefs.upload.Some?
    ensures Press(s, prefs, _ => None).outcome == ModelFailed
    ensures Press(s, prefs, _ => None).state == s
    ensures Shown(Press(s, prefs, _ => None)).None?
  {
  }

  /** One press of the button with the widget values and model of that run. */
  datatype Event = Event(prefs: Preferences, model: Model)

  /** The session state after a series of presses. */
  function Run(s: State, events: seq<Event>): State
    decreases |events|
  {
    if |events| == 0 then s
    else Run(Press(s, events[0].prefs, events[0].model).state, events[1..])
  }

  /** However many presses a session sees, its API key is untouched and
      the solution and image are never stored one without the other. */
  lemma {:induction false} RunKeepsPaired(s: State, events: seq<Event>)
    requires Paired(s)
    ensures Paired(Run(s, events))
    ensures Run(s, events).apiKey == s.apiKey
    decreases |events|
  {
    if |events| > 0 {
      var next := Press(s, events[0].prefs, events[0].model).state;
      PressKeepsPaired(s, events[0].prefs, events[0].model);
      RunKeepsPaired(next, events[1..]);
    }
  }

  /** From any session whose result keys are paired (a fresh one, or one the
      page has written), after any series of presses the run of one more
      press shows a result exactly when its call did not fail and a solution
      is stored. */
  lemma DisplayedIffSolved(s: State, events: seq<Event>, prefs: Preferences, model: Model)
    requires Paired(s)
    ensures var r := Press(Run(s, events), prefs, model);
            Shown(r).Some? <==> r.outcome != ModelFailed && r.state.solution.Some?
  {
    RunKeepsPaired(s, events);
    PressKeepsPaired(Run(s, events), prefs, model);
  }

  /** The text around the formula holds no delimiter, and the formula no
      inline closer and no block opener. */
  lemma AnswerParts()
    ensures Undelimited("Solve ") && Undelimited("=2")
    ensures !HasPair("x+1", '\\', ')') && !HasPair("x+1", '\\', '[') && '\n' !in "x+1"
  {
  }

  /** The normalised form of a typical answer with one inline formula. */
  lemma InlineAnswer()
    ensures ConvertLatexToMarkdown("Solve \\(x+1\\)=2") == "Solve $x+1$=2"
  {
    calc {
      ConvertLatexToMarkdown("Solve \\(x+1\\)=2");
      { assert "Solve \\(x+1\\)=2" == "Solve " + "\\(" + "x+1" + "\\)" + "=2"; }
      ConvertLatexToMarkdown("Solve " + "\\(" + "x+1" + "\\)" + "=2");
      { AnswerParts(); InlineSpanInText("Solve ", "x+1", "=2"); }
      "Solve " + "$" + "x+1" + "$" + "=2";
      "Solve $x+1$=2";
    }
  }

  /** With a key, an upload and a model that answers "Solve \(x+1\)=2", the
      session stores "Solve $x+1$=2" next to the uploaded image. */
  lemma SolveStoresNormalisedAnswer(key: string, upload: Upload, d: Detail, p: Practice)
    ensures var r := Press(State(Some(key), None, None), Preferences(Some(upload), d, p),
                           _ => Some("Solve \\(x+1\\)=2"));
            && r.outcome == Solved
            && r.state.solution == Some("Solve $x+1$=2")
            && r.state.image == Some(upload)
  {
    InlineAnswer();
  }
}
