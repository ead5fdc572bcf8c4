/** The prompt sent to the model (math-prodigy-bot.py, lines 96-106): an
    f-string naming the chosen explanation detail in lower case and whether
    practice problems were asked for, stripped of surrounding whitespace. */
module Prompt {
  import opened Text

  /** The three options of the explanation-detail select box (line 41). */
  datatype Detail = Brief | Standard | InDepth

  /** The practice-set radio (line 46). */
  datatype Practice = Yes | No

  /** The label the select box shows for each detail option, and returns. */
  function Label(d: Detail): string {
    match d
    case Brief => "Brief overview"
    case Standard => "Standard step-by-step"
    case InDepth => "In-depth explanation with reasoning"
  }

  /** The string the practice radio returns. */
  function Choice(p: Practice): string {
    match p
    case Yes => "Yes"
    case No => "No"
  }

  /** The phrase asked for with practice problems. */
  const PracticePhrase: string := "similar problems for practice"

  /** The phrase asked for without them. */
  const SolutionPhrase: string := "only the solution"

  /** The phrase line 101 substitutes, chosen by comparing the radio's value
      with "Yes". */
  function Request(p: Practice): string {
    if Choice(p) == "Yes" then PracticePhrase else SolutionPhrase
  }

  // The fixed text of the template (lines 97-103), written as concatenated pieces.

  /** Line 97 and the start of line 99, up to the detail slot. */
  const Intro: string :=
    "A user has uploaded a " + "screenshot of a math " + "problem." + "\n\n    "
    + "Please solve it and " + "provide a **"

  /** The rest of line 99 and the start of line 101, up to the request slot. */
  const Middle: string :=
    "** explanation, as per " + "the defined explanation " + "styles." + "\n\n    "
    + "The user has requested **"

  /** The rest of line 101 and line 103. */
  const Outro: string :=
    "**." + "\n\n    " + "Structure your response " + "clearly and format all "
    + "math using Markdown " + "and LaTeX."

  /** What the template holds between its opening and closing indentation. */
  function Body(d: Detail, p: Practice): string {
    Intro + Lower(Label(d)) + Middle + Request(p) + Outro
  }

  /** The f-string of lines 96-104 as written: it opens with a newline and the
      indentation of line 97 and closes with a newline and the indentation of
      line 104. */
  function Template(d: Detail, p: Practice): string {
    "\n    " + Body(d, p) + "\n    "
  }

  /** The text handed to the model: `prompt.strip()` (line 106). Stripping
      removes exactly the template's opening and closing indentation, so the
      model receives the body as written. */
  function PromptText(d: Detail, p: Practice): (r: string)
    ensures r == Body(d, p)
  {
    var b := Body(d, p);
    assert b[0] == 'A';
    assert b[|b| - 1] == '.';
    StripFramed("\n    ", b, "\n    ");
    Strip(Template(d, p))
  }

  /** The lower-cased labels the prompt embeds. */
  lemma LowerLabels()
    ensures Lower(Label(Brief)) == "brief overview"
    ensures Lower(Label(Standard)) == "standard step-by-step"
    ensures Lower(Label(InDepth)) == "in-depth explanation with reasoning"
  {
    LowerInDepth();
  }

  /** The longest label, lower-cased in two pieces. */
  lemma LowerInDepth()
    ensures Lower(Label(InDepth)) == "in-depth explanation with reasoning"
  {
    calc {
      Lower(Label(InDepth));
      { assert Label(InDepth) == "In-depth explanation " + "with reasoning"; }
      Lower("In-depth explanation " + "with reasoning");
      { LowerConcat("In-depth explanation ", "with reasoning"); }
      Lower("In-depth explanation ") + Lower("with reasoning");
      { assert Lower("In-depth explanation ") == "in-depth explanation ";
        assert Lower("with reasoning") == "with reasoning"; }
      "in-depth explanation " + "with reasoning";
      "in-depth explanation with reasoning";
    }
  }


  /** The prompt names the chosen detail, lower-cased. */
  lemma PromptNamesDetail(d: Detail, p: Practice)
    ensures Contains(PromptText(d, p), Lower(Label(d)))
  {
    var words := Lower(Label(d));
    ContainsSuffix(Intro, words);
    ContainsAppend(Intro + words, Middle, words);
    ContainsAppend(Intro + words + Middle, Request(p), words);
    ContainsAppend(Intro + words + Middle + Request(p), Outro, words);
  }

  // Neither `ms` (from "problems") nor `nl` (from "only") occurs in the text
  // the two prompts share.

  lemma IntroLacksMs()
    ensures !HasPair(Intro, 'm', 's')
  {
  }

  lemma IntroLacksNl()
    ensures !HasPair(Intro, 'n', 'l')
  {
  }

  lemma MiddleLacksMs()
    ensures !HasPair(Middle, 'm', 's')
  {
  }

  lemma MiddleLacksNl()
    ensures !HasPair(Middle, 'n', 'l')
  {
  }

  lemma OutroLacksMs()
    ensures !HasPair(Outro, 'm', 's')
  {
  }

  lemma OutroLacksNl()
    ensures !HasPair(Outro, 'n', 'l')
  {
  }

  lemma LabelLacksMs(d: Detail)
    ensures !HasPair(Lower(Label(d)), 'm', 's')
  {
    LowerLabels();
  }

  lemma LabelLacksNl(d: Detail)
    ensures !HasPair(Lower(Label(d)), 'n', 'l')
  {
    LowerLabels();
  }

  /** A pair absent from the shared text and from the request phrase, and
      from every seam between them, is absent from the prompt. */
  lemma BodyLacksPair(d: Detail, p: Practice, a: char, b: char)
    requires (a, b) == ('m', 's') || (a, b) == ('n', 'l')
    requires !HasPair(Request(p), a, b)
    ensures !HasPair(Body(d, p), a, b)
  {
    if (a, b) == ('m', 's') {
      IntroLacksMs();
      MiddleLacksMs();
      OutroLacksMs();
      LabelLacksMs(d);
    } else {
      IntroLacksNl();
      MiddleLacksNl();
      OutroLacksNl();
      LabelLacksNl(d);
    }
    var words := Lower(Label(d));
    LowerLabels();
    PairConcat(Intro, words, a, b);
    PairConcat(Intro + words, Middle, a, b);
    PairConcat(Intro + words + Middle, Request(p), a, b);
    PairConcat(Intro + words + Middle + Request(p), Outro, a, b);
  }

  lemma PhrasePairs()
    ensures HasPair(PracticePhrase, 'm', 's') && !HasPair(PracticePhrase, 'n', 'l')
    ensures HasPair(SolutionPhrase, 'n', 'l') && !HasPair(SolutionPhrase, 'm', 's')
  {
    assert PracticePhrase[14] == 'm' && PracticePhrase[15] == 's';
    assert SolutionPhrase[1] == 'n' && SolutionPhrase[2] == 'l';
  }

  /** The request slot holds the phrase the radio picks. */
  lemma RequestPhrase(p: Practice)
    ensures Request(p) == (if p == Yes then PracticePhrase else SolutionPhrase)
  {
  }

  /** The prompt holds whatever its request slot holds. */
  lemma PromptHoldsRequest(d: Detail, p: Practice)
    ensures Contains(PromptText(d, p), Request(p))
  {
    ContainsSuffix(Intro + Lower(Label(d)) + Middle, Request(p));
    ContainsAppend(Intro + Lower(Label(d)) + Middle + Request(p), Outro, Request(p));
  }

  /** The prompt asks for "similar problems for practice" exactly when the
      radio says "Yes", and for "only the solution" exactly when it says "No". */
  lemma PromptPractice(d: Detail, p: Practice)
    ensures Contains(PromptText(d, p), "similar problems for practice") <==> p == Yes
    ensures Contains(PromptText(d, p), "only the solution") <==> p == No
  {
    PhrasePairs();
    RequestPhrase(p);
    PromptHoldsRequest(d, p);
    if p == Yes {
      BodyLacksPair(d, p, 'n', 'l');
      PairInherited(Body(d, p), SolutionPhrase, 'n', 'l');
    } else {
      BodyLacksPair(d, p, 'm', 's');
      PairInherited(Body(d, p), PracticePhrase, 'm', 's');
    }
  }
}
