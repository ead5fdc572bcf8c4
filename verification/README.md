# Math Prodigy Bot — verified model of the deterministic core

Math Prodigy Bot is a one-page Streamlit tool. A user uploads a screenshot of a
math problem and picks an explanation detail and whether to get practice
problems. A hosted vision model solves the problem, and the page shows the
answer with its LaTeX delimiters rewritten for Markdown. This project models
the three pieces of deterministic logic in `math-prodigy-bot.py` and proves
properties of them in Dafny:

- **The LaTeX delimiter normaliser** `convert_latex_to_markdown_format`
  (`latex.dfy`). It is two `re.sub` passes. The first rewrites `\[ … \]` to
  `$$ … $$`, and its body may span lines (`re.DOTALL`). The second rewrites
  `\( … \)` to `$ … $`, and its body stays on one line. Both bodies are lazy
  (`.*?`). Each pass is one generic scanner, `Sub`, over a `Pass` record
  (opener, closer, dot-all flag, replacement dollars). `Parse` is the scanner:
  at each position it either takes a match and resumes after the closer, or
  copies one character. `LazyClose` runs the lazy body as the backtracking
  engine does, and `Match`'s contract proves this finds exactly the nearest
  closer whose body `.` can consume. Lemmas are in `latex_facts.dfy` (one pass)
  and `convert_facts.dfy` (both passes).
- **The prompt** (`prompt.dfy`). This is the f-string of lines 96-104, stripped
  as line 106 does. It embeds the lower-cased detail label and one of two
  request phrases.
- **The solve gate and session state** (`session.dfy`). The button handler
  checks for an API key, then for an upload. Only with both does it call the
  model. It then stores the normalised answer and the image together. The page
  shows a result only when both keys are set. The model is a function
  parameter, `Model = Call -> Option<string>`.

`text.dfy` holds shared string facts: adjacent pairs, substrings, Python's
`str.lower` on ASCII, and `str.strip`. `wrappers.dfy` holds `Option`.

What the code does, and the model follows:

- The normaliser is **not** idempotent. `\[ \[ \] \]` normalises to
  `$$ \[ $$ \]`, and normalising that again gives `$$ $$ $$ $$`
  (`ConvertFacts.NotIdempotent`). Idempotence is proved only for text without
  openers.
- With practice problems chosen, the prompt asks for "similar problems for
  practice" (line 101).
- A failing model call is not caught by the handler. The exception propagates
  to Streamlit. The model records this as the `ModelFailed` outcome, which
  leaves the state unchanged and shows no handler message.
- The key is checked before the upload. With neither present, the outcome is
  `MissingKey`.

## Model

| member | source | states |
|---|---|---|
| Latex.LazyClose | math-prodigy-bot.py:117-120 | The lazy `(.*?)` followed by the closer returns the nearest closer at or after its start whose preceding body `.` accepts; when it returns nothing, every closer has a body containing a newline the inline `.` rejects |
| Latex.Match | math-prodigy-bot.py:117-120 | The pattern matches at a position and ends at `k` exactly when an opener is there and `k` is the nearest closer after it, with a body `.` accepts (both directions) |
| Latex.Parse | math-prodigy-bot.py:117-120 | The left-to-right `re.sub` scan loses and reorders nothing (its pieces spell the input back); its first piece is a span ending at the match wherever the pattern matches at the start, and the first character copied otherwise; every span body holds no closer and, for the inline pass, no newline |
| Latex.RenderLength | math-prodigy-bot.py:117-120 | Each rewritten span changes the length by four minus twice the replacement's length |
| Latex.Sub | math-prodigy-bot.py:117-120 | One `re.sub` pass changes the length by four minus twice the replacement's length per span, and returns text in which it takes no span unchanged |
| Latex.ConvertLatexToMarkdown | math-prodigy-bot.py:111-122 | The block pass then the inline pass: the result is shorter than the input by exactly two characters per inline span, and text in which neither pass finds a span comes back unchanged |
| LatexFacts.SubIdentityIff | math-prodigy-bot.py:117-120 | One pass returns its input unchanged exactly when its pattern matches at no position |
| LatexFacts.NoOpenerIdentity | math-prodigy-bot.py:117-120 | Text without the pass's opener is copied unchanged, stray closers included |
| LatexFacts.SubPlainPrefix | math-prodigy-bot.py:117-120 | Text before the first opener is copied verbatim ahead of the pass over the rest |
| LatexFacts.SubSpan | math-prodigy-bot.py:117-120 | An opener, a valid body and the closer become the dollar delimiters around the same body, and the scan resumes after the closer |
| LatexFacts.BlockSpan | math-prodigy-bot.py:117 | `\[ body \]` becomes `$$ body $$` whenever the body has no `\]`, newlines included |
| LatexFacts.BlockKeepsLength | math-prodigy-bot.py:117 | The block pass preserves text length |
| LatexFacts.InlineLength | math-prodigy-bot.py:120 | Each inline replacement shortens the text by exactly two |
| LatexFacts.InlineNewlineNoMatch | math-prodigy-bot.py:120 | An inline opener whose body meets a newline before any `\)` does not match |
| LatexFacts.InlineNewlineBlocks | math-prodigy-bot.py:120 | Such an opener is copied verbatim and the scan continues after it |
| ConvertFacts.PlainTextUnchanged | math-prodigy-bot.py:111-122 | Text containing neither `\[` nor `\(` is returned unchanged |
| ConvertFacts.FixpointIff | math-prodigy-bot.py:111-122 | The normaliser leaves text unchanged exactly when neither pattern matches anywhere in it |
| ConvertFacts.BlockMath | math-prodigy-bot.py:117-120 | `\[ body \]` normalises to `$$ body $$` when the body has no `\]` and no `\(` |
| ConvertFacts.InlineMath | math-prodigy-bot.py:117-120 | `\( body \)` normalises to `$ body $` when the body has no `\)`, no newline and no `\[` |
| ConvertFacts.InlineSpanInText | math-prodigy-bot.py:117-120 | An inline span in otherwise plain text is rewritten and the text around it copied |
| ConvertFacts.InlineInsideBlock | math-prodigy-bot.py:117-120 | Because the block pass runs first over the whole text, an inline span inside a block body ends up as `$…$` inside `$$…$$` |
| ConvertFacts.NestedBlockFirstRun | math-prodigy-bot.py:117-120 | A block opener nested in a block body pairs non-greedily: the outer opener takes the nearest closer, and the inner opener and the last closer are copied |
| ConvertFacts.NestedBlockSecondRun | math-prodigy-bot.py:117-120 | On a second run the surviving opener and closer are paired |
| ConvertFacts.NotIdempotent | math-prodigy-bot.py:111-122 | Normalising twice can differ from normalising once |
| ConvertFacts.IdempotentOnPlainText | math-prodigy-bot.py:111-122 | Normalising twice equals normalising once on text without openers |
| Text.LowerSpec | math-prodigy-bot.py:99 | Lower-casing maps each upper-case letter to its own lower-case letter, leaves no upper-case letter, keeps other characters in place, and is idempotent |
| Text.TrimStart | math-prodigy-bot.py:106 | Removes exactly the longest all-whitespace prefix |
| Text.TrimEnd | math-prodigy-bot.py:106 | Removes exactly the longest all-whitespace suffix |
| Text.StripFramed | math-prodigy-bot.py:106 | `strip()` of text framed by whitespace returns exactly the frame's contents |
| Prompt.PromptText | math-prodigy-bot.py:96-106 | The stripped prompt the model receives is the template without its opening and closing indentation |
| Prompt.LowerLabels | math-prodigy-bot.py:41-99 | The detail labels lower-case to "brief overview", "standard step-by-step" and "in-depth explanation with reasoning" |
| Prompt.PromptNamesDetail | math-prodigy-bot.py:99 | The prompt contains the lower-cased detail label |
| Prompt.PromptPractice | math-prodigy-bot.py:101 | The prompt contains "similar problems for practice" exactly when the radio says Yes, and "only the solution" exactly when it says No |
| Session.Press | math-prodigy-bot.py:159-170 | No key gives MissingKey with the key message of line 161; a key but no upload gives MissingImage with the upload message of line 163; in both the model is not called and the state is unchanged; otherwise no message is shown, one call is made with the key, stripped prompt and image, and only its success writes the normalised answer and the image together |
| Session.Display | math-prodigy-bot.py:173-178 | On a run that reaches line 173, a result is shown exactly when both the solution and the image are stored, and it shows those two values |
| Session.Shown | math-prodigy-bot.py:159-178 | The run of a press shows a result exactly when its call did not raise and both the solution and the image are stored, and it shows those two values |
| Session.PressKeepsPaired | math-prodigy-bot.py:168-170 | A press never stores the solution without the image or the reverse |
| Session.RunKeepsPaired | math-prodigy-bot.py:159-173 | Over any series of presses the key is untouched and the two result keys stay paired |
| Session.DisplayedIffSolved | math-prodigy-bot.py:159-173 | From any session whose solution and image are stored together or not at all, after any series of presses the run of one more press shows a result exactly when its model call did not raise and a solution is stored |
| Session.SolvedIsDisplayed | math-prodigy-bot.py:164-178 | With a key and an upload, a model that returns an answer makes the run show the uploaded image with that answer normalised |
| Session.FailedCallShowsNothing | math-prodigy-bot.py:164-173 | With a key and an upload, a model call that raises leaves the session state as it was, and the run stops before line 173, so it shows nothing, not even an earlier result |
| Session.InlineAnswer | math-prodigy-bot.py:120 | "Solve \(x+1\)=2" normalises to "Solve $x+1$=2" |
| Session.SolveStoresNormalisedAnswer | math-prodigy-bot.py:159-170 | With a key, an upload and a model answering "Solve \(x+1\)=2", the session stores "Solve $x+1$=2" with the uploaded image |

## Left out

- Page layout, CSS, header text, the sidebar key field, the file uploader, the select box, the radio and the download button (lines 7-54, 124-158, 174-189) are Streamlit UI. The key is an input field of `State`, and the widget values are the `Preferences` record.
- Storing the key from the sidebar (lines 17-18) is UI. The gate reads whatever key the session holds.
- Writing the upload to a temporary file (lines 59-61) is filesystem I/O. The model receives the `Upload` value directly. The temporary file is never deleted, and that is not modelled.
- Building the agent and calling `run` (lines 66-94, 106-107) is a network call. It is the `Model` parameter, and its instruction strings are constants for the model with no behaviour to verify.
- Session.Press: a failed call is modelled as a `ModelFailed` outcome with the state unchanged. In the source it is an uncaught exception that ends the script run; `Session.Shown` records that such a run shows no result, but Streamlit's own exception display is not modelled.
- Text.LowerSpec: `Lower` maps only ASCII letters. Python's `str.lower` also maps other scripts, but the labels it is applied to are ASCII.
- The download's file name and MIME type (lines 187-188) are UI constants.
- Python strings may hold lone surrogates; Dafny's `char` cannot. No input of the core depends on them.
