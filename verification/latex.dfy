/** The LaTeX delimiter normaliser `convert_latex_to_markdown_format`
    (math-prodigy-bot.py, lines 111-122): two `re.sub` passes, each modelled as
    the left-to-right scan Python's regex engine performs. */
module Latex {
  import opened Wrappers
  import opened Text

  /** One `re.sub` pass: the pattern is a backslash followed by `open`, a
      lazy `(.*?)` body, and a backslash followed by `close`; `dotAll` says
      whether `.` may match a newline, and `dollars` is written in place of
      each of the two delimiters. */
  datatype Pass = Pass(open: char, close: char, dotAll: bool, dollars: string)

  /** Line 117: `\[ … \]` becomes `$$ … $$`, and with `re.DOTALL` the body may span lines. */
  const Block := Pass('[', ']', true, "$$")

  /** Line 120: `\( … \)` becomes `$ … $`, and without `re.DOTALL` the body stays on one line. */
  const Inline := Pass('(', ')', false, "$")

  /** One of the two passes the normaliser runs. */
  predicate IsPass(p: Pass) {
    p == Block || p == Inline
  }

  /** `t` starts with the pass's opener. */
  predicate OpensAt(p: Pass, t: string) {
    |t| >= 2 && t[0] == '\\' && t[1] == p.open
  }

  /** The pass's closer occupies `t[k]` and `t[k + 1]`. */
  predicate ClosesAt(p: Pass, t: string, k: nat) {
    k + 1 < |t| && t[k] == '\\' && t[k + 1] == p.close
  }

  /** Every character of `t[from..to]` can be consumed by the regex `.`. */
  predicate DotsMatch(p: Pass, t: string, from: nat, to: nat)
    requires from <= to <= |t|
  {
    p.dotAll || forall m :: from <= m < to ==> t[m] != '\n'
  }

  /** Declarative reading of a match at the start of `t`: the opener is there,
      the closer begins at `k`, no closer begins earlier in the body, and `.`
      accepts the whole body `t[2..k]`. */
  predicate MatchEndsAt(p: Pass, t: string, k: nat) {
    && OpensAt(p, t)
    && 2 <= k
    && ClosesAt(p, t, k)
    && (forall m :: 2 <= m < k ==> !ClosesAt(p, t, m))
    && DotsMatch(p, t, 2, k)
  }

  /** The lazy `(.*?)` followed by the closer, as the backtracking engine runs
      it: with the body read so far ending at `k`, first try the closer at `k`;
      failing that, let `.` take `t[k]` if it may and try again one further on;
      otherwise this attempt fails. */
  function LazyClose(p: Pass, t: string, k: nat): (r: Option<nat>)
    requires k <= |t|
    ensures r.Some? ==> && k <= r.value && ClosesAt(p, t, r.value)
                        && (forall m :: k <= m < r.value ==> !ClosesAt(p, t, m))
                        && DotsMatch(p, t, k, r.value)
    ensures r.None? ==> forall e :: k <= e && ClosesAt(p, t, e) ==> !DotsMatch(p, t, k, e)
    decreases |t| - k
  {
    if ClosesAt(p, t, k) then Some(k)
    else if k < |t| && (p.dotAll || t[k] != '\n') then LazyClose(p, t, k + 1)
    else None
  }

  /** Tries the pattern at the start of `t`; on success returns where the closer
      begins. The regex engine's answer agrees with the declarative reading:
      it finds `k` exactly when `k` is the nearest eligible closer. */
  function Match(p: Pass, t: string): (r: Option<nat>)
    ensures forall k: nat :: MatchEndsAt(p, t, k) <==> r == Some(k)
    ensures r.Some? ==> 2 <= r.value && r.value + 2 <= |t|
  {
    if OpensAt(p, t) then LazyClose(p, t, 2) else None
  }

  /** A body the pattern can match: it holds no closer, and no newline unless
      the pass has `re.DOTALL`. */
  predicate ValidBody(p: Pass, body: string) {
    && !HasPair(body, '\\', p.close)
    && (!p.dotAll ==> '\n' !in body)
  }

  /** One step of the scan: a character copied as it is, or a matched span
      whose body is kept verbatim. */
  datatype Piece = Lit(c: char) | Span(body: string)

  /** The input text a piece was read from. */
  function Source(p: Pass, pc: Piece): string {
    match pc
    case Lit(c) => [c]
    case Span(b) => ['\\', p.open] + b + ['\\', p.close]
  }

  /** The output text a piece is replaced by (`$$\1$$` or `$\1$`). */
  function Target(p: Pass, pc: Piece): string {
    match pc
    case Lit(c) => [c]
    case Span(b) => p.dollars + b + p.dollars
  }

  function Unparse(p: Pass, ps: seq<Piece>): string
    decreases |ps|
  {
    if |ps| == 0 then [] else Source(p, ps[0]) + Unparse(p, ps[1..])
  }

  function Render(p: Pass, ps: seq<Piece>): string
    decreases |ps|
  {
    if |ps| == 0 then [] else Target(p, ps[0]) + Render(p, ps[1..])
  }

  function SpanCount(ps: seq<Piece>): nat
    decreases |ps|
  {
    if |ps| == 0 then 0 else (if ps[0].Span? then 1 else 0) + SpanCount(ps[1..])
  }

  /** The scan `re.sub` performs: where the pattern matches, a span is taken
      and the scan resumes after its closer; elsewhere one character is copied
      and the scan moves on by one. Nothing is lost or reordered (the pieces
      spell the input back), and every span's body is one the pattern can match. */
  function Parse(p: Pass, s: string): (r: seq<Piece>)
    ensures Unparse(p, r) == s
    ensures forall i :: 0 <= i < |r| && r[i].Span? ==> ValidBody(p, r[i].body)
    ensures |s| > 0 ==> |r| > 0 && r[0] == (if Match(p, s).Some? then Span(s[2..Match(p, s).value]) else Lit(s[0]))
    decreases |s|
  {
    if |s| == 0 then []
    else match Match(p, s)
      case Some(k) =>
        assert MatchEndsAt(p, s, k);
        BodyOfMatch(p, s, k);
        assert s == Source(p, Span(s[2..k])) + s[k + 2..];
        [Span(s[2..k])] + Parse(p, s[k + 2..])
      case None =>
        assert s == Source(p, Lit(s[0])) + s[1..];
        [Lit(s[0])] + Parse(p, s[1..])
  }

  /** The body of a match is a valid body. */
  lemma BodyOfMatch(p: Pass, t: string, k: nat)
    requires MatchEndsAt(p, t, k)
    ensures ValidBody(p, t[2..k])
  {
    var b := t[2..k];
    forall i | 0 <= i < |b| - 1
      ensures !(b[i] == '\\' && b[i + 1] == p.close)
    {
      assert !ClosesAt(p, t, i + 2);
    }
    if !p.dotAll {
      forall i | 0 <= i < |b| ensures b[i] != '\n' {
        assert t[i + 2] != '\n';
      }
    }
  }

  /** Length bookkeeping over pieces: each span's two 2-character delimiters
      are replaced by two copies of `dollars`. */
  lemma {:induction false} RenderLength(p: Pass, ps: seq<Piece>)
    ensures |Render(p, ps)| + (4 - 2 * |p.dollars|) * SpanCount(ps) == |Unparse(p, ps)|
    decreases |ps|
  {
    if |ps| > 0 {
      RenderLength(p, ps[1..]);
    }
  }

  /** Pieces without a span render back to the text they were read from. */
  lemma {:induction false} RenderWithoutSpans(p: Pass, ps: seq<Piece>)
    ensures SpanCount(ps) == 0 ==> Render(p, ps) == Unparse(p, ps)
    decreases |ps|
  {
    if |ps| > 0 {
      RenderWithoutSpans(p, ps[1..]);
    }
  }

  /** One `re.sub` pass over the whole text: the pieces the scan reads, each
      written out. Each span changes the length by four minus twice the
      dollars, and text in which the scan takes no span is unchanged. */
  function Sub(p: Pass, s: string): (r: string)
    ensures |r| + (4 - 2 * |p.dollars|) * SpanCount(Parse(p, s)) == |s|
    ensures SpanCount(Parse(p, s)) == 0 ==> r == s
  {
    var ps := Parse(p, s);
    RenderLength(p, ps);
    RenderWithoutSpans(p, ps);
    Render(p, ps)
  }

  /** `convert_latex_to_markdown_format`: the block pass over the whole text,
      then the inline pass over its result. The block pass keeps the length
      and each inline span removes two characters; text in which neither
      pass finds a span comes back unchanged. */
  function ConvertLatexToMarkdown(text: string): (r: string)
    ensures |r| + 2 * SpanCount(Parse(Inline, Sub(Block, text))) == |text|
    ensures SpanCount(Parse(Block, text)) == 0 && SpanCount(Parse(Inline, text)) == 0 ==> r == text
  {
    var blocks := Sub(Block, text);
    assert |blocks| == |text|;
    Sub(Inline, blocks)
  }
}
