/** Properties of the whole normaliser `convert_latex_to_markdown_format`:
    the block pass followed by the inline pass. */
module ConvertFacts {
  import opened Text
  import opened Latex
  import opened LatexFacts

  /** Text with neither `\[` nor `\(` comes back unchanged. */
  lemma PlainTextUnchanged(s: string)
    requires !HasPair(s, '\\', '[')
    requires !HasPair(s, '\\', '(')
    ensures ConvertLatexToMarkdown(s) == s
  {
    NoOpenerIdentity(Block, s);
    NoOpenerIdentity(Inline, s);
  }

  /** The normaliser leaves a text unchanged exactly when neither pattern
      matches at any of its positions. */
  lemma FixpointIff(s: string)
    ensures ConvertLatexToMarkdown(s) == s <==>
              && (forall i :: 0 <= i < |s| ==> Match(Block, s[i..]).None?)
              && (forall i :: 0 <= i < |s| ==> Match(Inline, s[i..]).None?)
  {
    var b := Sub(Block, s);
    BlockKeepsLength(s);
    InlineLength(b);
    SubIdentityIff(Block, s);
    SubIdentityIff(Inline, s);
    if ConvertLatexToMarkdown(s) == s {
      assert SpanCount(Parse(Inline, b)) == 0;
      RenderWithoutSpans(Inline, Parse(Inline, b));
      assert Sub(Inline, b) == b;
    }
  }

  /** `\[ body \]` becomes `$$ body $$` when the body holds no `\]` (newlines
      are allowed) and no `\(` for the inline pass to rewrite. */
  lemma BlockMath(body: string)
    requires !HasPair(body, '\\', ']')
    requires !HasPair(body, '\\', '(')
    ensures ConvertLatexToMarkdown("\\[" + body + "\\]") == "$$" + body + "$$"
  {
    BlockSpan(body);
    var out := "$$" + body + "$$";
    PairConcat("$$", body, '\\', '(');
    PairConcat("$$" + body, "$$", '\\', '(');
    NoOpenerIdentity(Inline, out);
  }

  /** `\( body \)` becomes `$ body $` when the body holds no `\)`, no newline,
      and no `\[` for the block pass to rewrite first. */
  lemma InlineMath(body: string)
    requires !HasPair(body, '\\', ')')
    requires '\n' !in body
    requires !HasPair(body, '\\', '[')
    ensures ConvertLatexToMarkdown("\\(" + body + "\\)") == "$" + body + "$"
  {
    var t := "\\(" + body + "\\)";
    PairConcat("\\(", body, '\\', '[');
    PairConcat("\\(" + body, "\\)", '\\', '[');
    NoOpenerIdentity(Block, t);
    SubSpan(Inline, body, []);
    assert t + [] == t;
  }

  /** A block body made of `a`, an inline span over `b`, and `c` holds no
      `\]` when none of the three parts does. */
  lemma NoBlockCloserAcross(a: string, b: string, c: string)
    requires !HasPair(a, '\\', ']') && !HasPair(b, '\\', ']') && !HasPair(c, '\\', ']')
    ensures !HasPair(a + "\\(" + b + "\\)" + c, '\\', ']')
  {
    PairConcat(a, "\\(", '\\', ']');
    PairConcat(a + "\\(", b, '\\', ']');
    PairConcat(a + "\\(" + b, "\\)", '\\', ']');
    PairConcat(a + "\\(" + b + "\\)", c, '\\', ']');
  }

  /** The inline pass over the block pass's output rewrites the inline span
      and nothing else. */
  lemma InlinePassAfterBlock(a: string, b: string, c: string)
    requires !HasPair(a, '\\', '(') && !HasPair(c, '\\', '(')
    requires !HasPair(b, '\\', ')') && '\n' !in b
    ensures Sub(Inline, "$$" + (a + "\\(" + b + "\\)" + c) + "$$") == "$$" + a + "$" + b + "$" + c + "$$"
  {
    var head := "$$" + a;
    var tail := c + "$$";
    var mid := ['\\', '('] + b + ['\\', ')'] + tail;
    calc {
      Sub(Inline, "$$" + (a + "\\(" + b + "\\)" + c) + "$$");
      { assert "$$" + (a + "\\(" + b + "\\)" + c) + "$$" == head + mid; }
      Sub(Inline, head + mid);
      { PairConcat("$$", a, '\\', '('); SubPlainPrefix(Inline, head, mid); }
      head + Sub(Inline, mid);
      { SubSpan(Inline, b, tail); }
      head + ("$" + b + "$" + Sub(Inline, tail));
      { PairConcat(c, "$$", '\\', '('); NoOpenerIdentity(Inline, tail); }
      head + ("$" + b + "$" + tail);
      "$$" + a + "$" + b + "$" + c + "$$";
    }
  }

  /** The block pass turns a block whose body holds an inline span into
      dollars around the same body. */
  lemma BlockPassAroundInline(a: string, b: string, c: string)
    requires !HasPair(a, '\\', ']') && !HasPair(b, '\\', ']') && !HasPair(c, '\\', ']')
    ensures Sub(Block, "\\[" + a + "\\(" + b + "\\)" + c + "\\]") == "$$" + (a + "\\(" + b + "\\)" + c) + "$$"
  {
    var inner := a + "\\(" + b + "\\)" + c;
    assert "\\[" + a + "\\(" + b + "\\)" + c + "\\]" == "\\[" + inner + "\\]";
    NoBlockCloserAcross(a, b, c);
    BlockSpan(inner);
  }

  /** The block pass runs over the whole text first, so an inline span inside
      a block body ends up as `$ … $` inside `$$ … $$`. */
  lemma InlineInsideBlock(a: string, b: string, c: string)
    requires !HasPair(a, '\\', ']') && !HasPair(b, '\\', ']') && !HasPair(c, '\\', ']')
    requires !HasPair(a, '\\', '(') && !HasPair(c, '\\', '(')
    requires !HasPair(b, '\\', ')') && '\n' !in b
    ensures ConvertLatexToMarkdown("\\[" + a + "\\(" + b + "\\)" + c + "\\]") == "$$" + a + "$" + b + "$" + c + "$$"
  {
    BlockPassAroundInline(a, b, c);
    InlinePassAfterBlock(a, b, c);
  }

  /** Text free of all three delimiters the passes look for. */
  predicate Undelimited(x: string) {
    && !HasPair(x, '\\', '[')
    && !HasPair(x, '\\', ']')
    && !HasPair(x, '\\', '(')
  }

  /** Gluing delimiter-free parts with `$$` keeps the text free of openers. */
  lemma DollarJoinPlain(x: string, y: string, z: string, a: char)
    requires a != '$'
    requires !HasPair(x, '\\', a) && !HasPair(y, '\\', a) && !HasPair(z, '\\', a)
    ensures !HasPair(x + "$$" + y + "$$" + z, '\\', a)
  {
    PairConcat(x, "$$", '\\', a);
    PairConcat(x + "$$", y, '\\', a);
    PairConcat(x + "$$" + y, "$$", '\\', a);
    PairConcat(x + "$$" + y + "$$", z, '\\', a);
  }

  /** The first run's output holds no inline opener. */
  lemma FirstRunOutputPlain(x: string, y: string, z: string)
    requires Undelimited(x) && Undelimited(y) && Undelimited(z)
    ensures !HasPair("$$" + x + "\\[" + y + "$$" + z + "\\]", '\\', '(')
  {
    PairConcat("$$", x, '\\', '(');
    PairConcat("$$" + x, "\\[", '\\', '(');
    PairConcat("$$" + x + "\\[", y, '\\', '(');
    PairConcat("$$" + x + "\\[" + y, "$$", '\\', '(');
    PairConcat("$$" + x + "\\[" + y + "$$", z, '\\', '(');
    PairConcat("$$" + x + "\\[" + y + "$$" + z, "\\]", '\\', '(');
  }

  /** First run over a block whose body holds another block opener: the outer
      opener pairs with the nearest closer, so the inner opener and the last
      closer are copied. */
  lemma NestedBlockFirstRun(x: string, y: string, z: string)
    requires Undelimited(x) && Undelimited(y) && Undelimited(z)
    ensures ConvertLatexToMarkdown("\\[" + x + "\\[" + y + "\\]" + z + "\\]")
              == "$$" + x + "\\[" + y + "$$" + z + "\\]"
  {
    var body := x + "\\[" + y;
    var rest := z + "\\]";
    var out := "$$" + x + "\\[" + y + "$$" + z + "\\]";
    calc {
      Sub(Block, "\\[" + x + "\\[" + y + "\\]" + z + "\\]");
      { assert "\\[" + x + "\\[" + y + "\\]" + z + "\\]" == ['\\', '['] + body + ['\\', ']'] + rest; }
      Sub(Block, ['\\', '['] + body + ['\\', ']'] + rest);
      { PairConcat(x, "\\[", '\\', ']');
        PairConcat(x + "\\[", y, '\\', ']');
        SubSpan(Block, body, rest); }
      "$$" + body + "$$" + Sub(Block, rest);
      { PairConcat(z, "\\]", '\\', '['); NoOpenerIdentity(Block, rest); }
      "$$" + body + "$$" + rest;
      out;
    }
    calc {
      Sub(Inline, out);
      { FirstRunOutputPlain(x, y, z); NoOpenerIdentity(Inline, out); }
      out;
    }
  }

  /** The second run's output holds no inline opener. */
  lemma SecondRunOutputPlain(x: string, y: string, z: string)
    requires Undelimited(x) && Undelimited(y) && Undelimited(z)
    ensures !HasPair("$$" + x + "$$" + y + "$$" + z + "$$", '\\', '(')
  {
    DollarJoinPlain(x, y, z, '(');
    PairConcat("$$", x + "$$" + y + "$$" + z, '\\', '(');
    PairConcat("$$" + (x + "$$" + y + "$$" + z), "$$", '\\', '(');
    assert "$$" + (x + "$$" + y + "$$" + z) + "$$" == "$$" + x + "$$" + y + "$$" + z + "$$";
  }

  /** Second run: the surviving opener now pairs with the surviving closer. */
  lemma NestedBlockSecondRun(x: string, y: string, z: string)
    requires Undelimited(x) && Undelimited(y) && Undelimited(z)
    ensures ConvertLatexToMarkdown("$$" + x + "\\[" + y + "$$" + z + "\\]")
              == "$$" + x + "$$" + y + "$$" + z + "$$"
  {
    var head := "$$" + x;
    var body := y + "$$" + z;
    var span := ['\\', '['] + body + ['\\', ']'] + [];
    var out := "$$" + x + "$$" + y + "$$" + z + "$$";
    calc {
      Sub(Block, "$$" + x + "\\[" + y + "$$" + z + "\\]");
      { assert "$$" + x + "\\[" + y + "$$" + z + "\\]" == head + span; }
      Sub(Block, head + span);
      { PairConcat("$$", x, '\\', '['); SubPlainPrefix(Block, head, span); }
      head + Sub(Block, span);
      { DollarJoinPlain([], y, z, ']');
        assert [] + "$$" + y + "$$" + z == "$$" + body;
        PairConcat("$$", body, '\\', ']');
        SubSpan(Block, body, []); }
      head + ("$$" + body + "$$" + Sub(Block, []));
      out;
    }
    calc {
      Sub(Inline, out);
      { SecondRunOutputPlain(x, y, z); NoOpenerIdentity(Inline, out); }
      out;
    }
  }

  /** The normaliser is not idempotent: a block opener nested in a block body
      survives one run and is rewritten by the next. */
  lemma NotIdempotent(x: string, y: string, z: string)
    requires Undelimited(x) && Undelimited(y) && Undelimited(z)
    ensures var s := "\\[" + x + "\\[" + y + "\\]" + z + "\\]";
            ConvertLatexToMarkdown(ConvertLatexToMarkdown(s)) != ConvertLatexToMarkdown(s)
  {
    NestedBlockFirstRun(x, y, z);
    NestedBlockSecondRun(x, y, z);
    var once := "$$" + x + "\\[" + y + "$$" + z + "\\]";
    var twice := "$$" + x + "$$" + y + "$$" + z + "$$";
    assert once[|x| + 2] == '\\';
    assert twice[|x| + 2] == '$';
  }

  /** Wrapping a body in inline delimiters between texts free of `\[` adds no `\[`. */
  lemma NoBlockOpenerAround(head: string, body: string, tail: string)
    requires !HasPair(head, '\\', '[') && !HasPair(body, '\\', '[') && !HasPair(tail, '\\', '[')
    ensures !HasPair(head + "\\(" + body + "\\)" + tail, '\\', '[')
  {
    PairConcat(head, "\\(", '\\', '[');
    PairConcat(head + "\\(", body, '\\', '[');
    PairConcat(head + "\\(" + body, "\\)", '\\', '[');
    PairConcat(head + "\\(" + body + "\\)", tail, '\\', '[');
  }

  /** The inline pass over an inline span inside otherwise plain text. */
  lemma InlinePassInText(head: string, body: string, tail: string)
    requires !HasPair(head, '\\', '(') && !HasPair(tail, '\\', '(')
    requires !HasPair(body, '\\', ')') && '\n' !in body
    ensures Sub(Inline, head + "\\(" + body + "\\)" + tail) == head + "$" + body + "$" + tail
  {
    var span := ['\\', '('] + body + ['\\', ')'] + tail;
    calc {
      Sub(Inline, head + "\\(" + body + "\\)" + tail);
      { assert head + "\\(" + body + "\\)" + tail == head + span; }
      Sub(Inline, head + span);
      { SubPlainPrefix(Inline, head, span); }
      head + Sub(Inline, span);
      { SubSpan(Inline, body, tail); }
      head + ("$" + body + "$" + Sub(Inline, tail));
      { NoOpenerIdentity(Inline, tail); }
      head + ("$" + body + "$" + tail);
      head + "$" + body + "$" + tail;
    }
  }

  /** An inline span inside otherwise plain text is rewritten and the text
      around it is copied. */
  lemma InlineSpanInText(head: string, body: string, tail: string)
    requires Undelimited(head) && Undelimited(tail)
    requires !HasPair(body, '\\', ')') && '\n' !in body && !HasPair(body, '\\', '[')
    ensures ConvertLatexToMarkdown(head + "\\(" + body + "\\)" + tail) == head + "$" + body + "$" + tail
  {
    var t := head + "\\(" + body + "\\)" + tail;
    calc {
      Sub(Block, t);
      { NoBlockOpenerAround(head, body, tail); NoOpenerIdentity(Block, t); }
      t;
    }
    InlinePassInText(head, body, tail);
  }

  /** Idempotence does hold on text without `\[` and `\(`. */
  lemma IdempotentOnPlainText(s: string)
    requires !HasPair(s, '\\', '[')
    requires !HasPair(s, '\\', '(')
    ensures ConvertLatexToMarkdown(ConvertLatexToMarkdown(s)) == ConvertLatexToMarkdown(s)
  {
    PlainTextUnchanged(s);
  }
}
