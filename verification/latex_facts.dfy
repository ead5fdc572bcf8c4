/** Properties of the normaliser: the length each pass keeps, when a pass
    leaves its input alone, how a single span is rewritten, what a newline
    does to an inline opener, and the order of the two passes. */
module LatexFacts {
  import opened Wrappers
  import opened Text
  import opened Latex

  /** One step of the scan, read off a pass's result: a copied character or a
      rewritten span, followed by the pass over the rest of the text. */
  lemma SubStep(p: Pass, s: string)
    requires |s| > 0
    ensures Match(p, s).None? ==> Sub(p, s) == [s[0]] + Sub(p, s[1..])
    ensures Match(p, s).Some? ==>
              var k := Match(p, s).value;
              2 <= k && k + 2 <= |s| && Sub(p, s) == p.dollars + s[2..k] + p.dollars + Sub(p, s[k + 2..])
  {
    var ps := Parse(p, s);
    assert ps[1..] == Parse(p, s[if Match(p, s).Some? then Match(p, s).value + 2 else 1..]);
    if Match(p, s).Some? {
      assert MatchEndsAt(p, s, Match(p, s).value);
    }
  }

  /** The block pass never changes the length of the text: `\[` and `\]`
      are each replaced by the two characters `$$`. */
  lemma BlockKeepsLength(s: string)
    ensures |Sub(Block, s)| == |s|
  {
    RenderLength(Block, Parse(Block, s));
  }

  /** Every inline replacement shortens the text by exactly two characters. */
  lemma InlineLength(s: string)
    ensures |Sub(Inline, s)| == |s| - 2 * SpanCount(Parse(Inline, s))
  {
    RenderLength(Inline, Parse(Inline, s));
  }

  /** A pass leaves its input unchanged exactly when the pattern matches at
      no position of it. */
  lemma {:induction false} SubIdentityIff(p: Pass, s: string)
    requires IsPass(p)
    ensures Sub(p, s) == s <==> forall i :: 0 <= i < |s| ==> Match(p, s[i..]).None?
    decreases |s|
  {
    if |s| > 0 {
      SubStep(p, s);
      SubIdentityIff(p, s[1..]);
      forall i | 0 <= i < |s| - 1
        ensures s[1..][i..] == s[i + 1..]
      {
      }
      assert s[0..] == s;
      var everywhere := forall i :: 0 <= i < |s| ==> Match(p, s[i..]).None?;
      var later := forall i :: 0 <= i < |s[1..]| ==> Match(p, s[1..][i..]).None?;
      assert everywhere <==> Match(p, s).None? && later by {
        if Match(p, s).None? && later {
          forall i | 0 <= i < |s|
            ensures Match(p, s[i..]).None?
          {
            if i > 0 {
              assert s[i..] == s[1..][i - 1..];
            }
          }
        }
      }
      if Match(p, s).Some? {
        assert MatchEndsAt(p, s, Match(p, s).value);
        assert p.dollars[0] == '$';
        assert Sub(p, s)[0] == '$' && s[0] == '\\';
      } else {
        assert s == [s[0]] + s[1..];
        assert ([s[0]] + Sub(p, s[1..]))[1..] == Sub(p, s[1..]);
      }
    }
  }

  /** A pass leaves text without its opener unchanged: stray closers and all
      other characters are copied. */
  lemma NoOpenerIdentity(p: Pass, s: string)
    requires IsPass(p)
    requires !HasPair(s, '\\', p.open)
    ensures Sub(p, s) == s
  {
    forall i | 0 <= i < |s|
      ensures Match(p, s[i..]).None?
    {
      assert s[i..][0] == s[i];
      assert i + 1 < |s| ==> s[i..][1] == s[i + 1];
    }
    SubIdentityIff(p, s);
  }

  /** Dropping the first character keeps a string free of a pair. */
  lemma PairFreeTail(x: string, a: char, b: char)
    requires |x| > 0 && !HasPair(x, a, b)
    ensures !HasPair(x[1..], a, b)
  {
    assert x == x[..1] + x[1..];
    PairConcat(x[..1], x[1..], a, b);
  }

  /** Text that starts neither with the opener nor with half of one that `y`
      completes is not a match. */
  lemma PlainStart(p: Pass, x: string, y: string)
    requires |x| > 0
    requires !HasPair(x, '\\', p.open)
    requires !Joins(x, y, '\\', p.open)
    ensures Match(p, x + y) == None
  {
    var s := x + y;
    if |x| >= 2 {
      assert s[0] == x[0] && s[1] == x[1];
      assert !(x[0] == '\\' && x[1] == p.open);
    } else if |y| > 0 {
      assert s[0] == x[0] && s[1] == y[0];
    }
  }

  /** A prefix holding no opener, and not forming one with what follows, is
      copied unchanged ahead of the pass over the rest. */
  lemma {:induction false} SubPlainPrefix(p: Pass, x: string, y: string)
    requires !HasPair(x, '\\', p.open)
    requires !Joins(x, y, '\\', p.open)
    ensures Sub(p, x + y) == x + Sub(p, y)
    decreases |x|
  {
    if |x| > 0 {
      var s := x + y;
      PlainStart(p, x, y);
      SubStep(p, s);
      assert s[1..] == x[1..] + y;
      PairFreeTail(x, '\\', p.open);
      SubPlainPrefix(p, x[1..], y);
      assert Sub(p, s) == [x[0]] + (x[1..] + Sub(p, y));
      assert x == [x[0]] + x[1..];
    } else {
      assert x + y == y;
    }
  }

  /** The pattern matches an opener, a valid body and a closer, and the
      match ends at that closer. */
  lemma SpanMatches(p: Pass, body: string, rest: string)
    requires IsPass(p)
    requires ValidBody(p, body)
    ensures Match(p, ['\\', p.open] + body + ['\\', p.close] + rest) == Some(|body| + 2)
  {
    var t := ['\\', p.open] + body + ['\\', p.close] + rest;
    var k := |body| + 2;
    assert ClosesAt(p, t, k);
    forall m | 2 <= m < k
      ensures !ClosesAt(p, t, m)
    {
      assert t[m] == body[m - 2];
      if m + 1 < k {
        assert t[m + 1] == body[m - 1];
      } else {
        assert t[m + 1] == '\\';
      }
    }
    if !p.dotAll {
      forall m | 2 <= m < k
        ensures t[m] != '\n'
      {
        assert t[m] == body[m - 2];
      }
    }
    assert MatchEndsAt(p, t, k);
  }

  /** An opener, a valid body and a closer become `dollars + body + dollars`,
      the body copied verbatim, and the pass carries on after the closer. */
  lemma SubSpan(p: Pass, body: string, rest: string)
    requires IsPass(p)
    requires ValidBody(p, body)
    ensures Sub(p, ['\\', p.open] + body + ['\\', p.close] + rest) == p.dollars + body + p.dollars + Sub(p, rest)
  {
    var t := ['\\', p.open] + body + ['\\', p.close] + rest;
    var k := |body| + 2;
    calc {
      Sub(p, t);
      { SpanMatches(p, body, rest); SubStep(p, t); }
      p.dollars + t[2..k] + p.dollars + Sub(p, t[k + 2..]);
      { assert t[2..k] == body; assert t[k + 2..] == rest; }
      p.dollars + body + p.dollars + Sub(p, rest);
    }
  }

  /** Block pass on one span: `\[ body \]` becomes `$$ body $$`, where the body
      may hold newlines and only has to avoid `\]`. */
  lemma BlockSpan(body: string)
    requires !HasPair(body, '\\', ']')
    ensures Sub(Block, "\\[" + body + "\\]") == "$$" + body + "$$"
  {
    SubSpan(Block, body, []);
    assert "\\[" + body + "\\]" + [] == "\\[" + body + "\\]";
  }

  /** An inline opener whose body reaches a newline before any closer is not
      a match. */
  lemma InlineNewlineNoMatch(t: string, n: nat)
    requires OpensAt(Inline, t)
    requires 2 <= n < |t| && t[n] == '\n'
    requires forall e :: 2 <= e < n ==> !ClosesAt(Inline, t, e)
    ensures Match(Inline, t) == None
  {
    forall k: nat | ClosesAt(Inline, t, k)
      ensures !MatchEndsAt(Inline, t, k)
    {
      if n < k {
        assert !DotsMatch(Inline, t, 2, k) by {
          assert 2 <= n < k && t[n] == '\n';
        }
      } else {
        assert k != n;
      }
    }
  }

  /** Such an opener is copied verbatim, and the scan goes on after its two
      characters. */
  lemma InlineNewlineBlocks(t: string, n: nat)
    requires OpensAt(Inline, t)
    requires 2 <= n < |t| && t[n] == '\n'
    requires forall e :: 2 <= e < n ==> !ClosesAt(Inline, t, e)
    ensures Match(Inline, t) == None
    ensures Sub(Inline, t) == t[..2] + Sub(Inline, t[2..])
  {
    InlineNewlineNoMatch(t, n);
    SubStep(Inline, t);
    var u := t[1..];
    assert !OpensAt(Inline, u);
    SubStep(Inline, u);
    assert u[1..] == t[2..];
    assert t[..2] == [t[0], t[1]];
  }
}
