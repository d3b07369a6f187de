/**
 * What `rewrite` does to a token list: plain tokens are copied, `'x`
 * becomes `( quote x )`, and a shorthand definition is replaced by the
 * tokens of its `lambda` text.  In the later revision a definition
 * swallows every token after it into its body.
 */
module SplittingProps {
  import opened Common
  import opened GoText
  import opened Splitting

  /** A token that `rewrite` copies as it is: no shorthand `define`, and no quote in the later revision. */
  predicate Plain(rev: Revision, values: seq<string>, k: nat)
    requires k < |values|
  {
    (values[k] == "define" ==> k + 1 < |values| && values[k + 1] != "(") &&
    (rev == Final ==> values[k] != "'")
  }

  /** From `sp` on, a list of plain tokens is copied unchanged. */
  lemma {:induction false} CopiesPlainTokens(rev: Revision, values: seq<string>, sp: nat)
    requires sp <= |values|
    requires forall k :: sp <= k < |values| ==> Plain(rev, values, k)
    ensures RewriteFrom(rev, values, sp) == Ok(values[sp..])
    decreases |values| - sp
  {
    if sp < |values| {
      assert Branch(rev, values, sp) == Ok(([values[sp]], sp + 1)) by {
        assert Plain(rev, values, sp);
      }
      CopiesPlainTokens(rev, values, sp + 1);
      assert values[sp..] == [values[sp]] + values[sp + 1..];
    }
  }

  /** The earlier revision leaves a list without shorthand definitions as it is. */
  lemma RewriteKeepsPlainList(values: seq<string>)
    requires forall k :: 0 <= k < |values| ==> Plain(TakeThree, values, k)
    ensures Rewrite(TakeThree, values) == Ok(values)
  {
    CopiesPlainTokens(TakeThree, values, 0);
  }

  /** A quote before a single token wraps that token: `' x` becomes `( quote x )`. */
  lemma QuoteAtom(values: seq<string>, sp: nat)
    requires sp + 1 < |values| && values[sp] == "'" && values[sp + 1] != "("
    ensures RewriteFrom(Final, values, sp) ==
            Cons(["(", "quote", values[sp + 1], ")"], RewriteFrom(Final, values, sp + 2))
  {
    assert "'" != "define";
  }

  /**
   * A quote before a list copies the list up to its first `)` and closes
   * the quote there; that `)` is then copied once more as a token of its
   * own, so it closes the quoted list.
   */
  lemma QuoteList(values: seq<string>, sp: nat, c: nat)
    requires sp + 1 < |values| && values[sp] == "'" && values[sp + 1] == "("
    requires CloseFrom(values, sp + 1) == Some(c)
    ensures RewriteFrom(Final, values, sp) ==
            Cons(["(", "quote"] + values[sp + 1..c] + [")"], RewriteFrom(Final, values, c))
  {
    assert "'" != "define";
  }

  /** `'(a)` is rewritten as `( quote ( a ) )`. */
  lemma QuotedListExample()
    ensures Rewrite(Final, ["'", "(", "a", ")"]) == Ok(Tokens(Final, "( quote ( a ) )"))
  {
    var values := ["'", "(", "a", ")"];
    assert CloseFrom(values, 1) == Some(3);
    QuoteList(values, 0, 3);
    assert values[1..3] == ["(", "a"];
    CopiesPlainTokens(Final, values, 3);
    assert values[3..] == [")"];
    var out := ["(", "quote", "(", "a", ")", ")"];
    assert ["(", "quote"] + ["(", "a"] + [")"] + [")"] == out;
    assert RewriteFrom(Final, values, 0) == Ok(out);
    QuotedListText(out);
  }

  lemma QuotedListText(out: seq<string>)
    requires out == ["(", "quote", "(", "a", ")", ")"]
    ensures Join(out, " ") == "( quote ( a ) )"
  {
    JoinCons("(", out[1..], " ");
    JoinCons("quote", out[2..], " ");
    JoinCons("(", out[3..], " ");
    JoinCons("a", out[4..], " ");
    JoinCons(")", out[5..], " ");
  }

  /**
   * Later revision: `define ( f p… ) …` takes every token after the
   * parameters as the body of the `lambda`, so nothing that follows the
   * definition survives outside it.
   */
  lemma DefineSwallowsRest(values: seq<string>, sp: nat, c: nat)
    requires sp + 2 < |values| && values[sp] == "define" && values[sp + 1] == "("
    requires CloseFrom(values, sp + 3) == Some(c)
    ensures RewriteFrom(Final, values, sp) ==
            Ok(Tokens(Final, DefineText(values[sp + 2], values[sp + 3..c], values[c + 1..])))
  {
    var text := DefineText(values[sp + 2], values[sp + 3..c], values[c + 1..]);
    var n: nat := |values|;
    var span := DefineSpan(Final, values, sp + 2);
    assert span == Ok((text, n));
    assert Branch(Final, values, sp) == Expand(Final, span);
    assert Expand(Final, span) == Ok((Tokens(Final, text), n));
    assert Tokens(Final, text) + [] == Tokens(Final, text);
  }

  /**
   * Earlier revision: `define ( f p… ) b… )` takes the body up to the
   * next `)` and goes on after it.
   */
  lemma DefineTakesBodyToClose(values: seq<string>, sp: nat, c: nat, c2: nat)
    requires sp + 2 < |values| && values[sp] == "define" && values[sp + 1] == "("
    requires CloseFrom(values, sp + 3) == Some(c) && CloseFrom(values, c + 1) == Some(c2)
    ensures RewriteFrom(TakeThree, values, sp) ==
            Cons(Tokens(TakeThree, DefineText(values[sp + 2], values[sp + 3..c], values[c + 1..c2])),
                 RewriteFrom(TakeThree, values, c2 + 1))
  {
    var text := DefineText(values[sp + 2], values[sp + 3..c], values[c + 1..c2]);
    var n: nat := c2 + 1;
    var span := DefineSpan(TakeThree, values, sp + 2);
    assert span == Ok((text, n));
    var toks := Tokens(TakeThree, text);
    assert Branch(TakeThree, values, sp) == Ok((toks, n)) by {
      assert Branch(TakeThree, values, sp) == Expand(TakeThree, span);
    }
    assert sp != |values|;
  }

  /** A shorthand definition with no `)` after its parameters reads past the end of the tokens. */
  lemma UnclosedDefinePanics(rev: Revision, values: seq<string>, sp: nat)
    requires sp + 2 < |values| && values[sp] == "define" && values[sp + 1] == "("
    requires CloseFrom(values, sp + 3).None?
    ensures RewriteFrom(rev, values, sp) == Fault(IndexOutOfRange)
  {
  }

  /** `define` as the last token reads past the end of the tokens. */
  lemma TrailingDefinePanics(rev: Revision, values: seq<string>)
    requires |values| >= 1 && values[|values| - 1] == "define"
    ensures RewriteFrom(rev, values, |values| - 1) == Fault(IndexOutOfRange)
  {
  }
}
