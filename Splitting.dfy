/**
 * The lexical stage of the string-splitting pipeline, in its two
 * revisions: take-three.go (`TakeThree`) and its successor eval.go
 * (`Final`).  Comments are cut away, the parentheses are padded with
 * spaces so that splitting on single spaces separates them, and a
 * token-level rewrite expands `(define (f p…) body…)` into an explicit
 * `lambda` and, in the later revision, `'x` into `(quote x)`.
 */
module Splitting {
  import opened Common
  import opened GoText

  /** The two revisions of the pipeline. */
  datatype Revision = TakeThree | Final

  // ---------------------------------------------------------------------
  // stripComments (identical in both revisions)

  /** One line cut at its first `;`. */
  function BeforeSemicolon(line: string): (r: string)
    ensures ';' !in r && |r| <= |line| && r == line[..|r|]
    ensures |r| < |line| ==> line[|r|] == ';'
  {
    if line == [] || line[0] == ';' then []
    else [line[0]] + BeforeSemicolon(line[1..])
  }

  /** The lines of `ls`, each cut at its first `;`. */
  function CutLines(ls: seq<string>): (r: seq<string>)
    ensures |r| == |ls| && forall i :: 0 <= i < |ls| ==> r[i] == BeforeSemicolon(ls[i])
  {
    seq(|ls|, i requires 0 <= i < |ls| => BeforeSemicolon(ls[i]))
  }

  /** The pieces written one after the other. */
  function Concat(parts: seq<string>): string
  {
    if parts == [] then "" else parts[0] + Concat(parts[1..])
  }

  /** `stripComments`: every line cut at its first `;`, the lines joined with nothing between them. */
  function StripComments(code: string): string
  {
    Concat(CutLines(Split(code, '\n')))
  }

  /**
   * A reference definition, character by character: `inComment` holds
   * between a `;` and the end of its line; newlines and commented text
   * are dropped.
   */
  function Uncommented(s: string, inComment: bool): (r: string)
    ensures ';' !in r && '\n' !in r
  {
    if s == [] then ""
    else if s[0] == '\n' then Uncommented(s[1..], false)
    else if inComment || s[0] == ';' then Uncommented(s[1..], true)
    else [s[0]] + Uncommented(s[1..], false)
  }

  /** The lines after the first one, stripped: what is left once a comment runs to the end of its line. */
  function AfterFirstLine(s: string): string
  {
    Concat(CutLines(Split(s, '\n')[1..]))
  }

  /**
   * `stripComments` is the character-level reference: the result never
   * holds a `;` or a newline, and everything else outside comments is
   * kept, in order.
   */
  lemma {:induction false} StripIsUncommented(code: string)
    ensures StripComments(code) == Uncommented(code, false)
    ensures AfterFirstLine(code) == Uncommented(code, true)
    decreases |code|
  {
    if code != [] {
      var t := Split(code[1..], '\n');
      StripIsUncommented(code[1..]);
      if code[0] == '\n' {
        assert Split(code, '\n') == [""] + t;
        assert CutLines([""] + t) == [""] + CutLines(t);
        assert CutLines([""] + t)[1..] == CutLines(t);
      } else {
        var first := [code[0]] + t[0];
        assert Split(code, '\n') == [first] + t[1..];
        assert Split(code, '\n')[1..] == t[1..];
        assert CutLines([first] + t[1..]) == [BeforeSemicolon(first)] + CutLines(t[1..]);
        assert CutLines(t) == [BeforeSemicolon(t[0])] + CutLines(t[1..]);
        assert CutLines(t)[1..] == CutLines(t[1..]);
        assert first[1..] == t[0];
        if code[0] != ';' {
          assert BeforeSemicolon(first) == [code[0]] + BeforeSemicolon(t[0]);
        }
      }
    }
  }

  /** `Join(xs, "")` is the concatenation. */
  lemma {:induction false} JoinEmptyIsConcat(xs: seq<string>)
    ensures Join(xs, "") == Concat(xs)
    decreases |xs|
  {
    if |xs| >= 2 {
      JoinEmptyIsConcat(xs[1..]);
      assert xs[1..][1..] == xs[2..];
    } else if |xs| == 1 {
      assert xs[1..] == [];
    }
  }

  lemma {:induction false} ConcatAppend(a: seq<string>, b: seq<string>)
    ensures Concat(a + b) == Concat(a) + Concat(b)
    decreases |a|
  {
    if a != [] {
      assert (a + b)[1..] == a[1..] + b;
      ConcatAppend(a[1..], b);
    } else {
      assert a + b == b;
    }
  }

  lemma {:induction false} ConcatEmpties(n: nat)
    ensures Concat(seq(n, _ => "")) == ""
    decreases n
  {
    if n > 0 {
      assert seq(n, _ => "")[1..] == seq(n - 1, _ => "");
      ConcatEmpties(n - 1);
    }
  }

  /** The loops of `stripComments`: `output` starts with one empty string per line, then gets the cut lines. */
  method StripCommentsLoop(code: string) returns (r: string)
    ensures r == StripComments(code)
    ensures r == Uncommented(code, false)
  {
    var lines := Split(code, '\n');
    var output: seq<string> := seq(|lines|, _ => "");
    for i := 0 to |lines|
      invariant output == seq(|lines|, _ => "") + CutLines(lines[..i])
    {
      var line := lines[i];
      var newLine := "";
      var j := 0;
      while j < |line| && line[j] != ';'
        invariant j <= |line| && newLine == line[..j] && ';' !in newLine
      {
        newLine := newLine + [line[j]];
        j := j + 1;
      }
      assert newLine == BeforeSemicolon(line) by {
        CutAtFirst(line, j);
      }
      assert CutLines(lines[..i + 1]) == CutLines(lines[..i]) + [newLine];
      output := output + [newLine];
    }
    assert lines[..|lines|] == lines;
    JoinEmptyIsConcat(output);
    ConcatAppend(seq(|lines|, _ => ""), CutLines(lines));
    ConcatEmpties(|lines|);
    r := Join(output, "");
    StripIsUncommented(code);
  }

  /** A line's text before index `j`, when `j` is its first `;` or its end, is the cut line. */
  lemma {:induction false} CutAtFirst(line: string, j: nat)
    requires j <= |line| && ';' !in line[..j] && (j == |line| || line[j] == ';')
    ensures BeforeSemicolon(line) == line[..j]
    decreases j
  {
    if j > 0 {
      assert line[0] == line[..j][0];
      assert line[1..][..j - 1] == line[..j][1..];
      CutAtFirst(line[1..], j - 1);
    }
  }

  // ---------------------------------------------------------------------
  // tokens

  /** The padding applied before splitting. */
  function Pad(rev: Revision, s: string): string
  {
    var parens := Replace(Replace(s, "(", "( "), ")", " )");
    match rev
    case TakeThree => parens
    case Final => Replace(Replace(parens, "  ", " "), "'", "' ")
  }

  /** `tokens(code)`: the stripped, padded text split on single spaces. */
  function Tokens(rev: Revision, code: string): seq<string>
  {
    var s := StripComments(code);
    if rev == Final && s == "" then []
    else Split(Pad(rev, s), ' ')
  }

  /**
   * The tokens hold no space, and joined back with single spaces they are
   * the padded text.  The later revision answers no tokens exactly when
   * nothing is left after stripping; the earlier one always answers at
   * least one (an empty token for empty input).
   */
  lemma TokensShape(rev: Revision, code: string)
    ensures var r := Tokens(rev, code);
            (forall i :: 0 <= i < |r| ==> ' ' !in r[i]) &&
            (r != [] ==> Join(r, " ") == Pad(rev, StripComments(code))) &&
            (rev == Final ==> (r == [] <==> StripComments(code) == "")) &&
            (rev == TakeThree ==> |r| >= 1)
  {
  }

  // ---------------------------------------------------------------------
  // rewrite

  /** The first `)` at or after index `i`. */
  function CloseFrom(values: seq<string>, i: nat): (r: Option<nat>)
    requires i <= |values|
    ensures r.Some? ==> i <= r.value < |values| && values[r.value] == ")"
    ensures r.Some? ==> forall k :: i <= k < r.value ==> values[k] != ")"
    ensures r.None? ==> forall k :: i <= k < |values| ==> values[k] != ")"
    decreases |values| - i
  {
    if i == |values| then None
    else if values[i] == ")" then Some(i)
    else CloseFrom(values, i + 1)
  }

  /** The text `rewrite` formats for a shorthand definition. */
  function DefineText(variable: string, variables: seq<string>, body: seq<string>): string
  {
    "define " + variable + " (lambda (" + Join(variables, " ") + ") (begin " + Join(body, " ") + ")))"
  }

  /**
   * The shorthand `define` branch, entered with `i` at the defined name:
   * the parameters run to the next `)`.  The earlier revision takes the
   * body up to the following `)` and resumes after it; the later one
   * takes every remaining token as the body, so the main loop ends.
   * Answers the `lambda` text it formats and where the main loop resumes.
   */
  function DefineSpan(rev: Revision, values: seq<string>, i: nat): (r: Outcome<(string, nat)>)
    requires 1 <= i <= |values|
    ensures r.Fault? ==> r.msg == IndexOutOfRange
    ensures r.Ok? ==> i < r.value.1 <= |values|
  {
    if i == |values| then Fault(IndexOutOfRange)
    else
      match CloseFrom(values, i + 1)
      case None => Fault(IndexOutOfRange)
      case Some(c) =>
        match rev
        case Final => Ok((DefineText(values[i], values[i + 1..c], values[c + 1..]), |values|))
        case TakeThree =>
          match CloseFrom(values, c + 1)
          case None => Fault(IndexOutOfRange)
          case Some(c2) => Ok((DefineText(values[i], values[i + 1..c], values[c + 1..c2]), c2 + 1))
  }

  /** The formatted `lambda` text, tokenised: what the `define` branch appends. */
  function Expand(rev: Revision, span: Outcome<(string, nat)>): (r: Outcome<(seq<string>, nat)>)
    ensures r.Fault? <==> span.Fault?
    ensures r.Fault? ==> r.msg == span.msg
    ensures r.Ok? ==> r.value.1 == span.value.1
  {
    match span
    case Fault(m) => Fault(m)
    case Ok((text, resume)) => Ok((Tokens(rev, text), resume))
  }

  /**
   * The `'` branch of the later revision, entered with `sp` after the
   * quote: a single token is wrapped as `( quote x )`; a list is copied up
   * to its first `)`, which is left in place for the main loop to copy.
   */
  function QuoteSpan(values: seq<string>, sp: nat): (r: Outcome<(seq<string>, nat)>)
    requires sp <= |values|
    ensures r.Fault? ==> r.msg == IndexOutOfRange
    ensures r.Ok? ==> sp < r.value.1 <= |values|
  {
    if sp == |values| then Fault(IndexOutOfRange)
    else if values[sp] != "(" then Ok((["(", "quote", values[sp], ")"], sp + 1))
    else
      match CloseFrom(values, sp)
      case None => Fault(IndexOutOfRange)
      case Some(c) => Ok((["(", "quote"] + values[sp..c] + [")"], c))
  }

  /** `prefix` in front of a result; a panic stays a panic. */
  function Cons(prefix: seq<string>, r: Outcome<seq<string>>): Outcome<seq<string>>
  {
    if r.Ok? then Ok(prefix + r.value) else r
  }

  /**
   * The main loop of `rewrite` from index `sp` on: each pass appends what
   * its branch emits and goes on from where that branch left `sp`.
   */
  function RewriteFrom(rev: Revision, values: seq<string>, sp: nat): (r: Outcome<seq<string>>)
    requires sp <= |values|
    ensures r.Fault? ==> r.msg == IndexOutOfRange
    decreases |values| - sp
  {
    if sp == |values| then Ok([])
    else
      match Branch(rev, values, sp)
      case Fault(m) => Fault(m)
      case Ok((emitted, resume)) => Cons(emitted, RewriteFrom(rev, values, resume))
  }

  /**
   * One pass of the main loop of `rewrite` with `values[sp]` as its token:
   * what it appends and where the next pass starts.  Reading `values[sp]`
   * past the end panics, as in Go.
   */
  function Branch(rev: Revision, values: seq<string>, sp: nat): (r: Outcome<(seq<string>, nat)>)
    requires sp < |values|
    ensures r.Fault? ==> r.msg == IndexOutOfRange
    ensures r.Ok? ==> sp < r.value.1 <= |values|
  {
    var token := values[sp];
    var next := sp + 1;
    if token == "define" && (next == |values| || values[next] == "(") then
      if next == |values| then Fault(IndexOutOfRange) else Expand(rev, DefineSpan(rev, values, next + 1))
    else if rev == Final && token == "'" then QuoteSpan(values, next)
    else Ok(([token], next))
  }

  /** `rewrite(values)`; the later revision tokenises the joined result once more. */
  function Rewrite(rev: Revision, values: seq<string>): Outcome<seq<string>>
  {
    match RewriteFrom(rev, values, 0)
    case Fault(m) => Fault(m)
    case Ok(ts) => if rev == Final then Ok(Tokens(Final, Join(ts, " "))) else Ok(ts)
  }

  lemma ConsCons(a: seq<string>, b: seq<string>, x: Outcome<seq<string>>)
    ensures Cons(a, Cons(b, x)) == Cons(a + b, x)
  {
    if x.Ok? {
      assert a + (b + x.value) == (a + b) + x.value;
    }
  }

  /** `for values[sp] != ")" { run = append(run, values[sp]); sp++ }`, panicking at the end of `values`. */
  method ScanToClose(values: seq<string>, i: nat) returns (c: Option<nat>, run: seq<string>)
    requires i <= |values|
    ensures c == CloseFrom(values, i)
    ensures c.Some? ==> run == values[i..c.value]
  {
    var sp := i;
    run := [];
    while sp < |values| && values[sp] != ")"
      invariant i <= sp <= |values| && run == values[i..sp]
      invariant CloseFrom(values, sp) == CloseFrom(values, i)
    {
      run := run + [values[sp]];
      sp := sp + 1;
    }
    c := if sp == |values| then None else Some(sp);
  }

  /** The shorthand `define` branch of `rewrite`, with its scanning loops: the `lambda` text and where to resume. */
  method DefineStep(rev: Revision, values: seq<string>, i: nat) returns (r: Outcome<(string, nat)>)
    requires 1 <= i <= |values|
    ensures r == DefineSpan(rev, values, i)
  {
    if i == |values| {
      return Fault(IndexOutOfRange);
    }
    var variable := values[i];
    var c, variables := ScanToClose(values, i + 1);
    if c.None? {
      return Fault(IndexOutOfRange);
    }
    var body: seq<string>;
    if rev == Final {
      body := values[c.value + 1..];
      return Ok((DefineText(variable, variables, body), |values|));
    }
    var c2;
    c2, body := ScanToClose(values, c.value + 1);
    if c2.None? {
      return Fault(IndexOutOfRange);
    }
    r := Ok((DefineText(variable, variables, body), c2.value + 1));
  }

  /** The `'` branch of `rewrite` (later revision), entered with `sp` after the quote. */
  method QuoteStep(values: seq<string>, sp: nat) returns (r: Outcome<(seq<string>, nat)>)
    requires sp <= |values|
    ensures r == QuoteSpan(values, sp)
  {
    if sp == |values| {
      return Fault(IndexOutOfRange);
    }
    if values[sp] != "(" {
      return Ok((["(", "quote", values[sp], ")"], sp + 1));
    }
    var c, run := ScanToClose(values, sp);
    if c.None? {
      return Fault(IndexOutOfRange);
    }
    r := Ok((["(", "quote"] + run + [")"], c.value));
  }

  /** The body of the main loop of `rewrite`. */
  method BranchStep(rev: Revision, values: seq<string>, sp: nat) returns (r: Outcome<(seq<string>, nat)>)
    requires sp < |values|
    ensures r == Branch(rev, values, sp)
  {
    var token := values[sp];
    var next := sp + 1;
    if token == "define" && (next == |values| || values[next] == "(") {
      if next == |values| {
        return Fault(IndexOutOfRange);
      }
      var lambda := DefineStep(rev, values, next + 1);
      r := Expand(rev, lambda);
    } else if rev == Final && token == "'" {
      r := QuoteStep(values, next);
    } else {
      r := Ok(([token], next));
    }
  }

  /** The loop of `rewrite`, with its index `sp`. */
  method RewriteLoop(rev: Revision, values: seq<string>) returns (r: Outcome<seq<string>>)
    ensures r == Rewrite(rev, values)
  {
    var rewritten: seq<string> := [];
    var sp := 0;
    var all := RewriteFrom(rev, values, 0);
    assert all.Ok? ==> [] + all.value == all.value;
    while sp < |values|
      invariant sp <= |values|
      invariant Cons(rewritten, RewriteFrom(rev, values, sp)) == RewriteFrom(rev, values, 0)
      decreases |values| - sp
    {
      var step := BranchStep(rev, values, sp);
      if step.Fault? {
        return Fault(step.msg);
      }
      ConsCons(rewritten, step.value.0, RewriteFrom(rev, values, step.value.1));
      rewritten := rewritten + step.value.0;
      sp := step.value.1;
    }
    assert rewritten + [] == rewritten;
    if rev == Final {
      rewritten := Tokens(Final, Join(rewritten, " "));
    }
    r := Ok(rewritten);
  }
}
