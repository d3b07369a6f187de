/**
 * parser/ast.go: the nodes the parser builds and their `Inspect` text.
 */
module Syntax {
  import opened GoText
  import opened Lexing

  /** An `*Identifier`: its value and the token it was read from. */
  datatype Name = Name(value: string, token: Token)

  datatype Ast =
    | IntegerLiteral(token: Token, value: int)
    | ProcedureCall(name: string, arguments: seq<Ast>, token: Token)
    | Identifier(id: Name)
    | Program(expressions: seq<Ast>)
    | Str(text: string, token: Token)
    | FunctionLiteral(parameters: seq<Name>, body: seq<Ast>)

  /** The texts of the parts of a `Program`, one after the other. */
  function Concat(parts: seq<string>): string
  {
    if parts == [] then "" else parts[0] + Concat(parts[1..])
  }

  /**
   * `Inspect`: literals and identifiers print their token's text (not
   * their value), a string prints its value without quotes, a call prints
   * `(name args…)` with a space after the name even when there are no
   * arguments, a program prints its expressions back to back, and a
   * function prints `(lambda (params) body)` with the body lines joined
   * by newlines.
   */
  function Inspect(a: Ast): (r: string)
    ensures a.ProcedureCall? ==>
              |r| >= |a.name| + 3 && r[..|a.name| + 2] == "(" + a.name + " " && r[|r| - 1] == ')'
    ensures a.FunctionLiteral? ==> |r| >= 12 && r[..9] == "(lambda (" && r[|r| - 1] == ')'
  {
    match a
    case IntegerLiteral(token, _) => token.literal
    case ProcedureCall(name, args, _) =>
      "(" + name + " " + Join(seq(|args|, i requires 0 <= i < |args| => Inspect(args[i])), " ") + ")"
    case Identifier(id) => id.token.literal
    case Program(exprs) => Concat(seq(|exprs|, i requires 0 <= i < |exprs| => Inspect(exprs[i])))
    case Str(value, _) => value
    case FunctionLiteral(params, body) =>
      "(lambda (" + Join(seq(|params|, i requires 0 <= i < |params| => params[i].token.literal), " ") + ") " +
      Join(seq(|body| , i requires 0 <= i < |body| => Inspect(body[i])), "\n") + ")"
  }
}
