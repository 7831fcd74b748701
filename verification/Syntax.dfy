/** The tree the parser builds: names are not yet resolved and nothing is typed. */
module Syntax {
  import opened Arith
  import opened Ast

  datatype Raw =
    | RInt(value: int)
    | RLong(value: int)
    | RName(name: string)
    | RUnary(uop: UnOp, operand: Raw)
    | RPre(inc: bool, operand: Raw)
    | RPost(inc: bool, operand: Raw)
    | RBinary(bop: BinOp, left: Raw, right: Raw)
    | RAssign(left: Raw, right: Raw)
    | RCompound(bop: BinOp, left: Raw, right: Raw)
    | RConditional(cond: Raw, thn: Raw, els: Raw)
    | RCall(callee: Raw, args: seq<Raw>)
    | RCast(target: Ty, operand: Raw)

  /** What the lexer guarantees of a name. */
  predicate IsIdentifier(name: string) {
    name != [] && '.' !in name
  }

  datatype Storage = ScNone | ScAuto | ScRegister | ScStatic | ScExtern

  /** A declarator with its specifiers; a function's parameters are declarations of their own. */
  datatype Declaration =
    Declaration(name: string, isFunction: bool, ty: Ty, sc: Storage, isParameter: bool, hasBody: bool, init: Option<Raw>,
                params: seq<Declaration>)

  /** Statements as parsed, numbered by one counter. */
  datatype RStmt =
    | SNull
    | SExpr(e: Raw)
    | SDecl(decls: seq<Declaration>)
    | SBlock(items: seq<RStmt>)
    | SReturn(result: Option<Raw>)
    | SIf(cond: Raw, thn: RStmt, els: Option<RStmt>)
    | SFor(id: nat, init: RStmt, test: Option<Raw>, post: Option<Raw>, body: RStmt)
    | SWhile(id: nat, cond: Raw, body: RStmt)
    | SDoWhile(id: nat, cond: Raw, body: RStmt)
    | SSwitch(id: nat, cond: Raw, body: RStmt)
    | SCase(id: nat, e: Raw, stmt: RStmt)
    | SDefault(id: nat, stmt: RStmt)
    | SLabel(id: nat, name: string, stmt: RStmt)
    | SBreak
    | SContinue
    | SGoto(name: string)

  /** A declaration at file scope, with the body of a function definition. */
  datatype Item = Item(decl: Declaration, body: seq<RStmt>)
}
