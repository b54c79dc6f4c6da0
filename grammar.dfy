/** The recursive-descent parser and the driver of kaleidoscope/native/ast.h,
    as functions over the token stream.

    The stream is the sequence of tokens get_tok hands out; a position p
    names the token held in `cur_tok`, and a position past the end reads as
    end of input, as get_tok keeps returning tok_eof. A parse either yields a
    value and the position of the first token it did not consume, or the
    error it reports (log_err) and the position of the token it reported it
    at. The operator table is `binary_oper`. */
module Grammar {
  import opened Lexer
  import opened Ast

  /** The messages of log_err and log_err_p. */
  datatype ParseError =
    | UnknownToken          // ast.h:149
    | ExpectedCloseParen    // ast.h:108
    | ExpectedArgListSep    // ast.h:135
    | ExpectedFunctionName  // ast.h:212
    | ExpectedProtoOpen     // ast.h:217
    | ExpectedProtoClose    // ast.h:223

  datatype Parsed<T> = Ok(value: T, next: nat) | Fail(error: ParseError, at: nat)

  /** `cur_tok` at position p. */
  function Cur(toks: seq<Token>, p: nat): Token
  {
    if p < |toks| then toks[p] else TokEof
  }

  /** Tokens left from position p on. */
  function Remaining(toks: seq<Token>, p: nat): nat
  {
    if p < |toks| then |toks| - p else 0
  }

  /** The operator table main.cpp:7-10 fills in before parsing. */
  const SeedTable: map<char, int> := map['<' := 10, '+' := 20, '-' := 20, '*' := 40]

  /** get_tok_precedence (ast.h:161-168): -1 for a token that is not an
      ASCII character or whose table entry is missing or not positive. */
  function Precedence(table: map<char, int>, t: Token): (prec: int)
    ensures prec == -1 || prec > 0
    ensures prec > 0 ==> t.TokChar? && t.c in table
  {
    var code := Code(t);
    if !(0 <= code < 128) then -1
    else
      var stored := if t.c in table then table[t.c] else 0;
      if stored <= 0 then -1 else stored
  }

  /** parse_num_expr (ast.h:94-98). */
  function ParseNumExpr(toks: seq<Token>, p: nat): (r: Parsed<Expr>)
    requires Cur(toks, p).TokNumber?
    ensures r.Ok? && r.next == p + 1 <= |toks|
    ensures r.value == Number(Cur(toks, p).lexeme)
  {
    Ok(Number(Cur(toks, p).lexeme), p + 1)
  }

  /** parse_parent_expr (ast.h:102-111): the parenthesised expression itself,
      with no node of its own. */
  function ParseParenExpr(toks: seq<Token>, table: map<char, int>, p: nat): (r: Parsed<Expr>)
    requires Cur(toks, p) == TokChar('(')
    ensures r.Ok? ==> p < r.next <= |toks|
    ensures r.Fail? ==> p <= r.at
    decreases Remaining(toks, p), 1
  {
    match ParseExpr(toks, table, p + 1)
    case Fail(err, at) => Fail(err, at)
    case Ok(v, q) =>
      if Cur(toks, q) != TokChar(')') then Fail(ExpectedCloseParen, q)
      else Ok(v, q + 1)
  }

  /** parse_identifier_expr (ast.h:113-144): a variable reference, or a call
      when the identifier is followed by '('. */
  function ParseIdentifierExpr(toks: seq<Token>, table: map<char, int>, p: nat): (r: Parsed<Expr>)
    requires Cur(toks, p).TokIdentifier?
    ensures r.Ok? ==> p < r.next <= |toks|
    ensures r.Fail? ==> p <= r.at
    decreases Remaining(toks, p), 1
  {
    var name := Cur(toks, p).name;
    if Cur(toks, p + 1) != TokChar('(') then Ok(Variable(name), p + 1)
    else if Cur(toks, p + 2) == TokChar(')') then Ok(Call(name, []), p + 3)
    else ParseArgs(toks, table, p + 2, name, [])
  }

  /** The argument loop of ast.h:123-139 from an argument at position p,
      after the arguments `args` have been parsed; the closing ')' is
      consumed at ast.h:142. */
  function ParseArgs(toks: seq<Token>, table: map<char, int>, p: nat, callee: string, args: seq<Expr>)
    : (r: Parsed<Expr>)
    ensures r.Ok? ==> p < r.next <= |toks|
    ensures r.Fail? ==> p <= r.at
    decreases Remaining(toks, p), 4
  {
    match ParseExpr(toks, table, p)
    case Fail(err, at) => Fail(err, at)
    case Ok(arg, q) =>
      if Cur(toks, q) == TokChar(')') then Ok(Call(callee, args + [arg]), q + 1)
      else if Cur(toks, q) != TokChar(',') then Fail(ExpectedArgListSep, q)
      else ParseArgs(toks, table, q + 1, callee, args + [arg])
  }

  /** parse_primary (ast.h:146-157). */
  function ParsePrimary(toks: seq<Token>, table: map<char, int>, p: nat): (r: Parsed<Expr>)
    ensures r.Ok? ==> p < r.next <= |toks|
    ensures r.Fail? ==> p <= r.at
    decreases Remaining(toks, p), 2
  {
    var t := Cur(toks, p);
    if t.TokIdentifier? then ParseIdentifierExpr(toks, table, p)
    else if t.TokNumber? then ParseNumExpr(toks, p)
    else if t == TokChar('(') then ParseParenExpr(toks, table, p)
    else Fail(UnknownToken, p)
  }

  /** parse_expr (ast.h:173-178). */
  function ParseExpr(toks: seq<Token>, table: map<char, int>, p: nat): (r: Parsed<Expr>)
    ensures r.Ok? ==> p < r.next <= |toks|
    ensures r.Fail? ==> p <= r.at
    decreases Remaining(toks, p), 3
  {
    match ParsePrimary(toks, table, p)
    case Fail(err, at) => Fail(err, at)
    case Ok(lhs, q) => ParseBinOpRhs(toks, table, 0, lhs, q)
  }

  /** parse_bin_op_rhs (ast.h:180-208) without lines 195-197: operators of
      precedence at least exprPrec are folded onto lhs from the left. One
      loop iteration is one call. */
  function ParseBinOpRhs(toks: seq<Token>, table: map<char, int>, exprPrec: nat, lhs: Expr, p: nat)
    : (r: Parsed<Expr>)
    ensures r.Ok? ==> p <= r.next && (p < r.next ==> r.next <= |toks|)
    ensures r.Fail? ==> p <= r.at
    decreases Remaining(toks, p), 0
  {
    var tokPrec := Precedence(table, Cur(toks, p));
    if tokPrec < exprPrec then Ok(lhs, p)
    else
      match ParseRightOperand(toks, table, tokPrec, p + 1)
      case Fail(err, at) => Fail(err, at)
      case Ok(rhs, q) => ParseBinOpRhs(toks, table, exprPrec, Binary(Cur(toks, p).c, lhs, rhs), q)
  }

  /** ast.h:189-204: the right operand of an operator of precedence
      tokPrec; an operator after it that binds tighter first takes that
      operand as its own left operand. */
  function ParseRightOperand(toks: seq<Token>, table: map<char, int>, tokPrec: nat, p: nat)
    : (r: Parsed<Expr>)
    ensures r.Ok? ==> p < r.next <= |toks|
    ensures r.Fail? ==> p <= r.at
    decreases Remaining(toks, p), 3
  {
    match ParsePrimary(toks, table, p)
    case Fail(err, at) => Fail(err, at)
    case Ok(rhs, q) =>
      if tokPrec < Precedence(table, Cur(toks, q)) then ParseBinOpRhs(toks, table, tokPrec + 1, rhs, q)
      else Ok(rhs, q)
  }

  /** The parameter loop of ast.h:219-221: the names of the identifiers from
      position p up to the first token that is not an identifier, and that
      token's position. */
  function ParamsFrom(toks: seq<Token>, p: nat): (r: (seq<string>, nat))
    ensures p + |r.0| == r.1
    ensures forall i :: 0 <= i < |r.0| ==> Cur(toks, p + i) == TokIdentifier(r.0[i])
    ensures !Cur(toks, r.1).TokIdentifier?
    decreases Remaining(toks, p)
  {
    if Cur(toks, p).TokIdentifier? then
      var (rest, e) := ParamsFrom(toks, p + 1);
      ([Cur(toks, p).name] + rest, e)
    else ([], p)
  }

  /** parse_proto_type (ast.h:210-226). */
  function ParsePrototype(toks: seq<Token>, p: nat): (r: Parsed<Prototype>)
    ensures r.Ok? ==> p < r.next <= |toks|
    ensures r.Fail? ==> p <= r.at
  {
    if !Cur(toks, p).TokIdentifier? then Fail(ExpectedFunctionName, p)
    else if Cur(toks, p + 1) != TokChar('(') then Fail(ExpectedProtoOpen, p + 1)
    else
      var (params, e) := ParamsFrom(toks, p + 2);
      if Cur(toks, e) != TokChar(')') then Fail(ExpectedProtoClose, e)
      else Ok(Prototype(Cur(toks, p).name, params), e + 1)
  }

  /** parse_definition (ast.h:228-236): the token at p (`def`) is skipped. */
  function ParseDefinition(toks: seq<Token>, table: map<char, int>, p: nat): (r: Parsed<Function>)
    ensures r.Ok? ==> p < r.next <= |toks|
    ensures r.Fail? ==> p <= r.at
  {
    match ParsePrototype(toks, p + 1)
    case Fail(err, at) => Fail(err, at)
    case Ok(proto, q) =>
      match ParseExpr(toks, table, q)
      case Fail(err, at) => Fail(err, at)
      case Ok(body, q') => Ok(Function(proto, body), q')
  }

  /** parse_extern (ast.h:238-241): the token at p (`extern`) is skipped. */
  function ParseExtern(toks: seq<Token>, p: nat): (r: Parsed<Prototype>)
    ensures r.Ok? ==> p < r.next <= |toks|
    ensures r.Fail? ==> p <= r.at
  {
    ParsePrototype(toks, p + 1)
  }

  /** parse_top_level_expr (ast.h:243-249): an expression wrapped in a
      function with the empty name and no parameters. */
  function ParseTopLevelExpr(toks: seq<Token>, table: map<char, int>, p: nat): (r: Parsed<Function>)
    ensures r.Ok? ==> p < r.next <= |toks|
    ensures r.Fail? ==> p <= r.at
  {
    match ParseExpr(toks, table, p)
    case Fail(err, at) => Fail(err, at)
    case Ok(e, q) => Ok(Function(Prototype("", []), e), q)
  }

  /** What one handler call reports on stderr. */
  datatype Report = DefinitionParsed | ExternParsed | TopLevelParsed | SyntaxError(error: ParseError)

  /** Which parse functions handle_def and handle_exter call: the expression
      parser, as ast.h:252 and 260 do, or the definition and extern parsers
      their messages announce. */
  datatype Handlers = AsWritten | Intended

  /** A handler's report and the position it leaves the stream at: on a
      failure the token the error was reported at is skipped. */
  function Outcome<T>(r: Parsed<T>, success: Report): (Report, nat)
  {
    match r
    case Ok(_, q) => (success, q)
    case Fail(err, at) => (SyntaxError(err), at + 1)
  }

  /** handle_def (ast.h:251-257). */
  function HandleDefinition(toks: seq<Token>, table: map<char, int>, p: nat, handlers: Handlers)
    : (r: (Report, nat))
    ensures p < |toks| ==> Remaining(toks, r.1) < Remaining(toks, p)
  {
    if handlers == AsWritten then Outcome(ParseExpr(toks, table, p), DefinitionParsed)
    else Outcome(ParseDefinition(toks, table, p), DefinitionParsed)
  }

  /** handle_exter (ast.h:259-265). */
  function HandleExtern(toks: seq<Token>, table: map<char, int>, p: nat, handlers: Handlers)
    : (r: (Report, nat))
    ensures p < |toks| ==> Remaining(toks, r.1) < Remaining(toks, p)
  {
    if handlers == AsWritten then Outcome(ParseExpr(toks, table, p), ExternParsed)
    else Outcome(ParseExtern(toks, p), ExternParsed)
  }

  /** handle_top_level_expr (ast.h:267-273). */
  function HandleTopLevelExpr(toks: seq<Token>, table: map<char, int>, p: nat): (r: (Report, nat))
    ensures p < |toks| ==> Remaining(toks, r.1) < Remaining(toks, p)
  {
    Outcome(ParseTopLevelExpr(toks, table, p), TopLevelParsed)
  }

  /** The reports main_loop (ast.h:275-295) writes from position p until
      end of input; ';' is skipped silently. */
  function Session(toks: seq<Token>, table: map<char, int>, p: nat, handlers: Handlers)
    : (log: seq<Report>)
    ensures |log| <= Remaining(toks, p)
    decreases Remaining(toks, p)
  {
    var t := Cur(toks, p);
    if t == TokEof then []
    else if t == TokChar(';') then Session(toks, table, p + 1, handlers)
    else
      var (report, q) :=
        if t == TokDef then HandleDefinition(toks, table, p, handlers)
        else if t == TokExtern then HandleExtern(toks, table, p, handlers)
        else HandleTopLevelExpr(toks, table, p);
      [report] + Session(toks, table, q, handlers)
  }
}
