/** Printing a syntax tree as tokens, with every binary node in parentheses,
    and reading it back with the parser of kaleidoscope/native/ast.h yields
    the same tree; the same holds for prototypes and definitions. */
module RoundTrip {
  import opened Lexer
  import opened Ast
  import opened Grammar
  import opened GrammarFacts

  /** An expression as tokens: binary nodes in parentheses, call arguments
      separated by ','. */
  function Render(e: Expr): seq<Token>
  {
    match e
    case Number(lexeme) => [TokNumber(lexeme)]
    case Variable(name) => [TokIdentifier(name)]
    case Binary(op, lhs, rhs) => [TokChar('(')] + Render(lhs) + [TokChar(op)] + Render(rhs) + [TokChar(')')]
    case Call(callee, args) => [TokIdentifier(callee), TokChar('(')] + RenderArgs(args) + [TokChar(')')]
  }

  function RenderArgs(args: seq<Expr>): seq<Token>
  {
    if args == [] then []
    else if |args| == 1 then Render(args[0])
    else Render(args[0]) + [TokChar(',')] + RenderArgs(args[1..])
  }

  /** A printed expression starts with a numeral, an identifier or '('. */
  lemma RenderStart(e: Expr)
    ensures |Render(e)| > 0
    ensures var t := Render(e)[0]; t.TokNumber? || t.TokIdentifier? || t == TokChar('(')
  {
  }

  /** A prototype as tokens: name, '(', the parameter names, ')'. */
  function RenderPrototype(proto: Prototype): seq<Token>
  {
    [TokIdentifier(proto.name), TokChar('(')] + RenderNames(proto.params) + [TokChar(')')]
  }

  function RenderNames(names: seq<string>): (ts: seq<Token>)
    ensures |ts| == |names|
    ensures forall i :: 0 <= i < |names| ==> ts[i] == TokIdentifier(names[i])
  {
    seq(|names|, i requires 0 <= i < |names| => TokIdentifier(names[i]))
  }

  /** The brackets and the separator are not operators of the table. */
  predicate SaneTable(table: map<char, int>)
  {
    && Precedence(table, TokChar('(')) < 0
    && Precedence(table, TokChar(')')) < 0
    && Precedence(table, TokChar(',')) < 0
  }

  /** Every binary node's operator is an operator of the table. */
  predicate WellFormed(table: map<char, int>, e: Expr)
  {
    match e
    case Number(_) => true
    case Variable(_) => true
    case Binary(op, lhs, rhs) =>
      Precedence(table, TokChar(op)) > 0 && WellFormed(table, lhs) && WellFormed(table, rhs)
    case Call(_, args) => forall i :: 0 <= i < |args| ==> WellFormed(table, args[i])
  }

  /** A token that ends an expression: neither an operator nor '('. */
  predicate Ends(table: map<char, int>, t: Token)
  {
    Precedence(table, t) < 0 && t != TokChar('(')
  }

  /** A run that starts with t. */
  lemma AtCons(toks: seq<Token>, p: nat, t: Token, rest: seq<Token>)
    requires At(toks, p, [t] + rest)
    ensures Cur(toks, p) == t && At(toks, p + 1, rest)
  {
    AtSplit(toks, p, [t], rest);
    AtHead(toks, p, t);
  }

  /** A run a, then t, then b and c. */
  lemma AtAround(toks: seq<Token>, p: nat, a: seq<Token>, t: Token, b: seq<Token>, c: seq<Token>)
    requires At(toks, p, a + ([t] + (b + c)))
    ensures At(toks, p, a) && Cur(toks, p + |a|) == t && At(toks, p + |a| + 1, b + c)
  {
    AtSplit(toks, p, a, [t] + (b + c));
    AtCons(toks, p + |a|, t, b + c);
  }

  /** The first token of a non-empty run. */
  lemma AtFirst(toks: seq<Token>, p: nat, s: seq<Token>)
    requires At(toks, p, s) && |s| > 0
    ensures Cur(toks, p) == s[0]
  {
  }

  lemma RenderBinaryParts(op: char, lhs: Expr, rhs: Expr)
    ensures Render(Binary(op, lhs, rhs))
         == [TokChar('(')] + (Render(lhs) + ([TokChar(op)] + (Render(rhs) + [TokChar(')')])))
  {
  }

  lemma RenderCallParts(callee: string, args: seq<Expr>)
    ensures Render(Call(callee, args)) == [TokIdentifier(callee)] + ([TokChar('(')] + (RenderArgs(args) + [TokChar(')')]))
  {
  }

  lemma RenderArgsParts(args: seq<Expr>)
    requires |args| > 1
    ensures RenderArgs(args) + [TokChar(')')]
         == Render(args[0]) + ([TokChar(',')] + (RenderArgs(args[1..]) + [TokChar(')')]))
  {
  }

  /** A printed non-empty argument list does not start with ')'. */
  lemma RenderArgsStart(args: seq<Expr>)
    requires args != []
    ensures |RenderArgs(args)| > 0 && RenderArgs(args)[0] != TokChar(')')
  {
    RenderStart(args[0]);
    assert RenderArgs(args)[0] == Render(args[0])[0];
  }

  /** Where the parts of a printed binary node lie. */
  lemma BinaryLayout(toks: seq<Token>, p: nat, op: char, lhs: Expr, rhs: Expr)
    requires At(toks, p, Render(Binary(op, lhs, rhs)))
    ensures Cur(toks, p) == TokChar('(') && At(toks, p + 1, Render(lhs))
    ensures Cur(toks, p + 1 + |Render(lhs)|) == TokChar(op)
    ensures At(toks, p + 2 + |Render(lhs)|, Render(rhs))
    ensures Cur(toks, p + 2 + |Render(lhs)| + |Render(rhs)|) == TokChar(')')
    ensures |Render(Binary(op, lhs, rhs))| == 3 + |Render(lhs)| + |Render(rhs)|
  {
    var rl, rr, close := Render(lhs), Render(rhs), [TokChar(')')];
    RenderBinaryParts(op, lhs, rhs);
    AtCons(toks, p, TokChar('('), rl + ([TokChar(op)] + (rr + close)));
    AtAround(toks, p + 1, rl, TokChar(op), rr, close);
    AtSplit(toks, p + 2 + |rl|, rr, close);
    AtHead(toks, p + 2 + |rl| + |rr|, TokChar(')'));
  }

  /** The operator loop over `op rhs )` after lhs, inside parentheses. */
  lemma ParenthesisedBinary(toks: seq<Token>, table: map<char, int>, p: nat, op: char, lhs: Expr, rhs: Expr, p1: nat, p2: nat)
    requires Cur(toks, p) == TokChar('(') && ParsePrimary(toks, table, p + 1) == Ok(lhs, p1)
    requires Cur(toks, p1) == TokChar(op) && Precedence(table, TokChar(op)) > 0
    requires ParsePrimary(toks, table, p1 + 1) == Ok(rhs, p2)
    requires Cur(toks, p2) == TokChar(')') && Precedence(table, TokChar(')')) < 0
    ensures ParsePrimary(toks, table, p) == Ok(Binary(op, lhs, rhs), p2 + 1)
  {
    var e := Binary(op, lhs, rhs);
    assert ParseRightOperand(toks, table, Precedence(table, TokChar(op)), p1 + 1) == Ok(rhs, p2);
    assert ParseBinOpRhs(toks, table, 0, lhs, p1) == ParseBinOpRhs(toks, table, 0, e, p2);
    assert ParseBinOpRhs(toks, table, 0, e, p2) == Ok(e, p2);
    assert ParseExpr(toks, table, p + 1) == Ok(e, p2);
  }

  /** Where the parts of a printed call lie. */
  lemma CallLayout(toks: seq<Token>, p: nat, callee: string, args: seq<Expr>)
    requires At(toks, p, Render(Call(callee, args)))
    ensures Cur(toks, p) == TokIdentifier(callee) && Cur(toks, p + 1) == TokChar('(')
    ensures At(toks, p + 2, RenderArgs(args) + [TokChar(')')])
    ensures |Render(Call(callee, args))| == 3 + |RenderArgs(args)|
    ensures args != [] ==> Cur(toks, p + 2) != TokChar(')')
  {
    var rest := RenderArgs(args) + [TokChar(')')];
    RenderCallParts(callee, args);
    AtCons(toks, p, TokIdentifier(callee), [TokChar('(')] + rest);
    AtCons(toks, p + 1, TokChar('('), rest);
    if args != [] {
      RenderArgsStart(args);
      AtFirst(toks, p + 2, rest);
      assert rest[0] == RenderArgs(args)[0];
    }
  }

  /** Where the parts of a printed argument list of two or more lie. */
  lemma ArgsLayout(toks: seq<Token>, p: nat, args: seq<Expr>)
    requires |args| > 1 && At(toks, p, RenderArgs(args) + [TokChar(')')])
    ensures At(toks, p, Render(args[0])) && Cur(toks, p + |Render(args[0])|) == TokChar(',')
    ensures At(toks, p + |Render(args[0])| + 1, RenderArgs(args[1..]) + [TokChar(')')])
    ensures |RenderArgs(args)| == |Render(args[0])| + 1 + |RenderArgs(args[1..])|
  {
    RenderArgsParts(args);
    AtAround(toks, p, Render(args[0]), TokChar(','), RenderArgs(args[1..]), [TokChar(')')]);
  }

  /** A call with arguments is handed to the argument loop. */
  lemma CallStartsArgs(toks: seq<Token>, table: map<char, int>, p: nat, callee: string)
    requires Cur(toks, p) == TokIdentifier(callee) && Cur(toks, p + 1) == TokChar('(')
    requires Cur(toks, p + 2) != TokChar(')')
    ensures ParsePrimary(toks, table, p) == ParseArgs(toks, table, p + 2, callee, [])
  {
  }

  /** One argument followed by ','. */
  lemma ArgThenComma(toks: seq<Token>, table: map<char, int>, p: nat, callee: string, acc: seq<Expr>, arg: Expr, q: nat)
    requires ParseExpr(toks, table, p) == Ok(arg, q) && Cur(toks, q) == TokChar(',')
    ensures ParseArgs(toks, table, p, callee, acc) == ParseArgs(toks, table, q + 1, callee, acc + [arg])
  {
  }

  /** The last argument, followed by ')'. */
  lemma ArgThenClose(toks: seq<Token>, table: map<char, int>, p: nat, callee: string, acc: seq<Expr>, arg: Expr, q: nat)
    requires ParseExpr(toks, table, p) == Ok(arg, q) && Cur(toks, q) == TokChar(')')
    ensures ParseArgs(toks, table, p, callee, acc) == Ok(Call(callee, acc + [arg]), q + 1)
  {
  }

  /** parse_primary reads back a printed expression. */
  lemma {:induction false} ParsePrimaryRender(toks: seq<Token>, table: map<char, int>, p: nat, e: Expr)
    requires SaneTable(table) && WellFormed(table, e)
    requires At(toks, p, Render(e)) && Cur(toks, p + |Render(e)|) != TokChar('(')
    ensures ParsePrimary(toks, table, p) == Ok(e, p + |Render(e)|)
    decreases e, 1
  {
    match e
    case Number(lexeme) =>
      AtHead(toks, p, TokNumber(lexeme));
    case Variable(name) =>
      AtHead(toks, p, TokIdentifier(name));
    case Binary(_, _, _) =>
      ParseBinaryRender(toks, table, p, e);
    case Call(_, _) =>
      ParseCallRender(toks, table, p, e);
  }

  /** parse_primary reads back a printed binary node. */
  lemma {:induction false} ParseBinaryRender(toks: seq<Token>, table: map<char, int>, p: nat, e: Expr)
    requires e.Binary? && SaneTable(table) && WellFormed(table, e)
    requires At(toks, p, Render(e)) && Cur(toks, p + |Render(e)|) != TokChar('(')
    ensures ParsePrimary(toks, table, p) == Ok(e, p + |Render(e)|)
    decreases e, 0
  {
    var Binary(op, lhs, rhs) := e;
    BinaryLayout(toks, p, op, lhs, rhs);
    var p1 := p + 1 + |Render(lhs)|;
    var p2 := p1 + 1 + |Render(rhs)|;
    ParsePrimaryRender(toks, table, p + 1, lhs);
    ParsePrimaryRender(toks, table, p1 + 1, rhs);
    ParenthesisedBinary(toks, table, p, op, lhs, rhs, p1, p2);
  }

  /** parse_primary reads back a printed call. */
  lemma {:induction false} ParseCallRender(toks: seq<Token>, table: map<char, int>, p: nat, e: Expr)
    requires e.Call? && SaneTable(table) && WellFormed(table, e)
    requires At(toks, p, Render(e))
    ensures ParsePrimary(toks, table, p) == Ok(e, p + |Render(e)|)
    decreases e, 0
  {
    var Call(callee, args) := e;
    CallLayout(toks, p, callee, args);
    if args == [] {
      assert RenderArgs(args) + [TokChar(')')] == [TokChar(')')];
      AtHead(toks, p + 2, TokChar(')'));
    } else {
      CallStartsArgs(toks, table, p, callee);
      ParseArgsRender(toks, table, p + 2, callee, [], args);
      assert [] + args == args;
    }
  }

  /** parse_expr reads back a printed expression followed by a token that
      ends it. */
  lemma {:induction false} ParseExprRender(toks: seq<Token>, table: map<char, int>, p: nat, e: Expr)
    requires SaneTable(table) && WellFormed(table, e)
    requires At(toks, p, Render(e)) && Ends(table, Cur(toks, p + |Render(e)|))
    ensures ParseExpr(toks, table, p) == Ok(e, p + |Render(e)|)
    decreases e, 2
  {
    ParsePrimaryRender(toks, table, p, e);
  }

  /** The argument loop over a printed, non-empty argument list. */
  lemma {:induction false} ParseArgsRender(toks: seq<Token>, table: map<char, int>, p: nat, callee: string, acc: seq<Expr>, args: seq<Expr>)
    requires SaneTable(table) && args != []
    requires forall i :: 0 <= i < |args| ==> WellFormed(table, args[i])
    requires At(toks, p, RenderArgs(args) + [TokChar(')')])
    ensures ParseArgs(toks, table, p, callee, acc) == Ok(Call(callee, acc + args), p + |RenderArgs(args)| + 1)
    decreases args, 3
  {
    if |args| == 1 {
      ParseArgsRenderLast(toks, table, p, callee, acc, args);
    } else {
      ParseArgsRenderCons(toks, table, p, callee, acc, args);
    }
  }

  /** The argument loop over a printed list of one argument. */
  lemma {:induction false} ParseArgsRenderLast(toks: seq<Token>, table: map<char, int>, p: nat, callee: string, acc: seq<Expr>, args: seq<Expr>)
    requires SaneTable(table) && |args| == 1 && WellFormed(table, args[0])
    requires At(toks, p, RenderArgs(args) + [TokChar(')')])
    ensures ParseArgs(toks, table, p, callee, acc) == Ok(Call(callee, acc + args), p + |RenderArgs(args)| + 1)
    decreases args, 2
  {
    var arg := args[0];
    assert RenderArgs(args) == Render(arg);
    var q := p + |Render(arg)|;
    AtSplit(toks, p, Render(arg), [TokChar(')')]);
    AtHead(toks, q, TokChar(')'));
    ParseExprRender(toks, table, p, arg);
    ArgThenClose(toks, table, p, callee, acc, arg, q);
    assert args == [arg];
  }

  /** The argument loop over a printed list of two or more arguments. */
  lemma {:induction false} ParseArgsRenderCons(toks: seq<Token>, table: map<char, int>, p: nat, callee: string, acc: seq<Expr>, args: seq<Expr>)
    requires SaneTable(table) && |args| > 1
    requires forall i :: 0 <= i < |args| ==> WellFormed(table, args[i])
    requires At(toks, p, RenderArgs(args) + [TokChar(')')])
    ensures ParseArgs(toks, table, p, callee, acc) == Ok(Call(callee, acc + args), p + |RenderArgs(args)| + 1)
    decreases args, 2
  {
    var q := p + |Render(args[0])|;
    ArgsLayout(toks, p, args);
    ParseExprRender(toks, table, p, args[0]);
    ArgThenComma(toks, table, p, callee, acc, args[0], q);
    WellFormedTail(table, args);
    ParseArgsRender(toks, table, q + 1, callee, acc + [args[0]], args[1..]);
    ConsAppend(acc, args);
  }

  lemma WellFormedTail(table: map<char, int>, args: seq<Expr>)
    requires args != [] && forall i :: 0 <= i < |args| ==> WellFormed(table, args[i])
    ensures forall i :: 0 <= i < |args[1..]| ==> WellFormed(table, args[1..][i])
  {
    forall i | 0 <= i < |args[1..]|
      ensures WellFormed(table, args[1..][i])
    {
      assert args[1..][i] == args[i + 1];
    }
  }

  lemma ConsAppend<T>(acc: seq<T>, xs: seq<T>)
    requires xs != []
    ensures acc + [xs[0]] + xs[1..] == acc + xs
  {
    assert [xs[0]] + xs[1..] == xs;
  }

  /** Parsing a printed well-formed expression gives it back and consumes
      all of it. */
  lemma ExprRoundTrip(table: map<char, int>, e: Expr)
    requires SaneTable(table) && WellFormed(table, e)
    ensures ParseExpr(Render(e), table, 0) == Ok(e, |Render(e)|)
  {
    var toks := Render(e);
    ParseExprRender(toks, table, 0, e);
  }

  /** A printed parameter list is one identifier token per name. */
  lemma NamesAt(toks: seq<Token>, p: nat, names: seq<string>)
    requires At(toks, p, RenderNames(names))
    ensures forall i :: 0 <= i < |names| ==> Cur(toks, p + i) == TokIdentifier(names[i])
  {
    forall i | 0 <= i < |names|
      ensures Cur(toks, p + i) == TokIdentifier(names[i])
    {
      assert RenderNames(names)[i] == TokIdentifier(names[i]);
    }
  }

  /** The parameter loop reads back identifiers in order, up to the first
      token that is not one. */
  lemma {:induction false} ParamsRoundTrip(toks: seq<Token>, p: nat, names: seq<string>)
    requires forall i :: 0 <= i < |names| ==> Cur(toks, p + i) == TokIdentifier(names[i])
    requires !Cur(toks, p + |names|).TokIdentifier?
    ensures ParamsFrom(toks, p) == (names, p + |names|)
    decreases |names|
  {
    if names != [] {
      assert Cur(toks, p) == TokIdentifier(names[0]);
      forall i | 0 <= i < |names[1..]|
        ensures Cur(toks, p + 1 + i) == TokIdentifier(names[1..][i])
      {
        assert Cur(toks, p + (i + 1)) == TokIdentifier(names[i + 1]);
      }
      ParamsRoundTrip(toks, p + 1, names[1..]);
      assert [names[0]] + names[1..] == names;
    }
  }

  /** parse_proto_type reads back a printed prototype. */
  lemma PrototypeRoundTrip(toks: seq<Token>, p: nat, proto: Prototype)
    requires At(toks, p, RenderPrototype(proto))
    ensures ParsePrototype(toks, p) == Ok(proto, p + |RenderPrototype(proto)|)
  {
    var head, names, close := [TokIdentifier(proto.name), TokChar('(')], RenderNames(proto.params), [TokChar(')')];
    AtSplit(toks, p, head + names, close);
    AtSplit(toks, p, head, names);
    AtPair(toks, p, TokIdentifier(proto.name), TokChar('('));
    AtHead(toks, p + 2 + |names|, TokChar(')'));
    NamesAt(toks, p + 2, proto.params);
    ParamsRoundTrip(toks, p + 2, proto.params);
  }

  /** The converse of PrototypeRoundTrip: whatever parse_proto_type accepts
      is a printed prototype, and it consumes exactly that many tokens. */
  lemma PrototypeIsPrinted(toks: seq<Token>, p: nat)
    ensures var r := ParsePrototype(toks, p);
            r.Ok? ==> At(toks, p, RenderPrototype(r.value)) && r.next == p + |RenderPrototype(r.value)|
  {
    var r := ParsePrototype(toks, p);
    if r.Ok? {
      var (params, e) := ParamsFrom(toks, p + 2);
      var s := RenderPrototype(r.value);
      assert r.value == Prototype(toks[p].name, params) && r.next == e + 1;
      var names := RenderNames(params);
      assert s == [TokIdentifier(toks[p].name), TokChar('(')] + names + [TokChar(')')];
      forall i | 0 <= i < |s|
        ensures toks[p + i] == s[i]
      {
        if 2 <= i < 2 + |params| {
          assert Cur(toks, p + 2 + (i - 2)) == TokIdentifier(params[i - 2]);
          assert s[i] == names[i - 2];
        }
      }
    }
  }

  /** parse_definition skips the `def` token at p and reads back a printed
      prototype and body. */
  lemma DefinitionRoundTrip(toks: seq<Token>, table: map<char, int>, p: nat, f: Function)
    requires SaneTable(table) && WellFormed(table, f.body)
    requires At(toks, p + 1, RenderPrototype(f.proto) + Render(f.body))
    requires Ends(table, Cur(toks, p + 1 + |RenderPrototype(f.proto)| + |Render(f.body)|))
    ensures ParseDefinition(toks, table, p)
         == Ok(f, p + 1 + |RenderPrototype(f.proto)| + |Render(f.body)|)
  {
    var q := p + 1 + |RenderPrototype(f.proto)|;
    var r := q + |Render(f.body)|;
    AtSplit(toks, p + 1, RenderPrototype(f.proto), Render(f.body));
    PrototypeRoundTrip(toks, p + 1, f.proto);
    ParseExprRender(toks, table, q, f.body);
    assert ParsePrototype(toks, p + 1) == Ok(f.proto, q);
    assert ParseExpr(toks, table, q) == Ok(f.body, r);
  }

  /** parse_extern skips the `extern` token at p and reads back a printed
      prototype. */
  lemma ExternRoundTrip(toks: seq<Token>, p: nat, proto: Prototype)
    requires At(toks, p + 1, RenderPrototype(proto))
    ensures ParseExtern(toks, p) == Ok(proto, p + 1 + |RenderPrototype(proto)|)
  {
    PrototypeRoundTrip(toks, p + 1, proto);
  }

  /** parse_top_level_expr wraps a printed expression in the anonymous
      function. */
  lemma TopLevelRoundTrip(table: map<char, int>, e: Expr)
    requires SaneTable(table) && WellFormed(table, e)
    ensures ParseTopLevelExpr(Render(e), table, 0) == Ok(Function(Prototype("", []), e), |Render(e)|)
  {
    ExprRoundTrip(table, e);
  }
}
