/** Properties of the parser and the driver of kaleidoscope/native/ast.h:
    how the operator table is read, where an expression ends, how operators
    group, and that printed syntax trees parse back to themselves. */
module GrammarFacts {
  import opened Lexer
  import opened Ast
  import opened Grammar

  // ---------------------------------------------------------------------
  // The operator table

  /** A token is a binary operator exactly when it is an ASCII character
      with a positive table entry, and that entry is its precedence. */
  lemma PrecedenceIsPositiveEntry(table: map<char, int>, t: Token)
    ensures Precedence(table, t) > 0
        <==> t.TokChar? && t.c as int < 128 && t.c in table && table[t.c] > 0
    ensures Precedence(table, t) > 0 ==> Precedence(table, t) == table[t.c]
  {
  }

  /** get_tok_precedence stores 0 under a character it does not find
      (std::map::operator[]); that entry changes no precedence. */
  lemma MissingEntryReadsAsZero(table: map<char, int>, c: char)
    requires c !in table
    ensures forall t :: Precedence(table[c := 0], t) == Precedence(table, t)
  {
  }

  /** The table of main.cpp:7-10: '*' binds tighter than '+' and '-', which
      bind tighter than '<'; nothing else is an operator. */
  lemma SeedTablePrecedences(t: Token)
    ensures Precedence(SeedTable, TokChar('<')) == 10
    ensures Precedence(SeedTable, TokChar('+')) == 20
    ensures Precedence(SeedTable, TokChar('-')) == 20
    ensures Precedence(SeedTable, TokChar('*')) == 40
    ensures Precedence(SeedTable, t) > 0 <==> t in {TokChar('<'), TokChar('+'), TokChar('-'), TokChar('*')}
  {
  }

  // ---------------------------------------------------------------------
  // Where parses end

  /** The operator loop hands its result back only at a token whose
      precedence is below exprPrec: a top-level expression extends up to the
      first token that is not a binary operator. */
  lemma {:induction false} BinOpRhsStopsBelow(toks: seq<Token>, table: map<char, int>, exprPrec: nat, lhs: Expr, p: nat)
    ensures var r := ParseBinOpRhs(toks, table, exprPrec, lhs, p);
            r.Ok? ==> Precedence(table, Cur(toks, r.next)) < exprPrec
    decreases Remaining(toks, p)
  {
    var tokPrec := Precedence(table, Cur(toks, p));
    if tokPrec >= exprPrec {
      match ParseRightOperand(toks, table, tokPrec, p + 1)
      case Fail(_, _) =>
      case Ok(rhs, q) =>
        BinOpRhsStopsBelow(toks, table, exprPrec, Binary(Cur(toks, p).c, lhs, rhs), q);
    }
  }

  /** parse_expr stops only at a token that is not a binary operator. */
  lemma ExprEndsBeforeNonOperator(toks: seq<Token>, table: map<char, int>, p: nat)
    ensures var r := ParseExpr(toks, table, p);
            r.Ok? ==> Precedence(table, Cur(toks, r.next)) < 0
  {
    match ParsePrimary(toks, table, p)
    case Fail(_, _) =>
    case Ok(lhs, q) => BinOpRhsStopsBelow(toks, table, 0, lhs, q);
  }

  /** A parenthesised expression is the inner expression itself, and it
      parses exactly when the inner expression does and is followed by ')'. */
  lemma ParenIsInnerExpr(toks: seq<Token>, table: map<char, int>, p: nat)
    requires Cur(toks, p) == TokChar('(')
    ensures var inner := ParseExpr(toks, table, p + 1);
            ParseParenExpr(toks, table, p).Ok?
            <==> inner.Ok? && Cur(toks, inner.next) == TokChar(')')
    ensures var inner := ParseExpr(toks, table, p + 1);
            ParseParenExpr(toks, table, p).Ok? ==>
              ParseParenExpr(toks, table, p) == Ok(inner.value, inner.next + 1)
  {
  }

  /** Each argument loop iteration appends the argument it parsed, and a
      call is only produced once its ')' is consumed. */
  lemma {:induction false} ArgsEndAtCloseParen(toks: seq<Token>, table: map<char, int>, p: nat, callee: string, args: seq<Expr>)
    ensures var r := ParseArgs(toks, table, p, callee, args);
            r.Ok? ==>
              && r.value.Call? && r.value.callee == callee
              && |args| < |r.value.args| && r.value.args[..|args|] == args
              && 1 <= r.next && Cur(toks, r.next - 1) == TokChar(')')
    decreases Remaining(toks, p)
  {
    match ParseExpr(toks, table, p)
    case Fail(_, _) =>
    case Ok(arg, q) =>
      if Cur(toks, q) != TokChar(')') && Cur(toks, q) == TokChar(',') {
        ArgsEndAtCloseParen(toks, table, q + 1, callee, args + [arg]);
        var r := ParseArgs(toks, table, q + 1, callee, args + [arg]);
        if r.Ok? {
          assert r.value.args[..|args|] == r.value.args[..|args| + 1][..|args|];
        }
      }
  }

  /** An argument followed by anything but ',' or ')' is the error of
      ast.h:134-135, reported at that token. */
  lemma ArgsNeedSeparator(toks: seq<Token>, table: map<char, int>, p: nat, callee: string, args: seq<Expr>,
                          arg: Expr, q: nat)
    requires ParseExpr(toks, table, p) == Ok(arg, q)
    requires Cur(toks, q) != TokChar(')') && Cur(toks, q) != TokChar(',')
    ensures ParseArgs(toks, table, p, callee, args) == Fail(ExpectedArgListSep, q)
  {
  }

  /** An identifier not followed by '(' is a variable reference of one
      token; otherwise it is a call with that name that ends with ')'. */
  lemma IdentifierExprShape(toks: seq<Token>, table: map<char, int>, p: nat)
    requires Cur(toks, p).TokIdentifier?
    ensures var r := ParseIdentifierExpr(toks, table, p);
            Cur(toks, p + 1) != TokChar('(') ==> r == Ok(Variable(Cur(toks, p).name), p + 1)
    ensures var r := ParseIdentifierExpr(toks, table, p);
            Cur(toks, p + 1) == TokChar('(') && r.Ok? ==>
              && r.value.Call? && r.value.callee == Cur(toks, p).name
              && Cur(toks, r.next - 1) == TokChar(')')
  {
    if Cur(toks, p + 1) == TokChar('(') && Cur(toks, p + 2) != TokChar(')') {
      ArgsEndAtCloseParen(toks, table, p + 2, Cur(toks, p).name, []);
    }
  }

  // ---------------------------------------------------------------------
  // How operators group

  /** `toks[p ..]` begins with s. */
  ghost predicate At(toks: seq<Token>, p: nat, s: seq<Token>)
  {
    p + |s| <= |toks| && forall i :: 0 <= i < |s| ==> toks[p + i] == s[i]
  }

  lemma AtSplit(toks: seq<Token>, p: nat, a: seq<Token>, b: seq<Token>)
    requires At(toks, p, a + b)
    ensures At(toks, p, a) && At(toks, p + |a|, b)
  {
    forall i | 0 <= i < |a|
      ensures toks[p + i] == a[i]
    {
      assert (a + b)[i] == a[i];
    }
    forall i | 0 <= i < |b|
      ensures toks[p + |a| + i] == b[i]
    {
      assert (a + b)[|a| + i] == b[i];
    }
  }

  lemma AtHead(toks: seq<Token>, p: nat, t: Token)
    requires At(toks, p, [t])
    ensures Cur(toks, p) == t
  {
    assert [t][0] == t;
  }

  lemma AtPair(toks: seq<Token>, p: nat, t: Token, u: Token)
    requires At(toks, p, [t, u])
    ensures Cur(toks, p) == t && Cur(toks, p + 1) == u
  {
    assert [t, u][0] == t && [t, u][1] == u;
  }

  /** The tokens of `o1 x1 o2 x2 ...` for operators ops and numerals operands. */
  function OperatorTail(ops: seq<char>, operands: seq<string>): (ts: seq<Token>)
    requires |ops| == |operands|
    ensures |ts| == 2 * |ops|
  {
    if ops == [] then []
    else [TokChar(ops[0]), TokNumber(operands[0])] + OperatorTail(ops[1..], operands[1..])
  }

  /** lhs o1 x1 o2 x2 ... grouped from the left. */
  function FoldLeft(lhs: Expr, ops: seq<char>, operands: seq<string>): Expr
    requires |ops| == |operands|
    decreases |ops|
  {
    if ops == [] then lhs
    else FoldLeft(Binary(ops[0], lhs, Number(operands[0])), ops[1..], operands[1..])
  }

  /** Operators none of which binds tighter than the one before it. */
  predicate NonIncreasing(table: map<char, int>, ops: seq<char>)
  {
    && (forall i :: 0 <= i < |ops| ==> Precedence(table, TokChar(ops[i])) > 0)
    && (forall i, j :: 0 <= i < j < |ops| ==> Precedence(table, TokChar(ops[j])) <= Precedence(table, TokChar(ops[i])))
  }

  /** One iteration of the operator loop over `o x` when the operator after
      it does not bind tighter than o. */
  lemma FoldOneOperator(toks: seq<Token>, table: map<char, int>, p: nat, lhs: Expr, o: char, x: string)
    requires Cur(toks, p) == TokChar(o) && Cur(toks, p + 1) == TokNumber(x)
    requires Precedence(table, TokChar(o)) > 0
    requires Precedence(table, Cur(toks, p + 2)) <= Precedence(table, TokChar(o))
    ensures ParseBinOpRhs(toks, table, 0, lhs, p)
         == ParseBinOpRhs(toks, table, 0, Binary(o, lhs, Number(x)), p + 2)
  {
    assert ParsePrimary(toks, table, p + 1) == Ok(Number(x), p + 2);
    assert ParseRightOperand(toks, table, Precedence(table, TokChar(o)), p + 1) == Ok(Number(x), p + 2);
  }

  /** The first operator and operand of a chain, and the chain after them. */
  lemma ChainHead(toks: seq<Token>, table: map<char, int>, p: nat, ops: seq<char>, operands: seq<string>)
    requires |ops| == |operands| && ops != [] && NonIncreasing(table, ops)
    requires At(toks, p, OperatorTail(ops, operands))
    ensures Cur(toks, p) == TokChar(ops[0]) && Cur(toks, p + 1) == TokNumber(operands[0])
    ensures At(toks, p + 2, OperatorTail(ops[1..], operands[1..]))
    ensures |ops| > 1 ==> Cur(toks, p + 2) == TokChar(ops[1])
    ensures NonIncreasing(table, ops[1..])
  {
    var rest := OperatorTail(ops[1..], operands[1..]);
    AtSplit(toks, p, [TokChar(ops[0]), TokNumber(operands[0])], rest);
    AtPair(toks, p, TokChar(ops[0]), TokNumber(operands[0]));
    if |ops| > 1 {
      AtSplit(toks, p + 2, [TokChar(ops[1]), TokNumber(operands[1])], OperatorTail(ops[2..], operands[2..]));
      AtPair(toks, p + 2, TokChar(ops[1]), TokNumber(operands[1]));
    }
    forall i, j | 0 <= i < j < |ops| - 1
      ensures Precedence(table, TokChar(ops[1..][j])) <= Precedence(table, TokChar(ops[1..][i]))
    {
      assert ops[1..][j] == ops[j + 1] && ops[1..][i] == ops[i + 1];
    }
  }

  /** A chain of operators of equal or decreasing precedence associates to
      the left: 1-2-3 is (1-2)-3 and 1*2+3 is (1*2)+3. */
  lemma {:induction false} LeftFoldChain(toks: seq<Token>, table: map<char, int>, p: nat, lhs: Expr, ops: seq<char>, operands: seq<string>)
    requires |ops| == |operands| && NonIncreasing(table, ops)
    requires At(toks, p, OperatorTail(ops, operands))
    requires Precedence(table, Cur(toks, p + 2 * |ops|)) < 0
    ensures ParseBinOpRhs(toks, table, 0, lhs, p) == Ok(FoldLeft(lhs, ops, operands), p + 2 * |ops|)
    decreases |ops|
  {
    if ops != [] {
      ChainHead(toks, table, p, ops, operands);
      FoldOneOperator(toks, table, p, lhs, ops[0], operands[0]);
      LeftFoldChain(toks, table, p + 2, Binary(ops[0], lhs, Number(operands[0])), ops[1..], operands[1..]);
    }
  }

  /** A whole expression made of a numeral and such a chain. */
  lemma ChainIsLeftAssociative(toks: seq<Token>, table: map<char, int>, p: nat, first: string, ops: seq<char>, operands: seq<string>)
    requires |ops| == |operands| && NonIncreasing(table, ops)
    requires At(toks, p, [TokNumber(first)] + OperatorTail(ops, operands))
    requires Precedence(table, Cur(toks, p + 1 + 2 * |ops|)) < 0
    ensures ParseExpr(toks, table, p) == Ok(FoldLeft(Number(first), ops, operands), p + 1 + 2 * |ops|)
  {
    AtSplit(toks, p, [TokNumber(first)], OperatorTail(ops, operands));
    AtHead(toks, p, TokNumber(first));
    assert ParsePrimary(toks, table, p) == Ok(Number(first), p + 1);
    LeftFoldChain(toks, table, p + 1, Number(first), ops, operands);
  }

  /** Of x o1 y o2 z, the right pair is grouped first exactly when o2 binds
      strictly tighter than o1. */
  lemma TighterOperatorGroupsFirst(table: map<char, int>, x: string, o1: char, y: string, o2: char, z: string)
    requires Precedence(table, TokChar(o1)) > 0 && Precedence(table, TokChar(o2)) > 0
    ensures ParseExpr([TokNumber(x), TokChar(o1), TokNumber(y), TokChar(o2), TokNumber(z)], table, 0)
         == Ok(if Precedence(table, TokChar(o1)) < Precedence(table, TokChar(o2))
               then Binary(o1, Number(x), Binary(o2, Number(y), Number(z)))
               else Binary(o2, Binary(o1, Number(x), Number(y)), Number(z)), 5)
  {
    var toks := [TokNumber(x), TokChar(o1), TokNumber(y), TokChar(o2), TokNumber(z)];
    assert Cur(toks, 5) == TokEof;
    assert ParsePrimary(toks, table, 0) == Ok(Number(x), 1);
    assert ParsePrimary(toks, table, 2) == Ok(Number(y), 3);
    assert ParsePrimary(toks, table, 4) == Ok(Number(z), 5);
    var p1, p2 := Precedence(table, TokChar(o1)), Precedence(table, TokChar(o2));
    assert ParseRightOperand(toks, table, p2, 4) == Ok(Number(z), 5);
    if p1 < p2 {
      var inner := Binary(o2, Number(y), Number(z));
      assert ParseBinOpRhs(toks, table, p1 + 1, Number(y), 3)
          == ParseBinOpRhs(toks, table, p1 + 1, inner, 5);
      assert ParseRightOperand(toks, table, p1, 2) == Ok(inner, 5);
      assert ParseBinOpRhs(toks, table, 0, Number(x), 1)
          == ParseBinOpRhs(toks, table, 0, Binary(o1, Number(x), inner), 5);
    } else {
      var left := Binary(o1, Number(x), Number(y));
      assert ParseRightOperand(toks, table, p1, 2) == Ok(Number(y), 3);
      assert ParseBinOpRhs(toks, table, 0, Number(x), 1) == ParseBinOpRhs(toks, table, 0, left, 3);
      assert ParseBinOpRhs(toks, table, 0, left, 3)
          == ParseBinOpRhs(toks, table, 0, Binary(o2, left, Number(z)), 5);
    }
  }

  // ---------------------------------------------------------------------
  // One step of main_loop

  /** main_loop at end of input writes nothing more. */
  lemma SessionEnds(toks: seq<Token>, table: map<char, int>, p: nat, handlers: Handlers)
    requires Cur(toks, p) == TokEof
    ensures Session(toks, table, p, handlers) == []
  {
  }

  /** One call of handle_def from main_loop. */
  lemma DefinitionStep(toks: seq<Token>, table: map<char, int>, p: nat, handlers: Handlers, report: Report, q: nat)
    requires Cur(toks, p) == TokDef && HandleDefinition(toks, table, p, handlers) == (report, q)
    ensures Session(toks, table, p, handlers) == [report] + Session(toks, table, q, handlers)
  {
  }

  /** One call of handle_exter from main_loop. */
  lemma ExternStep(toks: seq<Token>, table: map<char, int>, p: nat, handlers: Handlers, report: Report, q: nat)
    requires Cur(toks, p) == TokExtern && HandleExtern(toks, table, p, handlers) == (report, q)
    ensures Session(toks, table, p, handlers) == [report] + Session(toks, table, q, handlers)
  {
  }

  /** One call of handle_top_level_expr from main_loop. */
  lemma TopLevelStep(toks: seq<Token>, table: map<char, int>, p: nat, handlers: Handlers, report: Report, q: nat)
    requires Cur(toks, p) !in {TokEof, TokChar(';'), TokDef, TokExtern}
    requires HandleTopLevelExpr(toks, table, p) == (report, q)
    ensures Session(toks, table, p, handlers) == [report] + Session(toks, table, q, handlers)
  {
  }

  /** A ';' at top level is skipped without a report. */
  lemma SemicolonStep(toks: seq<Token>, table: map<char, int>, p: nat, handlers: Handlers)
    requires Cur(toks, p) == TokChar(';')
    ensures Session(toks, table, p, handlers) == Session(toks, table, p + 1, handlers)
  {
  }

  lemma AppendOne<T>(a: seq<T>, x: T, b: seq<T>)
    ensures a + ([x] + b) == a + [x] + b
  {
  }
}
