/** Two parts of kaleidoscope/native as the code stands, next to the
    behaviour the rest of this model gives them, with inputs on which the
    two differ:

    - get_tok (lexer.h:24-73), whose digit, comment, end-of-input and
      fallback branches sit inside the `isalpha` test, whose identifier loop
      drops the first letter and never clears `identifier_str`, and which
      returns nothing for an identifier that is not a keyword;
    - parse_bin_op_rhs (ast.h:180-208) with lines 195-197, which fold the
      left operand early and leave a null right operand behind. */
module AsWritten {
  import opened Lexer
  import opened Ast
  import opened Grammar
  import opened GrammarFacts
  import LexerFacts

  // ---------------------------------------------------------------------
  // get_tok as written

  /** What one call of get_tok does as written: it returns a code, leaving
      getchar at `read` and `identifier_str` as given; or control reaches the
      end of the function without a return statement. */
  datatype Outcome =
    | Returns(code: int, read: nat, identifierStr: string)
    | FallsOffEnd(read: nat)

  /** get_tok as written, from getchar state k with the buffer
      `identifierStr` left over from earlier calls. */
  function GetTokAsWritten(input: seq<char>, k: nat, identifierStr: string): (r: Outcome)
    requires k <= |input| + 1
    ensures r.Returns? ==> k < r.read <= |input| + 1
    decreases |input| + 1 - k
  {
    var s := RunEnd(input, k, IsSpace);
    if !IsAlpha(Peek(input, s)) then FallsOffEnd(s)
    else
      // the loop of line 32 reads before it appends: the letter at s is lost
      var e := RunEnd(input, s + 1, IsAlnum);
      var ident := identifierStr + input[s .. e - 1];
      if ident == "def" then Returns(Code(TokDef), e, ident)
      else if ident == "extern" then Returns(Code(TokExtern), e, ident)
      else AfterWord(input, e, ident)
  }

  /** The rest of get_tok as written, reached after a word that is not a
      keyword with `last_char` at state e, which is not alphanumeric: no
      identifier is returned, and the numeral, comment, end-of-input and
      fallback branches (lexer.h:44-71) are tried on the character after
      the word. */
  function AfterWord(input: seq<char>, e: nat, ident: string): (r: Outcome)
    requires 0 < e <= |input| + 1 && !IsAlnum(Peek(input, e))
    ensures r.Returns? ==> e <= r.read <= |input| + 1
    decreases |input| + 1 - e
  {
    var c := Peek(input, e);
    if IsNumeralChar(c) then
      var f := RunEnd(input, e + 1, IsNumeralChar);
      Returns(Code(TokNumber(input[e - 1 .. f - 1])), f, ident)
    else if c == '#' as int then
      var f := RunEnd(input, e + 1, InComment);
      if Peek(input, f) != EOF then GetTokAsWritten(input, f, ident)
      else Returns(Code(TokEof), f, ident)
    else if c == EOF then Returns(Code(TokEof), e, ident)
    else Returns(c, e + 1, ident)
  }

  /** As written, `def` is read as the identifier "ef" and, with no
      character after it, reported as end of input; the corrected lexer
      reads the keyword. */
  lemma KeywordMisreadAsWritten()
    ensures GetTokAsWritten("def", 0, "") == Returns(Code(TokEof), 4, "ef")
    ensures NextToken("def", 0) == (TokDef, 4)
  {
    assert RunEnd("def", 0, IsSpace) == 1 by { LexerFacts.RunEndIsFirstExit("def", 0, IsSpace, 1); }
    assert RunEnd("def", 2, IsAlnum) == 4 by { LexerFacts.RunEndIsFirstExit("def", 2, IsAlnum, 4); }
    assert "def"[1 .. 3] == "ef";
    assert AfterWord("def", 4, "ef") == Returns(Code(TokEof), 4, "ef");
    LexerFacts.LoneWord("def");
  }

  /** As written, a numeral at the start of a token reaches the end of
      get_tok without a return; the corrected lexer reads the numeral. */
  lemma NumeralFallsOffEndAsWritten()
    ensures GetTokAsWritten("42", 0, "") == FallsOffEnd(1)
    ensures NextToken("42", 0) == (TokNumber("42"), 3)
  {
    assert RunEnd("42", 0, IsSpace) == 1 by { LexerFacts.RunEndIsFirstExit("42", 0, IsSpace, 1); }
    LexerFacts.LoneNumeral("42");
  }

  /** As written, an identifier yields no token of its own: the space after
      it comes back as a character token; the corrected lexer returns the
      identifier. */
  lemma IdentifierLostAsWritten()
    ensures GetTokAsWritten("ab c", 0, "") == Returns(' ' as int, 4, "b")
    ensures NextToken("ab c", 0) == (TokIdentifier("ab"), 3)
  {
    assert RunEnd("ab c", 0, IsSpace) == 1 by { LexerFacts.RunEndIsFirstExit("ab c", 0, IsSpace, 1); }
    assert RunEnd("ab c", 2, IsAlnum) == 3 by { LexerFacts.RunEndIsFirstExit("ab c", 2, IsAlnum, 3); }
    assert "ab c"[1 .. 2] == "b";
    assert "ab c"[0 .. 2] == "ab";
  }

  /** As written, `identifier_str` is never cleared: a call appends what it
      reads to what earlier calls left, so the same input " def" is read as
      "bef" after "b" was left behind and as the keyword after "d". */
  lemma BufferCarriesOverAsWritten()
    ensures GetTokAsWritten(" def", 0, "b").Returns?
    ensures GetTokAsWritten(" def", 0, "b").identifierStr == "bef"
    ensures GetTokAsWritten(" def", 0, "d").code == Code(TokDef)
  {
    assert RunEnd(" def", 0, IsSpace) == 2 by { LexerFacts.RunEndIsFirstExit(" def", 0, IsSpace, 2); }
    assert RunEnd(" def", 3, IsAlnum) == 5 by { LexerFacts.RunEndIsFirstExit(" def", 3, IsAlnum, 5); }
    assert " def"[1 .. 4] == "def";
  }

  // ---------------------------------------------------------------------
  // parse_bin_op_rhs as written

  /** An expression tree whose pointers may be null. */
  datatype Tree = Null | Leaf(e: Expr) | Node(op: char, lhs: Tree, rhs: Tree)

  /** The tree of a syntax tree, without null pointers. */
  function Lift(e: Expr): (t: Tree)
    ensures t != Null
  {
    match e
    case Binary(op, lhs, rhs) => Node(op, Lift(lhs), Lift(rhs))
    case _ => Leaf(e)
  }

  /** parse_bin_op_rhs as written, lines 195-197 included. Operands are
      read by ParsePrimary; the null pointer is Null, and a null returned at
      line 203 without a message is `Ok(Null, _)`. */
  function BinOpRhsAsWritten(toks: seq<Token>, table: map<char, int>, exprPrec: nat, lhs: Tree, p: nat)
    : (r: Parsed<Tree>)
    ensures r.Ok? ==> p <= r.next && (p < r.next ==> r.next <= |toks|)
    ensures r.Fail? ==> p <= r.at
    decreases Remaining(toks, p)
  {
    var tokPrec := Precedence(table, Cur(toks, p));
    if tokPrec < exprPrec then Ok(lhs, p)
    else
      var binOp := Cur(toks, p).c;
      match ParsePrimary(toks, table, p + 1)
      case Fail(err, at) => Fail(err, at)
      case Ok(rhs, q) =>
        if tokPrec < Precedence(table, Cur(toks, q)) then
          // lines 195-196: LHS takes the operator and RHS, RHS is left null
          var folded := Node(binOp, lhs, Leaf(rhs));
          match BinOpRhsAsWritten(toks, table, tokPrec + 1, Null, q)
          case Fail(err, at) => Fail(err, at)
          case Ok(rhs', q') =>
            if rhs' == Null then Ok(Null, q')
            else BinOpRhsAsWritten(toks, table, exprPrec, Node(binOp, folded, rhs'), q')
        else
          BinOpRhsAsWritten(toks, table, exprPrec, Node(binOp, lhs, Leaf(rhs)), q)
  }

  /** On `x o1 y o2 z` the code as written builds what the corrected
      parser builds (see GrammarFacts.TighterOperatorGroupsFirst) exactly
      when o2 does not bind tighter than o1; when it does, the left pair is
      folded twice and o2's node has lost its left operand. */
  lemma RisingPrecedenceLosesOperand(table: map<char, int>, x: string, o1: char, y: string, o2: char, z: string)
    requires Precedence(table, TokChar(o1)) > 0 && Precedence(table, TokChar(o2)) > 0
    ensures BinOpRhsAsWritten([TokNumber(x), TokChar(o1), TokNumber(y), TokChar(o2), TokNumber(z)],
                              table, 0, Leaf(Number(x)), 1)
         == if Precedence(table, TokChar(o1)) < Precedence(table, TokChar(o2))
            then Ok(Node(o1, Node(o1, Leaf(Number(x)), Leaf(Number(y))), Node(o2, Null, Leaf(Number(z)))), 5)
            else Ok(Lift(Binary(o2, Binary(o1, Number(x), Number(y)), Number(z))), 5)
  {
    var toks := [TokNumber(x), TokChar(o1), TokNumber(y), TokChar(o2), TokNumber(z)];
    var p1, p2 := Precedence(table, TokChar(o1)), Precedence(table, TokChar(o2));
    assert Cur(toks, 5) == TokEof;
    assert ParsePrimary(toks, table, 2) == Ok(Number(y), 3);
    assert ParsePrimary(toks, table, 4) == Ok(Number(z), 5);
    if p1 < p2 {
      var right := Node(o2, Null, Leaf(Number(z)));
      assert BinOpRhsAsWritten(toks, table, p1 + 1, Null, 3)
          == BinOpRhsAsWritten(toks, table, p1 + 1, right, 5);
      var folded := Node(o1, Leaf(Number(x)), Leaf(Number(y)));
      assert BinOpRhsAsWritten(toks, table, 0, Leaf(Number(x)), 1)
          == BinOpRhsAsWritten(toks, table, 0, Node(o1, folded, right), 5);
    } else {
      var left := Node(o1, Leaf(Number(x)), Leaf(Number(y)));
      assert BinOpRhsAsWritten(toks, table, 0, Leaf(Number(x)), 1)
          == BinOpRhsAsWritten(toks, table, 0, left, 3);
      assert BinOpRhsAsWritten(toks, table, 0, left, 3)
          == BinOpRhsAsWritten(toks, table, 0, Node(o2, left, Leaf(Number(z))), 5);
      assert Lift(Binary(o1, Number(x), Number(y))) == left;
    }
  }

  /** 1+2*3 under the table of main.cpp: as written the result is
      (1+2) + (null*3); the corrected parser gives 1+(2*3). */
  lemma SumThenProductAsWritten()
    ensures BinOpRhsAsWritten([TokNumber("1"), TokChar('+'), TokNumber("2"), TokChar('*'), TokNumber("3")],
                              SeedTable, 0, Leaf(Number("1")), 1)
         == Ok(Node('+', Node('+', Leaf(Number("1")), Leaf(Number("2"))), Node('*', Null, Leaf(Number("3")))), 5)
    ensures ParseExpr([TokNumber("1"), TokChar('+'), TokNumber("2"), TokChar('*'), TokNumber("3")], SeedTable, 0)
         == Ok(Binary('+', Number("1"), Binary('*', Number("2"), Number("3"))), 5)
  {
    SeedTablePrecedences(TokEof);
    assert Lift(Number("1")) == Leaf(Number("1"));
    RisingPrecedenceLosesOperand(SeedTable, "1", '+', "2", '*', "3");
    TighterOperatorGroupsFirst(SeedTable, "1", '+', "2", '*', "3");
  }

  /** One pass of the loop as written over `o x` when the operator after it
      does not bind tighter than o: lines 195-197 do not run. */
  lemma FoldOneOperatorAsWritten(toks: seq<Token>, table: map<char, int>, p: nat, lhs: Tree, o: char, x: string)
    requires Cur(toks, p) == TokChar(o) && Cur(toks, p + 1) == TokNumber(x)
    requires Precedence(table, TokChar(o)) > 0
    requires Precedence(table, Cur(toks, p + 2)) <= Precedence(table, TokChar(o))
    ensures BinOpRhsAsWritten(toks, table, 0, lhs, p)
         == BinOpRhsAsWritten(toks, table, 0, Node(o, lhs, Leaf(Number(x))), p + 2)
  {
    assert ParsePrimary(toks, table, p + 1) == Ok(Number(x), p + 2);
  }

  /** Along a chain whose precedences never rise, lines 195-197 never run
      and the code as written builds the tree the corrected parser builds
      (GrammarFacts.LeftFoldChain). */
  lemma {:induction false} AsWrittenAgreesOnFallingChains(toks: seq<Token>, table: map<char, int>, p: nat, lhs: Expr, ops: seq<char>, operands: seq<string>)
    requires |ops| == |operands| && NonIncreasing(table, ops)
    requires At(toks, p, OperatorTail(ops, operands))
    requires Precedence(table, Cur(toks, p + 2 * |ops|)) < 0
    ensures BinOpRhsAsWritten(toks, table, 0, Lift(lhs), p)
         == Ok(Lift(FoldLeft(lhs, ops, operands)), p + 2 * |ops|)
    decreases |ops|
  {
    if ops != [] {
      ChainHead(toks, table, p, ops, operands);
      var next := Binary(ops[0], lhs, Number(operands[0]));
      FoldOneOperatorAsWritten(toks, table, p, Lift(lhs), ops[0], operands[0]);
      assert Lift(next) == Node(ops[0], Lift(lhs), Leaf(Number(operands[0])));
      AsWrittenAgreesOnFallingChains(toks, table, p + 2, next, ops[1..], operands[1..]);
    }
  }
}
