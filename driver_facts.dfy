/** Worked examples with the operator table of main.cpp, and properties of
    the driver main_loop of kaleidoscope/native/ast.h. */
module DriverFacts {
  import opened Lexer
  import opened Ast
  import opened Grammar
  import opened GrammarFacts
  import opened RoundTrip

  // ---------------------------------------------------------------------
  // Grouping under the seeded table

  lemma SeedTableIsSane()
    ensures SaneTable(SeedTable)
  {
    SeedTablePrecedences(TokEof);
  }

  /** 1-2-3 is (1-2)-3. */
  lemma SubtractionGroupsLeft()
    ensures ParseExpr([TokNumber("1"), TokChar('-'), TokNumber("2"), TokChar('-'), TokNumber("3")], SeedTable, 0)
         == Ok(Binary('-', Binary('-', Number("1"), Number("2")), Number("3")), 5)
  {
    SeedTablePrecedences(TokEof);
    TighterOperatorGroupsFirst(SeedTable, "1", '-', "2", '-', "3");
  }

  /** 1+2*3 is 1+(2*3), and 1*2+3 is (1*2)+3. */
  lemma ProductBindsTighterThanSum()
    ensures ParseExpr([TokNumber("1"), TokChar('+'), TokNumber("2"), TokChar('*'), TokNumber("3")], SeedTable, 0)
         == Ok(Binary('+', Number("1"), Binary('*', Number("2"), Number("3"))), 5)
    ensures ParseExpr([TokNumber("1"), TokChar('*'), TokNumber("2"), TokChar('+'), TokNumber("3")], SeedTable, 0)
         == Ok(Binary('+', Binary('*', Number("1"), Number("2")), Number("3")), 5)
  {
    SeedTablePrecedences(TokEof);
    TighterOperatorGroupsFirst(SeedTable, "1", '+', "2", '*', "3");
    TighterOperatorGroupsFirst(SeedTable, "1", '*', "2", '+', "3");
  }

  /** (1+2)*3 multiplies the sum: parentheses override precedence. */
  lemma ParenthesesOverridePrecedence(toks: seq<Token>)
    requires toks == [TokChar('('), TokNumber("1"), TokChar('+'), TokNumber("2"), TokChar(')'), TokChar('*'), TokNumber("3")]
    ensures ParseExpr(toks, SeedTable, 0) == Ok(Binary('*', Binary('+', Number("1"), Number("2")), Number("3")), 7)
  {
    var sum := Binary('+', Number("1"), Number("2"));
    SeedTablePrecedences(TokEof);
    assert Render(sum) == toks[0 .. 5];
    ParsePrimaryRender(toks, SeedTable, 0, sum);
    assert OperatorTail(['*'], ["3"]) == toks[5 .. 7];
    LeftFoldChain(toks, SeedTable, 5, sum, ['*'], ["3"]);
    assert FoldLeft(sum, ['*'], ["3"]) == Binary('*', sum, Number("3"));
  }

  // ---------------------------------------------------------------------
  // The driver

  /** A token in front of a run of tokens. */
  lemma AtTail(t: Token, s: seq<Token>)
    ensures Cur([t] + s, 0) == t && At([t] + s, 1, s)
  {
    assert ([t] + s)[0] == t;
    forall i | 0 <= i < |s|
      ensures ([t] + s)[1 + i] == s[i]
    {
    }
  }

  /** handle_def and handle_exter as written hand the `def` or `extern`
      token to parse_expr, which rejects it as an unknown token; the handler
      then skips it. */
  lemma KeywordRejectedAsWritten(toks: seq<Token>, table: map<char, int>, p: nat)
    requires Cur(toks, p) == TokDef || Cur(toks, p) == TokExtern
    ensures Session(toks, table, p, AsWritten)
         == [SyntaxError(UnknownToken)] + Session(toks, table, p + 1, AsWritten)
  {
    assert ParsePrimary(toks, table, p) == Fail(UnknownToken, p);
    assert ParseExpr(toks, table, p) == Fail(UnknownToken, p);
  }

  /** The session over a definition's tokens, wherever they lie. */
  lemma DefinitionSessionAt(toks: seq<Token>, table: map<char, int>, f: Function)
    requires SaneTable(table) && WellFormed(table, f.body)
    requires Cur(toks, 0) == TokDef && At(toks, 1, RenderPrototype(f.proto) + Render(f.body))
    requires |toks| == 1 + |RenderPrototype(f.proto)| + |Render(f.body)|
    ensures Session(toks, table, 0, Intended) == [DefinitionParsed]
    ensures Session(toks, table, 0, AsWritten)[0] == SyntaxError(UnknownToken)
  {
    KeywordRejectedAsWritten(toks, table, 0);
    assert ParseDefinition(toks, table, 0) == Ok(f, |toks|) by {
      DefinitionRoundTrip(toks, table, 0, f);
    }
    DefinitionStep(toks, table, 0, Intended, DefinitionParsed, |toks|);
    SessionEnds(toks, table, |toks|, Intended);
  }

  /** With the definition parser, a printed definition is reported as one
      definition; as written, its `def` is reported as an error instead. */
  lemma DefinitionSession(table: map<char, int>, f: Function)
    requires SaneTable(table) && WellFormed(table, f.body)
    ensures var toks := [TokDef] + (RenderPrototype(f.proto) + Render(f.body));
            Session(toks, table, 0, Intended) == [DefinitionParsed]
    ensures var toks := [TokDef] + (RenderPrototype(f.proto) + Render(f.body));
            Session(toks, table, 0, AsWritten)[0] == SyntaxError(UnknownToken)
  {
    AtTail(TokDef, RenderPrototype(f.proto) + Render(f.body));
    DefinitionSessionAt([TokDef] + (RenderPrototype(f.proto) + Render(f.body)), table, f);
  }

  /** With the extern parser, a printed extern declaration is reported as
      one extern; as written, its `extern` is reported as an error instead. */
  lemma ExternSession(table: map<char, int>, proto: Prototype)
    ensures var toks := [TokExtern] + RenderPrototype(proto);
            Session(toks, table, 0, Intended) == [ExternParsed]
    ensures var toks := [TokExtern] + RenderPrototype(proto);
            Session(toks, table, 0, AsWritten)[0] == SyntaxError(UnknownToken)
  {
    var toks := [TokExtern] + RenderPrototype(proto);
    AtTail(TokExtern, RenderPrototype(proto));
    ExternRoundTrip(toks, 0, proto);
    ExternStep(toks, table, 0, Intended, ExternParsed, |toks|);
    SessionEnds(toks, table, |toks|, Intended);
    KeywordRejectedAsWritten(toks, table, 0);
  }

  /** A printed expression is one top-level expression under either
      handler set. */
  lemma TopLevelSession(table: map<char, int>, e: Expr, handlers: Handlers)
    requires SaneTable(table) && WellFormed(table, e)
    ensures Session(Render(e), table, 0, handlers) == [TopLevelParsed]
  {
    TopLevelRoundTrip(table, e);
    RenderStart(e);
  }

  /** A variable followed by a token that ends an expression. */
  lemma VariableAlone(toks: seq<Token>, table: map<char, int>, p: nat)
    requires Cur(toks, p).TokIdentifier? && Cur(toks, p + 1) != TokChar('(')
    requires Precedence(table, Cur(toks, p + 1)) < 0
    ensures ParseExpr(toks, table, p) == Ok(Variable(Cur(toks, p).name), p + 1)
  {
    assert ParsePrimary(toks, table, p) == Ok(Variable(Cur(toks, p).name), p + 1);
  }

  /** A numeral followed by a token that ends an expression. */
  lemma NumberAlone(toks: seq<Token>, table: map<char, int>, p: nat)
    requires Cur(toks, p).TokNumber? && Precedence(table, Cur(toks, p + 1)) < 0
    ensures ParseExpr(toks, table, p) == Ok(Number(Cur(toks, p).lexeme), p + 1)
  {
    assert ParsePrimary(toks, table, p) == Ok(Number(Cur(toks, p).lexeme), p + 1);
  }

  /** The call `f(x)` at position 1 of `def f(x) x`. */
  lemma CallOfOneVariable(toks: seq<Token>)
    requires toks == [TokDef, TokIdentifier("f"), TokChar('('), TokIdentifier("x"), TokChar(')'), TokIdentifier("x")]
    ensures ParseExpr(toks, SeedTable, 1) == Ok(Call("f", [Variable("x")]), 5)
  {
    SeedTablePrecedences(TokChar(')'));
    SeedTablePrecedences(TokIdentifier("x"));
    VariableAlone(toks, SeedTable, 3);
    assert [] + [Variable("x")] == [Variable("x")];
    assert ParseArgs(toks, SeedTable, 3, "f", []) == Ok(Call("f", [Variable("x")]), 5);
    assert ParsePrimary(toks, SeedTable, 1) == Ok(Call("f", [Variable("x")]), 5);
  }

  /** The prototype `f(x)` at position 1 of `def f(x) x`. */
  lemma PrototypeOfOneParameter(toks: seq<Token>)
    requires toks == [TokDef, TokIdentifier("f"), TokChar('('), TokIdentifier("x"), TokChar(')'), TokIdentifier("x")]
    ensures ParsePrototype(toks, 1) == Ok(Prototype("f", ["x"]), 5)
  {
    assert ParamsFrom(toks, 4) == ([], 4);
    assert ["x"] + [] == ["x"];
    assert ParamsFrom(toks, 3) == (["x"], 4);
  }

  /** `def f(x) x`: as written, the `def` is an error and the rest is read as
      two top-level expressions, the call f(x) and x. */
  lemma DefinitionMisreadAsWritten(toks: seq<Token>)
    requires toks == [TokDef, TokIdentifier("f"), TokChar('('), TokIdentifier("x"), TokChar(')'), TokIdentifier("x")]
    ensures Session(toks, SeedTable, 0, AsWritten) == [SyntaxError(UnknownToken), TopLevelParsed, TopLevelParsed]
    ensures Session(toks, SeedTable, 0, Intended) == [DefinitionParsed]
  {
    SeedTablePrecedences(TokEof);
    VariableAlone(toks, SeedTable, 5);
    assert Cur(toks, 0) == TokDef && Cur(toks, 1) == TokIdentifier("f") && Cur(toks, 5) == TokIdentifier("x");
    assert Session(toks, SeedTable, 0, AsWritten) == [SyntaxError(UnknownToken), TopLevelParsed, TopLevelParsed] by {
      CallOfOneVariable(toks);
      KeywordRejectedAsWritten(toks, SeedTable, 0);
      TopLevelStep(toks, SeedTable, 1, AsWritten, TopLevelParsed, 5);
      TopLevelStep(toks, SeedTable, 5, AsWritten, TopLevelParsed, 6);
      SessionEnds(toks, SeedTable, 6, AsWritten);
    }
    PrototypeOfOneParameter(toks);
    DefinitionStep(toks, SeedTable, 0, Intended, DefinitionParsed, 6);
    SessionEnds(toks, SeedTable, 6, Intended);
  }

  /** The call `f(;` at position 1 of `def f( ; 42` fails at ';'. */
  lemma CallMissingArgument(toks: seq<Token>)
    requires toks == [TokDef, TokIdentifier("f"), TokChar('('), TokChar(';'), TokNumber("42")]
    ensures ParseExpr(toks, SeedTable, 1) == Fail(UnknownToken, 3)
  {
    assert ParsePrimary(toks, SeedTable, 3) == Fail(UnknownToken, 3);
    assert ParseArgs(toks, SeedTable, 3, "f", []) == Fail(UnknownToken, 3);
    assert ParsePrimary(toks, SeedTable, 1) == Fail(UnknownToken, 3);
  }

  /** The prototype `f(;` at position 1 of `def f( ; 42` lacks its ')'. */
  lemma PrototypeMissingClose(toks: seq<Token>)
    requires toks == [TokDef, TokIdentifier("f"), TokChar('('), TokChar(';'), TokNumber("42")]
    ensures ParsePrototype(toks, 1) == Fail(ExpectedProtoClose, 3)
  {
    assert ParamsFrom(toks, 3) == ([], 3);
  }

  /** `def f( ; 42`: an error is reported once per failed handler call, the
      token it was reported at is skipped, and parsing resumes after it. */
  lemma RecoveryAfterError(toks: seq<Token>)
    requires toks == [TokDef, TokIdentifier("f"), TokChar('('), TokChar(';'), TokNumber("42")]
    ensures Session(toks, SeedTable, 0, AsWritten)
         == [SyntaxError(UnknownToken), SyntaxError(UnknownToken), TopLevelParsed]
    ensures Session(toks, SeedTable, 0, Intended) == [SyntaxError(ExpectedProtoClose), TopLevelParsed]
  {
    SeedTablePrecedences(TokEof);
    assert Cur(toks, 0) == TokDef && Cur(toks, 1) == TokIdentifier("f") && Cur(toks, 4) == TokNumber("42");
    NumberAlone(toks, SeedTable, 4);
    assert Session(toks, SeedTable, 0, AsWritten)
        == [SyntaxError(UnknownToken), SyntaxError(UnknownToken), TopLevelParsed] by {
      CallMissingArgument(toks);
      KeywordRejectedAsWritten(toks, SeedTable, 0);
      TopLevelStep(toks, SeedTable, 1, AsWritten, SyntaxError(UnknownToken), 4);
      TopLevelStep(toks, SeedTable, 4, AsWritten, TopLevelParsed, 5);
      SessionEnds(toks, SeedTable, 5, AsWritten);
    }
    PrototypeMissingClose(toks);
    DefinitionStep(toks, SeedTable, 0, Intended, SyntaxError(ExpectedProtoClose), 4);
    TopLevelStep(toks, SeedTable, 4, Intended, TopLevelParsed, 5);
    SessionEnds(toks, SeedTable, 5, Intended);
  }
}
