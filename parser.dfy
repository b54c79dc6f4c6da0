/** The parser and driver of kaleidoscope/native/ast.h as an object: the
    statics `cur_tok` and `binary_oper` are fields the parse functions update
    in place, the token source is a fixed sequence read through a position,
    and what the parser writes to stderr is a list of reports. Every method
    is proved to behave as the function of the same name in Grammar. */
module Parser {
  import opened Lexer
  import opened Ast
  import opened Grammar
  import opened GrammarFacts

  /** A parse result: None stands for the null pointer the source returns. */
  datatype Option<T> = None | Some(value: T)

  /** Two operator tables that give every token the same precedence. */
  ghost predicate SamePrecedences(m: map<char, int>, table: map<char, int>)
  {
    forall t :: Precedence(m, t) == Precedence(table, t)
  }

  /** The operator loop stops at a token below exprPrec. */
  lemma BinOpRhsStops(toks: seq<Token>, table: map<char, int>, exprPrec: nat, lhs: Expr, p: nat)
    requires Precedence(table, Cur(toks, p)) < exprPrec
    ensures Grammar.ParseBinOpRhs(toks, table, exprPrec, lhs, p) == Ok(lhs, p)
  {
  }

  /** One more iteration of the operator loop. */
  lemma BinOpRhsContinues(toks: seq<Token>, table: map<char, int>, exprPrec: nat, lhs: Expr, p: nat)
    requires Precedence(table, Cur(toks, p)) >= exprPrec
    ensures var rhs := Grammar.ParseRightOperand(toks, table, Precedence(table, Cur(toks, p)), p + 1);
            rhs.Fail? ==> Grammar.ParseBinOpRhs(toks, table, exprPrec, lhs, p) == Fail(rhs.error, rhs.at)
    ensures var rhs := Grammar.ParseRightOperand(toks, table, Precedence(table, Cur(toks, p)), p + 1);
            rhs.Ok? ==>
              Grammar.ParseBinOpRhs(toks, table, exprPrec, lhs, p)
              == Grammar.ParseBinOpRhs(toks, table, exprPrec, Binary(Cur(toks, p).c, lhs, rhs.value), rhs.next)
  {
  }

  class Parser {
    /** The tokens get_tok hands out, in order. */
    const toks: seq<Token>
    /** How many tokens after the first one have been fetched. */
    var pos: nat
    /** `cur_tok` (ast.h:81). */
    var curTok: Token
    /** `binary_oper` (ast.h:159). */
    var binaryOper: map<char, int>
    /** The reports written to stderr so far (the prompt is not modelled). */
    var messages: seq<Report>
    /** The precedences `binary_oper` had when parsing began. */
    ghost const table: map<char, int>

    ghost predicate Valid()
      reads this
    {
      curTok == Cur(toks, pos) && SamePrecedences(binaryOper, table)
    }

    /** The parser state after main.cpp:7-13, with the operator table the
        caller passes (Grammar.SeedTable is the one main.cpp:7-10 fills in)
        and the first token fetched. */
    constructor (toks: seq<Token>, binaryOper: map<char, int>)
      ensures Valid() && this.toks == toks && table == binaryOper && this.binaryOper == binaryOper
      ensures pos == 0 && messages == []
    {
      this.toks := toks;
      table := binaryOper;
      this.binaryOper := binaryOper;
      pos := 0;
      curTok := Cur(toks, 0);
      messages := [];
    }

    /** How a parse method's result and new state follow the specification:
        a value and the position after it, or the null pointer, the position
        of the offending token and one error report. */
    ghost predicate Yields<T>(r: Option<T>, spec: Parsed<T>, before: seq<Report>)
      reads this
    {
      match spec
      case Ok(v, q) => r == Some(v) && pos == q && messages == before
      case Fail(err, at) => r == None && pos == at && messages == before + [SyntaxError(err)]
    }

    /** get_next_token (ast.h:82). */
    method GetNextToken()
      requires Valid()
      modifies this
      ensures Valid() && pos == old(pos) + 1
      ensures binaryOper == old(binaryOper) && messages == old(messages)
    {
      pos := pos + 1;
      curTok := Cur(toks, pos);
    }

    /** log_err (ast.h:84-87). */
    method LogErr(err: ParseError)
      requires Valid()
      modifies this
      ensures Valid() && pos == old(pos) && binaryOper == old(binaryOper)
      ensures messages == old(messages) + [SyntaxError(err)]
    {
      messages := messages + [SyntaxError(err)];
    }

    /** get_tok_precedence (ast.h:161-168); a character missing from the
        table is entered with 0 by std::map::operator[]. */
    method GetTokPrecedence() returns (prec: int)
      requires Valid()
      modifies this
      ensures Valid() && prec == Precedence(table, curTok)
      ensures pos == old(pos) && messages == old(messages)
      ensures binaryOper
           == if 0 <= Code(curTok) < 128 && curTok.c !in old(binaryOper)
              then old(binaryOper)[curTok.c := 0] else old(binaryOper)
    {
      var code := Code(curTok);
      if !(0 <= code < 128) {
        return -1;
      }
      var c := curTok.c;
      if c !in binaryOper {
        MissingEntryReadsAsZero(binaryOper, c);
        binaryOper := binaryOper[c := 0];
      }
      var tokPrec := binaryOper[c];
      if tokPrec <= 0 {
        return -1;
      }
      return tokPrec;
    }

    /** parse_num_expr (ast.h:94-98). */
    method ParseNumExpr() returns (r: Option<Expr>)
      requires Valid() && curTok.TokNumber?
      modifies this
      ensures Valid() && Yields(r, Grammar.ParseNumExpr(toks, old(pos)), old(messages))
    {
      var res := Number(curTok.lexeme);
      GetNextToken();
      return Some(res);
    }

    /** parse_parent_expr (ast.h:102-111). */
    method ParseParenExpr() returns (r: Option<Expr>)
      requires Valid() && curTok == TokChar('(')
      modifies this
      ensures Valid() && Yields(r, Grammar.ParseParenExpr(toks, table, old(pos)), old(messages))
      decreases Remaining(toks, pos), 1
    {
      GetNextToken();
      var v := ParseExpr();
      if v.None? {
        return None;
      }
      if curTok != TokChar(')') {
        LogErr(ExpectedCloseParen);
        return None;
      }
      GetNextToken();
      return v;
    }

    /** parse_identifier_expr (ast.h:113-144) with its argument loop. */
    method ParseIdentifierExpr() returns (r: Option<Expr>)
      requires Valid() && curTok.TokIdentifier?
      modifies this
      ensures Valid() && Yields(r, Grammar.ParseIdentifierExpr(toks, table, old(pos)), old(messages))
      decreases Remaining(toks, pos), 1
    {
      var idName := curTok.name;
      GetNextToken();
      if curTok != TokChar('(') {
        return Some(Variable(idName));
      }
      GetNextToken();
      var args: seq<Expr> := [];
      if curTok != TokChar(')') {
        while true
          invariant Valid() && messages == old(messages)
          invariant old(pos) + 2 <= pos && old(pos) + 1 < |toks|
          invariant Grammar.ParseArgs(toks, table, pos, idName, args)
                 == Grammar.ParseIdentifierExpr(toks, table, old(pos))
          decreases Remaining(toks, pos)
        {
          var arg := ParseExpr();
          if arg.None? {
            return None;
          }
          args := args + [arg.value];
          if curTok == TokChar(')') {
            break;
          }
          if curTok != TokChar(',') {
            LogErr(ExpectedArgListSep);
            return None;
          }
          GetNextToken();
        }
      }
      GetNextToken();
      return Some(Call(idName, args));
    }

    /** parse_primary (ast.h:146-157). */
    method ParsePrimary() returns (r: Option<Expr>)
      requires Valid()
      modifies this
      ensures Valid() && Yields(r, Grammar.ParsePrimary(toks, table, old(pos)), old(messages))
      decreases Remaining(toks, pos), 2
    {
      if curTok.TokIdentifier? {
        r := ParseIdentifierExpr();
      } else if curTok.TokNumber? {
        r := ParseNumExpr();
      } else if curTok == TokChar('(') {
        r := ParseParenExpr();
      } else {
        LogErr(UnknownToken);
        r := None;
      }
    }

    /** parse_expr (ast.h:173-178). */
    method ParseExpr() returns (r: Option<Expr>)
      requires Valid()
      modifies this
      ensures Valid() && Yields(r, Grammar.ParseExpr(toks, table, old(pos)), old(messages))
      decreases Remaining(toks, pos), 3
    {
      var lhs := ParsePrimary();
      if lhs.None? {
        return None;
      }
      r := ParseBinOpRhs(0, lhs.value);
    }

    /** parse_bin_op_rhs (ast.h:180-208) without lines 195-197. */
    method ParseBinOpRhs(exprPrec: nat, lhs0: Expr) returns (r: Option<Expr>)
      requires Valid()
      modifies this
      ensures Valid() && Yields(r, Grammar.ParseBinOpRhs(toks, table, exprPrec, lhs0, old(pos)), old(messages))
      decreases Remaining(toks, pos), 0
    {
      var lhs := lhs0;
      while true
        invariant Valid() && messages == old(messages) && old(pos) <= pos
        invariant pos == old(pos) || pos <= |toks|
        invariant Grammar.ParseBinOpRhs(toks, table, exprPrec, lhs, pos)
               == Grammar.ParseBinOpRhs(toks, table, exprPrec, lhs0, old(pos))
        decreases Remaining(toks, pos)
      {
        var tokPrec := GetTokPrecedence();
        if tokPrec < exprPrec {
          BinOpRhsStops(toks, table, exprPrec, lhs, pos);
          return Some(lhs);
        }
        BinOpRhsContinues(toks, table, exprPrec, lhs, pos);
        var binOp := curTok.c;
        GetNextToken();
        var rhs := ParseRightOperand(tokPrec);
        if rhs.None? {
          return None;
        }
        lhs := Binary(binOp, lhs, rhs.value);
      }
    }

    /** ast.h:189-204, the right operand of an operator of precedence
        tokPrec within parse_bin_op_rhs. */
    method ParseRightOperand(tokPrec: nat) returns (r: Option<Expr>)
      requires Valid()
      modifies this
      ensures Valid() && Yields(r, Grammar.ParseRightOperand(toks, table, tokPrec, old(pos)), old(messages))
      decreases Remaining(toks, pos), 3
    {
      r := ParsePrimary();
      if r.None? {
        return None;
      }
      var nextPrec := GetTokPrecedence();
      if tokPrec < nextPrec {
        r := ParseBinOpRhs(tokPrec + 1, r.value);
      }
    }

    /** parse_proto_type (ast.h:210-226) with its parameter loop. */
    method ParsePrototype() returns (r: Option<Prototype>)
      requires Valid()
      modifies this
      ensures Valid() && Yields(r, Grammar.ParsePrototype(toks, old(pos)), old(messages))
    {
      if !curTok.TokIdentifier? {
        LogErr(ExpectedFunctionName);
        return None;
      }
      var fnName := curTok.name;
      GetNextToken();
      if curTok != TokChar('(') {
        LogErr(ExpectedProtoOpen);
        return None;
      }
      var argNames: seq<string> := [];
      GetNextToken();
      assert argNames + ParamsFrom(toks, pos).0 == ParamsFrom(toks, pos).0;
      while curTok.TokIdentifier?
        invariant Valid() && messages == old(messages) && pos == old(pos) + 2 + |argNames|
        invariant ParamsFrom(toks, old(pos) + 2)
               == (argNames + ParamsFrom(toks, pos).0, ParamsFrom(toks, pos).1)
        decreases Remaining(toks, pos)
      {
        var rest := ParamsFrom(toks, pos + 1);
        assert argNames + ([curTok.name] + rest.0) == argNames + [curTok.name] + rest.0;
        argNames := argNames + [curTok.name];
        GetNextToken();
      }
      assert argNames + [] == argNames;
      if curTok != TokChar(')') {
        LogErr(ExpectedProtoClose);
        return None;
      }
      GetNextToken();
      return Some(Prototype(fnName, argNames));
    }

    /** parse_definition (ast.h:228-236). */
    method ParseDefinition() returns (r: Option<Function>)
      requires Valid()
      modifies this
      ensures Valid() && Yields(r, Grammar.ParseDefinition(toks, table, old(pos)), old(messages))
    {
      GetNextToken();
      var proto := ParsePrototype();
      if proto.None? {
        return None;
      }
      var e := ParseExpr();
      if e.None? {
        return None;
      }
      return Some(Function(proto.value, e.value));
    }

    /** parse_extern (ast.h:238-241). */
    method ParseExtern() returns (r: Option<Prototype>)
      requires Valid()
      modifies this
      ensures Valid() && Yields(r, Grammar.ParseExtern(toks, old(pos)), old(messages))
    {
      GetNextToken();
      r := ParsePrototype();
    }

    /** parse_top_level_expr (ast.h:243-249). */
    method ParseTopLevelExpr() returns (r: Option<Function>)
      requires Valid()
      modifies this
      ensures Valid() && Yields(r, Grammar.ParseTopLevelExpr(toks, table, old(pos)), old(messages))
    {
      var e := ParseExpr();
      if e.None? {
        return None;
      }
      return Some(Function(Prototype("", []), e.value));
    }

    /** handle_def (ast.h:251-257); `handlers` selects the parse function
        it calls. */
    method HandleDef(handlers: Handlers)
      requires Valid()
      modifies this
      ensures Valid()
      ensures var (report, q) := HandleDefinition(toks, table, old(pos), handlers);
              pos == q && messages == old(messages) + [report]
    {
      var parsed: bool;
      if handlers == AsWritten {
        var e := ParseExpr();
        parsed := e.Some?;
      } else {
        var f := ParseDefinition();
        parsed := f.Some?;
      }
      if parsed {
        messages := messages + [DefinitionParsed];
      } else {
        GetNextToken();
      }
    }

    /** handle_exter (ast.h:259-265); `handlers` selects the parse function
        it calls. */
    method HandleExtern(handlers: Handlers)
      requires Valid()
      modifies this
      ensures Valid()
      ensures var (report, q) := Grammar.HandleExtern(toks, table, old(pos), handlers);
              pos == q && messages == old(messages) + [report]
    {
      var parsed: bool;
      if handlers == AsWritten {
        var e := ParseExpr();
        parsed := e.Some?;
      } else {
        var proto := ParseExtern();
        parsed := proto.Some?;
      }
      if parsed {
        messages := messages + [ExternParsed];
      } else {
        GetNextToken();
      }
    }

    /** handle_top_level_expr (ast.h:267-273). */
    method HandleTopLevelExpr()
      requires Valid()
      modifies this
      ensures Valid()
      ensures var (report, q) := Grammar.HandleTopLevelExpr(toks, table, old(pos));
              pos == q && messages == old(messages) + [report]
    {
      var f := ParseTopLevelExpr();
      if f.Some? {
        messages := messages + [TopLevelParsed];
      } else {
        GetNextToken();
      }
    }

    /** main_loop (ast.h:275-295): runs until end of input and writes the
        reports of Session. */
    method MainLoop(handlers: Handlers)
      requires Valid()
      modifies this
      ensures Valid() && curTok == TokEof
      ensures messages == old(messages) + Session(toks, table, old(pos), handlers)
    {
      while true
        invariant Valid()
        invariant old(messages) + Session(toks, table, old(pos), handlers)
               == messages + Session(toks, table, pos, handlers)
        decreases Remaining(toks, pos)
      {
        ghost var before, p := messages, pos;
        if curTok == TokEof {
          SessionEnds(toks, table, p, handlers);
          assert messages + [] == messages;
          return;
        } else if curTok == TokChar(';') {
          SemicolonStep(toks, table, p, handlers);
          GetNextToken();
        } else {
          ghost var step: (Report, nat);
          if curTok == TokDef {
            step := HandleDefinition(toks, table, p, handlers);
            DefinitionStep(toks, table, p, handlers, step.0, step.1);
            HandleDef(handlers);
          } else if curTok == TokExtern {
            step := Grammar.HandleExtern(toks, table, p, handlers);
            ExternStep(toks, table, p, handlers, step.0, step.1);
            HandleExtern(handlers);
          } else {
            step := Grammar.HandleTopLevelExpr(toks, table, p);
            TopLevelStep(toks, table, p, handlers, step.0, step.1);
            HandleTopLevelExpr();
          }
          AppendOne(before, step.0, Session(toks, table, step.1, handlers));
        }
      }
    }
  }
}
