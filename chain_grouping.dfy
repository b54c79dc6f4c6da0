/** How parse_expr groups a flat chain `x0 o1 x1 ... on xn` of numerals and
    table operators (ast.h:173-208), against a reference grouping that does
    not mention the parser: the root of a chain is the last of its
    loosest-binding operators, and both sides of it are grouped the same
    way. Equal precedences therefore group from the left, and a tighter
    operator takes the operand before it as its own left operand. */
module ChainGrouping {
  import opened Lexer
  import opened Ast
  import opened Grammar
  import Parser

  /** The precedences of the operators ops. */
  function Precs(table: map<char, int>, ops: seq<char>): (ps: seq<int>)
    ensures PrecsOf(table, ops, ps)
  {
    var ps := seq(|ops|, k requires 0 <= k < |ops| => Precedence(table, TokChar(ops[k])));
    PrecsFromIndex(table, ops, ps, 0);
    ps
  }

  /** ps lists the precedences of the operators ops. */
  predicate PrecsOf(table: map<char, int>, ops: seq<char>, ps: seq<int>)
  {
    |ps| == |ops| && PrecsFrom(table, ops, ps, 0)
  }

  /** ps[k] is the precedence of ops[k] for every k from i on. */
  predicate PrecsFrom(table: map<char, int>, ops: seq<char>, ps: seq<int>, i: nat)
    requires |ps| == |ops|
    decreases |ops| - i
  {
    i < |ops| ==> ps[i] == Precedence(table, TokChar(ops[i])) && PrecsFrom(table, ops, ps, i + 1)
  }

  lemma {:induction false} PrecsFromIndex(table: map<char, int>, ops: seq<char>, ps: seq<int>, i: nat)
    requires |ps| == |ops| && forall k :: i <= k < |ops| ==> ps[k] == Precedence(table, TokChar(ops[k]))
    ensures PrecsFrom(table, ops, ps, i)
    decreases |ops| - i
  {
    if i < |ops| {
      PrecsFromIndex(table, ops, ps, i + 1);
    }
  }

  /** Every operator of a chain is a binary operator of the table. */
  predicate AllOperators(ps: seq<int>)
  {
    forall k :: 0 <= k < |ps| ==> ps[k] > 0
  }

  /** `toks[p ..]` holds the chain nums[0] ops[0] nums[1] ... ops[n-1] nums[n]:
      numeral i at p + 2i, operator k at p + 2k + 1. */
  predicate ChainAt(toks: seq<Token>, p: nat, nums: seq<string>, ops: seq<char>)
  {
    && |nums| == |ops| + 1
    && p + 2 * |ops| + 1 <= |toks|
    && ChainFrom(toks, p, nums, ops, 0)
  }

  /** The chain holds from numeral i on. */
  predicate ChainFrom(toks: seq<Token>, p: nat, nums: seq<string>, ops: seq<char>, i: nat)
    requires |nums| == |ops| + 1 && p + 2 * |ops| + 1 <= |toks|
    decreases |ops| - i
  {
    i <= |ops| ==>
      && toks[p + 2 * i] == TokNumber(nums[i])
      && (i < |ops| ==> toks[p + 2 * i + 1] == TokChar(ops[i]) && ChainFrom(toks, p, nums, ops, i + 1))
  }

  /** The last of the loosest-binding operators among those at i..j-1,
      whose precedences are ps. */
  function Lowest(ps: seq<int>, i: nat, j: nat): (k: nat)
    requires i < j <= |ps|
    ensures i <= k < j
    decreases j - i
  {
    if i + 1 == j then i
    else
      var k := Lowest(ps, i, j - 1);
      if ps[j - 1] <= ps[k] then j - 1 else k
  }

  /** The reference grouping of the operands i..j of a chain whose operators
      ops have the precedences ps, with the operand i replaced by lhs. */
  function GroupFrom(ps: seq<int>, nums: seq<string>, ops: seq<char>, lhs: Expr, i: nat, j: nat): Expr
    requires |nums| == |ops| + 1 && |ps| == |ops| && i <= j <= |ops|
    decreases j - i
  {
    if i == j then lhs
    else
      var k := Lowest(ps, i, j);
      Binary(ops[k], GroupFrom(ps, nums, ops, lhs, i, k),
                     GroupFrom(ps, nums, ops, Number(nums[k + 1]), k + 1, j))
  }

  /** The reference grouping of a whole chain. */
  function Grouped(table: map<char, int>, nums: seq<string>, ops: seq<char>): Expr
    requires |nums| == |ops| + 1
  {
    GroupFrom(Precs(table, ops), nums, ops, Number(nums[0]), 0, |ops|)
  }

  /** The first operator at or after i that binds looser than level, or the
      end of the chain. */
  function Reach(ps: seq<int>, i: nat, level: int): (j: nat)
    requires i <= |ps|
    ensures i <= j <= |ps|
    decreases |ps| - i
  {
    if i == |ps| || ps[i] < level then i else Reach(ps, i + 1, level)
  }

  /** Lowest picks an operator that binds no tighter than any other in
      i..j-1, and every operator after it binds strictly tighter. */
  lemma {:induction false} LowestIsLastLoosest(ps: seq<int>, i: nat, j: nat)
    requires i < j <= |ps|
    ensures var k := Lowest(ps, i, j);
            && (forall l :: i <= l < j ==> ps[k] <= ps[l])
            && (forall l :: k < l < j ==> ps[k] < ps[l])
    decreases j - i
  {
    if i + 1 < j {
      LowestIsLastLoosest(ps, i, j - 1);
    }
  }

  /** Lowest is the only index with that property. */
  lemma LowestUnique(ps: seq<int>, i: nat, j: nat, k: nat)
    requires i <= k < j <= |ps|
    requires forall l :: i <= l < j ==> ps[k] <= ps[l]
    requires forall l :: k < l < j ==> ps[k] < ps[l]
    ensures Lowest(ps, i, j) == k
  {
    LowestIsLastLoosest(ps, i, j);
  }

  /** Reach stops at the first operator looser than level, and every
      operator it passes binds at least as tight as level. */
  lemma {:induction false} ReachIsFirstLooser(ps: seq<int>, i: nat, level: int)
    requires i <= |ps|
    ensures var j := Reach(ps, i, level);
            && (forall l :: i <= l < j ==> ps[l] >= level)
            && (j < |ps| ==> ps[j] < level)
    decreases |ps| - i
  {
    if i < |ps| && ps[i] >= level {
      ReachIsFirstLooser(ps, i + 1, level);
    }
  }

  /** Reach is the only index with that property. */
  lemma ReachUnique(ps: seq<int>, i: nat, level: int, j: nat)
    requires i <= j <= |ps|
    requires forall l :: i <= l < j ==> ps[l] >= level
    requires j < |ps| ==> ps[j] < level
    ensures Reach(ps, i, level) == j
  {
    ReachIsFirstLooser(ps, i, level);
  }

  /** A chain of two or more operands splits at its loosest operator. */
  lemma GroupSplit(ps: seq<int>, nums: seq<string>, ops: seq<char>, lhs: Expr, i: nat, j: nat, k: nat)
    requires |nums| == |ops| + 1 && |ps| == |ops| && i < j <= |ops| && k == Lowest(ps, i, j)
    ensures GroupFrom(ps, nums, ops, lhs, i, j)
         == Binary(ops[k], GroupFrom(ps, nums, ops, lhs, i, k),
                           GroupFrom(ps, nums, ops, Number(nums[k + 1]), k + 1, j))
  {
  }

  /** Folding ops[i] onto lhs with the operand the climb after it returns
      (operands i+1..m, all of whose operators bind tighter than ops[i]),
      then grouping on from m, gives the reference grouping from i. */
  lemma {:induction false} Regroup(ps: seq<int>, nums: seq<string>, ops: seq<char>, lhs: Expr, i: nat, m: nat, j: nat)
    requires |nums| == |ops| + 1 && |ps| == |ops| && i < m <= j <= |ops|
    requires forall l :: i < l < m ==> ps[i] < ps[l]
    requires m < j ==> ps[m] <= ps[i]
    ensures GroupFrom(ps, nums, ops, Binary(ops[i], lhs, GroupFrom(ps, nums, ops, Number(nums[i + 1]), i + 1, m)), m, j)
         == GroupFrom(ps, nums, ops, lhs, i, j)
    decreases j
  {
    var x := Binary(ops[i], lhs, GroupFrom(ps, nums, ops, Number(nums[i + 1]), i + 1, m));
    if m == j {
      LowestUnique(ps, i, j, i);
      GroupSplit(ps, nums, ops, lhs, i, j, i);
    } else {
      var k := Lowest(ps, i, j);
      LowestIsLastLoosest(ps, i, j);
      assert m <= k;
      LowestUnique(ps, m, j, k);
      Regroup(ps, nums, ops, lhs, i, m, k);
      GroupSplit(ps, nums, ops, lhs, i, j, k);
      GroupSplit(ps, nums, ops, x, m, j, k);
    }
  }

  lemma {:induction false} PrecAt(table: map<char, int>, ops: seq<char>, ps: seq<int>, i: nat)
    requires PrecsOf(table, ops, ps) && i < |ops|
    ensures ps[i] == Precedence(table, TokChar(ops[i]))
  {
    PrecsFromLater(table, ops, ps, 0, i);
  }

  lemma {:induction false} PrecsFromLater(table: map<char, int>, ops: seq<char>, ps: seq<int>, i: nat, k: nat)
    requires |ps| == |ops| && PrecsFrom(table, ops, ps, i) && i <= k
    ensures PrecsFrom(table, ops, ps, k)
    decreases k - i
  {
    if i < k && i < |ops| {
      PrecsFromLater(table, ops, ps, i + 1, k);
    }
  }

  lemma {:induction false} ChainFromLater(toks: seq<Token>, p: nat, nums: seq<string>, ops: seq<char>, i: nat, k: nat)
    requires |nums| == |ops| + 1 && p + 2 * |ops| + 1 <= |toks|
    requires ChainFrom(toks, p, nums, ops, i) && i <= k
    ensures ChainFrom(toks, p, nums, ops, k)
    decreases k - i
  {
    if i < k && i < |ops| {
      ChainFromLater(toks, p, nums, ops, i + 1, k);
    }
  }

  lemma ChainNumeral(toks: seq<Token>, p: nat, nums: seq<string>, ops: seq<char>, i: nat)
    requires ChainAt(toks, p, nums, ops) && i <= |ops|
    ensures Cur(toks, p + 2 * i) == TokNumber(nums[i])
  {
    ChainFromLater(toks, p, nums, ops, 0, i);
  }

  lemma ChainOperator(toks: seq<Token>, p: nat, nums: seq<string>, ops: seq<char>, i: nat)
    requires ChainAt(toks, p, nums, ops) && i < |ops|
    ensures Cur(toks, p + 2 * i + 1) == TokChar(ops[i])
  {
    ChainFromLater(toks, p, nums, ops, 0, i);
  }

  /** One iteration of the operator loop over the operator o at q. */
  lemma OperatorStep(toks: seq<Token>, table: map<char, int>, level: nat, lhs: Expr, q: nat,
                     o: char, prec: nat, operand: nat, rhs: Expr, q': nat)
    requires Cur(toks, q) == TokChar(o) && Precedence(table, TokChar(o)) == prec && prec >= level
    requires operand == q + 1 && ParseRightOperand(toks, table, prec, operand) == Ok(rhs, q')
    ensures ParseBinOpRhs(toks, table, level, lhs, q) == ParseBinOpRhs(toks, table, level, Binary(o, lhs, rhs), q')
  {
  }

  /** A numeral followed by an operator that does not bind tighter is the
      whole right operand. */
  lemma OperandStops(toks: seq<Token>, table: map<char, int>, tokPrec: nat, q: nat, x: string)
    requires Cur(toks, q) == TokNumber(x) && Precedence(table, Cur(toks, q + 1)) <= tokPrec
    ensures ParseRightOperand(toks, table, tokPrec, q) == Ok(Number(x), q + 1)
  {
    assert ParsePrimary(toks, table, q) == Ok(Number(x), q + 1);
  }

  /** A numeral followed by an operator that binds tighter starts a climb
      one level up. */
  lemma OperandClimbs(toks: seq<Token>, table: map<char, int>, tokPrec: nat, q: nat, x: string)
    requires Cur(toks, q) == TokNumber(x) && tokPrec < Precedence(table, Cur(toks, q + 1))
    ensures ParseRightOperand(toks, table, tokPrec, q) == ParseBinOpRhs(toks, table, tokPrec + 1, Number(x), q + 1)
  {
    assert ParsePrimary(toks, table, q) == Ok(Number(x), q + 1);
  }

  /** A right operand whose numeral is not followed by a tighter operator
      is that numeral alone. */
  lemma OperandAlone(toks: seq<Token>, table: map<char, int>, p: nat, nums: seq<string>, ops: seq<char>,
                     ps: seq<int>, tokPrec: nat, i: nat)
    requires ChainAt(toks, p, nums, ops) && PrecsOf(table, ops, ps)
    requires Precedence(table, Cur(toks, p + 2 * |ops| + 1)) < 0
    requires i <= |ops| && (i == |ops| || ps[i] <= tokPrec)
    ensures ParseRightOperand(toks, table, tokPrec, p + 2 * i) == Ok(Number(nums[i]), p + 2 * i + 1)
  {
    ChainNumeral(toks, p, nums, ops, i);
    assert Precedence(table, Cur(toks, p + 2 * i + 1)) <= tokPrec by {
      if i < |ops| {
        ChainOperator(toks, p, nums, ops, i);
        PrecAt(table, ops, ps, i);
      }
    }
    OperandStops(toks, table, tokPrec, p + 2 * i, nums[i]);
  }

  /** The operator loop at an operator looser than its level, or at the end
      of the chain, returns lhs where it stands. */
  lemma LoopStopsAt(toks: seq<Token>, table: map<char, int>, p: nat, nums: seq<string>, ops: seq<char>,
                    ps: seq<int>, level: nat, lhs: Expr, i: nat)
    requires ChainAt(toks, p, nums, ops) && PrecsOf(table, ops, ps)
    requires Precedence(table, Cur(toks, p + 2 * |ops| + 1)) < 0
    requires i <= |ops| && (i == |ops| || ps[i] < level)
    ensures ParseBinOpRhs(toks, table, level, lhs, p + 2 * i + 1) == Ok(lhs, p + 2 * i + 1)
  {
    assert Precedence(table, Cur(toks, p + 2 * i + 1)) < level by {
      if i < |ops| {
        ChainOperator(toks, p, nums, ops, i);
        PrecAt(table, ops, ps, i);
      }
    }
    Parser.BinOpRhsStops(toks, table, level, lhs, p + 2 * i + 1);
  }

  /** After operator i folds the operand its climb returned, the loop goes
      on from where the climb stopped, and the grouping is the one from i. */
  lemma ClimbResumes(ps: seq<int>, nums: seq<string>, ops: seq<char>, lhs: Expr, i: nat, level: int)
    requires |nums| == |ops| + 1 && |ps| == |ops| && i < |ops| && ps[i] >= level
    ensures var m := Reach(ps, i + 1, ps[i] + 1);
            var j := Reach(ps, i, level);
            && Reach(ps, m, level) == j
            && GroupFrom(ps, nums, ops, Binary(ops[i], lhs, GroupFrom(ps, nums, ops, Number(nums[i + 1]), i + 1, m)), m, j)
               == GroupFrom(ps, nums, ops, lhs, i, j)
  {
    var m := Reach(ps, i + 1, ps[i] + 1);
    var j := Reach(ps, i, level);
    ReachIsFirstLooser(ps, i + 1, ps[i] + 1);
    ReachIsFirstLooser(ps, i, level);
    assert m <= j;
    ReachUnique(ps, m, level, j);
    Regroup(ps, nums, ops, lhs, i, m, j);
  }

  /** The operator loop of ast.h:180-208 read over the precedences of a
      chain alone: the tree it builds from operator i at level `level`
      onto lhs, and the operator it stops at. */
  function ClimbLoop(ps: seq<int>, nums: seq<string>, ops: seq<char>, level: nat, lhs: Expr, i: nat): (r: (Expr, nat))
    requires |nums| == |ops| + 1 && |ps| == |ops| && i <= |ops|
    ensures i <= r.1 <= |ops|
    decreases |ops| - i, 0
  {
    if i == |ops| || ps[i] < level then (lhs, i)
    else
      var (rhs, m) := ClimbOperand(ps, nums, ops, ps[i], i + 1);
      ClimbLoop(ps, nums, ops, level, Binary(ops[i], lhs, rhs), m)
  }

  /** The right operand of ast.h:189-204 read the same way: numeral i, or
      the climb one level above prec that starts from it. */
  function ClimbOperand(ps: seq<int>, nums: seq<string>, ops: seq<char>, prec: nat, i: nat): (r: (Expr, nat))
    requires |nums| == |ops| + 1 && |ps| == |ops| && i <= |ops|
    ensures i <= r.1 <= |ops|
    decreases |ops| - i, 1
  {
    if i < |ops| && prec < ps[i] then ClimbLoop(ps, nums, ops, prec + 1, Number(nums[i]), i)
    else (Number(nums[i]), i)
  }

  /** On a chain, parse_bin_op_rhs from operator i follows ClimbLoop. */
  lemma {:induction false} LoopFollowsClimb(toks: seq<Token>, table: map<char, int>, p: nat, nums: seq<string>, ops: seq<char>,
                                            ps: seq<int>, level: nat, lhs: Expr, i: nat)
    requires ChainAt(toks, p, nums, ops) && PrecsOf(table, ops, ps)
    requires Precedence(table, Cur(toks, p + 2 * |ops| + 1)) < 0
    requires i <= |ops|
    ensures var r := ClimbLoop(ps, nums, ops, level, lhs, i);
            ParseBinOpRhs(toks, table, level, lhs, p + 2 * i + 1) == Ok(r.0, p + 2 * r.1 + 1)
    decreases |ops| - i, 0
  {
    if i == |ops| || ps[i] < level {
      LoopStopsAt(toks, table, p, nums, ops, ps, level, lhs, i);
    } else {
      var (rhs, m) := ClimbOperand(ps, nums, ops, ps[i], i + 1);
      OperandFollowsClimb(toks, table, p, nums, ops, ps, ps[i], i + 1);
      ChainOperator(toks, p, nums, ops, i);
      PrecAt(table, ops, ps, i);
      OperatorStep(toks, table, level, lhs, p + 2 * i + 1, ops[i], ps[i], p + 2 * (i + 1), rhs, p + 2 * m + 1);
      LoopFollowsClimb(toks, table, p, nums, ops, ps, level, Binary(ops[i], lhs, rhs), m);
    }
  }

  /** On a chain, the right operand parsed at numeral i follows ClimbOperand. */
  lemma {:induction false} OperandFollowsClimb(toks: seq<Token>, table: map<char, int>, p: nat, nums: seq<string>, ops: seq<char>,
                                               ps: seq<int>, tokPrec: nat, i: nat)
    requires ChainAt(toks, p, nums, ops) && PrecsOf(table, ops, ps)
    requires Precedence(table, Cur(toks, p + 2 * |ops| + 1)) < 0
    requires i <= |ops|
    ensures var r := ClimbOperand(ps, nums, ops, tokPrec, i);
            ParseRightOperand(toks, table, tokPrec, p + 2 * i) == Ok(r.0, p + 2 * r.1 + 1)
    decreases |ops| - i, 1
  {
    if i < |ops| && tokPrec < ps[i] {
      ChainNumeral(toks, p, nums, ops, i);
      ChainOperator(toks, p, nums, ops, i);
      PrecAt(table, ops, ps, i);
      OperandClimbs(toks, table, tokPrec, p + 2 * i, nums[i]);
      LoopFollowsClimb(toks, table, p, nums, ops, ps, tokPrec + 1, Number(nums[i]), i);
    } else {
      OperandAlone(toks, table, p, nums, ops, ps, tokPrec, i);
    }
  }

  /** The loop over the precedences builds the reference grouping of the
      operands it passes, and stops at the first operator looser than its
      level. */
  lemma {:induction false} ClimbLoopGroups(ps: seq<int>, nums: seq<string>, ops: seq<char>, level: nat, lhs: Expr, i: nat)
    requires |nums| == |ops| + 1 && |ps| == |ops| && i <= |ops|
    ensures var j := Reach(ps, i, level);
            ClimbLoop(ps, nums, ops, level, lhs, i) == (GroupFrom(ps, nums, ops, lhs, i, j), j)
    decreases |ops| - i, 0
  {
    if i < |ops| && ps[i] >= level {
      var (rhs, m) := ClimbOperand(ps, nums, ops, ps[i], i + 1);
      ClimbOperandGroups(ps, nums, ops, ps[i], i + 1);
      ClimbResumes(ps, nums, ops, lhs, i, level);
      ClimbLoopGroups(ps, nums, ops, level, Binary(ops[i], lhs, rhs), m);
    }
  }

  /** The right operand over the precedences is the reference grouping up
      to the first operator that does not bind tighter than prec. */
  lemma {:induction false} ClimbOperandGroups(ps: seq<int>, nums: seq<string>, ops: seq<char>, prec: nat, i: nat)
    requires |nums| == |ops| + 1 && |ps| == |ops| && i <= |ops|
    ensures var j := Reach(ps, i, prec + 1);
            ClimbOperand(ps, nums, ops, prec, i) == (GroupFrom(ps, nums, ops, Number(nums[i]), i, j), j)
    decreases |ops| - i, 1
  {
    if i < |ops| && prec < ps[i] {
      ClimbLoopGroups(ps, nums, ops, prec + 1, Number(nums[i]), i);
    }
  }

  /** parse_expr reads a chain of numerals and table operators that is
      followed by a token that is not an operator as its reference
      grouping, and consumes the whole chain. */
  lemma ChainGroupsByPrecedence(toks: seq<Token>, table: map<char, int>, p: nat, nums: seq<string>, ops: seq<char>)
    requires ChainAt(toks, p, nums, ops) && AllOperators(Precs(table, ops))
    requires Precedence(table, Cur(toks, p + 2 * |ops| + 1)) < 0
    ensures ParseExpr(toks, table, p) == Ok(Grouped(table, nums, ops), p + 2 * |ops| + 1)
  {
    var ps := Precs(table, ops);
    ChainNumeral(toks, p, nums, ops, 0);
    assert ParsePrimary(toks, table, p) == Ok(Number(nums[0]), p + 1);
    LoopFollowsClimb(toks, table, p, nums, ops, ps, 0, Number(nums[0]), 0);
    ClimbLoopGroups(ps, nums, ops, 0, Number(nums[0]), 0);
    ReachUnique(ps, 0, 0, |ops|);
  }

  /** With the table main.cpp:7-10 fills in, `1 + 2 * 3 - 4` followed by
      `;` parses as `(1 + (2 * 3)) - 4`. */
  lemma SeedTableChain(toks: seq<Token>)
    requires toks == [TokNumber("1"), TokChar('+'), TokNumber("2"), TokChar('*'),
                      TokNumber("3"), TokChar('-'), TokNumber("4"), TokChar(';')]
    ensures ParseExpr(toks, SeedTable, 0)
         == Ok(Binary('-', Binary('+', Number("1"), Binary('*', Number("2"), Number("3"))), Number("4")), 7)
  {
    var nums := ["1", "2", "3", "4"];
    var ops := ['+', '*', '-'];
    assert ChainAt(toks, 0, nums, ops) by {
      assert ChainFrom(toks, 0, nums, ops, 3);
      assert ChainFrom(toks, 0, nums, ops, 2);
      assert ChainFrom(toks, 0, nums, ops, 1);
    }
    assert Precs(SeedTable, ops) == [20, 40, 20];
    ChainGroupsByPrecedence(toks, SeedTable, 0, nums, ops);
  }
}
