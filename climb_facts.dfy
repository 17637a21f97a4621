/**
 * Precedence climbing in `parseExpr` and `parseBinOp` over a chain
 * `n0 o1 n1 ... ok nk` of numbers and operators of any length: the tree it
 * builds lists the operands and the operators in source order, and groups
 * them by precedence, equal precedences to the left.
 */
module ClimbFacts {
  import opened Wrappers
  import opened Lexer
  import opened Ast
  import opened Parsing
  import opened ParsingFacts

  /** The operator fields of the binary nodes of `e`, left to right. */
  function OpsOf(e: Expr): seq<int>
  {
    match e
    case Binary(l, r, p) => OpsOf(l) + [p] + OpsOf(r)
    case _ => []
  }

  /** The operands of `e` that are not binary nodes, left to right. */
  function LeavesOf(e: Expr): seq<Expr>
  {
    match e
    case Binary(l, r, _) => LeavesOf(l) + LeavesOf(r)
    case _ => [e]
  }

  /** Every binary node of `e` binds at least `p`. */
  predicate AtLeast(e: Expr, p: int)
  {
    match e
    case Binary(l, r, q) => p <= q && AtLeast(l, p) && AtLeast(r, p)
    case _ => true
  }

  /**
   * Every binary node binds no tighter than any operator in its left operand
   * and strictly less tight than any operator in its right operand: of two
   * adjacent operators, the second groups under the first exactly when it
   * binds strictly tighter.
   */
  predicate Grouped(e: Expr)
  {
    match e
    case Binary(l, r, p) => Grouped(l) && Grouped(r) && AtLeast(l, p) && AtLeast(r, p + 1)
    case _ => true
  }

  /** Every operator of a tree whose operators are all at least `p` is at least `p`. */
  lemma {:induction false} AtLeastBounds(e: Expr, p: int)
    requires AtLeast(e, p)
    ensures forall x :: 0 <= x < |OpsOf(e)| ==> OpsOf(e)[x] >= p
  {
    match e
    case Binary(l, r, q) =>
      AtLeastBounds(l, p);
      AtLeastBounds(r, p);
      var ops, n := OpsOf(e), |OpsOf(l)|;
      assert ops == OpsOf(l) + [q] + OpsOf(r);
      forall x | 0 <= x < |ops|
        ensures ops[x] >= p
      {
        if x < n {
          assert ops[x] == OpsOf(l)[x];
        } else if x > n {
          assert ops[x] == OpsOf(r)[x - n - 1];
        }
      }
    case _ =>
  }

  /** A tree whose stored operators are all at least `p` binds at least `p` at every node. */
  lemma {:induction false} BoundsAtLeast(e: Expr, p: int)
    requires forall x :: 0 <= x < |OpsOf(e)| ==> OpsOf(e)[x] >= p
    ensures AtLeast(e, p)
  {
    match e
    case Binary(l, r, q) =>
      var ops, n := OpsOf(e), |OpsOf(l)|;
      assert ops == OpsOf(l) + [q] + OpsOf(r);
      assert ops[n] == q;
      forall x | 0 <= x < n
        ensures OpsOf(l)[x] >= p
      {
        assert ops[x] == OpsOf(l)[x];
      }
      forall x | 0 <= x < |OpsOf(r)|
        ensures OpsOf(r)[x] >= p
      {
        assert ops[n + 1 + x] == OpsOf(r)[x];
      }
      BoundsAtLeast(l, p);
      BoundsAtLeast(r, p);
    case _ =>
  }

  /** A tree whose operators all bind at least `p` has them all bind at least any `q <= p`. */
  lemma {:induction false} AtLeastWeakens(e: Expr, p: int, q: int)
    requires AtLeast(e, p) && q <= p
    ensures AtLeast(e, q)
  {
    match e
    case Binary(l, r, _) =>
      AtLeastWeakens(l, p, q);
      AtLeastWeakens(r, p, q);
    case _ =>
  }

  /** `currtok` is a numeral `stod` converts, and `n` is its node. */
  ghost predicate Operand(st: PState, n: Expr)
  {
    st.cur.kind == NumberLiteral && st.cur.lexeme != [] && Fits(st.cur.lexeme)
    && n == Number(DecimalValue(st.cur.lexeme))
  }

  /**
   * The states `nextTok` goes through along `n0 o1 n1 ... ok nk`: `currtok`
   * is on the operand `ns[i]` in `at[i]`, and on the token after it in
   * `after[i]`, which is the operator of precedence `ps[i]`, or, after the
   * last operand, a token with no precedence.
   */
  ghost predicate Chain(src: Source, at: seq<PState>, after: seq<PState>, ns: seq<Expr>, ps: seq<int>)
  {
    && |at| == |after| == |ns| == |ps| + 1
    && (forall i {:trigger Advance(src, at[i])} :: 0 <= i < |at| ==> Advance(src, at[i]) == after[i])
    && (forall i {:trigger Advance(src, after[i])} :: 0 <= i < |ps| ==> Advance(src, after[i]) == at[i + 1])
    && (forall i {:trigger Operand(at[i], ns[i])} :: 0 <= i < |ns| ==> Operand(at[i], ns[i]))
    && (forall i :: 0 <= i < |ps| ==> ps[i] >= 0)
    && (forall i {:trigger CurPrecedence(after[i])} :: 0 <= i < |ps| ==> CurPrecedence(after[i]) == ps[i])
    && CurPrecedence(after[|ps|]) < 0
  }

  /**
   * Precedence climbing as `parseBinOp` does it, read over the operands `ns`
   * and the operator precedences `ps` of a chain instead of its text: from
   * the operator `ps[i]` on, with `lhs` built, the tree and the index of the
   * operator it stops on.
   */
  function Climb(ns: seq<Expr>, ps: seq<int>, i: nat, m: int, lhs: Expr): (r: (Expr, nat))
    requires |ns| == |ps| + 1 && i <= |ps|
    ensures i <= r.1 <= |ps|
    decreases |ps| - i, 1
  {
    if i == |ps| || ps[i] < m then (lhs, i)
    else
      var (rhs, k) := ClimbRhs(ns, ps, i);
      Climb(ns, ps, k, m, Binary(lhs, rhs, ps[i]))
  }

  /** The right operand of the operator `ps[i]` and the index of the operator after it. */
  function ClimbRhs(ns: seq<Expr>, ps: seq<int>, i: nat): (r: (Expr, nat))
    requires |ns| == |ps| + 1 && i < |ps|
    ensures i < r.1 <= |ps|
    decreases |ps| - i, 0
  {
    if i + 1 < |ps| && ps[i] < ps[i + 1] then Climb(ns, ps, i + 1, ps[i] + 1, ns[i + 1])
    else (ns[i + 1], i + 1)
  }

  /** The operands of a chain are leaves. */
  ghost predicate Leaves(ns: seq<Expr>)
  {
    forall k :: 0 <= k < |ns| ==> ns[k].Number?
  }

  /**
   * The right operand of `ps[i]` takes in every operator after it that binds
   * strictly tighter than `ps[i]`, and stops on the first that does not.
   */
  lemma {:induction false} RhsStops(ns: seq<Expr>, ps: seq<int>, i: nat)
    requires |ns| == |ps| + 1 && i < |ps|
    ensures var k := ClimbRhs(ns, ps, i).1;
      && (forall x :: i + 1 <= x < k ==> ps[x] > ps[i])
      && (k < |ps| ==> ps[k] <= ps[i])
    decreases |ps| - i, 0
  {
    if i + 1 < |ps| && ps[i] < ps[i + 1] {
      ClimbStops(ns, ps, i + 1, ps[i] + 1, ns[i + 1]);
    }
  }

  /**
   * Precedence climbing at minimum precedence `m` from the operator `ps[i]`
   * takes in every operator that binds at least `m`, and stops on the first
   * that does not.
   */
  lemma {:induction false} ClimbStops(ns: seq<Expr>, ps: seq<int>, i: nat, m: int, lhs: Expr)
    requires |ns| == |ps| + 1 && i <= |ps|
    ensures var j := Climb(ns, ps, i, m, lhs).1;
      && (forall x :: i <= x < j ==> ps[x] >= m)
      && (j < |ps| ==> ps[j] < m)
    decreases |ps| - i, 1
  {
    if i < |ps| && ps[i] >= m {
      var rhs, k := ClimbRhs(ns, ps, i).0, ClimbRhs(ns, ps, i).1;
      RhsStops(ns, ps, i);
      ClimbStops(ns, ps, k, m, Binary(lhs, rhs, ps[i]));
    }
  }

  /** Two adjacent slices of `s` after `a` make one. */
  lemma Join<T>(a: seq<T>, s: seq<T>, x: nat, y: nat, z: nat)
    requires x <= y <= z <= |s|
    ensures a + s[x..y] + s[y..z] == a + s[x..z]
  {
    assert s[x..z] == s[x..y] + s[y..z];
  }

  /** An element of `s` followed by two adjacent slices after it, after `a`, make one slice. */
  lemma Splice<T>(a: seq<T>, s: seq<T>, i: nat, k: nat, j: nat)
    requires i < k <= j <= |s|
    ensures a + [s[i]] + s[i + 1..k] + s[k..j] == a + s[i..j]
  {
    assert s[i..j] == [s[i]] + s[i + 1..k] + s[k..j];
  }

  /**
   * The right operand of `ps[i]` holds the operand after it and every
   * operator after that which binds strictly tighter than `ps[i]`, with
   * their operands, and is grouped by precedence.
   */
  lemma {:induction false} RhsShape(ns: seq<Expr>, ps: seq<int>, i: nat)
    requires |ns| == |ps| + 1 && i < |ps| && Leaves(ns)
    ensures var t, k := ClimbRhs(ns, ps, i).0, ClimbRhs(ns, ps, i).1;
      Grouped(t) && OpsOf(t) == ps[i + 1..k] && LeavesOf(t) == ns[i + 1..k + 1]
    decreases |ps| - i, 0
  {
    assert ns[i + 1].Number?;
    if i + 1 < |ps| && ps[i] < ps[i + 1] {
      ClimbShape(ns, ps, i + 1, ps[i] + 1, ns[i + 1]);
      var k := Climb(ns, ps, i + 1, ps[i] + 1, ns[i + 1]).1;
      assert [] + ps[i + 1..k] == ps[i + 1..k];
      assert [ns[i + 1]] + ns[i + 2..k + 1] == ns[i + 1..k + 1];
    } else {
      assert ns[i + 1..i + 2] == [ns[i + 1]];
    }
  }

  /**
   * From the operator `ps[i]` on, with `lhs` built, precedence climbing at
   * minimum precedence `m` reads every operator up to the first that binds
   * less than `m`, and the tree lists `lhs` and the operands and operators
   * read, in order, grouped by precedence.
   */
  lemma {:induction false} ClimbShape(ns: seq<Expr>, ps: seq<int>, i: nat, m: int, lhs: Expr)
    requires |ns| == |ps| + 1 && i <= |ps| && Leaves(ns)
    requires Grouped(lhs)
    requires i < |ps| ==> AtLeast(lhs, ps[i])
    ensures var t, j := Climb(ns, ps, i, m, lhs).0, Climb(ns, ps, i, m, lhs).1;
      Grouped(t) && OpsOf(t) == OpsOf(lhs) + ps[i..j] && LeavesOf(t) == LeavesOf(lhs) + ns[i + 1..j + 1]
    decreases |ps| - i, 2
  {
    if i == |ps| || ps[i] < m {
      assert ps[i..i] == [] && ns[i + 1..i + 1] == [];
      assert OpsOf(lhs) + [] == OpsOf(lhs);
      assert LeavesOf(lhs) + [] == LeavesOf(lhs);
    } else {
      FoldStepShape(ns, ps, i, m, lhs);
    }
  }

  /** The step of `ClimbShape` that folds the operator `ps[i]` with its right operand and climbs on. */
  lemma {:induction false} FoldStepShape(ns: seq<Expr>, ps: seq<int>, i: nat, m: int, lhs: Expr)
    requires |ns| == |ps| + 1 && i < |ps| && ps[i] >= m && Leaves(ns)
    requires Grouped(lhs) && AtLeast(lhs, ps[i])
    ensures var t, j := Climb(ns, ps, i, m, lhs).0, Climb(ns, ps, i, m, lhs).1;
      Grouped(t) && OpsOf(t) == OpsOf(lhs) + ps[i..j] && LeavesOf(t) == LeavesOf(lhs) + ns[i + 1..j + 1]
    decreases |ps| - i, 1
  {
    var rhs, k := ClimbRhs(ns, ps, i).0, ClimbRhs(ns, ps, i).1;
    RhsShape(ns, ps, i);
    RhsStops(ns, ps, i);
    FoldGrouped(ps, i, k, lhs, rhs);
    var folded := Binary(lhs, rhs, ps[i]);
    assert Climb(ns, ps, i, m, lhs) == Climb(ns, ps, k, m, folded);
    ClimbShape(ns, ps, k, m, folded);
    FoldShape(ns, ps, i, k, lhs, rhs, Climb(ns, ps, k, m, folded).0, Climb(ns, ps, k, m, folded).1);
  }

  /**
   * The fold step of `ClimbShape`: when the right operand `rhs` of `ps[i]`
   * stops on `ps[k]`, and climbing on from `ps[k]` with the folded tree gives
   * `t` stopping on `ps[j]`, then `t` lists `lhs` and `ps[i..j]` with their
   * operands.
   */
  lemma FoldShape(ns: seq<Expr>, ps: seq<int>, i: nat, k: nat, lhs: Expr, rhs: Expr, t: Expr, j: nat)
    requires |ns| == |ps| + 1 && i < k <= j <= |ps|
    requires OpsOf(rhs) == ps[i + 1..k] && LeavesOf(rhs) == ns[i + 1..k + 1]
    requires OpsOf(t) == OpsOf(Binary(lhs, rhs, ps[i])) + ps[k..j]
    requires LeavesOf(t) == LeavesOf(Binary(lhs, rhs, ps[i])) + ns[k + 1..j + 1]
    ensures OpsOf(t) == OpsOf(lhs) + ps[i..j]
    ensures LeavesOf(t) == LeavesOf(lhs) + ns[i + 1..j + 1]
  {
    Splice(OpsOf(lhs), ps, i, k, j);
    Join(LeavesOf(lhs), ns, i + 1, k + 1, j + 1);
  }

  /**
   * Folding `lhs` with the right operand `rhs` of `ps[i]`, which holds
   * `ps[i + 1..k]`, keeps the tree grouped, and every operator in it binds
   * at least as tight as the operator `ps[k]` the right operand stopped on.
   */
  lemma FoldGrouped(ps: seq<int>, i: nat, k: nat, lhs: Expr, rhs: Expr)
    requires i < k <= |ps|
    requires Grouped(lhs) && Grouped(rhs) && AtLeast(lhs, ps[i])
    requires OpsOf(rhs) == ps[i + 1..k]
    requires forall x :: i + 1 <= x < k ==> ps[x] > ps[i]
    requires k < |ps| ==> ps[k] <= ps[i]
    ensures Grouped(Binary(lhs, rhs, ps[i]))
    ensures k < |ps| ==> AtLeast(Binary(lhs, rhs, ps[i]), ps[k])
  {
    BoundsAtLeast(rhs, ps[i] + 1);
    assert forall x :: 0 <= x < |OpsOf(rhs)| ==> OpsOf(rhs)[x] == ps[i + 1 + x];
    if k < |ps| {
      AtLeastWeakens(lhs, ps[i], ps[k]);
      AtLeastWeakens(rhs, ps[i] + 1, ps[k]);
    }
  }

  /** The operand `ns[k]` of a chain is parsed as a primary, up to the operator after it. */
  lemma OperandParses(src: Source, at: seq<PState>, after: seq<PState>, ns: seq<Expr>, ps: seq<int>, k: nat, fuel: nat)
    requires Chain(src, at, after, ns, ps) && k < |ns| && fuel > 0
    ensures ParsedPrimary(src, at[k], fuel) == Returned(Some(ns[k]), after[k])
  {
    assert Operand(at[k], ns[k]);
    assert Advance(src, at[k]) == after[k];
  }

  /** `parseExpr` hands the primary it read to `parseBinOp` at minimum precedence 0. */
  lemma ExprStarts(src: Source, st: PState, fuel: nat, n: Expr, st1: PState)
    requires fuel > 0 && ParsedPrimary(src, st, fuel - 1) == Returned(Some(n), st1)
    ensures ParsedExpr(src, st, fuel) == ParsedBinOp(src, st1, 0, n, fuel - 1)
  {
  }

  /** `parseBinOp` returns `lhs` on a token that binds less than `m`. */
  lemma BinOpStops(src: Source, st: PState, m: nat, lhs: Expr, fuel: nat)
    requires fuel > 0 && CurPrecedence(st) < m
    ensures ParsedBinOp(src, st, m, lhs, fuel) == Returned(Some(lhs), st)
  {
  }

  /** `parseBinOp` on an operator that binds at least `m` folds it and goes round again. */
  lemma BinOpFolds(src: Source, st: PState, m: nat, lhs: Expr, fuel: nat, rhs: Expr, st1: PState)
    requires fuel > 0 && CurPrecedence(st) >= m
    requires ParsedRhs(src, st, CurPrecedence(st), fuel - 1) == Returned(Some(rhs), st1)
    ensures ParsedBinOp(src, st, m, lhs, fuel) == ParsedBinOp(src, st1, m, Binary(lhs, rhs, CurPrecedence(st)), fuel - 1)
  {
  }

  /** The operand after an operator of precedence `p`, when the operator after it binds no tighter. */
  lemma RhsAlone(src: Source, st: PState, p: nat, fuel: nat, n: Expr, st1: PState)
    requires ParsedPrimary(src, Advance(src, st), fuel) == Returned(Some(n), st1)
    requires CurPrecedence(st1) <= p
    ensures ParsedRhs(src, st, p, fuel) == Returned(Some(n), st1)
  {
  }

  /** The operand after an operator of precedence `p`, extended when the operator after it binds tighter. */
  lemma RhsClimbs(src: Source, st: PState, p: nat, fuel: nat, n: Expr, st1: PState)
    requires ParsedPrimary(src, Advance(src, st), fuel) == Returned(Some(n), st1)
    requires CurPrecedence(st1) > p
    ensures ParsedRhs(src, st, p, fuel) == ParsedBinOp(src, st1, p + 1, n, fuel)
  {
  }

  /** One step of the loop of `parseBinOp` on the operator `ps[i]` of a chain reads the right operand `ClimbRhs` gives. */
  lemma {:induction false} RhsFollowsChain(src: Source, at: seq<PState>, after: seq<PState>, ns: seq<Expr>, ps: seq<int>, i: nat, fuel: nat)
    requires Chain(src, at, after, ns, ps)
    requires i < |ps| && fuel >= |ps| - i + 1
    ensures ParsedRhs(src, after[i], ps[i], fuel) == Returned(Some(ClimbRhs(ns, ps, i).0), after[ClimbRhs(ns, ps, i).1])
    decreases fuel, 2
  {
    if i + 1 < |ps| && ps[i] < ps[i + 1] {
      RhsClimbsChain(src, at, after, ns, ps, i, fuel);
    } else {
      var k := i + 1;
      assert Advance(src, after[i]) == at[k];
      OperandParses(src, at, after, ns, ps, k, fuel);
      assert CurPrecedence(after[k]) <= ps[i];
      RhsAlone(src, after[i], ps[i], fuel, ns[k], after[k]);
    }
  }

  /** The step of `RhsFollowsChain` where the operator after the right operand binds strictly tighter. */
  lemma {:induction false} RhsClimbsChain(src: Source, at: seq<PState>, after: seq<PState>, ns: seq<Expr>, ps: seq<int>, i: nat, fuel: nat)
    requires Chain(src, at, after, ns, ps)
    requires i + 1 < |ps| && ps[i] < ps[i + 1] && fuel >= |ps| - i + 1
    ensures ParsedRhs(src, after[i], ps[i], fuel) == Returned(Some(ClimbRhs(ns, ps, i).0), after[ClimbRhs(ns, ps, i).1])
    decreases fuel, 1
  {
    var k := i + 1;
    assert Advance(src, after[i]) == at[k];
    OperandParses(src, at, after, ns, ps, k, fuel);
    assert CurPrecedence(after[k]) == ps[k];
    RhsClimbs(src, after[i], ps[i], fuel, ns[k], after[k]);
    BinOpFollowsChain(src, at, after, ns, ps, k, ps[i] + 1, ns[k], fuel);
  }

  /**
   * The loop of `parseBinOp` at minimum precedence `m`, started on the
   * operator `ps[i]` of a chain with `lhs` built, returns the tree `Climb`
   * builds and stops on the operator `Climb` stops on.
   */
  lemma {:induction false} BinOpFollowsChain(src: Source, at: seq<PState>, after: seq<PState>, ns: seq<Expr>, ps: seq<int>, i: nat, m: nat, lhs: Expr, fuel: nat)
    requires Chain(src, at, after, ns, ps)
    requires i <= |ps| && fuel >= |ps| - i + 2
    ensures ParsedBinOp(src, after[i], m, lhs, fuel) == Returned(Some(Climb(ns, ps, i, m, lhs).0), after[Climb(ns, ps, i, m, lhs).1])
    decreases fuel, 0
  {
    if i == |ps| || ps[i] < m {
      assert CurPrecedence(after[i]) < m;
      BinOpStops(src, after[i], m, lhs, fuel);
    } else {
      assert CurPrecedence(after[i]) == ps[i];
      RhsFollowsChain(src, at, after, ns, ps, i, fuel - 1);
      var rhs, k := ClimbRhs(ns, ps, i).0, ClimbRhs(ns, ps, i).1;
      BinOpFolds(src, after[i], m, lhs, fuel, rhs, after[k]);
      BinOpFollowsChain(src, at, after, ns, ps, k, m, Binary(lhs, rhs, ps[i]), fuel - 1);
    }
  }

  /** The tree precedence climbing builds over a whole chain. */
  function ChainTree(ns: seq<Expr>, ps: seq<int>): Expr
    requires |ns| == |ps| + 1
  {
    Climb(ns, ps, 0, 0, ns[0]).0
  }

  /**
   * `parseExpr` on a chain `n0 o1 n1 ... ok nk` of any length reads all of
   * it and returns `ChainTree`.
   */
  lemma ChainParses(src: Source, at: seq<PState>, after: seq<PState>, ns: seq<Expr>, ps: seq<int>, fuel: nat)
    requires Chain(src, at, after, ns, ps) && fuel >= |ps| + 3
    ensures ParsedExpr(src, at[0], fuel) == Returned(Some(ChainTree(ns, ps)), after[|ps|])
  {
    OperandParses(src, at, after, ns, ps, 0, fuel - 1);
    ExprStarts(src, at[0], fuel, ns[0], after[0]);
    BinOpFollowsChain(src, at, after, ns, ps, 0, 0, ns[0], fuel - 1);
    ClimbReadsAll(ns, ps);
  }

  /** Precedence climbing at minimum precedence 0 over operators of precedence 0 or more reads them all. */
  lemma {:induction false} ClimbReadsAll(ns: seq<Expr>, ps: seq<int>)
    requires |ns| == |ps| + 1 && forall i :: 0 <= i < |ps| ==> ps[i] >= 0
    ensures Climb(ns, ps, 0, 0, ns[0]).1 == |ps|
  {
    ClimbStops(ns, ps, 0, 0, ns[0]);
    var j := Climb(ns, ps, 0, 0, ns[0]).1;
    if j < |ps| {
      assert false;
    }
  }

  /**
   * The tree of a chain `n0 o1 n1 ... ok nk` has the operands `n0 ... nk` and
   * the operators of `o1 ... ok`, in order, grouped by precedence.
   */
  lemma ChainTreeShape(ns: seq<Expr>, ps: seq<int>)
    requires |ns| == |ps| + 1 && Leaves(ns) && forall i :: 0 <= i < |ps| ==> ps[i] >= 0
    ensures var t := ChainTree(ns, ps);
      Grouped(t) && OpsOf(t) == ps && LeavesOf(t) == ns
  {
    var t := Climb(ns, ps, 0, 0, ns[0]).0;
    assert ns[0].Number?;
    ClimbReadsAll(ns, ps);
    ClimbShape(ns, ps, 0, 0, ns[0]);
    assert OpsOf(t) == ps by {
      assert OpsOf(ns[0]) + ps[0..|ps|] == ps;
    }
    assert LeavesOf(t) == ns by {
      assert LeavesOf(ns[0]) + ns[1..|ps| + 1] == ns;
    }
  }

  /** A tree has one operand more than it has operators. */
  lemma {:induction false} LeafCount(e: Expr)
    ensures |LeavesOf(e)| == |OpsOf(e)| + 1
  {
    match e
    case Binary(l, r, _) =>
      LeafCount(l);
      LeafCount(r);
    case _ =>
  }

  /**
   * The root operator of a grouped tree sits after every operator of its left
   * part, all at least as high, and before every one of its right part, all higher.
   */
  lemma RootPlace(e: Expr)
    requires e.Binary? && AtLeast(e.left, e.op) && AtLeast(e.right, e.op + 1)
    ensures var ops, x := OpsOf(e), |OpsOf(e.left)|;
      && x < |ops| && ops[x] == e.op
      && (forall k :: 0 <= k < x ==> ops[k] >= ops[x])
      && (forall k :: x < k < |ops| ==> ops[k] > ops[x])
  {
    var l, r := OpsOf(e.left), OpsOf(e.right);
    var ops, x := OpsOf(e), |l|;
    assert ops == l + [e.op] + r;
    AtLeastBounds(e.left, e.op);
    AtLeastBounds(e.right, e.op + 1);
    forall k | 0 <= k < x
      ensures ops[k] >= ops[x]
    {
      assert ops[k] == l[k];
    }
    forall k | x < k < |ops|
      ensures ops[k] > ops[x]
    {
      assert ops[k] == r[k - x - 1];
    }
  }

  /** An operator before a root place is at least the root's. */
  lemma BeforeRoot(ops: seq<int>, x: nat, y: nat)
    requires x < y < |ops| && forall k :: 0 <= k < y ==> ops[k] >= ops[y]
    ensures ops[x] >= ops[y]
  {
  }

  /** An operator after a root place is above the root's. */
  lemma AfterRoot(ops: seq<int>, x: nat, y: nat)
    requires x < y < |ops| && forall k :: x < k < |ops| ==> ops[k] > ops[x]
    ensures ops[y] > ops[x]
  {
  }

  /** An operator sequence has one place for the root: the only operator not above any operator after it and not below any before it. */
  lemma OnlyRoot(ops: seq<int>, x: nat, y: nat)
    requires x < |ops| && y < |ops|
    requires (forall k :: 0 <= k < x ==> ops[k] >= ops[x]) && (forall k :: x < k < |ops| ==> ops[k] > ops[x])
    requires (forall k :: 0 <= k < y ==> ops[k] >= ops[y]) && (forall k :: y < k < |ops| ==> ops[k] > ops[y])
    ensures x == y
  {
    if x < y {
      BeforeRoot(ops, x, y);
      AfterRoot(ops, x, y);
      assert false;
    } else if y < x {
      BeforeRoot(ops, y, x);
      AfterRoot(ops, y, x);
      assert false;
    }
  }

  /**
   * Grouping by precedence leaves no choice: two grouped trees with the same
   * operands and the same operators, in the same order, are the same tree.
   */
  lemma {:induction false} GroupedUnique(a: Expr, b: Expr)
    requires Grouped(a) && Grouped(b)
    requires OpsOf(a) == OpsOf(b) && LeavesOf(a) == LeavesOf(b)
    ensures a == b
  {
    match a
    case Binary(la, ra, pa) =>
      assert b.Binary?;
      var lb, rb, pb := b.left, b.right, b.op;
      var ops := OpsOf(a);
      var x, y := |OpsOf(la)|, |OpsOf(lb)|;
      assert ops == OpsOf(la) + [pa] + OpsOf(ra);
      assert ops == OpsOf(lb) + [pb] + OpsOf(rb);
      RootPlace(a);
      RootPlace(b);
      OnlyRoot(ops, x, y);
      {
        assert OpsOf(la) == ops[..x] == OpsOf(lb);
        assert OpsOf(ra) == ops[x + 1..] == OpsOf(rb);
        LeafCount(la);
        LeafCount(lb);
        var leaves := LeavesOf(a);
        assert leaves == LeavesOf(la) + LeavesOf(ra) == LeavesOf(lb) + LeavesOf(rb);
        assert LeavesOf(la) == leaves[..x + 1] == LeavesOf(lb);
        assert LeavesOf(ra) == leaves[x + 1..] == LeavesOf(rb);
        GroupedUnique(la, lb);
        GroupedUnique(ra, rb);
      }
    case _ =>
      assert !b.Binary?;
  }

  /** The text `n0 o1 n1 ... ok nk` of the numerals `nums` and the operators `ops`. */
  function Joined(nums: seq<string>, ops: seq<char>): string
    requires |nums| == |ops| + 1
    decreases |ops|
  {
    if ops == [] then nums[0]
    else Joined(nums[..|ops|], ops[..|ops| - 1]) + [ops[|ops| - 1]] + nums[|ops|]
  }

  /** The text `n0 o1 n1 ... oj nj`, up to the operand `nums[j]`. */
  function Upto(nums: seq<string>, ops: seq<char>, j: nat): string
    requires |nums| == |ops| + 1 && j <= |ops|
  {
    Joined(nums[..j + 1], ops[..j])
  }

  /** The operand nodes of the numerals `nums`. */
  function Numbers(nums: seq<string>): (ns: seq<Expr>)
    ensures |ns| == |nums|
  {
    seq(|nums|, i requires 0 <= i < |nums| => Number(DecimalValue(nums[i])))
  }

  /** The precedences of the operators `ops`. */
  function Precedences(ops: seq<char>): (ps: seq<int>)
    ensures |ps| == |ops|
  {
    seq(|ops|, i requires 0 <= i < |ops| => Precedence(ops[i]))
  }

  /** Numerals `stod` converts. */
  ghost predicate Operands(nums: seq<string>)
  {
    forall i :: 0 <= i < |nums| ==> Numeral(nums[i]) && Fits(nums[i])
  }

  /** Characters among `+ - *`. */
  ghost predicate Operators(ops: seq<char>)
  {
    forall i :: 0 <= i < |ops| ==> IsOperator(ops[i])
  }

  /** The text up to `nums[j + 1]` is the text up to `nums[j]`, the operator `ops[j]` and `nums[j + 1]`. */
  lemma UptoStep(nums: seq<string>, ops: seq<char>, j: nat)
    requires |nums| == |ops| + 1 && j < |ops|
    ensures Upto(nums, ops, j + 1) == Upto(nums, ops, j) + [ops[j]] + nums[j + 1]
  {
    assert nums[..j + 2][..j + 1] == nums[..j + 1];
    assert ops[..j + 1][..j] == ops[..j];
  }

  /** The text up to the last operand is the whole text. */
  lemma UptoAll(nums: seq<string>, ops: seq<char>)
    requires |nums| == |ops| + 1
    ensures Upto(nums, ops, |ops|) == Joined(nums, ops)
  {
    assert nums[..|ops| + 1] == nums;
    assert ops[..|ops|] == ops;
  }

  /** The text up to any operand starts the whole text. */
  lemma {:induction false} UptoPrefix(nums: seq<string>, ops: seq<char>, j: nat)
    requires |nums| == |ops| + 1 && j <= |ops|
    ensures Upto(nums, ops, j) <= Joined(nums, ops)
    decreases |ops| - j
  {
    if j == |ops| {
      UptoAll(nums, ops);
    } else {
      UptoStep(nums, ops, j);
      UptoPrefix(nums, ops, j + 1);
      var u, v := Upto(nums, ops, j), Upto(nums, ops, j + 1);
      assert u == v[..|u|];
    }
  }

  /** In the whole text, the operator `ops[j]` follows the text up to `nums[j]`, and `nums[j + 1]` follows it. */
  lemma TextAround(nums: seq<string>, ops: seq<char>, j: nat)
    requires |nums| == |ops| + 1 && j < |ops|
    ensures var content, i := Joined(nums, ops), |Upto(nums, ops, j)|;
      && i + 1 + |nums[j + 1]| == |Upto(nums, ops, j + 1)| <= |content|
      && content[i] == ops[j]
      && content[i + 1..|Upto(nums, ops, j + 1)|] == nums[j + 1]
  {
    UptoStep(nums, ops, j);
    UptoPrefix(nums, ops, j + 1);
    var content, u, v := Joined(nums, ops), Upto(nums, ops, j), Upto(nums, ops, j + 1);
    assert v == content[..|v|];
    assert content[|u| + 1..|v|] == v[|u| + 1..];
  }

  /** The states of `currtok` on the operands of the text. */
  ghost function TextAt(nums: seq<string>, ops: seq<char>): (at: seq<PState>)
    requires |nums| == |ops| + 1
    ensures |at| == |nums|
  {
    seq(|nums|, i requires 0 <= i < |nums| => PState(|Upto(nums, ops, i)|, Token(NumberLiteral, nums[i])))
  }

  /** The states of `currtok` on the operators of the text, then at its end. */
  ghost function TextAfter(nums: seq<string>, ops: seq<char>): (after: seq<PState>)
    requires |nums| == |ops| + 1 && Operators(ops)
    ensures |after| == |nums|
  {
    seq(|nums|, i requires 0 <= i < |nums| =>
      if i < |ops| then PState(|Upto(nums, ops, i)| + 1, Token(SingleKind(ops[i]).value, [ops[i]]))
      else PState(|Joined(nums, ops)|, Token(End, "")))
  }

  /** A numeral, whole, is one number token. */
  lemma NumeralToken(content: string, i: nat, w: string)
    requires Numeral(w) && i + |w| <= |content|
    requires content[i..i + |w|] == w
    requires i + |w| == |content| || IsOperator(content[i + |w|])
    ensures Scan(content, |content|, i) == (Token(NumberLiteral, w), i + |w|)
  {
    forall x | 0 <= x < |w|
      ensures content[i + x] == w[x] && IsAlnum(w[x])
    {
      assert content[i..i + |w|][x] == w[x];
      assert IsDigit(w[x]);
    }
    WordToken(content, i, w);
  }

  /** `setup` leaves `currtok` on the first operand of the text. */
  lemma TextStart(nums: seq<string>, ops: seq<char>)
    requires |nums| == |ops| + 1 && Operands(nums) && Operators(ops)
    ensures Start(Joined(nums, ops)) == TextAt(nums, ops)[0]
  {
    var content := Joined(nums, ops);
    UptoPrefix(nums, ops, 0);
    assert Upto(nums, ops, 0) == nums[0];
    assert content[0..|nums[0]|] == nums[0];
    if |ops| > 0 {
      TextAround(nums, ops, 0);
    } else {
      UptoAll(nums, ops);
    }
    NumeralToken(content, 0, nums[0]);
  }

  /** `nextTok` steps from each operand of the text to the token after it: its operator, or the end. */
  lemma OperandLink(nums: seq<string>, ops: seq<char>, i: nat)
    requires |nums| == |ops| + 1 && Operators(ops) && i < |nums|
    ensures var content := Joined(nums, ops);
      Advance(Source(content, |content|), TextAt(nums, ops)[i]) == TextAfter(nums, ops)[i]
  {
    var content := Joined(nums, ops);
    var u := |Upto(nums, ops, i)|;
    assert TextAt(nums, ops)[i] == PState(u, Token(NumberLiteral, nums[i]));
    if i < |ops| {
      TextAround(nums, ops, i);
      CharToken(content, u);
      assert TextAfter(nums, ops)[i] == PState(u + 1, Token(SingleKind(ops[i]).value, [ops[i]]));
    } else {
      UptoAll(nums, ops);
      AdvanceAtEnd(Source(content, |content|), TextAt(nums, ops)[i]);
    }
  }

  /** `nextTok` reads the numeral after the `i`-th operator of the text whole, as one number token. */
  lemma OperandSpan(nums: seq<string>, ops: seq<char>, i: nat)
    requires |nums| == |ops| + 1 && Operands(nums) && Operators(ops) && i < |ops|
    ensures var content := Joined(nums, ops);
      Scan(content, |content|, |Upto(nums, ops, i)| + 1)
        == (Token(NumberLiteral, nums[i + 1]), |Upto(nums, ops, i + 1)|)
  {
    var content, u, v, w := Joined(nums, ops), |Upto(nums, ops, i)|, |Upto(nums, ops, i + 1)|, nums[i + 1];
    assert Numeral(w);
    TextAround(nums, ops, i);
    if i + 1 < |ops| {
      TextAround(nums, ops, i + 1);
    } else {
      UptoAll(nums, ops);
    }
    NumeralToken(content, u + 1, w);
  }

  /** `nextTok` steps from each operator of the text to the operand after it. */
  lemma OperatorLink(nums: seq<string>, ops: seq<char>, i: nat)
    requires |nums| == |ops| + 1 && Operands(nums) && Operators(ops) && i < |ops|
    ensures var content := Joined(nums, ops);
      Advance(Source(content, |content|), TextAfter(nums, ops)[i]) == TextAt(nums, ops)[i + 1]
  {
    var u := |Upto(nums, ops, i)|;
    var tok := Token(SingleKind(ops[i]).value, [ops[i]]);
    OperandSpan(nums, ops, i);
    assert TextAfter(nums, ops)[i] == PState(u + 1, tok);
  }

  /** The states of the text `n0 o1 n1 ... ok nk` make a chain. */
  lemma TextChain(nums: seq<string>, ops: seq<char>)
    requires |nums| == |ops| + 1 && Operands(nums) && Operators(ops)
    ensures var content := Joined(nums, ops);
      Chain(Source(content, |content|), TextAt(nums, ops), TextAfter(nums, ops), Numbers(nums), Precedences(ops))
  {
    var content := Joined(nums, ops);
    var src, at, after := Source(content, |content|), TextAt(nums, ops), TextAfter(nums, ops);
    var ns, ps := Numbers(nums), Precedences(ops);
    forall i | 0 <= i < |at|
      ensures Advance(src, at[i]) == after[i]
    {
      OperandLink(nums, ops, i);
    }
    forall i | 0 <= i < |ps|
      ensures Advance(src, after[i]) == at[i + 1]
    {
      OperatorLink(nums, ops, i);
    }
    forall i | 0 <= i < |ps|
      ensures ps[i] >= 0 && CurPrecedence(after[i]) == ps[i]
    {
      PrecedenceValues(ops[i]);
    }
    PrecedenceValues(NUL);
  }

  /**
   * `parseExpr` on the text `n0 o1 n1 ... ok nk`, numerals and operators among
   * `+ - *`, of any length, reads all of it and returns the tree of its chain.
   */
  lemma TextParses(nums: seq<string>, ops: seq<char>, fuel: nat)
    requires |nums| == |ops| + 1 && Operands(nums) && Operators(ops) && fuel >= |ops| + 3
    ensures var content := Joined(nums, ops);
      ParsedExpr(Source(content, |content|), Start(content), fuel)
        == Returned(Some(ChainTree(Numbers(nums), Precedences(ops))), PState(|content|, Token(End, "")))
  {
    var content := Joined(nums, ops);
    TextChain(nums, ops);
    TextStart(nums, ops);
    ChainParses(Source(content, |content|), TextAt(nums, ops), TextAfter(nums, ops), Numbers(nums), Precedences(ops), fuel);
  }

  /**
   * `parseExpr` on the text `n0 o1 n1 ... ok nk`, numerals and operators among
   * `+ - *`, of any length, returns exactly the tree with the operands
   * `n0 ... nk` and the operators `o1 ... ok`, in order, grouped by
   * precedence, and reads all of the text.
   */
  lemma TextParsesGrouped(nums: seq<string>, ops: seq<char>, t: Expr, fuel: nat)
    requires |nums| == |ops| + 1 && Operands(nums) && Operators(ops) && fuel >= |ops| + 3
    requires Grouped(t) && OpsOf(t) == Precedences(ops) && LeavesOf(t) == Numbers(nums)
    ensures var content := Joined(nums, ops);
      ParsedExpr(Source(content, |content|), Start(content), fuel) == Returned(Some(t), PState(|content|, Token(End, "")))
  {
    var ns, ps := Numbers(nums), Precedences(ops);
    TextParses(nums, ops, fuel);
    forall i | 0 <= i < |ps|
      ensures ps[i] >= 0
    {
      PrecedenceValues(ops[i]);
    }
    ChainTreeShape(ns, ps);
    GroupedUnique(t, ChainTree(ns, ps));
  }

  /** The text of `1+2*3-4` as a chain. */
  lemma MixedText()
    ensures Joined(["1", "2", "3", "4"], ['+', '*', '-']) == "1+2*3-4"
  {
    var nums, ops := ["1", "2", "3", "4"], ['+', '*', '-'];
    assert nums[..3][..2] == nums[..2] && ops[..2][..1] == ops[..1];
    assert nums[..2][..1] == nums[..1] && ops[..1][..0] == ops[..0];
    assert Joined(nums[..1], ops[..0]) == "1";
    assert Joined(nums[..2], ops[..1]) == "1+2";
    assert Joined(nums[..3], ops[..2]) == "1+2*3";
  }

  /**
   * An illustration: `1+2*3-4` parses as `1 + ((2 * 3) - 4)`, the
   * multiplication grouped under the subtraction because `-` is given a
   * higher precedence than `+`, with the precedences stored in the nodes.
   */
  lemma MixedOperators(fuel: nat)
    requires fuel >= 6
    ensures ParsedExpr(Source("1+2*3-4", 7), Start("1+2*3-4"), fuel)
      == Returned(Some(Binary(Number(1), Binary(Binary(Number(2), Number(3), 30), Number(4), 20), 10)), PState(7, Token(End, "")))
  {
    var nums, ops := ["1", "2", "3", "4"], ['+', '*', '-'];
    MixedText();
    assert Operands(nums) by {
      forall i | 0 <= i < 4
        ensures Numeral(nums[i]) && Fits(nums[i])
      {
        ShortNumeralsFit(nums[i]);
      }
    }
    PrecedenceValues('+');
    PrecedenceValues('*');
    PrecedenceValues('-');
    assert Numbers(nums) == [Number(1), Number(2), Number(3), Number(4)];
    assert Precedences(ops) == [10, 30, 20];
    TextParsesGrouped(nums, ops, Binary(Number(1), Binary(Binary(Number(2), Number(3), 30), Number(4), 20), 10), fuel);
  }
}
