/** What `codegen` promises, stated over `Gen` and `GenArgs`. */
module CodegenFacts {
  import opened Wrappers
  import opened Ast
  import opened Codegen
  import opened Parsing
  import ParsingFacts

  /** `codegen` only appends to the log: what was emitted before stays as it was. */
  lemma {:induction false} GenExtendsLog(named: map<string, Value>, arity: map<string, nat>, e: Expr, log: seq<Inst>)
    ensures log <= Gen(named, arity, e, log).1
    decreases e
  {
    match e
    case Number(_) =>
    case Variable(_) =>
    case Binary(l, r, _) =>
      GenExtendsLog(named, arity, l, log);
      var log1 := Gen(named, arity, l, log).1;
      GenExtendsLog(named, arity, r, log1);
    case Call(f, args) =>
      if f in arity && arity[f] == |args| {
        GenArgsExtendsLog(named, arity, args, 0, [], log);
      }
  }

  lemma {:induction false} GenArgsExtendsLog(named: map<string, Value>, arity: map<string, nat>, args: seq<Option<Expr>>, i: nat, acc: seq<Value>, log: seq<Inst>)
    requires i <= |args|
    ensures log <= GenArgs(named, arity, args, i, acc, log).1
    decreases args, |args| - i
  {
    if i < |args| && args[i].Some? {
      var a := args[i].value;
      assert a < args[i] && args[i] in args;
      GenExtendsLog(named, arity, a, log);
      var (o, log1) := Gen(named, arity, a, log);
      if o.Emitted? {
        GenArgsExtendsLog(named, arity, args, i + 1, acc + [o.value], log1);
      }
    }
  }

  /** A variable yields its bound value, and fails when the name is unbound; either way nothing is emitted. */
  lemma VariableLookup(named: map<string, Value>, arity: map<string, nat>, x: string, log: seq<Inst>)
    ensures var (o, log1) := Gen(named, arity, Variable(x), log);
      && log1 == log
      && (o.Emitted? <==> x in named)
      && (o.Emitted? ==> o.value == named[x])
      && !o.Crashed?
  {
  }

  /** An unknown callee, or an arity that differs from the number of arguments, fails before any argument is generated. */
  lemma CallChecksArityFirst(named: map<string, Value>, arity: map<string, nat>, f: string, args: seq<Option<Expr>>, log: seq<Inst>)
    requires f !in arity || arity[f] != |args|
    ensures Gen(named, arity, Call(f, args), log) == (Failed, log)
  {
  }

  /** The argument loop, when it completes, has one value per argument and met no null argument. */
  lemma {:induction false} ArgsComplete(named: map<string, Value>, arity: map<string, nat>, args: seq<Option<Expr>>, i: nat, acc: seq<Value>, log: seq<Inst>)
    requires i <= |args|
    ensures var o := GenArgs(named, arity, args, i, acc, log).0;
      o.Emitted? ==> |o.value| == |acc| + |args| - i && acc <= o.value && forall k :: i <= k < |args| ==> args[k].Some?
    decreases |args| - i
  {
    if i < |args| && args[i].Some? {
      var (o, log1) := Gen(named, arity, args[i].value, log);
      if o.Emitted? {
        ArgsComplete(named, arity, args, i + 1, acc + [o.value], log1);
      }
    }
  }

  /**
   * A call that yields a value passed the callee and arity checks, had no
   * null argument, and emitted exactly one call instruction, last, with one
   * value per argument.
   */
  lemma CallEmitted(named: map<string, Value>, arity: map<string, nat>, f: string, args: seq<Option<Expr>>, log: seq<Inst>)
    requires Gen(named, arity, Call(f, args), log).0.Emitted?
    ensures var (o, log1) := Gen(named, arity, Call(f, args), log);
      && f in arity && arity[f] == |args|
      && (forall k :: 0 <= k < |args| ==> args[k].Some?)
      && |log1| > 0 && o.value == Temp(|log1| - 1)
      && log1[|log1| - 1].CallInst? && log1[|log1| - 1].callee == f && |log1[|log1| - 1].args| == |args|
  {
    ArgsComplete(named, arity, args, 0, [], log);
  }

  /**
   * The argument loop stops at the first argument that fails or crashes:
   * arguments after it are never generated, so appending more changes nothing.
   */
  lemma {:induction false} ArgsStopAtFirstFailure(named: map<string, Value>, arity: map<string, nat>, args: seq<Option<Expr>>, more: seq<Option<Expr>>, i: nat, acc: seq<Value>, log: seq<Inst>)
    requires i <= |args|
    requires !GenArgs(named, arity, args, i, acc, log).0.Emitted?
    ensures GenArgs(named, arity, args + more, i, acc, log) == GenArgs(named, arity, args, i, acc, log)
    decreases |args| - i
  {
    assert (args + more)[i] == args[i];
    if args[i].Some? {
      var (o, log1) := Gen(named, arity, args[i].value, log);
      if o.Emitted? {
        ArgsStopAtFirstFailure(named, arity, args, more, i + 1, acc + [o.value], log1);
      }
    }
  }

  /** Generating the arguments of `args + more` from `|args| + j` on is generating those of `more` from `j` on. */
  lemma {:induction false} ArgsShift(named: map<string, Value>, arity: map<string, nat>, args: seq<Option<Expr>>, more: seq<Option<Expr>>, j: nat, acc: seq<Value>, log: seq<Inst>)
    requires j <= |more|
    ensures GenArgs(named, arity, args + more, |args| + j, acc, log) == GenArgs(named, arity, more, j, acc, log)
    decreases |more| - j
  {
    if j < |more| {
      assert (args + more)[|args| + j] == more[j];
      if more[j].Some? {
        var (o, log1) := Gen(named, arity, more[j].value, log);
        if o.Emitted? {
          ArgsShift(named, arity, args, more, j + 1, acc + [o.value], log1);
        }
      }
    }
  }

  /**
   * Arguments are generated left to right: when those of `args` all succeed,
   * the loop carries on with `more` from the values and the log they left.
   */
  lemma {:induction false} ArgsLeftToRight(named: map<string, Value>, arity: map<string, nat>, args: seq<Option<Expr>>, more: seq<Option<Expr>>, i: nat, acc: seq<Value>, log: seq<Inst>)
    requires i <= |args|
    requires GenArgs(named, arity, args, i, acc, log).0.Emitted?
    ensures var (o, log1) := GenArgs(named, arity, args, i, acc, log);
      GenArgs(named, arity, args + more, i, acc, log) == GenArgs(named, arity, more, 0, o.value, log1)
    decreases |args| - i
  {
    if i == |args| {
      ArgsShift(named, arity, args, more, 0, acc, log);
    } else {
      assert (args + more)[i] == args[i];
      var (o, log1) := Gen(named, arity, args[i].value, log);
      ArgsLeftToRight(named, arity, args, more, i + 1, acc + [o.value], log1);
    }
  }

  /**
   * A binary node whose operator field holds a stored precedence never
   * yields a value: no `case` of the `switch` matches 10, 20 or 30.
   */
  lemma StoredPrecedenceNeverEmits(named: map<string, Value>, arity: map<string, nat>, l: Expr, r: Expr, op: int, log: seq<Inst>)
    requires IsStoredPrecedence(op)
    ensures var o := Gen(named, arity, Binary(l, r, op), log).0;
      o == Failed || o == Crashed
  {
  }

  /** On a tree the parser built, `codegen` emits call instructions only: never an arithmetic one. */
  lemma {:induction false} ParserTreesEmitNoArith(named: map<string, Value>, arity: map<string, nat>, e: Expr, log: seq<Inst>)
    requires ParserShaped(e)
    ensures var log1 := Gen(named, arity, e, log).1;
      log <= log1 && forall k :: |log| <= k < |log1| ==> log1[k].CallInst?
    decreases e
  {
    GenExtendsLog(named, arity, e, log);
    match e
    case Number(_) =>
    case Variable(_) =>
    case Binary(l, r, _) =>
      ParserTreesEmitNoArith(named, arity, l, log);
      var log1 := Gen(named, arity, l, log).1;
      ParserTreesEmitNoArith(named, arity, r, log1);
    case Call(f, args) =>
      if f in arity && arity[f] == |args| {
        ParserArgsEmitNoArith(named, arity, args, 0, [], log);
      }
  }

  lemma {:induction false} ParserArgsEmitNoArith(named: map<string, Value>, arity: map<string, nat>, args: seq<Option<Expr>>, i: nat, acc: seq<Value>, log: seq<Inst>)
    requires i <= |args|
    requires forall a :: a in args && a.Some? ==> ParserShaped(a.value)
    ensures var log1 := GenArgs(named, arity, args, i, acc, log).1;
      log <= log1 && forall k :: |log| <= k < |log1| ==> log1[k].CallInst?
    decreases args, |args| - i
  {
    if i < |args| && args[i].Some? {
      var a := args[i].value;
      assert a < args[i] && args[i] in args;
      ParserTreesEmitNoArith(named, arity, a, log);
      var (o, log1) := Gen(named, arity, a, log);
      if o.Emitted? {
        ParserArgsEmitNoArith(named, arity, args, i + 1, acc + [o.value], log1);
      }
    }
  }

  /** `foo(a, b)` with `foo` of arity 2 and both names bound emits one call on their values. */
  lemma TwoArgumentCall(va: Value, vb: Value)
    ensures var named := map["a" := va, "b" := vb];
      Gen(named, map["foo" := 2], Call("foo", [Some(Variable("a")), Some(Variable("b"))]), [])
        == (Emitted(Temp(0)), [CallInst("foo", [va, vb])])
  {
    var named := map["a" := va, "b" := vb];
    var args := [Some(Variable("a")), Some(Variable("b"))];
    assert Gen(named, map["foo" := 2], Variable("a"), []) == (Emitted(va), []);
    assert Gen(named, map["foo" := 2], Variable("b"), []) == (Emitted(vb), []);
    assert [] + [va] == [va] && [va] + [vb] == [va, vb];
    assert GenArgs(named, map["foo" := 2], args, 2, [va, vb], []) == (Emitted([va, vb]), []);
    assert GenArgs(named, map["foo" := 2], args, 1, [va], []) == (Emitted([va, vb]), []);
    assert GenArgs(named, map["foo" := 2], args, 0, [], []) == (Emitted([va, vb]), []);
    assert "foo" in map["foo" := 2] && map["foo" := 2]["foo"] == |args|;
    var call: seq<Inst> := [CallInst("foo", [va, vb])];
    assert [] + call == call;
    assert Gen(named, map["foo" := 2], Call("foo", args), []) == (Emitted(Temp(0)), call);
  }

  /**
   * End to end, `f(x)`: the parser drops `x` and builds a call with a null
   * argument, whose `codegen` dereferences that null pointer when `f` takes
   * one argument and fails otherwise.
   */
  lemma ParsedCallNeverEmits(f: string, x: string, fuel: nat, named: map<string, Value>, arity: map<string, nat>)
    requires ParsingFacts.Name(f) && ParsingFacts.Word(x) && fuel >= 9
    ensures var content := f + "(" + x + ")";
      var r := ParsedExpr(Source(content, |content|), Start(content), fuel);
      && r.Returned? && r.value.Some?
      && Gen(named, arity, r.value.value, []) == (if f in arity && arity[f] == 1 then Crashed else Failed, [])
  {
    ParsingFacts.CallDropsArgument(f, x, fuel);
  }
}
