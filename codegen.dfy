/**
 * The decision logic of the `codegen` methods of `VariableNode`,
 * `BinaryExprNode` and `CallNode` in interpreter.cpp, against an abstract
 * backend: the declared functions are a map from name to arity, `NamedValues`
 * is a map from name to value, and each instruction the IR builder would
 * create is appended to a log instead.
 *
 * `Gen` is the pure specification; `CodeGenerator.Codegen` keeps the source's
 * recursion and its argument loop and is proved against it.
 */
module Codegen {
  import opened Wrappers
  import opened Ast

  /** An abstract IR value: a floating-point constant, a bound name's value, or the result of the `id`-th logged instruction. */
  datatype Value = Constant(n: nat) | Argument(name: string) | Temp(id: nat)

  datatype Opcode = FAdd | FSub | FMul | FCmpULT

  /** What the IR builder is asked to create. */
  datatype Inst =
    | Arith(opcode: Opcode, lhs: Value, rhs: Value)
    | CallInst(callee: string, args: seq<Value>)

  /**
   * The result of one `codegen` call: a value, the null pointer that
   * `LogErrorV` returns, or a crash (a null pointer dereferenced, or handed
   * to the IR builder as an operand).
   */
  datatype Outcome<+T> = Emitted(value: T) | Failed | Crashed

  /** The arithmetic instruction the `switch` of `BinaryExprNode::codegen` picks for an operator code. */
  function OpcodeOf(op: int): (r: Option<Opcode>)
    ensures r.Some? <==> op == '+' as int || op == '-' as int || op == '*' as int || op == '<' as int
  {
    if op == '+' as int then Some(FAdd)
    else if op == '-' as int then Some(FSub)
    else if op == '*' as int then Some(FMul)
    else if op == '<' as int then Some(FCmpULT)
    else None
  }

  /**
   * `codegen` of `e` with `log` emitted so far: the outcome and the log after it.
   *
   * A number is a constant and emits nothing. A variable is looked up in
   * `named`. A binary node generates both operands, left then right, even
   * when the left one failed, and only then looks at its operator. A call
   * checks the callee and its arity before generating any argument.
   */
  function Gen(named: map<string, Value>, arity: map<string, nat>, e: Expr, log: seq<Inst>): (Outcome<Value>, seq<Inst>)
    decreases e
  {
    match e
    case Number(n) => (Emitted(Constant(n)), log)
    case Variable(x) => if x in named then (Emitted(named[x]), log) else (Failed, log)
    case Binary(l, r, op) =>
      var (lo, log1) := Gen(named, arity, l, log);
      if lo.Crashed? then (Crashed, log1)
      else
        var (ro, log2) := Gen(named, arity, r, log1);
        if ro.Crashed? then (Crashed, log2)
        else
          match OpcodeOf(op) {
            case None => (Failed, log2)
            case Some(code) =>
              if lo.Failed? || ro.Failed? then (Crashed, log2)
              else (Emitted(Temp(|log2|)), log2 + [Arith(code, lo.value, ro.value)])
          }
    case Call(f, args) =>
      if f !in arity || arity[f] != |args| then (Failed, log)
      else
        var (ao, log1) := GenArgs(named, arity, args, 0, [], log);
        match ao
        case Emitted(vals) => (Emitted(Temp(|log1|)), log1 + [CallInst(f, vals)])
        case Failed => (Failed, log1)
        case Crashed => (Crashed, log1)
  }

  /**
   * The argument loop of `CallNode::codegen` from argument `i` on, with the
   * values `acc` of the arguments before it: a null argument crashes, and
   * the first argument that fails ends the loop.
   */
  function GenArgs(named: map<string, Value>, arity: map<string, nat>, args: seq<Option<Expr>>, i: nat, acc: seq<Value>, log: seq<Inst>)
    : (Outcome<seq<Value>>, seq<Inst>)
    requires i <= |args|
    decreases args, |args| - i
  {
    if i == |args| then (Emitted(acc), log)
    else match args[i]
      case None => (Crashed, log)
      case Some(a) =>
        assert a < args[i] && args[i] in args;
        var (o, log1) := Gen(named, arity, a, log);
        match o
        case Emitted(v) => GenArgs(named, arity, args, i + 1, acc + [v], log1)
        case Failed => (Failed, log1)
        case Crashed => (Crashed, log1)
  }

  /** The backend state the `codegen` methods read and the log they extend. */
  class CodeGenerator {
    /** `NamedValues` */
    var named: map<string, Value>
    /** The arity of each function `TheModule->getFunction` finds. */
    var arity: map<string, nat>
    var log: seq<Inst>

    constructor (named: map<string, Value>, arity: map<string, nat>)
      ensures this.named == named && this.arity == arity && log == []
    {
      this.named := named;
      this.arity := arity;
      log := [];
    }

    /** `codegen` of one node, appending what it emits to `log`. */
    method Codegen(e: Expr) returns (r: Outcome<Value>)
      modifies this`log
      ensures (r, log) == Gen(named, arity, e, old(log))
      decreases e
    {
      match e
      case Number(n) =>
        r := Emitted(Constant(n));
      case Variable(x) =>
        if x in named {
          r := Emitted(named[x]);
        } else {
          r := Failed;
        }
      case Binary(left, right, op) =>
        var lo := Codegen(left);
        if lo.Crashed? {
          return Crashed;
        }
        var ro := Codegen(right);
        if ro.Crashed? {
          return Crashed;
        }
        var code := OpcodeOf(op);
        if code.None? {
          return Failed;
        }
        if lo.Failed? || ro.Failed? {
          return Crashed;
        }
        r := Emitted(Temp(|log|));
        log := log + [Arith(code.value, lo.value, ro.value)];
      case Call(f, args) =>
        if f !in arity || arity[f] != |args| {
          return Failed;
        }
        var vals: seq<Value> := [];
        var i := 0;
        while i < |args|
          invariant 0 <= i <= |args|
          invariant GenArgs(named, arity, args, 0, [], old(log)) == GenArgs(named, arity, args, i, vals, log)
        {
          if args[i].None? {
            return Crashed;
          }
          var o := Codegen(args[i].value);
          if o.Failed? {
            return Failed;
          } else if o.Crashed? {
            return Crashed;
          }
          vals := vals + [o.value];
          i := i + 1;
        }
        r := Emitted(Temp(|log|));
        log := log + [CallInst(f, vals)];
    }
  }
}
