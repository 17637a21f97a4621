/**
 * The `Parser` class of interpreter.cpp: recursive descent with precedence
 * climbing over one current token `currtok` and a shared `Tokenizer`.
 *
 * The functions `Parsed*` say what each parsing routine returns and where it
 * leaves the lexer cursor and `currtok`; the class keeps the source's loops
 * and reassignments and is proved against them. Two loops of the source can
 * spin forever and the routines recurse through a lexer that may stop
 * advancing, so every routine takes `fuel`: running out of it stands for
 * non-termination.
 */
module Parsing {
  import opened Wrappers
  import opened Lexer
  import opened Ast

  /** The text the shared tokenizer reads and the length it stops at. */
  datatype Source = Source(content: string, len: nat)

  /** What parsing changes: the tokenizer's cursor and `currtok`. */
  datatype PState = PState(index: nat, cur: Token)

  /**
   * Ways a parse ends without returning: `stod` throws `invalid_argument` on
   * an empty lexeme or `out_of_range` on a numeral too large for a double,
   * or a loop never ends.
   */
  datatype Halt = InvalidNumber | OutOfRange | OutOfFuel

  /** A routine's result with the state it leaves, or the way it stopped. */
  datatype Run<+T> = Returned(value: T, st: PState) | Halted(why: Halt)

  /** `currtok = tokenizer->nextTok()` */
  function Advance(src: Source, st: PState): PState
  {
    var (tok, index) := Scan(src.content, src.len, st.index);
    PState(index, tok)
  }

  /** `tokenizer->nextTok()` with the token thrown away. */
  function Skip(src: Source, st: PState): PState
  {
    PState(Scan(src.content, src.len, st.index).1, st.cur)
  }

  /** The state `setup` leaves: a fresh tokenizer over the text and its first token. */
  function Start(content: string): PState
  {
    Advance(Source(content, |content|), PState(0, Token(End, "")))
  }

  /** The initial contents of `BinOpPrecedence`. */
  const PrecedenceTable: map<char, int> := map['<' := 0, '+' := 10, '-' := 20, '*' := 30]

  /** `m[c]` through `operator[]`, which gives 0 for a missing key. */
  function Lookup(m: map<char, int>, c: char): int
  {
    if c in m then m[c] else 0
  }

  /** `GetPrecedence`: a table entry of 0 or below reads as -1. */
  function Precedence(c: char): int
  {
    var p := Lookup(PrecedenceTable, c);
    if p <= 0 then -1 else p
  }

  /** `lexeme[0]`, which is '\0' for an empty lexeme. */
  function FirstChar(s: string): char
  {
    if |s| > 0 then s[0] else NUL
  }

  function CurPrecedence(st: PState): int
  {
    Precedence(FirstChar(st.cur.lexeme))
  }

  /** The value of a decimal digit string (`stod` without its rounding). */
  function DecimalValue(s: string): nat
  {
    if s == [] then 0
    else DecimalValue(s[..|s| - 1]) * 10 + (if IsDigit(s[|s| - 1]) then s[|s| - 1] as int - '0' as int else 0)
  }

  /**
   * The least natural number that `stod` does not fit in a double: 2^1024 - 2^970,
   * halfway between the largest finite double and 2^1024, where rounding to
   * nearest (ties to even) gives infinity and `strtod` reports ERANGE.
   */
  const DoubleOverflow: nat := 179769313486231580793728971405303415079934132710037826936173778980444968292764750946649017977587207096330286416692887910946555547851940402630657488671505820681908902000708383676273854845817711531764475730270069855571366959622842914819860834936475292719074168444365510704342711559699508093042880177904174497792

  /** A numeral `stod` converts without throwing `out_of_range`. */
  predicate Fits(s: string)
  {
    DecimalValue(s) < DoubleOverflow
  }

  /** `parseExpr`: a primary, then the binary operators after it at minimum precedence 0. */
  function ParsedExpr(src: Source, st: PState, fuel: nat): (r: Run<Option<Expr>>)
    decreases fuel, 0
  {
    if fuel == 0 then Halted(OutOfFuel)
    else match ParsedPrimary(src, st, fuel - 1)
      case Halted(a) => Halted(a)
      case Returned(None, st1) => Returned(None, st1)
      case Returned(Some(lhs), st1) => ParsedBinOp(src, st1, 0, lhs, fuel - 1)
  }

  /** `parsePrimary`: null, with nothing consumed, unless a number, an identifier or `(` is current. */
  function ParsedPrimary(src: Source, st: PState, fuel: nat): (r: Run<Option<Expr>>)
    decreases fuel, 0
  {
    if fuel == 0 then Halted(OutOfFuel)
    else if st.cur.kind == NumberLiteral then ParsedNumber(src, st)
    else if st.cur.kind == Identifier then ParsedIdentifier(src, st, fuel - 1)
    else if st.cur.kind == LeftParen then ParsedParen(src, st, fuel - 1)
    else Returned(None, st)
  }

  /**
   * `parseNumber`: `stod` throws on the empty lexeme of an unknown character,
   * and on a numeral of 2^1024 - 2^970 or more.
   */
  function ParsedNumber(src: Source, st: PState): (r: Run<Option<Expr>>)
  {
    if st.cur.lexeme == "" then Halted(InvalidNumber)
    else if !Fits(st.cur.lexeme) then Halted(OutOfRange)
    else Returned(Some(Number(DecimalValue(st.cur.lexeme))), Advance(src, st))
  }

  /**
   * `parseIdentifier`: a variable, or, when `(` follows, a call whose
   * arguments are read with `currtok` still on `(` and the token after it
   * dropped.
   */
  function ParsedIdentifier(src: Source, st: PState, fuel: nat): (r: Run<Option<Expr>>)
    decreases fuel, 0
  {
    if fuel == 0 then Halted(OutOfFuel)
    else
      var name := st.cur.lexeme;
      var st1 := Advance(src, st);
      if st1.cur.kind == LeftParen then
        match ParsedArgs(src, Skip(src, st1), [], fuel - 1)
        case Halted(a) => Halted(a)
        case Returned(args, st2) => Returned(Some(Call(name, args)), st2)
      else Returned(Some(Variable(name)), st1)
  }

  /**
   * The argument loop of `parseIdentifier`: until `)` is current, parse an
   * expression unless a comma is current, and append it, null or not. On a
   * comma nothing moves, so the loop spins.
   */
  function ParsedArgs(src: Source, st: PState, args: seq<Option<Expr>>, fuel: nat): (r: Run<seq<Option<Expr>>>)
    decreases fuel, 0
  {
    if st.cur.kind == RightParen then Returned(args, st)
    else if fuel == 0 then Halted(OutOfFuel)
    else if st.cur.kind != Comma then
      match ParsedExpr(src, st, fuel - 1)
      case Halted(a) => Halted(a)
      case Returned(v, st1) => ParsedArgs(src, st1, args + [v], fuel - 1)
    else ParsedArgs(src, st, args, fuel - 1)
  }

  /** `parseParen`: the expression after `(`, then one token dropped while `currtok` stays put. */
  function ParsedParen(src: Source, st: PState, fuel: nat): (r: Run<Option<Expr>>)
    decreases fuel, 0
  {
    if fuel == 0 then Halted(OutOfFuel)
    else match ParsedExpr(src, Advance(src, st), fuel - 1)
      case Halted(a) => Halted(a)
      case Returned(None, st1) => Returned(None, st1)
      case Returned(Some(v), st1) => Returned(Some(v), Skip(src, st1))
  }

  /**
   * `parseBinOp`: while the current operator binds at least `minPrec`,
   * consume it and its right operand, and fold left into a node that stores
   * the operator's precedence.
   */
  function ParsedBinOp(src: Source, st: PState, minPrec: nat, lhs: Expr, fuel: nat): (r: Run<Option<Expr>>)
    decreases fuel, 0
  {
    if fuel == 0 then Halted(OutOfFuel)
    else
      var p := CurPrecedence(st);
      if p < minPrec then Returned(Some(lhs), st)
      else match ParsedRhs(src, st, p, fuel - 1)
        case Halted(h) => Halted(h)
        case Returned(None, st1) => Returned(None, st1)
        case Returned(Some(rhs), st1) => ParsedBinOp(src, st1, minPrec, Binary(lhs, rhs, p), fuel - 1)
  }

  /**
   * One step of the loop of `parseBinOp` with the operator of precedence `p`
   * current: skip it and parse a primary; when the operator after that binds
   * tighter than `p`, extend the primary at minimum precedence `p + 1`.
   */
  function ParsedRhs(src: Source, st: PState, p: nat, fuel: nat): (r: Run<Option<Expr>>)
    decreases fuel, 1
  {
    match ParsedPrimary(src, Advance(src, st), fuel)
    case Halted(h) => Halted(h)
    case Returned(None, st1) => Returned(None, st1)
    case Returned(Some(rhs), st1) =>
      if p < CurPrecedence(st1) then ParsedBinOp(src, st1, p + 1, rhs, fuel)
      else Returned(Some(rhs), st1)
  }

  /**
   * `parseProto`: the name is the lexeme of the next token, which is not kept
   * in `currtok`; null unless `(` follows it.
   */
  function ParsedProto(src: Source, st: PState, fuel: nat): (r: Run<Option<Prototype>>)
    decreases fuel, 0
  {
    if fuel == 0 then Halted(OutOfFuel)
    else
      var name := Scan(src.content, src.len, st.index).0.lexeme;
      var st1 := Advance(src, Skip(src, st));
      if st1.cur.kind == LeftParen then
        match ParsedParams(src, Advance(src, st1), [], fuel - 1)
        case Halted(a) => Halted(a)
        case Returned(params, st2) => Returned(Some(Prototype(name, params)), st2)
      else Returned(None, st1)
  }

  /** The parameter loop of `parseProto`: the lexeme of every token but a comma, up to `)`. */
  function ParsedParams(src: Source, st: PState, params: seq<string>, fuel: nat): (r: Run<seq<string>>)
    decreases fuel, 0
  {
    if st.cur.kind == RightParen then Returned(params, st)
    else if fuel == 0 then Halted(OutOfFuel)
    else
      var params' := if st.cur.kind != Comma then params + [st.cur.lexeme] else params;
      ParsedParams(src, Advance(src, st), params', fuel - 1)
  }

  /**
   * `parseGerm`: a prototype, one token dropped (meant to be `{`), the body
   * expression from the token after it, then one more token dropped (meant
   * to be `}`).
   */
  function ParsedGerm(src: Source, st: PState, fuel: nat): (r: Run<Option<FunctionDef>>)
    decreases fuel, 0
  {
    if fuel == 0 then Halted(OutOfFuel)
    else AfterProto(src, ParsedProto(src, st, fuel - 1), fuel - 1)
  }

  /** `parseGerm` once `parseProto` has returned `p`: a null prototype ends it, else the body follows. */
  function AfterProto(src: Source, p: Run<Option<Prototype>>, fuel: nat): (r: Run<Option<FunctionDef>>)
  {
    match p
    case Halted(a) => Halted(a)
    case Returned(None, st1) => Returned(None, st1)
    case Returned(Some(proto), st1) => ParsedBody(src, st1, proto, fuel)
  }

  /** The rest of `parseGerm` once the prototype has been read. */
  function ParsedBody(src: Source, st: PState, proto: Prototype, fuel: nat): (r: Run<Option<FunctionDef>>)
  {
    match ParsedExpr(src, Advance(src, Skip(src, st)), fuel)
    case Halted(a) => Halted(a)
    case Returned(None, st2) => Returned(None, st2)
    case Returned(Some(body), st2) => Returned(Some(FunctionDef(proto, body)), Skip(src, st2))
  }

  /** A routine's result as a method returns it; the state it leaves is in the parser. */
  datatype Reply<+T> = Done(value: T) | Stopped(why: Halt)

  /** A method's reply together with the state it leaves, as the functions above give them. */
  function AsRun<T>(r: Reply<T>, st: PState): Run<T>
  {
    match r
    case Done(v) => Returned(v, st)
    case Stopped(h) => Halted(h)
  }

  class Parser {
    var currtok: Token
    var content: string
    var tokenizer: Tokenizer
    var binOpPrecedence: map<char, int>

    /** `BinOpPrecedence` reads as the initial table: `operator[]` only ever adds zero entries. */
    ghost predicate Valid()
      reads this
    {
      forall c :: Lookup(binOpPrecedence, c) == Lookup(PrecedenceTable, c)
    }

    ghost function Src(): Source
      reads this, tokenizer
    {
      Source(tokenizer.content, tokenizer.fileLength)
    }

    ghost function State(): PState
      reads this, tokenizer
    {
      PState(tokenizer.index, currtok)
    }

    /** `Parser()` followed by `setup(content)`, as the REPL uses it. */
    constructor (content: string)
      ensures Valid() && fresh(tokenizer)
      ensures Src() == Source(content, |content|) && State() == Start(content)
    {
      this.content := content;
      binOpPrecedence := PrecedenceTable;
      var t := new Tokenizer(content);
      var first := t.NextTok();
      tokenizer, currtok := t, first;
    }

    /** `setup`: a new tokenizer over `content`, and its first token as `currtok`. */
    method Setup(content: string)
      requires Valid()
      modifies this
      ensures Valid() && fresh(tokenizer) && binOpPrecedence == old(binOpPrecedence)
      ensures Src() == Source(content, |content|) && State() == Start(content)
    {
      this.content := content;
      tokenizer := new Tokenizer(content);
      currtok := tokenizer.NextTok();
    }

    /** `GetPrecedence`: reads the table through `operator[]`, which inserts a missing key. */
    method GetPrecedence(c: char) returns (p: int)
      requires Valid()
      modifies this`binOpPrecedence
      ensures Valid() && p == Precedence(c)
      ensures binOpPrecedence.Keys == old(binOpPrecedence).Keys + {c}
    {
      var precedence := Lookup(binOpPrecedence, c);
      binOpPrecedence := binOpPrecedence[c := precedence];
      assert forall d :: Lookup(binOpPrecedence, d) == Lookup(old(binOpPrecedence), d);
      if precedence <= 0 {
        return -1;
      }
      return precedence;
    }

    /** `parseExpr` */
    method ParseExpr(fuel: nat) returns (r: Reply<Option<Expr>>)
      requires Valid()
      modifies this, tokenizer
      ensures Valid() && tokenizer == old(tokenizer) && Src() == old(Src())
      ensures AsRun(r, State()) == ParsedExpr(old(Src()), old(State()), fuel)
      decreases fuel, 0
    {
      if fuel == 0 {
        return Stopped(OutOfFuel);
      }
      var lhs := ParsePrimary(fuel - 1);
      if lhs.Stopped? {
        return Stopped(lhs.why);
      }
      if lhs.value.None? {
        return Done(None);
      }
      r := ParseBinOp(0, lhs.value.value, fuel - 1);
    }

    /** `parsePrimary` */
    method ParsePrimary(fuel: nat) returns (r: Reply<Option<Expr>>)
      requires Valid()
      modifies this, tokenizer
      ensures Valid() && tokenizer == old(tokenizer) && Src() == old(Src())
      ensures AsRun(r, State()) == ParsedPrimary(old(Src()), old(State()), fuel)
      decreases fuel, 0
    {
      if fuel == 0 {
        return Stopped(OutOfFuel);
      }
      if currtok.kind == NumberLiteral {
        r := ParseNumber();
      } else if currtok.kind == Identifier {
        r := ParseIdentifier(fuel - 1);
      } else if currtok.kind == LeftParen {
        r := ParseParen(fuel - 1);
      } else {
        r := Done(None);
      }
    }

    /** `parseNumber` */
    method ParseNumber() returns (r: Reply<Option<Expr>>)
      requires Valid()
      modifies this, tokenizer
      ensures Valid() && tokenizer == old(tokenizer) && Src() == old(Src())
      ensures AsRun(r, State()) == ParsedNumber(old(Src()), old(State()))
    {
      if currtok.lexeme == "" {
        return Stopped(InvalidNumber);
      }
      var value := DecimalValue(currtok.lexeme);
      if !Fits(currtok.lexeme) {
        return Stopped(OutOfRange);
      }
      currtok := tokenizer.NextTok();
      return Done(Some(Number(value)));
    }

    /** `parseIdentifier` */
    method ParseIdentifier(fuel: nat) returns (r: Reply<Option<Expr>>)
      requires Valid()
      modifies this, tokenizer
      ensures Valid() && tokenizer == old(tokenizer) && Src() == old(Src())
      ensures AsRun(r, State()) == ParsedIdentifier(old(Src()), old(State()), fuel)
      decreases fuel, 0
    {
      if fuel == 0 {
        return Stopped(OutOfFuel);
      }
      var identifier := currtok.lexeme;
      currtok := tokenizer.NextTok();
      if currtok.kind == LeftParen {
        var dropped := tokenizer.NextTok();
        var args := ParseArgs(fuel - 1);
        if args.Stopped? {
          return Stopped(args.why);
        }
        return Done(Some(Call(identifier, args.value)));
      }
      return Done(Some(Variable(identifier)));
    }

    /** The argument loop of `parseIdentifier`, from an empty argument list. */
    method ParseArgs(fuel: nat) returns (r: Reply<seq<Option<Expr>>>)
      requires Valid()
      modifies this, tokenizer
      ensures Valid() && tokenizer == old(tokenizer) && Src() == old(Src())
      ensures AsRun(r, State()) == ParsedArgs(old(Src()), old(State()), [], fuel)
      decreases fuel, 0
    {
      var args: seq<Option<Expr>> := [];
      var f: nat := fuel;
      while currtok.kind != RightParen
        invariant Valid() && tokenizer == old(tokenizer) && Src() == old(Src())
        invariant f <= fuel
        invariant ParsedArgs(Src(), State(), args, f) == ParsedArgs(old(Src()), old(State()), [], fuel)
        decreases f
      {
        if f == 0 {
          return Stopped(OutOfFuel);
        }
        if currtok.kind != Comma {
          var v := ParseExpr(f - 1);
          if v.Stopped? {
            return Stopped(v.why);
          }
          args := args + [v.value];
        }
        f := f - 1;
      }
      return Done(args);
    }

    /** `parseParen` */
    method ParseParen(fuel: nat) returns (r: Reply<Option<Expr>>)
      requires Valid()
      modifies this, tokenizer
      ensures Valid() && tokenizer == old(tokenizer) && Src() == old(Src())
      ensures AsRun(r, State()) == ParsedParen(old(Src()), old(State()), fuel)
      decreases fuel, 0
    {
      if fuel == 0 {
        return Stopped(OutOfFuel);
      }
      currtok := tokenizer.NextTok();
      var v := ParseExpr(fuel - 1);
      if v.Stopped? {
        return Stopped(v.why);
      }
      if v.value.Some? {
        var dropped := tokenizer.NextTok();
        return Done(v.value);
      }
      return Done(None);
    }

    /** `parseBinOp`: the source's `while (true)` loop, reassigning the left operand. */
    method ParseBinOp(minPrec: nat, lhs: Expr, fuel: nat) returns (r: Reply<Option<Expr>>)
      requires Valid()
      modifies this, tokenizer
      ensures Valid() && tokenizer == old(tokenizer) && Src() == old(Src())
      ensures AsRun(r, State()) == ParsedBinOp(old(Src()), old(State()), minPrec, lhs, fuel)
      decreases fuel, 0
    {
      var left := lhs;
      var f: nat := fuel;
      while true
        invariant Valid() && tokenizer == old(tokenizer) && Src() == old(Src())
        invariant f <= fuel
        invariant ParsedBinOp(Src(), State(), minPrec, left, f) == ParsedBinOp(old(Src()), old(State()), minPrec, lhs, fuel)
        decreases f
      {
        if f == 0 {
          return Stopped(OutOfFuel);
        }
        var binopcode := GetPrecedence(FirstChar(currtok.lexeme));
        if binopcode < minPrec {
          return Done(Some(left));
        }
        var rhs := ParseRhs(binopcode, f - 1);
        if rhs.Stopped? {
          return Stopped(rhs.why);
        }
        if rhs.value.None? {
          return Done(None);
        }
        left := Binary(left, rhs.value.value, binopcode);
        f := f - 1;
      }
    }

    /** The body of the loop of `parseBinOp` once operator `p` has been accepted. */
    method ParseRhs(p: nat, fuel: nat) returns (r: Reply<Option<Expr>>)
      requires Valid()
      modifies this, tokenizer
      ensures Valid() && tokenizer == old(tokenizer) && Src() == old(Src())
      ensures AsRun(r, State()) == ParsedRhs(old(Src()), old(State()), p, fuel)
      decreases fuel, 1
    {
      ghost var src, st0 := Src(), State();
      currtok := tokenizer.NextTok();
      assert State() == Advance(src, st0);
      var rhs := ParsePrimary(fuel);
      if rhs.Stopped? {
        return Stopped(rhs.why);
      }
      if rhs.value.None? {
        return Done(None);
      }
      ghost var st1 := State();
      assert ParsedPrimary(src, Advance(src, st0), fuel) == Returned(rhs.value, st1);
      var nextopcode := GetPrecedence(FirstChar(currtok.lexeme));
      assert nextopcode == CurPrecedence(st1) && State() == st1;
      if p < nextopcode {
        r := ParseBinOp(p + 1, rhs.value.value, fuel);
      } else {
        r := Done(rhs.value);
      }
    }

    /** `parseProto` */
    method ParseProto(fuel: nat) returns (r: Reply<Option<Prototype>>)
      requires Valid()
      modifies this, tokenizer
      ensures Valid() && tokenizer == old(tokenizer) && Src() == old(Src())
      ensures AsRun(r, State()) == ParsedProto(old(Src()), old(State()), fuel)
      decreases fuel, 0
    {
      if fuel == 0 {
        return Stopped(OutOfFuel);
      }
      ghost var src, st0 := Src(), State();
      var first := tokenizer.NextTok();
      var identifier := first.lexeme;
      assert State() == Skip(src, st0);
      currtok := tokenizer.NextTok();
      ghost var st1 := State();
      assert st1 == Advance(src, Skip(src, st0));
      if currtok.kind == LeftParen {
        currtok := tokenizer.NextTok();
        assert State() == Advance(src, st1);
        var args := ParseParams(fuel - 1);
        if args.Stopped? {
          return Stopped(args.why);
        }
        return Done(Some(Prototype(identifier, args.value)));
      }
      return Done(None);
    }

    /** The parameter loop of `parseProto`, from an empty parameter list. */
    method ParseParams(fuel: nat) returns (r: Reply<seq<string>>)
      requires Valid()
      modifies this, tokenizer
      ensures Valid() && tokenizer == old(tokenizer) && Src() == old(Src())
      ensures AsRun(r, State()) == ParsedParams(old(Src()), old(State()), [], fuel)
    {
      var args: seq<string> := [];
      var f: nat := fuel;
      while currtok.kind != RightParen
        invariant Valid() && tokenizer == old(tokenizer) && Src() == old(Src())
        invariant f <= fuel
        invariant ParsedParams(Src(), State(), args, f) == ParsedParams(old(Src()), old(State()), [], fuel)
        decreases f
      {
        if f == 0 {
          return Stopped(OutOfFuel);
        }
        if currtok.kind != Comma {
          args := args + [currtok.lexeme];
        }
        currtok := tokenizer.NextTok();
        f := f - 1;
      }
      return Done(args);
    }

    /** `parseGerm` */
    method ParseGerm(fuel: nat) returns (r: Reply<Option<FunctionDef>>)
      requires Valid()
      modifies this, tokenizer
      ensures Valid() && tokenizer == old(tokenizer) && Src() == old(Src())
      ensures AsRun(r, State()) == ParsedGerm(old(Src()), old(State()), fuel)
    {
      if fuel == 0 {
        return Stopped(OutOfFuel);
      }
      var proto := ParseProto(fuel - 1);
      if proto.Stopped? {
        return Stopped(proto.why);
      }
      if proto.value.None? {
        return Done(None);
      }
      r := ParseBody(proto.value.value, fuel - 1);
    }

    /** The rest of `parseGerm`: drop `{`, parse the body, drop `}`. */
    method ParseBody(proto: Prototype, fuel: nat) returns (r: Reply<Option<FunctionDef>>)
      requires Valid()
      modifies this, tokenizer
      ensures Valid() && tokenizer == old(tokenizer) && Src() == old(Src())
      ensures AsRun(r, State()) == ParsedBody(old(Src()), old(State()), proto, fuel)
    {
      var dropped := tokenizer.NextTok();
      currtok := tokenizer.NextTok();
      var body := ParseExpr(fuel);
      if body.Stopped? {
        return Stopped(body.why);
      }
      if body.value.None? {
        return Done(None);
      }
      dropped := tokenizer.NextTok();
      return Done(Some(FunctionDef(proto, body.value.value)));
    }
  }
}
