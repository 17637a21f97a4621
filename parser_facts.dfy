/**
 * What the parsing routines of interpreter.cpp guarantee for every input:
 * the cursor never moves backwards, every tree they build stores operator
 * precedences in its `Binary` nodes, and the loops collect what they should
 * or spin.
 */
module ParsingFacts {
  import opened Wrappers
  import opened Lexer
  import opened LexerFacts
  import opened Ast
  import opened Parsing

  /** A routine that returned did not move the cursor backwards. */
  ghost predicate Forward<T>(r: Run<T>, st: PState)
  {
    r.Returned? ==> st.index <= r.st.index
  }

  /** A returned expression, if any, has the parser's shape. */
  ghost predicate ShapedResult(r: Run<Option<Expr>>)
  {
    r.Returned? && r.value.Some? ==> ParserShaped(r.value.value)
  }

  /** Every non-null argument has the parser's shape. */
  ghost predicate ShapedArgs(args: seq<Option<Expr>>)
  {
    forall a :: a in args && a.Some? ==> ParserShaped(a.value)
  }

  /** `GetPrecedence` gives 10, 20 and 30 for `+`, `-` and `*`, and -1 for every other character. */
  lemma PrecedenceValues(c: char)
    ensures Precedence(c) == (if c == '+' then 10 else if c == '-' then 20 else if c == '*' then 30 else -1)
    ensures Precedence(c) >= 0 ==> IsStoredPrecedence(Precedence(c))
  {
  }

  lemma {:induction false} ExprSound(src: Source, st: PState, fuel: nat)
    ensures Forward(ParsedExpr(src, st, fuel), st) && ShapedResult(ParsedExpr(src, st, fuel))
    decreases fuel, 0
  {
    if fuel > 0 {
      PrimarySound(src, st, fuel - 1);
      match ParsedPrimary(src, st, fuel - 1)
      case Halted(_) =>
      case Returned(None, _) =>
      case Returned(Some(lhs), st1) => BinOpSound(src, st1, 0, lhs, fuel - 1);
    }
  }

  lemma {:induction false} PrimarySound(src: Source, st: PState, fuel: nat)
    ensures Forward(ParsedPrimary(src, st, fuel), st) && ShapedResult(ParsedPrimary(src, st, fuel))
    decreases fuel, 0
  {
    if fuel > 0 {
      if st.cur.kind == NumberLiteral {
      } else if st.cur.kind == Identifier {
        IdentifierSound(src, st, fuel - 1);
      } else if st.cur.kind == LeftParen {
        ParenSound(src, st, fuel - 1);
      }
    }
  }

  lemma {:induction false} IdentifierSound(src: Source, st: PState, fuel: nat)
    ensures Forward(ParsedIdentifier(src, st, fuel), st) && ShapedResult(ParsedIdentifier(src, st, fuel))
    decreases fuel, 0
  {
    if fuel > 0 {
      var st1 := Advance(src, st);
      if st1.cur.kind == LeftParen {
        ArgsSound(src, Skip(src, st1), [], fuel - 1);
      }
    }
  }

  /** The argument loop returns on `)` with the arguments it was given as a prefix. */
  lemma {:induction false} ArgsSound(src: Source, st: PState, args: seq<Option<Expr>>, fuel: nat)
    ensures var r := ParsedArgs(src, st, args, fuel);
      && Forward(r, st)
      && (r.Returned? ==> r.st.cur.kind == RightParen && |args| <= |r.value| && r.value[..|args|] == args)
      && (r.Returned? && ShapedArgs(args) ==> ShapedArgs(r.value))
    decreases fuel, 0
  {
    if st.cur.kind != RightParen && fuel > 0 {
      if st.cur.kind != Comma {
        ExprSound(src, st, fuel - 1);
        match ParsedExpr(src, st, fuel - 1)
        case Halted(_) =>
        case Returned(v, st1) =>
          ArgsSound(src, st1, args + [v], fuel - 1);
          var r := ParsedArgs(src, st1, args + [v], fuel - 1);
          if r.Returned? {
            calc {
              r.value[..|args|];
              r.value[..|args + [v]|][..|args|];
              (args + [v])[..|args|];
              args;
            }
          }
      } else {
        ArgsSound(src, st, args, fuel - 1);
      }
    }
  }

  lemma {:induction false} ParenSound(src: Source, st: PState, fuel: nat)
    ensures Forward(ParsedParen(src, st, fuel), st) && ShapedResult(ParsedParen(src, st, fuel))
    decreases fuel, 0
  {
    if fuel > 0 {
      ExprSound(src, Advance(src, st), fuel - 1);
    }
  }

  /** Folding keeps the parser's shape: every new node stores a precedence of 10, 20 or 30. */
  lemma {:induction false} BinOpSound(src: Source, st: PState, minPrec: nat, lhs: Expr, fuel: nat)
    ensures var r := ParsedBinOp(src, st, minPrec, lhs, fuel);
      && Forward(r, st)
      && (r.Returned? && r.value.Some? && ParserShaped(lhs) ==> ParserShaped(r.value.value))
    decreases fuel, 0
  {
    if fuel > 0 {
      var p := CurPrecedence(st);
      if p >= minPrec {
        RhsSound(src, st, p, fuel - 1);
        match ParsedRhs(src, st, p, fuel - 1)
        case Halted(_) =>
        case Returned(None, _) =>
        case Returned(Some(rhs), st1) =>
          PrecedenceValues(FirstChar(st.cur.lexeme));
          BinOpSound(src, st1, minPrec, Binary(lhs, rhs, p), fuel - 1);
      }
    }
  }

  lemma {:induction false} RhsSound(src: Source, st: PState, p: nat, fuel: nat)
    ensures Forward(ParsedRhs(src, st, p, fuel), st) && ShapedResult(ParsedRhs(src, st, p, fuel))
    decreases fuel, 1
  {
    PrimarySound(src, Advance(src, st), fuel);
    match ParsedPrimary(src, Advance(src, st), fuel)
    case Halted(_) =>
    case Returned(None, _) =>
    case Returned(Some(rhs), st1) =>
      if p < CurPrecedence(st1) {
        BinOpSound(src, st1, p + 1, rhs, fuel);
      }
  }

  /** The parameter loop returns on `)` with the parameters it was given as a prefix. */
  lemma {:induction false} ParamsSound(src: Source, st: PState, params: seq<string>, fuel: nat)
    ensures var r := ParsedParams(src, st, params, fuel);
      && Forward(r, st)
      && (r.Returned? ==> r.st.cur.kind == RightParen && |params| <= |r.value| && r.value[..|params|] == params)
    decreases fuel
  {
    if st.cur.kind != RightParen && fuel > 0 {
      var params' := if st.cur.kind != Comma then params + [st.cur.lexeme] else params;
      ParamsSound(src, Advance(src, st), params', fuel - 1);
      var r := ParsedParams(src, Advance(src, st), params', fuel - 1);
      if r.Returned? {
        assert r.value[..|params|] == r.value[..|params'|][..|params|];
      }
    }
  }

  lemma ProtoSound(src: Source, st: PState, fuel: nat)
    ensures Forward(ParsedProto(src, st, fuel), st)
  {
    if fuel > 0 {
      var st1 := Advance(src, Skip(src, st));
      if st1.cur.kind == LeftParen {
        ParamsSound(src, Advance(src, st1), [], fuel - 1);
      }
    }
  }

  /** The body of a definition has the parser's shape; a null body expression gives a null definition. */
  lemma BodySound(src: Source, st: PState, proto: Prototype, fuel: nat)
    ensures var r := ParsedBody(src, st, proto, fuel);
      var e := ParsedExpr(src, Advance(src, Skip(src, st)), fuel);
      && Forward(r, st)
      && (r.Returned? <==> e.Returned?)
      && (r.Returned? ==> (r.value.None? <==> e.value.None?))
      && (r.Returned? && r.value.Some? ==> r.value.value.proto == proto && ParserShaped(r.value.value.body))
  {
    ExprSound(src, Advance(src, Skip(src, st)), fuel);
  }

  /**
   * `parseGerm` once `parseProto` has returned `p`: it stops where `p`
   * stops, returns null on a null prototype, and otherwise builds the
   * definition from that prototype and a body of the parser's shape.
   */
  lemma AfterProtoSound(src: Source, st: PState, p: Run<Option<Prototype>>, fuel: nat)
    requires Forward(p, st)
    ensures var r := AfterProto(src, p, fuel);
      && Forward(r, st)
      && (p.Halted? ==> r == Halted(p.why))
      && (p.Returned? && p.value.None? ==> r == Returned(None, p.st))
      && (r.Returned? && r.value.Some? ==> p.Returned? && p.value.Some? && r.value.value.proto == p.value.value && ParserShaped(r.value.value.body))
  {
    if p.Returned? && p.value.Some? {
      BodySound(src, p.st, p.value.value, fuel);
    }
  }

  /** A non-empty digit string, which `nextTok` returns as one NumberLiteral. */
  ghost predicate Numeral(s: string)
  {
    s != [] && AllDigits(s)
  }

  /** The characters `parseBinOp` treats as operators. */
  ghost predicate IsOperator(c: char)
  {
    c == '+' || c == '-' || c == '*'
  }

  /** A maximal alphanumeric run at `i` of text read up to its full length is one token. */
  lemma WordToken(content: string, i: nat, w: string)
    requires w != [] && i + |w| <= |content|
    requires forall k :: 0 <= k < |w| ==> content[i + k] == w[k] && IsAlnum(w[k])
    requires i + |w| == |content| || !IsAlnum(content[i + |w|])
    ensures Scan(content, |content|, i) == (Token(Classify(w), w), i + |w|)
  {
    assert CharAt(content, i) == w[0];
    assert FirstNonSpaceAt(content, |content|, i, i);
    ScanWord(content, |content|, i, i, w);
  }

  /** A numeral that ends the text is one NumberLiteral token, and the cursor stops at the length. */
  lemma NumeralAtEnd(prefix: string, w: string)
    requires Numeral(w)
    ensures var content := prefix + w;
      Scan(content, |content|, |prefix|) == (Token(NumberLiteral, w), |content|)
  {
    var content := prefix + w;
    forall k | 0 <= k < |w|
      ensures content[|prefix| + k] == w[k] && IsAlnum(w[k])
    {
      assert IsDigit(w[k]);
    }
    WordToken(content, |prefix|, w);
  }

  /** One of `= + - * / ( ) { } , ;` at `i` is one token. */
  lemma CharToken(content: string, i: nat)
    requires i < |content| && SingleKind(content[i]).Some?
    ensures Scan(content, |content|, i) == (Token(SingleKind(content[i]).value, [content[i]]), i + 1)
  {
    assert FirstNonSpaceAt(content, |content|, i, i);
    ScanSingle(content, |content|, i, i);
  }

  /** The text `a o1 b o2 c`. */
  function Infix(a: string, o1: char, b: string, o2: char, c: string): string
  {
    a + [o1] + b + [o2] + c
  }

  /** Where the operands and operators of `a o1 b o2 c` sit. */
  lemma InfixText(a: string, o1: char, b: string, o2: char, c: string)
    ensures var content := Infix(a, o1, b, o2, c);
      var ib, ic := |a| + 1, |a| + |b| + 2;
      && |content| == ic + |c|
      && content[|a|] == o1 && content[ib + |b|] == o2
      && (forall k :: 0 <= k < |a| ==> content[k] == a[k])
      && (forall k :: 0 <= k < |b| ==> content[ib + k] == b[k])
      && (forall k :: 0 <= k < |c| ==> content[ic + k] == c[k])
  {
  }

  /** The tokens of `a o1 b` in `a o1 b o2 c`. */
  lemma InfixHead(a: string, o1: char, b: string, o2: char, c: string)
    requires Numeral(a) && Numeral(b) && IsOperator(o1) && IsOperator(o2)
    ensures var content := Infix(a, o1, b, o2, c);
      var src := Source(content, |content|);
      var ib := |a| + 1;
      && Start(content) == PState(|a|, Token(NumberLiteral, a))
      && Advance(src, PState(|a|, Token(NumberLiteral, a))) == PState(ib, Token(SingleKind(o1).value, [o1]))
      && Advance(src, PState(ib, Token(SingleKind(o1).value, [o1]))) == PState(ib + |b|, Token(NumberLiteral, b))
  {
    var content := Infix(a, o1, b, o2, c);
    InfixText(a, o1, b, o2, c);
    WordToken(content, 0, a);
    CharToken(content, |a|);
    WordToken(content, |a| + 1, b);
  }

  /** Once the cursor is at the recorded length, the next token is End and the cursor stays. */
  lemma AdvanceAtEnd(src: Source, st: PState)
    requires src.len <= st.index
    ensures Advance(src, st) == PState(st.index, Token(End, ""))
  {
    ExhaustedIsEnd(src.content, src.len, st.index);
  }

  /** The operator `o2` after `b` in `a o1 b o2 c`. */
  lemma InfixSecondOperator(a: string, o1: char, b: string, o2: char, c: string)
    requires Numeral(b) && IsOperator(o2)
    ensures var content := Infix(a, o1, b, o2, c);
      Advance(Source(content, |content|), PState(|a| + 1 + |b|, Token(NumberLiteral, b)))
        == PState(|a| + |b| + 2, Token(SingleKind(o2).value, [o2]))
  {
    var content := Infix(a, o1, b, o2, c);
    InfixText(a, o1, b, o2, c);
    CharToken(content, |a| + |b| + 1);
  }

  /** The last operand `c` of `a o1 b o2 c`, read up to the length. */
  lemma InfixLastOperand(a: string, o1: char, b: string, o2: char, c: string)
    requires Numeral(c) && IsOperator(o2)
    ensures var content := Infix(a, o1, b, o2, c);
      Advance(Source(content, |content|), PState(|a| + |b| + 2, Token(SingleKind(o2).value, [o2])))
        == PState(|content|, Token(NumberLiteral, c))
  {
    NumeralAtEnd(a + [o1] + b + [o2], c);
  }

  /**
   * Precedence climbing on `a o1 b o2 c` with numerals and operators among
   * `+ - *`: the tree groups to the right exactly when `o2` binds tighter
   * than `o1`, each node stores its operator's precedence, and the whole
   * input is read. So `1+2*3` and `1+2-3` group to the right while `1*2+3`
   * and `1-2+3` group to the left.
   */
  lemma {:induction false} ThreeOperands(a: string, o1: char, b: string, o2: char, c: string, fuel: nat)
    requires Numeral(a) && Numeral(b) && Numeral(c) && IsOperator(o1) && IsOperator(o2)
    requires Fits(a) && Fits(b) && Fits(c)
    requires fuel >= 4
    ensures var content := Infix(a, o1, b, o2, c);
      var p1, p2 := Precedence(o1), Precedence(o2);
      var na, nb, nc := Number(DecimalValue(a)), Number(DecimalValue(b)), Number(DecimalValue(c));
      ParsedExpr(Source(content, |content|), Start(content), fuel)
        == Returned(Some(if p1 < p2 then Binary(na, Binary(nb, nc, p2), p1) else Binary(Binary(na, nb, p1), nc, p2)),
                    PState(|content|, Token(End, "")))
  {
    var content := Infix(a, o1, b, o2, c);
    var n := |content|;
    var src := Source(content, n);
    var p1, p2 := Precedence(o1), Precedence(o2);
    PrecedenceValues(o1);
    PrecedenceValues(o2);
    PrecedenceValues(NUL);
    InfixHead(a, o1, b, o2, c);
    InfixSecondOperator(a, o1, b, o2, c);
    InfixLastOperand(a, o1, b, o2, c);
    AdvanceAtEnd(src, PState(n, Token(NumberLiteral, c)));
    var ib, ic := |a| + 1, |a| + |b| + 2;
    var st1 := PState(ib, Token(SingleKind(o1).value, [o1]));
    var st3 := PState(ic, Token(SingleKind(o2).value, [o2]));
    var st5 := PState(n, Token(End, ""));
    assert CurPrecedence(st1) == p1 && CurPrecedence(st3) == p2 && CurPrecedence(st5) == -1;
    ClimbThree(src, Start(content), st1, PState(ib + |b|, Token(NumberLiteral, b)), st3, PState(n, Token(NumberLiteral, c)), st5, fuel);
  }

  /**
   * Precedence climbing over the token states of `a o1 b o2 c`: three
   * numbers with two operators between them and a token of no precedence
   * after them.
   */
  lemma {:induction false} ClimbThree(src: Source, st0: PState, st1: PState, st2: PState, st3: PState, st4: PState, st5: PState, fuel: nat)
    requires fuel >= 4
    requires st0.cur.kind == NumberLiteral && st2.cur.kind == NumberLiteral && st4.cur.kind == NumberLiteral
    requires st0.cur.lexeme != [] && st2.cur.lexeme != [] && st4.cur.lexeme != []
    requires Fits(st0.cur.lexeme) && Fits(st2.cur.lexeme) && Fits(st4.cur.lexeme)
    requires Advance(src, st0) == st1 && Advance(src, st1) == st2 && Advance(src, st2) == st3
    requires Advance(src, st3) == st4 && Advance(src, st4) == st5
    requires CurPrecedence(st1) >= 0 && CurPrecedence(st3) >= 0 && CurPrecedence(st5) < 0
    ensures var p1, p2 := CurPrecedence(st1), CurPrecedence(st3);
      var na, nb, nc := Number(DecimalValue(st0.cur.lexeme)), Number(DecimalValue(st2.cur.lexeme)), Number(DecimalValue(st4.cur.lexeme));
      ParsedExpr(src, st0, fuel)
        == Returned(Some(if p1 < p2 then Binary(na, Binary(nb, nc, p2), p1) else Binary(Binary(na, nb, p1), nc, p2)), st5)
  {
    var p1, p2 := CurPrecedence(st1), CurPrecedence(st3);
    var na, nb, nc := Number(DecimalValue(st0.cur.lexeme)), Number(DecimalValue(st2.cur.lexeme)), Number(DecimalValue(st4.cur.lexeme));
    assert ParsedPrimary(src, st0, fuel - 1) == Returned(Some(na), st1);
    assert ParsedPrimary(src, st2, fuel - 2) == Returned(Some(nb), st3);
    assert ParsedPrimary(src, st4, fuel - 3) == Returned(Some(nc), st5);
    assert ParsedRhs(src, st3, p2, fuel - 3) == Returned(Some(nc), st5);
    if p1 < p2 {
      assert ParsedBinOp(src, st3, p1 + 1, nb, fuel - 2) == Returned(Some(Binary(nb, nc, p2)), st5);
      assert ParsedRhs(src, st1, p1, fuel - 2) == Returned(Some(Binary(nb, nc, p2)), st5);
      var whole := Binary(na, Binary(nb, nc, p2), p1);
      assert ParsedBinOp(src, st5, 0, whole, fuel - 2) == Returned(Some(whole), st5);
      assert ParsedBinOp(src, st1, 0, na, fuel - 1) == Returned(Some(whole), st5);
    } else {
      assert ParsedRhs(src, st1, p1, fuel - 2) == Returned(Some(nb), st3);
      assert ParsedBinOp(src, st3, 0, Binary(na, nb, p1), fuel - 2)
        == Returned(Some(Binary(Binary(na, nb, p1), nc, p2)), st5);
    }
  }

  /** A character `nextTok` has no token for: not blank, not one of the single-character tokens, not alphanumeric. */
  ghost predicate Unknown(c: char)
  {
    !IsSpace(c) && SingleKind(c).None? && !IsAlnum(c)
  }

  /** An unknown character at `i` gives (NumberLiteral, "") and the cursor stays on it. */
  lemma UnknownToken(content: string, i: nat)
    requires i < |content| && Unknown(content[i])
    ensures Scan(content, |content|, i) == (Token(NumberLiteral, ""), i)
  {
    assert FirstNonSpaceAt(content, |content|, i, i);
    ScanUnknownStalls(content, |content|, i, i);
  }

  /** The text `(a o1 b) o2 c`. */
  function ParenInfix(a: string, o1: char, b: string, o2: char, c: string): string
  {
    "(" + a + [o1] + b + ")" + [o2] + c
  }

  lemma ParenInfixText(a: string, o1: char, b: string, o2: char, c: string)
    ensures var content := ParenInfix(a, o1, b, o2, c);
      var ia, ib := 1 + |a|, 2 + |a| + |b|;
      && |content| == ib + 2 + |c|
      && content[0] == '(' && content[ia] == o1 && content[ib] == ')' && content[ib + 1] == o2
      && (forall k :: 0 <= k < |a| ==> content[1 + k] == a[k])
      && (forall k :: 0 <= k < |b| ==> content[ia + 1 + k] == b[k])
  {
  }

  /** The tokens of `(a o1 b` in `(a o1 b) o2 c`. */
  lemma ParenInfixOpening(a: string, o1: char, b: string, o2: char, c: string)
    requires Numeral(a) && Numeral(b) && IsOperator(o1)
    ensures var content := ParenInfix(a, o1, b, o2, c);
      var src := Source(content, |content|);
      var ia := 1 + |a|;
      && Start(content) == PState(1, Token(LeftParen, "("))
      && Advance(src, PState(1, Token(LeftParen, "("))) == PState(ia, Token(NumberLiteral, a))
      && Advance(src, PState(ia, Token(NumberLiteral, a))) == PState(ia + 1, Token(SingleKind(o1).value, [o1]))
  {
    var content := ParenInfix(a, o1, b, o2, c);
    ParenInfixText(a, o1, b, o2, c);
    CharToken(content, 0);
    WordToken(content, 1, a);
    CharToken(content, 1 + |a|);
  }

  /** The operand `b` in `(a o1 b) o2 c`. */
  lemma ParenInfixSecondOperand(a: string, o1: char, b: string, o2: char, c: string)
    requires Numeral(b) && IsOperator(o1) && IsOperator(o2)
    ensures var content := ParenInfix(a, o1, b, o2, c);
      var ib := 2 + |a| + |b|;
      Advance(Source(content, |content|), PState(ib - |b|, Token(SingleKind(o1).value, [o1]))) == PState(ib, Token(NumberLiteral, b))
  {
    var content := ParenInfix(a, o1, b, o2, c);
    ParenInfixText(a, o1, b, o2, c);
    WordToken(content, 2 + |a|, b);
  }

  /** The `)` after `b` in `(a o1 b) o2 c`, and the operator after it that `parseParen` drops. */
  lemma ParenInfixClosing(a: string, o1: char, b: string, o2: char, c: string)
    requires IsOperator(o2)
    ensures var content := ParenInfix(a, o1, b, o2, c);
      var src := Source(content, |content|);
      var ib := 2 + |a| + |b|;
      && Advance(src, PState(ib, Token(NumberLiteral, b))) == PState(ib + 1, Token(RightParen, ")"))
      && Skip(src, PState(ib + 1, Token(RightParen, ")"))) == PState(ib + 2, Token(RightParen, ")"))
  {
    var content := ParenInfix(a, o1, b, o2, c);
    var ib := 2 + |a| + |b|;
    ParenInfixText(a, o1, b, o2, c);
    CharToken(content, ib);
    CharToken(content, ib + 1);
  }

  /**
   * `parseParen` drops the token after `)` while `currtok` stays on `)`, so
   * the operator after a parenthesised expression is lost: `(a o1 b) o2 c`
   * gives the same tree as `a o1 b`, and `c` is never read. `(1+2)*3` gives
   * the tree of `1+2`.
   */
  lemma {:induction false} ParenSwallowsOperator(a: string, o1: char, b: string, o2: char, c: string, fuel: nat)
    requires Numeral(a) && Numeral(b) && Numeral(c) && IsOperator(o1) && IsOperator(o2)
    requires Fits(a) && Fits(b)
    requires fuel >= 6
    ensures var content := ParenInfix(a, o1, b, o2, c);
      ParsedExpr(Source(content, |content|), Start(content), fuel)
        == Returned(Some(Binary(Number(DecimalValue(a)), Number(DecimalValue(b)), Precedence(o1))),
                    PState(4 + |a| + |b|, Token(RightParen, ")")))
  {
    var content := ParenInfix(a, o1, b, o2, c);
    var src := Source(content, |content|);
    var p1 := Precedence(o1);
    PrecedenceValues(o1);
    PrecedenceValues(')');
    ParenInfixOpening(a, o1, b, o2, c);
    ParenInfixSecondOperand(a, o1, b, o2, c);
    ParenInfixClosing(a, o1, b, o2, c);
    var na, nb := Number(DecimalValue(a)), Number(DecimalValue(b));
    var ia, ib := 1 + |a|, 2 + |a| + |b|;
    var st0 := PState(1, Token(LeftParen, "("));
    var st1 := PState(ia, Token(NumberLiteral, a));
    var st2 := PState(ia + 1, Token(SingleKind(o1).value, [o1]));
    var st3 := PState(ib, Token(NumberLiteral, b));
    var st4 := PState(ib + 1, Token(RightParen, ")"));
    var st5 := PState(ib + 2, Token(RightParen, ")"));
    var tree := Binary(na, nb, p1);
    assert CurPrecedence(st2) == p1 && CurPrecedence(st4) == -1 && CurPrecedence(st5) == -1;
    assert ParsedPrimary(src, st1, fuel - 4) == Returned(Some(na), st2);
    assert ParsedRhs(src, st2, p1, fuel - 5) == Returned(Some(nb), st4);
    assert ParsedBinOp(src, st4, 0, tree, fuel - 5) == Returned(Some(tree), st4);
    assert ParsedExpr(src, st1, fuel - 3) == Returned(Some(tree), st4);
    assert ParsedParen(src, st0, fuel - 2) == Returned(Some(tree), st5);
  }

  /**
   * A character with no token of its own, such as `<`, ends an expression:
   * `nextTok` returns (NumberLiteral, "") there, whose first character '\0'
   * has precedence -1. So `a<b` parses as `a`, with the cursor left on `<`.
   */
  lemma {:induction false} UnknownEndsExpression(a: string, u: char, rest: string, fuel: nat)
    requires Numeral(a) && Fits(a) && Unknown(u) && fuel >= 2
    ensures var content := a + [u] + rest;
      ParsedExpr(Source(content, |content|), Start(content), fuel)
        == Returned(Some(Number(DecimalValue(a))), PState(|a|, Token(NumberLiteral, "")))
  {
    var content := a + [u] + rest;
    var src := Source(content, |content|);
    assert forall k :: 0 <= k < |a| ==> content[k] == a[k];
    assert content[|a|] == u;
    WordToken(content, 0, a);
    UnknownToken(content, |a|);
    PrecedenceValues(NUL);
    var st1 := PState(|a|, Token(NumberLiteral, ""));
    assert Advance(src, PState(|a|, Token(NumberLiteral, a))) == st1;
    assert CurPrecedence(st1) == -1;
  }

  /** An expression that starts with an unknown character reaches `stod("")`, which throws. */
  lemma UnknownFirstCharacterThrows(u: char, rest: string, fuel: nat)
    requires Unknown(u) && fuel >= 2
    ensures var content := [u] + rest;
      ParsedExpr(Source(content, |content|), Start(content), fuel) == Halted(InvalidNumber)
  {
    var content := [u] + rest;
    assert content[0] == u;
    UnknownToken(content, 0);
  }

  /** A comma in the argument loop is never consumed: the loop spins whatever the fuel. */
  lemma {:induction false} ArgsSpinOnComma(src: Source, st: PState, args: seq<Option<Expr>>, fuel: nat)
    requires st.cur.kind == Comma
    ensures ParsedArgs(src, st, args, fuel) == Halted(OutOfFuel)
    decreases fuel
  {
    if fuel > 0 {
      ArgsSpinOnComma(src, st, args, fuel - 1);
    }
  }

  /** Input that ends inside an argument list makes the loop append null arguments forever. */
  lemma {:induction false} ArgsSpinAtEnd(src: Source, st: PState, args: seq<Option<Expr>>, fuel: nat)
    requires st.cur.kind == End && src.len <= st.index
    ensures ParsedArgs(src, st, args, fuel) == Halted(OutOfFuel)
    decreases fuel
  {
    if fuel > 2 {
      assert ParsedPrimary(src, st, fuel - 2) == Returned(None, st);
      assert ParsedExpr(src, st, fuel - 1) == Returned(None, st);
      ArgsSpinAtEnd(src, st, args + [None], fuel - 1);
    } else if fuel > 0 {
      assert ParsedExpr(src, st, fuel - 1) == Halted(OutOfFuel);
    }
  }

  /** The state after `n` more calls of `nextTok` stored in `currtok`. */
  ghost function After(src: Source, st: PState, n: nat): PState
    decreases n
  {
    if n == 0 then st else After(src, Advance(src, st), n - 1)
  }

  /** The lexemes of the first `n` tokens from `st.cur` on, commas left out. */
  ghost function NonCommaLexemes(src: Source, st: PState, n: nat): seq<string>
    decreases n
  {
    if n == 0 then []
    else (if st.cur.kind != Comma then [st.cur.lexeme] else []) + NonCommaLexemes(src, Advance(src, st), n - 1)
  }

  /**
   * When the `n`-th token from `st.cur` on is the first `)`, the parameter loop
   * appends the lexemes of the tokens before it, commas left out, in order,
   * and stops on that `)`.
   */
  lemma {:induction false} ParamsCollect(src: Source, st: PState, params: seq<string>, n: nat, fuel: nat)
    requires forall k :: 0 <= k < n ==> After(src, st, k).cur.kind != RightParen
    requires After(src, st, n).cur.kind == RightParen
    requires n <= fuel
    ensures ParsedParams(src, st, params, fuel) == Returned(params + NonCommaLexemes(src, st, n), After(src, st, n))
    decreases n
  {
    if n > 0 {
      var next := Advance(src, st);
      assert After(src, st, 0).cur.kind != RightParen;
      forall k | 0 <= k < n - 1
        ensures After(src, next, k).cur.kind != RightParen
      {
        assert After(src, st, k + 1) == After(src, next, k);
      }
      var params' := if st.cur.kind != Comma then params + [st.cur.lexeme] else params;
      assert After(src, st, n) == After(src, next, n - 1);
      ParamsCollect(src, next, params', n - 1, fuel - 1);
      var rest := NonCommaLexemes(src, next, n - 1);
      assert NonCommaLexemes(src, st, n) == (if st.cur.kind != Comma then [st.cur.lexeme] else []) + rest;
      if st.cur.kind != Comma {
        assert params' + rest == params + ([st.cur.lexeme] + rest);
      } else {
        assert [] + rest == rest;
      }
      assert ParsedParams(src, st, params, fuel) == ParsedParams(src, next, params', fuel - 1);
    } else {
      assert params + [] == params;
    }
  }

  /** A parameter list that is never closed makes the parameter loop spin at End, appending empty names. */
  lemma {:induction false} ParamsSpinAtEnd(src: Source, st: PState, params: seq<string>, fuel: nat)
    requires st.cur.kind == End && src.len <= st.index
    ensures ParsedParams(src, st, params, fuel) == Halted(OutOfFuel)
    decreases fuel
  {
    if fuel > 0 {
      ExhaustedIsEnd(src.content, src.len, st.index);
      ParamsSpinAtEnd(src, Advance(src, st), params + [st.cur.lexeme], fuel - 1);
    }
  }

  /** A non-empty alphanumeric run. */
  ghost predicate Word(w: string)
  {
    w != [] && forall k :: 0 <= k < |w| ==> IsAlnum(w[k])
  }

  /** A word `nextTok` classifies as an Identifier. */
  ghost predicate Name(w: string)
  {
    Word(w) && !AllDigits(w) && w != "germ"
  }

  lemma CallText(f: string, x: string, tail: string)
    requires |tail| > 0
    ensures var content := f + "(" + x + tail;
      var ix := |f| + 1 + |x|;
      && |content| == ix + |tail|
      && (forall k :: 0 <= k < |f| ==> content[k] == f[k])
      && (forall k :: 0 <= k < |x| ==> content[|f| + 1 + k] == x[k])
      && content[|f|] == '(' && content[ix] == tail[0]
  {
  }

  /** The tokens of `f(` in `f(x)` or `f(x,y)`. */
  lemma CallHead(f: string, x: string, tail: string)
    requires Name(f) && Word(x) && |tail| > 0
    ensures var content := f + "(" + x + tail;
      var src := Source(content, |content|);
      && Start(content) == PState(|f|, Token(Identifier, f))
      && Advance(src, PState(|f|, Token(Identifier, f))) == PState(|f| + 1, Token(LeftParen, "("))
  {
    var content := f + "(" + x + tail;
    CallText(f, x, tail);
    WordToken(content, 0, f);
    CharToken(content, |f|);
  }

  /** The token `x` that the call branch drops, and the one after it. */
  lemma CallArgument(f: string, x: string, tail: string)
    requires Name(f) && Word(x) && |tail| > 0 && SingleKind(tail[0]).Some?
    ensures var content := f + "(" + x + tail;
      var src := Source(content, |content|);
      var ix := |f| + 1 + |x|;
      && Skip(src, PState(|f| + 1, Token(LeftParen, "("))) == PState(ix, Token(LeftParen, "("))
      && Advance(src, PState(ix, Token(LeftParen, "("))) == PState(ix + 1, Token(SingleKind(tail[0]).value, [tail[0]]))
  {
    var content := f + "(" + x + tail;
    CallText(f, x, tail);
    WordToken(content, |f| + 1, x);
    CharToken(content, |f| + 1 + |x|);
  }

  /**
   * With `(` current and a token after it that cannot start a primary,
   * `parseExpr` goes through `parseParen` and returns null, leaving that
   * token current; with too little fuel it stops.
   */
  lemma EmptyParen(src: Source, st: PState, fuel: nat)
    requires st.cur.kind == LeftParen
    requires var k := Advance(src, st).cur.kind; k != NumberLiteral && k != Identifier && k != LeftParen
    ensures ParsedExpr(src, st, fuel) == if fuel >= 5 then Returned(None, Advance(src, st)) else Halted(OutOfFuel)
  {
    var next := Advance(src, st);
    if fuel >= 5 {
      assert ParsedPrimary(src, next, fuel - 4) == Returned(None, next);
      assert ParsedExpr(src, next, fuel - 3) == Returned(None, next);
      assert ParsedParen(src, st, fuel - 2) == Returned(None, next);
      assert ParsedPrimary(src, st, fuel - 1) == Returned(None, next);
    } else if fuel >= 3 {
      assert ParsedExpr(src, next, fuel - 3) == Halted(OutOfFuel);
      assert ParsedParen(src, st, fuel - 2) == Halted(OutOfFuel);
      assert ParsedPrimary(src, st, fuel - 1) == Halted(OutOfFuel);
      assert ParsedExpr(src, st, fuel) == Halted(OutOfFuel);
    } else if fuel > 0 {
      assert ParsedPrimary(src, st, fuel - 1) == Halted(OutOfFuel);
    }
  }

  /**
   * An identifier followed by `(`: the token after `(` is dropped and the
   * argument loop starts on `(`. When `)` follows the dropped token, the
   * result is a call with one null argument.
   */
  lemma {:induction false} CallWithNullArgument(src: Source, st: PState, fuel: nat)
    requires st.cur.kind == Identifier && fuel >= 9
    requires var s1 := Advance(src, st);
      s1.cur.kind == LeftParen && Advance(src, Skip(src, s1)).cur == Token(RightParen, ")")
    ensures ParsedExpr(src, st, fuel)
      == Returned(Some(Call(st.cur.lexeme, [None])), Advance(src, Skip(src, Advance(src, st))))
  {
    var s2 := Skip(src, Advance(src, st));
    var s3 := Advance(src, s2);
    PrecedenceValues(')');
    EmptyParen(src, s2, fuel - 4);
    var none: seq<Option<Expr>> := [None];
    assert [] + none == none;
    assert ParsedArgs(src, s2, [], fuel - 3) == Returned(none, s3);
    assert ParsedPrimary(src, st, fuel - 1) == Returned(Some(Call(st.cur.lexeme, none)), s3);
    assert CurPrecedence(s3) == -1;
  }

  /** When a comma follows the dropped token instead, the argument loop spins on it. */
  lemma {:induction false} CallSpinsOnComma(src: Source, st: PState, fuel: nat)
    requires st.cur.kind == Identifier
    requires var s1 := Advance(src, st);
      s1.cur.kind == LeftParen && Advance(src, Skip(src, s1)).cur.kind == Comma
    ensures ParsedExpr(src, st, fuel) == Halted(OutOfFuel)
  {
    var s2 := Skip(src, Advance(src, st));
    var s3 := Advance(src, s2);
    if fuel >= 4 {
      EmptyParen(src, s2, fuel - 4);
      if fuel >= 9 {
        var none: seq<Option<Expr>> := [None];
        assert [] + none == none;
        ArgsSpinOnComma(src, s3, none, fuel - 4);
      }
      assert ParsedArgs(src, s2, [], fuel - 3) == Halted(OutOfFuel);
    }
    if fuel >= 2 {
      assert ParsedPrimary(src, st, fuel - 1) == Halted(OutOfFuel);
    }
  }

  /**
   * `f(x)` is a call with one null argument: the token `x` is dropped, so
   * the argument loop starts on `(`, which `parseParen` takes for a
   * parenthesised expression that ends at once on `)`.
   */
  lemma CallDropsArgument(f: string, x: string, fuel: nat)
    requires Name(f) && Word(x) && fuel >= 9
    ensures var content := f + "(" + x + ")";
      ParsedExpr(Source(content, |content|), Start(content), fuel)
        == Returned(Some(Call(f, [None])), PState(|content|, Token(RightParen, ")")))
  {
    CallHead(f, x, ")");
    CallArgument(f, x, ")");
    var content := f + "(" + x + ")";
    CallWithNullArgument(Source(content, |content|), Start(content), fuel);
  }

  /** `f(x,y)` never finishes: after the null first argument the loop spins on the comma. */
  lemma TwoArgumentsSpin(f: string, x: string, y: string, fuel: nat)
    requires Name(f) && Word(x)
    ensures var content := f + "(" + x + "," + y + ")";
      ParsedExpr(Source(content, |content|), Start(content), fuel) == Halted(OutOfFuel)
  {
    var tail := "," + y + ")";
    var content := f + "(" + x + "," + y + ")";
    assert content == f + "(" + x + tail;
    CallHead(f, x, tail);
    CallArgument(f, x, tail);
    CallSpinsOnComma(Source(content, |content|), Start(content), fuel);
  }

  /** The shortest decimal numeral of `n`. */
  function Decimal(n: nat): (s: string)
    ensures s != [] && AllDigits(s)
    ensures n > 0 ==> s[0] != '0'
    decreases n
  {
    if n < 10 then [('0' as int + n) as char]
    else Decimal(n / 10) + [('0' as int + n % 10) as char]
  }

  /** The value of the shortest numeral of `n` is `n`. */
  lemma {:induction false} DecimalRoundTrip(n: nat)
    ensures DecimalValue(Decimal(n)) == n
    decreases n
  {
    if n >= 10 {
      DecimalRoundTrip(n / 10);
      var s := Decimal(n);
      assert s[..|s| - 1] == Decimal(n / 10);
    }
  }

  /**
   * `parseNumber` on the shortest numeral of `n` gives the number `n`, or
   * stops with `out_of_range` from 2^1024 - 2^970 on.
   */
  lemma NumberRoundTrip(src: Source, st: PState, n: nat)
    requires st.cur.lexeme == Decimal(n)
    ensures ParsedNumber(src, st)
      == if n < DoubleOverflow then Returned(Some(Number(n)), Advance(src, st)) else Halted(OutOfRange)
  {
    DecimalRoundTrip(n);
  }

  /** A leading zero does not change the value. */
  lemma {:induction false} LeadingZero(s: string)
    ensures DecimalValue(['0'] + s) == DecimalValue(s)
    decreases |s|
  {
    if s != [] {
      var t := ['0'] + s;
      assert t[..|t| - 1] == ['0'] + s[..|s| - 1];
      LeadingZero(s[..|s| - 1]);
    }
  }

  function Pow10(k: nat): (p: nat)
    ensures p > 0
  {
    if k == 0 then 1 else 10 * Pow10(k - 1)
  }

  /** A numeral of `k` digits is below 10^k. */
  lemma {:induction false} NumeralBelow(s: string)
    ensures DecimalValue(s) < Pow10(|s|)
    decreases |s|
  {
    if s != [] {
      NumeralBelow(s[..|s| - 1]);
    }
  }

  /** A numeral of `k` digits whose first digit is not `0` is at least 10^(k-1). */
  lemma {:induction false} NumeralAtLeast(s: string)
    requires s != [] && AllDigits(s) && s[0] != '0'
    ensures DecimalValue(s) >= Pow10(|s| - 1)
    decreases |s|
  {
    if |s| > 1 {
      var t := s[..|s| - 1];
      assert t[0] == s[0];
      NumeralAtLeast(t);
    }
  }

  lemma {:induction false} Pow10Add(j: nat, k: nat)
    ensures Pow10(j + k) == Pow10(j) * Pow10(k)
    decreases k
  {
    if k > 0 {
      Pow10Add(j, k - 1);
    }
  }

  /** 10^308 and 10^309, by repeated squaring. */
  lemma Pow10Bounds()
    ensures Pow10(308) < DoubleOverflow < Pow10(309)
  {
    assert Pow10(1) == 10;
    Pow10Add(1, 1);
    assert Pow10(2) == 100;
    Pow10Add(2, 2);
    assert Pow10(4) == 10000;
    Pow10Add(4, 4);
    assert Pow10(8) == 100000000;
    Pow10Add(8, 8);
    assert Pow10(16) == 10000000000000000;
    Pow10Add(16, 16);
    assert Pow10(32) == 100000000000000000000000000000000;
    Pow10Add(32, 32);
    assert Pow10(64) == 10000000000000000000000000000000000000000000000000000000000000000;
    Pow10Add(64, 64);
    assert Pow10(128) == 100000000000000000000000000000000000000000000000000000000000000000000000000000000000000000000000000000000000000000000000000000000;
    Pow10Add(128, 128);
    assert Pow10(256) == 10000000000000000000000000000000000000000000000000000000000000000000000000000000000000000000000000000000000000000000000000000000000000000000000000000000000000000000000000000000000000000000000000000000000000000000000000000000000000000000000000000000000000000;
    Pow10Add(256, 32);
    assert Pow10(288) == 1000000000000000000000000000000000000000000000000000000000000000000000000000000000000000000000000000000000000000000000000000000000000000000000000000000000000000000000000000000000000000000000000000000000000000000000000000000000000000000000000000000000000000000000000000000000000000000000000;
    Pow10Add(288, 16);
    assert Pow10(304) == 10000000000000000000000000000000000000000000000000000000000000000000000000000000000000000000000000000000000000000000000000000000000000000000000000000000000000000000000000000000000000000000000000000000000000000000000000000000000000000000000000000000000000000000000000000000000000000000000000000000000000000;
    Pow10Add(304, 4);
    assert Pow10(308) == 100000000000000000000000000000000000000000000000000000000000000000000000000000000000000000000000000000000000000000000000000000000000000000000000000000000000000000000000000000000000000000000000000000000000000000000000000000000000000000000000000000000000000000000000000000000000000000000000000000000000000000000;
    Pow10Add(308, 1);
    assert Pow10(309) == 1000000000000000000000000000000000000000000000000000000000000000000000000000000000000000000000000000000000000000000000000000000000000000000000000000000000000000000000000000000000000000000000000000000000000000000000000000000000000000000000000000000000000000000000000000000000000000000000000000000000000000000000;
  }

  lemma {:induction false} Pow10Grows(j: nat, k: nat)
    requires j <= k
    ensures Pow10(j) <= Pow10(k)
    decreases k
  {
    if j < k {
      Pow10Grows(j, k - 1);
    }
  }

  /** Every numeral of at most 308 digits fits in a double. */
  lemma ShortNumeralsFit(s: string)
    requires |s| <= 308
    ensures Fits(s)
  {
    NumeralBelow(s);
    Pow10Grows(|s|, 308);
    Pow10Bounds();
  }

  /** A numeral of 310 digits or more without a leading zero makes `stod` throw `out_of_range`. */
  lemma LongNumeralsThrow(s: string)
    requires |s| >= 310 && AllDigits(s) && s[0] != '0'
    ensures !Fits(s)
  {
    NumeralAtLeast(s);
    Pow10Grows(309, |s| - 1);
    Pow10Bounds();
  }
}
