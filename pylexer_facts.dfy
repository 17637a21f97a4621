/** What the Python `tokenizer` promises, stated over `Lex`. */
module PyLexerFacts {
  import opened Wrappers
  import opened PyLexer

  /** A character that ends up in some token: one of the one-character tokens, or a good character. */
  predicate Kept(c: char)
  {
    PunctKind(c).Some? || IsGoodAscii(c)
  }

  /** The text from index `i` on with every character that yields no token removed. */
  function KeptFrom(s: string, i: nat): string
    requires i <= |s|
    decreases |s| - i
  {
    if i == |s| then [] else (if Kept(s[i]) then [s[i]] else []) + KeptFrom(s, i + 1)
  }

  /** The lexemes of `ts`, one after the other. */
  function Lexemes(ts: seq<PyToken>): string
  {
    if ts == [] then [] else ts[0].lexeme + Lexemes(ts[1..])
  }

  /** A token the tokenizer can produce: a one-character token of its kind, or a run of good characters classified by `ClassifyRun`. */
  predicate WellFormed(t: PyToken)
  {
    || (|t.lexeme| == 1 && PunctKind(t.lexeme[0]) == Some(t.kind))
    || (&& |t.lexeme| > 0
        && (forall k :: 0 <= k < |t.lexeme| ==> IsGoodAscii(t.lexeme[k]))
        && t.kind == ClassifyRun(t.lexeme))
  }

  /** None of the one-character tokens is a good character. */
  lemma PunctNotGood(c: char)
    requires PunctKind(c).Some?
    ensures !IsGoodAscii(c)
  {
  }

  /** `RunEnd` stops at the first character that is not good. */
  lemma {:induction false} RunEndSpec(s: string, i: nat)
    requires i <= |s|
    ensures forall k :: i <= k < RunEnd(s, i) ==> IsGoodAscii(s[k])
    ensures RunEnd(s, i) == |s| || !IsGoodAscii(s[RunEnd(s, i)])
    decreases |s| - i
  {
    if i < |s| && IsGoodAscii(s[i]) {
      RunEndSpec(s, i + 1);
    }
  }

  /**
   * The tokenizer raises IndexError exactly when the text (from `i` on) is
   * not empty and its last character is good: the run holding that last
   * character reads one past the end.
   */
  lemma {:induction false} ErrorIffEndsInGood(s: string, i: nat)
    requires i <= |s|
    ensures Lex(s, i).Err? <==> i < |s| && IsGoodAscii(s[|s| - 1])
    decreases |s| - i
  {
    if i < |s| {
      if PunctKind(s[i]).Some? {
        PunctNotGood(s[i]);
        ErrorIffEndsInGood(s, i + 1);
      } else if !IsGoodAscii(s[i]) {
        ErrorIffEndsInGood(s, i + 1);
      } else {
        var j := RunEnd(s, i + 1);
        RunEndSpec(s, i + 1);
        if j < |s| {
          ErrorIffEndsInGood(s, j);
        } else if i < |s| - 1 {
          assert IsGoodAscii(s[|s| - 1]);
        }
      }
    }
  }

  /** Every character from `i` up to `j` is good, so all of them are kept. */
  lemma {:induction false} KeptRun(s: string, i: nat, j: nat)
    requires i <= j <= |s|
    requires forall k :: i <= k < j ==> IsGoodAscii(s[k])
    ensures KeptFrom(s, i) == s[i..j] + KeptFrom(s, j)
    decreases j - i
  {
    if i < j {
      KeptRun(s, i + 1, j);
      calc {
        KeptFrom(s, i);
        [s[i]] + KeptFrom(s, i + 1);
        [s[i]] + (s[i + 1..j] + KeptFrom(s, j));
        ([s[i]] + s[i + 1..j]) + KeptFrom(s, j);
        { assert [s[i]] + s[i + 1..j] == s[i..j]; }
        s[i..j] + KeptFrom(s, j);
      }
    }
  }

  lemma LexemesCons(t: PyToken, ts: seq<PyToken>)
    ensures Lexemes([t] + ts) == t.lexeme + Lexemes(ts)
  {
    assert ([t] + ts)[1..] == ts;
  }

  /**
   * Tokens come in source order and lose nothing: their lexemes, one after
   * the other, are the text with every character that yields no token removed.
   */
  lemma {:induction false} LexemesAreKeptText(s: string, i: nat)
    requires i <= |s| && Lex(s, i).Ok?
    ensures Lexemes(Lex(s, i).value) == KeptFrom(s, i)
    decreases |s| - i
  {
    if i < |s| {
      match PunctKind(s[i])
      case Some(k) =>
        LexemesAreKeptText(s, i + 1);
        LexemesCons(PyToken(k, [s[i]]), Lex(s, i + 1).value);
      case None =>
        if !IsGoodAscii(s[i]) {
          LexemesAreKeptText(s, i + 1);
        } else {
          var j := RunEnd(s, i + 1);
          RunEndSpec(s, i + 1);
          LexemesAreKeptText(s, j);
          KeptRun(s, i, j);
          LexemesCons(PyToken(ClassifyRun(s[i..j]), s[i..j]), Lex(s, j).value);
        }
    }
  }

  /** Every token produced is a one-character token of its kind or a classified run of good characters. */
  lemma {:induction false} TokensWellFormed(s: string, i: nat)
    requires i <= |s| && Lex(s, i).Ok?
    ensures forall t :: t in Lex(s, i).value ==> WellFormed(t)
    decreases |s| - i
  {
    if i < |s| {
      match PunctKind(s[i])
      case Some(k) =>
        TokensWellFormed(s, i + 1);
      case None =>
        if !IsGoodAscii(s[i]) {
          TokensWellFormed(s, i + 1);
        } else {
          var j := RunEnd(s, i + 1);
          RunEndSpec(s, i + 1);
          TokensWellFormed(s, j);
          var w := s[i..j];
          assert forall k :: 0 <= k < |w| ==> IsGoodAscii(w[k]) by {
            forall k | 0 <= k < |w|
              ensures IsGoodAscii(w[k])
            {
              assert w[k] == s[i + k];
            }
          }
        }
    }
  }

  /**
   * A maximal run of good characters from `i` to `j`, followed by a
   * character that is not good, is one token, classified with the keyword
   * check first; the tokenizer carries on at `j`.
   */
  lemma RunIsOneToken(s: string, i: nat, j: nat)
    requires i < j < |s|
    requires forall k :: i <= k < j ==> IsGoodAscii(s[k])
    requires !IsGoodAscii(s[j])
    ensures Lex(s, i) == Cons(PyToken(ClassifyRun(s[i..j]), s[i..j]), Lex(s, j))
  {
    RunEndSpec(s, i + 1);
    assert PunctKind(s[i]).None? by {
      if PunctKind(s[i]).Some? {
        PunctNotGood(s[i]);
      }
    }
    RunEndFrom(s, i + 1, j);
  }

  /** `RunEnd` from inside a run of good characters is the end of that run. */
  lemma {:induction false} RunEndFrom(s: string, i: nat, j: nat)
    requires i <= j <= |s|
    requires forall k :: i <= k < j ==> IsGoodAscii(s[k])
    requires j == |s| || !IsGoodAscii(s[j])
    ensures RunEnd(s, i) == j
    decreases j - i
  {
    if i < j {
      RunEndFrom(s, i + 1, j);
    }
  }

  /** Each of `( ) = + - * / , ;` is one token of its kind whose lexeme is that character. */
  lemma PunctIsOneToken(s: string, i: nat)
    requires i < |s| && PunctKind(s[i]).Some?
    ensures Lex(s, i) == Cons(PyToken(PunctKind(s[i]).value, [s[i]]), Lex(s, i + 1))
  {
  }

  /** Any other character (blank, `{`, `}`, `6`, ...) produces no token. */
  lemma OtherIsSkipped(s: string, i: nat)
    requires i < |s| && !Kept(s[i])
    ensures Lex(s, i) == Lex(s, i + 1)
  {
  }

  /** A run is a keyword exactly when it is one of `int printf return germ`, even before the digit check. */
  lemma ClassifyKeywordFirst(w: string)
    ensures ClassifyRun(w) == Keyword <==> w in Keywords
    ensures ClassifyRun(w) == NumberLiteral <==> w !in Keywords && IsDecimal(w)
  {
  }

  /** `x = 16;` loses the digit 6: the number token is `1`. */
  lemma SixIsDropped()
    ensures Lex("x = 16;", 0) == Ok([PyToken(Identifier, "x"), PyToken(Equal, "="), PyToken(NumberLiteral, "1"), PyToken(SemiColon, ";")])
  {
    var s := "x = 16;";
    assert s[0] == 'x' && s[1] == ' ' && s[2] == '=' && s[3] == ' ' && s[4] == '1' && s[5] == '6' && s[6] == ';';
    var semi: seq<PyToken> := [PyToken(SemiColon, ";")];
    assert semi + [] == semi;
    assert Lex(s, 6) == Ok(semi);
    assert Lex(s, 5) == Lex(s, 6);
    assert s[4..5] == "1" && IsDecimal("1");
    assert ClassifyRun("1") == NumberLiteral;
    RunIsOneToken(s, 4, 5);
    var one := [PyToken(NumberLiteral, "1")] + semi;
    assert Lex(s, 4) == Ok(one);
    assert Lex(s, 3) == Lex(s, 4);
    assert Lex(s, 2) == Cons(PyToken(Equal, "="), Lex(s, 3));
    assert Lex(s, 1) == Lex(s, 2);
    assert !IsDecimal("x") by {
      assert "x"[0] == 'x';
    }
    assert s[0..1] == "x";
    assert ClassifyRun("x") == Identifier;
    var eq := [PyToken(Equal, "=")] + one;
    assert Lex(s, 1) == Ok(eq);
    RunIsOneToken(s, 0, 1);
    assert [PyToken(Identifier, "x")] + eq
      == [PyToken(Identifier, "x"), PyToken(Equal, "="), PyToken(NumberLiteral, "1"), PyToken(SemiColon, ";")];
  }
}
