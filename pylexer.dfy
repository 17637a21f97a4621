/**
 * The tokenizer of interpreter.py: one loop over an index into the text that
 * appends `(kind, lexeme)` pairs to a list, with an inner loop that extends
 * a run of "good" characters by looking one character ahead.
 *
 * `Lex` is the pure specification; `Tokenize` keeps the source's loops and is
 * proved against it.
 */
module PyLexer {
  import opened Wrappers

  datatype PyKind =
    | NumberLiteral | Keyword | Identifier
    | Equal | Plus | Minus | Star | Slash
    | LeftParen | RightParen | Comma | SemiColon

  datatype PyToken = PyToken(kind: PyKind, lexeme: string)

  /** The exception the lookahead `filecontents[i+1]` raises at the end of the text. */
  datatype PyError = IndexError

  /** `keywords` */
  const Keywords: seq<string> := ["int", "printf", "return", "germ"]

  /**
   * `isgoodascii`: the character class `[aA-zZ_123457890]` holds the ASCII
   * range from `A` to `z` (so also `[ \ ] ^ _` and the backtick) and every
   * digit but `6`.
   */
  predicate IsGoodAscii(c: char)
  {
    'A' <= c <= 'z' || ('0' <= c <= '9' && c != '6')
  }

  /** The kind of the one-character tokens `( ) = + - * / , ;`. */
  function PunctKind(c: char): Option<PyKind>
  {
    match c
    case '(' => Some(LeftParen)
    case ')' => Some(RightParen)
    case '=' => Some(Equal)
    case '+' => Some(Plus)
    case '-' => Some(Minus)
    case '*' => Some(Star)
    case '/' => Some(Slash)
    case ',' => Some(Comma)
    case ';' => Some(SemiColon)
    case _ => None
  }

  /** `str.isdigit` on ASCII text: non-empty and digits only. */
  predicate IsDecimal(w: string)
  {
    |w| > 0 && forall k :: 0 <= k < |w| ==> '0' <= w[k] <= '9'
  }

  /** The kind of a captured run: the keyword check comes before the digit check. */
  function ClassifyRun(w: string): PyKind
  {
    if w in Keywords then Keyword
    else if IsDecimal(w) then NumberLiteral
    else Identifier
  }

  /** The first index at or after `i` that does not hold a good character, or the length of the text. */
  function RunEnd(s: string, i: nat): (j: nat)
    requires i <= |s|
    ensures i <= j <= |s|
    decreases |s| - i
  {
    if i < |s| && IsGoodAscii(s[i]) then RunEnd(s, i + 1) else i
  }

  /** `t` in front of the tokens of `r`, when there are any. */
  function Cons(t: PyToken, r: Result<seq<PyToken>, PyError>): Result<seq<PyToken>, PyError>
  {
    match r
    case Ok(ts) => Ok([t] + ts)
    case Err(e) => Err(e)
  }

  /** `done` in front of the tokens of `r`, when there are any. */
  function Prepend(done: seq<PyToken>, r: Result<seq<PyToken>, PyError>): Result<seq<PyToken>, PyError>
  {
    match r
    case Ok(ts) => Ok(done + ts)
    case Err(e) => Err(e)
  }

  /** Appending a token to those already collected is putting it in front of the rest. */
  lemma PrependCons(done: seq<PyToken>, t: PyToken, r: Result<seq<PyToken>, PyError>)
    ensures Prepend(done, Cons(t, r)) == Prepend(done + [t], r)
  {
    if r.Ok? {
      assert done + ([t] + r.value) == (done + [t]) + r.value;
    }
  }

  /**
   * What the outer loop produces from index `i` on. A run of good characters
   * that reaches the end of the text raises IndexError, whatever was
   * appended before it.
   */
  function Lex(s: string, i: nat): Result<seq<PyToken>, PyError>
    requires i <= |s|
    decreases |s| - i
  {
    if i == |s| then Ok([])
    else
      match PunctKind(s[i])
      case Some(k) => Cons(PyToken(k, [s[i]]), Lex(s, i + 1))
      case None =>
        if !IsGoodAscii(s[i]) then Lex(s, i + 1)
        else
          var j := RunEnd(s, i + 1);
          if j == |s| then Err(IndexError)
          else Cons(PyToken(ClassifyRun(s[i..j]), s[i..j]), Lex(s, j))
  }

  /**
   * The inner loop of `tokenizer`: starting on a good character, extend the
   * capture while the next character is good. Reading one past the end
   * raises IndexError. The source guards each step with `i < len - 1`, which
   * always holds once `filecontents[i+1]` has been read, so that guard is
   * left implicit.
   */
  method ReadRun(s: string, start: nat) returns (r: Result<string, PyError>)
    requires start < |s| && IsGoodAscii(s[start])
    ensures RunEnd(s, start + 1) == |s| ==> r == Err(IndexError)
    ensures RunEnd(s, start + 1) < |s| ==> r == Ok(s[start..RunEnd(s, start + 1)])
  {
    var i := start;
    var capture := [s[i]];
    while true
      invariant start <= i < |s|
      invariant capture == s[start..i + 1]
      invariant RunEnd(s, start + 1) == RunEnd(s, i + 1)
      decreases |s| - i
    {
      if i + 1 == |s| {
        return Err(IndexError);
      }
      if !IsGoodAscii(s[i + 1]) {
        break;
      }
      i := i + 1;
      capture := capture + [s[i]];
    }
    return Ok(capture);
  }

  /**
   * `tokenizer`, with its inner loop in `ReadRun` and its chain of tests
   * for `( ) = + - * / , ;` in `PunctKind`.
   */
  method Tokenize(s: string) returns (r: Result<seq<PyToken>, PyError>)
    ensures r == Lex(s, 0)
  {
    var tokens: seq<PyToken> := [];
    var i := 0;
    assert Lex(s, 0).Ok? ==> tokens + Lex(s, 0).value == Lex(s, 0).value;
    while i < |s|
      invariant 0 <= i <= |s|
      invariant Lex(s, 0) == Prepend(tokens, Lex(s, i))
    {
      var c := s[i];
      var punct := PunctKind(c);
      if punct.Some? {
        PrependCons(tokens, PyToken(punct.value, [c]), Lex(s, i + 1));
        tokens := tokens + [PyToken(punct.value, [c])];
      } else if IsGoodAscii(c) {
        var run := ReadRun(s, i);
        if run.Err? {
          return Err(run.error);
        }
        var capture := run.value;
        var kind;
        if capture in Keywords {
          kind := Keyword;
        } else if IsDecimal(capture) {
          kind := NumberLiteral;
        } else {
          kind := Identifier;
        }
        assert kind == ClassifyRun(capture);
        PrependCons(tokens, PyToken(kind, capture), Lex(s, RunEnd(s, i + 1)));
        tokens := tokens + [PyToken(kind, capture)];
        i := i + |capture| - 1;
      }
      i := i + 1;
    }
    assert tokens + [] == tokens;
    return Ok(tokens);
  }
}
