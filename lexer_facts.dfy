/** What one call of `nextTok` returns, stated over the text rather than over the helpers of `Scan`. */
module LexerFacts {
  import opened Wrappers
  import opened Lexer

  /** `j` is where the first non-blank character after cursor `i` sits (or the recorded length). */
  ghost predicate FirstNonSpaceAt(content: string, len: nat, i: nat, j: nat)
  {
    && i <= j <= len
    && (forall k :: i <= k < j ==> IsSpace(CharAt(content, k)))
    && (j == len || !IsSpace(CharAt(content, j)))
  }

  /** `w` is a maximal alphanumeric run of the text starting at `j`, within the recorded length. */
  ghost predicate MaximalWordAt(content: string, len: nat, j: nat, w: string)
  {
    && w != []
    && j + |w| <= len
    && (forall k :: 0 <= k < |w| ==> CharAt(content, j + k) == w[k] && IsAlnum(w[k]))
    && (j + |w| == len || !IsAlnum(CharAt(content, j + |w|)))
  }

  lemma {:induction false} SkipSpaceTo(content: string, len: nat, i: nat, j: nat)
    requires FirstNonSpaceAt(content, len, i, j)
    ensures SkipSpace(content, len, i) == j
    decreases j - i
  {
    if i < j {
      SkipSpaceTo(content, len, i + 1, j);
    }
  }

  /** Skipping the blanks first does not change what the rest of `nextTok` returns. */
  lemma {:induction false} SkipThenScan(content: string, len: nat, i: nat)
    requires i <= len
    ensures ScanFrom(content, len, i) == ScanFrom(content, len, SkipSpace(content, len, i))
    decreases len - i
  {
    if i < len && IsSpace(CharAt(content, i)) {
      SkipThenScan(content, len, i + 1);
    }
  }

  /** The captured run is the text from `i` on, alphanumeric throughout, and stops at the first other character or at the recorded length. */
  lemma {:induction false} CaptureSpec(content: string, len: nat, i: nat)
    ensures var w := Capture(content, len, i);
      && (forall k :: 0 <= k < |w| ==> w[k] == CharAt(content, i + k) && IsAlnum(w[k]))
      && (i + |w| >= len || !IsAlnum(CharAt(content, i + |w|)))
    decreases len - i
  {
    if i < len && IsAlnum(CharAt(content, i)) {
      CaptureSpec(content, len, i + 1);
      var w := Capture(content, len, i);
      var rest := Capture(content, len, i + 1);
      assert w == [CharAt(content, i)] + rest;
      forall k | 0 <= k < |w|
        ensures w[k] == CharAt(content, i + k) && IsAlnum(w[k])
      {
        if k > 0 {
          assert w[k] == rest[k - 1];
        }
      }
    }
  }

  lemma {:induction false} CaptureIs(content: string, len: nat, j: nat, w: string)
    requires j + |w| <= len
    requires forall k :: 0 <= k < |w| ==> CharAt(content, j + k) == w[k] && IsAlnum(w[k])
    requires j + |w| == len || !IsAlnum(CharAt(content, j + |w|))
    ensures Capture(content, len, j) == w
    decreases |w|
  {
    if w != [] {
      CaptureIs(content, len, j + 1, w[1..]);
      assert CharAt(content, j) == w[0] && IsAlnum(w[0]);
      assert w == [w[0]] + w[1..];
    }
  }

  /** Past the recorded length every call returns End and leaves the cursor where it is. */
  lemma ExhaustedIsEnd(content: string, len: nat, index: nat)
    requires len <= index
    ensures Scan(content, len, index) == (Token(End, ""), index)
  {
  }

  /** End is absorbing: after an End token, the next call returns End again and does not move. */
  lemma EndIsAbsorbing(content: string, len: nat, index: nat)
    requires Scan(content, len, index).0.kind == End
    ensures var next := Scan(content, len, index).1;
      Scan(content, len, next) == (Token(End, ""), next)
  {
  }

  /**
   * Blanks are skipped, then one of `= + - * / ( ) { } , ;` is a token of its
   * own kind whose lexeme is that character. The character may sit at the
   * recorded length itself when the content is longer than that length.
   */
  lemma ScanSingle(content: string, len: nat, i: nat, j: nat)
    requires i < len && FirstNonSpaceAt(content, len, i, j)
    requires SingleKind(CharAt(content, j)).Some?
    ensures Scan(content, len, i) == (Token(SingleKind(CharAt(content, j)).value, [CharAt(content, j)]), j + 1)
  {
    SkipSpaceTo(content, len, i, j);
    SkipThenScan(content, len, i);
  }

  /**
   * Blanks are skipped, then a maximal alphanumeric run is one token: a
   * NumberLiteral when it is all digits, else a Keyword when it is `germ`,
   * else an Identifier.
   */
  lemma ScanWord(content: string, len: nat, i: nat, j: nat, w: string)
    requires i < len && FirstNonSpaceAt(content, len, i, j)
    requires MaximalWordAt(content, len, j, w)
    ensures Scan(content, len, i) == (Token(Classify(w), w), j + |w|)
    ensures Scan(content, len, i).0.kind == NumberLiteral <==> AllDigits(w)
    ensures Scan(content, len, i).0.kind == Keyword <==> w == "germ"
  {
    SkipSpaceTo(content, len, i, j);
    SkipThenScan(content, len, i);
    CaptureIs(content, len, j, w);
    assert SingleKind(CharAt(content, j)).None? by {
      assert IsAlnum(w[0]);
    }
    assert !AllDigits("germ") by {
      assert !IsDigit("germ"[0]);
    }
  }

  /**
   * A character that is neither blank, nor one of the one-character tokens,
   * nor alphanumeric gives (NumberLiteral, "") and leaves the cursor on it,
   * since `isstringdigit("")` holds: every later call returns the same.
   */
  lemma ScanUnknownStalls(content: string, len: nat, i: nat, j: nat)
    requires i < len && FirstNonSpaceAt(content, len, i, j) && j < len
    requires SingleKind(CharAt(content, j)).None? && !IsAlnum(CharAt(content, j))
    ensures Scan(content, len, i) == (Token(NumberLiteral, ""), j)
    ensures Scan(content, len, j) == Scan(content, len, i)
  {
    SkipSpaceTo(content, len, i, j);
    SkipThenScan(content, len, i);
    SkipSpaceTo(content, len, j, j);
    SkipThenScan(content, len, j);
    CaptureIs(content, len, j, []);
  }

  /**
   * Only blanks left before the recorded length: End, with the cursor one past
   * that length (the source increments it after the whitespace loop).
   */
  lemma ScanBlankTail(content: string, len: nat, i: nat)
    requires i < len && FirstNonSpaceAt(content, len, i, len)
    requires SingleKind(CharAt(content, len)).None?
    ensures Scan(content, len, i) == (Token(End, ""), len + 1)
  {
    SkipSpaceTo(content, len, i, len);
    SkipThenScan(content, len, i);
  }

  /**
   * Every token but End is text of the content: its lexeme is what lies just
   * before the new cursor, only blanks lie between the old cursor and it, and
   * a non-empty lexeme lies inside the content.
   */
  lemma ScanReadsSource(content: string, len: nat, i: nat)
    requires Scan(content, len, i).0.kind != End
    ensures var (tok, k) := Scan(content, len, i);
      && i + |tok.lexeme| <= k
      && (tok.lexeme != [] ==> k <= |content|)
      && (forall m :: 0 <= m < |tok.lexeme| ==> CharAt(content, k - |tok.lexeme| + m) == tok.lexeme[m])
      && (forall m :: i <= m < k - |tok.lexeme| ==> IsSpace(CharAt(content, m)))
  {
    var (tok, k) := Scan(content, len, i);
    var j := SkipSpace(content, len, i);
    SkipThenScan(content, len, i);
    if SingleKind(CharAt(content, j)).None? {
      var w := Capture(content, len, j);
      CaptureSpec(content, len, j);
      assert w == tok.lexeme && k == j + |w|;
      if w != [] {
        assert w[|w| - 1] == CharAt(content, j + (|w| - 1)) && IsAlnum(w[|w| - 1]);
      }
    } else {
      assert CharAt(content, j) != NUL;
      assert tok.lexeme == [CharAt(content, j)] && k == j + 1;
    }
  }
}
