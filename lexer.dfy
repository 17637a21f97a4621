/**
 * The lexer of interpreter.cpp: `Tokenizer` is a cursor over a string that
 * hands out one token per call of `nextTok`.
 *
 * The pure function `Scan` says what one call does to the cursor and which
 * token it returns; the class `Tokenizer` keeps the source's loops and is
 * proved against it.
 */
module Lexer {
  import opened Wrappers

  datatype Kind =
    | NumberLiteral | Keyword | Identifier
    | Equal | Plus | Minus | Star | Slash
    | LeftParen | RightParen | CurlyLeftParen | CurlyRightParen
    | Comma | SemiColon | End

  datatype Token = Token(kind: Kind, lexeme: string)

  const NUL: char := '\0'

  /**
   * The character `filecontent[i]` yields. A `std::string` gives '\0' at
   * index `size()`; past that the source reads out of bounds (possible only
   * after `resetcontent` with a shorter string), which is also read as '\0'.
   */
  function CharAt(content: string, i: nat): char
  {
    if i < |content| then content[i] else NUL
  }

  /** `isspace` in the C locale. */
  predicate IsSpace(c: char)
  {
    c == ' ' || c == '\t' || c == '\n' || c == '\U{0B}' || c == '\U{0C}' || c == '\r'
  }

  /** `isdigit` */
  predicate IsDigit(c: char)
  {
    '0' <= c <= '9'
  }

  /** `isalnum` in the C locale. */
  predicate IsAlnum(c: char)
  {
    IsDigit(c) || 'A' <= c <= 'Z' || 'a' <= c <= 'z'
  }

  /** The kind of the one-character tokens `= + - * / ( ) { } , ;`. */
  function SingleKind(c: char): Option<Kind>
  {
    match c
    case '=' => Some(Equal)
    case '+' => Some(Plus)
    case '-' => Some(Minus)
    case '*' => Some(Star)
    case '/' => Some(Slash)
    case '(' => Some(LeftParen)
    case ')' => Some(RightParen)
    case '{' => Some(CurlyLeftParen)
    case '}' => Some(CurlyRightParen)
    case ',' => Some(Comma)
    case ';' => Some(SemiColon)
    case _ => None
  }

  /** What `isstringdigit` decides; true of the empty string. */
  predicate AllDigits(s: string)
  {
    forall i :: 0 <= i < |s| ==> IsDigit(s[i])
  }

  /** The kind of a captured alphanumeric run: the digit test comes first. */
  function Classify(word: string): Kind
  {
    if AllDigits(word) then NumberLiteral
    else if word == "germ" then Keyword
    else Identifier
  }

  /** Where the whitespace loop of `nextTok` stops, starting at `i`. */
  function SkipSpace(content: string, len: nat, i: nat): (j: nat)
    requires i <= len
    ensures i <= j <= len
    ensures forall k :: i <= k < j ==> IsSpace(CharAt(content, k))
    ensures j == len || !IsSpace(CharAt(content, j))
    decreases len - i
  {
    if i < len && IsSpace(CharAt(content, i)) then SkipSpace(content, len, i + 1) else i
  }

  /** The string the capture loop of `nextTok` builds, starting at `i`. */
  function Capture(content: string, len: nat, i: nat): (w: string)
    ensures w == [] || i + |w| <= len
    decreases len - i
  {
    if i < len && IsAlnum(CharAt(content, i)) then [CharAt(content, i)] + Capture(content, len, i + 1)
    else []
  }

  /**
   * One call of `nextTok` on a cursor at `index` over `content` whose
   * recorded length is `len`: the token returned and the new cursor.
   */
  function Scan(content: string, len: nat, index: nat): (r: (Token, nat))
    ensures index <= r.1
    ensures r.0.kind == End ==> len <= r.1
  {
    if index >= len then (Token(End, ""), index) else ScanFrom(content, len, index)
  }

  /**
   * `nextTok` from its whitespace loop on, with the cursor at `j`: blanks
   * before the recorded length are skipped one at a time, then the character
   * under the cursor decides the token.
   */
  function ScanFrom(content: string, len: nat, j: nat): (r: (Token, nat))
    ensures j <= r.1
    ensures r.0.kind == End ==> len <= r.1
    decreases len - j
  {
    var c := CharAt(content, j);
    if j < len && IsSpace(c) then ScanFrom(content, len, j + 1)
    else match SingleKind(c)
      case Some(k) => (Token(k, [c]), j + 1)
      case None =>
        if j < len then
          var w := Capture(content, len, j);
          (Token(Classify(w), w), j + |w|)
        else (Token(End, ""), j + 1)
  }

  /** `isstringdigit`: the source's loop, returning early at the first non-digit. */
  method IsStringDigit(s: string) returns (b: bool)
    ensures b <==> AllDigits(s)
  {
    var i := 0;
    while i < |s|
      invariant 0 <= i <= |s|
      invariant forall k :: 0 <= k < i ==> IsDigit(s[k])
    {
      if !IsDigit(s[i]) {
        return false;
      }
      i := i + 1;
    }
    return true;
  }

  class Tokenizer {
    var content: string
    var index: nat
    /** Set by the constructor only: `resetcontent` leaves it stale. */
    var fileLength: nat

    constructor (content: string)
      ensures this.content == content && index == 0 && fileLength == |content|
    {
      this.content := content;
      index := 0;
      fileLength := |content|;
    }

    /** `resetcontent`: a new string and a rewound cursor, but the old length. */
    method ResetContent(content: string)
      modifies this
      ensures this.content == content && index == 0 && fileLength == old(fileLength)
    {
      this.content := content;
      index := 0;
    }

    /** The capture branch of `nextTok`: a maximal alphanumeric run, then its classification. */
    method ReadWord() returns (tok: Token)
      modifies this
      ensures content == old(content) && fileLength == old(fileLength)
      ensures var w := Capture(content, fileLength, old(index));
        tok == Token(Classify(w), w) && index == old(index) + |w|
    {
      var currentString := "";
      while index < fileLength && IsAlnum(CharAt(content, index))
        invariant content == old(content) && fileLength == old(fileLength)
        invariant old(index) <= index
        invariant index == old(index) + |currentString|
        invariant currentString + Capture(content, fileLength, index) == Capture(content, fileLength, old(index))
        decreases fileLength - index
      {
        ghost var rest := Capture(content, fileLength, index + 1);
        assert Capture(content, fileLength, index) == [CharAt(content, index)] + rest;
        currentString := currentString + [CharAt(content, index)];
        index := index + 1;
        assert currentString + rest == Capture(content, fileLength, old(index));
      }
      assert Capture(content, fileLength, index) == [];
      assert currentString == Capture(content, fileLength, old(index));
      var digits := IsStringDigit(currentString);
      if digits {
        return Token(NumberLiteral, currentString);
      } else if currentString == "germ" {
        return Token(Keyword, currentString);
      } else {
        return Token(Identifier, currentString);
      }
    }

    /** `nextTok` */
    method NextTok() returns (tok: Token)
      modifies this
      ensures content == old(content) && fileLength == old(fileLength)
      ensures (tok, index) == Scan(content, fileLength, old(index))
    {
      if index < fileLength {
        while IsSpace(CharAt(content, index)) && index < fileLength
          invariant content == old(content) && fileLength == old(fileLength)
          invariant old(index) <= index <= fileLength
          invariant ScanFrom(content, fileLength, index) == ScanFrom(content, fileLength, old(index))
          decreases fileLength - index
        {
          index := index + 1;
        }
        var c := CharAt(content, index);
        if c == '=' {
          index := index + 1;
          return Token(Equal, "=");
        } else if c == '+' {
          index := index + 1;
          return Token(Plus, "+");
        } else if c == '-' {
          index := index + 1;
          return Token(Minus, "-");
        } else if c == '*' {
          index := index + 1;
          return Token(Star, "*");
        } else if c == '/' {
          index := index + 1;
          return Token(Slash, "/");
        } else if c == '(' {
          index := index + 1;
          return Token(LeftParen, "(");
        } else if c == ')' {
          index := index + 1;
          return Token(RightParen, ")");
        } else if c == '{' {
          index := index + 1;
          return Token(CurlyLeftParen, "{");
        } else if c == '}' {
          index := index + 1;
          return Token(CurlyRightParen, "}");
        } else if c == ',' {
          index := index + 1;
          return Token(Comma, ",");
        } else if c == ';' {
          index := index + 1;
          return Token(SemiColon, ";");
        } else if index < fileLength {
          tok := ReadWord();
          return;
        }
        index := index + 1;
      }
      return Token(End, "");
    }
  }
}
