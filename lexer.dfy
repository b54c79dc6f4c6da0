/** The tokenizer of kaleidoscope/native/lexer.h.

    The character source (getchar) is an input string read front to back. The
    lexer's state is the number k of characters getchar has handed out so far,
    capped at |input| + 1 once it has returned EOF; the buffered `last_char`
    is then Peek(input, k). k == 0 is the state before the first call, where
    `last_char` still holds its initial blank (lexer.h:25).

    lexer.h:31-72 nests the numeral, comment, end-of-input and fallback
    branches inside the `isalpha` test, drops the first letter of every
    identifier (line 32), never clears `identifier_str` (lines 21, 33) and has
    no `return tok_identifier` (after line 41). This module models the
    behaviour the branch comments label: sibling branches, a fresh buffer per
    identifier that starts with its first letter, and an identifier token
    when no keyword matches. The code as written is modelled in AsWritten. */
module Lexer {

  /** getchar's end-of-input sentinel. */
  const EOF: int := -1

  /** A token; identifier and numeral tokens carry their lexeme, which the
      source leaves in the globals `identifier_str` and `num_val`. A numeral
      keeps its text: the strtod conversion to a double is not modelled. */
  datatype Token =
    | TokEof
    | TokDef
    | TokExtern
    | TokIdentifier(name: string)
    | TokNumber(lexeme: string)
    | TokChar(c: char)

  /** The int get_tok returns for a token (lexer.h:9-19, 69-71). */
  function Code(t: Token): (code: int)
    ensures code < 0 <==> !t.TokChar?
  {
    match t
    case TokEof => -1
    case TokDef => -2
    case TokExtern => -3
    case TokIdentifier(_) => -4
    case TokNumber(_) => -5
    case TokChar(c) => c as int
  }

  /** Two tokens are of the same kind when they differ at most in payload. */
  predicate SameKind(a: Token, b: Token)
  {
    && a.TokEof? == b.TokEof?
    && a.TokDef? == b.TokDef?
    && a.TokExtern? == b.TokExtern?
    && a.TokIdentifier? == b.TokIdentifier?
    && a.TokNumber? == b.TokNumber?
    && (a.TokChar? <==> b.TokChar?)
    && (a.TokChar? && b.TokChar? ==> a.c == b.c)
  }

  /** The five special codes are distinct and negative, so no code is shared
      by two kinds of token and none clashes with a character's code. */
  lemma CodeDeterminesKind(a: Token, b: Token)
    ensures Code(a) == Code(b) <==> SameKind(a, b)
  {
  }

  // Character classes of <cctype> in the "C" locale, on getchar's int values
  // (EOF belongs to none of them).

  predicate IsSpace(c: int) { c == ' ' as int || '\t' as int <= c <= '\r' as int }
  predicate IsDigit(c: int) { '0' as int <= c <= '9' as int }
  predicate IsAlpha(c: int) { 'a' as int <= c <= 'z' as int || 'A' as int <= c <= 'Z' as int }
  predicate IsAlnum(c: int) { IsAlpha(c) || IsDigit(c) }

  /** Characters a numeral is made of (lexer.h:44, 49). */
  predicate IsNumeralChar(c: int) { IsDigit(c) || c == '.' as int }

  /** Characters a comment runs over: up to newline, CR or EOF (lexer.h:58). */
  predicate InComment(c: int) { c != EOF && c != '\n' as int && c != '\r' as int }

  /** `last_char` after k calls of getchar. */
  function Peek(input: seq<char>, k: nat): int
  {
    if k == 0 then ' ' as int
    else if k <= |input| then input[k - 1] as int
    else EOF
  }

  /** The state after one more call of getchar. */
  function Advance(input: seq<char>, k: nat): nat
  {
    if k <= |input| then k + 1 else k
  }

  /** The first state at or after k whose `last_char` is outside the run
      described by inRun: the loops at lexer.h:27-29, 32, 46-49 and 56-58. */
  function RunEnd(input: seq<char>, k: nat, inRun: int -> bool): (e: nat)
    requires k <= |input| + 1
    requires !inRun(EOF)
    ensures k <= e <= |input| + 1
    ensures !inRun(Peek(input, e))
    decreases |input| + 1 - k
  {
    if inRun(Peek(input, k)) then RunEnd(input, k + 1, inRun) else k
  }

  /** Every state from k up to RunEnd is inside the run. */
  lemma {:induction false} RunEndSpan(input: seq<char>, k: nat, inRun: int -> bool)
    requires k <= |input| + 1 && !inRun(EOF)
    ensures forall i :: k <= i < RunEnd(input, k, inRun) ==> inRun(Peek(input, i))
    decreases |input| + 1 - k
  {
    if inRun(Peek(input, k)) {
      RunEndSpan(input, k + 1, inRun);
    }
  }

  /** The token for an identifier lexeme (lexer.h:35-41). */
  function KeywordOr(lexeme: string): (t: Token)
    ensures t == TokDef <==> lexeme == "def"
    ensures t == TokExtern <==> lexeme == "extern"
    ensures t != TokDef && t != TokExtern ==> t == TokIdentifier(lexeme)
  {
    if lexeme == "def" then TokDef
    else if lexeme == "extern" then TokExtern
    else TokIdentifier(lexeme)
  }

  /** get_tok: the token produced from state k and the state after it.
      Leading whitespace is skipped first (lexer.h:27-29). */
  function NextToken(input: seq<char>, k: nat): (r: (Token, nat))
    requires k <= |input| + 1
    ensures k <= r.1 <= |input| + 1
    ensures r.0 != TokEof ==> k < r.1
    ensures r.0 == TokEof ==> r.1 == |input| + 1
    decreases |input| + 1 - k, 1
  {
    TokenAt(input, RunEnd(input, k, IsSpace))
  }

  /** The branches of get_tok on a non-blank `last_char` at state s
      (lexer.h:31-71, as sibling branches). */
  function TokenAt(input: seq<char>, s: nat): (r: (Token, nat))
    requires s <= |input| + 1 && !IsSpace(Peek(input, s))
    ensures s <= r.1 <= |input| + 1
    ensures r.0 != TokEof ==> s < r.1
    ensures r.0 == TokEof ==> r.1 == |input| + 1
    decreases |input| + 1 - s, 0
  {
    var c := Peek(input, s);
    if IsAlpha(c) then
      var e := RunEnd(input, s + 1, IsAlnum);
      (KeywordOr(input[s - 1 .. e - 1]), e)
    else if IsNumeralChar(c) then
      var e := RunEnd(input, s + 1, IsNumeralChar);
      (TokNumber(input[s - 1 .. e - 1]), e)
    else if c == '#' as int then
      var e := RunEnd(input, s + 1, InComment);
      if Peek(input, e) != EOF then NextToken(input, e) else (TokEof, e)
    else if c == EOF then
      (TokEof, s)
    else
      (TokChar(input[s - 1]), s + 1)
  }

  /** The tokens get_tok hands out from state k up to and including the
      first end-of-input token; every later call yields end-of-input again
      (LexerFacts.EofIsSticky). */
  function Tokens(input: seq<char>, k: nat): (ts: seq<Token>)
    requires k <= |input| + 1
    ensures |ts| >= 1 && ts[|ts| - 1] == TokEof
    ensures forall i :: 0 <= i < |ts| - 1 ==> ts[i] != TokEof
    ensures |ts| <= |input| + 2 - k
    decreases |input| + 1 - k
  {
    var (t, e) := NextToken(input, k);
    if t == TokEof then [TokEof] else [t] + Tokens(input, e)
  }

  /** The lexer of lexer.h as an object: `last_char` and getchar's position
      are fields that get_tok updates in place. */
  class Lexer {
    const input: seq<char>
    /** Characters handed out by getchar so far (|input| + 1 once EOF was returned). */
    var read: nat
    /** The static `last_char` of get_tok. */
    var lastChar: int

    ghost predicate Valid()
      reads this
    {
      read <= |input| + 1 && lastChar == Peek(input, read)
    }

    constructor (input: seq<char>)
      ensures Valid() && this.input == input
      ensures read == 0 && lastChar == ' ' as int
    {
      this.input := input;
      read := 0;
      lastChar := ' ' as int;
    }

    /** last_char = getchar() */
    method GetChar()
      requires Valid()
      modifies this
      ensures Valid() && read == Advance(input, old(read))
    {
      if read < |input| {
        lastChar := input[read] as int;
        read := read + 1;
      } else {
        lastChar := EOF;
        read := |input| + 1;
      }
    }

    /** The whitespace loop of lexer.h:27-29. */
    method SkipWhitespace()
      requires Valid()
      modifies this
      ensures Valid() && read == RunEnd(input, old(read), IsSpace)
    {
      while IsSpace(lastChar)
        invariant Valid() && old(read) <= read
        invariant RunEnd(input, read, IsSpace) == RunEnd(input, old(read), IsSpace)
        decreases |input| + 1 - read
      {
        GetChar();
      }
    }

    /** The identifier loop of lexer.h:32-33, with a fresh buffer that starts
        with the identifier's first letter; returns the lexeme. */
    method ScanIdentifier() returns (identifierStr: string)
      requires Valid() && IsAlpha(lastChar)
      modifies this
      ensures Valid() && 1 <= old(read) && read == RunEnd(input, old(read) + 1, IsAlnum)
      ensures identifierStr == input[old(read) - 1 .. read - 1]
    {
      identifierStr := [lastChar as char];
      GetChar();
      while IsAlnum(lastChar)
        invariant Valid() && old(read) < read
        invariant RunEnd(input, read, IsAlnum) == RunEnd(input, old(read) + 1, IsAlnum)
        invariant identifierStr == input[old(read) - 1 .. read - 1]
        decreases |input| + 1 - read
      {
        identifierStr := identifierStr + [lastChar as char];
        GetChar();
      }
    }

    /** The do-while numeral loop of lexer.h:45-49; returns the lexeme. */
    method ScanNumeral() returns (numStr: string)
      requires Valid() && IsNumeralChar(lastChar)
      modifies this
      ensures Valid() && 1 <= old(read) && read == RunEnd(input, old(read) + 1, IsNumeralChar)
      ensures numStr == input[old(read) - 1 .. read - 1]
    {
      numStr := [lastChar as char];
      GetChar();
      while IsNumeralChar(lastChar)
        invariant Valid() && old(read) < read
        invariant RunEnd(input, read, IsNumeralChar) == RunEnd(input, old(read) + 1, IsNumeralChar)
        invariant numStr == input[old(read) - 1 .. read - 1]
        decreases |input| + 1 - read
      {
        numStr := numStr + [lastChar as char];
        GetChar();
      }
    }

    /** The do-while comment loop of lexer.h:56-58. */
    method SkipComment()
      requires Valid() && lastChar == '#' as int
      modifies this
      ensures Valid() && read == RunEnd(input, old(read) + 1, InComment)
    {
      GetChar();
      while InComment(lastChar)
        invariant Valid() && old(read) < read
        invariant RunEnd(input, read, InComment) == RunEnd(input, old(read) + 1, InComment)
        decreases |input| + 1 - read
      {
        GetChar();
      }
    }

    /** get_tok (lexer.h:24-72, branches as described for the module). */
    method GetTok() returns (t: Token)
      requires Valid()
      modifies this
      ensures Valid() && (t, read) == NextToken(input, old(read))
      decreases |input| + 1 - read
    {
      SkipWhitespace();

      if IsAlpha(lastChar) {
        var identifierStr := ScanIdentifier();
        if identifierStr == "def" {
          return TokDef;
        }
        if identifierStr == "extern" {
          return TokExtern;
        }
        return TokIdentifier(identifierStr);
      }

      if IsNumeralChar(lastChar) {
        var numStr := ScanNumeral();
        return TokNumber(numStr);
      }

      if lastChar == '#' as int {
        SkipComment();
        if lastChar != EOF {
          t := GetTok();
          return;
        }
      }

      if lastChar == EOF {
        return TokEof;
      }

      var thisChar := lastChar;
      GetChar();
      return TokChar(thisChar as char);
    }
  }
}
