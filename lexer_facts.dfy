/** Properties of the tokenizer of kaleidoscope/native/lexer.h. */
module LexerFacts {
  import opened Lexer

  /** The blank `last_char` starts with (lexer.h:25) never reaches a token:
      lexing from the initial state is lexing from the first character. */
  lemma InitialBlankIsSkipped(input: seq<char>)
    ensures NextToken(input, 0) == NextToken(input, 1)
  {
    assert RunEnd(input, 0, IsSpace) == RunEnd(input, 1, IsSpace);
  }

  /** All whitespace before a token is consumed before the token is chosen
      (lexer.h:27-29): lexing from k is lexing from the first non-blank. */
  lemma LeadingWhitespaceIsSkipped(input: seq<char>, k: nat)
    requires k <= |input| + 1
    ensures var s := RunEnd(input, k, IsSpace);
      && (forall i :: k <= i < s ==> IsSpace(Peek(input, i)))
      && !IsSpace(Peek(input, s))
      && NextToken(input, k) == NextToken(input, s)
  {
    RunEndSpan(input, k, IsSpace);
    var s := RunEnd(input, k, IsSpace);
    assert RunEnd(input, s, IsSpace) == s;
  }

  /** An identifier is the maximal run of alphanumerics that starts at a
      letter; the character that ends it is left in `last_char`, and the
      lexeme is a keyword exactly when it is "def" or "extern"
      (lexer.h:31-41). */
  lemma IdentifierIsMaximalMunch(input: seq<char>, k: nat)
    requires k <= |input| + 1
    requires IsAlpha(Peek(input, RunEnd(input, k, IsSpace)))
    ensures var s := RunEnd(input, k, IsSpace);
      var (t, e) := NextToken(input, k);
      && 1 <= s < e <= |input| + 1
      && (forall i :: s <= i < e ==> IsAlnum(Peek(input, i)))
      && !IsAlnum(Peek(input, e))
      && (t == TokDef <==> input[s - 1 .. e - 1] == "def")
      && (t == TokExtern <==> input[s - 1 .. e - 1] == "extern")
      && (t != TokDef && t != TokExtern ==> t == TokIdentifier(input[s - 1 .. e - 1]))
  {
    var s := RunEnd(input, k, IsSpace);
    RunEndSpan(input, s + 1, IsAlnum);
  }

  /** A numeral is the maximal run of digits and dots that starts at a digit
      or a dot; several dots are accepted (lexer.h:44-51). */
  lemma NumeralIsMaximalMunch(input: seq<char>, k: nat)
    requires k <= |input| + 1
    requires IsNumeralChar(Peek(input, RunEnd(input, k, IsSpace)))
    ensures var s := RunEnd(input, k, IsSpace);
      var (t, e) := NextToken(input, k);
      && 1 <= s < e <= |input| + 1
      && (forall i :: s <= i < e ==> IsNumeralChar(Peek(input, i)))
      && !IsNumeralChar(Peek(input, e))
      && t == TokNumber(input[s - 1 .. e - 1])
  {
    var s := RunEnd(input, k, IsSpace);
    RunEndSpan(input, s + 1, IsNumeralChar);
  }

  /** Any other character is its own token and exactly that one character
      is consumed (lexer.h:69-71). */
  lemma OtherCharacterIsItsOwnToken(input: seq<char>, k: nat)
    requires k <= |input| + 1
    requires var c := Peek(input, RunEnd(input, k, IsSpace));
      !IsAlpha(c) && !IsNumeralChar(c) && c != '#' as int && c != EOF
    ensures var s := RunEnd(input, k, IsSpace);
      1 <= s <= |input| && NextToken(input, k) == (TokChar(input[s - 1]), s + 1)
  {
  }

  /** Once end of input is reported, every later call reports it again, so a
      parser reading past the end sees end-of-input tokens. */
  lemma EofIsSticky(input: seq<char>, k: nat)
    requires k <= |input| + 1
    requires NextToken(input, k).0 == TokEof
    ensures NextToken(input, NextToken(input, k).1) == (TokEof, |input| + 1)
  {
    assert RunEnd(input, |input| + 1, IsSpace) == |input| + 1;
  }

  /** RunEnd is the first state at or after k outside the run. */
  lemma RunEndIsFirstExit(input: seq<char>, k: nat, inRun: int -> bool, e: nat)
    requires k <= e <= |input| + 1 && !inRun(EOF)
    requires forall i :: k <= i < e ==> inRun(Peek(input, i))
    requires !inRun(Peek(input, e))
    ensures RunEnd(input, k, inRun) == e
  {
    RunEndSpan(input, k, inRun);
  }

  /** Two lexer states that will see the same characters from now on: the
      current characters are equal, or both blanks. */
  ghost predicate Aligned(a: seq<char>, ka: nat, b: seq<char>, kb: nat)
  {
    && ka <= |a| + 1 && kb <= |b| + 1
    && |a| - ka == |b| - kb
    && (forall i :: ka < i <= |a| + 1 ==> SameAt(a, ka, b, kb, i))
    && (Peek(a, ka) == Peek(b, kb) || (IsSpace(Peek(a, ka)) && IsSpace(Peek(b, kb))))
  }

  /** State i of a and the corresponding state of b hold the same character. */
  ghost predicate SameAt(a: seq<char>, ka: nat, b: seq<char>, kb: nat, i: nat)
    requires ka <= i
  {
    Peek(a, i) == Peek(b, i - ka + kb)
  }

  lemma {:induction false} RunEndShift(a: seq<char>, ka: nat, b: seq<char>, kb: nat, i: nat, inRun: int -> bool)
    requires Aligned(a, ka, b, kb) && ka < i <= |a| + 1 && !inRun(EOF)
    ensures RunEnd(a, i, inRun) - ka == RunEnd(b, i - ka + kb, inRun) - kb
    decreases |a| + 1 - i
  {
    assert SameAt(a, ka, b, kb, i);
    if inRun(Peek(a, i)) {
      RunEndShift(a, ka, b, kb, i + 1, inRun);
    }
  }

  lemma SkipSpaceShift(a: seq<char>, ka: nat, b: seq<char>, kb: nat)
    requires Aligned(a, ka, b, kb)
    ensures RunEnd(a, ka, IsSpace) - ka == RunEnd(b, kb, IsSpace) - kb
    ensures Peek(a, RunEnd(a, ka, IsSpace)) == Peek(b, RunEnd(b, kb, IsSpace))
  {
    var sa, sb := RunEnd(a, ka, IsSpace), RunEnd(b, kb, IsSpace);
    if IsSpace(Peek(a, ka)) {
      assert sa - ka == sb - kb by {
        RunEndShift(a, ka, b, kb, ka + 1, IsSpace);
      }
      assert SameAt(a, ka, b, kb, sa);
    }
  }

  lemma SliceShift(a: seq<char>, ka: nat, b: seq<char>, kb: nat, s: nat, e: nat)
    requires Aligned(a, ka, b, kb) && ka <= s && 1 <= s <= e <= |a| + 1
    requires Peek(a, s) == Peek(b, s - ka + kb) && !IsSpace(Peek(a, s))
    ensures 1 <= s - ka + kb <= e - ka + kb <= |b| + 1
    ensures a[s - 1 .. e - 1] == b[s - ka + kb - 1 .. e - ka + kb - 1]
  {
    var d := kb - ka;
    var sa, sb := a[s - 1 .. e - 1], b[s + d - 1 .. e + d - 1];
    forall j | 0 <= j < |sa|
      ensures sa[j] == sb[j]
    {
      var i := s + j;
      if i > ka {
        assert SameAt(a, ka, b, kb, i);
      }
      assert Peek(a, i) == a[i - 1] as int;
      assert Peek(b, i + d) == b[i + d - 1] as int;
    }
  }

  /** get_tok depends only on the characters still to come. */
  lemma {:induction false} NextTokenShift(a: seq<char>, ka: nat, b: seq<char>, kb: nat)
    requires Aligned(a, ka, b, kb)
    ensures NextToken(a, ka).0 == NextToken(b, kb).0
    ensures NextToken(a, ka).1 - ka == NextToken(b, kb).1 - kb
    decreases |a| + 1 - ka, 2
  {
    SkipSpaceShift(a, ka, b, kb);
    TokenAtShift(a, ka, b, kb, RunEnd(a, ka, IsSpace));
  }

  lemma {:induction false} TokenAtShift(a: seq<char>, ka: nat, b: seq<char>, kb: nat, sa: nat)
    requires Aligned(a, ka, b, kb) && ka <= sa <= |a| + 1
    requires Peek(a, sa) == Peek(b, sa - ka + kb) && !IsSpace(Peek(a, sa))
    ensures sa - ka + kb <= |b| + 1
    ensures TokenAt(a, sa).0 == TokenAt(b, sa - ka + kb).0
    ensures TokenAt(a, sa).1 - ka == TokenAt(b, sa - ka + kb).1 - kb
    decreases |a| + 1 - sa, 1
  {
    var sb := sa - ka + kb;
    var c := Peek(a, sa);
    if IsAlpha(c) {
      IdentifierShift(a, ka, b, kb, sa);
    } else if IsNumeralChar(c) {
      NumeralShift(a, ka, b, kb, sa);
    } else if c == '#' as int {
      CommentShift(a, ka, b, kb, sa);
    } else if c == EOF {
      assert TokenAt(a, sa) == (TokEof, sa);
      assert TokenAt(b, sb) == (TokEof, sb);
    } else {
      assert Peek(a, sa) == a[sa - 1] as int;
      assert Peek(b, sb) == b[sb - 1] as int;
      assert TokenAt(a, sa) == (TokChar(a[sa - 1]), sa + 1);
      assert TokenAt(b, sb) == (TokChar(b[sb - 1]), sb + 1);
    }
  }

  /** TokenAt on a letter depends only on the word. */
  lemma LetterShift(a: seq<char>, sa: nat, b: seq<char>, sb: nat)
    requires sa <= |a| + 1 && sb <= |b| + 1
    requires Peek(a, sa) == Peek(b, sb) && IsAlpha(Peek(a, sa))
    requires RunEnd(a, sa + 1, IsAlnum) - sa == RunEnd(b, sb + 1, IsAlnum) - sb
    requires a[sa - 1 .. RunEnd(a, sa + 1, IsAlnum) - 1] == b[sb - 1 .. RunEnd(b, sb + 1, IsAlnum) - 1]
    ensures TokenAt(a, sa).0 == TokenAt(b, sb).0
    ensures TokenAt(a, sa).1 - sa == TokenAt(b, sb).1 - sb
  {
  }

  /** TokenAt on a digit or '.' depends only on the numeral. */
  lemma NumeralCharShift(a: seq<char>, sa: nat, b: seq<char>, sb: nat)
    requires sa <= |a| + 1 && sb <= |b| + 1
    requires Peek(a, sa) == Peek(b, sb) && !IsAlpha(Peek(a, sa)) && IsNumeralChar(Peek(a, sa))
    requires RunEnd(a, sa + 1, IsNumeralChar) - sa == RunEnd(b, sb + 1, IsNumeralChar) - sb
    requires a[sa - 1 .. RunEnd(a, sa + 1, IsNumeralChar) - 1] == b[sb - 1 .. RunEnd(b, sb + 1, IsNumeralChar) - 1]
    ensures TokenAt(a, sa).0 == TokenAt(b, sb).0
    ensures TokenAt(a, sa).1 - sa == TokenAt(b, sb).1 - sb
  {
  }

  lemma IdentifierShift(a: seq<char>, ka: nat, b: seq<char>, kb: nat, sa: nat)
    requires Aligned(a, ka, b, kb) && ka <= sa <= |a| + 1
    requires Peek(a, sa) == Peek(b, sa - ka + kb) && !IsSpace(Peek(a, sa))
    requires IsAlpha(Peek(a, sa))
    ensures sa - ka + kb <= |b| + 1
    ensures TokenAt(a, sa).0 == TokenAt(b, sa - ka + kb).0
    ensures TokenAt(a, sa).1 - ka == TokenAt(b, sa - ka + kb).1 - kb
  {
    var sb := sa - ka + kb;
    RunEndShift(a, ka, b, kb, sa + 1, IsAlnum);
    var ea, eb := RunEnd(a, sa + 1, IsAlnum), RunEnd(b, sb + 1, IsAlnum);
    SliceShift(a, ka, b, kb, sa, ea);
    LetterShift(a, sa, b, sb);
  }

  lemma NumeralShift(a: seq<char>, ka: nat, b: seq<char>, kb: nat, sa: nat)
    requires Aligned(a, ka, b, kb) && ka <= sa <= |a| + 1
    requires Peek(a, sa) == Peek(b, sa - ka + kb) && !IsSpace(Peek(a, sa))
    requires !IsAlpha(Peek(a, sa)) && IsNumeralChar(Peek(a, sa))
    ensures sa - ka + kb <= |b| + 1
    ensures TokenAt(a, sa).0 == TokenAt(b, sa - ka + kb).0
    ensures TokenAt(a, sa).1 - ka == TokenAt(b, sa - ka + kb).1 - kb
  {
    var sb := sa - ka + kb;
    RunEndShift(a, ka, b, kb, sa + 1, IsNumeralChar);
    var ea, eb := RunEnd(a, sa + 1, IsNumeralChar), RunEnd(b, sb + 1, IsNumeralChar);
    SliceShift(a, ka, b, kb, sa, ea);
    NumeralCharShift(a, sa, b, sb);
  }

  /** TokenAt on '#' with more input after the comment: the token after it. */
  lemma CommentThenToken(input: seq<char>, s: nat)
    requires s <= |input| + 1 && Peek(input, s) == '#' as int
    requires Peek(input, RunEnd(input, s + 1, InComment)) != EOF
    ensures TokenAt(input, s) == NextToken(input, RunEnd(input, s + 1, InComment))
  {
  }

  /** TokenAt on '#' with nothing after the comment: end of input. */
  lemma CommentThenEof(input: seq<char>, s: nat)
    requires s <= |input| + 1 && Peek(input, s) == '#' as int
    requires Peek(input, RunEnd(input, s + 1, InComment)) == EOF
    ensures TokenAt(input, s) == (TokEof, RunEnd(input, s + 1, InComment))
  {
  }

  /** Two aligned states stay aligned at any later pair of states that
      hold the same character. */
  lemma AlignedLater(a: seq<char>, ka: nat, b: seq<char>, kb: nat, ea: nat, eb: nat)
    requires Aligned(a, ka, b, kb) && ka < ea <= |a| + 1 && eb == ea - ka + kb
    requires SameAt(a, ka, b, kb, ea)
    ensures Aligned(a, ea, b, eb)
  {
    forall i | ea < i <= |a| + 1
      ensures SameAt(a, ea, b, eb, i)
    {
      assert SameAt(a, ka, b, kb, i);
    }
  }

  lemma {:induction false} CommentShift(a: seq<char>, ka: nat, b: seq<char>, kb: nat, sa: nat)
    requires Aligned(a, ka, b, kb) && ka <= sa <= |a| + 1
    requires Peek(a, sa) == Peek(b, sa - ka + kb) && !IsSpace(Peek(a, sa))
    requires Peek(a, sa) == '#' as int
    ensures sa - ka + kb <= |b| + 1
    ensures TokenAt(a, sa).0 == TokenAt(b, sa - ka + kb).0
    ensures TokenAt(a, sa).1 - ka == TokenAt(b, sa - ka + kb).1 - kb
    decreases |a| + 1 - sa, 0
  {
    var sb := sa - ka + kb;
    RunEndShift(a, ka, b, kb, sa + 1, InComment);
    var ea, eb := RunEnd(a, sa + 1, InComment), RunEnd(b, sb + 1, InComment);
    assert SameAt(a, ka, b, kb, ea);
    if Peek(a, ea) != EOF {
      AlignedLater(a, ka, b, kb, ea, eb);
      NextTokenShift(a, ea, b, eb);
      CommentThenToken(a, sa);
      CommentThenToken(b, sb);
    } else {
      CommentThenEof(a, sa);
      CommentThenEof(b, sb);
    }
  }

  lemma {:induction false} TokensShift(a: seq<char>, ka: nat, b: seq<char>, kb: nat)
    requires Aligned(a, ka, b, kb)
    ensures Tokens(a, ka) == Tokens(b, kb)
    decreases |a| + 1 - ka
  {
    NextTokenShift(a, ka, b, kb);
    var (ta, ea) := NextToken(a, ka);
    var (tb, eb) := NextToken(b, kb);
    if ta != TokEof {
      assert SameAt(a, ka, b, kb, ea);
      AlignedLater(a, ka, b, kb, ea, eb);
      TokensShift(a, ea, b, eb);
    }
  }

  /** get_tok skips a `#` comment line at the start of the input and lexes
      what follows the newline. */
  lemma CommentLineSkipped(body: string, rest: string)
    requires forall i :: 0 <= i < |body| ==> body[i] != '\n' && body[i] != '\r'
    ensures NextToken("#" + body + "\n" + rest, 0) == NextToken("#" + body + "\n" + rest, |body| + 2)
  {
    var a := "#" + body + "\n" + rest;
    var n := |body| + 2;
    assert RunEnd(a, 0, IsSpace) == 1 by {
      RunEndIsFirstExit(a, 0, IsSpace, 1);
    }
    assert RunEnd(a, 2, InComment) == n by {
      forall i | 2 <= i < n
        ensures InComment(Peek(a, i))
      {
        assert a[i - 1] == body[i - 2];
      }
      assert a[n - 1] == '\n';
      RunEndIsFirstExit(a, 2, InComment, n);
    }
    assert Peek(a, 1) == '#' as int && Peek(a, n) == '\n' as int;
    CommentThenToken(a, 1);
  }

  /** A `#` comment that ends in a newline never yields a token: the input
      lexes exactly as the text after the comment does (lexer.h:54-61). */
  lemma CommentLineYieldsNoToken(body: string, rest: string)
    requires forall i :: 0 <= i < |body| ==> body[i] != '\n' && body[i] != '\r'
    ensures Tokens("#" + body + "\n" + rest, 0) == Tokens(rest, 0)
  {
    var a := "#" + body + "\n" + rest;
    var n := |body| + 2;
    CommentLineSkipped(body, rest);
    assert Tokens(a, 0) == Tokens(a, n);
    forall i | n < i <= |a| + 1
      ensures SameAt(a, n, rest, 0, i)
    {
      if i <= |a| {
        assert a[i - 1] == rest[i - n - 1];
      }
    }
    TokensShift(a, n, rest, 0);
  }

  /** A comment that runs into the end of input yields end-of-input
      (lexer.h:58-59, 65-66). */
  lemma CommentAtEndYieldsEof(body: string)
    requires forall i :: 0 <= i < |body| ==> body[i] != '\n' && body[i] != '\r'
    ensures Tokens("#" + body, 0) == [TokEof]
  {
    var a := "#" + body;
    assert RunEnd(a, 0, IsSpace) == 1 by {
      RunEndIsFirstExit(a, 0, IsSpace, 1);
    }
    forall i | 2 <= i <= |a|
      ensures InComment(Peek(a, i))
    {
      assert a[i - 1] == body[i - 2];
    }
    RunEndIsFirstExit(a, 2, InComment, |a| + 1);
    assert TokenAt(a, 1) == (TokEof, |a| + 1);
    assert NextToken(a, 0) == (TokEof, |a| + 1);
  }

  /** An input that is one word, a letter followed by letters and digits,
      lexes as that identifier or keyword. */
  lemma LoneWord(w: string)
    requires |w| > 0 && IsAlpha(w[0] as int)
    requires forall c :: c in w ==> IsAlnum(c as int)
    ensures NextToken(w, 0) == (KeywordOr(w), |w| + 1)
  {
    RunEndIsFirstExit(w, 0, IsSpace, 1);
    forall i | 2 <= i <= |w|
      ensures IsAlnum(Peek(w, i))
    {
      assert w[i - 1] in w;
    }
    RunEndIsFirstExit(w, 2, IsAlnum, |w| + 1);
    assert w[0 .. |w|] == w;
  }

  /** An input that is one numeral lexes as that numeral. */
  lemma LoneNumeral(w: string)
    requires |w| > 0 && IsDigit(w[0] as int)
    requires forall c :: c in w ==> IsNumeralChar(c as int)
    ensures NextToken(w, 0) == (TokNumber(w), |w| + 1)
  {
    RunEndIsFirstExit(w, 0, IsSpace, 1);
    forall i | 2 <= i <= |w|
      ensures IsNumeralChar(Peek(w, i))
    {
      assert w[i - 1] in w;
    }
    RunEndIsFirstExit(w, 2, IsNumeralChar, |w| + 1);
    assert w[0 .. |w|] == w;
  }

  /** At the end of input the only token left is end-of-input. */
  lemma TokensAtEnd(input: seq<char>)
    ensures Tokens(input, |input| + 1) == [TokEof]
  {
    assert RunEnd(input, |input| + 1, IsSpace) == |input| + 1;
    assert NextToken(input, |input| + 1) == (TokEof, |input| + 1);
  }

  /** The whole token stream of a lone numeral: the numeral, then end of
      input. */
  lemma LoneNumeralTokens(w: string)
    requires |w| > 0 && IsDigit(w[0] as int)
    requires forall c :: c in w ==> IsNumeralChar(c as int)
    ensures Tokens(w, 0) == [TokNumber(w), TokEof]
  {
    LoneNumeral(w);
    TokensAtEnd(w);
  }
}
