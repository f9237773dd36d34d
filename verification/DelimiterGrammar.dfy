/** What the scanners take for a comment, a literal and a lambda, written down as a grammar of the text
    itself, and that they take exactly those: the matcher passes over comments and literals, and the
    masker blanks them and whole lambdas and keeps everything else. */
module DelimiterGrammar {
  import DelimiterLaws
  import opened DelimiterScan

  // ----- Comments and literals ------------------------------------------------------------------

  /** From two slashes up to the line break or the end of the text. */
  ghost predicate LineComment(text: string, i: nat, j: nat) {
    && i + 2 <= j <= |text| && text[i] == '/' && text[i + 1] == '/'
    && (forall k :: i <= k < j ==> text[k] != '\n') && (j == |text| || text[j] == '\n')
  }

  predicate ClosesBlock(text: string, k: nat) {
    k + 1 < |text| && text[k] == '*' && text[k + 1] == '/'
  }

  /** From slash and star to the first star and slash after them, or to the end of the text. */
  ghost predicate BlockComment(text: string, i: nat, j: nat) {
    && i + 2 <= j <= |text| && text[i] == '/' && text[i + 1] == '*'
    && if j >= i + 4 && ClosesBlock(text, j - 2) then forall k: nat :: i + 2 <= k < j - 2 ==> !ClosesBlock(text, k)
       else j == |text| && forall k: nat :: i + 2 <= k ==> !ClosesBlock(text, k)
  }

  /** A backslash with the character after it, or a character other than backslash and quote, repeated. */
  predicate LiteralBody(text: string, i: nat, j: nat, quote: char)
    decreases j - i
  {
    && i <= j <= |text|
    && (i < j ==> if text[i] == '\\' then LiteralBody(text, i + 2, j, quote)
                  else text[i] != quote && LiteralBody(text, i + 1, j, quote))
  }

  /** From a quote to the next one that closes it, or to the end of the text. */
  ghost predicate LiteralAt(text: string, i: nat, j: nat) {
    && i < j <= |text| && (text[i] == '"' || text[i] == '\'')
    && (|| (i + 1 < j && text[j - 1] == text[i] && LiteralBody(text, i + 1, j - 1, text[i]))
        || (j == |text| && LiteralBody(text, i + 1, j, text[i]))
        || (j == |text| && i + 1 < j && text[j - 1] == '\\' && LiteralBody(text, i + 1, j - 1, text[i])))
  }

  ghost predicate CommentOrLiteral(text: string, i: nat, j: nat) {
    LineComment(text, i, j) || BlockComment(text, i, j) || LiteralAt(text, i, j)
  }

  /** Neither begins at `i`. */
  predicate BeginsNeither(text: string, i: nat) {
    && i < |text| && text[i] != '"' && text[i] != '\''
    && !(text[i] == '/' && i + 1 < |text| && (text[i + 1] == '/' || text[i + 1] == '*'))
  }

  lemma CommentOrLiteralBegins(text: string, i: nat) returns (j: nat)
    requires i < |text| && !BeginsNeither(text, i)
    ensures CommentOrLiteral(text, i, j) && j > i
  {
    if text[i] == '/' && text[i + 1] == '/' {
      j := i + 2;
      while j < |text| && text[j] != '\n'
        invariant i + 2 <= j <= |text| && forall k :: i <= k < j ==> text[k] != '\n'
      {
        j := j + 1;
      }
    } else if text[i] == '/' {
      j := i + 2;
      while j < |text| && !ClosesBlock(text, j)
        invariant i + 2 <= j <= |text| && forall k: nat :: i + 2 <= k < j ==> !ClosesBlock(text, k)
      {
        j := j + 1;
      }
      j := if j < |text| then j + 2 else j;
      assert BlockComment(text, i, j);
    } else {
      j := LiteralEnd(text, i, i + 1);
    }
  }

  lemma LiteralEnd(text: string, i: nat, k: nat) returns (j: nat)
    requires i < k <= |text| && (text[i] == '"' || text[i] == '\'') && LiteralBody(text, i + 1, k, text[i])
    ensures LiteralAt(text, i, j)
    decreases |text| - k
  {
    if k == |text| {
      j := k;
    } else if text[k] == text[i] {
      j := k + 1;
    } else if text[k] != '\\' {
      OneMore(text, i + 1, k, k + 1, text[i]);
      j := LiteralEnd(text, i, k + 1);
    } else if k + 1 == |text| {
      j := k + 1;
    } else {
      OneMore(text, i + 1, k, k + 2, text[i]);
      j := LiteralEnd(text, i, k + 2);
    }
  }

  lemma {:induction false} OneMore(text: string, i: nat, k: nat, j: nat, quote: char)
    requires LiteralBody(text, i, k, quote) && k < j <= |text| && text[k] != quote
    requires j == if text[k] == '\\' then k + 2 else k + 1
    ensures LiteralBody(text, i, j, quote)
    decreases k - i
  {
    if i < k {
      OneMore(text, if text[i] == '\\' then i + 2 else i + 1, k, j, quote);
    }
  }

  // ----- The matcher ----------------------------------------------------------------------------

  lemma {:induction false} MatchedThroughLine(text: string, i: nat, j: nat, depth: int, open: char, close: char)
    requires i <= j <= |text| && (forall k :: i <= k < j ==> text[k] != '\n') && (j == |text| || text[j] == '\n')
    requires open != '\n' && close != '\n'
    ensures Matched(text, Line, i, depth, open, close) == Matched(text, Code, j, depth, open, close)
    decreases j - i
  {
    if i < j {
      MatchedThroughLine(text, i + 1, j, depth, open, close);
    }
  }

  lemma {:induction false} MatchedThroughBlock(text: string, i: nat, j: nat, depth: int, open: char, close: char)
    requires i <= j <= |text|
    requires if ClosesBlock(text, j) then forall k: nat :: i <= k < j ==> !ClosesBlock(text, k)
             else j == |text| && forall k: nat :: i <= k ==> !ClosesBlock(text, k)
    ensures Matched(text, Block, i, depth, open, close)
         == Matched(text, Code, if j == |text| then j else j + 2, depth, open, close)
    decreases j - i
  {
    if i < j {
      assert !ClosesBlock(text, i);
      MatchedThroughBlock(text, i + 1, j, depth, open, close);
    }
  }

  lemma {:induction false} MatchedThroughLiteral(text: string, i: nat, j: nat, quote: char, depth: int,
                                                 open: char, close: char)
    requires LiteralBody(text, i, j, quote) && quote != '\\'
    ensures Matched(text, Literal(quote), i, depth, open, close)
         == Matched(text, Literal(quote), j, depth, open, close)
    decreases j - i
  {
    if i < j {
      MatchedThroughLiteral(text, if text[i] == '\\' then i + 2 else i + 1, j, quote, depth, open, close);
    }
  }

  /** Comments and literals leave the matcher's depth alone, whatever delimiters they hold. */
  lemma MatcherPassesOver(text: string, i: nat, j: nat, depth: int, open: char, close: char)
    requires CommentOrLiteral(text, i, j) && open != '\n' && close != '\n'
    ensures Matched(text, Code, i, depth, open, close) == Matched(text, Code, j, depth, open, close)
  {
    if LineComment(text, i, j) {
      MatchedThroughLine(text, i + 2, j, depth, open, close);
    } else if BlockComment(text, i, j) {
      MatchedThroughBlock(text, i + 2, if j >= i + 4 && ClosesBlock(text, j - 2) then j - 2 else j, depth, open, close);
    } else {
      LiteralPassedOver(text, i, j, depth, open, close);
    }
  }

  lemma LiteralPassedOver(text: string, i: nat, j: nat, depth: int, open: char, close: char)
    requires LiteralAt(text, i, j)
    ensures Matched(text, Code, i, depth, open, close) == Matched(text, Code, j, depth, open, close)
  {
    if j == |text| && LiteralBody(text, i + 1, j, text[i]) {
      MatchedThroughLiteral(text, i + 1, j, text[i], depth, open, close);
    } else {
      MatchedThroughLiteral(text, i + 1, j - 1, text[i], depth, open, close);
    }
  }

  /** Elsewhere it counts: up for the opening delimiter, down for the closing one, and the answer is
      where that brings the depth to zero. */
  lemma MatcherCounts(text: string, i: nat, depth: int, open: char, close: char)
    requires BeginsNeither(text, i)
    ensures Matched(text, Code, i, depth, open, close)
         == if text[i] == open then Matched(text, Code, i + 1, depth + 1, open, close)
            else if text[i] != close then Matched(text, Code, i + 1, depth, open, close)
            else if depth - 1 == 0 then i
            else Matched(text, Code, i + 1, depth - 1, open, close)
  {
  }

  // ----- Lambdas --------------------------------------------------------------------------------

  ghost predicate Blanks(text: string, i: nat, j: nat) {
    i <= j <= |text| && forall k :: i <= k < j ==> text[k] in " \t\n\r\U{0B}\U{0C}\U{1C}\U{1D}\U{1E}\U{1F}"
  }

  predicate WordPart(c: char) {
    'a' <= c <= 'z' || 'A' <= c <= 'Z' || '0' <= c <= '9' || c == '_'
  }

  /** One of the five words, not going on as a longer one. */
  predicate Specifier(text: string, i: nat, j: nat) {
    && i <= j <= |text| && text[i..j] in ["mutable", "noexcept", "constexpr", "consteval", "const"]
    && (j == |text| || !WordPart(text[j]))
  }

  /** Any number of them, each with blanks after it. */
  ghost predicate SpecifierList(text: string, i: nat, j: nat)
    decreases j - i
  {
    i == j || exists m: nat, n: nat ::
      i < m <= n <= j && Specifier(text, i, m) && Blanks(text, m, n) && SpecifierList(text, n, j)
  }

  /** A bracketed list that opens at `i`, and the blanks after it. */
  ghost predicate ListTo(text: string, i: nat, open: char, close: char, j: nat) {
    var end := MatchingDelimiter(text, i, open, close);
    end >= 0 && Blanks(text, end + 1, j)
  }

  /** What may stand between the lists and the brace of the body at `brace`: an arrow and a return type of
      fewer than 118 characters without parentheses, semicolons and braces, or specifiers. */
  ghost predicate Tail(text: string, h: nat, brace: nat) {
    && h <= brace < |text| && text[brace] == '{'
    && (|| (h + 2 <= brace < h + 120 && text[h] == '-' && text[h + 1] == '>'
            && forall k :: h + 2 <= k < brace ==> text[k] !in "(){;")
        || SpecifierList(text, h, brace))
  }

  /** Where the parameter list, if there is one, leaves off. */
  ghost predicate MaybeParameters(text: string, a: nat, h: nat) {
    h == a || (a < |text| && text[a] == '(' && ListTo(text, a, '(', ')', h))
  }

  /** A capture list at `i`, perhaps a parameter list, and such a tail up to the brace of the body. */
  ghost predicate LambdaHead(text: string, i: nat, brace: nat) {
    exists a: nat, h: nat :: ListTo(text, i, '[', ']', a) && MaybeParameters(text, a, h) && Tail(text, h, brace)
  }

  lemma {:induction false} SkippedBlanks(text: string, i: nat)
    requires i <= |text|
    ensures Blanks(text, i, SkipSpaces(text, i))
    ensures SkipSpaces(text, i) < |text| ==> !IsSpace(text[SkipSpaces(text, i)])
    decreases |text| - i
  {
    if i < |text| && IsSpace(text[i]) {
      SkippedBlanks(text, i + 1);
    }
  }

  lemma {:induction false} BlanksAreSkipped(text: string, i: nat, j: nat)
    requires Blanks(text, i, j) && (j == |text| || !IsSpace(text[j]))
    ensures SkipSpaces(text, i) == j
    decreases j - i
  {
    if i < j {
      assert IsSpace(text[i]);
      BlanksAreSkipped(text, i + 1, j);
    }
  }

  /** A list of specifiers at `i` and a brace behind it begin with no blank. */
  lemma TailBegins(text: string, h: nat, brace: nat)
    requires Tail(text, h, brace)
    ensures h < |text| && !IsSpace(text[h]) && text[h] != '('
    ensures text[h] == '-' ==> !SpecifierList(text, h, brace)
    ensures text[h] != '-' ==> SpecifierList(text, h, brace)
  {
    hide Specifier, Blanks;
    if h < brace && SpecifierList(text, h, brace) {
      var m: nat, n: nat :| h < m <= n <= brace && Specifier(text, h, m) && Blanks(text, m, n)
        && SpecifierList(text, n, brace);
      SpecifierStarts(text, h, m);
    }
  }

  lemma SpecifierStarts(text: string, i: nat, j: nat)
    requires Specifier(text, i, j)
    ensures i < |text| && IsWordChar(text[i])
  {
    SpecifiersAreWords(text[i..j]);
    assert i + |text[i..j]| == j;
    WordStarts(text, i, text[i..j]);
  }

  lemma {:induction false} ArrowBraceIs(text: string, i: nat, limit: nat, brace: nat)
    requires limit <= |text|
    ensures ArrowBrace(text, i, limit) == brace <==>
              i <= brace < limit && text[brace] == '{' && forall k :: i <= k < brace ==> text[k] !in "(){;"
    decreases limit - i
  {
    if i < limit && text[i] != '{' && text[i] !in "();" {
      ArrowBraceIs(text, i + 1, limit, brace);
    }
  }

  lemma SpecifierIsUnique(text: string, i: nat, word: string, other: string)
    requires SpecifierAt(text, word, i) && SpecifierAt(text, other, i)
    requires (forall c :: c in word ==> IsWordChar(c)) && (forall c :: c in other ==> IsWordChar(c))
    ensures word == other
  {
  }

  lemma SpecifiersAreWords(word: string)
    ensures word in SPECIFIERS <==> word in ["mutable", "noexcept", "constexpr", "consteval", "const"]
    ensures word in SPECIFIERS ==> word != "" && forall c :: c in word ==> IsWordChar(c)
  {
  }

  lemma {:induction false} SpecifierFromFinds(text: string, i: nat, k: nat)
    requires k <= |SPECIFIERS|
    ensures var word := SpecifierFrom(text, i, k);
      if word == "" then forall n :: k <= n < |SPECIFIERS| ==> !SpecifierAt(text, SPECIFIERS[n], i)
      else word in SPECIFIERS && SpecifierAt(text, word, i)
    decreases |SPECIFIERS| - k
  {
    hide SpecifierAt;
    if k < |SPECIFIERS| {
      SpecifiersAreWords(SPECIFIERS[k]);
      SpecifierFromFinds(text, i, k + 1);
    }
  }

  /** The word found at `i` is the one that stands there. */
  lemma FoundSpecifier(text: string, i: nat, j: nat)
    ensures i < j && Specifier(text, i, j) <==> SpecifierFrom(text, i, 0) != "" && i + |SpecifierFrom(text, i, 0)| == j
    ensures Specifier(text, i, j) ==> i < j
  {
    SpecifierFromFinds(text, i, 0);
    hide SpecifierFrom;
    var word := SpecifierFrom(text, i, 0);
    SpecifiersAreWords(word);
    if Specifier(text, i, j) {
      SpecifiersAreWords(text[i..j]);
      assert i + |text[i..j]| == j && SpecifierAt(text, text[i..j], i);
      var n :| 0 <= n < |SPECIFIERS| && SPECIFIERS[n] == text[i..j];
      SpecifierIsUnique(text, i, word, text[i..j]);
    }
  }

  lemma {:induction false} SkippedSpecifiers(text: string, i: nat)
    requires i <= |text|
    ensures i <= SkipSpecifiers(text, i) <= |text| && SpecifierList(text, i, SkipSpecifiers(text, i))
    decreases |text| - i
  {
    hide SpecifierFrom, Specifier, Blanks;
    var word := SpecifierFrom(text, i, 0);
    if word != "" {
      FoundSpecifier(text, i, i + |word|);
      SkippedBlanks(text, i + |word|);
      BlanksStay(text, i + |word|, SkipSpaces(text, i + |word|));
      SkippedSpecifiers(text, SkipSpaces(text, i + |word|));
    }
  }

  lemma BlanksStay(text: string, i: nat, j: nat)
    requires Blanks(text, i, j)
    ensures i <= j <= |text|
  {
  }

  lemma {:induction false} SpecifiersAreSkipped(text: string, i: nat, j: nat)
    requires i <= j < |text| && text[j] == '{' && SpecifierList(text, i, j)
    ensures SkipSpecifiers(text, i) == j
    decreases j - i
  {
    hide SpecifierFrom, Specifier, Blanks, SkipSpaces;
    if i == j {
      NoneAtBrace(text, i);
    } else {
      var m: nat, n: nat :| i < m <= n <= j && Specifier(text, i, m) && Blanks(text, m, n) && SpecifierList(text, n, j);
      NextIsNoBlank(text, n, j);
      OneSpecifierSkipped(text, i, m, n);
      SpecifiersAreSkipped(text, n, j);
    }
  }

  lemma NextIsNoBlank(text: string, i: nat, j: nat)
    requires i <= j < |text| && text[j] == '{' && SpecifierList(text, i, j)
    ensures !IsSpace(text[i])
  {
    hide SpecifierList;
    TailBegins(text, i, j);
  }

  lemma OneSpecifierSkipped(text: string, i: nat, m: nat, n: nat)
    requires Specifier(text, i, m) && Blanks(text, m, n) && n < |text| && !IsSpace(text[n])
    ensures SkipSpecifiers(text, i) == SkipSpecifiers(text, n)
  {
    hide SpecifierFrom, Specifier, Blanks, SkipSpaces;
    FoundSpecifier(text, i, m);
    BlanksAreSkipped(text, m, n);
  }

  lemma NoneAtBrace(text: string, i: nat)
    requires i < |text| && text[i] == '{'
    ensures SpecifierFrom(text, i, 0) == ""
  {
    SpecifierFromFinds(text, i, 0);
    hide SpecifierFrom;
    var word := SpecifierFrom(text, i, 0);
    if word != "" {
      WordStarts(text, i, word);
    }
  }

  lemma WordStarts(text: string, i: nat, word: string)
    requires word in SPECIFIERS && SpecifierAt(text, word, i)
    ensures i < |text| && IsWordChar(text[i])
  {
    SpecifiersAreWords(word);
    assert text[i] == text[i..i + |word|][0] == word[0] && word[0] in word;
  }

  /** Behind the lists: exactly the brace that such a tail leads to. */
  lemma TailIsFound(text: string, h: nat, brace: nat)
    requires h <= |text|
    ensures AfterParameters(text, h) == brace <==> Tail(text, h, brace)
  {
    hide SpecifierList, SkipSpecifiers, ArrowBrace;
    if h + 1 < |text| && text[h] == '-' && text[h + 1] == '>' {
      ArrowBraceIs(text, h + 2, if h + 120 < |text| then h + 120 else |text|, brace);
    } else {
      SkippedSpecifiers(text, h);
    }
    if Tail(text, h, brace) {
      TailBegins(text, h, brace);
      if text[h] != '-' {
        SpecifiersAreSkipped(text, h, brace);
      }
    }
  }

  lemma ParametersAreFound(text: string, a: nat, brace: nat)
    requires a <= |text| && (a == |text| || !IsSpace(text[a]))
    ensures AfterCapture(text, a) == brace <==> exists h: nat :: MaybeParameters(text, a, h) && Tail(text, h, brace)
  {
    hide Tail, AfterParameters, Matched, SkipSpaces, Blanks;
    if a < |text| && text[a] == '(' {
      var close := MatchingDelimiter(text, a, '(', ')');
      if close >= 0 {
        var h := SkipSpaces(text, close + 1);
        SkippedBlanks(text, close + 1);
        BlanksStay(text, close + 1, h);
        TailIsFound(text, h, brace);
        if AfterCapture(text, a) == brace {
          assert MaybeParameters(text, a, h) && Tail(text, h, brace);
        }
      }
      forall h: nat | MaybeParameters(text, a, h) && Tail(text, h, brace) ensures AfterCapture(text, a) == brace {
        TailBegins(text, h, brace);
        BlanksAreSkipped(text, close + 1, h);
        TailIsFound(text, h, brace);
      }
    } else {
      TailIsFound(text, a, brace);
      if AfterCapture(text, a) == brace {
        assert MaybeParameters(text, a, a);
      }
    }
  }

  /** The guard recognises a lambda by exactly this shape, and no other. */
  lemma RecognisesExactlyLambdas(text: string, i: nat, brace: nat)
    ensures LambdaBodyBrace(text, i) == brace <==> LambdaHead(text, i, brace)
  {
    hide Tail, AfterCapture, Matched, SkipSpaces, Blanks, MaybeParameters;
    var close := MatchingDelimiter(text, i, '[', ']');
    if close >= 0 {
      var a := SkipSpaces(text, close + 1);
      SkippedBlanks(text, close + 1);
      BlanksStay(text, close + 1, a);
      ParametersAreFound(text, a, brace);
      if LambdaBodyBrace(text, i) == brace {
        var h: nat :| MaybeParameters(text, a, h) && Tail(text, h, brace);
        assert ListTo(text, i, '[', ']', a);
      }
      forall a': nat, h: nat | ListTo(text, i, '[', ']', a') && MaybeParameters(text, a', h) && Tail(text, h, brace)
        ensures LambdaBodyBrace(text, i) == brace
      {
        FirstIsNoBlank(text, a', h, brace);
        BlanksAreSkipped(text, close + 1, a');
      }
    }
  }

  lemma FirstIsNoBlank(text: string, a: nat, h: nat, brace: nat)
    requires MaybeParameters(text, a, h) && Tail(text, h, brace)
    ensures a < |text| && !IsSpace(text[a])
  {
    hide Tail;
    TailBegins(text, h, brace);
  }

  // ----- The masker -----------------------------------------------------------------------------

  /** Between `i` and `j` only line breaks are left, and the masker goes on at `j` in `mode'`. */
  ghost predicate BlanksTo(text: string, mode: Mode, i: nat, mode': Mode, j: nat) {
    var masked, rest := Masked(text, mode, i), Masked(text, mode', j);
    && i <= j <= |text| && |masked| == j - i + |rest| && masked[j - i..] == rest
    && forall k :: i <= k < j ==> masked[k - i] == if text[k] == '\n' then '\n' else ' '
  }

  lemma BlanksOn(text: string, mode: Mode, i: nat, mode1: Mode, j: nat, mode2: Mode, k: nat)
    requires BlanksTo(text, mode, i, mode1, j) && BlanksTo(text, mode1, j, mode2, k)
    ensures BlanksTo(text, mode, i, mode2, k)
  {
    hide Masked;
    var masked, middle := Masked(text, mode, i), Masked(text, mode1, j);
    assert forall n :: 0 <= n < k - j ==> middle[n] == masked[j - i..][n] == masked[j - i + n];
    assert masked[k - i..] == masked[j - i..][k - j..];
  }

  /** One move of the masker that leaves nothing but line breaks. */
  lemma MoveBlanks(text: string, mode: Mode, i: nat)
    requires i < |text|
    requires var m := MaskStep(text, mode, i);
      forall k :: i <= k < m.next ==> m.out[k - i] == if text[k] == '\n' then '\n' else ' '
    ensures var m := MaskStep(text, mode, i); BlanksTo(text, mode, i, m.mode, m.next)
  {
    hide MaskStep;
  }

  lemma {:induction false} LineIsBlanked(text: string, i: nat, j: nat)
    requires i <= j <= |text| && (forall k :: i <= k < j ==> text[k] != '\n') && (j == |text| || text[j] == '\n')
    ensures BlanksTo(text, Line, i, Code, j)
    decreases j - i
  {
    hide BlanksTo, Masked;
    if i < j {
      MoveBlanks(text, Line, i);
      LineIsBlanked(text, i + 1, j);
      BlanksOn(text, Line, i, Line, i + 1, Code, j);
    } else {
      LineEnds(text, j);
    }
  }

  lemma LineEnds(text: string, j: nat)
    requires j == |text| || (j < |text| && text[j] == '\n')
    ensures BlanksTo(text, Line, j, Code, j)
  {
    if j < |text| {
      assert MaskStep(text, Line, j) == Move("", Code, j);
    }
  }

  lemma BlockEnds(text: string, j: nat)
    requires j == |text|
    ensures BlanksTo(text, Block, j, Code, j)
  {
  }

  lemma {:induction false} BlockIsBlanked(text: string, i: nat, j: nat)
    requires i <= j <= |text|
    requires if ClosesBlock(text, j) then forall k: nat :: i <= k < j ==> !ClosesBlock(text, k)
             else j == |text| && forall k: nat :: i <= k ==> !ClosesBlock(text, k)
    ensures BlanksTo(text, Block, i, Code, if j == |text| then j else j + 2)
    decreases j - i
  {
    hide BlanksTo, Masked;
    if i < j {
      assert !ClosesBlock(text, i);
      MoveBlanks(text, Block, i);
      BlockIsBlanked(text, i + 1, j);
      BlanksOn(text, Block, i, Block, i + 1, Code, if j == |text| then j else j + 2);
    } else if j < |text| {
      MoveBlanks(text, Block, i);
    } else {
      BlockEnds(text, j);
    }
  }

  /** Comments are blanked, line breaks excepted. */
  lemma CommentsAreBlanked(text: string, i: nat, j: nat)
    requires LineComment(text, i, j) || BlockComment(text, i, j)
    ensures BlanksTo(text, Code, i, Code, j)
  {
    hide BlanksTo;
    CommentStarts(text, i);
    if LineComment(text, i, j) {
      LineIsBlanked(text, i + 1, j);
      BlanksOn(text, Code, i, Line, i + 1, Code, j);
    } else {
      BlockIsBlanked(text, i + 2, if j >= i + 4 && ClosesBlock(text, j - 2) then j - 2 else j);
      BlanksOn(text, Code, i, Block, i + 2, Code, j);
    }
  }

  lemma CommentStarts(text: string, i: nat)
    requires i + 1 < |text| && text[i] == '/' && (text[i + 1] == '/' || text[i + 1] == '*')
    ensures if text[i + 1] == '/' then BlanksTo(text, Code, i, Line, i + 1) else BlanksTo(text, Code, i, Block, i + 2)
  {
    hide LambdaBodyBrace, BlanksTo;
    MoveBlanks(text, Code, i);
  }

  /** The character at `k` follows a backslash that escapes it, in a literal whose body starts at `start`. */
  predicate Escaped(text: string, start: nat, k: nat, quote: char) {
    start < k <= |text| && text[k - 1] == '\\' && LiteralBody(text, start, k - 1, quote)
  }

  /** As `BlanksTo`, inside a literal: escaped line breaks are blanked too. */
  ghost predicate LiteralBlanksTo(text: string, start: nat, quote: char, i: nat, mode: Mode, j: nat) {
    var masked, rest := Masked(text, Literal(quote), i), Masked(text, mode, j);
    && i <= j <= |text| && |masked| == j - i + |rest| && masked[j - i..] == rest
    && forall k :: i <= k < j ==>
         masked[k - i] == if text[k] == '\n' && !Escaped(text, start, k, quote) then '\n' else ' '
  }

  lemma {:induction false} EscapeTakesTwo(text: string, i: nat, a: nat, b: nat, quote: char)
    requires LiteralBody(text, i, a, quote) && LiteralBody(text, i, b, quote) && a < b && text[a] == '\\'
    ensures b >= a + 2
    decreases a - i
  {
    if i < a {
      EscapeTakesTwo(text, if text[i] == '\\' then i + 2 else i + 1, a, b, quote);
    }
  }

  lemma NotEscaped(text: string, start: nat, i: nat, quote: char)
    requires LiteralBody(text, start, i, quote)
    ensures !Escaped(text, start, i, quote)
  {
    if Escaped(text, start, i, quote) {
      EscapeTakesTwo(text, start, i - 1, i, quote);
    }
  }

  lemma {:induction false} Appended(text: string, i: nat, j: nat, k: nat, quote: char)
    requires LiteralBody(text, i, j, quote) && LiteralBody(text, j, k, quote)
    ensures LiteralBody(text, i, k, quote)
    decreases j - i
  {
    if i < j {
      Appended(text, if text[i] == '\\' then i + 2 else i + 1, j, k, quote);
    }
  }

  lemma LiteralMove(text: string, start: nat, i: nat, quote: char)
    requires LiteralBody(text, start, i, quote) && i < |text| && quote != '\\' && quote != '\n'
    ensures var m := MaskStep(text, Literal(quote), i);
      && LiteralBlanksTo(text, start, quote, i, m.mode, m.next)
      && m.mode == (if text[i] == quote then Code else Literal(quote))
      && m.next == if text[i] == '\\' && i + 1 < |text| then i + 2 else i + 1
  {
    NotEscaped(text, start, i, quote);
    var m := MaskStep(text, Literal(quote), i);
    assert text[i] == '\\' ==> Escaped(text, start, i + 1, quote);
    var masked := Masked(text, Literal(quote), i);
    assert forall n :: 0 <= n < |m.out| ==> masked[n] == m.out[n];
    hide LiteralBody, Masked;
  }

  lemma LiteralBlanksOn(text: string, start: nat, quote: char, i: nat, j: nat, mode: Mode, k: nat)
    requires LiteralBlanksTo(text, start, quote, i, Literal(quote), j)
    requires LiteralBlanksTo(text, start, quote, j, mode, k)
    ensures LiteralBlanksTo(text, start, quote, i, mode, k)
  {
    hide Masked, Escaped;
    var masked, middle := Masked(text, Literal(quote), i), Masked(text, Literal(quote), j);
    assert forall n :: 0 <= n < k - j ==> middle[n] == masked[j - i..][n] == masked[j - i + n];
    assert masked[k - i..] == masked[j - i..][k - j..];
  }

  lemma {:induction false} BodyIsBlanked(text: string, start: nat, i: nat, j: nat, quote: char)
    requires LiteralBody(text, start, i, quote) && LiteralBody(text, i, j, quote) && quote != '\\' && quote != '\n'
    ensures LiteralBlanksTo(text, start, quote, i, Literal(quote), j)
    decreases j - i
  {
    if i < j {
      var next := if text[i] == '\\' then i + 2 else i + 1;
      LiteralMove(text, start, i, quote);
      OneMore(text, start, i, next, quote);
      BodyIsBlanked(text, start, next, j, quote);
      hide LiteralBlanksTo, LiteralBody;
      LiteralBlanksOn(text, start, quote, i, next, Literal(quote), j);
    }
  }

  /** Literals are blanked, line breaks that are not escaped excepted. */
  lemma LiteralsAreBlanked(text: string, i: nat, j: nat)
    requires LiteralAt(text, i, j)
    ensures var masked := Masked(text, Code, i);
      && |masked| == j - i + |Masked(text, Code, j)| && masked[j - i..] == Masked(text, Code, j)
      && forall k :: i <= k < j ==>
           masked[k - i] == if text[k] == '\n' && !Escaped(text, i + 1, k, text[i]) then '\n' else ' '
  {
    var quote := text[i];
    assert Masked(text, Code, i) == " " + Masked(text, Literal(quote), i + 1) by {
      assert MaskStep(text, Code, i) == Move(" ", Literal(quote), i + 1);
    }
    LiteralRest(text, i, j);
    hide Masked, LiteralBody;
    var masked, inner := Masked(text, Code, i), Masked(text, Literal(quote), i + 1);
    assert forall n :: 0 <= n < |inner| ==> inner[n] == masked[n + 1];
    assert masked[j - i..] == inner[j - (i + 1)..];
  }

  lemma LiteralRest(text: string, i: nat, j: nat)
    requires LiteralAt(text, i, j)
    ensures LiteralBlanksTo(text, i + 1, text[i], i + 1, Code, j)
  {
    var quote := text[i];
    NothingLeft(text, quote);
    hide MaskStep, Masked, LiteralBody;
    if j == |text| && LiteralBody(text, i + 1, j, quote) {
      BodyIsBlanked(text, i + 1, i + 1, j, quote);
    } else {
      BodyIsBlanked(text, i + 1, i + 1, j - 1, quote);
      LiteralMove(text, i + 1, j - 1, quote);
      hide Escaped, LiteralBlanksTo;
      LiteralBlanksOn(text, i + 1, quote, i + 1, j - 1, if text[j - 1] == quote then Code else Literal(quote), j);
      if text[j - 1] != quote {
        ModesAgree(text, i + 1, quote, j);
      }
    }
  }

  lemma ModesAgree(text: string, start: nat, quote: char, j: nat)
    requires j == |text| && LiteralBlanksTo(text, start, quote, start, Literal(quote), j)
    ensures LiteralBlanksTo(text, start, quote, start, Code, j)
  {
    NothingLeft(text, quote);
  }

  lemma NothingLeft(text: string, quote: char)
    ensures Masked(text, Literal(quote), |text|) == Masked(text, Code, |text|) == ""
  {
  }

  /** The lambda with this head ends with the brace that closes its body, or with the text. */
  ghost predicate LambdaTo(text: string, i: nat, j: nat) {
    && i < |text| && text[i] == '['
    && exists brace: nat :: LambdaHead(text, i, brace) && BodyTo(text, brace, j)
  }

  ghost predicate BodyTo(text: string, brace: nat, j: nat) {
    var end := MatchingDelimiter(text, brace, '{', '}');
    if end < 0 then j == |text| else j == end + 1
  }

  lemma LambdasAre(text: string, i: nat)
    requires i < |text|
    ensures IsLambda(text, i) <==> exists j: nat :: LambdaTo(text, i, j)
    ensures forall j: nat :: LambdaTo(text, i, j) ==> IsLambda(text, i) && LambdaEnd(text, i) == j
  {
    hide LambdaHead, LambdaBodyBrace, Matched;
    if IsLambda(text, i) {
      var brace := LambdaBodyBrace(text, i);
      RecognisesExactlyLambdas(text, i, brace);
      assert BodyTo(text, brace, LambdaEnd(text, i));
      assert LambdaTo(text, i, LambdaEnd(text, i));
    }
    forall j: nat | LambdaTo(text, i, j) ensures IsLambda(text, i) && LambdaEnd(text, i) == j {
      var brace: nat :| LambdaHead(text, i, brace) && BodyTo(text, brace, j);
      RecognisesExactlyLambdas(text, i, brace);
    }
  }

  /** Lambdas are blanked from the bracket to the end of the body, line breaks excepted. */
  lemma LambdasAreBlanked(text: string, i: nat, j: nat)
    requires LambdaTo(text, i, j)
    ensures BlanksTo(text, Code, i, Code, j)
  {
    LambdasAre(text, i);
    hide LambdaTo, IsLambda, LambdaEnd, Blanked;
    LambdaMove(text, i);
    MoveBlanks(text, Code, i);
  }

  lemma LambdaMove(text: string, i: nat)
    requires i < |text| && IsLambda(text, i)
    ensures MaskStep(text, Code, i) == Move(Blanked(text[i..LambdaEnd(text, i)]), Code, LambdaEnd(text, i))
  {
    hide LambdaBodyBrace;
  }

  /** Everything else is kept. */
  lemma TheRestIsKept(text: string, i: nat)
    requires BeginsNeither(text, i) && forall j: nat :: !LambdaTo(text, i, j)
    ensures Masked(text, Code, i) == [text[i]] + Masked(text, Code, i + 1)
  {
    hide LambdaTo;
    LambdasAre(text, i);
    hide IsLambda;
    MaskedPlain(text, i);
  }

  // ----- The whole text -------------------------------------------------------------------------

  /** Two places with a comment, a literal, a lambda or one other character between them. */
  ghost predicate Piece(text: string, i: nat, j: nat) {
    || CommentOrLiteral(text, i, j) || LambdaTo(text, i, j)
    || (j == i + 1 && BeginsNeither(text, i) && forall k: nat :: !LambdaTo(text, i, k))
  }

  /** The piece as the mask shows it: blanked but for line breaks that no backslash escapes in a literal,
      or kept. */
  ghost predicate Shown(text: string, masked: string, i: nat, j: nat) {
    && i < j <= |text| == |masked|
    && forall k :: i <= k < j ==>
         masked[k] == if !CommentOrLiteral(text, i, j) && !LambdaTo(text, i, j) then text[k]
                      else if text[k] == '\n' && !(LiteralAt(text, i, j) && Escaped(text, i + 1, k, text[i])) then '\n'
                      else ' '
  }

  lemma PieceIsShown(text: string, i: nat, j: nat)
    requires Piece(text, i, j)
    ensures var masked := Masked(text, Code, i);
      && i < j <= |text| && |masked| == j - i + |Masked(text, Code, j)| && masked[j - i..] == Masked(text, Code, j)
      && forall k :: i <= k < j ==>
           masked[k - i] == if !CommentOrLiteral(text, i, j) && !LambdaTo(text, i, j) then text[k]
                            else if text[k] == '\n' && !(LiteralAt(text, i, j) && Escaped(text, i + 1, k, text[i]))
                            then '\n' else ' '
  {
    hide Masked, LambdaTo, LineComment, BlockComment, Escaped;
    PieceIsForward(text, i, j);
    if LiteralAt(text, i, j) {
      LiteralsAreBlanked(text, i, j);
    } else if CommentOrLiteral(text, i, j) {
      CommentsAreBlanked(text, i, j);
    } else if LambdaTo(text, i, j) {
      LambdasAreBlanked(text, i, j);
    } else {
      TheRestIsKept(text, i);
    }
  }

  lemma PieceIsForward(text: string, i: nat, j: nat)
    requires Piece(text, i, j)
    ensures i < j <= |text|
  {
    hide LambdaTo;
    if LambdaTo(text, i, j) {
      LambdaIsForward(text, i, j);
    }
  }

  lemma LambdaIsForward(text: string, i: nat, j: nat)
    requires LambdaTo(text, i, j)
    ensures i < j <= |text|
  {
    LambdasAre(text, i);
  }

  lemma PieceBegins(text: string, i: nat) returns (j: nat)
    requires i < |text|
    ensures Piece(text, i, j) && i < j <= |text|
  {
    hide LambdaTo, CommentOrLiteral;
    if !BeginsNeither(text, i) {
      j := CommentOrLiteralBegins(text, i);
    } else if k: nat :| LambdaTo(text, i, k) {
      j := k;
    } else {
      j := i + 1;
    }
    PieceIsForward(text, i, j);
  }

  /** Cut into such pieces, one after the other, from `i` to the end. */
  ghost predicate CutsFrom(text: string, i: nat, cuts: seq<nat>)
    decreases |cuts|
  {
    if cuts == [] then i == |text| else Piece(text, i, cuts[0]) && CutsFrom(text, cuts[0], cuts[1..])
  }

  ghost predicate AllShown(text: string, masked: string, i: nat, cuts: seq<nat>)
    decreases |cuts|
  {
    cuts != [] ==> Shown(text, masked, i, cuts[0]) && AllShown(text, masked, cuts[0], cuts[1..])
  }

  lemma {:induction false} EveryTextHasCuts(text: string, i: nat) returns (cuts: seq<nat>)
    requires i <= |text|
    ensures CutsFrom(text, i, cuts)
    decreases |text| - i
  {
    hide Piece;
    if i == |text| {
      cuts := [];
    } else {
      var j := PieceBegins(text, i);
      var rest := EveryTextHasCuts(text, j);
      cuts := [j] + rest;
      assert cuts[1..] == rest;
    }
  }

  lemma {:induction false} CutsAreShown(text: string, masked: string, i: nat, cuts: seq<nat>)
    requires i <= |text| == |masked| && masked[i..] == Masked(text, Code, i) && CutsFrom(text, i, cuts)
    ensures AllShown(text, masked, i, cuts)
    decreases |cuts|
  {
    hide Masked, Piece, Shown;
    if cuts != [] {
      PieceIsShown(text, i, cuts[0]);
      ShownFrom(text, masked, i, cuts[0]);
      assert masked[cuts[0]..] == masked[i..][cuts[0] - i..];
      CutsAreShown(text, masked, cuts[0], cuts[1..]);
    }
  }

  lemma ShownFrom(text: string, masked: string, i: nat, j: nat)
    requires i <= |text| == |masked| && masked[i..] == Masked(text, Code, i) && Piece(text, i, j)
    ensures Shown(text, masked, i, j)
  {
    PieceIsShown(text, i, j);
    hide Masked, Piece, LambdaTo, CommentOrLiteral, LiteralAt, Escaped;
    assert forall k :: i <= k < j ==> masked[k] == masked[i..][k - i];
  }

  /** Every text falls into comments, literals, lambdas and other characters, and however it does, the
      masker blanks exactly the former and keeps exactly the latter. */
  lemma CodeOnlyBlanksExactly(text: string) returns (cuts: seq<nat>)
    ensures CutsFrom(text, 0, cuts)
    ensures forall others :: CutsFrom(text, 0, others) ==> AllShown(text, CodeOnlyText(text), 0, others)
  {
    cuts := EveryTextHasCuts(text, 0);
    DelimiterLaws.CodeOnlyKeepsOffsets(text);
    hide CutsFrom, AllShown, Masked;
    forall others | CutsFrom(text, 0, others) ensures AllShown(text, CodeOnlyText(text), 0, others) {
      CutsAreShown(text, CodeOnlyText(text), 0, others);
    }
  }
}
