/** The two scanners of the member-order guard: a delimiter matcher that skips comments and
    literals in raw C++ text, and a masker that blanks comments, literals and lambda bodies while
    keeping every offset.  Characters are classified as in ASCII. */
module DelimiterScan {

  /** Where a scanner is: in code, a comment, or a literal closed by `quote`. */
  datatype Mode = Code | Line | Block | Literal(quote: char)

  function At(text: string, i: nat): char {
    if i < |text| then text[i] else '\0'
  }

  // ----- The matcher ----------------------------------------------------------------------------

  /** Scans raw text from `i`; the index at which `depth` returns to zero, or -1. */
  function Matched(text: string, mode: Mode, i: nat, depth: int, open: char, close: char): (r: int)
    ensures r == -1 || i <= r < |text|
    decreases |text| - i
  {
    if i >= |text| then -1 else
    match mode
    case Line => Matched(text, if text[i] == '\n' then Code else Line, i + 1, depth, open, close)
    case Block =>
      if text[i] == '*' && At(text, i + 1) == '/' then Matched(text, Code, i + 2, depth, open, close)
      else Matched(text, Block, i + 1, depth, open, close)
    case Literal(quote) =>
      if text[i] == '\\' then Matched(text, mode, i + 2, depth, open, close)
      else Matched(text, if text[i] == quote then Code else mode, i + 1, depth, open, close)
    case Code =>
      if text[i] == '/' && At(text, i + 1) == '/' then Matched(text, Line, i + 2, depth, open, close)
      else if text[i] == '/' && At(text, i + 1) == '*' then Matched(text, Block, i + 2, depth, open, close)
      else if text[i] == '"' || text[i] == '\'' then Matched(text, Literal(text[i]), i + 1, depth, open, close)
      else if text[i] == open then Matched(text, Code, i + 1, depth + 1, open, close)
      else if text[i] == close then if depth == 1 then i else Matched(text, Code, i + 1, depth - 1, open, close)
      else Matched(text, Code, i + 1, depth, open, close)
  }

  function MatchingDelimiter(text: string, openIndex: nat, open: char, close: char): int {
    Matched(text, Code, openIndex, 0, open, close)
  }

  method FindMatchingDelimiter(text: string, openIndex: nat, open: char, close: char) returns (r: int)
    ensures r == MatchingDelimiter(text, openIndex, open, close)
  {
    var depth: int := 0;
    var inString, inChar, inLineComment, inBlockComment := false, false, false, false;
    var index := openIndex;
    while index < |text|
      invariant !(inLineComment && (inBlockComment || inString || inChar))
      invariant !(inBlockComment && (inString || inChar)) && !(inString && inChar)
      invariant MatchingDelimiter(text, openIndex, open, close)
                == Matched(text, if inLineComment then Line else if inBlockComment then Block
                                 else if inString then Literal('"') else if inChar then Literal('\'') else Code,
                           index, depth, open, close)
    {
      var character := text[index];
      var following := if index + 1 < |text| then text[index + 1] else '\0';

      if inLineComment {
        if character == '\n' {
          inLineComment := false;
        }
        index := index + 1;
        continue;
      }
      if inBlockComment {
        if character == '*' && following == '/' {
          inBlockComment := false;
          index := index + 1;
        }
        index := index + 1;
        continue;
      }
      if inString {
        if character == '\\' {
          index := index + 1;
        } else if character == '"' {
          inString := false;
        }
        index := index + 1;
        continue;
      }
      if inChar {
        if character == '\\' {
          index := index + 1;
        } else if character == '\'' {
          inChar := false;
        }
        index := index + 1;
        continue;
      }

      if character == '/' && following == '/' {
        inLineComment := true;
        index := index + 1;
      } else if character == '/' && following == '*' {
        inBlockComment := true;
        index := index + 1;
      } else if character == '"' {
        inString := true;
      } else if character == '\'' {
        inChar := true;
      } else if character == open {
        depth := depth + 1;
      } else if character == close {
        depth := depth - 1;
        if depth == 0 {
          return index;
        }
      }
      index := index + 1;
    }
    return -1;
  }

  // ----- Lambdas --------------------------------------------------------------------------------

  predicate IsSpace(c: char) {
    c in " \t\n\r\U{0B}\U{0C}\U{1C}\U{1D}\U{1E}\U{1F}"
  }

  predicate IsWordChar(c: char) {
    'a' <= c <= 'z' || 'A' <= c <= 'Z' || '0' <= c <= '9' || c == '_'
  }

  function SkipSpaces(text: string, i: nat): (r: nat)
    ensures r >= i
    decreases |text| - i
  {
    if i < |text| && IsSpace(text[i]) then SkipSpaces(text, i + 1) else i
  }

  predicate StartsWith(text: string, word: string, i: nat) {
    i + |word| <= |text| && text[i..i + |word|] == word
  }

  const SPECIFIERS := ["mutable", "noexcept", "constexpr", "consteval", "const"]

  predicate SpecifierAt(text: string, word: string, i: nat) {
    StartsWith(text, word, i) && (i + |word| >= |text| || !IsWordChar(text[i + |word|]))
  }

  /** The first of the specifiers from the `k`-th on that stands at `i`, or "". */
  function SpecifierFrom(text: string, i: nat, k: nat): (word: string)
    ensures word != "" ==> StartsWith(text, word, i)
    decreases |SPECIFIERS| - k
  {
    if k >= |SPECIFIERS| then ""
    else if SpecifierAt(text, SPECIFIERS[k], i) then SPECIFIERS[k]
    else SpecifierFrom(text, i, k + 1)
  }

  function SkipSpecifiers(text: string, i: nat): (r: nat)
    ensures r >= i
    decreases |text| - i
  {
    var word := SpecifierFrom(text, i, 0);
    if word == "" then i else SkipSpecifiers(text, SkipSpaces(text, i + |word|))
  }

  /** The brace after a trailing return type, looked for between `i` and `limit`. */
  function ArrowBrace(text: string, i: nat, limit: nat): (r: int)
    requires limit <= |text|
    ensures r == -1 || (i <= r < limit && text[r] == '{')
    decreases limit - i
  {
    if i >= limit then -1
    else if text[i] == '{' then i
    else if text[i] in "();" then -1
    else ArrowBrace(text, i + 1, limit)
  }

  function AfterParameters(text: string, i: nat): (r: int)
    ensures r == -1 || (i <= r < |text| && text[r] == '{')
  {
    if i + 1 < |text| && text[i] == '-' && text[i + 1] == '>' then
      ArrowBrace(text, i + 2, if i + 120 < |text| then i + 120 else |text|)
    else
      var at := SkipSpecifiers(text, i);
      if at < |text| && text[at] == '{' then at else -1
  }

  function AfterCapture(text: string, i: nat): (r: int)
    ensures r == -1 || (i <= r < |text| && text[r] == '{')
  {
    if i < |text| && text[i] == '(' then
      var close := MatchingDelimiter(text, i, '(', ')');
      if close < 0 then -1 else AfterParameters(text, SkipSpaces(text, close + 1))
    else AfterParameters(text, i)
  }

  /** The '{' opening the body of the lambda whose capture list opens at `i`, or -1. */
  function LambdaBodyBrace(text: string, i: nat): (r: int)
    ensures r == -1 || (i < r < |text| && text[r] == '{')
  {
    var close := MatchingDelimiter(text, i, '[', ']');
    if close < 0 then -1 else AfterCapture(text, SkipSpaces(text, close + 1))
  }

  method SkipWhitespace(text: string, start: nat) returns (index: nat)
    ensures index == SkipSpaces(text, start)
  {
    index := start;
    while index < |text| && IsSpace(text[index])
      invariant SkipSpaces(text, start) == SkipSpaces(text, index)
      decreases |text| - index
    {
      index := index + 1;
    }
  }

  /** The bounded search for the brace after `->`. */
  method FindArrowBrace(text: string, start: nat, limit: nat) returns (r: int)
    requires limit <= |text|
    ensures r == ArrowBrace(text, start, limit)
  {
    var cursor := start;
    while cursor < limit
      invariant ArrowBrace(text, start, limit) == ArrowBrace(text, cursor, limit)
      decreases limit - cursor
    {
      if text[cursor] == '{' {
        return cursor;
      }
      if text[cursor] in "();" {
        return -1;
      }
      cursor := cursor + 1;
    }
    return -1;
  }

  /** One pass over the specifiers; "" when none stands at `index`. */
  method FindSpecifier(text: string, index: nat) returns (word: string)
    ensures word == SpecifierFrom(text, index, 0)
  {
    var k := 0;
    while k < |SPECIFIERS|
      invariant 0 <= k <= |SPECIFIERS|
      invariant SpecifierFrom(text, index, 0) == SpecifierFrom(text, index, k)
    {
      if SpecifierAt(text, SPECIFIERS[k], index) {
        return SPECIFIERS[k];
      }
      k := k + 1;
    }
    return "";
  }

  method SkipSpecifierWords(text: string, start: nat) returns (index: nat)
    ensures index == SkipSpecifiers(text, start)
  {
    hide SpecifierFrom, SkipSpaces;
    index := start;
    while true
      invariant SkipSpecifiers(text, start) == SkipSpecifiers(text, index)
      decreases |text| - index
    {
      var word := FindSpecifier(text, index);
      if word == "" {
        break;
      }
      index := SkipWhitespace(text, index + |word|);
    }
  }

  method FindLambdaBodyBrace(text: string, openBracket: nat) returns (r: int)
    ensures r == LambdaBodyBrace(text, openBracket)
  {
    hide Matched, SkipSpaces, ArrowBrace, SkipSpecifiers;
    var bracketClose := FindMatchingDelimiter(text, openBracket, '[', ']');
    if bracketClose < 0 {
      return -1;
    }
    var index := SkipWhitespace(text, bracketClose + 1);
    if index < |text| && text[index] == '(' {
      var parenClose := FindMatchingDelimiter(text, index, '(', ')');
      if parenClose < 0 {
        return -1;
      }
      index := SkipWhitespace(text, parenClose + 1);
    }
    if index + 1 < |text| && text[index] == '-' && text[index + 1] == '>' {
      r := FindArrowBrace(text, index + 2, if index + 120 < |text| then index + 120 else |text|);
      return;
    }
    index := SkipSpecifierWords(text, index);
    if index < |text| && text[index] == '{' {
      return index;
    }
    return -1;
  }

  // ----- The masker -----------------------------------------------------------------------------

  function BlankedChar(c: char): char {
    if c == '\n' then '\n' else ' '
  }

  function Blanked(s: string): (r: string)
    ensures |r| == |s|
    ensures forall k :: 0 <= k < |s| ==> r[k] == BlankedChar(s[k])
  {
    if s == "" then "" else [BlankedChar(s[0])] + Blanked(s[1..])
  }

  /** The last character of the lambda body opened by the brace at `i`. */
  function BodyEnd(text: string, i: nat): (r: nat)
    requires i < |text|
    ensures i <= r < |text|
  {
    var end := MatchingDelimiter(text, i, '{', '}');
    if end < 0 then |text| - 1 else end
  }

  /** One move of the masker: what it writes, and where and in which mode it goes on. */
  datatype Move = Move(out: string, mode: Mode, next: nat)

  function MaskStep(text: string, mode: Mode, i: nat): (m: Move)
    requires i < |text|
    ensures i <= m.next <= |text| && |m.out| == m.next - i
    ensures m.next > i || (mode != Code && m.mode == Code)
  {
    var pair := i + 1 < |text|;
    match mode
    case Line => if text[i] == '\n' then Move("", Code, i) else Move(" ", Line, i + 1)
    case Block =>
      if pair && text[i] == '*' && text[i + 1] == '/' then Move("  ", Code, i + 2)
      else Move([BlankedChar(text[i])], Block, i + 1)
    case Literal(quote) =>
      if text[i] == '\\' then if pair then Move("  ", mode, i + 2) else Move(" ", mode, i + 1)
      else if text[i] == quote then Move(" ", Code, i + 1)
      else Move([BlankedChar(text[i])], mode, i + 1)
    case Code =>
      if pair && text[i] == '/' && text[i + 1] == '/' then Move(" ", Line, i + 1)
      else if pair && text[i] == '/' && text[i + 1] == '*' then Move("  ", Block, i + 2)
      else if text[i] == '"' || text[i] == '\'' then Move(" ", Literal(text[i]), i + 1)
      else if IsLambda(text, i) then Move(Blanked(text[i..LambdaEnd(text, i)]), Code, LambdaEnd(text, i))
      else Move([text[i]], Code, i + 1)
  }

  predicate IsLambda(text: string, i: nat)
    requires i < |text|
  {
    text[i] == '[' && LambdaBodyBrace(text, i) >= 0
  }

  /** Just past the lambda that starts at `i`. */
  function LambdaEnd(text: string, i: nat): (end: nat)
    requires i < |text| && IsLambda(text, i)
    ensures i < end <= |text|
  {
    BodyEnd(text, LambdaBodyBrace(text, i)) + 1
  }

  /** What the masker makes of the text from `i` on. */
  function Masked(text: string, mode: Mode, i: nat): (r: string)
    decreases |text| - i, if mode == Code then 0 else 1
  {
    if i >= |text| then "" else
    var m := MaskStep(text, mode, i);
    m.out + Masked(text, m.mode, m.next)
  }

  function CodeOnlyText(text: string): string {
    Masked(text, Code, 0)
  }

  /** The first `i` characters, or all of them. */
  function Upto(s: string, i: nat): string {
    if i < |s| then s[..i] else s
  }

  function From(s: string, i: nat): string {
    if i < |s| then s[i..] else ""
  }

  /** The buffer is masked before `i`, untouched from `i` on, and masking the rest finishes it. */
  ghost predicate Agrees(buffer: string, text: string, mode: Mode, i: nat) {
    && |buffer| == |text|
    && From(buffer, i) == From(text, i)
    && CodeOnlyText(text) == Upto(buffer, i) + Masked(text, mode, i)
  }

  lemma Overwritten(before: string, after: string, i: nat, out: string)
    requires i + |out| <= |before| && i < |before| && after == before[..i] + out + before[i + |out|..]
    ensures Upto(after, i + |out|) == Upto(before, i) + out
    ensures From(after, i + |out|) == From(before, i + |out|)
  {
    var j := i + |out|;
    assert after == (before[..i] + out) + before[j..];
    assert |before[..i] + out| == j;
    if j < |before| {
      assert after[..j] == before[..i] + out;
      assert after[j..] == before[j..];
    } else {
      assert before[j..] == "";
      assert after == before[..i] + out;
    }
  }

  lemma FromLater(s: string, t: string, i: nat, j: nat)
    requires |s| == |t| && From(s, i) == From(t, i) && i <= j
    ensures From(s, j) == From(t, j)
  {
    if j < |s| {
      assert s[j..] == s[i..][j - i..];
      assert t[j..] == t[i..][j - i..];
    }
  }

  /** Writing the next masked characters over the buffer moves the frontier. */
  lemma Wrote(before: string, after: string, text: string, mode: Mode, i: nat, out: string, mode': Mode)
    requires Agrees(before, text, mode, i) && i + |out| <= |text| && i < |text|
    requires Masked(text, mode, i) == out + Masked(text, mode', i + |out|)
    requires after == before[..i] + out + before[i + |out|..]
    ensures Agrees(after, text, mode', i + |out|)
  {
    hide Masked, CodeOnlyText, Upto, From;
    var j := i + |out|;
    Overwritten(before, after, i, out);
    FromLater(before, text, i, j);
    var rest := Masked(text, mode', j);
    assert Upto(before, i) + (out + rest) == (Upto(before, i) + out) + rest;
  }

  /** Overwrites one character with a space, unless the mask keeps it. */
  method BlankOne(text: string, chars: array<char>, i: nat, keep: bool, ghost mode: Mode, ghost mode': Mode)
    requires i < |text| && Agrees(chars[..], text, mode, i)
    requires Masked(text, mode, i) == [if keep then text[i] else ' '] + Masked(text, mode', i + 1)
    modifies chars
    ensures Agrees(chars[..], text, mode', i + 1)
  {
    hide Masked, CodeOnlyText;
    ghost var before := chars[..];
    ghost var out := [if keep then text[i] else ' '];
    assert before[i] == before[i..][0] == text[i..][0];
    if !keep {
      chars[i] := ' ';
    }
    assert chars[..] == before[..i] + out + before[i + 1..];
    hide Agrees;
    Wrote(before, chars[..], text, mode, i, out, mode');
  }

  /** Overwrites two characters with spaces. */
  method BlankTwo(text: string, chars: array<char>, i: nat, ghost mode: Mode, ghost mode': Mode)
    requires i + 1 < |text| && Agrees(chars[..], text, mode, i)
    requires Masked(text, mode, i) == "  " + Masked(text, mode', i + 2)
    modifies chars
    ensures Agrees(chars[..], text, mode', i + 2)
  {
    hide Masked, CodeOnlyText, Upto, From;
    ghost var before := chars[..];
    chars[i] := ' ';
    chars[i + 1] := ' ';
    assert chars[..] == before[..i] + "  " + before[i + 2..];
    Wrote(before, chars[..], text, mode, i, "  ", mode');
  }

  /** Past the end it does not matter how far past. */
  lemma PastEnd(buffer: string, text: string, mode: Mode, i: nat, j: nat)
    requires Agrees(buffer, text, mode, i) && i >= |text| && j >= |text|
    ensures Agrees(buffer, text, mode, j)
  {
  }

  /** At a place where both modes would mask the rest alike, they may be exchanged. */
  lemma SameRest(buffer: string, text: string, mode: Mode, mode': Mode, i: nat)
    requires Agrees(buffer, text, mode, i) && Masked(text, mode, i) == Masked(text, mode', i)
    ensures Agrees(buffer, text, mode', i)
  {
  }

  method BlankLineComment(text: string, chars: array<char>, start: nat) returns (index: nat)
    requires start + 1 < |text| && text[start] == '/' && text[start + 1] == '/'
    requires Agrees(chars[..], text, Code, start)
    modifies chars
    ensures Agrees(chars[..], text, Code, index) && index > start
  {
    hide Agrees, CodeOnlyText;
    SameRest(chars[..], text, Code, Line, start);
    index := start;
    while index < |text| && text[index] != '\n'
      invariant index >= start && Agrees(chars[..], text, Line, index)
      decreases |text| - index
    {
      BlankOne(text, chars, index, false, Line, Line);
      index := index + 1;
    }
    SameRest(chars[..], text, Line, Code, index);
  }

  lemma MaskedInBlock(text: string, i: nat)
    requires i < |text|
    ensures Masked(text, Block, i) ==
            if i + 1 < |text| && text[i] == '*' && text[i + 1] == '/' then "  " + Masked(text, Code, i + 2)
            else [BlankedChar(text[i])] + Masked(text, Block, i + 1)
  {
  }

  lemma MaskedBlockStart(text: string, i: nat)
    requires i + 1 < |text| && text[i] == '/' && text[i + 1] == '*'
    ensures Masked(text, Code, i) == "  " + Masked(text, Block, i + 2)
  {
  }

  lemma NothingLeft(text: string, i: nat)
    requires i >= |text|
    ensures Masked(text, Block, i) == Masked(text, Code, i) == ""
  {
  }

  method BlankBlockComment(text: string, chars: array<char>, start: nat) returns (index: nat)
    requires start + 1 < |text| && text[start] == '/' && text[start + 1] == '*'
    requires Agrees(chars[..], text, Code, start)
    modifies chars
    ensures Agrees(chars[..], text, Code, index) && index > start
  {
    hide Agrees, CodeOnlyText, MaskStep, Masked;
    MaskedBlockStart(text, start);
    BlankTwo(text, chars, start, Code, Block);
    index := start + 2;
    while index < |text|
      invariant index >= start + 2 && Agrees(chars[..], text, Block, index)
      decreases |text| - index
    {
      MaskedInBlock(text, index);
      if text[index] == '*' && index + 1 < |text| && text[index + 1] == '/' {
        BlankTwo(text, chars, index, Block, Code);
        index := index + 2;
        return;
      }
      BlankOne(text, chars, index, text[index] == '\n', Block, Block);
      index := index + 1;
    }
    NothingLeft(text, index);
    SameRest(chars[..], text, Block, Code, index);
  }

  method BlankLiteral(text: string, chars: array<char>, start: nat) returns (index: nat)
    requires start < |text| && (text[start] == '"' || text[start] == '\'')
    requires Agrees(chars[..], text, Code, start)
    modifies chars
    ensures Agrees(chars[..], text, Code, index) && index > start
  {
    hide Agrees, CodeOnlyText;
    var quote := text[start];
    BlankOne(text, chars, start, false, Code, Literal(quote));
    index := start + 1;
    while index < |text|
      invariant index > start && Agrees(chars[..], text, Literal(quote), index)
      decreases |text| - index
    {
      if text[index] == '\\' {
        if index + 1 < |text| {
          BlankTwo(text, chars, index, Literal(quote), Literal(quote));
        } else {
          BlankOne(text, chars, index, false, Literal(quote), Literal(quote));
          PastEnd(chars[..], text, Literal(quote), index + 1, index + 2);
        }
        index := index + 2;
        continue;
      }
      if text[index] == quote {
        BlankOne(text, chars, index, false, Literal(quote), Code);
        index := index + 1;
        return;
      }
      BlankOne(text, chars, index, text[index] == '\n', Literal(quote), Literal(quote));
      index := index + 1;
    }
    SameRest(chars[..], text, Literal(quote), Code, index);
  }

  /** The last character of the lambda that starts at `index`, or -1 if none does. */
  method FindLambdaEnd(text: string, index: nat) returns (bodyEnd: int)
    requires index < |text| && text[index] == '['
    ensures if IsLambda(text, index) then bodyEnd + 1 == LambdaEnd(text, index) else bodyEnd == -1
  {
    hide LambdaBodyBrace, Matched;
    var bodyBrace := FindLambdaBodyBrace(text, index);
    if bodyBrace < 0 {
      return -1;
    }
    bodyEnd := FindMatchingDelimiter(text, bodyBrace, '{', '}');
    if bodyEnd < 0 {
      bodyEnd := |text| - 1;
    }
  }

  /** Blanks a stretch of the buffer, line breaks excepted. */
  method BlankRange(text: string, chars: array<char>, start: nat, end: nat)
    requires start <= end <= |text| == chars.Length
    requires forall k :: start <= k < end ==> chars[k] == text[k]
    modifies chars
    ensures chars[..] == old(chars[..])[..start] + Blanked(text[start..end]) + old(chars[..])[end..]
  {
    hide Blanked;
    var cursor := start;
    while cursor < end
      invariant start <= cursor <= end
      invariant forall k :: 0 <= k < |text| ==>
                  chars[k] == if start <= k < cursor then BlankedChar(text[k]) else old(chars[k])
    {
      if text[cursor] != '\n' {
        chars[cursor] := ' ';
      }
      cursor := cursor + 1;
    }
  }

  /** Blanks a lambda from its capture bracket to the end of its body. */
  method BlankLambda(text: string, chars: array<char>, start: nat, end: nat)
    requires start < |text| && IsLambda(text, start) && end == LambdaEnd(text, start)
    requires Agrees(chars[..], text, Code, start)
    modifies chars
    ensures Agrees(chars[..], text, Code, end)
  {
    hide Blanked, Masked, CodeOnlyText, IsLambda, LambdaEnd, Agrees;
    ghost var before := chars[..];
    SameFrom(before, text, Code, start);
    BlankRange(text, chars, start, end);
    MaskedLambda(text, start);
    Wrote(before, chars[..], text, Code, start, Blanked(text[start..end]), Code);
  }

  lemma SameFrom(buffer: string, text: string, mode: Mode, i: nat)
    requires Agrees(buffer, text, mode, i)
    ensures |buffer| == |text| && forall k :: i <= k < |text| ==> buffer[k] == text[k]
  {
    forall k | i <= k < |text| ensures buffer[k] == text[k] {
      assert buffer[i..][k - i] == text[i..][k - i];
    }
  }

  lemma MaskedLambda(text: string, i: nat)
    requires i < |text| && IsLambda(text, i)
    ensures Masked(text, Code, i) == Blanked(text[i..LambdaEnd(text, i)]) + Masked(text, Code, LambdaEnd(text, i))
  {
    hide LambdaBodyBrace, BodyEnd, Blanked;
  }

  lemma MaskedPlain(text: string, i: nat)
    requires i < |text| && text[i] != '"' && text[i] != '\'' && (text[i] == '[' ==> !IsLambda(text, i))
    requires !(text[i] == '/' && i + 1 < |text| && text[i + 1] in "/*")
    ensures Masked(text, Code, i) == [text[i]] + Masked(text, Code, i + 1)
  {
    hide LambdaBodyBrace;
  }

  /** Any other character of code stays. */
  lemma PlainCode(buffer: string, text: string, i: nat)
    requires i < |text| && text[i] != '"' && text[i] != '\'' && (text[i] == '[' ==> !IsLambda(text, i))
    requires !(text[i] == '/' && i + 1 < |text| && text[i + 1] in "/*")
    requires Agrees(buffer, text, Code, i)
    ensures Agrees(buffer, text, Code, i + 1)
  {
    hide Masked, CodeOnlyText, IsLambda, Agrees;
    MaskedPlain(text, i);
    SameFrom(buffer, text, Code, i);
    assert buffer == buffer[..i] + [text[i]] + buffer[i + 1..];
    Wrote(buffer, buffer, text, Code, i, [text[i]], Code);
  }

  method ListOf(text: string) returns (chars: array<char>)
    ensures fresh(chars) && chars[..] == text
  {
    chars := new char[|text|](i requires 0 <= i < |text| => text[i]);
  }

  /** The text with comments, literals and lambda bodies blanked. */
  method CodeOnly(text: string) returns (masked: string)
    ensures masked == CodeOnlyText(text)
  {
    hide Agrees, IsLambda, LambdaEnd, CodeOnlyText;
    var chars := ListOf(text);
    var index := 0;
    Untouched(text);
    while index < |text|
      invariant Agrees(chars[..], text, Code, index)
      decreases |text| - index
    {
      var character := text[index];
      var following := if index + 1 < |text| then text[index + 1] else '\0';
      if character == '/' && following == '/' {
        index := BlankLineComment(text, chars, index);
        continue;
      }
      if character == '/' && following == '*' {
        index := BlankBlockComment(text, chars, index);
        continue;
      }
      if character == '"' || character == '\'' {
        index := BlankLiteral(text, chars, index);
        continue;
      }
      if character == '[' {
        var bodyEnd := FindLambdaEnd(text, index);
        if bodyEnd >= 0 {
          BlankLambda(text, chars, index, bodyEnd + 1);
          index := bodyEnd + 1;
          continue;
        }
      }
      PlainCode(chars[..], text, index);
      index := index + 1;
    }
    Finished(chars[..], text, index);
    return chars[..];
  }

  lemma Untouched(text: string)
    ensures Agrees(text, text, Code, 0)
  {
    hide Masked;
    assert text[..0] + Masked(text, Code, 0) == Masked(text, Code, 0);
  }

  lemma Finished(buffer: string, text: string, i: nat)
    requires Agrees(buffer, text, Code, i) && i >= |text|
    ensures buffer == CodeOnlyText(text)
  {
  }
}
