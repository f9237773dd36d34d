/** What the guard relies on: the masker keeps every offset, and matching a delimiter in the raw
    text finds the same place as counting brackets in the masked text. */
module DelimiterLaws {
  import opened DelimiterScan

  // ----- The mask keeps offsets -----------------------------------------------------------------

  /** The masker, started at `i` in `mode`, reads a backslash inside a literal at `p`. */
  predicate EscapeAt(text: string, mode: Mode, i: nat, p: int)
    decreases |text| - i, if mode == Code then 0 else 1
  {
    i < |text| &&
      ((i == p && mode.Literal? && text[i] == '\\')
       || var m := MaskStep(text, mode, i); EscapeAt(text, m.mode, m.next, p))
  }

  /** A line break is lost exactly where such a backslash stands just before it. */
  predicate LosesEscapedLines(text: string, mode: Mode, i: nat, masked: string)
    requires i + |masked| == |text|
  {
    forall k :: 0 <= k < |masked| && text[i + k] == '\n' ==>
      (masked[k] != '\n' <==> EscapeAt(text, mode, i, i + k - 1))
  }

  lemma StepShape(text: string, mode: Mode, i: nat)
    requires i < |text|
    ensures var m := MaskStep(text, mode, i);
      && (forall k :: 0 <= k < |m.out| ==> m.out[k] == text[i + k] || m.out[k] == ' ')
      && (mode != Literal('\n') ==> m.mode != Literal('\n'))
      && (mode != Literal('\n') ==>
            forall k :: 0 <= k < |m.out| && text[i + k] == '\n' ==>
              (m.out[k] != '\n' <==> k == 1 && mode.Literal? && text[i] == '\\'))
      && (mode.Literal? && text[i] == '\\' ==> |m.out| == if i + 1 < |text| then 2 else 1)
      && (mode.Literal? ==> m.next > i)
  {
    hide LambdaBodyBrace, BodyEnd, Blanked;
  }

  lemma {:induction false} EscapesLieAhead(text: string, mode: Mode, i: nat, p: int)
    requires EscapeAt(text, mode, i, p)
    ensures p >= i
    decreases |text| - i, if mode == Code then 0 else 1
  {
    hide MaskStep;
    if !(i == p && mode.Literal? && text[i] == '\\') {
      var m := MaskStep(text, mode, i);
      EscapesLieAhead(text, m.mode, m.next, p);
    }
  }

  /** Where the line break at `i + k` is lost: in this move, or further on. */
  lemma EscapeHereOrLater(text: string, mode: Mode, i: nat, k: nat)
    requires i + k < |text| && text[i + k] == '\n' && mode != Literal('\n')
    ensures var m := MaskStep(text, mode, i);
      EscapeAt(text, mode, i, i + k - 1)
      <==> if k < |m.out| then m.out[k] != '\n' else EscapeAt(text, m.mode, m.next, i + k - 1)
  {
    StepShape(text, mode, i);
    hide MaskStep;
    var m := MaskStep(text, mode, i);
    if EscapeAt(text, m.mode, m.next, i + k - 1) {
      EscapesLieAhead(text, m.mode, m.next, i + k - 1);
    }
  }

  /** Every text, lambdas included: same length, each character is kept or becomes a space, and a line
      break is lost exactly if escaped inside a literal. */
  lemma {:induction false} MaskKeepsOffsets(text: string, mode: Mode, i: nat)
    requires i <= |text|
    ensures |Masked(text, mode, i)| == |text| - i
    ensures forall k :: 0 <= k < |text| - i ==> Masked(text, mode, i)[k] in {text[i + k], ' '}
    ensures mode != Literal('\n') ==> LosesEscapedLines(text, mode, i, Masked(text, mode, i))
    decreases |text| - i, if mode == Code then 0 else 1
  {
    hide MaskStep, EscapeAt;
    if i < |text| {
      StepShape(text, mode, i);
      var m := MaskStep(text, mode, i);
      MaskKeepsOffsets(text, m.mode, m.next);
      var rest := Masked(text, m.mode, m.next);
      forall k | 0 <= k < |text| - i
        ensures (m.out + rest)[k] == if k < |m.out| then m.out[k] else rest[k - |m.out|]
        ensures k >= |m.out| ==> text[i + k] == text[m.next + (k - |m.out|)]
        ensures mode != Literal('\n') && text[i + k] == '\n' ==>
                  (EscapeAt(text, mode, i, i + k - 1)
                   <==> if k < |m.out| then m.out[k] != '\n' else EscapeAt(text, m.mode, m.next, i + k - 1))
      {
        if mode != Literal('\n') && text[i + k] == '\n' {
          EscapeHereOrLater(text, mode, i, k);
        }
      }
    }
  }

  lemma CodeOnlyKeepsOffsets(text: string)
    ensures |CodeOnlyText(text)| == |text|
    ensures forall k :: 0 <= k < |text| ==> CodeOnlyText(text)[k] in {text[k], ' '}
    ensures LosesEscapedLines(text, Code, 0, CodeOnlyText(text))
  {
    MaskKeepsOffsets(text, Code, 0);
  }

  // ----- Naive counting -------------------------------------------------------------------------

  /** Bracket counting that knows nothing of comments or literals. */
  function NaiveMatch(s: string, i: nat, depth: int, open: char, close: char): (r: int)
    ensures r == -1 || i <= r < |s|
    decreases |s| - i
  {
    if i >= |s| then -1
    else if s[i] == open then NaiveMatch(s, i + 1, depth + 1, open, close)
    else if s[i] == close then if depth == 1 then i else NaiveMatch(s, i + 1, depth - 1, open, close)
    else NaiveMatch(s, i + 1, depth, open, close)
  }

  /** A delimiter that is neither blank nor a quote; all the brackets the guard matches are. */
  predicate Bracket(c: char) {
    c !in " \n\"'"
  }

  lemma {:induction false} NaiveSkipsBlanks(s: string, i: nat, j: nat, depth: int, open: char, close: char)
    requires i <= j <= |s| && Bracket(open) && Bracket(close)
    requires forall k :: i <= k < j ==> s[k] in " \n"
    ensures NaiveMatch(s, i, depth, open, close) == NaiveMatch(s, j, depth, open, close)
    decreases j - i
  {
    if i < j {
      assert s[i] in " \n";
      NaiveSkipsBlanks(s, i + 1, j, depth, open, close);
    }
  }

  // ----- The masker's path ----------------------------------------------------------------------

  /** The masker, started at `i` in `mode`, comes to `p` reading code. */
  predicate Visits(text: string, mode: Mode, i: nat, p: nat)
    decreases |text| - i, if mode == Code then 0 else 1
  {
    (mode == Code && i == p)
    || (i < |text| && var m := MaskStep(text, mode, i); Visits(text, m.mode, m.next, p))
  }

  predicate LambdaFree(text: string, mode: Mode, i: nat)
    decreases |text| - i, if mode == Code then 0 else 1
  {
    i < |text| ==>
      && !(mode == Code && IsLambda(text, i))
      && var m := MaskStep(text, mode, i); LambdaFree(text, m.mode, m.next)
  }

  /** The masker leaves the character at `i` in place. */
  predicate PlainAt(text: string, mode: Mode, i: nat)
    requires i < |text|
  {
    && mode == Code && text[i] != '"' && text[i] != '\'' && !IsLambda(text, i)
    && !(text[i] == '/' && At(text, i + 1) in "/*")
  }

  lemma {:induction false} RestFromVisited(text: string, mode: Mode, i: nat, p: nat)
    requires i <= |text| && Visits(text, mode, i, p)
    ensures i <= p <= |text|
    ensures |Masked(text, mode, i)| == |text| - i && Masked(text, mode, i)[p - i..] == Masked(text, Code, p)
    ensures LambdaFree(text, mode, i) ==> LambdaFree(text, Code, p)
    decreases |text| - i, if mode == Code then 0 else 1
  {
    hide MaskStep, IsLambda;
    MaskKeepsOffsets(text, mode, i);
    if !(mode == Code && i == p) {
      var m := MaskStep(text, mode, i);
      RestFromVisited(text, m.mode, m.next, p);
      assert (m.out + Masked(text, m.mode, m.next))[p - i..] == Masked(text, m.mode, m.next)[p - m.next..];
    }
  }

  // ----- What the matcher makes of a lambda -----------------------------------------------------

  /** What crossing a stretch does to the matcher's depth: its change, and the lowest that has been. */
  datatype Crossing = Crossing(rise: int, low: int)

  function Change(c: char, open: char, close: char): int {
    if c == open then 1 else if c == close then -1 else 0
  }

  /** One move of the matcher: where and in which mode it goes on, and what that does to its depth. */
  datatype Pace = Pace(mode: Mode, next: nat, change: int)

  function MatcherPace(text: string, mode: Mode, i: nat, open: char, close: char): (s: Pace)
    requires i < |text|
    ensures i < s.next <= i + 2
  {
    match mode
    case Line => Pace(if text[i] == '\n' then Code else Line, i + 1, 0)
    case Block => if text[i] == '*' && At(text, i + 1) == '/' then Pace(Code, i + 2, 0) else Pace(Block, i + 1, 0)
    case Literal(quote) =>
      if text[i] == '\\' then Pace(mode, i + 2, 0) else Pace(if text[i] == quote then Code else mode, i + 1, 0)
    case Code =>
      if text[i] == '/' && At(text, i + 1) == '/' then Pace(Line, i + 2, 0)
      else if text[i] == '/' && At(text, i + 1) == '*' then Pace(Block, i + 2, 0)
      else if text[i] == '"' || text[i] == '\'' then Pace(Literal(text[i]), i + 1, 0)
      else Pace(Code, i + 1, Change(text[i], open, close))
  }

  /** Started at `i` in `mode`, the matcher is in code again exactly at `end`, or the text ends there. */
  predicate Lands(text: string, mode: Mode, i: nat, end: nat)
    decreases |text| - i
  {
    if i >= end || i >= |text| then end >= |text| || (i == end && mode == Code) else
    var s := MatcherPace(text, mode, i, '\0', '\0');
    Lands(text, s.mode, s.next, end)
  }

  /** The matcher's way from `i` to `end`, with the change so far. */
  function Cross(text: string, mode: Mode, i: nat, end: nat, rise: int, low: int, open: char, close: char)
    : (c: Crossing)
    requires low <= rise
    ensures c.low <= low && c.low <= c.rise
    decreases |text| - i
  {
    if i >= end || i >= |text| then Crossing(rise, low) else
    var s := MatcherPace(text, mode, i, open, close);
    var changed := rise + s.change;
    Cross(text, s.mode, s.next, end, changed, if changed < low then changed else low, open, close)
  }

  function LambdaCross(text: string, i: nat, open: char, close: char): (c: Crossing)
    requires i < |text| && IsLambda(text, i)
    ensures c.low <= 0 && c.low <= c.rise
  {
    Cross(text, Code, i, LambdaEnd(text, i), 0, 0, open, close)
  }

  predicate LambdaLands(text: string, i: nat)
    requires i < |text| && IsLambda(text, i)
  {
    Lands(text, Code, i, LambdaEnd(text, i))
  }

  /** The matcher comes out of the lambda in code, its depth back where it was and never below. */
  predicate Balanced(text: string, i: nat, open: char, close: char)
    requires i < |text| && IsLambda(text, i)
  {
    LambdaLands(text, i) && LambdaCross(text, i, open, close) == Crossing(0, 0)
  }

  /** What one move of the masker crosses, as the matcher sees it. */
  function StepCross(text: string, mode: Mode, i: nat, open: char, close: char): (c: Crossing)
    requires i < |text|
    ensures c.low <= c.rise
  {
    if mode == Code && IsLambda(text, i) then LambdaCross(text, i, open, close)
    else if PlainAt(text, mode, i) then Crossing(Change(text[i], open, close), Change(text[i], open, close))
    else Crossing(0, 0)
  }

  /** Every lambda the masker blanks from here on, up to `stop`, is balanced in these delimiters. */
  predicate LambdasBalanced(text: string, mode: Mode, i: nat, stop: nat, open: char, close: char)
    decreases |text| - i, if mode == Code then 0 else 1
  {
    i < |text| && i < stop ==>
      && (mode == Code && IsLambda(text, i) ==> Balanced(text, i, open, close))
      && var m := MaskStep(text, mode, i); LambdasBalanced(text, m.mode, m.next, stop, open, close)
  }

  /** The matcher comes out of every such lambda in code, exactly at its end, or the text ends there. */
  predicate LambdasLand(text: string, mode: Mode, i: nat, stop: nat)
    decreases |text| - i, if mode == Code then 0 else 1
  {
    i < |text| && i < stop ==>
      && (mode == Code && IsLambda(text, i) ==> LambdaLands(text, i))
      && var m := MaskStep(text, mode, i); LambdasLand(text, m.mode, m.next, stop)
  }

  function LambdaRise(text: string, mode: Mode, i: nat, open: char, close: char): int
    requires i < |text|
  {
    if mode == Code && IsLambda(text, i) then LambdaCross(text, i, open, close).rise else 0
  }

  /** By how much those lambdas raise the matcher's depth altogether. */
  function Drift(text: string, mode: Mode, i: nat, stop: nat, open: char, close: char): int
    decreases |text| - i, if mode == Code then 0 else 1
  {
    if i >= |text| || i >= stop then 0 else
    var m := MaskStep(text, mode, i);
    LambdaRise(text, mode, i, open, close) + Drift(text, m.mode, m.next, stop, open, close)
  }

  /** From `depth` on, the matcher's depth stays positive up to `stop`, inside lambdas too. */
  predicate StaysOpen(text: string, mode: Mode, i: nat, stop: nat, depth: int, open: char, close: char)
    decreases |text| - i, if mode == Code then 0 else 1
  {
    i < |text| && i < stop ==>
      var m, c := MaskStep(text, mode, i), StepCross(text, mode, i, open, close);
      depth + c.low >= 1 && StaysOpen(text, m.mode, m.next, stop, depth + c.rise, open, close)
  }

  // ----- Raw matching against naive counting ----------------------------------------------------

  lemma MatchedPaces(text: string, mode: Mode, i: nat, depth: int, open: char, close: char)
    requires i < |text|
    ensures var s := MatcherPace(text, mode, i, open, close);
      Matched(text, mode, i, depth, open, close)
      == if s.change < 0 && depth == 1 then i else Matched(text, s.mode, s.next, depth + s.change, open, close)
  {
  }

  lemma PaceIgnoresDelimiters(text: string, mode: Mode, i: nat, open: char, close: char)
    requires i < |text|
    ensures var s, t := MatcherPace(text, mode, i, open, close), MatcherPace(text, mode, i, '\0', '\0');
      s.mode == t.mode && s.next == t.next && (s.change != 0 ==> s.mode == Code && s.next == i + 1)
      && -1 <= s.change <= 1
  {
  }

  lemma NothingBehind(text: string, mode: Mode, i: nat, depth: int, open: char, close: char)
    requires i >= |text|
    ensures Matched(text, mode, i, depth, open, close) == -1
  {
  }

  /** From `base`, a depth that has stayed positive so far: if it stays so the matcher goes on behind
      the stretch, and if it does not the matcher answers inside. */
  lemma {:induction false} CrossMatches(text: string, mode: Mode, i: nat, end: nat, rise: int, low: int, base: int,
                                        open: char, close: char)
    requires low <= rise && base + low >= 1 && end <= |text|
    ensures var c := Cross(text, mode, i, end, rise, low, open, close);
      && (Lands(text, mode, i, end) && base + c.low >= 1 ==>
            Matched(text, mode, i, base + rise, open, close) == Matched(text, Code, end, base + c.rise, open, close))
      && (base + c.low <= 0 ==> i <= Matched(text, mode, i, base + rise, open, close) < end)
    decreases |text| - i
  {
    hide Matched, MatcherPace;
    if i >= end {
      if end == |text| {
        NothingBehind(text, mode, i, base + rise, open, close);
        NothingBehind(text, Code, end, base + rise, open, close);
      }
    } else {
      MatchedPaces(text, mode, i, base + rise, open, close);
      PaceIgnoresDelimiters(text, mode, i, open, close);
      var s := MatcherPace(text, mode, i, open, close);
      var changed := rise + s.change;
      if base + changed >= 1 {
        CrossMatches(text, s.mode, s.next, end, changed, if changed < low then changed else low, base, open, close);
      }
    }
  }

  /** Where the masker blanks a comment or a literal, the matcher moves along without counting. */
  lemma MatcherFollowsBlanks(text: string, mode: Mode, i: nat, depth: int, open: char, close: char)
    requires i < |text| && Bracket(open) && Bracket(close)
    requires !PlainAt(text, mode, i) && !(mode == Code && IsLambda(text, i))
    ensures var m := MaskStep(text, mode, i);
      && Matched(text, mode, i, depth, open, close) == Matched(text, m.mode, m.next, depth, open, close)
      && forall k :: 0 <= k < |m.out| ==> m.out[k] in " \n"
  {
    hide LambdaBodyBrace;
  }

  lemma LambdaIsBlank(text: string, i: nat)
    requires i < |text| && IsLambda(text, i)
    ensures var m := MaskStep(text, Code, i);
      && m.mode == Code && m.next == LambdaEnd(text, i)
      && forall k :: 0 <= k < |m.out| ==> m.out[k] in " \n"
  {
    hide LambdaBodyBrace, BodyEnd, Blanked;
  }

  lemma PlainStep(text: string, i: nat)
    requires i < |text| && PlainAt(text, Code, i)
    ensures MaskStep(text, Code, i) == Move([text[i]], Code, i + 1)
  {
    hide LambdaBodyBrace;
  }

  /** What the matcher does at a character the masker leaves in place. */
  lemma PlainMatch(text: string, i: nat, depth: int, open: char, close: char)
    requires i < |text| && PlainAt(text, Code, i)
    ensures Matched(text, Code, i, depth, open, close)
         == if text[i] == open then Matched(text, Code, i + 1, depth + 1, open, close)
            else if text[i] == close && depth == 1 then i
            else if text[i] == close then Matched(text, Code, i + 1, depth - 1, open, close)
            else Matched(text, Code, i + 1, depth, open, close)
  {
    hide IsLambda;
  }

  /** How far the counter looks: to its answer, or to the end. */
  function LooksTo(masked: string, i: nat, depth: int, open: char, close: char): (stop: nat)
    ensures stop >= i || stop == |masked|
  {
    var r := NaiveMatch(masked, i, depth, open, close);
    if r < 0 then |masked| else r
  }

  /** One step of the masker seen in the masked text. */
  lemma MaskedHere(text: string, mode: Mode, i: nat, masked: string)
    requires i < |text| == |masked| && masked[i..] == Masked(text, mode, i)
    ensures var m := MaskStep(text, mode, i);
      masked[m.next..] == Masked(text, m.mode, m.next) && masked[i..m.next] == m.out
  {
    hide MaskStep;
    var m := MaskStep(text, mode, i);
    assert masked[i..] == m.out + Masked(text, m.mode, m.next);
    assert masked[m.next..] == masked[i..][|m.out|..];
    assert masked[i..m.next] == masked[i..][..|m.out|];
  }

  /** What the counter does at a character the masker left in place. */
  lemma PlainCount(text: string, i: nat, depth: int, open: char, close: char, masked: string)
    requires i < |text| == |masked| && PlainAt(text, Code, i) && masked[i..] == Masked(text, Code, i)
    ensures masked[i + 1..] == Masked(text, Code, i + 1)
    ensures NaiveMatch(masked, i, depth, open, close)
         == if text[i] == open then NaiveMatch(masked, i + 1, depth + 1, open, close)
            else if text[i] == close && depth == 1 then i
            else if text[i] == close then NaiveMatch(masked, i + 1, depth - 1, open, close)
            else NaiveMatch(masked, i + 1, depth, open, close)
  {
    MaskedHere(text, Code, i, masked);
    PlainStep(text, i);
    hide MaskStep, Masked, IsLambda;
    assert masked[i] == masked[i..i + 1][0] == text[i];
  }

  /** At a place the masker blanks the counter never answers. */
  lemma BlanksAreNotAnswers(text: string, mode: Mode, i: nat, depth: int, open: char, close: char, masked: string)
    requires i < |text| == |masked| && masked[i..] == Masked(text, mode, i) && !PlainAt(text, mode, i)
    requires Bracket(open) && Bracket(close)
    ensures var m := MaskStep(text, mode, i);
      NaiveMatch(masked, i, depth, open, close) == NaiveMatch(masked, m.next, depth, open, close) != i
  {
    hide MaskStep, Masked, Matched, NaiveMatch, IsLambda, Bracket;
    MaskedHere(text, mode, i, masked);
    var m := MaskStep(text, mode, i);
    if mode == Code && IsLambda(text, i) {
      LambdaIsBlank(text, i);
    } else {
      MatcherFollowsBlanks(text, mode, i, depth, open, close);
    }
    assert forall k :: i <= k < m.next ==> masked[k] == masked[i..m.next][k - i];
    NaiveSkipsBlanks(masked, i, m.next, depth, open, close);
    if m.next == i {
      LineEndStays(text, mode, i, masked);
      NotAtLineEnd(masked, i, depth, open, close);
    }
  }

  /** Only at the end of a line comment does the masker stand still. */
  lemma LineEndStays(text: string, mode: Mode, i: nat, masked: string)
    requires i < |text| == |masked| && masked[i..] == Masked(text, mode, i) && MaskStep(text, mode, i).next == i
    ensures masked[i] == '\n'
  {
    hide LambdaBodyBrace;
    assert mode == Line && text[i] == '\n';
    assert !IsLambda(text, i);
    assert Masked(text, Code, i)[0] == '\n';
    assert masked[i] == masked[i..][0];
  }

  lemma NotAtLineEnd(masked: string, i: nat, depth: int, open: char, close: char)
    requires i < |masked| && masked[i] == '\n' && Bracket(open) && Bracket(close)
    ensures NaiveMatch(masked, i, depth, open, close) != i
  {
  }

  lemma PlainIsCode(text: string, mode: Mode, i: nat)
    requires i < |text| && PlainAt(text, mode, i)
    ensures mode == Code
  {
  }

  /** Without lambdas nothing comes between the two, whatever the depth. */
  lemma {:induction false} MatchedIsNaive(text: string, mode: Mode, i: nat, depth: int, open: char, close: char,
                                          masked: string)
    requires i <= |text| == |masked| && masked[i..] == Masked(text, mode, i)
    requires Bracket(open) && Bracket(close) && LambdaFree(text, mode, i)
    ensures Matched(text, mode, i, depth, open, close) == NaiveMatch(masked, i, depth, open, close)
    decreases |text| - i, if mode == Code then 0 else 1
  {
    if i == |text| {
      return;
    }
    hide MaskStep, Masked, Matched, IsLambda, Bracket, NaiveMatch, PlainAt;
    var m := MaskStep(text, mode, i);
    if PlainAt(text, mode, i) {
      PlainIsCode(text, mode, i);
      PlainStep(text, i);
      PlainMatch(text, i, depth, open, close);
      PlainCount(text, i, depth, open, close, masked);
      if text[i] == open || text[i] != close || depth != 1 {
        var depth' := if text[i] == open then depth + 1 else if text[i] == close then depth - 1 else depth;
        MatchedIsNaive(text, Code, i + 1, depth', open, close, masked);
      }
    } else {
      MaskedHere(text, mode, i, masked);
      BlanksAreNotAnswers(text, mode, i, depth, open, close, masked);
      MatcherFollowsBlanks(text, mode, i, depth, open, close);
      MatchedIsNaive(text, m.mode, m.next, depth, open, close, masked);
    }
  }

  /** In text without lambdas, matching in the raw text from any code position finds what counting
      brackets in the masked text finds. */
  lemma MatcherRefinesMasking(text: string, p: nat, open: char, close: char)
    requires Bracket(open) && Bracket(close)
    requires LambdaFree(text, Code, 0) && Visits(text, Code, 0, p)
    ensures MatchingDelimiter(text, p, open, close) == NaiveMatch(CodeOnlyText(text), p, 0, open, close)
  {
    hide LambdaFree, Visits, Matched, NaiveMatch;
    CodeOnlyKeepsOffsets(text);
    RestFromVisited(text, Code, 0, p);
    MatchedIsNaive(text, Code, p, 0, open, close, CodeOnlyText(text));
  }

  // ----- When the matcher comes out of a lambda in code -----------------------------------------

  function AfterClose(text: string, i: nat, open: char, close: char): nat {
    var end := MatchingDelimiter(text, i, open, close);
    if end < 0 then i else SkipSpaces(text, end + 1)
  }

  /** Just past the capture and parameter lists of the lambda at `i`. */
  function HeadEnd(text: string, i: nat): nat {
    var next := AfterClose(text, i, '[', ']');
    if At(text, next) == '(' then AfterClose(text, next, '(', ')') else next
  }

  /** No comment and no literal can begin between `i` and `j`. */
  predicate PlainBetween(text: string, i: nat, j: nat) {
    forall k :: i <= k < j && k < |text| ==> text[k] !in "/\"'"
  }

  lemma HeadBeforeBrace(text: string, i: nat)
    requires i < |text| && IsLambda(text, i)
    ensures var next, brace, end := AfterClose(text, i, '[', ']'), LambdaBodyBrace(text, i), LambdaEnd(text, i);
      && MatchingDelimiter(text, i, '[', ']') >= 0 && next <= HeadEnd(text, i) <= brace < end
      && (At(text, next) == '(' ==> MatchingDelimiter(text, next, '(', ')') >= 0)
      && (end == |text| || MatchingDelimiter(text, brace, '{', '}') == end - 1)
  {
    hide Matched, SkipSpaces, ArrowBrace, SkipSpecifiers;
  }

  lemma {:induction false} LandsAtTheEnd(text: string, mode: Mode, i: nat)
    ensures Lands(text, mode, i, |text|)
    decreases |text| - i
  {
    if i < |text| {
      var s := MatcherPace(text, mode, i, '\0', '\0');
      LandsAtTheEnd(text, s.mode, s.next);
    }
  }

  /** Where the matcher finds a partner it is in code. */
  lemma {:induction false} MatchLands(text: string, mode: Mode, i: nat, depth: int, open: char, close: char, end: nat)
    requires 0 <= Matched(text, mode, i, depth, open, close) < end
    ensures Lands(text, mode, i, end) == Lands(text, Code, Matched(text, mode, i, depth, open, close) + 1, end)
    decreases |text| - i
  {
    hide Matched, MatcherPace;
    if i >= |text| {
      NothingBehind(text, mode, i, depth, open, close);
    } else {
      MatchedPaces(text, mode, i, depth, open, close);
      PaceIgnoresDelimiters(text, mode, i, open, close);
      var s := MatcherPace(text, mode, i, open, close);
      if !(s.change < 0 && depth == 1) {
        MatchLands(text, s.mode, s.next, depth + s.change, open, close, end);
      }
    }
  }

  lemma {:induction false} StretchLands(text: string, i: nat, j: nat, end: nat)
    requires i <= j <= end && PlainBetween(text, i, j)
    ensures Lands(text, Code, i, end) == Lands(text, Code, j, end)
    decreases j - i
  {
    if i < j && i < |text| {
      assert MatcherPace(text, Code, i, '\0', '\0').next == i + 1;
      StretchLands(text, i + 1, j, end);
    }
  }

  lemma {:induction false} SpacesArePlain(text: string, i: nat)
    ensures PlainBetween(text, i, SkipSpaces(text, i))
    decreases |text| - i
  {
    if i < |text| && IsSpace(text[i]) {
      SpacesArePlain(text, i + 1);
    }
  }

  /** A capture or parameter list, and the spaces after it. */
  lemma ListLands(text: string, i: nat, open: char, close: char, end: nat)
    requires MatchingDelimiter(text, i, open, close) >= 0 && AfterClose(text, i, open, close) <= end
    ensures Lands(text, Code, i, end) == Lands(text, Code, AfterClose(text, i, open, close), end)
  {
    hide Matched, SkipSpaces, PlainBetween, Lands;
    var partner := MatchingDelimiter(text, i, open, close);
    MatchLands(text, Code, i, 0, open, close, end);
    SpacesArePlain(text, partner + 1);
    StretchLands(text, partner + 1, SkipSpaces(text, partner + 1), end);
  }

  /** The matcher comes out of every lambda in code if no comment or literal can begin between the
      lists and the brace of the body, where the guard does not look for them. */
  lemma PlainLambdasLand(text: string, i: nat)
    requires i < |text| && IsLambda(text, i) && PlainBetween(text, HeadEnd(text, i), LambdaBodyBrace(text, i))
    ensures LambdaLands(text, i)
  {
    HeadBeforeBrace(text, i);
    hide Matched, MatcherPace, PlainBetween, IsLambda, AfterClose, HeadEnd, LambdaBodyBrace, LambdaEnd, Lands;
    var brace, end := LambdaBodyBrace(text, i), LambdaEnd(text, i);
    if end == |text| {
      LandsAtTheEnd(text, Code, i);
    } else {
      HeadLands(text, i, end);
      StretchLands(text, HeadEnd(text, i), brace, end);
      MatchLands(text, Code, brace, 0, '{', '}', end);
      StretchEnds(text, end);
    }
  }

  lemma HeadLands(text: string, i: nat, end: nat)
    requires MatchingDelimiter(text, i, '[', ']') >= 0
    requires var next := AfterClose(text, i, '[', ']');
      next <= HeadEnd(text, i) <= end && (At(text, next) == '(' ==> MatchingDelimiter(text, next, '(', ')') >= 0)
    ensures Lands(text, Code, i, end) == Lands(text, Code, HeadEnd(text, i), end)
  {
    hide Matched, AfterClose, Lands;
    var next := AfterClose(text, i, '[', ']');
    ListLands(text, i, '[', ']', end);
    if At(text, next) == '(' {
      ListLands(text, next, '(', ')', end);
    }
  }

  lemma StretchEnds(text: string, end: nat)
    ensures Lands(text, Code, end, end)
  {
  }

  // ----- Lambdas on the way ---------------------------------------------------------------------

  /** One move of the masker as the matcher takes it, from a positive depth. */
  lemma MatcherSteps(text: string, mode: Mode, i: nat, depth: int, open: char, close: char)
    requires i < |text| && depth >= 1 && Bracket(open) && Bracket(close)
    requires mode == Code && IsLambda(text, i) ==> LambdaLands(text, i)
    ensures var m, c := MaskStep(text, mode, i), StepCross(text, mode, i, open, close);
      if depth + c.low >= 1 then
        Matched(text, mode, i, depth, open, close) == Matched(text, m.mode, m.next, depth + c.rise, open, close)
      else i <= Matched(text, mode, i, depth, open, close) < m.next
  {
    hide MaskStep, Matched, IsLambda, Cross, LambdaEnd, Bracket;
    if mode == Code && IsLambda(text, i) {
      LambdaIsBlank(text, i);
      CrossMatches(text, Code, i, LambdaEnd(text, i), 0, 0, depth, open, close);
    } else if PlainAt(text, mode, i) {
      PlainStep(text, i);
      PlainMatch(text, i, depth, open, close);
    } else {
      MatcherFollowsBlanks(text, mode, i, depth, open, close);
    }
  }

  /** What the same move does to the counter's depth. */
  function Counted(text: string, mode: Mode, i: nat, open: char, close: char): int
    requires i < |text|
  {
    if PlainAt(text, mode, i) then Change(text[i], open, close) else 0
  }

  lemma CounterSteps(text: string, mode: Mode, i: nat, depth: int, open: char, close: char, masked: string)
    requires i < |text| == |masked| && masked[i..] == Masked(text, mode, i) && depth >= 1
    requires Bracket(open) && Bracket(close)
    ensures var m, d := MaskStep(text, mode, i), depth + Counted(text, mode, i, open, close);
      && masked[m.next..] == Masked(text, m.mode, m.next)
      && var r := NaiveMatch(masked, i, depth, open, close);
         if d >= 1 then r == NaiveMatch(masked, m.next, d, open, close) && r != i else r == i
  {
    hide MaskStep, Masked, IsLambda, NaiveMatch, PlainAt, Bracket;
    MaskedHere(text, mode, i, masked);
    if PlainAt(text, mode, i) {
      PlainIsCode(text, mode, i);
      PlainStep(text, i);
      PlainCount(text, i, depth, open, close, masked);
    } else {
      BlanksAreNotAnswers(text, mode, i, depth, open, close, masked);
    }
  }

  /** The two depths part at lambdas only. */
  lemma StepAccounts(text: string, mode: Mode, i: nat, open: char, close: char)
    requires i < |text|
    ensures StepCross(text, mode, i, open, close).rise
         == Counted(text, mode, i, open, close) + LambdaRise(text, mode, i, open, close)
  {
    hide IsLambda, LambdaCross;
  }

  /** Where the counter answers, the matcher does if it is as deep. */
  lemma MatcherAtAnswer(text: string, mode: Mode, i: nat, raw: int, depth: int, open: char, close: char)
    requires i < |text| && raw >= 1 && depth >= 1 && depth + Counted(text, mode, i, open, close) < 1
    ensures depth == 1 && (Matched(text, mode, i, raw, open, close) == i <==> raw == 1)
  {
    hide Matched, IsLambda;
    PlainMatch(text, i, raw, open, close);
  }

  /** Up to `stop`, the conditions follow the masker move by move. */
  lemma OneMove(text: string, mode: Mode, i: nat, stop: nat, raw: int, open: char, close: char)
    requires i < |text|
    ensures var m, c := MaskStep(text, mode, i), StepCross(text, mode, i, open, close);
      if i < stop then
        && (LambdasLand(text, mode, i, stop) <==>
              && (mode == Code && IsLambda(text, i) ==> LambdaLands(text, i))
              && LambdasLand(text, m.mode, m.next, stop))
        && (StaysOpen(text, mode, i, stop, raw, open, close) <==>
              raw + c.low >= 1 && StaysOpen(text, m.mode, m.next, stop, raw + c.rise, open, close))
        && (LambdasBalanced(text, mode, i, stop, open, close) <==>
              && (mode == Code && IsLambda(text, i) ==> Balanced(text, i, open, close))
              && LambdasBalanced(text, m.mode, m.next, stop, open, close))
        && Drift(text, mode, i, stop, open, close)
           == LambdaRise(text, mode, i, open, close) + Drift(text, m.mode, m.next, stop, open, close)
      else
        && LambdasLand(text, mode, i, stop) && StaysOpen(text, mode, i, stop, raw, open, close)
        && Drift(text, mode, i, stop, open, close) == 0
  {
    hide MaskStep, StepCross, LambdaRise, IsLambda, Balanced, LambdaLands;
  }

  lemma BothAtTheEnd(text: string, mode: Mode, stop: nat, raw: int, depth: int, open: char, close: char, masked: string)
    requires |text| == |masked|
    ensures Matched(text, mode, |text|, raw, open, close) == NaiveMatch(masked, |text|, depth, open, close) == -1
    ensures LambdasLand(text, mode, |text|, stop) && StaysOpen(text, mode, |text|, stop, raw, open, close)
    ensures Drift(text, mode, |text|, stop, open, close) == 0
  {
  }

  lemma LooksOn(masked: string, i: nat, depth: int, next: nat, depth': int, open: char, close: char)
    requires i < |masked| && i <= next
    ensures var r := NaiveMatch(masked, i, depth, open, close);
      if r == NaiveMatch(masked, next, depth', open, close) && r != i then
        LooksTo(masked, next, depth', open, close) == LooksTo(masked, i, depth, open, close) > i
      else r == i ==> LooksTo(masked, i, depth, open, close) == i
  {
    hide NaiveMatch;
  }

  /** The counter's move, and where it looks from then on. */
  lemma CounterMoves(text: string, mode: Mode, i: nat, depth: int, open: char, close: char, masked: string)
    requires i < |text| == |masked| && masked[i..] == Masked(text, mode, i) && depth >= 1
    requires Bracket(open) && Bracket(close)
    ensures var m, next := MaskStep(text, mode, i), depth + Counted(text, mode, i, open, close);
      var r, stop := NaiveMatch(masked, i, depth, open, close), LooksTo(masked, i, depth, open, close);
      && masked[m.next..] == Masked(text, m.mode, m.next)
      && if next >= 1 then
           && r == NaiveMatch(masked, m.next, next, open, close) && (r >= 0 ==> r >= m.next)
           && i < stop == LooksTo(masked, m.next, next, open, close)
         else r == stop == i
  {
    hide MaskStep, Masked, Bracket, NaiveMatch, Counted;
    CounterSteps(text, mode, i, depth, open, close, masked);
    LooksOn(masked, i, depth, MaskStep(text, mode, i).next, depth + Counted(text, mode, i, open, close), open, close);
  }

  /** The matcher's move, and what it does to the conditions. */
  lemma MatcherMoves(text: string, mode: Mode, i: nat, stop: nat, raw: int, open: char, close: char)
    requires i < |text| && i < stop && raw >= 1 && Bracket(open) && Bracket(close) && LambdasLand(text, mode, i, stop)
    ensures var m, c := MaskStep(text, mode, i), StepCross(text, mode, i, open, close);
      && LambdasLand(text, m.mode, m.next, stop)
      && if raw + c.low >= 1 then
           && Matched(text, mode, i, raw, open, close) == Matched(text, m.mode, m.next, raw + c.rise, open, close)
           && (StaysOpen(text, mode, i, stop, raw, open, close) <==>
                 StaysOpen(text, m.mode, m.next, stop, raw + c.rise, open, close))
           && Drift(text, mode, i, stop, open, close)
              == c.rise - Counted(text, mode, i, open, close) + Drift(text, m.mode, m.next, stop, open, close)
         else
           !StaysOpen(text, mode, i, stop, raw, open, close) && i <= Matched(text, mode, i, raw, open, close) < m.next
  {
    hide MaskStep, Matched, IsLambda, LambdaLands, Bracket, StepCross, LambdaRise, Counted;
    hide LambdasBalanced, LambdasLand, StaysOpen, Drift;
    OneMove(text, mode, i, stop, raw, open, close);
    StepAccounts(text, mode, i, open, close);
    MatcherSteps(text, mode, i, raw, open, close);
  }

  /** The matcher at depth `raw` and the counter at depth `depth` answer alike exactly when the raw
      depth stays positive up to the counter's answer and the lambdas before it make up for the
      difference. */
  lemma {:induction false} AlikeExactlyWhen(text: string, mode: Mode, i: nat, stop: nat, raw: int, depth: int,
                                            open: char, close: char, masked: string)
    requires i <= |text| == |masked| && masked[i..] == Masked(text, mode, i) && raw >= 1 && depth >= 1
    requires Bracket(open) && Bracket(close) && LambdasLand(text, mode, i, stop)
    requires stop == LooksTo(masked, i, depth, open, close)
    ensures var r := NaiveMatch(masked, i, depth, open, close);
      Matched(text, mode, i, raw, open, close) == r <==>
        && StaysOpen(text, mode, i, stop, raw, open, close)
        && (r >= 0 ==> raw + Drift(text, mode, i, stop, open, close) == depth)
    decreases |text| - i, if mode == Code then 0 else 1
  {
    hide MaskStep, Masked, Matched, Bracket, NaiveMatch, StepCross, Counted, LooksTo;
    hide LambdasLand, StaysOpen, Drift;
    if i == |text| {
      BothAtTheEnd(text, mode, stop, raw, depth, open, close, masked);
      return;
    }
    CounterMoves(text, mode, i, depth, open, close, masked);
    var next := depth + Counted(text, mode, i, open, close);
    if next >= 1 {
      MatcherMoves(text, mode, i, stop, raw, open, close);
      var m, c := MaskStep(text, mode, i), StepCross(text, mode, i, open, close);
      if raw + c.low >= 1 {
        AlikeExactlyWhen(text, m.mode, m.next, stop, raw + c.rise, next, open, close, masked);
      }
    } else {
      OneMove(text, mode, i, stop, raw, open, close);
      MatcherAtAnswer(text, mode, i, raw, depth, open, close);
    }
  }

  /** The guard matches from an opening bracket.  There the two answers are the same if and only if the
      matcher's depth stays positive up to the counter's answer and, if there is one, the lambdas before
      it open as much as they close. */
  lemma MatcherAgreesExactlyWhen(text: string, p: nat, open: char, close: char)
    requires Bracket(open) && Bracket(close) && p < |text| && PlainAt(text, Code, p) && text[p] == open
    requires Visits(text, Code, 0, p)
    requires LambdasLand(text, Code, p + 1, LooksTo(CodeOnlyText(text), p, 0, open, close))
    ensures var r := NaiveMatch(CodeOnlyText(text), p, 0, open, close);
      var stop := LooksTo(CodeOnlyText(text), p, 0, open, close);
      MatchingDelimiter(text, p, open, close) == r <==>
        && StaysOpen(text, Code, p + 1, stop, 1, open, close)
        && (r >= 0 ==> Drift(text, Code, p + 1, stop, open, close) == 0)
  {
    hide Visits, Matched, IsLambda, MaskStep, NaiveMatch, StaysOpen, LambdasLand, Drift, PlainAt;
    var masked := CodeOnlyText(text);
    OpensBoth(text, p, open, close);
    AlikeExactlyWhen(text, Code, p + 1, LooksTo(masked, p, 0, open, close), 1, 1, open, close, masked);
  }

  /** The first step from an opening bracket. */
  lemma OpensBoth(text: string, p: nat, open: char, close: char)
    requires Bracket(open) && Bracket(close) && p < |text| && PlainAt(text, Code, p) && text[p] == open
    requires Visits(text, Code, 0, p)
    ensures var masked := CodeOnlyText(text);
      && |masked| == |text| && masked[p + 1..] == Masked(text, Code, p + 1)
      && MatchingDelimiter(text, p, open, close) == Matched(text, Code, p + 1, 1, open, close)
      && NaiveMatch(masked, p, 0, open, close) == NaiveMatch(masked, p + 1, 1, open, close)
      && LooksTo(masked, p, 0, open, close) == LooksTo(masked, p + 1, 1, open, close)
  {
    hide Visits, Matched, IsLambda, MaskStep, NaiveMatch;
    CodeOnlyKeepsOffsets(text);
    RestFromVisited(text, Code, 0, p);
    PlainMatch(text, p, 0, open, close);
    PlainCount(text, p, 0, open, close, CodeOnlyText(text));
  }

  /** So lambdas do no harm as long as each that comes before the counter's answer is itself balanced. */
  lemma MatcherCrossesBalancedLambdas(text: string, p: nat, open: char, close: char)
    requires Bracket(open) && Bracket(close) && p < |text| && PlainAt(text, Code, p) && text[p] == open
    requires Visits(text, Code, 0, p)
    requires LambdasBalanced(text, Code, p, LooksTo(CodeOnlyText(text), p, 0, open, close), open, close)
    ensures MatchingDelimiter(text, p, open, close) == NaiveMatch(CodeOnlyText(text), p, 0, open, close)
  {
    PlainStep(text, p);
    hide Visits, Matched, IsLambda, MaskStep, NaiveMatch, StaysOpen, LambdasLand, Drift, PlainAt;
    var masked := CodeOnlyText(text);
    OpensBoth(text, p, open, close);
    BalancedStaysOpen(text, Code, p + 1, LooksTo(masked, p, 0, open, close), 1, open, close, masked);
    MatcherAgreesExactlyWhen(text, p, open, close);
  }

  lemma BalancedAccounts(text: string, mode: Mode, i: nat, open: char, close: char)
    requires i < |text| && (mode == Code && IsLambda(text, i) ==> Balanced(text, i, open, close))
    ensures LambdaRise(text, mode, i, open, close) == 0
    ensures mode == Code && IsLambda(text, i) ==> LambdaLands(text, i)
    ensures var d := Counted(text, mode, i, open, close); StepCross(text, mode, i, open, close) == Crossing(d, d)
  {
    hide IsLambda, LambdaCross;
  }

  lemma {:induction false} BalancedStaysOpen(text: string, mode: Mode, i: nat, stop: nat, depth: int,
                                             open: char, close: char, masked: string)
    requires i <= |text| == |masked| && masked[i..] == Masked(text, mode, i) && depth >= 1
    requires Bracket(open) && Bracket(close) && LambdasBalanced(text, mode, i, stop, open, close)
    requires stop == LooksTo(masked, i, depth, open, close)
    ensures LambdasLand(text, mode, i, stop) && StaysOpen(text, mode, i, stop, depth, open, close)
    ensures Drift(text, mode, i, stop, open, close) == 0
    decreases |text| - i, if mode == Code then 0 else 1
  {
    hide MaskStep, Masked, Matched, Bracket, NaiveMatch, StepCross, LambdaRise, Counted, Balanced, IsLambda, LooksTo;
    hide LambdasBalanced, LambdasLand, StaysOpen, Drift;
    if i == |text| {
      BothAtTheEnd(text, mode, stop, depth, depth, open, close, masked);
      return;
    }
    CounterMoves(text, mode, i, depth, open, close, masked);
    OneMove(text, mode, i, stop, depth, open, close);
    var m, next := MaskStep(text, mode, i), depth + Counted(text, mode, i, open, close);
    if i < stop {
      BalancedAccounts(text, mode, i, open, close);
    }
    if next >= 1 {
      BalancedStaysOpen(text, m.mode, m.next, stop, next, open, close, masked);
    }
  }

  /** Without that the two do disagree: the mask hides the bracket an unfinished lambda contains. */
  lemma UnbalancedLambdaDisagrees(text: string)
    requires text == "([]{)"
    ensures MatchingDelimiter(text, 0, '(', ')') == 4
    ensures NaiveMatch(CodeOnlyText(text), 0, 0, '(', ')') == -1
  {
    assert Unfinished(text);
    hide Matched, NaiveMatch, IsLambda, LambdaEnd;
    UnfinishedMatch(text);
    WitnessIsLambda(text);
    UnfinishedCount(text);
  }

  /** The text of the lemma above, character by character. */
  predicate Unfinished(text: string) {
    |text| == 5 && text[0] == '(' && text[1] == '[' && text[2] == ']' && text[3] == '{' && text[4] == ')'
  }

  lemma UnfinishedMatch(text: string)
    requires Unfinished(text)
    ensures MatchingDelimiter(text, 0, '(', ')') == 4
  {
    assert Matched(text, Code, 3, 1, '(', ')') == 4;
    assert Matched(text, Code, 1, 1, '(', ')') == 4;
  }

  lemma UnfinishedCount(text: string)
    requires |text| == 5 && text[0] == '(' && IsLambda(text, 1) && LambdaEnd(text, 1) == 5
    ensures NaiveMatch(CodeOnlyText(text), 0, 0, '(', ')') == -1
  {
    PlainStep(text, 0);
    var masked := CodeOnlyText(text);
    CodeOnlyKeepsOffsets(text);
    assert masked[0..] == masked == Masked(text, Code, 0);
    hide MaskStep, IsLambda, LambdaEnd, Masked, CodeOnlyText, NaiveMatch;
    MaskedHere(text, Code, 0, masked);
    LambdaBlanked(text, 1, masked);
    assert masked[0] == masked[0..1][0];
    OpenedOnly(masked);
  }

  lemma OpenedOnly(s: string)
    requires s != "" && s[0] == '(' && forall k :: 1 <= k < |s| ==> s[k] in " \n"
    ensures NaiveMatch(s, 0, 0, '(', ')') == -1
  {
    NaiveSkipsBlanks(s, 1, |s|, 1, '(', ')');
  }

  lemma WitnessIsLambda(text: string)
    requires Unfinished(text)
    ensures !IsLambda(text, 0) && IsLambda(text, 1) && LambdaEnd(text, 1) == 5
  {
    assert Matched(text, Code, 2, 1, '[', ']') == 2;
    assert MatchingDelimiter(text, 1, '[', ']') == 2;
    assert Matched(text, Code, 4, 1, '{', '}') == -1;
    assert MatchingDelimiter(text, 3, '{', '}') == -1;
    NoSpecifierAtBrace(text, 3);
    assert SkipSpecifiers(text, 3) == 3 by { hide SpecifierFrom; }
    assert AfterCapture(text, 3) == 3;
  }

  lemma NoSpecifierAtBrace(text: string, i: nat)
    requires i < |text| && text[i] == '{'
    ensures SpecifierFrom(text, i, 0) == ""
  {
    forall k | 0 <= k < |SPECIFIERS| ensures !SpecifierAt(text, SPECIFIERS[k], i) {
      assert SPECIFIERS[k][0] != '{' && |SPECIFIERS[k]| > 0;
      assert i + |SPECIFIERS[k]| <= |text| ==> text[i..i + |SPECIFIERS[k]|][0] == text[i];
    }
    assert SpecifierFrom(text, i, 3) == "";
  }

  /** A lambda without captures, parameters or specifiers. */
  lemma BareLambda(text: string, i: nat, end: nat)
    requires i + 3 <= end <= |text| && text[i] == '[' && text[i + 1] == ']' && text[i + 2] == '{'
    requires MatchingDelimiter(text, i + 2, '{', '}') == end - 1
    ensures IsLambda(text, i) && LambdaEnd(text, i) == end
  {
    assert Matched(text, Code, i + 1, 1, '[', ']') == i + 1;
    assert MatchingDelimiter(text, i, '[', ']') == i + 1;
    NoSpecifierAtBrace(text, i + 2);
    assert SkipSpecifiers(text, i + 2) == i + 2 by { hide SpecifierFrom; }
    assert SkipSpaces(text, i + 2) == i + 2;
    assert AfterCapture(text, i + 2) == i + 2;
  }

  /** Balance is not necessary: the imbalances of two lambdas can cancel. */
  lemma ImbalancesCanCancel(text: string)
    requires text == "([]{(}[]{)})"
    ensures IsLambda(text, 1) && !Balanced(text, 1, '(', ')')
    ensures MatchingDelimiter(text, 0, '(', ')') == 11
    ensures NaiveMatch(CodeOnlyText(text), 0, 0, '(', ')') == 11
  {
    assert Cancelling(text);
    hide Matched, NaiveMatch, Balanced, IsLambda, LambdaEnd;
    CancellingLambdas(text);
    CancellingMatch(text);
    CancellingCount(text);
  }

  /** The text of the lemma above, character by character. */
  predicate Cancelling(text: string) {
    && |text| == 12 && text[0] == '(' && text[11] == ')'
    && text[1] == '[' && text[2] == ']' && text[3] == '{' && text[4] == '(' && text[5] == '}'
    && text[6] == '[' && text[7] == ']' && text[8] == '{' && text[9] == ')' && text[10] == '}'
  }

  lemma CancellingLambdas(text: string)
    requires Cancelling(text)
    ensures !IsLambda(text, 0) && IsLambda(text, 1) && LambdaEnd(text, 1) == 6
    ensures IsLambda(text, 6) && LambdaEnd(text, 6) == 11 && !IsLambda(text, 11)
    ensures !Balanced(text, 1, '(', ')')
  {
    assert Matched(text, Code, 4, 1, '{', '}') == 5;
    assert Matched(text, Code, 9, 1, '{', '}') == 10;
    hide Balanced, Matched, IsLambda, LambdaEnd;
    BareLambda(text, 1, 6);
    BareLambda(text, 6, 11);
    OpensMoreThanItCloses(text);
    NoLambdaElsewhere(text, 0);
    NoLambdaElsewhere(text, 11);
  }

  lemma NoLambdaElsewhere(text: string, i: nat)
    requires i < |text| && text[i] != '['
    ensures !IsLambda(text, i)
  {
  }

  lemma OpensMoreThanItCloses(text: string)
    requires Cancelling(text)
    ensures Cross(text, Code, 1, 6, 0, 0, '(', ')').rise == 1
  {
    assert Cross(text, Code, 5, 6, 1, 0, '(', ')').rise == 1;
    assert Cross(text, Code, 3, 6, 0, 0, '(', ')').rise == 1;
  }

  lemma CancellingMatch(text: string)
    requires Cancelling(text)
    ensures MatchingDelimiter(text, 0, '(', ')') == 11
  {
    assert Matched(text, Code, 10, 1, '(', ')') == 11;
    assert Matched(text, Code, 8, 2, '(', ')') == 11;
    assert Matched(text, Code, 6, 2, '(', ')') == 11;
    assert Matched(text, Code, 4, 1, '(', ')') == 11;
    assert Matched(text, Code, 2, 1, '(', ')') == 11;
    assert Matched(text, Code, 1, 1, '(', ')') == 11;
  }

  /** Two lambdas between a bracket and its partner. */
  lemma CancellingCount(text: string)
    requires |text| == 12 && text[0] == '(' && text[11] == ')'
    requires IsLambda(text, 1) && LambdaEnd(text, 1) == 6 && IsLambda(text, 6) && LambdaEnd(text, 6) == 11
    ensures NaiveMatch(CodeOnlyText(text), 0, 0, '(', ')') == 11
  {
    PlainStep(text, 0);
    PlainStep(text, 11);
    var masked := CodeOnlyText(text);
    CodeOnlyKeepsOffsets(text);
    assert masked[0..] == masked == Masked(text, Code, 0);
    hide MaskStep, IsLambda, LambdaEnd, Masked, CodeOnlyText, NaiveMatch;
    MaskedHere(text, Code, 0, masked);
    LambdaBlanked(text, 1, masked);
    LambdaBlanked(text, 6, masked);
    MaskedHere(text, Code, 11, masked);
    assert masked[0] == masked[0..1][0] && masked[11] == masked[11..12][0];
    FramedCount(masked, 11);
  }

  lemma FramedCount(s: string, n: nat)
    requires 0 < n < |s| && s[0] == '(' && s[n] == ')' && forall k :: 1 <= k < n ==> s[k] in " \n"
    ensures NaiveMatch(s, 0, 0, '(', ')') == n
  {
    NaiveSkipsBlanks(s, 1, n, 1, '(', ')');
  }

  lemma LambdaBlanked(text: string, i: nat, masked: string)
    requires i < |text| == |masked| && IsLambda(text, i) && masked[i..] == Masked(text, Code, i)
    ensures forall k :: i <= k < LambdaEnd(text, i) ==> masked[k] in " \n"
    ensures masked[LambdaEnd(text, i)..] == Masked(text, Code, LambdaEnd(text, i))
  {
    LambdaIsBlank(text, i);
    MaskedHere(text, Code, i, masked);
    hide MaskStep, Masked, IsLambda, LambdaEnd;
    var end := LambdaEnd(text, i);
    assert forall k :: i <= k < end ==> masked[k] == masked[i..end][k - i];
  }

  /** An escaped line break inside a literal is blanked, so line numbers must come from the raw text. */
  lemma EscapedLineBreakIsLost()
    ensures CodeOnlyText("'\\\n'") == "    "
  {
    var text := "'\\\n'";
    assert Masked(text, Literal('\''), 3) == " " + Masked(text, Code, 4);
    assert Masked(text, Literal('\''), 1) == "  " + Masked(text, Literal('\''), 3);
  }
}
