/** Small notions several modules share. */
module Basics {

  datatype Option<+T> = None | Some(value: T)

  function Front<T>(s: seq<T>): seq<T>
    requires s != []
  {
    s[..|s| - 1]
  }

  function Last<T>(s: seq<T>): T
    requires s != []
  {
    s[|s| - 1]
  }

  /** Division as the source's language does it, toward zero. */
  function TruncatedDiv(a: int, b: int): int
    requires b > 0
  {
    if a >= 0 then a / b else -(-a / b)
  }

  lemma TruncatesTowardZero(a: int, b: int)
    requires b > 0
    ensures var q := TruncatedDiv(a, b);
      if a >= 0 then q >= 0 && q * b <= a < q * b + b else q <= 0 && q * b - b < a <= q * b
  {
    Quotient(if a >= 0 then a else -a, b);
    NegatedProduct(-a / b, b);
  }

  lemma Quotient(d: int, b: int)
    requires d >= 0 && b > 0
    ensures d / b >= 0 && (d / b) * b <= d < (d / b) * b + b
  {
  }

  lemma NegatedProduct(q: int, b: int)
    ensures -q * b == -(q * b)
  {
  }

  predicate IsSpace(c: char) {
    c in " \t\n\r\U{0B}\U{0C}"
  }

  function TrimLeft(s: string): string {
    if s != "" && IsSpace(s[0]) then TrimLeft(s[1..]) else s
  }

  function TrimRight(s: string): string {
    if s != "" && IsSpace(s[|s| - 1]) then TrimRight(s[..|s| - 1]) else s
  }

  function Trim(s: string): string {
    TrimRight(TrimLeft(s))
  }

  lemma {:induction false} TrimLeftDrops(s: string) returns (i: nat)
    ensures i <= |s| && TrimLeft(s) == s[i..] && forall k :: 0 <= k < i ==> s[k] in " \t\n\r\U{0B}\U{0C}"
    decreases |s|
  {
    i := 0;
    if s != "" && IsSpace(s[0]) {
      i := TrimLeftDrops(s[1..]);
      assert forall k :: 0 < k < i + 1 ==> s[k] == s[1..][k - 1];
      i := i + 1;
    }
  }

  lemma {:induction false} TrimRightDrops(s: string) returns (j: nat)
    ensures j <= |s| && TrimRight(s) == s[..j] && forall k :: j <= k < |s| ==> s[k] in " \t\n\r\U{0B}\U{0C}"
    ensures j > 0 ==> s[j - 1] !in " \t\n\r\U{0B}\U{0C}"
    decreases |s|
  {
    j := |s|;
    if s != "" && IsSpace(s[|s| - 1]) {
      j := TrimRightDrops(s[..|s| - 1]);
      assert s[..|s| - 1][..j] == s[..j];
    } else {
      assert s[..|s|] == s;
    }
  }

  /** Trimming keeps the stretch from the first to the last character that is not blank. */
  lemma TrimIsTheCore(s: string) returns (i: nat, j: nat)
    ensures i <= j <= |s| && Trim(s) == s[i..j]
    ensures forall k :: 0 <= k < i || j <= k < |s| ==> s[k] in " \t\n\r\U{0B}\U{0C}"
    ensures i < j ==> s[i] !in " \t\n\r\U{0B}\U{0C}" && s[j - 1] !in " \t\n\r\U{0B}\U{0C}"
  {
    i := TrimLeftDrops(s);
    TrimLeftStops(s);
    var rest := s[i..];
    j := TrimRightDrops(rest);
    assert forall k :: j <= k < |rest| ==> rest[k] == s[i + k];
    assert rest[..j] == s[i..i + j];
    j := i + j;
  }

  lemma {:induction false} TrimRightKeepsLeft(s: string)
    requires s == "" || !IsSpace(s[0])
    ensures TrimRight(s) == "" || !IsSpace(TrimRight(s)[0])
    ensures TrimRight(TrimRight(s)) == TrimRight(s)
    decreases |s|
  {
    if s != "" && IsSpace(s[|s| - 1]) {
      TrimRightKeepsLeft(s[..|s| - 1]);
    }
  }

  lemma {:induction false} TrimLeftStops(s: string)
    ensures TrimLeft(s) == "" || !IsSpace(TrimLeft(s)[0])
    decreases |s|
  {
    if s != "" && IsSpace(s[0]) {
      TrimLeftStops(s[1..]);
    }
  }

  lemma TrimIdempotent(s: string)
    ensures Trim(Trim(s)) == Trim(s)
  {
    TrimLeftStops(s);
    TrimRightKeepsLeft(TrimLeft(s));
  }
}
