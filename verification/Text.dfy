/** Splitting, trimming and decimal numbers: the text primitives that the
    device protocol, the address parser and meshd.json share. */
module Text {
  import opened Wrappers

  /** Splits s at the first c, which is dropped. */
  function SplitOnce(s: string, c: char): (r: Option<(string, string)>)
    ensures r.Some? ==> s == r.value.0 + [c] + r.value.1 && c !in r.value.0
    ensures r.None? ==> c !in s
  {
    if s == [] then None
    else if s[0] == c then Some(([], s[1..]))
    else
      match SplitOnce(s[1..], c)
      case None => None
      case Some((a, b)) => Some(([s[0]] + a, b))
  }

  lemma {:induction false} SplitJoined(a: string, c: char, b: string)
    requires c !in a
    ensures SplitOnce(a + [c] + b, c) == Some((a, b))
  {
    if a == [] {
      assert a + [c] + b == [c] + b;
    } else {
      assert forall i :: 0 <= i < |a[1..]| ==> a[1..][i] == a[i + 1];
      SplitJoined(a[1..], c, b);
      assert a + [c] + b == [a[0]] + (a[1..] + [c] + b);
      assert (a + [c] + b)[1..] == a[1..] + [c] + b;
      assert a == [a[0]] + a[1..];
    }
  }

  /** Unicode White_Space, which strings.TrimSpace removes. */
  predicate IsSpace(c: char) {
    var n := c as int;
    9 <= n <= 13 || n == 32 || n == 0x85 || n == 0xA0 || n == 0x1680 || 0x2000 <= n <= 0x200A
    || n == 0x2028 || n == 0x2029 || n == 0x202F || n == 0x205F || n == 0x3000
  }

  /** s without its leading and trailing white space. */
  function TrimSpace(s: string): (r: string)
    ensures |r| <= |s|
    ensures r != [] ==> !IsSpace(r[0]) && !IsSpace(r[|r| - 1])
    ensures s != [] && !IsSpace(s[0]) && !IsSpace(s[|s| - 1]) ==> r == s
  {
    if s == [] then []
    else if IsSpace(s[0]) then TrimSpace(s[1..])
    else if IsSpace(s[|s| - 1]) then TrimSpace(s[..|s| - 1])
    else s
  }

  predicate AllSpace(s: string) { forall i :: 0 <= i < |s| ==> IsSpace(s[i]) }

  /** r is s without some white space at either end, and has none there. */
  ghost predicate IsTrimmed(s: string, r: string) {
    && (r != [] ==> !IsSpace(r[0]) && !IsSpace(r[|r| - 1]))
    && exists before, after :: AllSpace(before) && AllSpace(after) && s == before + r + after
  }

  lemma SpaceInFront(s: string, r: string)
    requires s != [] && IsSpace(s[0]) && IsTrimmed(s[1..], r)
    ensures IsTrimmed(s, r)
  {
    var before, after :| AllSpace(before) && AllSpace(after) && s[1..] == before + r + after;
    assert AllSpace([s[0]] + before) && s == ([s[0]] + before) + r + after;
  }

  lemma SpaceBehind(s: string, r: string)
    requires s != [] && IsSpace(s[|s| - 1]) && IsTrimmed(s[..|s| - 1], r)
    ensures IsTrimmed(s, r)
  {
    var n := |s| - 1;
    var before, after :| AllSpace(before) && AllSpace(after) && s[..n] == before + r + after;
    assert AllSpace(after + [s[n]]) && s == before + r + (after + [s[n]]);
  }

  lemma NoOuterSpace(s: string)
    requires s != [] ==> !IsSpace(s[0]) && !IsSpace(s[|s| - 1])
    ensures IsTrimmed(s, s)
  {
    assert AllSpace([]) && s == [] + s + [];
  }

  /** All outer white space is cut off, and nothing else. */
  lemma {:induction false} TrimSpaceExact(s: string)
    ensures IsTrimmed(s, TrimSpace(s))
  {
    if s == [] || (!IsSpace(s[0]) && !IsSpace(s[|s| - 1])) {
      NoOuterSpace(s);
    } else if IsSpace(s[0]) {
      TrimSpaceExact(s[1..]);
      SpaceInFront(s, TrimSpace(s[1..]));
    } else {
      TrimSpaceExact(s[..|s| - 1]);
      SpaceBehind(s, TrimSpace(s[..|s| - 1]));
    }
  }

  /** There is only one way to trim. */
  lemma {:induction false} TrimmedIs(s: string, r: string)
    ensures IsTrimmed(s, r) <==> r == TrimSpace(s)
  {
    TrimSpaceExact(s);
    if IsTrimmed(s, r) {
      var before, after :| AllSpace(before) && AllSpace(after) && s == before + r + after;
      TrimsTo(before, r, after);
    }
  }

  lemma {:induction false} TrimsTo(before: string, r: string, after: string)
    requires AllSpace(before) && AllSpace(after) && (r != [] ==> !IsSpace(r[0]) && !IsSpace(r[|r| - 1]))
    ensures TrimSpace(before + r + after) == r
    decreases |before| + |after|
  {
    var s := before + r + after;
    if before != [] {
      assert s[0] == before[0] && s[1..] == before[1..] + r + after;
      TrimsTo(before[1..], r, after);
    } else if r == [] && after != [] {
      assert s[0] == after[0] && s[1..] == [] + r + after[1..];
      TrimsTo([], r, after[1..]);
    } else if after != [] {
      assert s[0] == r[0] && s[|s| - 1] == after[|after| - 1];
      assert s[..|s| - 1] == [] + r + after[..|after| - 1];
      TrimsTo([], r, after[..|after| - 1]);
    } else {
      assert s == r;
    }
  }

  lemma {:induction false} TrimmedToNothing(s: string)
    ensures TrimSpace(s) == [] <==> AllSpace(s)
  {
    TrimSpaceExact(s);
    if AllSpace(s) && s != [] {
      TrimmedToNothing(s[1..]);
    }
  }

  lemma {:induction false} TrimSpaceIdempotent(s: string)
    ensures TrimSpace(TrimSpace(s)) == TrimSpace(s)
  {
    var t := TrimSpace(s);
  }

  // Decimal numbers

  predicate IsDigit(c: char) { '0' <= c <= '9' }

  function DigitChar(d: int): char
    requires 0 <= d < 10
  {
    (d + '0' as int) as char
  }

  function DigitValue(c: char): (d: int)
    requires IsDigit(c)
    ensures 0 <= d < 10
  {
    c as int - '0' as int
  }

  predicate AllDigits(s: string) { forall i :: 0 <= i < |s| ==> IsDigit(s[i]) }

  /** n in decimal, without leading zeros. */
  function Digits(n: nat): (s: string)
    ensures s != [] && AllDigits(s)
    ensures s[0] == '0' ==> n == 0 && |s| == 1
  {
    if n < 10 then [DigitChar(n)] else Digits(n / 10) + [DigitChar(n % 10)]
  }

  /** The number that s, a string of digits, stands for. */
  function Value(s: string): nat
    requires AllDigits(s)
  {
    if s == [] then 0 else 10 * Value(s[..|s| - 1]) + DigitValue(s[|s| - 1])
  }

  lemma {:induction false} ValueOfDigits(n: nat)
    ensures Value(Digits(n)) == n
  {
    var s := Digits(n);
    if n < 10 {
      assert s[..|s| - 1] == [];
    } else {
      assert s[..|s| - 1] == Digits(n / 10);
      ValueOfDigits(n / 10);
    }
  }

  /** A decimal number with no superfluous leading zero. */
  function ParseCanonical(s: string): Option<nat> {
    if s != [] && AllDigits(s) && (s[0] == '0' ==> |s| == 1) then Some(Value(s)) else None
  }

  /** A decimal number, leading zeros allowed (strconv.ParseUint). */
  function ParseUint(s: string): Option<nat> {
    if s != [] && AllDigits(s) then Some(Value(s)) else None
  }

  /** s is n in decimal digits, leading zeros allowed. */
  predicate IsNumber(s: string, n: nat) {
    s != [] && AllDigits(s) && Value(s) == n
  }

  lemma {:induction false} DigitsOfValue(s: string)
    requires ParseCanonical(s).Some?
    ensures Digits(Value(s)) == s
    ensures s[0] != '0' ==> Value(s) > 0
  {
    var front, last := s[..|s| - 1], s[|s| - 1];
    var d := DigitValue(last);
    assert last == DigitChar(d);
    if |s| == 1 {
      SingleDigit(s);
    } else {
      assert front[0] == s[0];
      DigitsOfValue(front);
      DigitsSnoc(Value(front), d);
      assert s == front + [last];
    }
  }

  lemma {:induction false} SingleDigit(s: string)
    requires |s| == 1 && IsDigit(s[0])
    ensures Value(s) == DigitValue(s[0]) && Digits(Value(s)) == s
  {
    assert s[..0] == [];
    assert Value(s[..0]) == 0;
  }

  lemma DigitsSnoc(n: nat, d: int)
    requires n > 0 && 0 <= d < 10
    ensures Digits(10 * n + d) == Digits(n) + [DigitChar(d)]
  {
    assert (10 * n + d) / 10 == n && (10 * n + d) % 10 == d;
  }

  /** Printing and canonical parsing are inverse to each other. */
  lemma {:induction false} CanonicalRoundTrip(s: string, n: nat)
    ensures ParseCanonical(s) == Some(n) <==> s == Digits(n)
  {
    ValueOfDigits(n);
    if ParseCanonical(s).Some? {
      DigitsOfValue(s);
    }
  }

  lemma {:induction false} DigitsAvoid(n: nat, c: char)
    requires !IsDigit(c)
    ensures c !in Digits(n)
  {
    var s := Digits(n);
    assert forall i :: 0 <= i < |s| ==> IsDigit(s[i]);
  }

  /** A possibly negative number in decimal (the verb %d). */
  function IntText(n: int): string {
    if n < 0 then ['-'] + Digits(0 - n) else Digits(n)
  }

  function ParseInt(s: string): Option<int> {
    if s != [] && s[0] == '-' then Negated(ParseUint(s[1..])) else ParseUint(s)
  }

  function Negated(n: Option<nat>): Option<int> {
    if n.None? then None else Some(0 - n.value)
  }

  lemma IntRoundTrip(n: int)
    ensures ParseInt(IntText(n)) == Some(n)
  {
    if n < 0 {
      UintRoundTrip(0 - n);
      assert IntText(n)[1..] == Digits(0 - n);
    } else {
      UintRoundTrip(n);
      assert IsDigit(Digits(n)[0]);
    }
  }

  lemma {:induction false} UintRoundTrip(n: nat)
    ensures ParseUint(Digits(n)) == Some(n)
  {
    ValueOfDigits(n);
  }

  lemma IntTextAvoids(n: int, c: char)
    requires !IsDigit(c) && c != '-'
    ensures c !in IntText(n)
  {
    if n < 0 {
      DigitsAvoid(0 - n, c);
    } else {
      DigitsAvoid(n, c);
    }
  }
}
