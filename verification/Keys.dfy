/** WireGuard keys: 32 bytes, their order and their hexadecimal text.

    A key is held as the number its 32 bytes spell in base 256, the first byte
    being the most significant. That is only a way of writing the bytes down:
    `KeyBytes` gives them back, and comparing keys byte by byte is comparing
    these numbers. */
module Keys {
  import opened Wrappers
  import opened Ordering

  const KEY_LENGTH := 32

  const KEY_SPACE := 0x1_0000_0000_0000_0000_0000_0000_0000_0000_0000_0000_0000_0000_0000_0000_0000_0000

  type Key = k: int | 0 <= k < KEY_SPACE

  /** The unset key: 32 zero bytes. */
  const ZERO_KEY: Key := 0

  // Bytes

  function PowerOf(base: nat, n: nat): nat {
    if n == 0 then 1 else base * PowerOf(base, n - 1)
  }

  /** The last n base-256 digits of k, most significant first. */
  function BytesOf(k: nat, n: nat): (r: seq<int>)
    ensures |r| == n
    ensures forall i :: 0 <= i < n ==> 0 <= r[i] < 256
  {
    if n == 0 then [] else BytesOf(k / 256, n - 1) + [k % 256]
  }

  function KeyBytes(k: Key): seq<int> {
    BytesOf(k, KEY_LENGTH)
  }

  lemma {:induction false} LexSnoc(a: seq<int>, x: int, b: seq<int>, y: int)
    requires |a| == |b|
    ensures LexLess(a + [x], b + [y]) <==> LexLess(a, b) || (a == b && x < y)
  {
    if a == [] {
      assert a + [x] == [x] && b + [y] == [y];
    } else {
      assert (a + [x])[1..] == a[1..] + [x] && (b + [y])[1..] == b[1..] + [y];
      LexSnoc(a[1..], x, b[1..], y);
      assert a == [a[0]] + a[1..] && b == [b[0]] + b[1..];
    }
  }

  lemma {:induction false} BytesOrder(a: nat, b: nat, n: nat)
    requires a < PowerOf(256, n) && b < PowerOf(256, n)
    ensures LexLess(BytesOf(a, n), BytesOf(b, n)) <==> a < b
    ensures BytesOf(a, n) == BytesOf(b, n) <==> a == b
  {
    if n > 0 {
      BytesOrder(a / 256, b / 256, n - 1);
      LexSnoc(BytesOf(a / 256, n - 1), a % 256, BytesOf(b / 256, n - 1), b % 256);
      var s, t := BytesOf(a, n), BytesOf(b, n);
      assert s[..n - 1] == BytesOf(a / 256, n - 1) && s[n - 1] == a % 256;
      assert t[..n - 1] == BytesOf(b / 256, n - 1) && t[n - 1] == b % 256;
    } else {
      LexIrreflexive([]);
    }
  }

  lemma KeySpaceIs32Bytes()
    ensures PowerOf(256, KEY_LENGTH) == KEY_SPACE
  {
    assert PowerOf(256, 8) == 0x1_0000_0000_0000_0000;
    assert PowerOf(256, 16) == 0x1_0000_0000_0000_0000_0000_0000_0000_0000;
    assert PowerOf(256, 24) == 0x1_0000_0000_0000_0000_0000_0000_0000_0000_0000_0000_0000_0000;
  }

  /** Comparing keys byte by byte, as bytes.Compare does, compares the numbers. */
  lemma KeyOrder(a: Key, b: Key)
    ensures LexLess(KeyBytes(a), KeyBytes(b)) <==> a < b
    ensures KeyBytes(a) == KeyBytes(b) <==> a == b
  {
    KeySpaceIs32Bytes();
    BytesOrder(a, b, KEY_LENGTH);
  }

  // Base16 (section 8 of RFC 4648), in lower case.

  predicate IsHexDigit(c: char) { '0' <= c <= '9' || 'a' <= c <= 'f' }

  function HexDigit(n: int): (c: char)
    requires 0 <= n < 16
    ensures IsHexDigit(c) && HexValue(c) == n
  {
    if n < 10 then (n + '0' as int) as char else (n - 10 + 'a' as int) as char
  }

  function HexValue(c: char): (n: int)
    requires IsHexDigit(c)
    ensures 0 <= n < 16
  {
    if c <= '9' then c as int - '0' as int else c as int - 'a' as int + 10
  }

  /** The last n base-16 digits of k. */
  function HexDigits(k: nat, n: nat): (s: string)
    ensures |s| == n && forall i :: 0 <= i < n ==> IsHexDigit(s[i])
  {
    if n == 0 then [] else HexDigits(k / 16, n - 1) + [HexDigit(k % 16)]
  }

  function KeyInHex(k: Key): string {
    HexDigits(k, 2 * KEY_LENGTH)
  }

  /** A byte is written as two digits, the high one first. */
  lemma {:induction false} TwoDigitsAByte(k: nat, n: nat)
    ensures BytesOf(k, n + 1) == BytesOf(k / 256, n) + [k % 256]
    ensures HexDigits(k, n + 2) == HexDigits(k / 256, n) + [HexDigit(k % 256 / 16), HexDigit(k % 256 % 16)]
  {
    assert k / 16 / 16 == k / 256 && k / 16 % 16 == k % 256 / 16 && k % 16 == k % 256 % 16;
  }

  const HEX_ALPHABET := "0123456789abcdef"

  lemma HexDigitIs(n: int)
    requires 0 <= n < 16
    ensures HexDigit(n) == HEX_ALPHABET[n]
  {
  }

  lemma {:induction false} DigitsSpellBytes(k: nat, n: nat, i: nat)
    requires i < n
    ensures HexDigits(k, 2 * n)[2 * i] == HexDigit(BytesOf(k, n)[i] / 16)
    ensures HexDigits(k, 2 * n)[2 * i + 1] == HexDigit(BytesOf(k, n)[i] % 16)
  {
    var m := 2 * (n - 1);
    TwoDigitsAByte(k, n - 1);
    TwoDigitsAByte(k, m);
    assert HexDigits(k, 2 * n) == HexDigits(k / 256, m) + [HexDigit(k % 256 / 16), HexDigit(k % 256 % 16)];
    if i < n - 1 {
      DigitsSpellBytes(k / 256, n - 1, i);
    }
  }

  /** The i-th byte of a key is its digits 2i and 2i+1, the high one first. */
  lemma HexSpellsBytes(k: Key, i: nat)
    requires i < KEY_LENGTH
    ensures |KeyInHex(k)| == 2 * KEY_LENGTH
    ensures KeyInHex(k)[2 * i] == HEX_ALPHABET[KeyBytes(k)[i] / 16]
    ensures KeyInHex(k)[2 * i + 1] == HEX_ALPHABET[KeyBytes(k)[i] % 16]
  {
    DigitsSpellBytes(k, KEY_LENGTH, i);
    HexDigitIs(KeyBytes(k)[i] / 16);
    HexDigitIs(KeyBytes(k)[i] % 16);
  }

  predicate AllHexDigits(s: string) { forall i :: 0 <= i < |s| ==> IsHexDigit(s[i]) }

  /** The number that a string of hex digits stands for. */
  function HexNumber(s: string): nat
    requires AllHexDigits(s)
  {
    if s == [] then 0 else 16 * HexNumber(s[..|s| - 1]) + HexValue(s[|s| - 1])
  }

  lemma {:induction false} HexNumberSnoc(front: string, c: char)
    requires AllHexDigits(front) && IsHexDigit(c)
    ensures HexNumber(front + [c]) == 16 * HexNumber(front) + HexValue(c)
  {
    assert (front + [c])[..|front|] == front;
  }

  lemma {:induction false} HexRoundTrip(k: nat, n: nat)
    requires k < PowerOf(16, n)
    ensures HexNumber(HexDigits(k, n)) == k
  {
    if n > 0 {
      HexRoundTrip(k / 16, n - 1);
      HexNumberSnoc(HexDigits(k / 16, n - 1), HexDigit(k % 16));
    }
  }

  /** A key of exactly 64 hex digits. */
  function ParseHexKey(s: string): Option<Key> {
    if |s| == 2 * KEY_LENGTH && AllHexDigits(s) && HexNumber(s) < KEY_SPACE then Some(HexNumber(s)) else None
  }

  lemma {:induction false} TwoDigitsSpanAByte(n: nat)
    ensures PowerOf(16, 2 * n) == PowerOf(256, n)
  {
    if n > 0 {
      TwoDigitsSpanAByte(n - 1);
      assert PowerOf(16, 2 * n) == 16 * PowerOf(16, 2 * n - 1) == 16 * (16 * PowerOf(16, 2 * (n - 1)));
    }
  }

  lemma KeyRoundTrip(k: Key)
    ensures ParseHexKey(KeyInHex(k)) == Some(k)
  {
    KeySpaceIs32Bytes();
    TwoDigitsSpanAByte(KEY_LENGTH);
    HexRoundTrip(k, 2 * KEY_LENGTH);
  }

  lemma HexAvoids(k: Key, c: char)
    requires !IsHexDigit(c)
    ensures c !in KeyInHex(k)
  {
    var s := KeyInHex(k);
    assert forall i :: 0 <= i < |s| ==> IsHexDigit(s[i]);
  }
}
