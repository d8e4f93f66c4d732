/** 64-bit unsigned integers as 20 decimal digits: the text that the database stores and compares. */
module DecimalText {
  import opened Bytes

  const LIMIT := 0x1_0000_0000_0000_0000
  const WIDTH := 20

  type u64 = x: int | 0 <= x < LIMIT

  function DigitChar(d: nat): char
    requires d < 10
  {
    '0' + d as char
  }

  /** The last n decimal digits of v, most significant first. */
  function Text(v: nat, n: nat): (s: string)
    ensures |s| == n
  {
    if n == 0 then "" else Text(v / 10, n - 1) + [DigitChar(v % 10)]
  }

  predicate AllDigits(s: string)
  {
    forall i :: 0 <= i < |s| ==> '0' <= s[i] <= '9'
  }

  /** The number that a string of digits denotes. */
  function Value(s: string): nat
    requires AllDigits(s)
  {
    if s == "" then 0 else Value(s[..|s| - 1]) * 10 + (Last(s) as int - '0' as int)
  }

  function Pow10(n: nat): nat
  {
    if n == 0 then 1 else 10 * Pow10(n - 1)
  }

  /** How strings compare: by the first character in which they differ. */
  predicate Less(a: string, b: string)
  {
    if b == "" then false
    else if a == "" then true
    else a[0] < b[0] || (a[0] == b[0] && Less(a[1..], b[1..]))
  }

  // ----- the two conversions, as they are written -----

  method Uint64ToUtf16(value: u64, out: array<char>)
    requires out.Length == WIDTH
    modifies out
    ensures out[..] == Text(value, WIDTH)
  {
    var v, i := value, WIDTH;
    assert Text(v, i) + out[i..] == Text(value, WIDTH);
    while i > 0
      invariant 0 <= i <= WIDTH && Text(v, i) + out[i..] == Text(value, WIDTH)
    {
      i := i - 1;
      ghost var tail := out[i + 1..];
      out[i] := DigitChar(v % 10);
      assert out[i..] == [DigitChar(v % 10)] + tail;
      assert Text(v / 10, i) + ([DigitChar(v % 10)] + tail) == Text(v / 10, i) + [DigitChar(v % 10)] + tail;
      v := v / 10;
    }
  }

  /** None is a failed assertion; the accumulator is 64 bits wide and wraps. */
  method Utf16ToUint64(str: string) returns (value: Option<u64>)
    ensures value == if |str| == WIDTH && AllDigits(str) then Some(Value(str) % LIMIT) else None
  {
    if |str| != WIDTH { return None; }
    var v: u64, i := 0, 0;
    while i < WIDTH
      invariant i <= WIDTH && AllDigits(str[..i]) && v == Value(str[..i]) % LIMIT
    {
      if str[i] < '0' || str[i] > '9' { return None; }
      assert str[..i + 1][..i] == str[..i];
      WrapsOnce(Value(str[..i]), str[i] as int - '0' as int);
      v := (v * 10 + (str[i] as int - '0' as int)) % LIMIT;
      i := i + 1;
    }
    assert str[..WIDTH] == str;
    value := Some(v);
  }

  lemma WrapsOnce(v: nat, d: nat)
    ensures (v % LIMIT * 10 + d) % LIMIT == (v * 10 + d) % LIMIT
  {
    var q := v / LIMIT;
    assert v * 10 + d == (v % LIMIT * 10 + d) + LIMIT * (q * 10);
    ModAdds(v % LIMIT * 10 + d, q * 10);
  }

  lemma {:induction false} ModAdds(x: nat, k: nat)
    ensures (x + LIMIT * k) % LIMIT == x % LIMIT
  {
    if k > 0 {
      ModAdds(x, k - 1);
      assert (x + LIMIT * k) % LIMIT == (x + LIMIT * (k - 1)) % LIMIT;
    }
  }

  // ----- what they promise -----

  lemma {:induction false} TextIsDigits(v: nat, n: nat)
    ensures AllDigits(Text(v, n))
    ensures v < Pow10(n) ==> Value(Text(v, n)) == v
  {
    if n > 0 {
      TextIsDigits(v / 10, n - 1);
      assert Text(v, n)[..n - 1] == Text(v / 10, n - 1);
    }
  }

  lemma EveryU64Fits(v: u64)
    ensures v < Pow10(WIDTH)
  {
    assert Pow10(5) == 100000;
    assert Pow10(10) == 10000000000;
    assert Pow10(15) == 1000000000000000;
  }

  /** Decoding an encoded number gives it back, and on the way the 64-bit accumulator never wraps. */
  lemma RoundTrip(v: u64)
    ensures AllDigits(Text(v, WIDTH)) && Value(Text(v, WIDTH)) % LIMIT == v
    ensures forall i :: 0 <= i <= WIDTH ==> AllDigits(Text(v, WIDTH)[..i]) && Value(Text(v, WIDTH)[..i]) < LIMIT
  {
    hide Text, Value, Pow10;
    EveryU64Fits(v);
    TextIsDigits(v, WIDTH);
    forall i | 0 <= i <= WIDTH ensures AllDigits(Text(v, WIDTH)[..i]) && Value(Text(v, WIDTH)[..i]) < LIMIT {
      PrefixIsSmaller(Text(v, WIDTH), i);
    }
  }

  lemma {:induction false} PrefixIsSmaller(s: string, i: nat)
    requires AllDigits(s) && i <= |s|
    ensures AllDigits(s[..i]) && Value(s[..i]) <= Value(s)
    decreases |s|
  {
    if i == |s| {
      assert s[..i] == s;
    } else {
      assert s[..|s| - 1][..i] == s[..i];
      PrefixIsSmaller(s[..|s| - 1], i);
    }
  }

  lemma {:induction false} LessOn(a: string, b: string, p: char, q: char)
    requires |a| == |b|
    ensures Less(a + [p], b + [q]) <==> Less(a, b) || (a == b && p < q)
    decreases |a|
  {
    if a != "" {
      assert (a + [p])[1..] == a[1..] + [p] && (b + [q])[1..] == b[1..] + [q];
      LessOn(a[1..], b[1..], p, q);
      assert a == [a[0]] + a[1..] && b == [b[0]] + b[1..];
    }
  }

  lemma {:induction false} OrderOfDigits(a: nat, b: nat, n: nat)
    requires a < Pow10(n) && b < Pow10(n)
    ensures Less(Text(a, n), Text(b, n)) <==> a < b
    ensures Text(a, n) == Text(b, n) <==> a == b
  {
    if n > 0 {
      OrderOfDigits(a / 10, b / 10, n - 1);
      LessOn(Text(a / 10, n - 1), Text(b / 10, n - 1), DigitChar(a % 10), DigitChar(b % 10));
      assert Text(a, n)[..n - 1] == Text(a / 10, n - 1) && Text(b, n)[..n - 1] == Text(b / 10, n - 1);
      assert Last(Text(a, n)) == DigitChar(a % 10) && Last(Text(b, n)) == DigitChar(b % 10);
    }
  }

  /** The texts compare as the numbers do, so ordering and comparing the stored column is ordering and comparing the
      numbers. */
  lemma TextOrderIsNumberOrder(a: u64, b: u64)
    ensures Less(Text(a, WIDTH), Text(b, WIDTH)) <==> a < b
    ensures Text(a, WIDTH) == Text(b, WIDTH) <==> a == b
  {
    EveryU64Fits(a);
    EveryU64Fits(b);
    OrderOfDigits(a, b, WIDTH);
  }
}
