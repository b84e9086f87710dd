/** The number printer and parser of tools/src/airspyhf_rx.c:200-225 and 255-299, on bytes. */
module RxDigits {
  import opened Words
  import opened Wrappers

  const U64_MAX := U64 - 1
  const U64TOA_MAX_DIGIT := 31

  // ----- Digits -----

  function DigitByte(d: int): Byte
    requires 0 <= d < 10
  {
    (0x30 + d) as Byte
  }

  /** The value of a digit character in the given base, or -1. */
  function DigitValue(b: Byte, base: int): int {
    var v := if 0x30 <= b <= 0x39 then b as int - 0x30
             else if 0x41 <= b <= 0x5A then b as int - 0x41 + 10
             else if 0x61 <= b <= 0x7A then b as int - 0x61 + 10
             else -1;
    if v < base then v else -1
  }

  lemma DigitRoundTrip(d: int)
    requires 0 <= d < 10
    ensures DigitValue(DigitByte(d), 10) == d && DigitByte(d) != NUL && DigitByte(d) <= 0x39
    ensures DigitByte(d) == 0x30 <==> d == 0
  {
  }

  /** Decimal notation without leading zeros. */
  function Decimal(v: nat): (s: seq<Byte>)
    ensures |s| >= 1
  {
    if v < 10 then [DigitByte(v)] else Decimal(v / 10) + [DigitByte(v % 10)]
  }

  function Value(s: seq<Byte>, base: int): int {
    if s == [] then 0 else Value(s[..|s| - 1], base) * base + DigitValue(s[|s| - 1], base)
  }

  predicate AllDigits(s: seq<Byte>, base: int) {
    forall b <- s :: DigitValue(b, base) >= 0
  }

  lemma {:induction false} DecimalValue(v: nat)
    ensures AllDigits(Decimal(v), 10) && NUL !in Decimal(v) && Value(Decimal(v), 10) == v
    ensures Decimal(v)[0] == 0x30 <==> v == 0
    ensures v == 0 ==> |Decimal(v)| == 1
    ensures forall b <- Decimal(v) :: b <= 0x39
  {
    hide DigitByte, DigitValue;
    var s := Decimal(v);
    DigitRoundTrip(v % 10);
    if v >= 10 {
      DecimalValue(v / 10);
      assert s[..|s| - 1] == Decimal(v / 10);
    } else {
      assert s[..0] == [];
      assert Value([], 10) == 0;
    }
  }

  lemma {:induction false} DecimalLength(v: nat, k: nat, bound: nat)
    requires v < bound && bound == Pow10(k) && k >= 1
    ensures |Decimal(v)| <= k
    decreases k
  {
    if v >= 10 {
      DecimalLength(v / 10, k - 1, Pow10(k - 1));
    }
  }

  function Pow10(k: nat): nat {
    if k == 0 then 1 else 10 * Pow10(k - 1)
  }

  // ----- Reversal -----

  function Reversed(s: seq<Byte>): (r: seq<Byte>)
    ensures |r| == |s| && forall i :: 0 <= i < |s| ==> r[i] == s[|s| - 1 - i]
  {
    seq(|s|, i requires 0 <= i < |s| => s[|s| - 1 - i])
  }

  function Xor(a: Byte, b: Byte): Byte {
    a ^ b
  }

  /** The three exclusive-ors exchange two bytes. */
  lemma XorExchange(a: Byte, b: Byte)
    ensures var a1 := Xor(a, b); var b1 := Xor(b, a1); b1 == a && Xor(a1, b1) == b
  {
  }

  /** C's `strlen`. */
  method StrLen(data: array<Byte>) returns (n: nat)
    requires exists i :: 0 <= i < data.Length && data[i] == NUL
    ensures n < data.Length && data[n] == NUL && NUL !in data[..n]
  {
    n := 0;
    while data[n] != NUL
      invariant n < data.Length && NUL !in data[..n]
      invariant exists i :: n <= i < data.Length && data[i] == NUL
      decreases data.Length - n
    {
      n := n + 1;
    }
  }

  /** Lines 264-266. */
  method XorSwap(data: array<Byte>, p1: nat, p2: nat)
    requires p1 < p2 < data.Length
    modifies data
    ensures data[..] == old(data[..])[p1 := old(data[p2])][p2 := old(data[p1])]
  {
    hide Xor;
    XorExchange(data[p1], data[p2]);
    data[p1] := Xor(data[p1], data[p2]);
    data[p2] := Xor(data[p2], data[p1]);
    data[p1] := Xor(data[p1], data[p2]);
  }

  /** s with its first n bytes reversed outside [lo, hi]. */
  ghost predicate OuterReversed(t: seq<Byte>, s: seq<Byte>, n: nat, lo: int, hi: int)
    requires n <= |s|
  {
    && |t| == |s|
    && (forall i: nat :: i < n && (i < lo || i > hi) ==> t[i] == s[n - 1 - i])
    && (forall i: nat :: lo <= i <= hi && i < n ==> t[i] == s[i])
    && t[n..] == s[n..]
  }

  lemma SwapOuter(t: seq<Byte>, s: seq<Byte>, n: nat, lo: nat, hi: nat)
    requires n <= |s| && OuterReversed(t, s, n, lo, hi) && lo < hi < n && lo + hi == n - 1
    ensures OuterReversed(t[lo := t[hi]][hi := t[lo]], s, n, lo + 1, hi - 1)
  {
    var u := t[lo := t[hi]][hi := t[lo]];
    assert u[n..] == t[n..];
  }

  lemma ReversedAll(t: seq<Byte>, s: seq<Byte>, n: nat, lo: int, hi: int)
    requires n <= |s| && OuterReversed(t, s, n, lo, hi) && hi <= lo && lo + hi == n - 1
    ensures t == Reversed(s[..n]) + s[n..]
  {
  }

  /** Lines 255-269: reverses the string up to its terminator. */
  method StringRev(data: array<Byte>, ghost len: nat)
    requires len < data.Length && data[len] == NUL && NUL !in data[..len]
    modifies data
    ensures data[..] == Reversed(old(data[..len])) + old(data[len..])
  {
    if data[0] == NUL {
      return;
    }
    var n := StrLen(data);
    assert n == len;
    ghost var s := data[..];
    var p1: int, p2: int := 0, n - 1;
    while p2 > p1
      invariant p1 >= 0 && p1 + p2 == n - 1 && p2 < n
      invariant OuterReversed(data[..], s, n, p1, p2)
      decreases p2 - p1
    {
      SwapOuter(data[..], s, n, p1, p2);
      hide OuterReversed;
      XorSwap(data, p1, p2);
      p1, p2 := p1 + 1, p2 - 1;
    }
    ReversedAll(data[..], s, n, p1, p2);
  }

  lemma TwentyDigits(v: nat)
    requires v <= U64_MAX
    ensures |Decimal(v)| <= 20
  {
    assert Pow10(2) == 100;
    assert Pow10(4) == 10_000;
    assert Pow10(6) == 1_000_000;
    assert Pow10(8) == 100_000_000;
    assert Pow10(10) == 10_000_000_000;
    assert Pow10(12) == 1_000_000_000_000;
    assert Pow10(14) == 100_000_000_000_000;
    assert Pow10(16) == 10_000_000_000_000_000;
    assert Pow10(18) == 1_000_000_000_000_000_000;
    assert Pow10(20) == 100_000_000_000_000_000_000;
    DecimalLength(v, 20, Pow10(20));
  }

  /** One turn of the printing loop: the next digit from the right. */
  lemma NextDigit(all: seq<Byte>, sum: nat, pos: nat)
    requires pos < |all| && Decimal(sum) == all[..|all| - pos]
    ensures Reversed(all[|all| - pos..]) + [DigitByte(sum % 10)] == Reversed(all[|all| - pos - 1..])
    ensures sum < 10 <==> pos + 1 == |all|
    ensures sum >= 10 ==> Decimal(sum / 10) == all[..|all| - pos - 1]
  {
    hide DigitByte;
    assert all[|all| - pos - 1] == Decimal(sum)[|all| - pos - 1] == DigitByte(sum % 10);
    ReversedCons(DigitByte(sum % 10), all[|all| - pos..]);
    assert all[|all| - pos - 1..] == [DigitByte(sum % 10)] + all[|all| - pos..];
    if sum >= 10 {
      assert Decimal(sum)[..|all| - pos - 1] == Decimal(sum / 10);
    }
  }

  lemma ReversedCons(b: Byte, s: seq<Byte>)
    ensures Reversed([b] + s) == Reversed(s) + [b]
  {
  }

  lemma ReversedTwice(s: seq<Byte>)
    ensures Reversed(Reversed(s)) == s && (NUL !in s ==> NUL !in Reversed(s))
  {
  }

  /** Lines 280-290: the digits, last one first. */
  method PrintBackwards(val: nat, data: array<Byte>) returns (sum: nat, pos: nat)
    requires data.Length == U64TOA_MAX_DIGIT + 1 && |Decimal(val)| <= U64TOA_MAX_DIGIT
    modifies data
    ensures sum == 0 && pos == |Decimal(val)| && data[..pos] == Reversed(Decimal(val))
  {
    hide DigitByte, Reversed, Decimal;
    ghost var all := Decimal(val);
    sum, pos := val, 0;
    assert all[..|all| - 0] == all;
    while true
      invariant 0 <= pos < |all| && Decimal(sum) == all[..|all| - pos]
      invariant data[..pos] == Reversed(all[|all| - pos..])
      decreases sum
    {
      var digit := sum % 10;
      NextDigit(all, sum, pos);
      data[pos] := DigitByte(digit);
      assert data[..pos + 1] == data[..pos] + [DigitByte(digit)];
      pos := pos + 1;
      sum := sum / 10;
      if !(sum > 0 && pos < U64TOA_MAX_DIGIT) {
        break;
      }
    }
    assert all[|all| - pos..] == all;
  }

  /** Lines 271-299: never a null result, and the decimal string with its terminator. */
  method U64toa(val: nat, data: array<Byte>) returns (ok: bool)
    requires val <= U64_MAX && data.Length == U64TOA_MAX_DIGIT + 1
    modifies data
    ensures ok && |Decimal(val)| <= 20 && data[..|Decimal(val)| + 1] == Decimal(val) + [NUL]
  {
    hide Reversed, Decimal;
    TwentyDigits(val);
    DecimalValue(val);
    ReversedTwice(Decimal(val));
    var sum, pos := PrintBackwards(val, data);
    if pos == U64TOA_MAX_DIGIT && sum > 0 {
      return false;
    }
    data[pos] := NUL;
    assert data[..pos] == Reversed(Decimal(val));
    StringRev(data, pos);
    ok := true;
  }

  // ----- Parsing -----

  /** The prefix rule of lines 205-215: base and what is left. */
  function Prefixed(s: seq<Byte>): (int, seq<Byte>) {
    if |s| > 2 && s[0] == 0x30 && (s[1] == 0x78 || s[1] == 0x58) then (16, s[2..])
    else if |s| > 2 && s[0] == 0x30 && (s[1] == 0x62 || s[1] == 0x42) then (2, s[2..])
    else (10, s)
  }

  predicate Blank(b: Byte) {
    b == 0x20 || 0x09 <= b <= 0x0D
  }

  function SkipBlanks(s: seq<Byte>): seq<Byte> {
    if s != [] && Blank(s[0]) then SkipBlanks(s[1..]) else s
  }

  predicate Sign(b: Byte) {
    b == 0x2B || b == 0x2D
  }

  /** A second 0x that `strtoull` skips in base 16: only if a digit follows. */
  predicate HexPrefix(s: seq<Byte>, base: int) {
    base == 16 && |s| > 2 && s[0] == 0x30 && (s[1] == 0x78 || s[1] == 0x58) && DigitValue(s[2], 16) >= 0
  }

  /** What `strtoull` reads (section 7.22.1.4 of ISO C11): blanks, a sign, in base 16 a prefix; then digits. */
  function Subject(s: seq<Byte>, base: int): (bool, seq<Byte>) {
    var t := SkipBlanks(s);
    var u := if t != [] && Sign(t[0]) then t[1..] else t;
    (t != [] && t[0] == 0x2D, if HexPrefix(u, base) then u[2..] else u)
  }

  /** The value of digits, saturated, or negated modulo 2^64 after a minus sign when it fits. */
  function Converted(negative: bool, value: int): int {
    if value > U64_MAX then U64_MAX else if negative then (U64 - value) % U64 else value
  }

  /** What a string is worth, if all of it is a number. */
  function Parsed(s: seq<Byte>): Option<int> {
    var (base, text) := Prefixed(s);
    var (negative, digits) := Subject(text, base);
    if digits == [] || !AllDigits(digits, base) then None else Some(Converted(negative, Value(digits, base)))
  }

  /** The loop of `strtoull` over digits: the longest run, with the saturation remembered. */
  method ReadDigits(s: seq<Byte>, base: int) returns (value: int, overflow: bool, end: nat)
    requires 2 <= base <= 36
    ensures end <= |s| && AllDigits(s[..end], base) && (end < |s| ==> DigitValue(s[end], base) < 0)
    ensures overflow <==> Value(s[..end], base) > U64_MAX
    ensures !overflow ==> value == Value(s[..end], base) >= 0
  {
    hide DigitValue;
    value, overflow, end := 0, false, 0;
    while end < |s| && DigitValue(s[end], base) >= 0
      invariant end <= |s| && AllDigits(s[..end], base)
      invariant overflow <==> Value(s[..end], base) > U64_MAX
      invariant Value(s[..end], base) >= 0 && (!overflow ==> value == Value(s[..end], base))
    {
      ghost var all := s[..end + 1];
      assert all[..end] == s[..end] && all == s[..end] + [s[end]];
      Grows(Value(s[..end], base), DigitValue(s[end], base), base);
      if !overflow {
        value := value * base + DigitValue(s[end], base);
        overflow := value > U64_MAX;
      }
      end := end + 1;
    }
  }

  lemma Grows(v: int, d: int, base: int)
    requires v >= 0 && d >= 0 && base >= 1
    ensures v * base + d >= v
  {
    assert v * (base - 1) >= 0;
  }

  /** `strtoull`: the value, and how much of the string it has read; nothing if there are no digits. */
  method StrToUll(s: seq<Byte>, base: int) returns (value: int, end: nat)
    requires 2 <= base <= 36
    ensures end <= |s|
    ensures var (negative, digits) := Subject(s, base);
            && ((0 < end == |s|) <==> digits != [] && AllDigits(digits, base))
            && (0 < end == |s| ==> value == Converted(negative, Value(digits, base)))
  {
    hide DigitValue, Value, AllDigits;
    var start := 0;
    assert s[0..] == s;
    while start < |s| && Blank(s[start])
      invariant start <= |s| && SkipBlanks(s[start..]) == SkipBlanks(s)
    {
      assert s[start..][1..] == s[start + 1..];
      start := start + 1;
    }
    var negative := false;
    if start < |s| && Sign(s[start]) {
      negative := s[start] == 0x2D;
      assert s[start..][1..] == s[start + 1..];
      start := start + 1;
    }
    if HexPrefix(s[start..], base) {
      assert s[start..][2..] == s[start + 2..];
      start := start + 2;
    }
    var digits := s[start..];
    assert Subject(s, base) == (negative, digits);
    var sum, overflow, length := ReadDigits(digits, base);
    LongestRun(digits, base, length);
    if length == 0 {
      return 0, 0;
    }
    value := if overflow then U64_MAX else if negative then (U64 - sum) % U64 else sum;
    end := start + length;
    assert digits[..|digits|] == digits;
  }

  /** A run of digits that stops before the end stops at something else. */
  lemma LongestRun(s: seq<Byte>, base: int, end: nat)
    requires end <= |s| && AllDigits(s[..end], base) && (end < |s| ==> DigitValue(s[end], base) < 0)
    ensures end == |s| <==> AllDigits(s, base)
  {
    hide DigitValue;
    if end < |s| {
      assert s[end] in s;
    } else {
      assert s[..end] == s;
    }
  }

  /** Lines 200-225. */
  method ParseU64(str: seq<Byte>) returns (r: Option<int>)
    requires NUL !in str
    ensures r == Parsed(str)
  {
    hide DigitValue, Value, Subject, Converted, AllDigits;
    var base, s := 10, str;
    if |s| > 2 {
      if s[0] == 0x30 {
        if s[1] == 0x78 || s[1] == 0x58 {
          base := 16;
          s := s[2..];
        } else if s[1] == 0x62 || s[1] == 0x42 {
          base := 2;
          s := s[2..];
        }
      }
    }
    var value, end := StrToUll(s, base);
    r := if end != 0 && end == |s| then Some(value) else None;
  }

  /** Decimal notation is read as it stands, also after a minus sign. */
  lemma DecimalSubject(v: nat)
    ensures var s := Decimal(v);
            && NUL !in s && s[0] != 0x2D && Prefixed(s) == (10, s) && Subject(s, 10) == (false, s)
            && Prefixed([0x2D] + s) == (10, [0x2D] + s) && Subject([0x2D] + s, 10) == (true, s)
  {
    hide Decimal, Value;
    var s := Decimal(v);
    DecimalValue(v);
    assert s[0] in s && (|s| > 1 ==> s[1] in s);
    assert DigitValue(s[0], 10) >= 0;
    assert ([0x2D] + s)[1..] == s;
  }

  /** Printing and parsing are inverse on every 64-bit value. */
  lemma RoundTrip(v: nat)
    requires v <= U64_MAX
    ensures NUL !in Decimal(v) && Parsed(Decimal(v)) == Some(v)
  {
    hide Decimal, Value, Prefixed, Subject;
    DecimalSubject(v);
    DecimalValue(v);
  }

  /** A minus sign is accepted, and the number wraps: "-1" asks for 2^64 - 1. */
  lemma NegativeWraps(v: nat)
    requires 0 < v <= U64_MAX
    ensures Parsed([0x2D] + Decimal(v)) == Some(18_446_744_073_709_551_616 - v)
  {
    hide Decimal, Value, Prefixed, Subject;
    DecimalSubject(v);
    DecimalValue(v);
  }

  /** Without a base prefix or leading zeros there is only one way to write a value that does not saturate. */
  lemma {:induction false} DecimalUnique(s: seq<Byte>)
    requires s != [] && AllDigits(s, 10) && (s[0] == 0x30 ==> |s| == 1)
    ensures Value(s, 10) >= 0 && s == Decimal(Value(s, 10))
    ensures |s| > 1 || s[0] != 0x30 ==> Value(s, 10) > 0
  {
    hide DigitByte, DigitValue, Decimal, Value;
    var front, last := s[..|s| - 1], s[|s| - 1];
    assert last in s && DigitValue(last, 10) >= 0;
    DigitBack(last);
    OneDigit(front, last);
    assert s == front + [last];
    if |s| > 1 {
      assert forall b <- front :: b in s;
      DecimalUnique(front);
    }
  }

  /** One more digit on both sides. */
  lemma OneDigit(front: seq<Byte>, last: Byte)
    requires 0 <= DigitValue(last, 10) < 10
    ensures Value(front + [last], 10) == Value(front, 10) * 10 + DigitValue(last, 10)
    ensures front == [] ==> Value(front, 10) == 0 && Decimal(DigitValue(last, 10)) == [DigitByte(DigitValue(last, 10))]
    ensures var q, d := Value(front, 10), DigitValue(last, 10);
            q > 0 ==> Decimal(q * 10 + d) == Decimal(q) + [DigitByte(d)]
  {
    hide DigitByte, DigitValue;
    assert (front + [last])[..|front|] == front;
    var q, d := Value(front, 10), DigitValue(last, 10);
    if q > 0 {
      LastDigit(q, d);
    }
  }

  lemma LastDigit(q: nat, d: nat)
    requires d < 10
    ensures (q * 10 + d) / 10 == q && (q * 10 + d) % 10 == d
  {
  }

  lemma DigitBack(b: Byte)
    requires DigitValue(b, 10) >= 0
    ensures DigitValue(b, 10) < 10
    ensures DigitByte(DigitValue(b, 10)) == b && (b != 0x30 ==> DigitValue(b, 10) > 0)
  {
  }

  // ----- Notation by an explicit table -----

  /** "0123456789abcdef" and "0123456789ABCDEF". */
  const LOWER: seq<Byte> := [0x30, 0x31, 0x32, 0x33, 0x34, 0x35, 0x36, 0x37, 0x38, 0x39, 0x61, 0x62, 0x63, 0x64, 0x65, 0x66]
  const UPPER: seq<Byte> := [0x30, 0x31, 0x32, 0x33, 0x34, 0x35, 0x36, 0x37, 0x38, 0x39, 0x41, 0x42, 0x43, 0x44, 0x45, 0x46]

  function Notation(v: nat, base: nat, table: seq<Byte>): (s: seq<Byte>)
    requires 2 <= base <= |table|
    ensures |s| >= 1
  {
    if v < base then [table[v]] else
      Smaller(v, base);
      Notation(v / base, base, table) + [table[v % base]]
  }

  /** The decimal printer uses that table. */
  lemma {:induction false} DecimalNotation(v: nat)
    ensures Decimal(v) == Notation(v, 10, LOWER)
  {
    hide DigitByte;
    TableByte(v % 10);
    if v >= 10 {
      DecimalNotation(v / 10);
    }
  }

  lemma TableByte(d: nat)
    requires d < 10
    ensures DigitByte(d) == LOWER[d]
  {
  }

  ghost predicate Reads(table: seq<Byte>, base: nat) {
    2 <= base <= |table| && forall d: nat :: d < base ==> DigitValue(table[d], base) == d && HexDigit(table[d])
  }

  predicate HexDigit(b: Byte) {
    0x30 <= b <= 0x39 || 0x41 <= b <= 0x46 || 0x61 <= b <= 0x66
  }

  lemma TablesRead()
    ensures Reads(LOWER, 16) && Reads(UPPER, 16) && Reads(LOWER, 2)
  {
  }

  lemma {:induction false} NotationValue(v: nat, base: nat, table: seq<Byte>)
    requires Reads(table, base)
    ensures var s := Notation(v, base, table);
            AllDigits(s, base) && Value(s, base) == v && forall b <- s :: HexDigit(b)
  {
    hide DigitValue, HexDigit;
    var s := Notation(v, base, table);
    if v < base {
      assert s[..0] == [] && Value([], base) == 0;
    } else {
      Smaller(v, base);
      NotationValue(v / base, base, table);
      assert s[..|s| - 1] == Notation(v / base, base, table);
      assert Value(s, base) == v / base * base + v % base;
    }
  }

  lemma Smaller(v: nat, base: nat)
    requires 2 <= base <= v
    ensures v / base < v && v == v / base * base + v % base && 0 <= v % base < base
  {
  }

  /** A string of hexadecimal digits, written after a prefix, is read as it stands. */
  lemma DigitsSubject(s: seq<Byte>, base: int)
    requires s != [] && forall b <- s :: HexDigit(b)
    ensures Subject(s, base) == (false, s)
  {
    assert s[0] in s && (|s| > 1 ==> s[1] in s);
  }

  /** "0x" or "0X" before hexadecimal digits in either case, "0b" or "0B" before binary ones: the number they denote. */
  lemma PrefixedRoundTrip(v: nat)
    requires v <= U64_MAX
    ensures Parsed([0x30, 0x78] + Notation(v, 16, LOWER)) == Some(v) && Parsed([0x30, 0x58] + Notation(v, 16, LOWER)) == Some(v)
    ensures Parsed([0x30, 0x78] + Notation(v, 16, UPPER)) == Some(v) && Parsed([0x30, 0x58] + Notation(v, 16, UPPER)) == Some(v)
    ensures Parsed([0x30, 0x62] + Notation(v, 2, LOWER)) == Some(v) && Parsed([0x30, 0x42] + Notation(v, 2, LOWER)) == Some(v)
  {
    hide Parsed, Notation, Reads;
    TablesRead();
    AfterPrefix(v, 16, LOWER, 0x78);
    AfterPrefix(v, 16, LOWER, 0x58);
    AfterPrefix(v, 16, UPPER, 0x78);
    AfterPrefix(v, 16, UPPER, 0x58);
    AfterPrefix(v, 2, LOWER, 0x62);
    AfterPrefix(v, 2, LOWER, 0x42);
  }

  lemma AfterPrefix(v: nat, base: nat, table: seq<Byte>, mark: Byte)
    requires v <= U64_MAX && Reads(table, base)
    requires 2 <= base <= |table|
    requires if base == 16 then mark == 0x78 || mark == 0x58 else base == 2 && (mark == 0x62 || mark == 0x42)
    ensures Parsed([0x30, mark] + Notation(v, base, table)) == Some(v)
  {
    hide Notation, Value, DigitValue, Subject, Reads, HexDigit;
    var s := Notation(v, base, table);
    NotationValue(v, base, table);
    DigitsSubject(s, base);
    assert ([0x30, mark] + s)[2..] == s;
  }

  /** A decimal number too large for 64 bits is read as the largest one. */
  lemma Saturates(v: nat)
    requires v > U64_MAX
    ensures Parsed(Decimal(v)) == Some(18_446_744_073_709_551_615)
  {
    hide Decimal, Value, Prefixed, Subject;
    DecimalSubject(v);
    DecimalValue(v);
  }

  /** Blanks and a plus sign in front of a decimal number change nothing. */
  lemma BlanksAndPlus(blanks: seq<Byte>, v: nat)
    requires v <= U64_MAX && forall b <- blanks :: b == 0x20 || b == 0x09 || b == 0x0A || b == 0x0B || b == 0x0C || b == 0x0D
    ensures Parsed(blanks + ([0x2B] + Decimal(v))) == Some(v)
  {
    hide Decimal, Value, Subject, Prefixed;
    var digits := Decimal(v);
    DecimalValue(v);
    DecimalSubject(v);
    NoPrefix(blanks, [0x2B] + digits);
    SubjectAfterPlus(blanks, digits);
  }

  lemma NoPrefix(blanks: seq<Byte>, rest: seq<Byte>)
    requires (forall b <- blanks :: Blank(b)) && rest != [] && rest[0] != 0x30
    ensures Prefixed(blanks + rest) == (10, blanks + rest)
  {
    assert blanks != [] ==> (blanks + rest)[0] == blanks[0] && blanks[0] in blanks;
  }

  lemma SubjectAfterPlus(blanks: seq<Byte>, digits: seq<Byte>)
    requires (forall b <- blanks :: Blank(b))
    ensures Subject(blanks + ([0x2B] + digits), 10) == (false, digits)
  {
    SkipAll(blanks, [0x2B] + digits);
    hide SkipBlanks;
    assert ([0x2B] + digits)[1..] == digits;
  }

  /** Nothing is read that does not end in a digit: not "", "-", "0x", "10k" or "10 ". */
  lemma EndsInDigit(s: seq<Byte>)
    requires s == [] || !HexDigit(s[|s| - 1])
    ensures Parsed(s) == None
  {
    var (base, text) := Prefixed(s);
    var (negative, digits) := Subject(text, base);
    BlanksSkipped(text);
    hide SkipBlanks;
    if digits != [] {
      assert digits[|digits| - 1] == s[|s| - 1];
      NoDigit(s[|s| - 1], base);
      assert digits[|digits| - 1] in digits;
    }
  }

  /** Nor that starts with anything but a decimal digit, one of the six blanks or a sign. */
  lemma StartsRight(s: seq<Byte>)
    requires s != [] && !(0x30 <= s[0] <= 0x39) && s[0] != 0x20 && !(0x09 <= s[0] <= 0x0D) && s[0] != 0x2B && s[0] != 0x2D
    ensures Parsed(s) == None
  {
    hide Value;
    assert s[0] in s;
  }

  lemma {:induction false} BlanksSkipped(s: seq<Byte>)
    ensures var t := SkipBlanks(s);
            |t| <= |s| && t == s[|s| - |t|..]
  {
    if s != [] && Blank(s[0]) {
      BlanksSkipped(s[1..]);
    }
  }

  lemma NoDigit(b: Byte, base: int)
    requires base <= 16 && !HexDigit(b)
    ensures DigitValue(b, base) < 0
  {
  }

  lemma {:induction false} SkipAll(blanks: seq<Byte>, rest: seq<Byte>)
    requires (forall b <- blanks :: Blank(b)) && rest != [] && !Blank(rest[0])
    ensures SkipBlanks(blanks + rest) == rest
  {
    if blanks == [] {
      assert blanks + rest == rest;
    } else {
      assert blanks[0] in blanks && forall b <- blanks[1..] :: b in blanks;
      SkipAll(blanks[1..], rest);
      assert (blanks + rest)[1..] == blanks[1..] + rest;
    }
  }
}
