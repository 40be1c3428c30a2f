/** Numbers as text: what `std::hex`, `std::to_string`, `strtoul` and
    `std::stoull` do to them. `unsigned long`, `unsigned long long` and
    `size_t` have 64 bits. */
module Numerals {
  import opened Bytes

  const TWO64: nat := 0x1_0000_0000_0000_0000

  predicate IsBase(base: nat) {
    base == 10 || base == 16
  }

  /** The value of a digit in either case; 16 for any other character. */
  function DigitValue(c: char): nat {
    if '0' <= c <= '9' then c as nat - '0' as nat
    else if 'a' <= c <= 'f' then c as nat - 'a' as nat + 10
    else if 'A' <= c <= 'F' then c as nat - 'A' as nat + 10
    else 16
  }

  function DigitChar(d: nat): (c: char)
    requires d < 16
    ensures DigitValue(c) == d && (c == '0' <==> d == 0)
    ensures c as nat < 128 && ('0' <= c <= '9' || 'a' <= c <= 'f')
  {
    "0123456789abcdef"[d]
  }

  predicate IsDigit(c: char, base: nat) {
    DigitValue(c) < base
  }

  predicate AllDigits(s: Buffer, base: nat) {
    forall i :: 0 <= i < |s| ==> IsDigit(s[i], base)
  }

  /** The number that a string of digits denotes, most significant first. */
  function Value(s: Buffer, base: nat): nat
    requires AllDigits(s, base)
  {
    if s == [] then 0 else base * Value(s[..|s| - 1], base) + DigitValue(s[|s| - 1])
  }

  /** The shortest numeral of `n`, in lower case. */
  function Show(n: nat, base: nat): (s: Buffer)
    requires IsBase(base)
    ensures |s| > 0 && AllDigits(s, base)
    ensures Value(s, base) == n
    ensures n > 0 ==> s[0] != '0'
    ensures forall i :: 0 <= i < |s| ==> '0' <= s[i] <= '9' || 'a' <= s[i] <= 'f'
  {
    if n < base then [DigitChar(n)]
    else
      var front := Show(n / base, base);
      var s := front + [DigitChar(n % base)];
      assert s[..|s| - 1] == front;
      assert n == base * (n / base) + n % base;
      s
  }

  /** `n` fits in as many digits as its bound has. */
  lemma {:induction false} ShowLength(n: nat, base: nat, d: nat, bound: nat)
    requires IsBase(base) && d > 0 && bound == Power(base, d) && n < bound
    ensures |Show(n, base)| <= d
    decreases d
  {
    if n >= base {
      ShowLength(n / base, base, d - 1, Power(base, d - 1));
    }
  }

  function Power(base: nat, d: nat): nat {
    if d == 0 then 1 else base * Power(base, d - 1)
  }

  /** The length of the longest prefix of digits. */
  function DigitSpan(s: Buffer, base: nat): (k: nat)
    ensures k <= |s| && AllDigits(s[..k], base)
    ensures k < |s| ==> !IsDigit(s[k], base)
  {
    if s == [] || !IsDigit(s[0], base) then 0
    else
      var k := 1 + DigitSpan(s[1..], base);
      assert s[..k] == [s[0]] + s[1..][..k - 1];
      k
  }

  /** `std::isspace` in the C locale. */
  predicate IsSpace(c: char) {
    c == ' ' || 9 <= c as int <= 13
  }

  function SkipSpace(s: Buffer): (t: Buffer)
    ensures |t| <= |s|
    ensures t != [] ==> !IsSpace(t[0])
    ensures s != [] && !IsSpace(s[0]) ==> t == s
  {
    if s == [] || !IsSpace(s[0]) then s else SkipSpace(s[1..])
  }

  /** In base 16 a leading `0x` is skipped when a hexadecimal digit follows. */
  predicate HasHexPrefix(s: Buffer) {
    |s| >= 3 && s[0] == '0' && (s[1] == 'x' || s[1] == 'X') && IsDigit(s[2], 16)
  }

  /** What `strtoul` reports: the value, where it stopped, and `ERANGE`. */
  datatype Scan = Scan(value: nat, end: nat, erange: bool)

  /** `strtoul`/`strtoull` on a C string: white space, a sign, in base 16 a
      `0x` prefix, then as many digits as there are. Without digits nothing is
      consumed; a minus sign negates modulo 2^64; an overflow saturates. */
  function Strtoull(s: Buffer, base: nat): (r: Scan)
    requires IsBase(base)
    ensures r.end <= |s| && r.value < TWO64
  {
    var t := SkipSpace(s);
    var signed := t != [] && (t[0] == '-' || t[0] == '+');
    var u := if signed then t[1..] else t;
    var w := if base == 16 && HasHexPrefix(u) then u[2..] else u;
    var k := DigitSpan(w, base);
    if k == 0 then Scan(0, 0, false)
    else
      var v := Value(w[..k], base);
      var end := |s| - |w| + k;
      if v >= TWO64 then Scan(TWO64 - 1, end, true)
      else if signed && t[0] == '-' then Scan((TWO64 - v) % TWO64, end, false)
      else Scan(v, end, false)
  }

  /** `std::stoull(s)` with every exception turned into 0. */
  function StoullOrZero(s: Buffer): nat {
    var r := Strtoull(CString(s), 10);
    if r.end == 0 || r.erange then 0 else r.value
  }

  /** `std::stoull` undoes `std::to_string`. */
  lemma StoullOfShow(n: nat)
    requires n < TWO64
    ensures StoullOrZero(Show(n, 10)) == n
  {
    var s := Show(n, 10);
    assert '\0' !in s;
    assert CString(s) == s && SkipSpace(s) == s;
    DigitSpanAll(s, 10);
    assert s[..|s|] == s;
  }

  lemma DigitSpanAll(s: Buffer, base: nat)
    ensures DigitSpan(s, base) == |s| <==> AllDigits(s, base)
  {
    assert s[..|s|] == s;
  }

  lemma DigitSpanIs(s: Buffer, k: nat, base: nat)
    requires k <= |s| && AllDigits(s[..k], base) && (k < |s| ==> !IsDigit(s[k], base))
    ensures DigitSpan(s, base) == k
  {
    hide DigitSpan, DigitValue;
    var n := DigitSpan(s, base);
    forall i | 0 <= i < k || 0 <= i < n
      ensures IsDigit(s[i], base)
    {
      assert i < k ==> s[..k][i] == s[i];
      assert i < n ==> s[..n][i] == s[i];
    }
  }

  // ------------------------------------------------------- decimals in headers

  /** White space, a sign, digits, and something that does not begin with one. */
  ghost predicate IsDecimal(s: Buffer, space: Buffer, sign: Buffer, digits: Buffer, tail: Buffer) {
    && s == space + (sign + (digits + tail))
    && (forall i :: 0 <= i < |space| ==> IsSpace(space[i]))
    && (sign == [] || sign == "+" || sign == "-")
    && digits != [] && AllDigits(digits, 10)
    && (tail == [] || !IsDigit(tail[0], 10))
  }

  lemma {:induction false} SkipSpaceOf(space: Buffer, t: Buffer)
    requires (forall i :: 0 <= i < |space| ==> IsSpace(space[i])) && (t != [] ==> !IsSpace(t[0]))
    ensures SkipSpace(space + t) == t
  {
    if space == [] {
      assert space + t == t;
    } else {
      assert (space + t)[1..] == space[1..] + t;
      SkipSpaceOf(space[1..], t);
    }
  }

  /** `strtoull` on a decimal. */
  lemma StrtoullOf(s: Buffer, space: Buffer, sign: Buffer, digits: Buffer, tail: Buffer)
    requires IsDecimal(s, space, sign, digits, tail)
    ensures var r, v := Strtoull(s, 10), Value(digits, 10);
            && r.end > 0 && (r.erange <==> v >= TWO64)
            && (v < TWO64 ==> r.value == if sign == "-" then (TWO64 - v) % TWO64 else v)
  {
    hide Value, SkipSpace;
    var t := sign + (digits + tail);
    assert IsDigit(digits[0], 10);
    assert !IsSpace(t[0]);
    SkipSpaceOf(space, t);
    var u := digits + tail;
    assert sign != [] ==> t[1..] == u;
    assert sign == [] ==> t == u;
    assert u[..|digits|] == digits;
    DigitSpanIs(u, |digits|, 10);
  }

  /** What `std::stoull` makes of a decimal: its value, negated modulo 2^64 after a
      minus sign, and 0 if it does not fit. */
  function Stoulled(sign: Buffer, digits: Buffer): nat
    requires AllDigits(digits, 10)
  {
    var v := Value(digits, 10);
    if v >= TWO64 then 0 else if sign == "-" then (TWO64 - v) % TWO64 else v
  }

  lemma StoullReads(s: Buffer, space: Buffer, sign: Buffer, digits: Buffer, tail: Buffer)
    requires IsDecimal(s, space, sign, digits, tail)
    ensures StoullOrZero(s) == Stoulled(sign, digits)
  {
    hide Strtoull, Value;
    var front := space + (sign + digits);
    assert '\0' !in digits by { assert !IsDigit('\0', 10); }
    assert '\0' !in front;
    var cut := CString(tail);
    assert s == front + tail;
    CStringAppend(front, tail);
    assert front + cut == space + (sign + (digits + cut));
    StrtoullOf(front + cut, space, sign, digits, cut);
  }

  lemma {:induction false} CStringAppend(front: Buffer, tail: Buffer)
    requires '\0' !in front
    ensures CString(front + tail) == front + CString(tail)
  {
    FindAfter(front, tail);
    var p := Find(tail, '\0');
    assert (front + tail)[..|front| + p] == front + tail[..p];
  }

  lemma {:induction false} FindAfter(front: Buffer, tail: Buffer)
    requires '\0' !in front
    ensures Find(front + tail, '\0') == |front| + Find(tail, '\0')
  {
    if front == [] {
      assert front + tail == tail;
    } else {
      assert (front + tail)[1..] == front[1..] + tail;
      FindAfter(front[1..], tail);
    }
  }

  lemma {:induction false} SpaceBefore(s: Buffer) returns (space: Buffer)
    ensures s == space + SkipSpace(s) && forall i :: 0 <= i < |space| ==> IsSpace(space[i])
  {
    if s == [] || !IsSpace(s[0]) {
      space := [];
    } else {
      var rest := SpaceBefore(s[1..]);
      space := [s[0]] + rest;
      assert s == [s[0]] + s[1..];
    }
  }

  lemma StrtoullParts(c: Buffer) returns (space: Buffer, sign: Buffer, digits: Buffer, rest: Buffer)
    requires Strtoull(c, 10).end > 0
    ensures IsDecimal(c, space, sign, digits, rest)
  {
    hide Value, SkipSpace;
    space := SpaceBefore(c);
    var t := SkipSpace(c);
    var signed := t != [] && (t[0] == '-' || t[0] == '+');
    sign := if signed then t[..1] else [];
    var u := if signed then t[1..] else t;
    var k := DigitSpan(u, 10);
    digits, rest := u[..k], u[k..];
    assert t == sign + u && u == digits + rest;
  }

  /** And of anything else it makes 0. */
  lemma StoullIsDecimal(s: Buffer) returns (space: Buffer, sign: Buffer, digits: Buffer, tail: Buffer)
    requires StoullOrZero(s) != 0
    ensures IsDecimal(s, space, sign, digits, tail)
  {
    hide Value, Strtoull;
    var c := CString(s);
    var rest;
    space, sign, digits, rest := StrtoullParts(c);
    tail := rest + s[|c|..];
    assert s == c + s[|c|..];
    assert |c| < |s| ==> s[|c|] == '\0';
    hide CString;
    assert space + (sign + (digits + rest)) + s[|c|..] == space + (sign + (digits + tail));
  }
}
