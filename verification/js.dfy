/** The slice of JavaScript's built-in semantics the client relies on:
    32-bit shifts and bitwise OR, `parseInt`, `Number.prototype.toString(16)`,
    `padStart`, `substring`, `replace` of a one-character string and `includes`.
    Numbers are modelled as integers plus NaN; fractional numbers do not occur
    on the paths modelled here. */
module Js {

  /** A JavaScript number restricted to the integers and NaN. */
  datatype Number = NaN | Int(v: int)

  // ---------------------------------------------------------------- 32-bit integers

  function Pow2(n: nat): (p: nat)
    ensures p >= 1
  {
    if n == 0 then 1 else 2 * Pow2(n - 1)
  }

  lemma Pow2Values()
    ensures Pow2(8) == 0x100 && Pow2(16) == 0x1_0000 && Pow2(32) == 0x1_0000_0000
  {
    assert Pow2(4) == 16;
    assert Pow2(8) == 0x100;
    assert Pow2(16) == 0x1_0000;
    assert Pow2(20) == 0x10_0000;
    assert Pow2(24) == 0x100_0000;
    assert Pow2(28) == 0x1000_0000;
  }

  lemma Pow2Of32()
    ensures Pow2(32) == 0x1_0000_0000
  {
    Pow2Values();
  }

  /** ToUint32 of an integer: its residue modulo 2^32 (Dafny's `%` never yields a negative). */
  function ToUint32(x: int): (u: nat)
    ensures u < 0x1_0000_0000
    ensures 0 <= x < 0x1_0000_0000 ==> u == x
  {
    x % 0x1_0000_0000
  }

  /** ToInt32 of an integer: the residue modulo 2^32 read as a two's-complement value. */
  function ToInt32(x: int): (i: int)
    ensures -0x8000_0000 <= i < 0x8000_0000
    ensures (i - x) % 0x1_0000_0000 == 0
    ensures -0x8000_0000 <= x < 0x8000_0000 ==> i == x
  {
    var u := ToUint32(x);
    if u >= 0x8000_0000 then u - 0x1_0000_0000 else u
  }

  /** ToInt32 applied to a number operand of a bitwise operator; NaN becomes 0. */
  function NumberToInt32(n: Number): (i: int)
    ensures n.NaN? ==> i == 0
    ensures n.Int? && -0x8000_0000 <= n.v < 0x8000_0000 ==> i == n.v
  {
    match n
    case NaN => 0
    case Int(v) => ToInt32(v)
  }

  /** `a << k` for a constant shift count below 32. */
  function ShiftLeft(a: Number, k: nat): int
    requires k < 32
  {
    ToInt32(NumberToInt32(a) * Pow2(k))
  }

  /** Bitwise OR of the low `k` bits of two naturals. */
  function OrBits(x: nat, y: nat, k: nat): nat
  {
    if k == 0 then 0
    else (if x % 2 == 1 || y % 2 == 1 then 1 else 0) + 2 * OrBits(x / 2, y / 2, k - 1)
  }

  /** `a | b` on two values already converted with ToInt32. */
  function BitOr(a: int, b: int): int
  {
    ToInt32(OrBits(ToUint32(a), ToUint32(b), 32))
  }

  lemma {:induction false} OrBitsZero(x: nat, k: nat)
    requires x < Pow2(k)
    ensures OrBits(x, 0, k) == x
  {
    if k > 0 {
      OrBitsZero(x / 2, k - 1);
    }
  }

  /** OR of a value shifted past `m` bits and a value below 2^m is their sum. */
  lemma {:induction false} OrBitsDisjoint(hi: nat, lo: nat, m: nat, k: nat)
    requires lo < Pow2(m)
    requires hi * Pow2(m) + lo < Pow2(k)
    ensures OrBits(hi * Pow2(m), lo, k) == hi * Pow2(m) + lo
  {
    if m == 0 {
      assert lo == 0;
      OrBitsZero(hi * Pow2(m), k);
    } else if k == 0 {
      assert hi * Pow2(m) + lo == 0;
    } else {
      var x := hi * Pow2(m);
      assert x == 2 * (hi * Pow2(m - 1));
      assert x % 2 == 0 && x / 2 == hi * Pow2(m - 1);
      assert lo / 2 < Pow2(m - 1);
      assert 2 * (hi * Pow2(m - 1) + lo / 2) <= x + lo;
      OrBitsDisjoint(hi, lo / 2, m - 1, k - 1);
      assert OrBits(x, lo, k) == lo % 2 + 2 * OrBits(x / 2, lo / 2, k - 1);
    }
  }

  /** `a | b` of a non-negative value shifted past `m` bits and a value below 2^m, both
      within the positive 32-bit range, is their sum. */
  lemma BitOrDisjoint(hi: nat, lo: nat, m: nat)
    requires lo < Pow2(m)
    requires hi * Pow2(m) + lo < 0x8000_0000
    ensures BitOr(hi * Pow2(m), lo) == hi * Pow2(m) + lo
  {
    var x := hi * Pow2(m);
    assert 0 <= x < 0x8000_0000 && lo < 0x8000_0000;
    Pow2Of32();
    OrBitsDisjoint(hi, lo, m, 32);
    assert OrBits(ToUint32(x), ToUint32(lo), 32) == x + lo;
  }

  /** `a << k` of a small non-negative value is multiplication by 2^k. */
  lemma ShiftLeftSmall(a: nat, k: nat)
    requires k < 32 && a < 0x8000_0000 && a * Pow2(k) < 0x8000_0000
    ensures ShiftLeft(Int(a), k) == a * Pow2(k)
  {
    assert NumberToInt32(Int(a)) == a;
  }

  // ---------------------------------------------------------------- digits

  /** The digit value `parseInt` gives a character in any radix; 36 for a non-digit. */
  function DigitValue(c: char): (d: nat)
    ensures d <= 36
  {
    if '0' <= c <= '9' then (c as int) - ('0' as int)
    else if 'a' <= c <= 'z' then (c as int) - ('a' as int) + 10
    else if 'A' <= c <= 'Z' then (c as int) - ('A' as int) + 10
    else 36
  }

  predicate IsDigit(c: char, radix: nat)
  {
    DigitValue(c) < radix
  }

  /** A character of the lower-case hexadecimal alphabet `toString(16)` emits. */
  predicate IsLowerHex(c: char)
  {
    '0' <= c <= '9' || 'a' <= c <= 'f'
  }

  predicate AllLowerHex(s: string)
  {
    forall i :: 0 <= i < |s| ==> IsLowerHex(s[i])
  }

  lemma LowerHexConcat(a: string, b: string)
    requires AllLowerHex(a) && AllLowerHex(b)
    ensures AllLowerHex(a + b)
  {
    forall i | 0 <= i < |a + b| ensures IsLowerHex((a + b)[i]) {
      if i < |a| { assert (a + b)[i] == a[i]; } else { assert (a + b)[i] == b[i - |a|]; }
    }
  }

  function HexChar(d: nat): (c: char)
    requires d < 16
    ensures IsLowerHex(c) && DigitValue(c) == d
  {
    "0123456789abcdef"[d]
  }

  lemma HexCharOfDigit(c: char)
    requires IsLowerHex(c)
    ensures DigitValue(c) < 16 && HexChar(DigitValue(c)) == c
  {
  }

  /** The value of a digit string read most-significant first. */
  function ValueOf(s: string, radix: nat): nat
  {
    if |s| == 0 then 0
    else ValueOf(s[..|s| - 1], radix) * radix + (if IsDigit(s[|s| - 1], radix) then DigitValue(s[|s| - 1]) else 0)
  }

  function Pow(b: nat, e: nat): (p: nat)
    ensures b >= 1 ==> p >= 1
  {
    if e == 0 then 1 else b * Pow(b, e - 1)
  }

  lemma Distribute(v: nat, p: nat, w: nat, r: nat, d: nat)
    ensures (v * p + w) * r + d == v * (r * p) + (w * r + d)
  {
    calc {
      (v * p + w) * r + d;
      v * p * r + w * r + d;
      { assert v * p * r == v * (r * p); }
      v * (r * p) + (w * r + d);
    }
  }

  lemma {:induction false} ValueOfConcat(a: string, b: string, radix: nat)
    ensures ValueOf(a + b, radix) == ValueOf(a, radix) * Pow(radix, |b|) + ValueOf(b, radix)
    decreases |b|
  {
    if |b| > 0 {
      var b' := b[..|b| - 1];
      var ab := a + b;
      assert ab[..|ab| - 1] == a + b';
      var last := b[|b| - 1];
      assert ab[|ab| - 1] == last;
      var d := if IsDigit(last, radix) then DigitValue(last) else 0;
      ValueOfConcat(a, b', radix);
      var v, p, w := ValueOf(a, radix), Pow(radix, |b'|), ValueOf(b', radix);
      assert ValueOf(ab, radix) == ValueOf(a + b', radix) * radix + d;
      assert ValueOf(a + b', radix) == v * p + w;
      assert ValueOf(b, radix) == w * radix + d;
      assert Pow(radix, |b|) == radix * p;
      Distribute(v, p, w, radix, d);
    } else {
      assert a + b == a;
    }
  }

  function Zeros(n: nat): (z: string)
    ensures |z| == n && forall i :: 0 <= i < n ==> z[i] == '0'
  {
    if n == 0 then "" else "0" + Zeros(n - 1)
  }

  lemma {:induction false} ValueOfZeros(n: nat, radix: nat)
    ensures ValueOf(Zeros(n), radix) == 0
  {
    if n > 0 {
      assert Zeros(n)[..n - 1] == Zeros(n - 1);
      ValueOfZeros(n - 1, radix);
    }
  }

  lemma DivModSixteen(q: nat, d: nat, v: nat)
    requires d < 16 && v == q * 16 + d
    ensures d == v % 16 && q == v / 16
  {
  }

  /** Two lower-case hexadecimal strings of one length with one value are the same string. */
  lemma {:induction false} LowerHexInjective(a: string, b: string)
    requires |a| == |b| && AllLowerHex(a) && AllLowerHex(b)
    requires ValueOf(a, 16) == ValueOf(b, 16)
    ensures a == b
    decreases |a|
  {
    if |a| > 0 {
      var n := |a| - 1;
      var a', b' := a[..n], b[..n];
      assert AllLowerHex(a') by {
        forall i | 0 <= i < |a'| ensures IsLowerHex(a'[i]) {
          assert a'[i] == a[i];
        }
      }
      assert AllLowerHex(b') by {
        forall i | 0 <= i < |b'| ensures IsLowerHex(b'[i]) {
          assert b'[i] == b[i];
        }
      }
      assert IsLowerHex(a[n]) && IsLowerHex(b[n]);
      HexCharOfDigit(a[n]);
      HexCharOfDigit(b[n]);
      var da, db := DigitValue(a[n]), DigitValue(b[n]);
      var v := ValueOf(a, 16);
      assert v == ValueOf(a', 16) * 16 + da;
      assert v == ValueOf(b', 16) * 16 + db;
      DivModSixteen(ValueOf(a', 16), da, v);
      DivModSixteen(ValueOf(b', 16), db, v);
      LowerHexInjective(a', b');
      assert a == a' + [a[n]] && b == b' + [b[n]];
    }
  }

  // ---------------------------------------------------------------- toString(16) and padStart

  /** `n.toString(16)` for a non-negative integer: lower-case digits, no leading zeros. */
  function ToHex(n: nat): (s: string)
    ensures |s| > 0 && AllLowerHex(s)
    decreases n
  {
    if n < 16 then [HexChar(n)] else ToHex(n / 16) + [HexChar(n % 16)]
  }

  lemma {:induction false} ToHexValue(n: nat)
    ensures ValueOf(ToHex(n), 16) == n
    decreases n
  {
    if n >= 16 {
      ToHexValue(n / 16);
      var s := ToHex(n);
      assert s[..|s| - 1] == ToHex(n / 16);
    } else {
      assert ToHex(n)[..0] == "";
    }
  }

  lemma {:induction false} ToHexLength(n: nat, k: nat)
    requires k >= 1 && n < Pow(16, k)
    ensures |ToHex(n)| <= k
    decreases k
  {
    if n >= 16 {
      assert k >= 2;
      ToHexLength(n / 16, k - 1);
    }
  }

  /** `x.toString(16)` for any integer: a leading minus sign for a negative value. */
  function NumberToString16(x: int): (s: string)
    ensures x >= 0 ==> s == ToHex(x)
  {
    if x < 0 then "-" + ToHex(-x) else ToHex(x)
  }

  /** `s.padStart(width, "0")`. */
  function PadStart(s: string, width: nat): (r: string)
    ensures |s| >= width ==> r == s
    ensures |s| < width ==> |r| == width
    ensures r == Zeros(|r| - |s|) + s
  {
    if |s| >= width then s else Zeros(width - |s|) + s
  }

  lemma PadStartValue(s: string, width: nat, radix: nat)
    ensures ValueOf(PadStart(s, width), radix) == ValueOf(s, radix)
  {
    var z := Zeros(|PadStart(s, width)| - |s|);
    ValueOfConcat(z, s, radix);
    ValueOfZeros(|z|, radix);
  }

  lemma PadStartLowerHex(s: string, width: nat)
    requires AllLowerHex(s)
    ensures AllLowerHex(PadStart(s, width))
  {
  }

  // ---------------------------------------------------------------- strings

  function Min(a: int, b: int): int { if a <= b then a else b }
  function Max(a: int, b: int): int { if a <= b then b else a }

  /** The quotient of division truncated toward zero. */
  function Quot(a: int, n: int): int
    requires n > 0
  {
    if a >= 0 then a / n else -((-a) / n)
  }

  /** `a % n` on numbers: the remainder of division truncated toward zero, so it takes the
      sign of `a` (Dafny's own `%` is Euclidean). */
  function Rem(a: int, n: int): (r: int)
    requires n > 0
    ensures a == Quot(a, n) * n + r
    ensures -n < r < n
    ensures a >= 0 ==> 0 <= r
    ensures a <= 0 ==> r <= 0
  {
    if a >= 0 then a % n else -((-a) % n)
  }

  /** `s.substring(start, end)`: both ends clamped to [0, |s|], then swapped if reversed. */
  function Substring(s: string, start: int, end: int): (r: string)
    ensures 0 <= start <= end <= |s| ==> r == s[start..end]
    ensures |r| <= |s|
  {
    var a := Min(Max(start, 0), |s|);
    var b := Min(Max(end, 0), |s|);
    s[Min(a, b)..Max(a, b)]
  }

  /** Index of the first occurrence of `c`, or -1. */
  function IndexOf(s: string, c: char): (i: int)
    ensures -1 <= i < |s|
    ensures i >= 0 ==> s[i] == c
  {
    if |s| == 0 then -1
    else if s[0] == c then 0
    else var k := IndexOf(s[1..], c); if k == -1 then -1 else k + 1
  }

  /** `IndexOf` finds the first occurrence, and -1 means there is none. */
  lemma {:induction false} IndexOfFirst(s: string, c: char)
    ensures forall j :: 0 <= j < IndexOf(s, c) ==> s[j] != c
    ensures IndexOf(s, c) == -1 ==> forall j :: 0 <= j < |s| ==> s[j] != c
  {
    if |s| > 0 && s[0] != c {
      IndexOfFirst(s[1..], c);
      assert forall j :: 1 <= j < |s| ==> s[j] == s[1..][j - 1];
    }
  }

  /** `s.replace(c, "")` for a one-character search string: drops the first occurrence only. */
  function RemoveFirst(s: string, c: char): (r: string)
    ensures |s| > 0 && s[0] == c ==> r == s[1..]
  {
    var i := IndexOf(s, c);
    if i == -1 then s else s[..i] + s[i + 1..]
  }

  /** Removing the first occurrence deletes exactly one character when `c` occurs. */
  lemma RemoveFirstDeletes(s: string, c: char)
    ensures IndexOf(s, c) == -1 ==> RemoveFirst(s, c) == s
    ensures IndexOf(s, c) >= 0 ==> |RemoveFirst(s, c)| == |s| - 1
  {
  }

  /** `s.includes(t)`. */
  predicate Includes(s: string, t: string)
  {
    exists i :: 0 <= i <= |s| - |t| && OccursAt(s, t, i)
  }

  predicate OccursAt(s: string, t: string, i: int)
  {
    0 <= i <= |s| - |t| && s[i..i + |t|] == t
  }

  // ---------------------------------------------------------------- parseInt

  /** The characters `parseInt` skips at the start: ECMAScript WhiteSpace and LineTerminator. */
  predicate IsJsSpace(c: char)
  {
    c == '\t' || c == '\n' || c == '\U{000B}' || c == '\U{000C}' || c == '\r' || c == ' '
    || c == '\U{00A0}' || c == '\U{1680}' || ('\U{2000}' <= c <= '\U{200A}')
    || c == '\U{2028}' || c == '\U{2029}' || c == '\U{202F}' || c == '\U{205F}'
    || c == '\U{3000}' || c == '\U{FEFF}'
  }

  function TrimStart(s: string): (r: string)
    ensures |r| <= |s|
  {
    if |s| > 0 && IsJsSpace(s[0]) then TrimStart(s[1..]) else s
  }

  /** Trimming removes a prefix of white space and stops at the first other character. */
  lemma {:induction false} TrimStartFacts(s: string)
    ensures TrimStart(s) == s[|s| - |TrimStart(s)|..]
    ensures |TrimStart(s)| == 0 || !IsJsSpace(TrimStart(s)[0])
    ensures |s| > 0 && !IsJsSpace(s[0]) ==> TrimStart(s) == s
  {
    if |s| > 0 && IsJsSpace(s[0]) {
      TrimStartFacts(s[1..]);
    }
  }

  /** Length of the longest prefix of radix-`radix` digits. */
  function DigitPrefixLength(s: string, radix: nat): (n: nat)
    ensures n <= |s|
  {
    if |s| == 0 || !IsDigit(s[0], radix) then 0 else 1 + DigitPrefixLength(s[1..], radix)
  }

  /** The prefix is made of digits and is followed by a non-digit or the end. */
  lemma {:induction false} DigitPrefixFacts(s: string, radix: nat)
    ensures forall i :: 0 <= i < DigitPrefixLength(s, radix) ==> IsDigit(s[i], radix)
    ensures DigitPrefixLength(s, radix) == |s| || !IsDigit(s[DigitPrefixLength(s, radix)], radix)
  {
    if |s| > 0 && IsDigit(s[0], radix) {
      DigitPrefixFacts(s[1..], radix);
      assert forall i :: 1 <= i < |s| ==> s[i] == s[1..][i - 1];
    }
  }

  /** A string of digits is its own longest digit prefix. */
  lemma {:induction false} DigitPrefixOfDigits(s: string, radix: nat)
    requires AllDigits(s, radix)
    ensures DigitPrefixLength(s, radix) == |s|
  {
    if |s| > 0 {
      assert AllDigits(s[1..], radix) by {
        forall i | 0 <= i < |s| - 1 ensures IsDigit(s[1..][i], radix) {
          assert s[1..][i] == s[i + 1];
        }
      }
      DigitPrefixOfDigits(s[1..], radix);
    }
  }

  /** The radix argument: absent, as in `parseInt(s)`, or 16, as in `parseInt(s, 16)`. */
  datatype Radix = Unspecified | Hexadecimal

  /** `parseInt(s)` / `parseInt(s, 16)`: skip leading white space, take one sign,
      drop a `0x`/`0X` prefix (which also switches the default radix to 16), then
      read the longest digit prefix; no digits gives NaN. */
  function ParseInt(s: string, radix: Radix): Number
  {
    var t := TrimStart(s);
    var negative := |t| > 0 && t[0] == '-';
    var u := if |t| > 0 && (t[0] == '-' || t[0] == '+') then t[1..] else t;
    var prefixed := |u| >= 2 && u[0] == '0' && (u[1] == 'x' || u[1] == 'X');
    var body := if prefixed then u[2..] else u;
    var r := if prefixed || radix == Hexadecimal then 16 else 10;
    var n := DigitPrefixLength(body, r);
    var magnitude: int := ValueOf(body[..n], r);
    if n == 0 then NaN else Int(if negative then -magnitude else magnitude)
  }

  predicate AllDigits(s: string, radix: nat)
  {
    forall i :: 0 <= i < |s| ==> IsDigit(s[i], radix)
  }

  /** A non-empty string of hexadecimal digits (either case) parses, in radix 16, to its own value. */
  lemma ParseHexDigits(s: string)
    requires |s| > 0 && AllDigits(s, 16)
    ensures ParseInt(s, Hexadecimal) == Int(ValueOf(s, 16))
  {
    assert IsDigit(s[0], 16);
    assert !IsJsSpace(s[0]);
    assert TrimStart(s) == s;
    assert !(s[0] == '-' || s[0] == '+');
    assert |s| >= 2 ==> IsDigit(s[1], 16) && s[1] != 'x' && s[1] != 'X';
    DigitPrefixOfDigits(s, 16);
    assert s[..|s|] == s;
  }

  lemma LowerHexAreDigits(s: string)
    requires AllLowerHex(s)
    ensures AllDigits(s, 16)
  {
    forall i | 0 <= i < |s| ensures IsDigit(s[i], 16) {
      HexCharOfDigit(s[i]);
    }
  }
}
