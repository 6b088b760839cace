/**
 * The few pieces of JavaScript's built-in behaviour that the quiz front end
 * relies on, written out so that the other modules can state exactly what the
 * code computes: the whitespace class shared by `\s` and `String.prototype.trim`,
 * `String.prototype.slice` with its relative indices, `parseInt(s, 16)` with
 * its NaN result, `String.fromCharCode`, and the decimal rendering of integers
 * used by template literals.
 *
 * Numbers are modelled as exact integers: the loss of precision of IEEE doubles
 * above 2^53 is not modelled.
 */
module JsRuntime {

  datatype Option<T> = None | Some(value: T)

  /** A call that either returns a value or throws an Error with a message. */
  datatype Outcome<T> = Returns(value: T) | Throws(message: string)

  /** The values `parseInt` can produce: NaN, or a (here exact) integer. */
  datatype Num = NaN | Int(value: int)

  /** `a + k` on a Num: NaN absorbs. */
  function AddNum(a: Num, k: int): (r: Num)
    ensures r.NaN? <==> a.NaN?
  {
    match a
    case NaN => NaN
    case Int(v) => Int(v + k)
  }

  /** `a * k` on a Num: NaN absorbs. */
  function MulNum(a: Num, k: int): (r: Num)
    ensures r.NaN? <==> a.NaN?
  {
    match a
    case NaN => NaN
    case Int(v) => Int(v * k)
  }

  /** `a + b` on Nums. */
  function AddNums(a: Num, b: Num): (r: Num)
    ensures r.NaN? <==> a.NaN? || b.NaN?
  {
    if a.NaN? || b.NaN? then NaN else Int(a.value + b.value)
  }

  /** ToIntegerOrInfinity as used for string indices: NaN becomes 0. */
  function IndexOf(n: Num): int
  {
    match n
    case NaN => 0
    case Int(v) => v
  }

  // ---------------------------------------------------------------------------
  // Array.prototype.map

  /** `xs.map(f)` for an `f` defined on every element. */
  function Map<A, B>(f: A --> B, xs: seq<A>): (ys: seq<B>)
    requires forall i :: 0 <= i < |xs| ==> f.requires(xs[i])
    ensures |ys| == |xs|
    ensures forall i :: 0 <= i < |xs| ==> ys[i] == f(xs[i])
  {
    seq(|xs|, i requires 0 <= i < |xs| => f(xs[i]))
  }

  /** Mapping a list with one more element at the front. */
  lemma MapCons<A, B>(f: A --> B, x: A, xs: seq<A>)
    requires f.requires(x) && forall i :: 0 <= i < |xs| ==> f.requires(xs[i])
    ensures forall i :: 0 <= i < |[x] + xs| ==> f.requires(([x] + xs)[i])
    ensures Map(f, [x] + xs) == [f(x)] + Map(f, xs)
  {
    assert forall i :: 0 <= i < |xs| ==> ([x] + xs)[i + 1] == xs[i];
    assert Map(f, [x] + xs) == [f(x)] + Map(f, xs);
  }

  /** Mapping a list with one more element at the end. */
  lemma MapSnoc<A, B>(f: A --> B, xs: seq<A>, x: A)
    requires f.requires(x) && forall i :: 0 <= i < |xs| ==> f.requires(xs[i])
    ensures forall i :: 0 <= i < |xs + [x]| ==> f.requires((xs + [x])[i])
    ensures Map(f, xs + [x]) == Map(f, xs) + [f(x)]
  {
    assert forall i :: 0 <= i < |xs| ==> (xs + [x])[i] == xs[i];
    assert Map(f, xs + [x]) == Map(f, xs) + [f(x)];
  }

  // ---------------------------------------------------------------------------
  // Whitespace, trimming

  /**
   * The ECMAScript WhiteSpace and LineTerminator code points: the class matched
   * by the regular expression `\s` and removed by `trim`.
   */
  predicate IsSpace(c: char)
  {
    var k := c as int;
    (0x09 <= k <= 0x0D) || k == 0x20 || k == 0xA0 || k == 0x1680
    || (0x2000 <= k <= 0x200A) || k == 0x2028 || k == 0x2029
    || k == 0x202F || k == 0x205F || k == 0x3000 || k == 0xFEFF
  }

  /** Drops the leading whitespace. */
  function TrimStart(s: string): (r: string)
    ensures |r| <= |s|
    ensures r == s[|s| - |r|..]
    ensures r == [] || !IsSpace(r[0])
    ensures forall i :: 0 <= i < |s| - |r| ==> IsSpace(s[i])
  {
    if s != [] && IsSpace(s[0]) then TrimStart(s[1..]) else s
  }

  /** Drops the trailing whitespace. */
  function TrimEnd(s: string): (r: string)
    ensures |r| <= |s|
    ensures r == s[..|r|]
    ensures r == [] || !IsSpace(r[|r| - 1])
    ensures forall i :: |r| <= i < |s| ==> IsSpace(s[i])
  {
    if s != [] && IsSpace(s[|s| - 1]) then TrimEnd(s[..|s| - 1]) else s
  }

  /** `String.prototype.trim`. */
  function Trim(s: string): (r: string)
    ensures r == [] || (!IsSpace(r[0]) && !IsSpace(r[|r| - 1]))
  {
    TrimEnd(TrimStart(s))
  }

  // ---------------------------------------------------------------------------
  // slice and substr

  /** How `slice` turns a (possibly negative) index into a position in [0, len]. */
  function RelativeIndex(len: nat, k: int): (p: nat)
    ensures p <= len
    ensures 0 <= k <= len ==> p == k
  {
    if k < 0 then (if len + k < 0 then 0 else len + k)
    else if k > len then len
    else k
  }

  /** `s.slice(start, end)`: negative indices count from the end, and an empty
      string results when the start position is not before the end position. */
  function Slice(s: string, start: int, end: int): (r: string)
    ensures 0 <= start <= end <= |s| ==> r == s[start..end]
    ensures |r| <= |s|
  {
    var from := RelativeIndex(|s|, start);
    var to := RelativeIndex(|s|, end);
    if from >= to then "" else s[from..to]
  }

  /** `s.slice(start)`. */
  function SliceFrom(s: string, start: int): (r: string)
    ensures 0 <= start <= |s| ==> r == s[start..]
    ensures start > |s| ==> r == ""
  {
    Slice(s, start, |s|)
  }

  // ---------------------------------------------------------------------------
  // Hexadecimal digits and parseInt(_, 16)

  predicate IsHexDigit(c: char)
  {
    ('0' <= c <= '9') || ('a' <= c <= 'f') || ('A' <= c <= 'F')
  }

  predicate AllHex(s: string)
  {
    forall i :: 0 <= i < |s| ==> IsHexDigit(s[i])
  }

  function DigitValue(c: char): (v: nat)
    requires IsHexDigit(c)
    ensures v < 16
  {
    if '0' <= c <= '9' then c as int - '0' as int
    else if 'a' <= c <= 'f' then c as int - 'a' as int + 10
    else c as int - 'A' as int + 10
  }

  function Pow16(n: nat): (p: nat)
    ensures p >= 1
  {
    if n == 0 then 1 else 16 * Pow16(n - 1)
  }

  /** The value of a string of hex digits, most significant digit first. */
  function HexValue(s: string): (v: nat)
    requires AllHex(s)
    ensures v < Pow16(|s|)
  {
    if s == [] then 0 else HexValue(s[..|s| - 1]) * 16 + DigitValue(s[|s| - 1])
  }

  /** The longest prefix made of hex digits. */
  function HexPrefix(s: string): (r: string)
    ensures AllHex(r) && |r| <= |s| && r == s[..|r|]
    ensures |r| < |s| ==> !IsHexDigit(s[|r|])
  {
    if s != [] && IsHexDigit(s[0]) then [s[0]] + HexPrefix(s[1..]) else ""
  }

  /** The text after an optional leading sign. */
  function AfterSign(t: string): (u: string)
    ensures |u| <= |t|
  {
    if t != [] && (t[0] == '-' || t[0] == '+') then t[1..] else t
  }

  /** The text after an optional `0x` or `0X`, which radix 16 allows. */
  function AfterHexMarker(u: string): (v: string)
    ensures |v| <= |u|
  {
    if |u| >= 2 && u[0] == '0' && (u[1] == 'x' || u[1] == 'X') then u[2..] else u
  }

  /**
   * `parseInt(s, 16)`: skip leading whitespace, read an optional sign, skip an
   * optional `0x`/`0X`, then read the longest run of hex digits; NaN when that
   * run is empty.
   */
  function ParseHex(s: string): (r: Num)
    ensures s == [] ==> r.NaN?
    ensures s != [] && IsHexDigit(s[0]) && (|s| == 1 || IsHexDigit(s[1])) ==> r.Int?
    ensures r.Int? && r.value < 0 ==> TrimStart(s) != [] && TrimStart(s)[0] == '-'
    ensures r.Int? ==> -(Pow16(|s|) as int) < r.value < Pow16(|s|)
  {
    var t := TrimStart(s);
    var z := HexPrefix(AfterHexMarker(AfterSign(t)));
    Pow16Grows(|z|, |s|);
    if z == [] then NaN
    else if t[0] == '-' then Int(-(HexValue(z) as int))
    else Int(HexValue(z))
  }

  /** Powers of 16 grow with the exponent. */
  lemma {:induction false} Pow16Grows(a: nat, b: nat)
    requires a <= b
    ensures Pow16(a) <= Pow16(b)
    decreases b
  {
    if a < b {
      Pow16Grows(a, b - 1);
    }
  }

  lemma {:induction false} HexPrefixOfAllHex(s: string)
    requires AllHex(s)
    ensures HexPrefix(s) == s
  {
    if s != [] {
      HexPrefixOfAllHex(s[1..]);
    }
  }

  /** On a non-empty run of hex digits, parseInt reads exactly its value. */
  lemma ParseHexOfDigits(s: string)
    requires s != [] && AllHex(s)
    ensures ParseHex(s) == Int(HexValue(s))
  {
    assert IsHexDigit(s[0]) && !IsSpace(s[0]);
    assert TrimStart(s) == s;
    assert AfterSign(s) == s;
    assert |s| >= 2 ==> IsHexDigit(s[1]);
    assert AfterHexMarker(s) == s;
    HexPrefixOfAllHex(s);
  }

  /**
   * What `parseInt` yields on at most two characters lies in [-15, 255]: two
   * digits at most, or one digit after a sign.
   */
  lemma ParseHexShort(s: string)
    requires |s| <= 2
    ensures ParseHex(s).Int? ==> -15 <= ParseHex(s).value <= 255
  {
    var t := TrimStart(s);
    var u := AfterSign(t);
    var z := HexPrefix(AfterHexMarker(u));
    var signed := t != [] && (t[0] == '-' || t[0] == '+');
    assert signed ==> |u| <= 1;
    assert |z| <= |u| <= 2;
    Pow16UpToTwo(|z|);
    if z != [] {
      assert signed ==> HexValue(z) < 16;
      assert HexValue(z) < 256;
    }
  }

  lemma Pow16UpToTwo(k: nat)
    requires k <= 2
    ensures Pow16(k) <= (if k <= 1 then 16 else 256)
  {
    if k > 0 {
      assert Pow16(k) == 16 * Pow16(k - 1);
    }
  }

  // ---------------------------------------------------------------------------
  // String.fromCharCode

  /** `String.fromCharCode(n)` takes `n` modulo 2^16 (ToUint16); NaN gives 0. */
  function CodeUnit(n: Num): (k: nat)
    ensures k < 0x1_0000
    ensures n.NaN? ==> k == 0
    ensures n.Int? ==> (n.value - k) % 0x1_0000 == 0
    ensures n.Int? && 0 <= n.value < 0x1_0000 ==> k == n.value
  {
    match n
    case NaN => 0
    case Int(v) => v % 0x1_0000
  }

  // ---------------------------------------------------------------------------
  // Rendering integers in base 16 and base 10

  function HexChar(d: nat): (c: char)
    requires d < 16
    ensures IsHexDigit(c) && DigitValue(c) == d
  {
    if d < 10 then ('0' as int + d) as char else ('a' as int + d - 10) as char
  }

  /** `n` written with exactly `width` lower-case hex digits (n modulo 16^width). */
  function ToHex(n: nat, width: nat): (s: string)
    ensures |s| == width && AllHex(s)
  {
    if width == 0 then "" else ToHex(n / 16, width - 1) + [HexChar(n % 16)]
  }

  /** Writing `n` in `width` hex digits and reading it back gives `n` back when
      it fits. */
  lemma {:induction false} HexValueOfToHex(n: nat, width: nat)
    requires n < Pow16(width)
    ensures HexValue(ToHex(n, width)) == n
  {
    if width > 0 {
      var s := ToHex(n, width);
      assert s[..width - 1] == ToHex(n / 16, width - 1);
      HexValueOfToHex(n / 16, width - 1);
    }
  }

  function DigitChar(d: nat): char
    requires d < 10
  {
    ('0' as int + d) as char
  }

  /** The decimal digits of a natural number, as `String(n)` renders them. */
  function NatString(n: nat): (s: string)
    ensures s != []
    ensures forall i :: 0 <= i < |s| ==> '0' <= s[i] <= '9'
    ensures |s| == 1 <==> n < 10
  {
    if n < 10 then [DigitChar(n)] else NatString(n / 10) + [DigitChar(n % 10)]
  }

  /** Distinct numbers render to distinct digit strings. */
  lemma {:induction false} NatStringInjective(a: nat, b: nat)
    requires NatString(a) == NatString(b)
    ensures a == b
  {
    var s := NatString(a);
    if a >= 10 {
      var pa := NatString(a / 10);
      var pb := NatString(b / 10);
      assert s == pa + [DigitChar(a % 10)] == pb + [DigitChar(b % 10)];
      assert pa == s[..|s| - 1] == pb;
      NatStringInjective(a / 10, b / 10);
      assert DigitChar(a % 10) == s[|s| - 1] == DigitChar(b % 10);
    } else {
      assert DigitChar(a) == s[0] == DigitChar(b);
    }
  }

  /** `String(n)` for an integer `n`, as used inside template literals. */
  function IntString(n: int): (s: string)
    ensures s != []
    ensures n >= 0 ==> s == NatString(n)
    ensures n < 0 ==> s == "-" + NatString(-n)
    ensures s[0] == '-' <==> n < 0
  {
    if n < 0 then "-" + NatString(-n) else NatString(n)
  }

  /** Distinct integers render to distinct strings. */
  lemma IntStringInjective(a: int, b: int)
    ensures IntString(a) == IntString(b) <==> a == b
  {
    if IntString(a) == IntString(b) {
      var s := IntString(a);
      if a < 0 {
        assert NatString(-a) == s[1..] == NatString(-b);
        NatStringInjective(-a, -b);
      } else {
        NatStringInjective(a, b);
      }
    }
  }
}
