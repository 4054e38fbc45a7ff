/**
 * The pieces of JavaScript's string and number semantics the input
 * handling and the colour helpers rely on: white space as `trim` and
 * `parseInt` understand it, `String.prototype.split` on one separator,
 * `parseInt` itself, and the 32-bit conversion of the bitwise operators.
 */
module JsText {

  datatype Option<T> = None | Some(value: T)

  /** ECMAScript's WhiteSpace and LineTerminator code points: tab, vertical
      tab, form feed, the byte-order mark, the space separators (category
      Zs) and the four line terminators. */
  predicate IsSpace(c: char)
  {
    var n := c as int;
    n == 0x09 || n == 0x0A || n == 0x0B || n == 0x0C || n == 0x0D || n == 0x20 ||
    n == 0xA0 || n == 0x1680 || (0x2000 <= n <= 0x200A) || n == 0x2028 || n == 0x2029 ||
    n == 0x202F || n == 0x205F || n == 0x3000 || n == 0xFEFF
  }

  /** `s` without its leading white space. */
  function TrimStart(s: string): (r: string)
    ensures |r| <= |s| && r == s[|s| - |r|..]
    ensures r == [] || !IsSpace(r[0])
    ensures forall k :: 0 <= k < |s| - |r| ==> IsSpace(s[k])
  {
    if s != [] && IsSpace(s[0]) then TrimStart(s[1..]) else s
  }

  /** `s` without its trailing white space. */
  function TrimEnd(s: string): (r: string)
    ensures |r| <= |s| && r == s[..|r|]
    ensures r == [] || !IsSpace(r[|r| - 1])
    ensures forall k :: |r| <= k < |s| ==> IsSpace(s[k])
  {
    if s != [] && IsSpace(s[|s| - 1]) then TrimEnd(s[..|s| - 1]) else s
  }

  /** `String.prototype.trim`. */
  function Trim(s: string): string
  {
    TrimEnd(TrimStart(s))
  }

  /** A text trims to nothing exactly when it is all white space. */
  lemma TrimBlank(s: string)
    ensures Trim(s) == [] <==> forall k :: 0 <= k < |s| ==> IsSpace(s[k])
  {
    var t := TrimStart(s);
    assert t == s[|s| - |t|..];
  }

  /** `s.split(sep)` for a one-character separator: the pieces between the
      separators, empty ones included; a string without the separator is one
      piece. */
  function Split(s: string, sep: char): (parts: seq<string>)
    ensures |parts| >= 1
    ensures forall p :: p in parts ==> sep !in p
    decreases |s|
  {
    if s == [] then [""]
    else
      var rest := Split(s[1..], sep);
      if s[0] == sep then [""] + rest
      else [[s[0]] + rest[0]] + rest[1..]
  }

  /** The inverse of `Split`: the pieces with the separator between them. */
  function Join(parts: seq<string>, sep: char): string
    requires |parts| >= 1
  {
    if |parts| == 1 then parts[0] else parts[0] + [sep] + Join(parts[1..], sep)
  }

  /** Splitting and joining again gives back the string. */
  lemma {:induction false} JoinSplit(s: string, sep: char)
    ensures Join(Split(s, sep), sep) == s
    decreases |s|
  {
    if s != [] {
      JoinSplit(s[1..], sep);
      var rest := Split(s[1..], sep);
      if s[0] == sep {
        assert s == [sep] + s[1..];
      } else if |rest| == 1 {
        assert s == [s[0]] + rest[0];
      } else {
        assert Join(rest, sep) == rest[0] + [sep] + Join(rest[1..], sep);
        assert s == [s[0]] + rest[0] + [sep] + Join(rest[1..], sep);
      }
    }
  }

  /** Joining pieces free of the separator and splitting again gives back
      the pieces. */
  lemma {:induction false} SplitJoin(parts: seq<string>, sep: char)
    requires |parts| >= 1
    requires forall p :: p in parts ==> sep !in p
    ensures Split(Join(parts, sep), sep) == parts
    decreases |parts|, |parts[0]|
  {
    if |parts| == 1 {
      SplitPiece(parts[0], sep);
    } else {
      var tail := Join(parts[1..], sep);
      SplitJoin(parts[1..], sep);
      SplitPrefix(parts[0], tail, sep);
    }
  }

  /** A piece free of the separator splits into itself. */
  lemma {:induction false} SplitPiece(p: string, sep: char)
    requires sep !in p
    ensures Split(p, sep) == [p]
    decreases |p|
  {
    if p != [] {
      SplitPiece(p[1..], sep);
      assert p == [p[0]] + p[1..];
    }
  }

  /** Splitting a piece free of the separator, the separator and a rest. */
  lemma {:induction false} SplitPrefix(p: string, rest: string, sep: char)
    requires sep !in p
    ensures Split(p + [sep] + rest, sep) == [p] + Split(rest, sep)
    decreases |p|
  {
    var s := p + [sep] + rest;
    if p == [] {
      assert s == [sep] + rest;
      assert s[1..] == rest;
    } else {
      assert s[1..] == p[1..] + [sep] + rest;
      SplitPrefix(p[1..], rest, sep);
      assert p == [p[0]] + p[1..];
    }
  }

  /** The value of an ASCII digit or letter as a digit in a radix up to 36,
      if it is one. */
  function DigitValue(c: char): (d: int)
    ensures -1 <= d < 36
  {
    if '0' <= c <= '9' then c as int - '0' as int
    else if 'a' <= c <= 'z' then c as int - 'a' as int + 10
    else if 'A' <= c <= 'Z' then c as int - 'A' as int + 10
    else -1
  }

  predicate IsDigit(c: char, radix: int)
  {
    0 <= DigitValue(c) < radix
  }

  /** The length of the longest prefix of `s` made of digits of `radix`. */
  function DigitRun(s: string, radix: int): (n: nat)
    ensures n <= |s|
    ensures forall k :: 0 <= k < n ==> IsDigit(s[k], radix)
    ensures n == |s| || !IsDigit(s[n], radix)
  {
    if s != [] && IsDigit(s[0], radix) then 1 + DigitRun(s[1..], radix) else 0
  }

  /** The number the digits `s` denote in `radix`, most significant first. */
  function DigitsValue(s: string, radix: int): (v: int)
    requires radix >= 2 && forall k :: 0 <= k < |s| ==> IsDigit(s[k], radix)
    ensures v >= 0
  {
    if s == [] then 0
    else
      var p := DigitsValue(s[..|s| - 1], radix);
      assert IsDigit(s[|s| - 1], radix);
      MulNonNegative(p, radix);
      p * radix + DigitValue(s[|s| - 1])
  }

  lemma MulNonNegative(a: int, b: int)
    requires 0 <= a && 0 <= b
    ensures 0 <= a * b
  {
  }

  /** `parseInt(s, radix)` for a radix of 10 (the source passes none, which
      defaults to 10) or 16: leading white space skipped, one optional sign,
      an optional `0x`/`0X` prefix that switches to radix 16, then the
      longest run of digits; no digits is `NaN`, here `None`. The result is
      exact: the source's doubles lose precision beyond 2^53, which the
      callers clamp away or never reach. */
  function ParseInt(s: string, radix: int): (r: Option<int>)
    requires radix == 10 || radix == 16
  {
    var t := TrimStart(s);
    if t != [] && t[0] == '-' then
      match ParseMagnitude(t[1..], radix)
      case None => None
      case Some(v) => Some(-v)
    else if t != [] && t[0] == '+' then ParseMagnitude(t[1..], radix)
    else ParseMagnitude(t, radix)
  }

  /** The unsigned part of `parseInt`: the optional hexadecimal prefix and
      the run of digits. */
  function ParseMagnitude(u: string, radix: int): Option<int>
    requires radix == 10 || radix == 16
  {
    if |u| >= 2 && u[0] == '0' && (u[1] == 'x' || u[1] == 'X') then ParseRun(u[2..], 16)
    else ParseRun(u, radix)
  }

  /** The longest run of digits at the start of `w`, if there is one. */
  function ParseRun(w: string, radix: int): (r: Option<int>)
    requires radix >= 2
    ensures r.Some? ==> r.value >= 0
  {
    var n := DigitRun(w, radix);
    if n == 0 then None else Some(DigitsValue(w[..n], radix))
  }

  /** The decimal digits of `n`, without leading zeros. */
  function DecimalString(n: nat): (s: string)
    ensures 1 <= |s| && forall k :: 0 <= k < |s| ==> IsDigit(s[k], 10)
    ensures s[0] != '0' || n == 0
  {
    if n < 10 then ['0' + (n as char)]
    else DecimalString(n / 10) + ['0' + ((n % 10) as char)]
  }

  lemma {:induction false} DecimalValue(n: nat)
    ensures DigitsValue(DecimalString(n), 10) == n
  {
    if n >= 10 {
      DecimalValue(n / 10);
      var s := DecimalString(n);
      assert s[..|s| - 1] == DecimalString(n / 10);
    }
  }

  /** A string of digits of `radix` that does not start with `0x` parses
      to the number it denotes. */
  lemma ParseDigits(s: string, radix: int)
    requires radix == 10 || radix == 16
    requires s != [] && forall k :: 0 <= k < |s| ==> IsDigit(s[k], radix)
    requires !(|s| >= 2 && s[0] == '0' && (s[1] == 'x' || s[1] == 'X'))
    ensures ParseInt(s, radix) == Some(DigitsValue(s, radix))
  {
    assert IsDigit(s[0], radix);
    assert !IsSpace(s[0]) && s[0] != '-' && s[0] != '+';
    assert TrimStart(s) == s;
    DigitRunAll(s, radix);
    assert s[..|s|] == s;
  }

  /** `parseInt` reads back what the decimal notation of a natural number
      writes. */
  lemma ParseDecimal(n: nat)
    ensures ParseInt(DecimalString(n), 10) == Some(n)
  {
    ParseDigits(DecimalString(n), 10);
    DecimalValue(n);
  }

  /** A string made of digits is one run of digits. */
  lemma {:induction false} DigitRunAll(s: string, radix: int)
    requires forall k :: 0 <= k < |s| ==> IsDigit(s[k], radix)
    ensures DigitRun(s, radix) == |s|
  {
    if s != [] {
      DigitRunAll(s[1..], radix);
    }
  }

  /** ECMAScript's ToInt32: the integer modulo 2^32, read as two's
      complement. */
  function ToInt32(n: int): (r: int)
    ensures -0x8000_0000 <= r < 0x8000_0000
    ensures (r - n) % 0x1_0000_0000 == 0
  {
    var m := n % 0x1_0000_0000;
    if m >= 0x8000_0000 then m - 0x1_0000_0000 else m
  }
}
