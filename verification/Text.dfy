/** Decimal and hexadecimal renderings of numbers and the length-prefixed strings built from them.
    A Rust `String` is modelled by the sequence of its UTF-8 bytes, each written as one `char`, so
    that `|s|` is the length Rust's `len()` reports. */
module Text {
  import opened Wrappers

  predicate IsBlank(text: string, isSpace: char -> bool): (r: bool)
    ensures r <==> !exists i :: 0 <= i < |text| && !isSpace(text[i])
  {
    forall c :: c in text ==> isSpace(c)
  }

  // Names of projects and collections and identities of collections.
  const MAX_IDENTIFIER_LEN := 128

  predicate IsIdentifierChar(c: char): (r: bool)
    ensures r <==> 97 <= c as int <= 122 || 48 <= c as int <= 57 || c as int in {45, 95}
  {
    'a' <= c <= 'z' || '0' <= c <= '9' || c == '-' || c == '_'
  }

  predicate ValidIdentifier(s: string): (r: bool)
    ensures r ==> 1 <= |s| <= 128
    ensures !r && 1 <= |s| <= 128 ==> exists i :: 0 <= i < |s| && !IsIdentifierChar(s[i])
  {
    0 < |s| <= MAX_IDENTIFIER_LEN && forall c :: c in s ==> IsIdentifierChar(c)
  }

  // ---------------------------------------------------------------- hexadecimal

  function HexDigit(d: nat): (c: char)
    requires d < 16
    ensures IsHexDigit(c) && HexDigitValue(c) == d && c == "0123456789abcdef"[d]
  {
    if d < 10 then ('0' as int + d) as char else ('a' as int + (d - 10)) as char
  }

  predicate IsHexDigit(c: char) {
    '0' <= c <= '9' || 'a' <= c <= 'f'
  }

  function HexDigitValue(c: char): (d: nat)
    requires IsHexDigit(c)
    ensures d < 16
  {
    if c <= '9' then c as int - '0' as int else c as int - 'a' as int + 10
  }

  predicate AllHex(s: string) {
    forall i :: 0 <= i < |s| ==> IsHexDigit(s[i])
  }

  function Pow16(width: nat): (p: nat)
    ensures p > 0
  {
    if width == 0 then 1 else 16 * Pow16(width - 1)
  }

  // The `{:0<width>x}` rendering of a number that fits in `width` hexadecimal digits.
  function Hex(n: nat, width: nat): (s: string)
    ensures |s| == width && AllHex(s)
  {
    if width == 0 then "" else Hex(n / 16, width - 1) + [HexDigit(n % 16)]
  }

  function HexValue(s: string): nat
    requires AllHex(s)
  {
    if s == "" then 0 else 16 * HexValue(s[..|s| - 1]) + HexDigitValue(s[|s| - 1])
  }

  lemma {:induction false} HexRoundTrip(n: nat, width: nat)
    requires n < Pow16(width)
    ensures HexValue(Hex(n, width)) == n
  {
    if width > 0 {
      HexRoundTrip(n / 16, width - 1);
      var s := Hex(n, width);
      assert s[..|s| - 1] == Hex(n / 16, width - 1);
    }
  }

  lemma DivideTwice(n: nat, a: nat, b: nat)
    requires a > 0 && b > 0
    ensures a * b > 0 && n / a / b == n / (a * b)
  {
    var q := n / a / b;
    var r := n - q * (a * b);
    assert n == a * (n / a) + n % a && n / a == b * q + n / a % b;
    assert a * (n / a) == a * (b * q) + a * (n / a % b);
    assert a * (b * q) == (a * b) * q;
    Remainders(a, b, n % a, n / a % b);
    DivisionOf(n, a * b, q, r);
  }

  lemma Remainders(a: nat, b: nat, x: nat, y: nat)
    requires x < a && y < b
    ensures a * y + x < a * b
  {
    assert a * (y + 1) <= a * b;
  }

  lemma AtLeastOne(k: int, b: int)
    requires b > 0 && k > 0
    ensures k * b >= b
  {
  }

  lemma DivisionOf(n: int, b: int, q: int, r: int)
    requires b > 0 && n == q * b + r && 0 <= r < b
    ensures n / b == q
  {
    var k, s := n / b, n % b;
    assert n == k * b + s;
    assert (k - q) * b == r - s && (q - k) * b == s - r;
    if k > q { AtLeastOne(k - q, b); }
    if k < q { AtLeastOne(q - k, b); }
  }

  // The digits stand in the usual order, the last one for the ones.
  lemma {:induction false} HexDigitAt(n: nat, width: nat, i: nat)
    requires i < width
    ensures Hex(n, width)[width - 1 - i] == "0123456789abcdef"[n / Pow16(i) % 16]
  {
    if i > 0 {
      HexDigitAt(n / 16, width - 1, i - 1);
      DivideTwice(n, 16, Pow16(i - 1));
    }
  }

  // ---------------------------------------------------------------- decimal

  predicate IsDigit(c: char) {
    '0' <= c <= '9'
  }

  predicate AllDigits(s: string) {
    forall i :: 0 <= i < |s| ==> IsDigit(s[i])
  }

  // What `to_string()` renders for an unsigned number.
  function Decimal(n: nat): (s: string)
    ensures |s| > 0 && AllDigits(s)
  {
    var last := [DecimalDigit(n % 10)];
    if n < 10 then last else Decimal(n / 10) + last
  }

  function DecimalDigit(d: nat): (c: char)
    requires d < 10
    ensures c == "0123456789"[d] && IsDigit(c)
  {
    ('0' as int + d) as char
  }

  function DecimalValue(s: string): nat
    requires AllDigits(s)
  {
    if s == "" then 0
    else 10 * DecimalValue(s[..|s| - 1]) + (s[|s| - 1] as int - '0' as int)
  }

  // The last digit stands for the ones, and the first is not zero unless the number is.
  lemma {:induction false} DecimalDigits(n: nat)
    ensures var s := Decimal(n);
            && s[|s| - 1] == "0123456789"[n % 10] && (n < 10 ==> |s| == 1) && (n > 0 ==> s[0] != '0')
            && (n >= 10 ==> s[..|s| - 1] == Decimal(n / 10))
  {
    if n >= 10 {
      DecimalDigits(n / 10);
      assert Decimal(n)[..|Decimal(n)| - 1] == Decimal(n / 10);
    } else {
      assert Decimal(n) == [DecimalDigit(n)];
    }
  }

  lemma {:induction false} DecimalRoundTrip(n: nat)
    ensures DecimalValue(Decimal(n)) == n
  {
    var s := Decimal(n);
    if n < 10 {
      assert s[..|s| - 1] == "";
    } else {
      DecimalRoundTrip(n / 10);
      assert s[..|s| - 1] == Decimal(n / 10);
    }
  }

  // ---------------------------------------------------------------- order

  // A proper prefix comes before, and so does a smaller character at the first difference.
  predicate SmallerText(a: string, b: string) {
    (|a| < |b| && a == b[..|a|])
    || exists i :: 0 <= i < |a| && i < |b| && a[..i] == b[..i] && a[i] < b[i]
  }

  lemma SmallerTextStep(a: string, b: string)
    requires a != "" && b != ""
    ensures SmallerText(a, b) <==> a[0] < b[0] || (a[0] == b[0] && SmallerText(a[1..], b[1..]))
  {
    if a[0] < b[0] {
      assert a[..0] == b[..0];
    }
    if a[0] == b[0] {
      assert a == [a[0]] + a[1..] && b == [b[0]] + b[1..];
      if SmallerText(a[1..], b[1..]) {
        SmallerTextBehind(a[0], a[1..], b[1..], a, b);
      }
      if SmallerText(a, b) {
        SmallerTextBelow(a[0], a[1..], b[1..], a, b);
      }
    }
    if SmallerText(a, b) {
      SmallerTextStarts(a, b);
    }
  }

  lemma SmallerTextBehind(c: char, s: string, t: string, a: string, b: string)
    requires a == [c] + s && b == [c] + t && SmallerText(s, t)
    ensures SmallerText(a, b)
  {
    if |s| < |t| && s == t[..|s|] {
      assert a == b[..|a|];
    } else {
      var i :| 0 <= i < |s| && i < |t| && s[..i] == t[..i] && s[i] < t[i];
      assert a[..i + 1] == [c] + s[..i] && b[..i + 1] == [c] + t[..i];
      assert a[i + 1] < b[i + 1];
    }
  }

  lemma SmallerTextBelow(c: char, s: string, t: string, a: string, b: string)
    requires a == [c] + s && b == [c] + t && SmallerText(a, b)
    ensures SmallerText(s, t)
  {
    assert s == a[1..] && t == b[1..];
    if |a| < |b| && a == b[..|a|] {
      assert t[..|s|] == b[1..|a|] == b[..|a|][1..];
    } else {
      var i :| 0 <= i < |a| && i < |b| && a[..i] == b[..i] && a[i] < b[i];
      assert s[..i - 1] == a[..i][1..] && t[..i - 1] == b[..i][1..];
      assert s[i - 1] < t[i - 1];
    }
  }

  lemma SmallerTextStarts(a: string, b: string)
    requires a != "" && b != "" && SmallerText(a, b)
    ensures a[0] <= b[0]
  {
    if |a| < |b| && a == b[..|a|] {
      assert a[0] == b[..|a|][0];
    } else {
      var i :| 0 <= i < |a| && i < |b| && a[..i] == b[..i] && a[i] < b[i];
      if i > 0 {
        assert a[..i][0] == b[..i][0];
      }
    }
  }

  // ---------------------------------------------------------------- delimiters

  // The position of the first `c` in `s`, or `|s|`.
  function IndexOf(s: string, c: char): (i: nat)
    ensures i <= |s| && c !in s[..i]
    ensures i < |s| ==> s[i] == c
  {
    if s == "" || s[0] == c then 0
    else
      var j := IndexOf(s[1..], c);
      assert s[..j + 1] == [s[0]] + s[1..][..j];
      j + 1
  }

  // A delimiter that does not occur in the first part determines where that part ends.
  lemma IndexOfDelimiter(a: string, c: char, rest: string)
    requires c !in a
    ensures IndexOf(a + [c] + rest, c) == |a|
  {
    var s := a + [c] + rest;
    assert s[|a|] == c && forall k :: 0 <= k < |a| ==> s[k] in a;
  }

  // Texts with the same delimiter after parts without it agree in both parts.
  lemma SplitAtDelimiter(a: string, x: string, b: string, y: string, c: char)
    requires c !in a && c !in b && a + [c] + x == b + [c] + y
    ensures a == b && x == y
  {
    var s := a + [c] + x;
    IndexOfDelimiter(a, c, x);
    IndexOfDelimiter(b, c, y);
    PartsOf(a, c, x, s);
    PartsOf(b, c, y, s);
  }

  lemma PartsOf(a: string, c: char, x: string, s: string)
    requires s == a + [c] + x
    ensures s[..|a|] == a && s[|a| + 1..] == x
  {
  }

  lemma DigitsHaveNo(s: string, c: char)
    requires AllDigits(s) && !IsDigit(c)
    ensures c !in s
  {
  }

  // Dropping the leading token of a text.
  lemma DropToken(token: string, a: string, b: string, rest: string)
    requires token != ""
    ensures token + a + b + rest != "" && (token + a + b + rest)[0] == token[0]
    ensures (token + a + b + rest)[|token|..] == a + b + rest
  {
  }

  // Regrouping a delimited list after its first entry.
  lemma AfterFirst(first: string, delimiter: string, others: string, close: string, rest: string)
    ensures first + delimiter + others + close + rest == first + (delimiter + (others + close + rest))
  {
  }

  lemma Regroup3(a: string, b: string, c: string)
    ensures a + b + c == a + (b + c)
  {
  }

  lemma Regroup4(a: string, b: string, c: string, d: string)
    ensures a + b + c + d == a + (b + c + d)
  {
  }

  lemma Regroup5(a: string, b: string, c: string, d: string, e: string)
    ensures a + b + c + d + e == a + (b + c + d + e)
  {
  }

  lemma RegroupTail(a: string, b: string, c: string, d: string)
    ensures a + b + c + d == a + (b + (c + d))
  {
  }

  lemma DropDelimiter(delimiter: char, more: string)
    ensures [delimiter] + more != "" && ([delimiter] + more)[0] == delimiter && ([delimiter] + more)[1..] == more
  {
  }

  // ---------------------------------------------------------------- length-prefixed strings

  datatype Parsed<+T> = Reject | Accept(value: T, rest: string)

  // `push_string`: the byte length, a colon, the bytes.
  function StringText(v: string): (s: string)
    ensures s != "" && IsDigit(s[0])
  {
    Decimal(|v|) + ":" + v
  }

  function ParseString(s: string): (r: Parsed<string>)
    ensures r.Accept? ==> |r.rest| < |s|
  {
    var i := IndexOf(s, ':');
    if i == |s| || i == 0 || !AllDigits(s[..i]) then Reject
    else
      var n := DecimalValue(s[..i]);
      var tail := s[i + 1..];
      if n <= |tail| then Accept(tail[..n], tail[n..]) else Reject
  }

  lemma ParseStringText(v: string, rest: string)
    ensures ParseString(StringText(v) + rest) == Accept(v, rest)
  {
    var d := Decimal(|v|);
    var s := StringText(v) + rest;
    assert s == d + [':'] + (v + rest);
    DigitsHaveNo(d, ':');
    IndexOfDelimiter(d, ':', v + rest);
    assert s[..|d|] == d && s[|d| + 1..] == v + rest;
    DecimalRoundTrip(|v|);
    assert (v + rest)[..|v|] == v && (v + rest)[|v|..] == rest;
  }
}
