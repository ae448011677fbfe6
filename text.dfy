/** The JavaScript string primitives the core relies on: `String.prototype.trim`,
    the decimal text of an integer, `split` on one character, and `parseInt`
    without a radix argument. */
module Text {

  /** The white-space and line-terminator characters `trim` and `parseInt` skip. */
  predicate IsSpace(c: char)
  {
    || c == ' ' || c == '\t' || c == '\n' || c == '\r'
    || c == '\U{000B}' || c == '\U{000C}' || c == '\U{00A0}' || c == '\U{1680}'
    || ('\U{2000}' <= c <= '\U{200A}')
    || c == '\U{2028}' || c == '\U{2029}' || c == '\U{202F}' || c == '\U{205F}'
    || c == '\U{3000}' || c == '\U{FEFF}'
  }

  predicate AllSpace(s: string)
  {
    forall i :: 0 <= i < |s| ==> IsSpace(s[i])
  }

  /** Drops leading white space. */
  function TrimStart(s: string): (r: string)
    ensures |r| <= |s| && r == s[|s| - |r|..]
    ensures AllSpace(s[..|s| - |r|])
    ensures r == [] || !IsSpace(r[0])
  {
    if |s| > 0 && IsSpace(s[0]) then
      var r := TrimStart(s[1..]);
      assert AllSpace(s[..|s| - |r|]) by {
        forall i | 0 <= i < |s| - |r| ensures IsSpace(s[i]) {
          if i > 0 {
            assert s[i] == s[1..][..|s| - 1 - |r|][i - 1];
          }
        }
      }
      r
    else
      s
  }

  /** Drops trailing white space. */
  function TrimEnd(s: string): (r: string)
    ensures |r| <= |s| && r == s[..|r|]
    ensures AllSpace(s[|r|..])
    ensures r == [] || !IsSpace(r[|r| - 1])
  {
    if |s| > 0 && IsSpace(s[|s| - 1]) then
      var r := TrimEnd(s[..|s| - 1]);
      assert AllSpace(s[|r|..]) by {
        forall i | |r| <= i < |s| ensures IsSpace(s[i]) {
          if i < |s| - 1 {
            assert s[i] == s[..|s| - 1][|r|..][i - |r|];
          }
        }
      }
      r
    else
      s
  }

  /** `s.trim()`: `s` without its leading and its trailing white space. */
  function Trim(s: string): (r: string)
    ensures r == [] || (!IsSpace(r[0]) && !IsSpace(r[|r| - 1]))
    ensures r == [] <==> AllSpace(s)
  {
    var t := TrimStart(s);
    var r := TrimEnd(t);
    TrimSlice(s, t, r);
    r
  }

  /** What `trim` keeps is a slice of its input, starting at `a`, and what it
      drops on either side is white space. */
  lemma TrimIsSlice(s: string) returns (a: nat)
    ensures a + |Trim(s)| <= |s| && Trim(s) == s[a..a + |Trim(s)|]
    ensures AllSpace(s[..a]) && AllSpace(s[a + |Trim(s)|..])
  {
    var t := TrimStart(s);
    var r := TrimEnd(t);
    assert Trim(s) == r;
    TrimSlice(s, t, r);
    a := |s| - |t|;
  }

  lemma TrimSlice(s: string, t: string, r: string)
    requires |t| <= |s| && t == s[|s| - |t|..] && AllSpace(s[..|s| - |t|])
    requires |r| <= |t| && r == t[..|r|] && AllSpace(t[|r|..])
    requires r == [] || !IsSpace(r[0])
    ensures var a := |s| - |t|;
            a + |r| <= |s| && r == s[a..a + |r|] && AllSpace(s[..a]) && AllSpace(s[a + |r|..])
    ensures r == [] <==> AllSpace(s)
  {
    var a := |s| - |t|;
    assert t == s[a..];
    assert r == s[a..a + |r|];
    assert s[a + |r|..] == t[|r|..];
    if r == [] {
      assert t[|r|..] == t;
      forall i | 0 <= i < |s| ensures IsSpace(s[i]) {
        if i < a { assert s[..a][i] == s[i]; } else { assert t[i - a] == s[i]; }
      }
    } else {
      assert s[a] == r[0];
    }
  }

  // ---------------------------------------------------------------------------
  // Decimal digits

  predicate IsDigit(c: char)
  {
    '0' <= c <= '9'
  }

  predicate AllDigits(s: string)
  {
    forall i :: 0 <= i < |s| ==> IsDigit(s[i])
  }

  function DigitChar(d: int): (c: char)
    requires 0 <= d < 10
    ensures IsDigit(c)
  {
    ('0' as int + d) as char
  }

  /** The value of a digit, decimal or hexadecimal in either case, or -1. */
  function DigitValue(c: char): (v: int)
    ensures -1 <= v < 36
    ensures IsDigit(c) ==> v == c as int - '0' as int
    ensures 0 <= v < 10 ==> IsDigit(c)
  {
    if '0' <= c <= '9' then c as int - '0' as int
    else if 'a' <= c <= 'z' then c as int - 'a' as int + 10
    else if 'A' <= c <= 'Z' then c as int - 'A' as int + 10
    else -1
  }

  predicate IsRadixDigit(c: char, radix: int)
  {
    0 <= DigitValue(c) < radix
  }

  /** The value of a string of digits in the given radix, most significant first. */
  function DigitsValue(s: string, radix: nat): nat
    requires forall i :: 0 <= i < |s| ==> IsRadixDigit(s[i], radix)
  {
    if s == [] then 0
    else
      var high := DigitsValue(s[..|s| - 1], radix);
      MulNonNegative(high, radix);
      assert IsRadixDigit(s[|s| - 1], radix);
      high * radix + DigitValue(s[|s| - 1])
  }

  lemma MulNonNegative(a: nat, b: nat)
    ensures a * b >= 0
  {
  }

  /** The shortest decimal text of a natural number, as JavaScript prints it. */
  function NatToDecimal(n: nat): (r: string)
    ensures |r| >= 1 && AllDigits(r)
    ensures (r[0] == '0') == (n == 0)
  {
    if n < 10 then [DigitChar(n)]
    else NatToDecimal(n / 10) + [DigitChar(n % 10)]
  }

  /** Reading back the printed digits gives the number: printing loses nothing. */
  lemma {:induction false} DecimalRoundTrip(n: nat)
    ensures forall i :: 0 <= i < |NatToDecimal(n)| ==> IsRadixDigit(NatToDecimal(n)[i], 10)
    ensures DigitsValue(NatToDecimal(n), 10) == n
  {
    var r := NatToDecimal(n);
    if n >= 10 {
      DecimalRoundTrip(n / 10);
      assert r[..|r| - 1] == NatToDecimal(n / 10);
    }
  }

  /** The decimal text of an integer: `${i}` for an integral number. */
  function IntToDecimal(i: int): (r: string)
    ensures |r| >= 1
    ensures (r[0] == '-') == (i < 0)
    ensures IsDigit(r[|r| - 1])
  {
    if i < 0 then "-" + NatToDecimal(-i) else NatToDecimal(i)
  }

  /** Different integers print differently. */
  lemma IntToDecimalInjective(a: int, b: int)
    requires IntToDecimal(a) == IntToDecimal(b)
    ensures a == b
  {
    if a < 0 {
      assert b < 0;
      assert NatToDecimal(-a) == IntToDecimal(a)[1..];
      assert NatToDecimal(-b) == IntToDecimal(b)[1..];
      NatToDecimalInjective(-a, -b);
    } else {
      NatToDecimalInjective(a, b);
    }
  }

  lemma NatToDecimalInjective(m: nat, n: nat)
    requires NatToDecimal(m) == NatToDecimal(n)
    ensures m == n
  {
    DecimalRoundTrip(m);
    DecimalRoundTrip(n);
  }


  // ---------------------------------------------------------------------------
  // split and join on one separator character

  /** `s.split(sep)`: the pieces of `s` between occurrences of `sep`. */
  function Split(s: string, sep: char): (parts: seq<string>)
    ensures |parts| >= 1
    ensures forall i :: 0 <= i < |parts| ==> sep !in parts[i]
  {
    if s == [] then [""]
    else
      var rest := Split(s[1..], sep);
      if s[0] == sep then [""] + rest
      else [[s[0]] + rest[0]] + rest[1..]
  }

  /** `parts.join(sep)`. */
  function Join(parts: seq<string>, sep: char): string
    requires |parts| >= 1
  {
    if |parts| == 1 then parts[0] else parts[0] + [sep] + Join(parts[1..], sep)
  }

  /** The first piece of a split is the text up to the first separator. */
  lemma {:induction false} SplitHead(p: string, rest: string, sep: char)
    requires sep !in p
    ensures Split(p + [sep] + rest, sep)[0] == p
    decreases |p|
  {
    var s := p + [sep] + rest;
    if p == [] {
      assert s[0] == sep;
    } else {
      assert s[0] == p[0] && s[1..] == p[1..] + [sep] + rest;
      SplitHead(p[1..], rest, sep);
      assert p == [p[0]] + p[1..];
    }
  }

  /** Joining the pieces with the separator restores the string. */
  lemma {:induction false} JoinSplit(s: string, sep: char)
    ensures Join(Split(s, sep), sep) == s
  {
    if s != [] {
      var rest := Split(s[1..], sep);
      JoinSplit(s[1..], sep);
      if s[0] == sep {
        assert Split(s, sep)[1..] == rest;
      } else {
        var parts := Split(s, sep);
        if |rest| == 1 {
          assert parts == [[s[0]] + rest[0]];
        } else {
          assert parts[1..] == rest[1..];
          assert Join(rest, sep) == rest[0] + [sep] + Join(rest[1..], sep);
        }
      }
    }
  }

  lemma {:induction false} SplitPrefix(c: char, parts: seq<string>, sep: char)
    requires |parts| >= 1 && c != sep
    requires Split(Join(parts, sep), sep) == parts
    ensures Split([c] + Join(parts, sep), sep) == [[c] + parts[0]] + parts[1..]
  {
    assert ([c] + Join(parts, sep))[1..] == Join(parts, sep);
  }

  /** Splitting pieces that do not contain the separator, once joined, gives them back. */
  lemma {:induction false} SplitJoin(parts: seq<string>, sep: char)
    requires |parts| >= 1
    requires forall i :: 0 <= i < |parts| ==> sep !in parts[i]
    ensures Split(Join(parts, sep), sep) == parts
    decreases |Join(parts, sep)|
  {
    var p := parts[0];
    if p == [] {
      if |parts| == 1 {
      } else {
        SplitJoin(parts[1..], sep);
        assert Join(parts, sep) == [sep] + Join(parts[1..], sep);
        assert ([sep] + Join(parts[1..], sep))[1..] == Join(parts[1..], sep);
      }
    } else {
      var tail := [p[1..]] + parts[1..];
      assert tail[1..] == parts[1..];
      SplitJoin(tail, sep);
      assert Join(tail, sep) == p[1..] + (if |parts| == 1 then [] else [sep] + Join(parts[1..], sep));
      assert Join(parts, sep) == [p[0]] + Join(tail, sep);
      SplitPrefix(p[0], tail, sep);
      assert [p[0]] + p[1..] == p;
    }
  }

  // ---------------------------------------------------------------------------
  // parseInt

  /** A JavaScript number as `parseInt` and `+ 1` produce it: NaN or an integer. */
  datatype Num = NaN | Int(value: int)

  /** The longest prefix of `s` made of digits of the radix. */
  function LeadingDigits(s: string, radix: int): (r: string)
    ensures |r| <= |s| && r == s[..|r|]
    ensures forall i :: 0 <= i < |r| ==> IsRadixDigit(r[i], radix)
    ensures |r| < |s| ==> !IsRadixDigit(s[|r|], radix)
  {
    if s != [] && IsRadixDigit(s[0], radix) then
      var r := LeadingDigits(s[1..], radix);
      [s[0]] + r
    else
      []
  }

  /** `parseInt(s)` with no radix: skip white space, take an optional sign, read
      hexadecimal after a `0x`/`0X` prefix and decimal otherwise, stop at the first
      character that is not a digit, and give NaN when no digit was read. */
  function ParseInt(s: string): (n: Num)
  {
    var t := TrimStart(s);
    var negative := t != [] && t[0] == '-';
    var u := if t != [] && (t[0] == '-' || t[0] == '+') then t[1..] else t;
    var hex := |u| >= 2 && u[0] == '0' && (u[1] == 'x' || u[1] == 'X');
    var digits := if hex then LeadingDigits(u[2..], 16) else LeadingDigits(u, 10);
    if digits == [] then NaN
    else
      var v: int := if hex then DigitsValue(digits, 16) else DigitsValue(digits, 10);
      Int(if negative then -v else v)
  }

  /** A plain decimal string parses to its value. */
  lemma ParseDecimal(s: string)
    requires s != [] && AllDigits(s)
    ensures forall i :: 0 <= i < |s| ==> IsRadixDigit(s[i], 10)
    ensures ParseInt(s) == Int(DigitsValue(s, 10))
  {
    DigitNotSpace(s[0]);
    assert TrimStart(s) == s;
    AllDigitsRead(s);
  }

  /** `parseInt` stops at the first character that is not a digit: "7-beta" reads as 7.
      (After a lone "0", an `x` would start a hexadecimal number instead.) */
  lemma ParseIntStopsAtNonDigit(p: string, q: string)
    requires p != [] && AllDigits(p)
    requires q == [] || (!IsDigit(q[0]) && q[0] != 'x' && q[0] != 'X')
    ensures forall i :: 0 <= i < |p| ==> IsRadixDigit(p[i], 10)
    ensures ParseInt(p + q) == Int(DigitsValue(p, 10))
  {
    DecimalStart(p, q);
    LeadingDigitsStop(p, q);
  }

  /** A text that opens with the digits `p` and then a non-digit other than `x`
      needs no trimming, has no sign and no hexadecimal prefix. */
  lemma DecimalStart(p: string, q: string)
    requires p != [] && AllDigits(p)
    requires q == [] || (!IsDigit(q[0]) && q[0] != 'x' && q[0] != 'X')
    ensures var s := p + q;
            && TrimStart(s) == s && IsDigit(s[0])
            && !(|s| >= 2 && s[0] == '0' && (s[1] == 'x' || s[1] == 'X'))
  {
    var s := p + q;
    assert s[0] == p[0];
    DigitNotSpace(p[0]);
    if |s| >= 2 {
      if |p| >= 2 {
        assert s[1] == p[1];
      } else {
        assert s[1] == q[0];
      }
    }
  }

  lemma {:induction false} LeadingDigitsStop(p: string, q: string)
    requires AllDigits(p) && (q == [] || !IsDigit(q[0]))
    ensures LeadingDigits(p + q, 10) == p
    decreases |p|
  {
    if p == [] {
      assert p + q == q;
    } else {
      assert (p + q)[1..] == p[1..] + q;
      LeadingDigitsStop(p[1..], q);
      assert IsRadixDigit(p[0], 10) && (p + q)[0] == p[0];
      assert p == [p[0]] + p[1..];
    }
  }

  lemma DigitNotSpace(c: char)
    requires IsDigit(c)
    ensures !IsSpace(c)
  {
  }

  lemma AllDigitsRead(s: string)
    requires AllDigits(s)
    ensures LeadingDigits(s, 10) == s
  {
    var d := LeadingDigits(s, 10);
    assert |d| < |s| ==> IsDigit(s[|d|]);
  }

  /** A plain decimal number read by `parseInt`, plus one, printed back. */
  lemma DecimalSuccessor(s: string)
    requires s != [] && AllDigits(s)
    ensures ParseInt(s).Int? && ParseInt(s).value >= 0
    ensures NumToString(PlusOne(ParseInt(s))) == NatToDecimal(ParseInt(s).value + 1)
  {
    ParseDecimal(s);
  }

  /** `parseInt` reads back what `String(n)` prints. */
  lemma ParsePrinted(n: nat)
    ensures ParseInt(NatToDecimal(n)) == Int(n)
  {
    DecimalRoundTrip(n);
    ParseDecimal(NatToDecimal(n));
  }

  /** `String(n)` for the numbers above. */
  function NumToString(n: Num): (r: string)
    ensures n.NaN? <==> r == "NaN"
  {
    match n
    case NaN => "NaN"
    case Int(v) => IntToDecimal(v)
  }

  /** `n + 1`: NaN stays NaN. */
  function PlusOne(n: Num): Num
  {
    match n
    case NaN => NaN
    case Int(v) => Int(v + 1)
  }
}
