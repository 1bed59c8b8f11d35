/** The two ECMAScript string operations the serial adapter applies to each
    line: `String.prototype.trim` and the global `parseInt` with no radix
    (ECMA-262 sections 22.1.3.32 and 19.2.5). Code points stand for code
    units: every character involved lies in the Basic Multilingual Plane. */
module JsText {
  import opened Dial

  /** ECMAScript WhiteSpace or LineTerminator: the characters both `trim`
      and `parseInt` strip. */
  predicate IsWhiteSpace(c: char)
  {
    if c <= ' ' then c == ' ' || '\t' <= c <= '\r'
    else if c < '\U{00A0}' then false
    else
      c == '\U{00A0}' || c == '\U{1680}' || ('\U{2000}' <= c <= '\U{200A}')
      || c == '\U{2028}' || c == '\U{2029}' || c == '\U{202F}' || c == '\U{205F}'
      || c == '\U{3000}' || c == '\U{FEFF}'
  }

  predicate AllWhiteSpace(w: string)
  {
    forall i :: 0 <= i < |w| ==> IsWhiteSpace(w[i])
  }

  /** `s` with its leading white space removed. */
  function TrimStart(s: string): string
  {
    if s != [] && IsWhiteSpace(s[0]) then TrimStart(s[1..]) else s
  }

  /** `s` with its trailing white space removed. */
  function TrimEnd(s: string): string
  {
    if s != [] && IsWhiteSpace(s[|s| - 1]) then TrimEnd(s[..|s| - 1]) else s
  }

  /** What `TrimStart` removes is a run of white space, and what it keeps
      does not start with white space. */
  lemma {:induction false} TrimStartShape(s: string)
    ensures var r := TrimStart(s);
      && |r| <= |s| && r == s[|s| - |r|..]
      && AllWhiteSpace(s[..|s| - |r|])
      && (r == [] || !IsWhiteSpace(r[0]))
  {
    if s != [] && IsWhiteSpace(s[0]) {
      var t := s[1..];
      TrimStartShape(t);
      var r := TrimStart(t);
      assert TrimStart(s) == r;
      WhiteSpacePrefix(s, |t| - |r|);
    }
  }

  /** Dropping one white-space character and then `k` more is dropping a
      white-space prefix of length `k + 1`. */
  lemma WhiteSpacePrefix(s: string, k: nat)
    requires s != [] && IsWhiteSpace(s[0]) && k <= |s| - 1
    requires AllWhiteSpace(s[1..][..k])
    ensures s[1..][k..] == s[k + 1..]
    ensures AllWhiteSpace(s[..k + 1])
  {
    assert s[..k + 1] == [s[0]] + s[1..][..k];
  }

  /** What `TrimEnd` removes is a run of white space, and what it keeps
      does not end with white space. */
  lemma {:induction false} TrimEndShape(s: string)
    ensures var r := TrimEnd(s);
      && |r| <= |s| && r == s[..|r|]
      && AllWhiteSpace(s[|r|..])
      && (r == [] || !IsWhiteSpace(r[|r| - 1]))
  {
    if s != [] && IsWhiteSpace(s[|s| - 1]) {
      TrimEndShape(s[..|s| - 1]);
      var r := TrimEnd(s);
      assert s[|r|..] == s[..|s| - 1][|r|..] + [s[|s| - 1]];
    }
  }

  /** `s.trim()`: the result neither starts nor ends with white space. */
  function Trim(s: string): (r: string)
    ensures r == [] || (!IsWhiteSpace(r[0]) && !IsWhiteSpace(r[|r| - 1]))
  {
    TrimStartShape(s);
    TrimEndShape(TrimStart(s));
    TrimEnd(TrimStart(s))
  }

  lemma {:induction false} TrimStartPadded(w: string, s: string)
    requires AllWhiteSpace(w)
    requires s == [] || !IsWhiteSpace(s[0])
    ensures TrimStart(w + s) == s
  {
    if w != [] {
      assert (w + s)[1..] == w[1..] + s;
      TrimStartPadded(w[1..], s);
    } else {
      assert w + s == s;
    }
  }

  lemma {:induction false} TrimEndPadded(s: string, w: string)
    requires AllWhiteSpace(w)
    requires s == [] || !IsWhiteSpace(s[|s| - 1])
    ensures TrimEnd(s + w) == s
  {
    if w != [] {
      assert (s + w)[..|s + w| - 1] == s + w[..|w| - 1];
      TrimEndPadded(s, w[..|w| - 1]);
    } else {
      assert s + w == s;
    }
  }

  /** `trim` removes exactly the white space around a word and nothing else:
      surrounding text with white space on both sides gives back the text. */
  lemma TrimPadded(w1: string, s: string, w2: string)
    requires AllWhiteSpace(w1) && AllWhiteSpace(w2)
    requires s == [] || (!IsWhiteSpace(s[0]) && !IsWhiteSpace(s[|s| - 1]))
    ensures Trim(w1 + s + w2) == s
  {
    if s == [] {
      assert w1 + s + w2 == (w1 + w2) + s;
      assert forall i :: 0 <= i < |w1 + w2| ==> IsWhiteSpace((w1 + w2)[i]);
      TrimStartPadded(w1 + w2, s);
      assert TrimEnd(s) == s;
    } else {
      assert w1 + s + w2 == w1 + (s + w2);
      TrimStartPadded(w1, s + w2);
      TrimEndPadded(s, w2);
    }
  }

  /** The result of `trim` neither starts nor ends with white space, and it
      is the text of `s` between two runs of white space. */
  lemma TrimShape(s: string)
    ensures var r := Trim(s);
      (r == [] || (!IsWhiteSpace(r[0]) && !IsWhiteSpace(r[|r| - 1])))
      && exists i :: 0 <= i <= |s| - |r| && s[i..i + |r|] == r
           && AllWhiteSpace(s[..i]) && AllWhiteSpace(s[i + |r|..])
  {
    var t := TrimStart(s);
    var r := TrimEnd(t);
    TrimStartShape(s);
    TrimEndShape(t);
    var i := |s| - |t|;
    assert s[i..i + |r|] == t[..|r|];
    assert s[i + |r|..] == t[|r|..];
  }

  /** Numeric value of a digit character in radix up to 36; 36 for any other
      character. */
  function DigitValue(c: char): nat
  {
    if '0' <= c <= '9' then c as nat - '0' as nat
    else if 'a' <= c <= 'z' then c as nat - 'a' as nat + 10
    else if 'A' <= c <= 'Z' then c as nat - 'A' as nat + 10
    else 36
  }

  lemma DecimalDigitIsNoSign(c: char)
    requires DigitValue(c) < 10
    ensures '0' <= c <= '9'
  {
  }

  /** Length of the longest prefix of `s` made of digits of `radix`. */
  function DigitRun(s: string, radix: nat): (n: nat)
    ensures n <= |s|
    ensures n < |s| ==> DigitValue(s[n]) >= radix
  {
    if s != [] && DigitValue(s[0]) < radix then 1 + DigitRun(s[1..], radix) else 0
  }

  /** Every character of the run is a digit of `radix`. */
  lemma {:induction false} DigitRunDigits(s: string, radix: nat, i: nat)
    requires i < DigitRun(s, radix)
    ensures DigitValue(s[i]) < radix
  {
    if i > 0 {
      DigitRunDigits(s[1..], radix, i - 1);
    }
  }

  /** Value of a string of digits, most significant first. */
  function DigitsValue(d: string, radix: nat): nat
  {
    if d == [] then 0 else DigitsValue(d[..|d| - 1], radix) * radix + DigitValue(d[|d| - 1])
  }

  /** The unsigned part of `parseInt`, after white space and sign: a "0x" or
      "0X" prefix selects radix 16, otherwise the radix is 10, and the
      longest run of digits that follows is the value; `None` when there is
      no such digit. */
  function ParseMagnitude(u: string): (r: Option<int>)
    ensures r.Some? ==> r.value >= 0
  {
    var hex := |u| >= 2 && u[0] == '0' && (u[1] == 'x' || u[1] == 'X');
    var radix := if hex then 16 else 10;
    var v := if hex then u[2..] else u;
    var n := DigitRun(v, radix);
    if n == 0 then None else Some(DigitsValue(v[..n], radix))
  }

  /** `parseInt` after the leading white space: one optional sign, then
      the magnitude. */
  function ParseSigned(t: string): Option<int>
  {
    var negative := t != [] && t[0] == '-';
    var u := if t != [] && (t[0] == '-' || t[0] == '+') then t[1..] else t;
    var m := ParseMagnitude(u);
    if m.None? then None else Some(if negative then -m.value else m.value)
  }

  /** `parseInt(s)` with no radix; `None` stands for NaN. Leading white space
      is skipped and anything after the digits is ignored. */
  function ParseInt(s: string): (r: Option<int>)
    ensures TrimStart(s) == [] ==> r.None?
    ensures r.Some? && r.value < 0 ==> TrimStart(s)[0] == '-'
  {
    ParseSigned(TrimStart(s))
  }

  /** Decimal digits of a natural number, as `String(n)` writes it. */
  function NatDecimal(n: nat): (d: string)
    ensures d != [] && DigitRun(d, 10) == |d|
    ensures DigitsValue(d, 10) == n
    ensures d[0] == '0' ==> n == 0 && d == "0"
  {
    var last := ['0' + (n % 10) as char];
    assert DigitValue(last[0]) == n % 10;
    if n < 10 then
      assert DigitsValue(last, 10) == DigitsValue([], 10) * 10 + n % 10;
      last
    else
      var prefix := NatDecimal(n / 10);
      var d := prefix + last;
      assert d[..|d| - 1] == prefix;
      DigitRunExtend(prefix, last[0], 10);
      d
  }

  lemma {:induction false} DigitRunExtend(d: string, c: char, radix: nat)
    requires DigitRun(d, radix) == |d|
    requires DigitValue(c) < radix
    ensures DigitRun(d + [c], radix) == |d| + 1
  {
    if d != [] {
      assert (d + [c])[1..] == d[1..] + [c];
      DigitRunExtend(d[1..], c, radix);
    }
  }

  /** The decimal form of an integer, with a '-' sign when negative. */
  function Decimal(n: int): string
  {
    if n < 0 then "-" + NatDecimal(-n) else NatDecimal(n)
  }

  lemma {:induction false} DigitRunStops(d: string, rest: string, radix: nat)
    requires DigitRun(d, radix) == |d|
    requires rest == [] || DigitValue(rest[0]) >= radix
    ensures DigitRun(d + rest, radix) == |d|
  {
    if d != [] {
      assert (d + rest)[1..] == d[1..] + rest;
      DigitRunStops(d[1..], rest, radix);
    } else {
      assert d + rest == rest;
    }
  }

  /** `parseInt` reads back the canonical decimal form of every integer (no
      '+', no leading zeros), after any leading white space and before any
      trailing text that does not start with a digit; only after a lone "0"
      must that text not start with 'x' or 'X', which would select
      hexadecimal. */
  lemma ParseIntDecimal(w: string, n: int, rest: string)
    requires AllWhiteSpace(w)
    requires rest == [] || (DigitValue(rest[0]) >= 10 && (n == 0 ==> rest[0] != 'x' && rest[0] != 'X'))
    ensures ParseInt(w + Decimal(n) + rest) == Some(n)
  {
    var body := Decimal(n) + rest;
    assert w + Decimal(n) + rest == w + body;
    DigitRunDigits(NatDecimal(if n < 0 then -n else n), 10, 0);
    TrimStartPadded(w, body);
    SignedDecimal(n, rest);
  }

  lemma SignedDecimal(n: int, rest: string)
    requires rest == [] || (DigitValue(rest[0]) >= 10 && (n == 0 ==> rest[0] != 'x' && rest[0] != 'X'))
    ensures ParseSigned(Decimal(n) + rest) == Some(n)
  {
    if n < 0 {
      NegativeSigned(-n, rest);
    } else {
      UnsignedDecimal(n, rest);
    }
  }

  /** A '-' sign followed by a decimal magnitude is read as the
      negated magnitude. */
  lemma NegativeSigned(m: nat, rest: string)
    requires rest == [] || (DigitValue(rest[0]) >= 10 && (m == 0 ==> rest[0] != 'x' && rest[0] != 'X'))
    ensures ParseSigned("-" + NatDecimal(m) + rest) == Some(-(m as int))
  {
    var d := NatDecimal(m);
    var t := "-" + d + rest;
    NegativeDecimal(d, rest);
    assert t[0] == '-' && t[1..] == d + rest;
    MagnitudeDecimal(m, rest);
  }

  /** A nonnegative decimal form carries no sign, so the magnitude is read
      from its first character. */
  lemma UnsignedDecimal(n: nat, rest: string)
    requires rest == [] || (DigitValue(rest[0]) >= 10 && (n == 0 ==> rest[0] != 'x' && rest[0] != 'X'))
    ensures ParseSigned(NatDecimal(n) + rest) == Some(n)
  {
    var d := NatDecimal(n);
    var t := d + rest;
    MagnitudeDecimal(n, rest);
    DigitRunDigits(d, 10, 0);
    assert t[0] == d[0];
    DecimalDigitIsNoSign(t[0]);
  }

  lemma NegativeDecimal(d: string, rest: string)
    ensures ("-" + d + rest)[0] == '-'
    ensures ("-" + d + rest)[1..] == d + rest
  {
  }

  lemma MagnitudeDecimal(m: nat, rest: string)
    requires rest == [] || (DigitValue(rest[0]) >= 10 && (m == 0 ==> rest[0] != 'x' && rest[0] != 'X'))
    ensures ParseMagnitude(NatDecimal(m) + rest) == Some(m)
  {
    var d := NatDecimal(m);
    var u := d + rest;
    DigitRunStops(d, rest, 10);
    assert u[..|d|] == d;
    if |u| >= 2 && u[0] == '0' {
      assert d == "0";
      assert u[1] == rest[0];
    }
  }

  /** `parseInt` skips leading white space and ignores the text after the
      digits. */
  lemma ParseIntIgnoresTrailingText()
    ensures ParseInt(" -7abc") == Some(-7)
  {
    SkipOneSpace();
    SevenThenLetters();
    assert "-7abc"[1..] == "7abc";
  }

  lemma SkipOneSpace()
    ensures TrimStart(" -7abc") == "-7abc"
  {
    assert " -7abc"[1..] == "-7abc";
    assert TrimStart("-7abc") == "-7abc";
  }

  lemma SevenThenLetters()
    ensures ParseMagnitude("7abc") == Some(7)
  {
    assert DigitRun("7abc", 10) == 1 by {
      assert "7abc"[1..] == "abc";
      assert DigitRun("abc", 10) == 0;
    }
    assert "7abc"[..1] == "7" && "7"[..0] == "";
  }

  /** Without a radix, `parseInt` honours a hexadecimal prefix. */
  lemma ParseIntHexadecimal()
    ensures ParseInt("0x1A") == Some(26)
  {
    assert TrimStart("0x1A") == "0x1A";
    assert ParseSigned("0x1A") == ParseMagnitude("0x1A");
    HexDigits();
    assert "0x1A"[2..] == "1A";
    assert "1A"[..2] == "1A";
  }

  lemma HexDigits()
    ensures DigitRun("1A", 16) == 2
    ensures DigitsValue("1A", 16) == 26
  {
    assert "1A"[1..] == "A" && "A"[1..] == "";
    assert "1A"[..1] == "1" && "1"[..0] == "";
  }

  /** Text with no digit where the magnitude starts is NaN. */
  lemma ParseIntNaN()
    ensures ParseInt("0x") == None
    ensures ParseInt("abc") == None
  {
    assert TrimStart("0x") == "0x";
    assert "0x"[2..] == "";
    assert TrimStart("abc") == "abc";
  }
}
