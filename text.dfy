/** The Python string built-ins the scraping code relies on: `str.split`
    with a one-character separator, `str()` of an integer and `int()` of a
    string. */
module Text {
  import opened Results

  /** Number of occurrences of `c` in `s`. */
  function Occurrences(s: string, c: char): nat
  {
    if s == [] then 0 else (if s[0] == c then 1 else 0) + Occurrences(s[1..], c)
  }

  /** `s.split(sep)`: the pieces between the separators, kept even when
      empty; the empty string splits into one empty piece. */
  function Split(s: string, sep: char): (pieces: seq<string>)
    ensures |pieces| >= 1
  {
    if s == [] then [[]]
    else if s[0] == sep then [[]] + Split(s[1..], sep)
    else
      var rest := Split(s[1..], sep);
      [[s[0]] + rest[0]] + rest[1..]
  }

  /** `sep.join(pieces)`, the inverse of `Split`. */
  function Join(pieces: seq<string>, sep: char): string
    requires |pieces| >= 1
  {
    if |pieces| == 1 then pieces[0] else pieces[0] + [sep] + Join(pieces[1..], sep)
  }

  /** Splitting yields one more piece than there are separators. */
  lemma {:induction false} SplitCount(s: string, sep: char)
    ensures |Split(s, sep)| == Occurrences(s, sep) + 1
  {
    if s != [] {
      SplitCount(s[1..], sep);
    }
  }

  /** No piece contains the separator. */
  lemma {:induction false} SplitPiecesFree(s: string, sep: char)
    ensures forall i :: 0 <= i < |Split(s, sep)| ==> sep !in Split(s, sep)[i]
  {
    if s != [] {
      SplitPiecesFree(s[1..], sep);
    }
  }

  /** Joining the pieces back with the separator gives the original string. */
  lemma {:induction false} SplitJoin(s: string, sep: char)
    ensures Join(Split(s, sep), sep) == s
  {
    if s != [] {
      SplitJoin(s[1..], sep);
      var rest := Split(s[1..], sep);
      if s[0] != sep && |rest| > 1 {
        assert Split(s, sep)[1..] == rest[1..];
      }
    }
  }

  /** A string without the separator is a single piece. */
  lemma {:induction false} SplitWithoutSeparator(s: string, sep: char)
    requires sep !in s
    ensures Split(s, sep) == [s]
  {
    if s != [] {
      SplitWithoutSeparator(s[1..], sep);
      assert [s[0]] + s[1..] == s;
    }
  }

  /** Everything before the first separator is the first piece; the rest
      splits on its own. */
  lemma {:induction false} SplitAtFirst(a: string, b: string, sep: char)
    requires sep !in a
    ensures Split(a + [sep] + b, sep) == [a] + Split(b, sep)
  {
    if a == [] {
      assert a + [sep] + b == [sep] + b;
    } else {
      assert (a + [sep] + b)[1..] == a[1..] + [sep] + b;
      SplitAtFirst(a[1..], b, sep);
      assert [a[0]] + a[1..] == a;
    }
  }

  predicate IsDigit(c: char) { '0' <= c <= '9' }

  function DigitValue(c: char): (d: nat)
    requires IsDigit(c)
    ensures d < 10
  {
    (c as int - '0' as int) as nat
  }

  function DigitChar(d: nat): (c: char)
    requires d < 10
    ensures IsDigit(c) && DigitValue(c) == d
  {
    ('0' as int + d) as char
  }

  predicate AllDigits(s: string) { forall i :: 0 <= i < |s| ==> IsDigit(s[i]) }

  /** The value of a string of decimal digits, most significant first. */
  function DigitsValue(s: string): nat
    requires AllDigits(s)
  {
    if s == [] then 0 else DigitsValue(s[..|s| - 1]) * 10 + DigitValue(s[|s| - 1])
  }

  /** `str(n)` for a non-negative integer: decimal digits, no leading zero. */
  function NatToString(n: nat): (s: string)
    ensures |s| >= 1 && AllDigits(s)
    ensures (|s| == 1) <==> n < 10
  {
    if n < 10 then [DigitChar(n)] else NatToString(n / 10) + [DigitChar(n % 10)]
  }

  /** `str(n)` for any integer. */
  function IntToString(n: int): (s: string)
    ensures |s| >= 1 && (s[0] == '-' <==> n < 0)
    ensures n < 0 ==> AllDigits(s[1..]) && |s| >= 2
    ensures n >= 0 ==> AllDigits(s)
  {
    if n < 0 then "-" + NatToString(-n) else NatToString(n)
  }

  /** Dropping the last character of `str(n)` leaves `str(n // 10)`, for
      `n >= 10`: the decimal form of removing the units digit. */
  lemma DropLastDigit(n: int)
    requires n >= 10
    ensures |IntToString(n)| >= 2
    ensures IntToString(n)[..|IntToString(n)| - 1] == NatToString(n / 10)
  {
    var s := NatToString(n);
    assert s == NatToString(n / 10) + [DigitChar(n % 10)];
  }

  /** Reading back the digits of `str(n)` gives `n`. */
  lemma {:induction false} DigitsRoundTrip(n: nat)
    ensures DigitsValue(NatToString(n)) == n
  {
    var s := NatToString(n);
    if n >= 10 {
      DigitsRoundTrip(n / 10);
      assert s[..|s| - 1] == NatToString(n / 10);
    } else {
      assert s[..|s| - 1] == [];
    }
  }

  /** The characters Python 2's `int()` skips around a unicode value and
      after its sign, as far as Latin-1 goes: the C whitespace characters,
      the separators 0x1C to 0x1F, NEL and the no-break space. */
  predicate IsSpace(c: char)
  {
    || c == ' ' || c == '\t' || c == '\n' || c == '\r' || c == '\U{000B}' || c == '\U{000C}'
    || ('\U{001C}' <= c <= '\U{001F}') || c == '\U{0085}' || c == '\U{00A0}'
  }

  predicate AllSpace(s: string) { forall i :: 0 <= i < |s| ==> IsSpace(s[i]) }

  function TrimLeft(s: string): string
  {
    if s != [] && IsSpace(s[0]) then TrimLeft(s[1..]) else s
  }

  function TrimRight(s: string): string
  {
    if s != [] && IsSpace(s[|s| - 1]) then TrimRight(s[..|s| - 1]) else s
  }

  /** The text between the leading and the trailing whitespace. */
  function Strip(s: string): string { TrimRight(TrimLeft(s)) }

  /** Python 2's `int(s)` in base 10: whitespace around the literal, an
      optional sign, whitespace between the sign and the digits, then one
      or more decimal digits; anything else, an underscore included,
      raises ValueError. */
  function ParseInt(s: string): (r: Result<int, PyError>)
    ensures r.Err? ==> r.error == ValueError
  {
    ParseSigned(Strip(s))
  }

  /** `int()` of an already stripped string: a sign applies to what
      follows it once the whitespace after it is skipped. */
  function ParseSigned(t: string): (r: Result<int, PyError>)
    ensures r.Err? ==> r.error == ValueError
  {
    if |t| >= 1 && t[0] == '-' then Negate(ParseDigits(TrimLeft(t[1..])))
    else if |t| >= 1 && t[0] == '+' then ParseDigits(TrimLeft(t[1..]))
    else ParseDigits(t)
  }

  /** One or more decimal digits, and nothing else. */
  function ParseDigits(d: string): (r: Result<int, PyError>)
  {
    if |d| >= 1 && AllDigits(d) then Ok(DigitsValue(d)) else Err(ValueError)
  }

  function Negate(r: Result<int, PyError>): Result<int, PyError>
  {
    if r.Ok? then Ok(-r.value) else r
  }

  /** Leading whitespace in front of text that does not start with any is
      exactly what `TrimLeft` removes. */
  lemma {:induction false} TrimLeftSpaces(a: string, x: string)
    requires AllSpace(a) && (x == [] || !IsSpace(x[0]))
    ensures TrimLeft(a + x) == x
  {
    if a == [] {
      assert a + x == x;
    } else {
      assert (a + x)[1..] == a[1..] + x;
      TrimLeftSpaces(a[1..], x);
    }
  }

  /** Trailing whitespace behind text that does not end in any is exactly
      what `TrimRight` removes. */
  lemma {:induction false} TrimRightSpaces(x: string, c: string)
    requires AllSpace(c) && (x == [] || !IsSpace(x[|x| - 1]))
    ensures TrimRight(x + c) == x
  {
    if c == [] {
      assert x + c == x;
    } else {
      assert (x + c)[..|x + c| - 1] == x + c[..|c| - 1];
      TrimRightSpaces(x, c[..|c| - 1]);
    }
  }

  /** Whitespace around text that neither starts nor ends with any is
      exactly what `Strip` removes. */
  lemma StripAround(a: string, m: string, c: string)
    requires AllSpace(a) && AllSpace(c)
    requires |m| >= 1 && !IsSpace(m[0]) && !IsSpace(m[|m| - 1])
    ensures Strip(a + m + c) == m
  {
    calc {
      Strip(a + m + c);
      { assert a + m + c == a + (m + c); TrimLeftSpaces(a, m + c); }
      TrimRight(m + c);
      { TrimRightSpaces(m, c); }
      m;
    }
  }

  /** A sign, whitespace and digits read as the signed value. */
  lemma ParseSignedForm(sign: char, b: string, d: string)
    requires sign == '-' || sign == '+'
    requires AllSpace(b) && |d| >= 1 && AllDigits(d)
    ensures ParseSigned([sign] + b + d) == Ok(if sign == '-' then -(DigitsValue(d) as int) else DigitsValue(d))
  {
    AfterFirst(sign, b, d);
    TrimLeftSpaces(b, d);
    SignThenDigits([sign] + b + d, d);
  }

  lemma SignThenDigits(t: string, d: string)
    requires |t| >= 1 && (t[0] == '-' || t[0] == '+') && TrimLeft(t[1..]) == d
    requires |d| >= 1 && AllDigits(d)
    ensures ParseSigned(t) == Ok(if t[0] == '-' then -(DigitsValue(d) as int) else DigitsValue(d))
  {
  }

  lemma AfterFirst(x: char, b: string, d: string)
    ensures ([x] + b + d)[0] == x && ([x] + b + d)[1..] == b + d
  {
  }

  /** Whitespace around a literal that neither starts nor ends with any
      does not change what `int()` reads. */
  lemma ParseIntAround(a: string, m: string, c: string)
    requires AllSpace(a) && AllSpace(c)
    requires |m| >= 1 && !IsSpace(m[0]) && !IsSpace(m[|m| - 1])
    ensures ParseInt(a + m + c) == ParseSigned(m)
  {
    StripAround(a, m, c);
  }

  /** Every unsigned literal reads as its value: whitespace, digits,
      whitespace. */
  lemma ParseIntUnsigned(a: string, d: string, c: string)
    requires AllSpace(a) && AllSpace(c)
    requires |d| >= 1 && AllDigits(d)
    ensures ParseInt(a + d + c) == Ok(DigitsValue(d))
  {
    ParseIntAround(a, d, c);
  }

  /** Every signed literal reads as its value: whitespace, a sign,
      whitespace, digits, whitespace. */
  lemma ParseIntSigned(a: string, sign: char, b: string, d: string, c: string)
    requires AllSpace(a) && AllSpace(b) && AllSpace(c)
    requires sign == '-' || sign == '+'
    requires |d| >= 1 && AllDigits(d)
    ensures ParseInt(a + ([sign] + b + d) + c) == Ok(if sign == '-' then -(DigitsValue(d) as int) else DigitsValue(d))
  {
    var m := [sign] + b + d;
    assert m[0] == sign;
    assert m[|m| - 1] == d[|d| - 1];
    ParseIntAround(a, m, c);
    ParseSignedForm(sign, b, d);
  }

  /** A character that is not whitespace survives `TrimLeft`. */
  lemma {:induction false} TrimLeftKeeps(s: string, x: char)
    requires x in s && !IsSpace(x)
    ensures x in TrimLeft(s)
  {
    if s[0] != x {
      assert x in s[1..];
      if IsSpace(s[0]) {
        TrimLeftKeeps(s[1..], x);
      }
    }
  }

  /** A character that is not whitespace survives `TrimRight`. */
  lemma {:induction false} TrimRightKeeps(s: string, x: char)
    requires x in s && !IsSpace(x)
    ensures x in TrimRight(s)
  {
    if s[|s| - 1] != x {
      assert x in s[..|s| - 1];
      if IsSpace(s[|s| - 1]) {
        TrimRightKeeps(s[..|s| - 1], x);
      }
    }
  }

  /** `int()` succeeds only on whitespace, signs and digits: any other
      character, an underscore included, makes it raise ValueError, since
      Python 2 knows no digit separators. */
  lemma RejectsOtherCharacter(s: string, x: char)
    requires x in s && !IsSpace(x) && !IsDigit(x) && x != '-' && x != '+'
    ensures ParseInt(s) == Err(ValueError)
  {
    TrimLeftKeeps(s, x);
    TrimRightKeeps(TrimLeft(s), x);
    var t := Strip(s);
    assert x in t;
    if |t| >= 1 && (t[0] == '-' || t[0] == '+') {
      assert x in t[1..];
      TrimLeftKeeps(t[1..], x);
    }
  }

  /** Python 2 lets blanks follow the sign: `int("- 5") == -5`. */
  lemma BlankAfterSignExample()
    ensures ParseInt("- 5") == Ok(-5)
  {
    ParseIntSigned("", '-', " ", "5", "");
    assert "" + (['-'] + " " + "5") + "" == "- 5";
  }

  /** Whitespace around the literal is skipped: `int(" 37\n") == 37`. */
  lemma SurroundingBlanksExample()
    ensures ParseInt(" 37\n") == Ok(37)
  {
    ParseIntUnsigned(" ", "37", "\n");
    assert " " + "37" + "\n" == " 37\n";
  }

  /** Python 2 has no digit separators: `int("1_0")` raises ValueError. */
  lemma UnderscoreExample()
    ensures ParseInt("1_0") == Err(ValueError)
  {
    RejectsOtherCharacter("1_0", '_');
  }

  /** Blanks may not stand between digits: `int("4 2")` raises ValueError. */
  lemma RejectsInnerBlank()
    ensures ParseInt("4 2") == Err(ValueError)
  {
    var t := "4 2";
    StripAround("", t, "");
    assert "" + t + "" == t;
    assert !IsDigit(t[1]);
  }

  /** A sign alone is no literal: `int("-")` raises ValueError. */
  lemma RejectsBareSign()
    ensures ParseInt("-") == Err(ValueError)
  {
    var t := "-";
    StripAround("", t, "");
    assert "" + t + "" == t;
    assert t[1..] == [];
  }

  /** `int(str(n)) == n` for every integer: the decimal text of an integer
      reads back as that integer. */
  lemma ParseIntToString(n: int)
    ensures ParseInt(IntToString(n)) == Ok(n)
  {
    if n < 0 {
      ParseNegativeToString(n);
    } else {
      var d := NatToString(n);
      DigitsRoundTrip(n);
      BareDigits(d);
    }
  }

  lemma ParseNegativeToString(n: int)
    requires n < 0
    ensures ParseInt(IntToString(n)) == Ok(n)
  {
    var m: nat := -n;
    var d := NatToString(m);
    DigitsRoundTrip(m);
    MinusDigits(d);
    assert IntToString(n) == ['-'] + d;
  }

  /** A bare digit string reads as its value. */
  lemma BareDigits(d: string)
    requires |d| >= 1 && AllDigits(d)
    ensures ParseInt(d) == Ok(DigitsValue(d))
  {
    assert !IsSpace(d[0]) && !IsSpace(d[|d| - 1]);
    assert TrimLeft(d) == d;
  }

  /** A minus sign directly before a digit string negates its value. */
  lemma MinusDigits(d: string)
    requires |d| >= 1 && AllDigits(d)
    ensures ParseInt(['-'] + d) == Ok(-(DigitsValue(d) as int))
  {
    var t := ['-'] + d;
    assert t[1..] == d && t[|t| - 1] == d[|d| - 1];
    assert TrimLeft(t) == t;
    assert TrimLeft(d) == d;
    SignThenDigits(t, d);
  }
}
