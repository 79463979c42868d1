/** The JavaScript string conversions the products page relies on:
    `parseInt` without a radix, `String(n)` of an integer, and
    `String.prototype.split` on a one-character separator. */
module JsText {
  import opened Optional

  /** The characters `parseInt` skips before the number: ECMAScript's
      white space (tab, vertical tab, form feed, the Unicode space
      separators, the byte order mark) and its line terminators. */
  predicate IsWhiteSpace(c: char)
  {
    || '\t' <= c <= '\r'                    // tab, line feed, vertical tab, form feed, carriage return
    || c == ' ' || c == '\U{00A0}' || c == '\U{1680}'
    || '\U{2000}' <= c <= '\U{200A}'
    || c == '\U{2028}' || c == '\U{2029}'   // line and paragraph separators
    || c == '\U{202F}' || c == '\U{205F}' || c == '\U{3000}'
    || c == '\U{FEFF}'                      // byte order mark
  }

  /** The string without its leading white space. */
  function TrimStart(s: string): (r: string)
    ensures |r| <= |s| && r == s[|s| - |r|..]
    ensures r == [] || !IsWhiteSpace(r[0])
    ensures forall i :: 0 <= i < |s| - |r| ==> IsWhiteSpace(s[i])
  {
    if s != [] && IsWhiteSpace(s[0]) then TrimStart(s[1..]) else s
  }

  /** The value of `c` as a digit in the radix (10 or 16), if it is one. */
  function DigitValue(c: char, radix: nat): (r: Option<nat>)
    ensures r.Some? ==> r.value < radix
  {
    var v: int :=
      if '0' <= c <= '9' then c as int - '0' as int
      else if 'a' <= c <= 'z' then c as int - 'a' as int + 10
      else if 'A' <= c <= 'Z' then c as int - 'A' as int + 10
      else radix;
    if v < radix then Some(v) else None
  }

  predicate AllDigits(s: string, radix: nat)
  {
    forall i :: 0 <= i < |s| ==> DigitValue(s[i], radix).Some?
  }

  /** The length of the longest prefix of digits. */
  function DigitRunLength(s: string, radix: nat): (n: nat)
    ensures n <= |s| && AllDigits(s[..n], radix)
    ensures n < |s| ==> DigitValue(s[n], radix).None?
  {
    if s == [] || DigitValue(s[0], radix).None? then 0
    else
      var n := 1 + DigitRunLength(s[1..], radix);
      assert forall i :: 1 <= i < n ==> s[..n][i] == s[1..][..n - 1][i - 1];
      n
  }

  /** The number a run of digits denotes, most significant digit first. */
  function DigitsValue(s: string, radix: nat): nat
    requires AllDigits(s, radix)
  {
    if s == [] then 0
    else DigitsValue(s[..|s| - 1], radix) * radix + DigitValue(s[|s| - 1], radix).value
  }

  /** The number after the sign: a `0x` or `0X` prefix switches to
      hexadecimal, then the longest run of digits counts; `None` (NaN) when
      that run is empty. */
  function ParseMagnitude(u: string): Option<nat>
  {
    var hex := |u| >= 2 && u[0] == '0' && (u[1] == 'x' || u[1] == 'X');
    var radix := if hex then 16 else 10;
    var v := if hex then u[2..] else u;
    var n := DigitRunLength(v, radix);
    if n == 0 then None else Some(DigitsValue(v[..n], radix))
  }

  /** What `parseInt` reads once the white space is skipped: an optional
      sign before the magnitude. */
  function ParseSigned(t: string): (r: Option<int>)
    ensures t == [] ==> r.None?
  {
    var negative := t != [] && t[0] == '-';
    var u := if t != [] && (t[0] == '-' || t[0] == '+') then t[1..] else t;
    match ParseMagnitude(u)
    case None => None
    case Some(m) => Some(if negative then -(m as int) else m as int)
  }

  /** `parseInt(s)`: leading white space skipped, then an optional sign
      before the magnitude. */
  function ParseInt(s: string): (r: Option<int>)
    ensures TrimStart(s) == [] ==> r.None?
  {
    ParseSigned(TrimStart(s))
  }

  function DigitChar(d: nat): (c: char)
    requires d < 10
    ensures DigitValue(c, 10) == Some(d)
  {
    ('0' as int + d) as char
  }

  /** The decimal numeral of a natural number, without leading zeros. */
  function DecimalDigits(n: nat): (r: string)
    ensures |r| >= 1 && AllDigits(r, 10)
    ensures r[0] == '0' ==> n == 0
  {
    if n < 10 then [DigitChar(n)]
    else
      var r := DecimalDigits(n / 10) + [DigitChar(n % 10)];
      assert r[0] == DecimalDigits(n / 10)[0];
      r
  }

  /** `String(n)` for an integer `n`. */
  function IntToDecimal(n: int): string
  {
    if n < 0 then "-" + DecimalDigits(-n) else DecimalDigits(n)
  }

  lemma {:induction false} DecimalDigitsValue(n: nat)
    ensures DigitsValue(DecimalDigits(n), 10) == n
  {
    if n >= 10 {
      var r := DecimalDigits(n);
      assert r[..|r| - 1] == DecimalDigits(n / 10);
      DecimalDigitsValue(n / 10);
    }
  }

  /** The run of digits ends where the digits end. */
  lemma {:induction false} DigitRunStops(digits: string, rest: string, radix: nat)
    requires AllDigits(digits, radix)
    requires rest == [] || DigitValue(rest[0], radix).None?
    ensures DigitRunLength(digits + rest, radix) == |digits|
  {
    if digits != [] {
      assert (digits + rest)[1..] == digits[1..] + rest;
      DigitRunStops(digits[1..], rest, radix);
    } else {
      assert digits + rest == rest;
    }
  }

  /** Skipping white space that comes before a string. */
  lemma {:induction false} TrimStartAppend(space: string, s: string)
    requires forall i :: 0 <= i < |space| ==> IsWhiteSpace(space[i])
    ensures TrimStart(space + s) == TrimStart(s)
  {
    if space != [] {
      var t := space + s;
      assert t[0] == space[0] && IsWhiteSpace(t[0]);
      assert t[1..] == space[1..] + s;
      TrimStartAppend(space[1..], s);
    } else {
      assert space + s == s;
    }
  }

  /** `parseInt` ignores leading white space. */
  lemma ParseIntSkipsWhiteSpace(space: string, s: string)
    requires forall i :: 0 <= i < |space| ==> IsWhiteSpace(space[i])
    ensures ParseInt(space + s) == ParseInt(s)
  {
    TrimStartAppend(space, s);
  }

  lemma ParseMagnitudeOfDecimal(m: nat, rest: string)
    requires rest == [] || (DigitValue(rest[0], 10).None? && rest[0] != 'x' && rest[0] != 'X')
    ensures ParseMagnitude(DecimalDigits(m) + rest) == Some(m)
  {
    var digits := DecimalDigits(m);
    var u := digits + rest;
    assert u[0] == digits[0];
    assert |u| >= 2 && u[0] == '0' ==> |digits| == 1 && u[1] == rest[0];
    DigitRunStops(digits, rest, 10);
    assert u[..|digits|] == digits;
    DecimalDigitsValue(m);
  }

  /** A numeral does not start with white space. */
  lemma NumeralStart(n: int)
    ensures !IsWhiteSpace(IntToDecimal(n)[0])
  {
    var c := DecimalDigits(if n < 0 then -n else n)[0];
    assert '0' <= c <= '9';
  }

  /** A leading `-` negates the magnitude. */
  lemma ParseSignedMinus(u: string, m: nat)
    requires ParseMagnitude(u) == Some(m)
    ensures ParseSigned("-" + u) == Some(-(m as int))
  {
    assert ("-" + u)[0] == '-' && ("-" + u)[1..] == u;
  }

  /** Without a sign the magnitude is the number. */
  lemma ParseSignedUnsigned(u: string, m: nat)
    requires u != [] && u[0] != '-' && u[0] != '+'
    requires ParseMagnitude(u) == Some(m)
    ensures ParseSigned(u) == Some(m)
  {
  }

  lemma ParseSignedOfDecimal(n: int, rest: string)
    requires rest == [] || (DigitValue(rest[0], 10).None? && rest[0] != 'x' && rest[0] != 'X')
    ensures ParseSigned(IntToDecimal(n) + rest) == Some(n)
  {
    var m := if n < 0 then -n else n;
    var u := DecimalDigits(m) + rest;
    ParseMagnitudeOfDecimal(m, rest);
    if n < 0 {
      assert IntToDecimal(n) + rest == "-" + u;
      ParseSignedMinus(u, m);
    } else {
      assert IntToDecimal(n) + rest == u;
      assert '0' <= u[0] <= '9';
      ParseSignedUnsigned(u, m);
    }
  }

  /** `parseInt` reads the numeral of an integer and stops at whatever
      follows it that is not a digit. */
  lemma ParseIntStopsAtNonDigit(n: int, rest: string)
    requires rest == [] || (DigitValue(rest[0], 10).None? && rest[0] != 'x' && rest[0] != 'X')
    ensures ParseInt(IntToDecimal(n) + rest) == Some(n)
  {
    var s := IntToDecimal(n) + rest;
    NumeralStart(n);
    assert s[0] == IntToDecimal(n)[0];
    assert TrimStart(s) == s;
    ParseSignedOfDecimal(n, rest);
  }

  /** `parseInt(String(n)) === n`: reading back the numeral of an integer
      gives the integer. */
  lemma ParseIntOfDecimal(n: int)
    ensures ParseInt(IntToDecimal(n)) == Some(n)
  {
    ParseIntStopsAtNonDigit(n, "");
    assert IntToDecimal(n) + "" == IntToDecimal(n);
  }

  /** What `parseInt` makes of pages typed into the address bar:
      `parseInt(" 3")` is 3 and `parseInt("7abc")` is 7. */
  lemma ParseIntTypedPages()
    ensures ParseInt(" 3") == Some(3)
    ensures ParseInt("7abc") == Some(7)
  {
    SpaceThenThree();
    SevenThenLetters();
  }

  lemma SpaceThenThree()
    ensures ParseInt(" 3") == Some(3)
  {
    var three := IntToDecimal(3);
    assert three == "3";
    assert " 3" == " " + three;
    ParseIntOfDecimal(3);
    ParseIntSkipsWhiteSpace(" ", three);
  }

  lemma SevenThenLetters()
    ensures ParseInt("7abc") == Some(7)
  {
    var seven := IntToDecimal(7);
    assert seven == "7";
    assert "7abc" == seven + "abc";
    assert DigitValue('a', 10).None?;
    ParseIntStopsAtNonDigit(7, "abc");
  }


  /** The pieces joined back together with the separator between them. */
  function Join(parts: seq<string>, sep: char): string
  {
    if parts == [] then ""
    else if |parts| == 1 then parts[0]
    else parts[0] + [sep] + Join(parts[1..], sep)
  }

  /** `s.split(sep)`: the pieces between the separators, in order, at least
      one; joining them back gives `s`. */
  function Split(s: string, sep: char): (parts: seq<string>)
    ensures |parts| >= 1
    ensures forall i :: 0 <= i < |parts| ==> sep !in parts[i]
    ensures Join(parts, sep) == s
  {
    if s == [] then [""]
    else
      var rest := Split(s[1..], sep);
      if s[0] == sep then
        var parts := [""] + rest;
        assert parts[1..] == rest;
        assert Join(parts, sep) == [sep] + s[1..];
        parts
      else
        var parts := [[s[0]] + rest[0]] + rest[1..];
        assert forall i :: 1 <= i < |parts| ==> parts[i] == rest[i];
        assert Join(parts, sep) == [s[0]] + Join(rest, sep) by {
          if |rest| > 1 {
            assert parts[1..] == rest[1..];
          }
        }
        parts
  }

  /** A string without the separator splits into itself. */
  lemma SplitWithoutSeparator(s: string, sep: char)
    requires sep !in s
    ensures Split(s, sep) == [s]
  {
  }

  /** `(x + "-" + y).split("-")` is `[x, y]` when neither contains `-`. */
  lemma {:induction false} SplitTwo(x: string, y: string, sep: char)
    requires sep !in x && sep !in y
    ensures Split(x + [sep] + y, sep) == [x, y]
  {
    if x == [] {
      assert x + [sep] + y == [sep] + y;
      assert ([sep] + y)[1..] == y;
      SplitWithoutSeparator(y, sep);
    } else {
      assert (x + [sep] + y)[1..] == x[1..] + [sep] + y;
      SplitTwo(x[1..], y, sep);
      assert [x[0]] + x[1..] == x;
    }
  }
}
