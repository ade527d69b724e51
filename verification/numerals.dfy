/** The string handling the sensor managers rely on: Python's `str.strip`,
    `str.split(",")`, `int(s)`, `int(s, 0)` and the `"%d"`, `"%x"` and `"%02x"`
    renderings of non-negative integers. */
module Numerals {
  import opened Results

  /** Python's `str.isspace`: the ASCII separators and the Unicode space characters. */
  predicate IsSpace(c: char) {
    || c == ' ' || c == '\t' || c == '\n' || c == '\r'
    || c == '\U{000B}' || c == '\U{000C}'
    || ('\U{001C}' <= c <= '\U{001F}')
    || c == '\U{0085}' || c == '\U{00A0}' || c == '\U{1680}'
    || ('\U{2000}' <= c <= '\U{200A}')
    || c == '\U{2028}' || c == '\U{2029}' || c == '\U{202F}'
    || c == '\U{205F}' || c == '\U{3000}'
  }

  /** Drops leading white space. */
  function TrimStart(s: string): (r: string)
    ensures |r| <= |s| && r == s[|s| - |r|..]
    ensures forall i :: 0 <= i < |s| - |r| ==> IsSpace(s[i])
    ensures |r| > 0 ==> !IsSpace(r[0])
    decreases |s|
  {
    if |s| > 0 && IsSpace(s[0]) then TrimStart(s[1..]) else s
  }

  /** Drops trailing white space. */
  function TrimEnd(s: string): (r: string)
    ensures |r| <= |s| && r == s[..|r|]
    ensures forall i :: |r| <= i < |s| ==> IsSpace(s[i])
    ensures |r| > 0 ==> !IsSpace(r[|r| - 1])
    decreases |s|
  {
    if |s| > 0 && IsSpace(s[|s| - 1]) then TrimEnd(s[..|s| - 1]) else s
  }

  /** `r` is the infix of `s` starting at `j`, with only white space on either side. */
  predicate StrippedAt(s: string, r: string, j: int) {
    && 0 <= j <= |s| - |r| && r == s[j..j + |r|]
    && (forall k :: 0 <= k < j ==> IsSpace(s[k]))
    && (forall k :: j + |r| <= k < |s| ==> IsSpace(s[k]))
  }

  /** Python's `str.strip()`: the longest infix that neither starts nor ends with
      white space, with only white space cut away on either side. */
  function Strip(s: string): (r: string)
    ensures exists j :: StrippedAt(s, r, j)
    ensures |r| > 0 ==> !IsSpace(r[0]) && !IsSpace(r[|r| - 1])
  {
    var t := TrimStart(s);
    var r := TrimEnd(t);
    StripWitness(s, t, r, |s| - |t|);
    r
  }

  /** Stripping the empty string gives the empty string. */
  lemma StripEmpty()
    ensures Strip("") == ""
  {
    assert TrimStart("") == "";
  }

  /** Cutting leading white space at `i` and then trailing white space at `|r|`
      leaves a strip of `s` at `i`. */
  lemma StripWitness(s: string, t: string, r: string, i: int)
    requires 0 <= i <= |s| && t == s[i..] && |r| <= |t| && r == t[..|r|]
    requires forall k :: 0 <= k < i ==> IsSpace(s[k])
    requires forall k :: |r| <= k < |t| ==> IsSpace(t[k])
    ensures StrippedAt(s, r, i)
  {
    forall k | i + |r| <= k < |s| ensures IsSpace(s[k]) {
      assert s[k] == t[k - i];
    }
  }

  /** Python's `s.split(",")`: the comma-free pieces between commas; never empty. */
  function Split(s: string): (parts: seq<string>)
    ensures |parts| >= 1
    ensures forall i :: 0 <= i < |parts| ==> ',' !in parts[i]
    decreases |s|
  {
    if |s| == 0 then [""]
    else
      var rest := Split(s[1..]);
      if s[0] == ',' then [""] + rest
      else [[s[0]] + rest[0]] + rest[1..]
  }

  /** Python's `",".join(parts)`. */
  function Join(parts: seq<string>): string
    decreases |parts|
  {
    if |parts| == 0 then ""
    else if |parts| == 1 then parts[0]
    else parts[0] + "," + Join(parts[1..])
  }

  /** Splitting loses nothing: joining the pieces again gives back the input. */
  lemma {:induction false} JoinSplit(s: string)
    ensures Join(Split(s)) == s
    decreases |s|
  {
    if |s| > 0 {
      JoinSplit(s[1..]);
      var rest := Split(s[1..]);
      if s[0] == ',' {
        assert Join([""] + rest) == "" + "," + Join(rest);
      } else {
        var parts := [[s[0]] + rest[0]] + rest[1..];
        if |rest| == 1 {
          assert Join(parts) == [s[0]] + rest[0];
        } else {
          assert parts[1..] == rest[1..];
          assert Join(rest) == rest[0] + "," + Join(rest[1..]);
          assert Join(parts) == [s[0]] + rest[0] + "," + Join(rest[1..]);
        }
        assert s == [s[0]] + s[1..];
      }
    }
  }

  /** The two number bases the sensor configuration uses. */
  datatype Radix = Base10 | Base16

  /** The number of digit values of a radix. */
  function Base(radix: Radix): nat {
    match radix
    case Base10 => 10
    case Base16 => 16
  }

  /** `v` shifted left by one digit position. */
  function Shift(v: nat, radix: Radix): nat {
    match radix
    case Base10 => v * 10
    case Base16 => v * 16
  }

  /** Splitting a comma-free prefix followed by more text extends the first piece. */
  lemma {:induction false} SplitPrefix(p: string, t: string)
    requires ',' !in p
    ensures Split(p + t) == [p + Split(t)[0]] + Split(t)[1..]
    decreases |p|
  {
    if |p| > 0 {
      assert (p + t)[1..] == p[1..] + t;
      assert (p + t)[0] == p[0];
      SplitPrefix(p[1..], t);
      assert [p[0]] + (p[1..] + Split(t)[0]) == p + Split(t)[0];
    } else {
      var parts := Split(t);
      assert p + t == t;
      assert p + parts[0] == parts[0];
      assert parts == [parts[0]] + parts[1..];
    }
  }

  /** A comma-free string is a single piece. */
  lemma SplitNoComma(t: string)
    requires ',' !in t
    ensures Split(t) == [t]
  {
    SplitPrefix(t, "");
    assert t + "" == t;
  }

  /** The pieces of `[c] + t` from the pieces of `t`: a comma starts a new, empty
      first piece and any other character joins the first piece. */
  function ConsPiece(c: char, parts: seq<string>): seq<string>
    requires |parts| >= 1
  {
    if c == ',' then [""] + parts else [[c] + parts[0]] + parts[1..]
  }

  /** Splitting a string one character longer at the front. */
  lemma SplitCons(c: char, t: string)
    ensures Split([c] + t) == ConsPiece(c, Split(t))
  {
    assert ([c] + t)[1..] == t;
  }

  /** Adding a character in front commutes with appending more pieces behind. */
  lemma ConsPieceAppend(c: char, left: seq<string>, right: seq<string>)
    requires |left| >= 1
    ensures ConsPiece(c, left + right) == ConsPiece(c, left) + right
  {
    assert (left + right)[0] == left[0];
    assert (left + right)[1..] == left[1..] + right;
  }

  /** Putting the same character in front of two strings keeps a common tail
      of their pieces. */
  lemma SplitConsAppend(c: char, x: string, y: string, right: seq<string>)
    requires Split(y) == Split(x) + right
    ensures Split([c] + y) == Split([c] + x) + right
  {
    SplitCons(c, y);
    SplitCons(c, x);
    ConsPieceAppend(c, Split(x), right);
  }

  /** Splitting at one more comma splits each side on its own: the pieces of
      `a + "," + b` are the pieces of `a` followed by the pieces of `b`. */
  lemma {:induction false} SplitAppend(a: string, b: string)
    ensures Split(a + "," + b) == Split(a) + Split(b)
    decreases |a|
  {
    if |a| == 0 {
      SplitCons(',', b);
      assert a + "," + b == [','] + b;
    } else {
      var tail := a[1..] + "," + b;
      assert a + "," + b == [a[0]] + tail;
      assert a == [a[0]] + a[1..];
      SplitAppend(a[1..], b);
      SplitConsAppend(a[0], a[1..], tail, Split(b));
    }
  }

  /** Joining comma-free pieces and splitting again gives back the pieces. */
  lemma {:induction false} SplitJoin(parts: seq<string>)
    requires |parts| >= 1
    requires forall i :: 0 <= i < |parts| ==> ',' !in parts[i]
    ensures Split(Join(parts)) == parts
    decreases |parts|
  {
    if |parts| == 1 {
      SplitPrefix(parts[0], "");
      assert parts[0] + "" == parts[0];
    } else {
      SplitJoin(parts[1..]);
      var rest := "," + Join(parts[1..]);
      assert Join(parts) == parts[0] + rest;
      SplitPrefix(parts[0], rest);
      assert rest[1..] == Join(parts[1..]);
      assert Split(rest) == [""] + parts[1..];
      assert parts[0] + "" == parts[0];
      assert parts == [parts[0]] + parts[1..];
    }
  }

  // ---------------------------------------------------------------------------
  // Comma-separated lists

  /** The list loop both sensor managers run over an environment variable: each
      comma-separated piece is stripped and handed to `parse`, and the pieces it
      rejects are skipped. */
  function ParseList<T>(s: string, parse: string -> Option<T>): (xs: seq<T>)
    ensures |xs| <= |Split(s)|
  {
    Somes(ParsedPieces(Split(s), parse))
  }

  /** Each piece parsed on its own, in order. */
  function ParsedPieces<T>(tokens: seq<string>, parse: string -> Option<T>): (xs: seq<Option<T>>)
    ensures |xs| == |tokens|
    ensures forall i :: 0 <= i < |tokens| ==> xs[i] == parse(Strip(tokens[i]))
  {
    seq(|tokens|, i requires 0 <= i < |tokens| => parse(Strip(tokens[i])))
  }

  /** Parsing pieces one by one commutes with concatenating piece lists. */
  lemma ParsedPiecesAppend<T>(x: seq<string>, y: seq<string>, parse: string -> Option<T>)
    ensures ParsedPieces(x + y, parse) == ParsedPieces(x, parse) + ParsedPieces(y, parse)
  {
  }

  /** The list is read piece by piece: what `a + "," + b` yields is what `a`
      yields followed by what `b` yields, so values keep their order. */
  lemma ParseListAppend<T>(a: string, b: string, parse: string -> Option<T>)
    ensures ParseList(a + "," + b, parse) == ParseList(a, parse) + ParseList(b, parse)
  {
    SplitAppend(a, b);
    ParsedPiecesAppend(Split(a), Split(b), parse);
    SomesAppend(ParsedPieces(Split(a), parse), ParsedPieces(Split(b), parse));
  }

  /** A piece without a comma yields its value when it parses, once white space
      around it is stripped, and nothing otherwise. */
  lemma ParseListPiece<T>(t: string, parse: string -> Option<T>)
    requires ',' !in t
    ensures parse(Strip(t)).Some? ==> ParseList(t, parse) == [parse(Strip(t)).value]
    ensures parse(Strip(t)).None? ==> ParseList(t, parse) == []
  {
    SplitNoComma(t);
    assert ParsedPieces([t], parse) == [parse(Strip(t))];
  }

  /** Every value in the list is the parse of some stripped piece. */
  lemma ParseListSound<T>(s: string, parse: string -> Option<T>, j: nat)
    requires j < |ParseList(s, parse)|
    ensures exists i :: 0 <= i < |Split(s)| && parse(Strip(Split(s)[i])) == Some(ParseList(s, parse)[j])
  {
    SomesFrom(ParsedPieces(Split(s), parse), j);
  }

  /** Comma-free pieces that each parse, stripped, to a value are read back from
      their comma-join as exactly those values. */
  lemma ParseListJoin<T>(parts: seq<string>, values: seq<T>, parse: string -> Option<T>)
    requires |parts| == |values| >= 1
    requires forall i :: 0 <= i < |parts| ==> ',' !in parts[i] && parse(Strip(parts[i])) == Some(values[i])
    ensures ParseList(Join(parts), parse) == values
  {
    SplitJoin(parts);
    SomesAllPresent(ParsedPieces(parts, parse), values);
  }

  /** Joining four pieces puts a comma between each neighbouring pair. */
  lemma JoinFour(a: string, b: string, c: string, d: string)
    ensures Join([a, b, c, d]) == (a + ",") + ((b + ",") + ((c + ",") + d))
  {
    assert [c, d][1..] == [d];
    assert Join([c, d]) == (c + ",") + d;
    assert [b, c, d][1..] == [c, d];
    assert Join([b, c, d]) == (b + ",") + Join([c, d]);
    assert [a, b, c, d][1..] == [b, c, d];
  }

  /** Stripping a token without surrounding white space changes nothing. */
  lemma StripNoSpace(s: string)
    requires |s| > 0 ==> !IsSpace(s[0]) && !IsSpace(s[|s| - 1])
    ensures Strip(s) == s
  {
  }

  /** The value of a digit in bases up to 16; letters in either case. */
  function DigitOf(c: char): Option<nat> {
    if '0' <= c <= '9' then Some(c as int - '0' as int)
    else if 'a' <= c <= 'f' then Some(c as int - 'a' as int + 10)
    else if 'A' <= c <= 'F' then Some(c as int - 'A' as int + 10)
    else None
  }

  /** True when `c` is a digit of `radix`. */
  predicate IsDigitIn(c: char, radix: Radix) {
    DigitOf(c).Some? && DigitOf(c).value < Base(radix)
  }

  /** The positional value of a digit string, most significant digit first. */
  function ValueOf(s: string, radix: Radix): nat
    requires forall i :: 0 <= i < |s| ==> IsDigitIn(s[i], radix)
    decreases |s|
  {
    if |s| == 0 then 0
    else
      assert IsDigitIn(s[|s| - 1], radix);
      Shift(ValueOf(s[..|s| - 1], radix), radix) + DigitOf(s[|s| - 1]).value
  }

  /** Parses a non-empty run of digits of `radix`; anything else is rejected. */
  function ParseDigits(s: string, radix: Radix): (r: Option<nat>)
    ensures r.Some? <==> |s| > 0 && forall i :: 0 <= i < |s| ==> IsDigitIn(s[i], radix)
    ensures r.Some? ==> r.value == ValueOf(s, radix)
  {
    if |s| > 0 && forall i :: 0 <= i < |s| ==> IsDigitIn(s[i], radix) then Some(ValueOf(s, radix))
    else None
  }

  /** The character for a digit value below 16, lower-case letters for 10..15. */
  function DigitChar(d: nat): (c: char)
    requires d < 16
    ensures DigitOf(c) == Some(d)
    ensures !('A' <= c <= 'F')
  {
    if d < 10 then ('0' as int + d) as char else ('a' as int + d - 10) as char
  }

  /** The shortest digit string of `n` in `radix` (Python's `"%d"` and `"%x"`). */
  function Digits(n: nat, radix: Radix): (s: string)
    ensures |s| >= 1
    ensures forall i :: 0 <= i < |s| ==> IsDigitIn(s[i], radix)
    ensures |s| > 1 ==> s[0] != '0'
    decreases n
  {
    if n < Base(radix) then [DigitChar(n)]
    else
      match radix
      case Base10 => Digits(n / 10, radix) + [DigitChar(n % 10)]
      case Base16 => Digits(n / 16, radix) + [DigitChar(n % 16)]
  }

  /** Reading back a rendered number gives the number. */
  lemma {:induction false} DigitsRoundTrip(n: nat, radix: Radix)
    ensures ParseDigits(Digits(n, radix), radix) == Some(n)
    ensures ValueOf(Digits(n, radix), radix) == n
    decreases n
  {
    var s := Digits(n, radix);
    if n >= Base(radix) {
      match radix
      case Base10 =>
        DigitsRoundTrip(n / 10, radix);
        assert s[..|s| - 1] == Digits(n / 10, radix);
      case Base16 =>
        DigitsRoundTrip(n / 16, radix);
        assert s[..|s| - 1] == Digits(n / 16, radix);
    } else {
      assert s[..0] == "";
      assert ValueOf(s, radix) == Shift(0, radix) + n;
    }
  }

  /** A leading zero does not change the value of a digit string. */
  lemma {:induction false} LeadingZero(s: string, radix: Radix)
    requires forall i :: 0 <= i < |s| ==> IsDigitIn(s[i], radix)
    ensures forall i :: 0 <= i < |"0" + s| ==> IsDigitIn(("0" + s)[i], radix)
    ensures ValueOf("0" + s, radix) == ValueOf(s, radix)
    decreases |s|
  {
    var t := "0" + s;
    assert forall i :: 0 < i < |t| ==> t[i] == s[i - 1];
    if |s| > 0 {
      assert t[..|t| - 1] == "0" + s[..|s| - 1];
      LeadingZero(s[..|s| - 1], radix);
    }
  }

  /** A decimal digit character is the rendering of its own value. */
  lemma DecimalDigitChar(c: char)
    requires IsDigitIn(c, Base10)
    ensures DigitChar(DigitOf(c).value) == c
  {
  }

  /** A decimal digit string that does not start with `0` has a positive value. */
  lemma {:induction false} LeadingDigitPositive(s: string)
    requires |s| > 0 && s[0] != '0'
    requires forall i :: 0 <= i < |s| ==> IsDigitIn(s[i], Base10)
    ensures ValueOf(s, Base10) >= 1
    decreases |s|
  {
    if |s| == 1 {
      assert s[..0] == "";
    } else {
      LeadingDigitPositive(s[..|s| - 1]);
    }
  }

  /** A string of zeros has value zero. */
  lemma {:induction false} ZerosValue(s: string, radix: Radix)
    requires AllZeros(s)
    ensures forall i :: 0 <= i < |s| ==> IsDigitIn(s[i], radix)
    ensures ValueOf(s, radix) == 0
    decreases |s|
  {
    if |s| > 0 {
      ZerosValue(s[..|s| - 1], radix);
    }
  }

  /** The converse of `DigitsRoundTrip` in base 10: a digit string without a
      leading zero (or the single digit `0`) is the rendering of its own value,
      so such strings and numbers correspond one to one. */
  lemma {:induction false} DecimalCanonical(s: string)
    requires |s| > 0 && (s[0] != '0' || |s| == 1)
    requires forall i :: 0 <= i < |s| ==> IsDigitIn(s[i], Base10)
    ensures Digits(ValueOf(s, Base10), Base10) == s
    decreases |s|
  {
    var last := s[|s| - 1];
    var d := DigitOf(last).value;
    DecimalDigitChar(last);
    if |s| == 1 {
      assert s[..0] == "";
      assert ValueOf(s, Base10) == d;
      assert s == [last];
    } else {
      var p := s[..|s| - 1];
      DecimalCanonical(p);
      LeadingDigitPositive(p);
      var v := ValueOf(s, Base10);
      assert v == ValueOf(p, Base10) * 10 + d;
      assert v / 10 == ValueOf(p, Base10) && v % 10 == d;
      assert s == p + [last];
    }
  }

  /** Python's `"%02x" % n` for `n >= 0`: lower-case hex, zero-padded to two digits. */
  function Hex2(n: nat): (s: string)
    ensures |s| >= 2
    ensures forall i :: 0 <= i < |s| ==> IsDigitIn(s[i], Base16)
    ensures n < 256 ==> |s| == 2
    ensures n >= 16 ==> s == Digits(n, Base16)
  {
    var d := Digits(n, Base16);
    assert 16 <= n < 256 ==> Digits(n / 16, Base16) == [DigitChar(n / 16)] && |d| == 2;
    if |d| < 2 then "0" + d else d
  }

  /** The padded rendering still reads back as the number, so distinct numbers
      get distinct renderings. */
  lemma Hex2RoundTrip(n: nat)
    ensures ParseDigits(Hex2(n), Base16) == Some(n)
  {
    DigitsRoundTrip(n, Base16);
    var d := Digits(n, Base16);
    if |d| < 2 {
      LeadingZero(d, Base16);
    }
  }

  /** Python's `int(s)` (base 10) on an already stripped token: an optional sign
      followed by decimal digits, leading zeros allowed. */
  function ParseInt10(s: string): (r: Option<int>)
    ensures r.Some? ==> |s| > 0
    ensures r.Some? <==> ParseDigits(s, Base10).Some?
                         || (|s| > 0 && (s[0] == '+' || s[0] == '-') && ParseDigits(s[1..], Base10).Some?)
    ensures r.Some? && s[0] == '-' ==> r.value <= 0
    ensures r.Some? && s[0] != '-' ==> r.value >= 0
    ensures r.Some? ==> r.value == (if s[0] == '-' then -(ValueOf(s[1..], Base10) as int)
                                    else if s[0] == '+' then ValueOf(s[1..], Base10) as int
                                    else ValueOf(s, Base10) as int)
  {
    if |s| > 0 && (s[0] == '+' || s[0] == '-') then
      match ParseDigits(s[1..], Base10)
      case Some(v) => Some(if s[0] == '-' then -(v as int) else v as int)
      case None => None
    else
      match ParseDigits(s, Base10)
      case Some(v) => Some(v as int)
      case None => None
  }

  /** Python's `str(n)`. */
  function Decimal(n: int): (s: string)
    ensures |s| >= 1
    ensures s[0] == '-' <==> n < 0
    ensures forall i :: 0 <= i < |s| && !(i == 0 && n < 0) ==> IsDigitIn(s[i], Base10)
  {
    if n < 0 then "-" + Digits(-n, Base10) else Digits(n, Base10)
  }

  /** `int(str(n)) == n`; in particular distinct numbers render differently. */
  lemma DecimalRoundTrip(n: int)
    ensures ParseInt10(Decimal(n)) == Some(n)
  {
    if n < 0 {
      assert Decimal(n) == "-" + Digits(-n, Base10);
      NegativeRoundTrip(-n);
    } else {
      var d := Digits(n, Base10);
      assert Decimal(n) == d;
      DigitsRoundTrip(n, Base10);
      assert IsDigitIn(d[0], Base10);
      assert d[0] != '+' && d[0] != '-';
    }
  }

  /** Spellings `int()` treats alike: a leading `+` or a leading zero in front of
      a digit run leaves the value unchanged, so `"+18"`, `"018"` and `"18"` all
      read as 18. */
  lemma ParseInt10Spellings(s: string)
    requires |s| > 0 && forall i :: 0 <= i < |s| ==> IsDigitIn(s[i], Base10)
    ensures ParseInt10(s) == Some(ValueOf(s, Base10) as int)
    ensures ParseInt10("+" + s) == ParseInt10(s)
    ensures ParseInt10("0" + s) == ParseInt10(s)
  {
    assert s[0] != '+' && s[0] != '-' by { DecimalDigitChar(s[0]); }
    assert ("+" + s)[1..] == s;
    var z := "0" + s;
    LeadingZero(s, Base10);
    assert z[0] == '0' && z[1..] == s;
    assert forall i :: 0 <= i < |z| ==> IsDigitIn(z[i], Base10);
  }

  /** A minus sign in front of the digits of `m` reads back as `-m`. */
  lemma NegativeRoundTrip(m: nat)
    requires m > 0
    ensures ParseInt10("-" + Digits(m, Base10)) == Some(-(m as int))
  {
    var s := "-" + Digits(m, Base10);
    DigitsRoundTrip(m, Base10);
    assert s[0] == '-';
    assert s[1..] == Digits(m, Base10);
  }

  /** True when every character of `s` is `'0'`. */
  predicate AllZeros(s: string) {
    forall i :: 0 <= i < |s| ==> s[i] == '0'
  }

  /** True when `s` starts with the `0x` or `0X` prefix. */
  predicate HasHexPrefix(s: string) {
    |s| >= 2 && s[0] == '0' && (s[1] == 'x' || s[1] == 'X')
  }

  /** Python's `int(s, 0)` on an already stripped token, restricted to the forms
      the sensor address list uses: `0x`/`0X` followed by hex digits, or decimal
      digits, where a decimal with a leading zero is rejected unless it is all zeros. */
  function ParseInt0(s: string): (r: Option<nat>)
    ensures HasHexPrefix(s) ==> r == ParseDigits(s[2..], Base16)
    ensures !HasHexPrefix(s) ==> (r.Some? <==> ParseDigits(s, Base10).Some? && (s[0] != '0' || AllZeros(s)))
    ensures !HasHexPrefix(s) && r.Some? ==> r == ParseDigits(s, Base10)
  {
    if HasHexPrefix(s) then ParseDigits(s[2..], Base16)
    else if |s| > 0 && s[0] == '0' && !AllZeros(s) then None
    else ParseDigits(s, Base10)
  }

  /** A decimal token `int(s, 0)` accepts is either the canonical rendering of
      its value or a run of zeros; so no two accepted decimal spellings other
      than runs of zeros share a value. */
  lemma ParseInt0Canonical(s: string, n: nat)
    requires !HasHexPrefix(s) && ParseInt0(s) == Some(n)
    ensures s == Digits(n, Base10) || (AllZeros(s) && n == 0)
  {
    if AllZeros(s) {
      ZerosValue(s, Base10);
    } else {
      DecimalCanonical(s);
    }
  }

  /** The `"0x%02x"` key written for an address reads back, through `int(key, 0)`,
      as that address. */
  lemma HexKeyRoundTrip(n: nat)
    ensures ParseInt0("0x" + Hex2(n)) == Some(n)
  {
    var s := "0x" + Hex2(n);
    assert s[2..] == Hex2(n);
    Hex2RoundTrip(n);
  }

  /** A rendered number contains no comma and no surrounding white space, so it
      survives being split out of a list and stripped. */
  lemma DecimalShape(n: int)
    ensures ',' !in Decimal(n)
    ensures Strip(Decimal(n)) == Decimal(n)
  {
    var s := Decimal(n);
    var d := if n < 0 then Digits(-n, Base10) else Digits(n, Base10);
    assert s == if n < 0 then "-" + d else d;
    forall k | 0 <= k < |s| ensures s[k] != ',' {
      if n < 0 && k >= 1 {
        assert s[k] == d[k - 1];
        assert IsDigitIn(d[k - 1], Base10);
      } else if n >= 0 {
        assert IsDigitIn(d[k], Base10);
      }
    }
    assert IsDigitIn(d[0], Base10);
    assert IsDigitIn(d[|d| - 1], Base10);
    assert s[|s| - 1] == d[|d| - 1];
    StripNoSpace(s);
  }
}
