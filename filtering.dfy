/** Listing filters: the comparison operators, the file-size parser with
    binary units, the normalisation of filter input values, the registry of
    filters and the query that applies the filters a request names. */
module Filtering {
  import opened Wrappers
  import opened Strings

  const KeyError := "KeyError"
  const ValueError := "ValueError"
  const TypeError := "TypeError"
  const IndexError := "IndexError"
  const AttributeError := "AttributeError"
  const UnicodeEncodeError := "UnicodeEncodeError"

  // ---------------------------------------------------------------------
  // Comparison operators

  datatype Op = Eq | Ne | Gt | Lt | Ge | Le

  /** `COMPARISONS[op]`: exactly the six operators; any other raises
      `KeyError`. */
  function ParseOp(op: string): (r: Result<Op, string>)
    ensures r.Ok? <==> op == "==" || op == "!=" || op == ">" || op == "<" || op == ">=" || op == "<="
    ensures r.Err? ==> r.error == KeyError
  {
    if op == "==" then Ok(Eq)
    else if op == "!=" then Ok(Ne)
    else if op == ">" then Ok(Gt)
    else if op == "<" then Ok(Lt)
    else if op == ">=" then Ok(Ge)
    else if op == "<=" then Ok(Le)
    else Err(KeyError)
  }

  /** `compare(field, op, value)` on integer fields. */
  function Compare(field: int, op: string, value: int): (r: Result<bool, string>)
    ensures r.Ok? <==> ParseOp(op).Ok?
    ensures op == "==" ==> r == Ok(field == value)
    ensures op == "<" ==> r == Ok(field < value)
  {
    match ParseOp(op)
    case Err(e) => Err(e)
    case Ok(o) =>
      Ok(match o
         case Eq => field == value
         case Ne => field != value
         case Gt => field > value
         case Lt => field < value
         case Ge => field >= value
         case Le => field <= value)
  }

  /** The six operators are the complements and mirror images of `==` and
      `<`. */
  lemma CompareDuals(field: int, value: int)
    ensures Compare(field, "!=", value).value == !Compare(field, "==", value).value
    ensures Compare(field, ">", value).value == Compare(value, "<", field).value
    ensures Compare(field, ">=", value).value == !Compare(field, "<", value).value
    ensures Compare(field, "<=", value).value == !Compare(value, "<", field).value
  {
  }

  // ---------------------------------------------------------------------
  // File sizes

  predicate IsNumChar(c: char) { IsDigit(c) || c == '.' }

  /** The length of the run of digits and dots at the start of `s`. */
  function NumLen(s: string): (n: nat)
    ensures n <= |s|
    ensures forall i :: 0 <= i < n ==> IsNumChar(s[i])
    ensures n < |s| ==> !IsNumChar(s[n])
  {
    if |s| > 0 && IsNumChar(s[0]) then 1 + NumLen(s[1..]) else 0
  }

  /** The position of a unit letter, of either case, in `bkmgtpezy`. */
  function UnitIndex(c: char): (r: Option<nat>)
    ensures r.Some? ==> r.value < 9 && !IsSpace(c) && !IsNumChar(c)
  {
    var l := Lower(c);
    if l == 'b' then Some(0) else if l == 'k' then Some(1) else if l == 'm' then Some(2)
    else if l == 'g' then Some(3) else if l == 't' then Some(4) else if l == 'p' then Some(5)
    else if l == 'e' then Some(6) else if l == 'z' then Some(7) else if l == 'y' then Some(8)
    else None
  }

  /** The groups of `size_re`: the number, and the first letter of the unit
      when there is one.  None when the string does not match. */
  datatype SizeParts = SizeParts(number: string, unit: Option<char>)

  function SizeMatch(s: string): (r: Option<SizeParts>)
    ensures r.Some? ==> |r.value.number| > 0 && forall i :: 0 <= i < |r.value.number| ==> IsNumChar(r.value.number[i])
    ensures r.Some? && r.value.unit.Some? ==> UnitIndex(r.value.unit.value).Some?
  {
    var t := StripLeft(s);
    var n := NumLen(t);
    if n == 0 then None else MatchUnit(t[..n], StripLeft(t[n..]))
  }

  /** What may follow the number: nothing, or a unit letter, an optional
      `b`, and whitespace. */
  function MatchUnit(number: string, rest: string): (r: Option<SizeParts>)
    ensures r.Some? ==> r.value.number == number
    ensures r.Some? && r.value.unit.Some? ==> UnitIndex(r.value.unit.value).Some?
  {
    if |rest| == 0 then Some(SizeParts(number, None))
    else if UnitIndex(rest[0]).None? then None
    else
      var after := if |rest| >= 2 && Lower(rest[1]) == 'b' then rest[2..] else rest[1..];
      if AllSpace(after) then Some(SizeParts(number, Some(rest[0]))) else None
  }

  /** `2^(10·i)`. */
  function UnitFactor(i: nat): (f: nat)
    ensures f >= 1
  {
    if i == 0 then 1 else 1024 * UnitFactor(i - 1)
  }

  function Pow10(e: nat): (r: nat)
    ensures r >= 1
  {
    if e == 0 then 1 else 10 * Pow10(e - 1)
  }

  function Count(s: string, c: char): (n: nat)
  {
    if |s| == 0 then 0 else (if s[0] == c then 1 else 0) + Count(s[1..], c)
  }

  /** A non-negative decimal number as an exact fraction. */
  datatype Fraction = Fraction(num: nat, den: nat)

  /** `float(number)` for a run of digits and dots: at most one dot and at
      least one digit.  The number is read exactly: its digits without the
      dot over the power of ten of the digits after the dot. */
  function FloatOf(number: string): (r: Result<Fraction, string>)
    requires forall i :: 0 <= i < |number| ==> IsNumChar(number[i])
    ensures r.Ok? ==> r.value.den >= 1
    ensures r.Err? ==> r.error == ValueError
    ensures r.Ok? <==> Count(number, '.') <= 1 && Count(number, '.') < |number|
    ensures r.Ok? && '.' !in number ==> AllDigits(number) && r.value == Fraction(DigitsValue(number), 1)
    ensures r.Ok? && '.' in number ==>
      var k := IndexOf(number, '.');
      var whole := number[..k];
      var frac := number[k + 1..];
      && AllDigits(whole) && AllDigits(frac)
      && r.value == Fraction(DigitsValue(whole) * Pow10(|frac|) + DigitsValue(frac), Pow10(|frac|))
  {
    if Count(number, '.') > 1 || Count(number, '.') == |number| then Err(ValueError)
    else if '.' !in number then
      assert AllDigits(number) by {
        forall i | 0 <= i < |number|
          ensures IsDigit(number[i])
        {
          assert number[i] in number && IsNumChar(number[i]);
        }
      }
      Ok(Fraction(DigitsValue(number), 1))
    else
      var k := IndexOf(number, '.');
      var whole := number[..k];
      var frac := number[k + 1..];
      DotCount(number, k);
      DigitsAppend(whole, frac);
      Ok(Fraction(DigitsValue(whole + frac), Pow10(|frac|)))
  }

  /** Digits written after digits shift them by a power of ten. */
  lemma {:induction false} DigitsAppend(a: string, b: string)
    requires AllDigits(a) && AllDigits(b)
    ensures AllDigits(a + b) && DigitsValue(a + b) == DigitsValue(a) * Pow10(|b|) + DigitsValue(b)
  {
    if |b| == 0 {
      assert a + b == a;
    } else {
      var init := b[..|b| - 1];
      var d := b[|b| - 1] as int - '0' as int;
      DigitsAppend(a, init);
      assert (a + b)[..|a + b| - 1] == a + init;
      assert DigitsValue(a + b) == 10 * DigitsValue(a + init) + d;
      assert DigitsValue(b) == 10 * DigitsValue(init) + d;
      assert Pow10(|b|) == 10 * Pow10(|init|);
      ShiftTen(DigitsValue(a), Pow10(|init|));
    }
  }

  lemma ShiftTen(x: nat, p: nat)
    ensures 10 * (x * p) == x * (10 * p)
  {
  }

  lemma {:induction false} DotCount(number: string, k: nat)
    requires k < |number| && number[k] == '.' && '.' !in number[..k] && Count(number, '.') <= 1
    requires forall i :: 0 <= i < |number| ==> IsNumChar(number[i])
    ensures forall i :: 0 <= i < k ==> IsDigit(number[i])
    ensures forall i :: k < i < |number| ==> IsDigit(number[i])
  {
    if k == 0 {
      NoneCounted(number[1..], '.');
    } else {
      assert number[1..][..k - 1] == number[1..k];
      DotCount(number[1..], k - 1);
    }
  }

  lemma {:induction false} NoneCounted(s: string, c: char)
    requires Count(s, c) == 0
    ensures c !in s
  {
    if |s| > 0 {
      NoneCounted(s[1..], c);
    }
  }

  /** `filesize(string)`: the number times `2^(10·i)` for the unit at
      position `i` of `bkmgtpezy`, truncated.  A string the pattern does
      not match raises `AttributeError` (`None` has no `groups`); a number
      `float` rejects raises `ValueError`. */
  function Filesize(s: string): (r: Result<int, string>)
    ensures r.Err? <==> SizeMatch(s).None? || FloatOf(SizeMatch(s).value.number).Err?
    ensures SizeMatch(s).None? ==> r == Err(AttributeError)
    ensures r.Ok? ==>
      var p := SizeMatch(s).value;
      var f := FloatOf(p.number).value;
      && r.value >= 0
      && RoundsDown(r.value, f.num * Scale(p.unit), f.den)
  {
    match SizeMatch(s)
    case None => Err(AttributeError)
    case Some(p) =>
      match FloatOf(p.number)
      case Err(e) => Err(e)
      case Ok(v) => Ok(ScaledDown(v.num, Scale(p.unit), v.den))
  }

  /** `int(num / den * factor)` for a non-negative fraction. */
  function ScaledDown(num: nat, factor: nat, den: nat): (q: nat)
    requires den >= 1
    ensures RoundsDown(q, num * factor, den)
  {
    DivBounds(num * factor, den);
    (num * factor) / den
  }

  /** `q` is `a / d` rounded down, as `int()` gives for a non-negative
      number. */
  predicate RoundsDown(q: int, a: int, d: int)
  {
    q * d <= a < (q + 1) * d
  }

  /** Division of naturals rounds down. */
  lemma DivBounds(a: int, d: nat)
    requires d >= 1
    ensures RoundsDown(a / d, a, d)
  {
    assert a == d * (a / d) + a % d;
  }

  /** The factor of a unit letter: `2^(10·i)`. */
  function Scale(unit: Option<char>): (f: nat)
    ensures unit.None? ==> f == 1
    ensures unit.Some? && UnitIndex(unit.value).Some? ==> f == UnitFactor(UnitIndex(unit.value).value)
  {
    if unit.Some? && UnitIndex(unit.value).Some? then UnitFactor(UnitIndex(unit.value).value) else 1
  }

  /** A whole number followed by a unit letter, optionally followed by `b`,
      reads back as the number times the unit's factor. */
  lemma FilesizeOfDecimal(n: nat, u: char, suffix: string)
    requires UnitIndex(u).Some? && (suffix == "" || suffix == "b" || suffix == "B")
    ensures Filesize(Decimal(n) + [u] + suffix) == Ok(n * Scale(Some(u)))
  {
    SizeMatchWithUnit(Decimal(n), u, suffix);
    FloatOfDecimal(n);
  }

  /** A whole number without a unit reads back as itself. */
  lemma FilesizeOfPlainDecimal(n: nat)
    ensures Filesize(Decimal(n)) == Ok(n)
  {
    SizeMatchPlain(Decimal(n));
    FloatOfDecimal(n);
  }

  lemma FloatOfDecimal(n: nat)
    ensures FloatOf(Decimal(n)) == Ok(Fraction(n, 1))
  {
    NoDots(Decimal(n));
    DecimalValue(n);
    if '.' in Decimal(n) {
      NoneCounted(Decimal(n), '.');
    }
  }

  lemma SizeMatchWithUnit(d: string, u: char, suffix: string)
    requires |d| > 0 && AllDigits(d)
    requires UnitIndex(u).Some? && (suffix == "" || suffix == "b" || suffix == "B")
    ensures SizeMatch(d + [u] + suffix) == Some(SizeParts(d, Some(u)))
  {
    var rest := [u] + suffix;
    assert d + [u] + suffix == d + rest;
    NumberThen(d, rest);
    StripLeftNoSpace(rest);
    MatchUnitLetter(d, u, suffix, "");
    assert rest + "" == rest;
  }

  /** The number at the start of a string that starts with digits and goes
      on with something else. */
  lemma NumberThen(d: string, rest: string)
    requires |d| > 0 && AllDigits(d)
    requires |rest| > 0 ==> !IsNumChar(rest[0]) && !IsSpace(rest[0])
    ensures var t := StripLeft(d + rest); NumLen(t) == |d| && t[..|d|] == d && t[|d|..] == rest
  {
    StripLeftNoSpace(d + rest);
    NumLenOf(d, rest);
  }

  lemma StripLeftNoSpace(t: string)
    requires |t| > 0 ==> !IsSpace(t[0])
    ensures StripLeft(t) == t
  {
  }

  lemma MatchUnitLetter(d: string, u: char, suffix: string, w3: string)
    requires AllSpace(w3) && UnitIndex(u).Some? && (suffix == "" || suffix == "b" || suffix == "B")
    ensures MatchUnit(d, [u] + suffix + w3) == Some(SizeParts(d, Some(u)))
  {
    var rest := [u] + suffix + w3;
    if suffix == "" {
      assert rest[1..] == w3;
    } else {
      assert rest[2..] == w3;
    }
  }

  lemma SizeMatchPlain(d: string)
    requires |d| > 0 && AllDigits(d)
    ensures SizeMatch(d) == Some(SizeParts(d, None))
  {
    assert d + "" == d;
    NumberThen(d, "");
  }

  lemma {:induction false} NoDots(d: string)
    requires AllDigits(d)
    ensures Count(d, '.') == 0
  {
    if |d| > 0 {
      NoDots(d[1..]);
    }
  }

  /** `1G` is 1073741824 bytes and `1.5k` is 1536; `1.2.3` has too many dots
      for `float` and `abc` does not match at all. */
  lemma FilesizeOneGiga()
    ensures Filesize("1G") == Ok(1073741824)
  {
    FilesizeOfDecimal(1, 'G', "");
    OneGigaText();
    GigaScale();
  }

  lemma OneGigaText()
    ensures Decimal(1) + ['G'] + "" == "1G"
  {
  }

  lemma GigaScale()
    ensures Scale(Some('G')) == 1073741824
  {
    assert UnitIndex('G') == Some(3);
    assert UnitFactor(3) == 1073741824;
  }

  lemma FilesizeFraction()
    ensures Filesize("1.5k") == Ok(1536)
  {
    OneAndAHalfKiloMatch();
    OneAndAHalf();
    KiloScale();
    FilesizeOfParts("1.5k", SizeParts("1.5", Some('k')), Fraction(15, 10), 1536);
  }

  /** `int()` truncates: `2.7` is 2 bytes. */
  lemma FilesizeTruncates()
    ensures Filesize("2.7") == Ok(2)
  {
    TwoPointSevenMatch();
    TwoPointSeven();
    FilesizeOfParts("2.7", SizeParts("2.7", None), Fraction(27, 10), 2);
  }

  /** `1.3k` is 1331.2 bytes, truncated to 1331. */
  lemma FilesizeTruncatesScaled()
    ensures Filesize("1.3k") == Ok(1331)
  {
    OnePointThreeKiloMatch();
    OnePointThree();
    KiloScale();
    FilesizeOfParts("1.3k", SizeParts("1.3", Some('k')), Fraction(13, 10), 1331);
  }

  lemma TwoPointSevenMatch()
    ensures SizeMatch("2.7") == Some(SizeParts("2.7", None))
  {
    assert IsNumChar("2.7"[0]) && IsNumChar("2.7"[1]) && IsNumChar("2.7"[2]);
    NumLenOf("2.7", "");
    assert "2.7" + "" == "2.7";
    assert "2.7"[3..] == "" && "2.7"[..3] == "2.7";
    StripLeftNoSpace("2.7");
    StripLeftNoSpace("");
    assert MatchUnit("2.7", "") == Some(SizeParts("2.7", None));
    SizeMatchOf("2.7", 3, SizeParts("2.7", None));
  }

  lemma TwoPointSeven()
    ensures FloatOf("2.7") == Ok(Fraction(27, 10))
  {
    assert IndexOf("2.7", '.') == 1;
    assert Count("2.7", '.') == 1;
    assert "2.7"[..1] + "2.7"[2..] == "27";
    assert DigitsValue("27") == 27;
  }

  lemma OnePointThreeKiloMatch()
    ensures SizeMatch("1.3k") == Some(SizeParts("1.3", Some('k')))
  {
    assert "1.3k" == "1.3" + ['k'];
    assert IsNumChar("1.3"[0]) && IsNumChar("1.3"[1]) && IsNumChar("1.3"[2]);
    assert UnitIndex('k') == Some(1);
    SizeMatchLetter("1.3", 'k');
  }

  lemma OnePointThree()
    ensures FloatOf("1.3") == Ok(Fraction(13, 10))
  {
    assert IndexOf("1.3", '.') == 1;
    assert Count("1.3", '.') == 1;
    assert "1.3"[..1] + "1.3"[2..] == "13";
    assert DigitsValue("13") == 13;
  }

  lemma FilesizeOfParts(s: string, p: SizeParts, f: Fraction, size: int)
    requires SizeMatch(s) == Some(p) && FloatOf(p.number) == Ok(f)
    requires f.num * Scale(p.unit) / f.den == size
    ensures Filesize(s) == Ok(size)
  {
  }

  lemma OneAndAHalfKiloMatch()
    ensures SizeMatch("1.5k") == Some(SizeParts("1.5", Some('k')))
  {
    assert "1.5k" == "1.5" + ['k'];
    assert IsNumChar("1.5"[0]) && IsNumChar("1.5"[1]) && IsNumChar("1.5"[2]);
    assert UnitIndex('k') == Some(1);
    SizeMatchLetter("1.5", 'k');
  }

  /** A number directly followed by a unit letter. */
  lemma SizeMatchLetter(d: string, u: char)
    requires |d| > 0 && (forall i :: 0 <= i < |d| ==> IsNumChar(d[i])) && UnitIndex(u).Some?
    ensures SizeMatch(d + [u]) == Some(SizeParts(d, Some(u)))
  {
    var s := d + [u];
    NumLenOf(d, [u]);
    StripLeftNoSpace(s);
    assert s[|d|..] == [u] && s[..|d|] == d;
    StripLeftNoSpace([u]);
    MatchUnitLetter(d, u, "", "");
    assert [u] + "" + "" == [u];
    SizeMatchOf(s, |d|, SizeParts(d, Some(u)));
  }

  lemma {:induction false} NumLenOf(d: string, tail: string)
    requires forall i :: 0 <= i < |d| ==> IsNumChar(d[i])
    requires |tail| > 0 ==> !IsNumChar(tail[0])
    ensures NumLen(d + tail) == |d|
  {
    if |d| > 0 {
      assert (d + tail)[1..] == d[1..] + tail;
      NumLenOf(d[1..], tail);
    } else {
      assert d + tail == tail;
    }
  }

  /** A match found without leading whitespace on either side of the
      number. */
  lemma SizeMatchOf(s: string, n: nat, p: SizeParts)
    requires StripLeft(s) == s && NumLen(s) == n && n > 0
    requires StripLeft(s[n..]) == s[n..] && MatchUnit(s[..n], s[n..]) == Some(p)
    ensures SizeMatch(s) == Some(p)
  {
  }

  lemma OneAndAHalf()
    ensures FloatOf("1.5") == Ok(Fraction(15, 10))
  {
    assert IndexOf("1.5", '.') == 1;
    assert Count("1.5", '.') == 1;
    assert "1.5"[..1] + "1.5"[2..] == "15";
    assert DigitsValue("15") == 15;
  }

  lemma KiloScale()
    ensures Scale(Some('k')) == 1024
  {
    assert UnitIndex('k') == Some(1);
  }

  lemma FilesizeTooManyDots()
    ensures Filesize("1.2.3") == Err(ValueError)
  {
    TooManyDotsMatch();
    assert Count("1.2.3", '.') == 2;
  }

  lemma TooManyDotsMatch()
    ensures SizeMatch("1.2.3") == Some(SizeParts("1.2.3", None))
  {
    StripLeftNoSpace("1.2.3");
    assert NumLen("1.2.3") == 5;
    assert "1.2.3"[..5] == "1.2.3" && "1.2.3"[5..] == "";
  }

  lemma FilesizeNoMatch()
    ensures Filesize("abc") == Err(AttributeError)
  {
    StripLeftNoSpace("abc");
    assert NumLen("abc") == 0;
  }

  // ---------------------------------------------------------------------
  // Normalisation of input values

  /** A filter input value as `json.loads` delivers it: numbers with a
      fraction or exponent become floats (modelled as reals), objects keep
      their members in order. */
  datatype Json =
    | JStr(s: string)
    | JInt(i: int)
    | JFloat(x: real)
    | JBool(b: bool)
    | JNull
    | JList(items: seq<Json>)
    | JObject(members: seq<(string, Json)>)

  /** A normalised value; `VStrOf(v)` is the text `str()` gives for a float,
      a list or an object, whose spelling is not modelled. */
  datatype Value =
    | VStr(s: string)
    | VInt(i: int)
    | VReal(r: real)
    | VList(items: seq<Value>)
    | VRaw(raw: Json)
    | VStrOf(raw: Json)

  /** Python 2's `str()` of a unicode string encodes it as ASCII. */
  predicate Ascii(s: string)
  {
    forall i :: 0 <= i < |s| ==> s[i] as int < 128
  }

  /** The entries of `NORMALIZATIONS`. */
  datatype Normalization = Identity | FileSize | ToFloat | ToInteger | ToString

  function NormalizationOf(valueType: string): (r: Result<Normalization, string>)
    ensures r.Err? <==> valueType !in {"date", "filesize", "float", "integer", "string", "sublist"}
    ensures r.Err? ==> r.error == KeyError
    ensures valueType == "date" || valueType == "sublist" ==> r == Ok(Identity)
  {
    if valueType == "date" || valueType == "sublist" then Ok(Identity)
    else if valueType == "filesize" then Ok(FileSize)
    else if valueType == "float" then Ok(ToFloat)
    else if valueType == "integer" then Ok(ToInteger)
    else if valueType == "string" then Ok(ToString)
    else Err(KeyError)
  }

  /** `float(s)`: optional surrounding whitespace, an optional sign and a
      decimal number with at most one dot. */
  function FloatOfText(s: string): (r: Result<real, string>)
    ensures r.Err? ==> r.error == ValueError
  {
    var (number, sign) := Signed(Strip(s));
    if forall i :: 0 <= i < |number| ==> IsNumChar(number[i]) then
      match FloatOf(number)
      case Err(e) => Err(e)
      case Ok(v) => Ok(sign as real * v.num as real / v.den as real)
    else Err(ValueError)
  }

  /** `str(i)` for an integer. */
  function IntText(i: int): (r: string)
    ensures |r| > 0
  {
    if i < 0 then "-" + Decimal(-i) else Decimal(i)
  }

  /** `int(x)` of a real truncates toward zero: the result is the
      integer nearest `x` on the side of zero, less than one away. */
  function Truncate(x: real): (r: int)
    ensures x >= 0.0 ==> 0 <= r && r as real <= x < r as real + 1.0
    ensures x < 0.0 ==> r <= 0 && r as real - 1.0 < x <= r as real
  {
    if x >= 0.0 then x.Floor else -((-x).Floor)
  }

  /** One value normalised by `float`, `int`, `str` or `filesize`:
      `None`, lists and objects are refused by `float` and `int`, booleans
      count as 1 and 0, `int` truncates a float, `str` of a non-ASCII
      string cannot be encoded, and `filesize` only matches strings. */
  function NormalizeScalar(n: Normalization, v: Json): (r: Result<Value, string>)
    ensures n.Identity? ==> r == Ok(VRaw(v))
    ensures n.FileSize? ==> (r.Ok? <==> v.JStr? && Filesize(v.s).Ok?)
    ensures n.FileSize? && !v.JStr? ==> r == Err(TypeError)
    ensures n.ToFloat? ==> (r.Ok? <==> v.JInt? || v.JFloat? || v.JBool? || (v.JStr? && FloatOfText(v.s).Ok?))
    ensures n.ToFloat? && r.Ok? ==> r.value.VReal?
    ensures n.ToFloat? && (v.JInt? || v.JFloat?) ==> r == Ok(VReal(if v.JInt? then v.i as real else v.x))
    ensures n.ToInteger? ==> (r.Ok? <==> v.JInt? || v.JFloat? || v.JBool? || (v.JStr? && IntOfText(v.s).Ok?))
    ensures n.ToInteger? && r.Ok? ==> r.value.VInt?
    ensures n.ToInteger? && v.JFloat? ==> r.Ok? && Truncate(v.x) == r.value.i
    ensures (n.ToFloat? || n.ToInteger?) && (v.JNull? || v.JList? || v.JObject?) ==> r == Err(TypeError)
    ensures n.ToString? ==> (r.Err? <==> v.JStr? && !Ascii(v.s))
    ensures n.ToString? && r.Err? ==> r.error == UnicodeEncodeError
    ensures n.ToString? && v.JStr? && Ascii(v.s) ==> r == Ok(VStr(v.s))
    ensures n.ToString? && r.Ok? ==> r.value.VStr? || r.value.VStrOf?
  {
    match n
    case Identity => Ok(VRaw(v))
    case FileSize =>
      (match v
       case JStr(s) => (match Filesize(s) case Err(e) => Err(e) case Ok(b) => Ok(VInt(b)))
       case _ => Err(TypeError))
    case ToFloat =>
      (match v
       case JStr(s) => (match FloatOfText(s) case Err(e) => Err(e) case Ok(x) => Ok(VReal(x)))
       case JInt(i) => Ok(VReal(i as real))
       case JFloat(x) => Ok(VReal(x))
       case JBool(b) => Ok(VReal(if b then 1.0 else 0.0))
       case _ => Err(TypeError))
    case ToInteger =>
      (match v
       case JStr(s) => (match IntOfText(s) case Err(e) => Err(e) case Ok(i) => Ok(VInt(i)))
       case JInt(i) => Ok(VInt(i))
       case JFloat(x) => Ok(VInt(Truncate(x)))
       case JBool(b) => Ok(VInt(if b then 1 else 0))
       case _ => Err(TypeError))
    case ToString =>
      (match v
       case JStr(s) => if Ascii(s) then Ok(VStr(s)) else Err(UnicodeEncodeError)
       case JInt(i) => Ok(VStr(IntText(i)))
       case JBool(b) => Ok(VStr(if b then "True" else "False"))
       case JNull => Ok(VStr("None"))
       case _ => Ok(VStrOf(v)))
  }

  /** Every element of a list normalised, in order; the first error wins. */
  function NormalizeEach(n: Normalization, items: seq<Json>): (r: Result<seq<Value>, string>)
    ensures r.Ok? <==> forall i :: 0 <= i < |items| ==> NormalizeScalar(n, items[i]).Ok?
    ensures r.Ok? ==> |r.value| == |items|
    ensures r.Ok? ==> forall i :: 0 <= i < |items| ==> r.value[i] == NormalizeScalar(n, items[i]).value
  {
    if |items| == 0 then Ok([])
    else match NormalizeScalar(n, items[0])
      case Err(e) => Err(e)
      case Ok(v) =>
        assert forall i :: 1 <= i < |items| ==> items[1..][i - 1] == items[i];
        match NormalizeEach(n, items[1..])
        case Err(e) => Err(e)
        case Ok(vs) => Ok([v] + vs)
  }

  /** `normalize_input`: a list is normalised element by element, any
      other value directly. */
  function NormalizeInput(valueType: string, value: Json): (r: Result<Value, string>)
    ensures NormalizationOf(valueType).Err? ==> r == Err(KeyError)
    ensures NormalizationOf(valueType).Ok? && !value.JList? ==> r == NormalizeScalar(NormalizationOf(valueType).value, value)
    ensures NormalizationOf(valueType).Ok? && value.JList? ==>
      (r.Ok? <==> forall i :: 0 <= i < |value.items| ==> NormalizeScalar(NormalizationOf(valueType).value, value.items[i]).Ok?)
    ensures NormalizationOf(valueType).Ok? && value.JList? && r.Ok? ==>
      r.value.VList? && |r.value.items| == |value.items| &&
      forall i :: 0 <= i < |value.items| ==>
        r.value.items[i] == NormalizeScalar(NormalizationOf(valueType).value, value.items[i]).value
  {
    match NormalizationOf(valueType)
    case Err(e) => Err(e)
    case Ok(n) =>
      if value.JList? then
        match NormalizeEach(n, value.items)
        case Err(e) => Err(e)
        case Ok(vs) => Ok(VList(vs))
      else NormalizeScalar(n, value)
  }

  /** An integer rendered by the `string` normalisation reads back through
      the `integer` normalisation. */
  lemma IntegerOfString(i: int)
    ensures NormalizeInput("string", JInt(i)) == Ok(VStr(IntText(i)))
    ensures NormalizeInput("integer", JStr(IntText(i))) == Ok(VInt(i))
  {
    StringOfInteger(i);
    IntOfIntText(i);
    IntegerOfText(IntText(i), i);
  }

  lemma StringOfInteger(i: int)
    ensures NormalizeInput("string", JInt(i)) == Ok(VStr(IntText(i)))
  {
  }

  lemma IntegerOfText(s: string, i: int)
    requires IntOfText(s) == Ok(i)
    ensures NormalizeInput("integer", JStr(s)) == Ok(VInt(i))
  {
    assert NormalizationOf("integer") == Ok(ToInteger);
    assert NormalizeInput("integer", JStr(s)) == NormalizeScalar(ToInteger, JStr(s));
    assert NormalizeScalar(ToInteger, JStr(s)) == Ok(VInt(i));
  }

  lemma IntOfIntText(i: int)
    ensures IntOfText(IntText(i)) == Ok(i)
  {
    var n: nat := if i < 0 then -i else i;
    var sign := if i < 0 then -1 else 1;
    StripIntText(i);
    SignedIntText(i);
    DecimalValue(n);
    IntOfSigned(IntText(i), Decimal(n), sign, n);
  }

  lemma StripIntText(i: int)
    ensures Strip(IntText(i)) == IntText(i)
  {
    var t := IntText(i);
    var d := if i < 0 then Decimal(-i) else Decimal(i);
    assert !IsSpace(t[0]);
    assert t[|t| - 1] == d[|d| - 1];
    StripSurrounded("", t, "");
    assert "" + t + "" == t;
  }

  lemma SignedIntText(i: int)
    ensures Signed(IntText(i)) == if i < 0 then (Decimal(-i), -1) else (Decimal(i), 1)
  {
    if i < 0 {
      assert IntText(i)[1..] == Decimal(-i);
    }
  }

  lemma IntOfSigned(t: string, digits: string, sign: int, n: nat)
    requires Strip(t) == t && Signed(t) == (digits, sign)
    requires digits == Decimal(n) && DigitsValue(digits) == n
    ensures IntOfText(t) == Ok(sign * n)
  {
  }

  // ---------------------------------------------------------------------
  // Filter registry and query

  datatype FilterInput = FilterInput(name: string, operators: seq<string>, title: string, valueType: string)

  /** A filter widget: its key is always `namespace::name`. */
  datatype Filter = Filter(namespace: string, name: string, inputs: seq<FilterInput>)

  function FilterKey(f: Filter): string
  {
    f.namespace + "::" + f.name
  }

  /** The key under which an input of a filter is rendered. */
  function InputKey(f: Filter, input: FilterInput): string
  {
    FilterKey(f) + "::" + input.name
  }

  predicate SepAt(k: string, j: int)
  {
    0 <= j && j + 2 <= |k| && k[j] == ':' && k[j + 1] == ':'
  }

  /** The start of the last `::` in `k` that starts below `n`. */
  function LastSepBelow(k: string, n: nat): (r: Option<nat>)
    requires n <= |k|
    ensures r.Some? ==> r.value < n && SepAt(k, r.value)
    ensures r.Some? ==> forall j :: r.value < j < n ==> !SepAt(k, j)
    ensures r.None? ==> forall j :: 0 <= j < n ==> !SepAt(k, j)
  {
    if n == 0 then None
    else if SepAt(k, n - 1) then Some(n - 1)
    else LastSepBelow(k, n - 1)
  }

  /** `k.rsplit('::', 1)` unpacked into filter key and input name; a key
      without `::` cannot be unpacked. */
  function SplitKey(k: string): (r: Result<(string, string), string>)
    ensures r.Err? <==> forall j :: 0 <= j < |k| ==> !SepAt(k, j)
    ensures r.Err? ==> r.error == ValueError
    ensures r.Ok? ==> r.value.0 + "::" + r.value.1 == k
  {
    match LastSepBelow(k, |k|)
    case None => Err(ValueError)
    case Some(j) =>
      assert k == k[..j] + "::" + k[j + 2..];
      Ok((k[..j], k[j + 2..]))
  }

  /** An input key splits back into its filter's key and the input name,
      whenever the name holds no colon. */
  lemma InputKeyRoundTrip(f: Filter, input: FilterInput)
    requires ':' !in input.name
    ensures SplitKey(InputKey(f, input)) == Ok((FilterKey(f), input.name))
  {
    var k := InputKey(f, input);
    var j := |FilterKey(f)|;
    assert SepAt(k, j);
    forall i | j < i < |k|
      ensures !SepAt(k, i)
    {
      if i + 1 < |k| {
        assert k[i + 1] == input.name[i - j - 1];
      }
    }
    assert LastSepBelow(k, |k|) == Some(j) by {
      LastSepFrom(k, |k|, j);
    }
    assert k[..j] == FilterKey(f);
    assert k[j + 2..] == input.name;
  }

  lemma {:induction false} LastSepFrom(k: string, n: nat, j: nat)
    requires j < n <= |k| && SepAt(k, j)
    requires forall i :: j < i < n ==> !SepAt(k, i)
    ensures LastSepBelow(k, n) == Some(j)
  {
    if n - 1 != j {
      LastSepFrom(k, n - 1, j);
    }
  }

  /** What a request gives for one input: the raw value and the operator. */
  datatype Given = Given(val: Json, op: string)

  /** A normalised input passed to a filter. */
  datatype ValOp = ValOp(val: Value, op: string)

  /** A dictionary as an association list in insertion order. */
  function Get<V>(d: seq<(string, V)>, k: string): (r: Option<V>)
    ensures r.Some? <==> exists i :: 0 <= i < |d| && d[i].0 == k
  {
    if |d| == 0 then None else if d[0].0 == k then Some(d[0].1) else Get(d[1..], k)
  }

  /** `d[k] = v`: an existing key keeps its place, a new one goes last. */
  function Put<V>(d: seq<(string, V)>, k: string, v: V): (r: seq<(string, V)>)
    ensures Get(r, k) == Some(v)
    ensures forall k' :: k' != k ==> Get(r, k') == Get(d, k')
    ensures |r| == if Get(d, k).Some? then |d| else |d| + 1
    ensures forall i :: 0 <= i < |d| ==> r[i].0 == d[i].0
  {
    if |d| == 0 then [(k, v)]
    else if d[0].0 == k then [(k, v)] + d[1..]
    else [d[0]] + Put(d[1..], k, v)
  }

  type Groups = map<string, seq<(string, Given)>>

  /** The request's `filter::input` entries grouped by filter key, in the
      request's order; the first key without `::` raises `ValueError`. */
  function Unflatten(given: seq<(string, Given)>): (r: Result<Groups, string>)
    ensures r.Err? <==> exists i :: 0 <= i < |given| && SplitKey(given[i].0).Err?
  {
    if |given| == 0 then Ok(map[])
    else
      var init := given[..|given| - 1];
      var (k, v) := given[|given| - 1];
      assert forall i :: 0 <= i < |init| ==> init[i] == given[i];
      match Unflatten(init)
      case Err(e) => Err(e)
      case Ok(u) =>
        match SplitKey(k)
        case Err(e) => Err(e)
        case Ok((fk, name)) => Ok(u[fk := Put(if fk in u then u[fk] else [], name, v)])
  }

  /** One filter's inputs normalised by the value type of the first of its
      declared inputs with that name; an input it does not declare raises
      `IndexError`. */
  function FirstInput(inputs: seq<FilterInput>, name: string): (r: Option<FilterInput>)
    ensures r.Some? ==> r.value in inputs && r.value.name == name
    ensures r.None? <==> forall i :: 0 <= i < |inputs| ==> inputs[i].name != name
  {
    if |inputs| == 0 then None
    else if inputs[0].name == name then Some(inputs[0])
    else FirstInput(inputs[1..], name)
  }

  function NormalizeGroup(f: Filter, group: seq<(string, Given)>): (r: Result<seq<(string, ValOp)>, string>)
    ensures r.Ok? ==> |r.value| == |group| && forall i :: 0 <= i < |group| ==> r.value[i].0 == group[i].0
    ensures r.Ok? ==> forall i :: 0 <= i < |group| ==> FirstInput(f.inputs, group[i].0).Some?
  {
    if |group| == 0 then Ok([])
    else
      var (name, g) := group[0];
      match FirstInput(f.inputs, name)
      case None => Err(IndexError)
      case Some(input) =>
        match NormalizeInput(input.valueType, g.val)
        case Err(e) => Err(e)
        case Ok(v) =>
          match NormalizeGroup(f, group[1..])
          case Err(e) => Err(e)
          case Ok(rest) => Ok([(name, ValOp(v, g.op))] + rest)
  }

  /** A filter applied to the query with its normalised inputs. */
  datatype Applied = Applied(key: string, inputs: seq<(string, ValOp)>)

  predicate HasInputs(u: Groups, key: string)
  {
    key in u && |u[key]| > 0
  }

  /** The registered filters that have inputs, in registration order. */
  function WithInputs(keys: seq<string>, u: Groups): (r: seq<string>)
    ensures forall k :: k in r <==> k in keys && HasInputs(u, k)
  {
    if |keys| == 0 then []
    else
      var init := keys[..|keys| - 1];
      var last := keys[|keys| - 1];
      assert keys == init + [last];
      WithInputs(init, u) + (if HasInputs(u, last) then [last] else [])
  }

  /** The registered filters applied in order, each to the query the
      previous one returned. */
  function ApplyAll(keys: seq<string>, filters: map<string, Filter>, u: Groups, query: seq<Applied>)
    : (r: Result<seq<Applied>, string>)
    requires forall k :: k in keys ==> k in filters
  {
    if |keys| == 0 then Ok(query)
    else
      var init := keys[..|keys| - 1];
      var key := keys[|keys| - 1];
      assert keys == init + [key];
      match ApplyAll(init, filters, u, query)
      case Err(e) => Err(e)
      case Ok(q) =>
        if HasInputs(u, key) then
          match NormalizeGroup(filters[key], u[key])
          case Err(e) => Err(e)
          case Ok(inputs) => Ok(q + [Applied(key, inputs)])
        else Ok(q)
  }

  /** The query is extended by one application per registered filter with
      inputs, in registration order. */
  lemma {:induction false} ApplyAllShape(keys: seq<string>, filters: map<string, Filter>, u: Groups, query: seq<Applied>)
    requires forall k :: k in keys ==> k in filters
    ensures var r := ApplyAll(keys, filters, u, query);
      && (r.Ok? ==> |r.value| == |query| + |WithInputs(keys, u)|)
      && (r.Ok? ==> r.value[..|query|] == query)
      && (r.Ok? ==> forall i :: 0 <= i < |WithInputs(keys, u)| ==> r.value[|query| + i].key == WithInputs(keys, u)[i])
  {
    if |keys| > 0 {
      var init := keys[..|keys| - 1];
      var key := keys[|keys| - 1];
      assert keys == init + [key];
      ApplyAllShape(init, filters, u, query);
    }
  }

  /** `filter_query`. */
  function FilterQuery(keys: seq<string>, filters: map<string, Filter>, given: seq<(string, Given)>, query: seq<Applied>)
    : (r: Result<seq<Applied>, string>)
    requires forall k :: k in keys ==> k in filters
  {
    match Unflatten(given)
    case Err(e) => Err(e)
    case Ok(u) => ApplyAll(keys, filters, u, query)
  }

  /** The registered filters, `FILTER`: an ordered dictionary by key. */
  class FilterRegistry {
    var keys: seq<string>
    var filters: map<string, Filter>

    ghost predicate Valid()
      reads this
    {
      (forall k :: k in keys <==> k in filters) &&
      (forall i, j :: 0 <= i < j < |keys| ==> keys[i] != keys[j])
    }

    constructor ()
      ensures Valid() && keys == [] && filters == map[]
    {
      keys := [];
      filters := map[];
    }

    /** The `filter` decorator: the filter is stored under its key, replacing
      one already there, which keeps its place. */
    method Register(f: Filter)
      requires Valid()
      modifies this
      ensures Valid()
      ensures filters == old(filters)[FilterKey(f) := f]
      ensures keys == if FilterKey(f) in old(filters) then old(keys) else old(keys) + [FilterKey(f)]
    {
      var k := FilterKey(f);
      if k !in filters {
        keys := keys + [k];
      }
      filters := filters[k := f];
    }

    /** `filter_query` over the registered filters. */
    method Query(query: seq<Applied>, given: seq<(string, Given)>) returns (r: Result<seq<Applied>, string>)
      requires Valid()
      ensures r == FilterQuery(keys, filters, given, query)
    {
      var groups := GroupInputs(given);
      if groups.Err? {
        return Err(groups.error);
      }
      r := ApplyFilters(keys, filters, groups.value, query);
    }
  }

  /** The second loop of `filter_query`: every registered filter with
      inputs, in order, applied to the query. */
  method ApplyFilters(keys: seq<string>, filters: map<string, Filter>, u: Groups, query: seq<Applied>)
    returns (r: Result<seq<Applied>, string>)
    requires forall k :: k in keys ==> k in filters
    ensures r == ApplyAll(keys, filters, u, query)
  {
    var q := query;
    var n := 0;
    while n < |keys|
      invariant n <= |keys|
      invariant ApplyAll(keys[..n], filters, u, query) == Ok(q)
    {
      ApplyAllStep(keys, filters, u, query, n, q);
      var key := keys[n];
      if key in u && |u[key]| > 0 {
        var inputs := NormalizeGroup(filters[key], u[key]);
        if inputs.Err? {
          ApplyStops(keys, filters, u, query, n + 1);
          return Err(inputs.error);
        }
        q := q + [Applied(key, inputs.value)];
      }
      n := n + 1;
    }
    assert keys[..|keys|] == keys;
    r := Ok(q);
  }

  /** One registered filter more. */
  lemma ApplyAllStep(keys: seq<string>, filters: map<string, Filter>, u: Groups, query: seq<Applied>, n: nat, q: seq<Applied>)
    requires forall k :: k in keys ==> k in filters
    requires n < |keys| && ApplyAll(keys[..n], filters, u, query) == Ok(q)
    ensures !HasInputs(u, keys[n]) ==> ApplyAll(keys[..n + 1], filters, u, query) == Ok(q)
    ensures HasInputs(u, keys[n]) ==>
      ApplyAll(keys[..n + 1], filters, u, query) ==
        match NormalizeGroup(filters[keys[n]], u[keys[n]])
        case Err(e) => Err(e)
        case Ok(inputs) => Ok(q + [Applied(keys[n], inputs)])
  {
    assert keys[..n + 1][..n] == keys[..n] && keys[..n + 1][n] == keys[n];
  }

  /** The first loop of `filter_query`: the request's entries grouped by
      filter key. */
  method GroupInputs(given: seq<(string, Given)>) returns (r: Result<Groups, string>)
    ensures r == Unflatten(given)
  {
    var u: Groups := map[];
    var i := 0;
    while i < |given|
      invariant i <= |given|
      invariant Unflatten(given[..i]) == Ok(u)
    {
      assert given[..i + 1][..i] == given[..i];
      var (k, v) := given[i];
      var split := SplitKey(k);
      if split.Err? {
        UnflattenStops(given, i + 1);
        return Err(split.error);
      }
      var (fk, name) := split.value;
      u := u[fk := Put(if fk in u then u[fk] else [], name, v)];
      i := i + 1;
    }
    assert given[..|given|] == given;
    r := Ok(u);
  }

  lemma {:induction false} UnflattenStops(given: seq<(string, Given)>, i: nat)
    requires i <= |given| && Unflatten(given[..i]).Err?
    ensures Unflatten(given) == Unflatten(given[..i])
    decreases |given| - i
  {
    if i < |given| {
      assert given[..i + 1][..i] == given[..i];
      UnflattenStops(given, i + 1);
    } else {
      assert given[..i] == given;
    }
  }

  lemma {:induction false} ApplyStops(keys: seq<string>, filters: map<string, Filter>, u: Groups, query: seq<Applied>, n: nat)
    requires forall k :: k in keys ==> k in filters
    requires n <= |keys| && ApplyAll(keys[..n], filters, u, query).Err?
    ensures ApplyAll(keys, filters, u, query) == ApplyAll(keys[..n], filters, u, query)
    decreases |keys| - n
  {
    if n < |keys| {
      assert keys[..n + 1][..n] == keys[..n];
      ApplyStops(keys, filters, u, query, n + 1);
    } else {
      assert keys[..n] == keys;
    }
  }

  /** The filters applied by a query are exactly the registered filters the
      request names, in registration order, each once; entries for filters
      that are not registered are ignored. */
  lemma AppliedFilters(keys: seq<string>, filters: map<string, Filter>, given: seq<(string, Given)>, query: seq<Applied>)
    requires forall k :: k in keys ==> k in filters
    requires FilterQuery(keys, filters, given, query).Ok?
    ensures var r := FilterQuery(keys, filters, given, query).value;
      var u := Unflatten(given).value;
      |r| == |query| + |WithInputs(keys, u)| && r[..|query|] == query &&
      forall k :: k in WithInputs(keys, u) <==> k in keys && k in u && |u[k]| > 0
  {
    ApplyAllShape(keys, filters, Unflatten(given).value, query);
  }
}
