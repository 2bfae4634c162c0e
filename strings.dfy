/** String helpers shared by the model: Python's `str.split`, `str.join`,
    `str.replace`, `startswith`/`endswith`, ASCII case mapping, decimal
    rendering and parsing, and the byte-wise ordering Python 2 uses to
    compare `str`. */
module Strings {
  import opened Wrappers

  function Join(parts: seq<string>, sep: string): (r: string)
  {
    if |parts| == 0 then ""
    else if |parts| == 1 then parts[0]
    else parts[0] + sep + Join(parts[1..], sep)
  }

  /** `s.split(c)` for a one-character separator: never empty, and no part
      contains the separator. */
  function Split(s: string, c: char): (r: seq<string>)
    ensures |r| >= 1
    ensures forall i :: 0 <= i < |r| ==> c !in r[i]
    decreases |s|
  {
    if c !in s then [s]
    else
      var k := IndexOf(s, c);
      [s[..k]] + Split(s[k + 1..], c)
  }

  function IndexOf(s: string, c: char): (k: nat)
    requires c in s
    ensures k < |s| && s[k] == c && c !in s[..k]
  {
    if s[0] == c then 0 else 1 + IndexOf(s[1..], c)
  }

  lemma {:induction false} IndexOfIs(s: string, c: char, j: nat)
    requires j < |s| && s[j] == c && forall i :: 0 <= i < j ==> s[i] != c
    ensures c in s && IndexOf(s, c) == j
  {
    if j > 0 {
      IndexOfIs(s[1..], c, j - 1);
    }
  }

  /** Splitting at a character and joining with it gives the string back. */
  lemma {:induction false} SplitJoin(s: string, c: char)
    ensures Join(Split(s, c), [c]) == s
    decreases |s|
  {
    if c in s {
      var k := IndexOf(s, c);
      SplitJoin(s[k + 1..], c);
      var rest := Split(s[k + 1..], c);
      assert Split(s, c) == [s[..k]] + rest;
      assert s == s[..k] + [c] + s[k + 1..];
    }
  }

  predicate StartsWith(s: string, p: string)
  {
    |p| <= |s| && s[..|p|] == p
  }

  predicate EndsWith(s: string, p: string)
  {
    |p| <= |s| && s[|s| - |p|..] == p
  }

  /** `s.replace(pat, rep)` for a non-empty `pat`: every occurrence, scanning
      left to right without overlaps. */
  function Replace(s: string, pat: string, rep: string): (r: string)
    requires |pat| > 0
    decreases |s|
  {
    if |s| == 0 then ""
    else if StartsWith(s, pat) then rep + Replace(s[|pat|..], pat, rep)
    else [s[0]] + Replace(s[1..], pat, rep)
  }

  /** `s.replace(c, d)` for single characters is a pointwise substitution. */
  lemma {:induction false} ReplaceCharAt(s: string, c: char, d: char, i: nat)
    requires i < |s|
    ensures |Replace(s, [c], [d])| == |s|
    ensures Replace(s, [c], [d])[i] == if s[i] == c then d else s[i]
    decreases |s|
  {
    if i > 0 {
      ReplaceCharAt(s[1..], c, d, i - 1);
    } else if |s| > 1 {
      ReplaceCharAt(s[1..], c, d, 0);
    }
  }

  function Upper(c: char): char
  {
    if 'a' <= c <= 'z' then (c as int - 32) as char else c
  }

  function Lower(c: char): char
  {
    if 'A' <= c <= 'Z' then (c as int + 32) as char else c
  }

  function LowerStr(s: string): (r: string)
    ensures |r| == |s| && forall i :: 0 <= i < |s| ==> r[i] == Lower(s[i])
  {
    if |s| == 0 then "" else [Lower(s[0])] + LowerStr(s[1..])
  }

  predicate IsDigit(c: char) { '0' <= c <= '9' }

  predicate AllDigits(s: string) { forall i :: 0 <= i < |s| ==> IsDigit(s[i]) }

  /** Python's `int(s)` for a non-empty run of decimal digits. */
  function DigitsValue(s: string): (n: nat)
    requires AllDigits(s)
  {
    if |s| == 0 then 0
    else 10 * DigitsValue(s[..|s| - 1]) + (s[|s| - 1] as int - '0' as int)
  }

  function DigitChar(d: nat): (c: char)
    requires d < 10
    ensures IsDigit(c)
  {
    ('0' as int + d) as char
  }

  /** Python's `str(n)` for a natural number. */
  function Decimal(n: nat): (r: string)
    ensures |r| >= 1 && AllDigits(r)
  {
    if n < 10 then [DigitChar(n)] else Decimal(n / 10) + [DigitChar(n % 10)]
  }

  /** Reading back the decimal rendering of a number gives the number. */
  lemma {:induction false} DecimalValue(n: nat)
    ensures DigitsValue(Decimal(n)) == n
  {
    if n >= 10 {
      DecimalValue(n / 10);
      var r := Decimal(n);
      assert r[..|r| - 1] == Decimal(n / 10);
    }
  }

  /** Python's zero-padded integer format (width `w`): the decimal rendering padded with zeros on the
      left to at least `w` characters. */
  function ZeroPad(n: nat, w: nat): (r: string)
    ensures |r| >= w && |r| >= 1 && AllDigits(r)
  {
    var d := Decimal(n);
    if |d| >= w then d else seq(w - |d|, _ => '0') + d
  }

  /** The byte-wise lexicographic order in which Python 2 compares `str`. */
  predicate StrLe(a: string, b: string)
    decreases |a|
  {
    if |a| == 0 then true
    else if |b| == 0 then false
    else if a[0] != b[0] then a[0] < b[0]
    else StrLe(a[1..], b[1..])
  }

  lemma StrLeTotal(a: string, b: string)
    ensures StrLe(a, b) || StrLe(b, a)
    decreases |a|
  {
    if |a| > 0 && |b| > 0 && a[0] == b[0] { StrLeTotal(a[1..], b[1..]); }
  }

  lemma StrLeTrans(a: string, b: string, c: string)
    requires StrLe(a, b) && StrLe(b, c)
    ensures StrLe(a, c)
    decreases |a|
  {
    if |a| > 0 && |b| > 0 && |c| > 0 && a[0] == b[0] == c[0] {
      StrLeTrans(a[1..], b[1..], c[1..]);
    }
  }

  lemma StrLeAntisym(a: string, b: string)
    requires StrLe(a, b) && StrLe(b, a)
    ensures a == b
    decreases |a|
  {
    if |a| > 0 && |b| > 0 {
      StrLeAntisym(a[1..], b[1..]);
      assert a == [a[0]] + a[1..] && b == [b[0]] + b[1..];
    }
  }

  lemma StrLeRefl(a: string)
    ensures StrLe(a, a)
  {
    StrLeTotal(a, a);
  }

  /** The characters Python's `str.strip()` removes. */
  predicate IsSpace(c: char)
  {
    c == ' ' || c == '\t' || c == '\n' || c == '\r' || c == '\U{0b}' || c == '\U{0c}'
  }

  function StripLeft(s: string): (r: string)
    ensures |r| <= |s| && r == s[|s| - |r|..]
    ensures |r| > 0 ==> !IsSpace(r[0])
    ensures forall i :: 0 <= i < |s| - |r| ==> IsSpace(s[i])
  {
    if |s| > 0 && IsSpace(s[0]) then StripLeft(s[1..]) else s
  }

  function StripRight(s: string): (r: string)
    ensures |r| <= |s| && r == s[..|r|]
    ensures |r| > 0 ==> !IsSpace(r[|r| - 1])
    ensures forall i :: |r| <= i < |s| ==> IsSpace(s[i])
  {
    if |s| > 0 && IsSpace(s[|s| - 1]) then StripRight(s[..|s| - 1]) else s
  }

  /** `s.strip()`. */
  function Strip(s: string): string
  {
    StripRight(StripLeft(s))
  }

  /** An optional sign followed by the rest of the text. */
  function Signed(t: string): (string, int)
  {
    if |t| > 0 && t[0] == '-' then (t[1..], -1)
    else if |t| > 0 && t[0] == '+' then (t[1..], 1)
    else (t, 1)
  }

  /** `int(s)`: optional surrounding whitespace, an optional sign and
      decimal digits. */
  function IntOfText(s: string): (r: Result<int, string>)
    ensures r.Err? ==> r.error == "ValueError"
  {
    var (digits, sign) := Signed(Strip(s));
    if |digits| > 0 && AllDigits(digits) then Ok(sign * DigitsValue(digits)) else Err("ValueError")
  }

  /** `s[:n]` and `s[n:]`, which clamp `n` to the length. */
  function Take(s: string, n: nat): string { if n <= |s| then s[..n] else s }
  function Drop(s: string, n: nat): string { if n <= |s| then s[n..] else "" }

  /** `os.path.join(a, b)` on POSIX: an absolute `b` replaces `a`; otherwise a
      `/` is inserted unless `a` is empty or already ends with one. */
  function PathJoin(a: string, b: string): (r: string)
    ensures EndsWith(r, b)
    ensures !StartsWith(b, "/") ==> StartsWith(r, a)
  {
    if StartsWith(b, "/") then b
    else if |a| == 0 || EndsWith(a, "/") then a + b
    else a + "/" + b
  }

  /** The last `/`-separated component of a joined path is the name joined
      on, when that name holds no `/`. */
  lemma PathJoinLast(a: string, b: string)
    requires '/' !in b
    ensures Last(Split(PathJoin(a, b), '/')) == b
  {
    var r := PathJoin(a, b);
    assert !StartsWith(b, "/") by {
      if |b| > 0 { assert b[0] in b; }
    }
    if |a| == 0 {
      assert r == b && Split(b, '/') == [b];
    } else if EndsWith(a, "/") {
      assert r == a + b && a[|a| - 1] == '/';
      SplitLastAfter(a[..|a| - 1], b);
      assert a[..|a| - 1] + "/" + b == r;
    } else {
      SplitLastAfter(a, b);
    }
  }

  /** Splitting `x + c + y`, where `x` has no `c`, puts `x` first. */
  lemma SplitFirst(x: string, y: string, c: char)
    requires c !in x
    ensures Split(x + [c] + y, c) == [x] + Split(y, c)
  {
    var s := x + [c] + y;
    assert forall i :: 0 <= i < |x| ==> s[i] == x[i];
    IndexOfIs(s, c, |x|);
    assert s[..|x|] == x && s[|x| + 1..] == y;
  }

  function Last(parts: seq<string>): string
    requires |parts| > 0
  {
    parts[|parts| - 1]
  }

  /** The last part after a leading component without `/` is the last part
      of the rest. */
  lemma SplitLastStep(x: string, rest: string)
    requires '/' !in x
    ensures Last(Split(x + "/" + rest, '/')) == Last(Split(rest, '/'))
  {
    SplitFirst(x, rest, '/');
    var parts := Split(rest, '/');
    assert Last([x] + parts) == Last(parts);
  }

  lemma {:induction false} SplitLastAfter(a: string, b: string)
    requires '/' !in b
    ensures Last(Split(a + "/" + b, '/')) == b
    decreases |a|
  {
    if '/' in a {
      var ka := IndexOf(a, '/');
      var x, y := a[..ka], a[ka + 1..];
      assert a + "/" + b == x + "/" + (y + "/" + b) by {
        assert a == x + "/" + y;
      }
      SplitLastAfter(y, b);
      SplitLastStep(x, y + "/" + b);
    } else {
      SplitLastStep(a, b);
    }
  }

  predicate AllSpace(w: string)
  {
    forall i :: 0 <= i < |w| ==> IsSpace(w[i])
  }

  /** `strip` removes exactly the surrounding whitespace: a text that
      neither starts nor ends with whitespace comes back unchanged. */
  lemma StripSurrounded(w1: string, x: string, w2: string)
    requires AllSpace(w1) && AllSpace(w2)
    requires |x| > 0 ==> !IsSpace(x[0]) && !IsSpace(x[|x| - 1])
    ensures Strip(w1 + x + w2) == x
  {
    if |x| == 0 {
      assert w1 + x + w2 == (w1 + w2) + "";
      StripLeftSpaces(w1 + w2, "");
    } else {
      StripLeftSpaces(w1, x + w2);
      assert w1 + x + w2 == w1 + (x + w2);
      StripRightSpaces(x, w2);
    }
  }

  lemma {:induction false} StripLeftSpaces(w: string, t: string)
    requires AllSpace(w)
    requires |t| > 0 ==> !IsSpace(t[0])
    ensures StripLeft(w + t) == t
  {
    if |w| > 0 {
      assert (w + t)[1..] == w[1..] + t;
      StripLeftSpaces(w[1..], t);
    } else {
      assert w + t == t;
    }
  }

  lemma {:induction false} StripRightSpaces(t: string, w: string)
    requires AllSpace(w)
    requires |t| > 0 ==> !IsSpace(t[|t| - 1])
    ensures StripRight(t + w) == t
  {
    if |w| > 0 {
      assert (t + w)[..|t + w| - 1] == t + w[..|w| - 1];
      StripRightSpaces(t, w[..|w| - 1]);
    } else {
      assert t + w == t;
    }
  }

  /** Joining parts that do not hold the separator and splitting again
      gives the parts back. */
  lemma {:induction false} JoinSplit(parts: seq<string>, c: char)
    requires |parts| >= 1 && forall i :: 0 <= i < |parts| ==> c !in parts[i]
    ensures Split(Join(parts, [c]), c) == parts
  {
    if |parts| == 1 {
      assert Join(parts, [c]) == parts[0];
    } else {
      JoinSplit(parts[1..], c);
      SplitFirst(parts[0], Join(parts[1..], [c]), c);
      assert parts == [parts[0]] + parts[1..];
    }
  }

  /** Whether `sep` occurs in `s` at position `i`. */
  predicate OccursAt(s: string, sep: string, i: nat)
  {
    i + |sep| <= |s| && s[i..i + |sep|] == sep
  }

  /** `s.find(sep)`: the first position of `sep` in `s`, or -1. */
  function Find(s: string, sep: string): (r: int)
    requires |sep| > 0
    ensures -1 <= r < |s|
    ensures r >= 0 ==> OccursAt(s, sep, r) && forall j :: 0 <= j < r ==> !OccursAt(s, sep, j)
    ensures r < 0 ==> forall j :: 0 <= j <= |s| ==> !OccursAt(s, sep, j)
    decreases |s|
  {
    if |s| < |sep| then -1
    else if s[..|sep|] == sep then 0
    else
      var k := Find(s[1..], sep);
      assert forall j :: 1 <= j <= |s| ==> (OccursAt(s, sep, j) <==> OccursAt(s[1..], sep, j - 1)) by {
        forall j | 1 <= j <= |s|
          ensures OccursAt(s, sep, j) <==> OccursAt(s[1..], sep, j - 1)
        {
          if j + |sep| <= |s| {
            assert s[1..][j - 1..j - 1 + |sep|] == s[j..j + |sep|];
          }
        }
      }
      if k < 0 then -1 else k + 1
  }

  /** The first occurrence is found. */
  lemma FindIs(s: string, sep: string, k: nat)
    requires |sep| > 0 && OccursAt(s, sep, k) && forall j :: 0 <= j < k ==> !OccursAt(s, sep, j)
    ensures Find(s, sep) == k
  {
  }

  /** `s.split(sep)` for a separator of any non-zero length: the pieces
      between non-overlapping occurrences, found left to right. */
  function SplitOn(s: string, sep: string): (r: seq<string>)
    requires |sep| > 0
    ensures |r| >= 1
    decreases |s|
  {
    var k := Find(s, sep);
    if k < 0 then [s] else [s[..k]] + SplitOn(s[k + |sep|..], sep)
  }

  /** Splitting at a separator and joining with it gives the string back. */
  lemma {:induction false} SplitOnJoin(s: string, sep: string)
    requires |sep| > 0
    ensures Join(SplitOn(s, sep), sep) == s
    decreases |s|
  {
    var k := Find(s, sep);
    if k >= 0 {
      var rest := s[k + |sep|..];
      SplitOnJoin(rest, sep);
      JoinCons(s[..k], SplitOn(rest, sep), sep);
      Around(s, sep, k);
    }
  }

  lemma JoinCons(head: string, tail: seq<string>, sep: string)
    requires |tail| > 0
    ensures Join([head] + tail, sep) == head + sep + Join(tail, sep)
  {
    assert ([head] + tail)[1..] == tail;
  }

  /** A string is what lies before, at and after an occurrence. */
  lemma Around(s: string, sep: string, k: nat)
    requires OccursAt(s, sep, k)
    ensures s == s[..k] + sep + s[k + |sep|..]
  {
    assert s == s[..k] + s[k..k + |sep|] + s[k + |sep|..];
  }

  /** A string whose characters never start the separator is not split. */
  lemma SplitOnNone(s: string, sep: string)
    requires |sep| > 0 && sep[0] !in s
    ensures SplitOn(s, sep) == [s]
  {
    forall j | 0 <= j < |s| && j + |sep| <= |s|
      ensures !OccursAt(s, sep, j)
    {
      assert s[j..j + |sep|][0] == s[j];
    }
  }

  /** Splitting `x + sep + y`, where no character of `x` starts the
      separator, puts `x` first. */
  lemma SplitOnFirst(x: string, sep: string, y: string)
    requires |sep| > 0 && sep[0] !in x
    ensures SplitOn(x + sep + y, sep) == [x] + SplitOn(y, sep)
  {
    var s := x + sep + y;
    assert s[..|x|] == x && s[|x|..|x| + |sep|] == sep && s[|x| + |sep|..] == y;
    forall j | 0 <= j < |x|
      ensures !OccursAt(s, sep, j)
    {
      assert s[j] == x[j];
      assert s[j..j + |sep|][0] == s[j];
    }
    FindIs(s, sep, |x|);
  }
}
