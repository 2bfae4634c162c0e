/** `marv.job`: the identity of a job (namespace, name and version string),
    the configuration a job is called with, and where its files go. */
module Jobs {
  import opened Wrappers
  import opened Strings

  function HexDigit(d: nat): (c: char)
    requires d < 16
  {
    if d < 10 then ('0' as int + d) as char else ('a' as int + d - 10) as char
  }

  /** Lower-case hexadecimal rendering without leading zeros. */
  function Hex(n: nat): (r: string)
    ensures 1 <= |r|
  {
    if n < 16 then [HexDigit(n)] else Hex(n / 16) + [HexDigit(n % 16)]
  }

  /** `'{0:04x}'.format(n)`: hexadecimal, padded with zeros to at least four
      digits. */
  function Hex04(n: nat): (r: string)
  {
    var h := Hex(n);
    if |h| >= 4 then h else seq(4 - |h|, _ => '0') + h
  }

  /** Below 0x10000 the rendering is exactly the four hexadecimal digits. */
  lemma Hex04Digits(n: nat)
    requires n < 0x10000
    ensures Hex04(n) == [HexDigit(n / 4096), HexDigit(n / 256 % 16), HexDigit(n / 16 % 16), HexDigit(n % 16)]
  {
    if n < 16 {
      Hex04One(n);
    } else if n < 256 {
      Hex04Two(n);
    } else if n < 4096 {
      Hex04Three(n);
    } else {
      Hex04Four(n);
    }
  }

  lemma Hex04One(n: nat)
    requires n < 16
    ensures Hex04(n) == [HexDigit(n / 4096), HexDigit(n / 256 % 16), HexDigit(n / 16 % 16), HexDigit(n % 16)]
  {
    assert Hex(n) == [HexDigit(n)];
  }

  lemma Hex04Two(n: nat)
    requires 16 <= n < 256
    ensures Hex04(n) == [HexDigit(n / 4096), HexDigit(n / 256 % 16), HexDigit(n / 16 % 16), HexDigit(n % 16)]
  {
    assert Hex(n / 16) == [HexDigit(n / 16)];
  }

  lemma Hex04Three(n: nat)
    requires 256 <= n < 4096
    ensures Hex04(n) == [HexDigit(n / 4096), HexDigit(n / 256 % 16), HexDigit(n / 16 % 16), HexDigit(n % 16)]
  {
    assert n / 16 / 16 == n / 256;
    assert n / 256 % 16 == n / 256;
    assert Hex(n / 16) == [HexDigit(n / 256)] + [HexDigit(n / 16 % 16)];
    assert Hex(n) == Hex(n / 16) + [HexDigit(n % 16)];
  }

  lemma Hex04Four(n: nat)
    requires 4096 <= n < 0x10000
    ensures Hex04(n) == [HexDigit(n / 4096), HexDigit(n / 256 % 16), HexDigit(n / 16 % 16), HexDigit(n % 16)]
  {
    var q1, q2 := n / 16, n / 256;
    assert q1 / 16 == q2 && q2 / 16 == n / 4096;
    assert Hex(q2) == [HexDigit(n / 4096)] + [HexDigit(q2 % 16)];
    assert Hex(q1) == Hex(q2) + [HexDigit(q1 % 16)];
    assert Hex(n) == Hex(q1) + [HexDigit(n % 16)];
  }

  lemma HexDigitOrder(a: nat, b: nat)
    requires a < 16 && b < 16
    ensures HexDigit(a) < HexDigit(b) <==> a < b
    ensures HexDigit(a) == HexDigit(b) <==> a == b
  {
  }

  /** A number below 0x10000 from its four hexadecimal digits. */
  lemma FourDigits(n: nat)
    requires n < 0x10000
    ensures n == 4096 * (n / 4096) + 256 * (n / 256 % 16) + 16 * (n / 16 % 16) + n % 16
    ensures n / 4096 < 16
  {
    var q1 := n / 16;
    var q2 := q1 / 16;
    var q3 := q2 / 16;
    assert q2 == n / 256 && q3 == n / 4096;
    assert n == 16 * q1 + n % 16 && q1 == 16 * q2 + q1 % 16 && q2 == 16 * q3 + q2 % 16;
  }

  /** Below 0x10000, the byte-wise order of the renderings is the numeric
      order. */
  lemma Hex04Order(x: nat, y: nat)
    requires x < 0x10000 && y < 0x10000
    ensures |Hex04(x)| == 4 && |Hex04(y)| == 4
    ensures StrLe(Hex04(x), Hex04(y)) <==> x <= y
    ensures Hex04(x) == Hex04(y) <==> x == y
  {
    Hex04Digits(x);
    Hex04Digits(y);
    var a, b := Digits4(x), Digits4(y);
    HexDigitOrder(a[0], b[0]);
    HexDigitOrder(a[1], b[1]);
    HexDigitOrder(a[2], b[2]);
    HexDigitOrder(a[3], b[3]);
    DigitsLex(x, y);
    StrLeFour(Hex04(x), Hex04(y));
  }

  /** The four hexadecimal digits of a number below 0x10000. */
  function Digits4(n: nat): (r: seq<nat>)
    requires n < 0x10000
    ensures |r| == 4 && forall k :: 0 <= k < 4 ==> r[k] < 16
  {
    FourDigits(n);
    [n / 4096, n / 256 % 16, n / 16 % 16, n % 16]
  }

  /** Numeric order is the lexicographic order of the four digits. */
  lemma DigitsLex(x: nat, y: nat)
    requires x < 0x10000 && y < 0x10000
    ensures var a, b := Digits4(x), Digits4(y);
      && (x <= y <==>
            a[0] < b[0] || (a[0] == b[0] && (a[1] < b[1] || (a[1] == b[1] &&
            (a[2] < b[2] || (a[2] == b[2] && a[3] <= b[3]))))))
      && (x == y <==> a[0] == b[0] && a[1] == b[1] && a[2] == b[2] && a[3] == b[3])
  {
    FourDigits(x);
    FourDigits(y);
  }

  /** Byte-wise order of two four-character strings, character by
      character. */
  lemma StrLeFour(hx: string, hy: string)
    requires |hx| == 4 && |hy| == 4
    ensures StrLe(hx, hy) <==>
      hx[0] < hy[0] || (hx[0] == hy[0] && (hx[1] < hy[1] || (hx[1] == hy[1] &&
      (hx[2] < hy[2] || (hx[2] == hy[2] && hx[3] <= hy[3])))))
    ensures hx == hy <==> hx[0] == hy[0] && hx[1] == hy[1] && hx[2] == hy[2] && hx[3] == hy[3]
  {
    StrLeStep(hx, hy);
    StrLeStep(hx[1..], hy[1..]);
    StrLeStep(hx[2..], hy[2..]);
    StrLeStep(hx[3..], hy[3..]);
    assert hx[1..][1..] == hx[2..] && hy[1..][1..] == hy[2..];
    assert hx[2..][1..] == hx[3..] && hy[2..][1..] == hy[3..];
    assert hx[3..][1..] == [] && hy[3..][1..] == [];
  }

  lemma StrLeStep(a: string, b: string)
    requires |a| > 0 && |b| > 0
    ensures StrLe(a, b) == if a[0] != b[0] then a[0] < b[0] else StrLe(a[1..], b[1..])
  {
  }

  /** The job version: each decimal component of the module's
      `__version__` as `'{0:04x}'`, joined with dots. */
  function VersionOf(components: seq<nat>): string
  {
    if |components| == 0 then ""
    else if |components| == 1 then Hex04(components[0])
    else Hex04(components[0]) + "." + VersionOf(components[1..])
  }

  /** Python's tuple order on version components. */
  predicate TupleLe(a: seq<nat>, b: seq<nat>)
  {
    if |a| == 0 then true
    else if |b| == 0 then false
    else if a[0] != b[0] then a[0] < b[0]
    else TupleLe(a[1..], b[1..])
  }

  predicate Small(components: seq<nat>)
  {
    forall i :: 0 <= i < |components| ==> components[i] < 0x10000
  }

  lemma StrLeSamePrefix(p: string, s: string, t: string)
    ensures StrLe(p + s, p + t) <==> StrLe(s, t)
  {
    if |p| > 0 {
      assert (p + s)[1..] == p[1..] + s && (p + t)[1..] == p[1..] + t;
      StrLeSamePrefix(p[1..], s, t);
    } else {
      assert p + s == s && p + t == t;
    }
  }

  lemma {:induction false} StrLeDifferingPrefix(p: string, q: string, s: string, t: string)
    requires |p| == |q| && p != q
    ensures StrLe(p + s, q + t) <==> StrLe(p, q)
  {
    if p[0] == q[0] {
      assert p[1..] != q[1..] by {
        assert p == [p[0]] + p[1..] && q == [q[0]] + q[1..];
      }
      assert (p + s)[1..] == p[1..] + s && (q + t)[1..] == q[1..] + t;
      StrLeDifferingPrefix(p[1..], q[1..], s, t);
    }
  }

  /** What follows the first component in the version string. */
  function After(components: seq<nat>): string
    requires |components| > 0
  {
    if |components| == 1 then "" else "." + VersionOf(components[1..])
  }

  lemma VersionHead(components: seq<nat>)
    requires |components| > 0
    ensures VersionOf(components) == Hex04(components[0]) + After(components)
  {
  }

  /** Differing first components decide the order. */
  lemma VersionHeadsDiffer(a: seq<nat>, b: seq<nat>)
    requires |a| > 0 && |b| > 0 && a[0] < 0x10000 && b[0] < 0x10000 && a[0] != b[0]
    ensures StrLe(VersionOf(a), VersionOf(b)) <==> a[0] < b[0]
  {
    Hex04Order(a[0], b[0]);
    VersionHead(a);
    VersionHead(b);
    StrLeDifferingPrefix(Hex04(a[0]), Hex04(b[0]), After(a), After(b));
  }

  /** Equal first components leave the order to the rest. */
  lemma VersionHeadsEqual(a: seq<nat>, b: seq<nat>)
    requires |a| > 0 && |b| > 0 && a[0] == b[0]
    ensures StrLe(VersionOf(a), VersionOf(b)) <==> StrLe(After(a), After(b))
  {
    VersionHead(a);
    VersionHead(b);
    StrLeSamePrefix(Hex04(a[0]), After(a), After(b));
  }

  /** For components below 0x10000, comparing version strings byte-wise,
      as the job selection does, is comparing the component tuples. */
  lemma {:induction false} VersionOrder(a: seq<nat>, b: seq<nat>)
    requires Small(a) && Small(b)
    ensures StrLe(VersionOf(a), VersionOf(b)) <==> TupleLe(a, b)
  {
    if |a| > 0 && |b| > 0 {
      if a[0] != b[0] {
        VersionHeadsDiffer(a, b);
      } else {
        VersionHeadsEqual(a, b);
        if |a| > 1 && |b| > 1 {
          StrLeSamePrefix(".", VersionOf(a[1..]), VersionOf(b[1..]));
          VersionOrder(a[1..], b[1..]);
        }
      }
    }
  }

  /** `'{0:04x}'.format(i)` for any integer: the hexadecimal digits of the
      magnitude, zero-padded after a minus sign to four characters. */
  function Hex04Signed(i: int): (r: string)
  {
    if i >= 0 then Hex04(i)
    else
      var h := Hex(-i);
      "-" + (if |h| >= 3 then h else seq(3 - |h|, _ => '0') + h)
  }

  /** A negative component keeps its sign in front of the padded digits. */
  lemma Hex04Negative(n: nat)
    requires 0 < n < 16
    ensures Hex04Signed(-(n as int)) == ['-', '0', '0', HexDigit(n)]
    ensures Hex04Signed(n) == ['0', '0', '0', HexDigit(n)]
  {
    assert Hex(n) == [HexDigit(n)];
    assert seq(2, _ => '0') == ['0', '0'];
    assert seq(3, _ => '0') == ['0', '0', '0'];
  }

  /** The components rendered by `'{0:04x}'` and joined with dots. */
  function Rendered(components: seq<int>): string
  {
    if |components| == 0 then ""
    else if |components| == 1 then Hex04Signed(components[0])
    else Hex04Signed(components[0]) + "." + Rendered(components[1..])
  }

  /** For non-negative components the rendering is `VersionOf`. */
  lemma {:induction false} RenderedNatural(components: seq<nat>)
    ensures Rendered(components) == VersionOf(components)
  {
    if |components| > 1 {
      RenderedNatural(components[1..]);
    }
  }

  /** `parse` applied to every dot component, in order; the first
      component it rejects raises its error. */
  function Components(parts: seq<string>, parse: string -> Result<int, string>): (r: Result<seq<int>, string>)
    ensures r.Ok? <==> forall i :: 0 <= i < |parts| ==> parse(parts[i]).Ok?
    ensures r.Ok? ==> |r.value| == |parts| && forall i :: 0 <= i < |parts| ==> r.value[i] == parse(parts[i]).value
    ensures r.Err? ==> exists i :: 0 <= i < |parts| && parse(parts[i]) == Err(r.error)
  {
    if |parts| == 0 then Ok([])
    else match parse(parts[0])
      case Err(e) => Err(e)
      case Ok(v) =>
        assert forall i :: 1 <= i < |parts| ==> parts[1..][i - 1] == parts[i];
        match Components(parts[1..], parse)
        case Err(e) =>
          assert exists i :: 1 <= i < |parts| && parse(parts[i]) == Err(e) by {
            var k :| 0 <= k < |parts[1..]| && parse(parts[1..][k]) == Err(e);
            assert parts[k + 1] == parts[1..][k];
          }
          Err(e)
        case Ok(vs) => Ok([v] + vs)
  }

  /** `Job.__init__`'s version: every dot component of the module's
      `__version__` read by `int()` (surrounding whitespace and a sign
      allowed) and rendered by `'{0:04x}'`; a component `int()` rejects
      raises `ValueError`. */
  function Version(moduleVersion: string): (r: Result<string, string>)
    ensures r.Ok? <==> AllInts(Split(moduleVersion, '.'))
    ensures r.Err? ==> r.error == "ValueError"
  {
    var parts := Split(moduleVersion, '.');
    ComponentsOfInts(parts);
    match Components(parts, IntOfText)
    case Err(_) => Err("ValueError")
    case Ok(values) => Ok(Rendered(values))
  }

  /** Every component is something `int()` accepts. */
  predicate AllInts(parts: seq<string>)
  {
    forall i :: 0 <= i < |parts| ==> IntOfText(parts[i]).Ok?
  }

  lemma ComponentsOfInts(parts: seq<string>)
    ensures Components(parts, IntOfText).Ok? <==> AllInts(parts)
  {
    var parse := IntOfText;
    assert forall i :: 0 <= i < |parts| ==> parse(parts[i]) == IntOfText(parts[i]);
  }

  predicate Numeric(parts: seq<string>)
  {
    forall i :: 0 <= i < |parts| ==> |parts[i]| > 0 && AllDigits(parts[i])
  }

  /** `int()` of a run of decimal digits is its value. */
  lemma IntOfDigits(p: string)
    requires |p| > 0 && AllDigits(p)
    ensures IntOfText(p) == Ok(DigitsValue(p))
  {
    assert IsDigit(p[0]) && IsDigit(p[|p| - 1]);
    StripUnsigned(p);
    IntOfPlain(p);
  }

  /** A text that neither starts nor ends with whitespace and starts with
      no sign is its own stripped, unsigned form. */
  lemma StripUnsigned(p: string)
    requires |p| > 0 && !IsSpace(p[0]) && !IsSpace(p[|p| - 1]) && p[0] != '-' && p[0] != '+'
    ensures Strip(p) == p && Signed(p) == (p, 1)
  {
    StripSurrounded("", p, "");
    assert "" + p + "" == p;
  }

  lemma IntOfPlain(p: string)
    requires |p| > 0 && AllDigits(p) && Strip(p) == p && Signed(p) == (p, 1)
    ensures IntOfText(p) == Ok(DigitsValue(p))
  {
  }

  /** A version of digit-only components is `VersionOf` their values, so
      `VersionOrder` applies to it. */
  lemma VersionOfDigits(moduleVersion: string)
    requires Numeric(Split(moduleVersion, '.'))
    ensures var parts := Split(moduleVersion, '.');
      Version(moduleVersion) == Ok(VersionOf(seq(|parts|, i requires 0 <= i < |parts| => DigitsValue(parts[i]))))
  {
    var parts := Split(moduleVersion, '.');
    var values: seq<nat> := seq(|parts|, i requires 0 <= i < |parts| => DigitsValue(parts[i]));
    forall i | 0 <= i < |parts|
      ensures IntOfText(parts[i]) == Ok(values[i])
    {
      IntOfDigits(parts[i]);
    }
    var r := Components(parts, IntOfText);
    assert r.Ok?;
    assert |r.value| == |values|;
    assert forall i :: 0 <= i < |values| ==> r.value[i] == values[i];
    assert r.value == values;
    RenderedNatural(values);
  }

  /** `kw['namespace'].rsplit('.', 1)` unpacked into namespace and name;
      without a dot the unpacking raises `ValueError`. */
  function SplitNamespace(qualified: string): (r: Result<(string, string), string>)
    ensures r.Err? <==> '.' !in qualified
    ensures r.Ok? ==> r.value.0 + "." + r.value.1 == qualified && '.' !in r.value.1
  {
    if '.' !in qualified then Err("ValueError")
    else
      var k := LastIndexOf(qualified, '.');
      assert qualified == qualified[..k] + "." + qualified[k + 1..];
      Ok((qualified[..k], qualified[k + 1..]))
  }

  function LastIndexOf(s: string, c: char): (k: nat)
    requires c in s
    ensures k < |s| && s[k] == c && c !in s[k + 1..]
  {
    if s[|s| - 1] == c then |s| - 1
    else
      assert c in s[..|s| - 1] by {
        var i :| 0 <= i < |s| && s[i] == c;
        assert s[..|s| - 1][i] == c;
      }
      LastIndexOf(s[..|s| - 1], c)
  }

  /** `Job.__call__`: the effective configuration is every keyword argument
      except `messages`. */
  function CallConfig<V>(kw: map<string, V>): (cfg: map<string, V>)
    ensures "messages" !in cfg
    ensures forall k :: k in cfg <==> k in kw && k != "messages"
    ensures forall k :: k in cfg ==> cfg[k] == kw[k]
  {
    kw - {"messages"}
  }

  /** `JobContext`'s file directory: `<instance>/jobruns/<group>/<name>/<id>`. */
  function JobfileDir(instance: string, group: string, name: string, jobrunId: nat): string
  {
    PathJoin(PathJoin(PathJoin(PathJoin(instance, "jobruns"), group), name), Decimal(jobrunId))
  }

  /** Splitting `a + c + b`, where `b` has no `c`, puts `b` last. */
  lemma {:induction false} SplitAppend(a: string, b: string, c: char)
    requires c !in b
    ensures Split(a + [c] + b, c) == Split(a, c) + [b]
    decreases |a|
  {
    var s := a + [c] + b;
    if c in a {
      var k := IndexOf(a, c);
      assert forall i :: 0 <= i < k ==> s[i] == a[i];
      IndexOfIs(s, c, k);
      assert s[..k] == a[..k];
      assert s[k + 1..] == a[k + 1..] + [c] + b;
      SplitAppend(a[k + 1..], b, c);
    } else {
      SplitFirst(a, b, c);
      assert Split(b, c) == [b];
    }
  }

  lemma JoinPlain(a: string, b: string)
    requires |a| > 0 && a[|a| - 1] != '/' && |b| > 0 && '/' !in b
    ensures PathJoin(a, b) == a + "/" + b
    ensures Split(PathJoin(a, b), '/') == Split(a, '/') + [b]
    ensures |PathJoin(a, b)| > 0 && PathJoin(a, b)[|PathJoin(a, b)| - 1] != '/'
  {
    assert b[0] in b;
    assert !StartsWith(b, "/");
    assert b[|b| - 1] in b;
    SplitAppend(a, b, '/');
  }

  /** The directory's last four components are `jobruns`, the group, the
      name and the decimal jobrun id. */
  lemma JobfileDirComponents(instance: string, group: string, name: string, jobrunId: nat)
    requires |instance| > 0 && instance[|instance| - 1] != '/'
    requires |group| > 0 && '/' !in group && |name| > 0 && '/' !in name
    ensures Split(JobfileDir(instance, group, name, jobrunId), '/') ==
      Split(instance, '/') + ["jobruns", group, name, Decimal(jobrunId)]
  {
    var d := Decimal(jobrunId);
    assert '/' !in d by {
      assert forall i :: 0 <= i < |d| ==> IsDigit(d[i]);
    }
    var p1 := PathJoin(instance, "jobruns");
    assert Split(p1, '/') == Split(instance, '/') + ["jobruns"] && |p1| > 0 && p1[|p1| - 1] != '/' by {
      JoinPlain(instance, "jobruns");
    }
    var p2 := PathJoin(p1, group);
    assert Split(p2, '/') == Split(p1, '/') + [group] && |p2| > 0 && p2[|p2| - 1] != '/' by {
      JoinPlain(p1, group);
    }
    var p3 := PathJoin(p2, name);
    assert Split(p3, '/') == Split(p2, '/') + [name] && |p3| > 0 && p3[|p3| - 1] != '/' by {
      JoinPlain(p2, name);
    }
    assert Split(PathJoin(p3, d), '/') == Split(p3, '/') + [d] by {
      JoinPlain(p3, d);
    }
    assert JobfileDir(instance, group, name, jobrunId) == PathJoin(p3, d);
    var si := Split(instance, '/');
    AppendFour(si, "jobruns", group, name, d);
  }

  lemma AppendFour<T>(s: seq<T>, a: T, b: T, c: T, d: T)
    ensures s + [a] + [b] + [c] + [d] == s + [a, b, c, d]
  {
  }

  /** A declared parameter of a job function: its configuration options and
      its message inputs (with the topics they ask for). */
  datatype Param = Config(name: string) | Input(name: string, topics: set<string>) | Other(name: string)

  /** `Job.configs` and `Job.inputs`: the parameters of each kind in
      declaration order. */
  function Configs(params: seq<Param>): (r: seq<Param>)
    ensures forall p :: p in r <==> p in params && p.Config?
  {
    if |params| == 0 then []
    else (if params[0].Config? then [params[0]] else []) + Configs(params[1..])
  }

  function Inputs(params: seq<Param>): (r: seq<Param>)
    ensures forall p :: p in r <==> p in params && p.Input?
  {
    if |params| == 0 then []
    else (if params[0].Input? then [params[0]] else []) + Inputs(params[1..])
  }
}
