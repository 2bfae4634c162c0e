/** The decorators that turn classes into database models and functions into
    widgets: table names derived from class names, the list of generated
    models, and the widget factory with its parameter memo. */
module Decorators {
  import opened Wrappers
  import opened Strings
  import opened Sorting
  import Jobs
  import Widgets

  const KeyError := "KeyError"
  const TypeError := "TypeError"

  predicate IsCapital(c: char) { 'A' <= c <= 'Z' }

  /** `re.sub('([A-Z])', '_' + lower, name)`: every capital becomes an
      underscore followed by its lower-case letter. */
  function Snake(name: string): (r: string)
    ensures forall i :: 0 <= i < |r| ==> !IsCapital(r[i])
    ensures |r| >= |name|
  {
    if |name| == 0 then ""
    else (if IsCapital(name[0]) then ['_', Lower(name[0])] else [name[0]]) + Snake(name[1..])
  }

  /** The inverse of `Snake` on names without underscores. */
  function Camel(s: string): string
  {
    if |s| == 0 then ""
    else if s[0] == '_' && |s| >= 2 then [Upper(s[1])] + Camel(s[2..])
    else [s[0]] + Camel(s[1..])
  }

  lemma {:induction false} CamelSnake(name: string)
    requires '_' !in name
    ensures Camel(Snake(name)) == name
  {
    if |name| > 0 {
      assert '_' !in name[1..] by {
        assert forall i :: 0 <= i < |name| - 1 ==> name[1..][i] == name[i + 1];
      }
      CamelSnake(name[1..]);
      var r := Snake(name);
      if IsCapital(name[0]) {
        assert r[0] == '_' && r[1] == Lower(name[0]) && r[2..] == Snake(name[1..]);
      } else {
        assert r[0] == name[0] && r[1..] == Snake(name[1..]);
      }
    }
  }

  /** The table name of a model class: the snake-cased name without its
      first character. */
  function TableName(className: string): (r: string)
    ensures forall i :: 0 <= i < |r| ==> !IsCapital(r[i])
    ensures |className| > 0 && IsCapital(className[0]) ==> "_" + r == Snake(className)
  {
    Drop(Snake(className), 1)
  }

  /** A class name that starts with a capital and has no underscore is
      recovered from its table name. */
  lemma TableNameRoundTrip(className: string)
    requires |className| > 0 && IsCapital(className[0]) && '_' !in className
    ensures Camel("_" + TableName(className)) == className
  {
    CamelSnake(className);
  }

  /** Two such class names never share a table. */
  lemma TableNamesDistinct(a: string, b: string)
    requires |a| > 0 && IsCapital(a[0]) && '_' !in a
    requires |b| > 0 && IsCapital(b[0]) && '_' !in b
    requires a != b
    ensures TableName(a) != TableName(b)
  {
    TableNameRoundTrip(a);
    TableNameRoundTrip(b);
  }

  /** `Bag` gives `bag`, `Model2A` gives `model2_a`, and a name that starts
      with a lower-case letter loses that letter. */
  lemma TableNameExamples()
    ensures TableName("Bag") == "bag"
    ensures TableName("Model2A") == "model2_a"
    ensures TableName("bag") == "ag"
  {
    SnakeLower("ag");
    assert "Bag" == ['B'] + "ag" && "bag" == ['b'] + "ag";
    assert Lower('B') == 'b' && IsCapital('B') && !IsCapital('b');
    TableNameOf("Bag", 'B', "ag", "ag");
    TableNameOf("bag", 'b', "ag", "ag");
    ModelTableName();
  }

  lemma ModelTableName()
    ensures TableName("Model2A") == "model2_a"
  {
    SnakeOdel2A();
    assert IsCapital('M') && Lower('M') == 'm';
    assert "Model2A" == ['M'] + "odel2A";
    TableNameOf("Model2A", 'M', "odel2A", "odel2_a");
  }

  lemma SnakeOdel2A()
    ensures Snake("odel2A") == "odel2_a"
  {
    SnakeLower("odel2");
    SnakeCapital('A');
    SnakeAppend("odel2", "A");
    assert "odel2" + "A" == "odel2A" && "odel2" + "_a" == "odel2_a";
  }

  lemma SnakeCapital(c: char)
    requires IsCapital(c)
    ensures Snake([c]) == ['_', Lower(c)]
  {
    SnakeStep(c, "");
    assert [c] + "" == [c];
  }

  /** The table name of a class name from its first character and the
      snake-cased rest. */
  lemma TableNameOf(className: string, c: char, rest: string, snake: string)
    requires className == [c] + rest && Snake(rest) == snake
    ensures TableName(className) == (if IsCapital(c) then [Lower(c)] else []) + snake
  {
    SnakeStep(c, rest);
  }

  lemma SnakeStep(c: char, s: string)
    ensures Snake([c] + s) == (if IsCapital(c) then ['_', Lower(c)] else [c]) + Snake(s)
  {
    assert ([c] + s)[1..] == s;
  }

  lemma {:induction false} SnakeLower(s: string)
    requires forall i :: 0 <= i < |s| ==> !IsCapital(s[i])
    ensures Snake(s) == s
  {
    if |s| > 0 {
      SnakeLower(s[1..]);
    }
  }

  lemma {:induction false} SnakeAppend(a: string, b: string)
    ensures Snake(a + b) == Snake(a) + Snake(b)
  {
    if |a| > 0 {
      var c := a[0];
      assert a == [c] + a[1..] && a + b == [c] + (a[1..] + b);
      SnakeAppend(a[1..], b);
      SnakeStep(c, a[1..] + b);
      SnakeStep(c, a[1..]);
    } else {
      assert a + b == b;
    }
  }

  /** The table of a job model: `<group>__<jobname>__<table name>`, where the
      job module's package is looked up in the job name map.  A module
      without a dot cannot be unpacked (`ValueError`); a package missing
      from the map raises `KeyError`. */
  function JobModelTable(moduleName: string, className: string, groups: map<string, string>): (r: Result<string, string>)
    ensures r.Err? <==> '.' !in moduleName || Jobs.SplitNamespace(moduleName).value.0 !in groups
    ensures '.' !in moduleName ==> r == Err("ValueError")
    ensures '.' in moduleName && r.Err? ==> r.error == KeyError
    ensures r.Ok? ==>
      var (package, jobname) := Jobs.SplitNamespace(moduleName).value;
      StartsWith(r.value, groups[package] + "__" + jobname + "__") &&
      EndsWith(r.value, "__" + TableName(className))
  {
    match Jobs.SplitNamespace(moduleName)
    case Err(e) => Err(e)
    case Ok((package, jobname)) =>
      if package !in groups then Err(KeyError)
      else
        var r := Join([groups[package], jobname, TableName(className)], "__");
        assert r == groups[package] + "__" + jobname + "__" + TableName(className) by {
          JoinThree(groups[package], jobname, TableName(className), "__");
        }
        Ok(r)
  }

  lemma JoinThree(a: string, b: string, c: string, sep: string)
    ensures Join([a, b, c], sep) == a + sep + b + sep + c
  {
    assert [a, b, c][1..] == [b, c];
    assert [b, c][1..] == [c];
    assert Join([b, c], sep) == b + sep + c;
    assert a + sep + (b + sep + c) == a + sep + b + sep + c;
  }

  /** Models of two classes of one job module have distinct tables. */
  lemma JobModelTablesDistinct(moduleName: string, a: string, b: string, groups: map<string, string>)
    requires |a| > 0 && IsCapital(a[0]) && '_' !in a
    requires |b| > 0 && IsCapital(b[0]) && '_' !in b
    requires a != b
    requires JobModelTable(moduleName, a, groups).Ok?
    ensures JobModelTable(moduleName, b, groups).Ok?
    ensures JobModelTable(moduleName, a, groups).value != JobModelTable(moduleName, b, groups).value
  {
    var (package, jobname) := Jobs.SplitNamespace(moduleName).value;
    var prefix := groups[package] + "__" + jobname + "__";
    JoinThree(groups[package], jobname, TableName(a), "__");
    JoinThree(groups[package], jobname, TableName(b), "__");
    TableNamesDistinct(a, b);
    assert JobModelTable(moduleName, a, groups).value == prefix + TableName(a);
    assert JobModelTable(moduleName, b, groups).value == prefix + TableName(b);
    assert (prefix + TableName(a))[|prefix|..] == TableName(a);
    assert (prefix + TableName(b))[|prefix|..] == TableName(b);
  }

  /** The list of generated models, by table name, in definition order. */
  class ModelList {
    var tables: seq<string>

    constructor ()
      ensures tables == []
    {
      tables := [];
    }

    /** The `fileset` decorator: the table is named after the class. */
    method AddFileset(className: string) returns (table: string)
      modifies this
      ensures table == TableName(className)
      ensures tables == old(tables) + [table]
    {
      table := TableName(className);
      tables := tables + [table];
    }

    /** The `job_model` decorator: nothing is appended when the table name
      cannot be derived. */
    method AddJobModel(moduleName: string, className: string, groups: map<string, string>) returns (r: Result<string, string>)
      modifies this
      ensures r == JobModelTable(moduleName, className, groups)
      ensures r.Ok? ==> tables == old(tables) + [r.value]
      ensures r.Err? ==> tables == old(tables)
    {
      r := JobModelTable(moduleName, className, groups);
      if r.Ok? {
        tables := tables + [r.value];
      }
    }
  }

  /** What a decorated callback is before it becomes a widget: a function,
      perhaps with memoised parameters, or an already made widget. */
  datatype Callback = Function(fname: string, doc: Option<string>, memo: Option<seq<Widgets.WidgetParam>>)
                    | Made(widget: Widgets.Widget)

  /** `inspect.getdoc(f)`: the docstring as `inspect.cleandoc` (`clean`)
      leaves it, or `None` when there is none. */
  function GetDoc(f: Callback, clean: string -> string): Option<string>
  {
    if f.Function? && f.doc.Some? then Some(clean(f.doc.value)) else None
  }

  function Memo(f: Callback): seq<Widgets.WidgetParam>
  {
    if f.Function? && f.memo.Some? then f.memo.value else []
  }

  /** `_param_memo`: a widget takes the parameter at the end of its
      parameters, a function at the end of its memo. */
  function ParamMemo(f: Callback, p: Widgets.WidgetParam): (g: Callback)
    ensures f.Made? ==> g.Made? && g.widget.params == f.widget.params + [p]
    ensures f.Function? ==> g.Function? && g.fname == f.fname && g.doc == f.doc && Memo(g) == Memo(f) + [p]
  {
    match f
    case Made(w) => Made(w.(params := w.params + [p]))
    case Function(_, _, _) => f.(memo := Some(Memo(f) + [p]))
  }

  /** The parameter decorators written above a function, top to bottom;
      the one nearest the function is applied first. */
  function Decorated(f: Callback, ps: seq<Widgets.WidgetParam>): Callback
    decreases |ps|
  {
    if |ps| == 0 then f else Decorated(ParamMemo(f, ps[|ps| - 1]), ps[..|ps| - 1])
  }

  lemma {:induction false} DecoratedMemo(f: Callback, ps: seq<Widgets.WidgetParam>)
    requires f.Function?
    ensures Decorated(f, ps).Function?
    ensures Decorated(f, ps).fname == f.fname && Decorated(f, ps).doc == f.doc
    ensures Memo(Decorated(f, ps)) == Memo(f) + Reverse(ps)
    decreases |ps|
  {
    if |ps| > 0 {
      var last := ps[|ps| - 1];
      DecoratedMemo(ParamMemo(f, last), ps[..|ps| - 1]);
      assert ps == ps[..|ps| - 1] + [last];
      ReverseAppend(ps[..|ps| - 1], [last]);
    }
  }

  /** `_make_widget`: converting a widget again raises `TypeError`; the
      memoised parameters are reversed into the widget and removed from the
      function; help defaults to the cleaned docstring and an explicit help is
      cleaned; a missing or empty name defaults to the lower-cased function
      name. */
  method MakeWidget(f: Callback, name: Option<string>, kind: Widgets.Kind, title: Option<string>,
                    help: Option<string>, clean: string -> string) returns (r: Result<(Widgets.Widget, Callback), string>)
    ensures r.Err? <==> f.Made?
    ensures r.Err? ==> r.error == TypeError
    ensures r.Ok? ==> r.value.0.params == Reverse(Memo(f))
    ensures r.Ok? ==> r.value.0.columns == Widgets.ColumnsOf(Reverse(Memo(f)))
    ensures r.Ok? ==> r.value.1 == f.(memo := None)
    ensures r.Ok? ==> r.value.0.name == if name.None? || name == Some("") then LowerStr(f.fname) else name.value
    ensures r.Ok? ==> r.value.0.help == if help.None? then GetDoc(f, clean) else Some(clean(help.value))
  {
    if f.Made? {
      return Err(TypeError);
    }
    var params := Reverse(Memo(f));
    var h := if help.None? then GetDoc(f, clean) else Some(clean(help.value));
    var n := if name.None? || name == Some("") then LowerStr(f.fname) else name.value;
    var w := Widgets.MakeWidget(n, title, h, kind, None, params);
    r := Ok((w, f.(memo := None)));
  }

  /** Parameters declared above a fresh function reach the widget in the
      order they are written. */
  method DeclarationOrder(fname: string, doc: Option<string>, ps: seq<Widgets.WidgetParam>, kind: Widgets.Kind,
                          clean: string -> string) returns (w: Widgets.Widget)
    ensures w.params == ps
    ensures w.columns == Widgets.ColumnsOf(ps)
  {
    var f := Decorated(Function(fname, doc, None), ps);
    DecoratedMemo(Function(fname, doc, None), ps);
    ReverseTwice(ps);
    var r := MakeWidget(f, None, kind, None, None, clean);
    w := r.value.0;
  }
}
