/** Widget and parameter registration: keys, collision-checked registries,
    module-name rewriting for namespaces, and the collection of parameter
    decorators into a widget. */
module Widgeting {
  import opened Wrappers
  import opened Strings
  import opened Sorting
  import Titles

  const KeyCollision := "KeyCollision"
  const TypeError := "TypeError"

  /** `ParameterBase.key`: the namespace and the name joined by `::`, or the
      bare name when the namespace is missing or empty. */
  function Key(namespace: Option<string>, name: string): (k: string)
    ensures EndsWith(k, name)
    ensures namespace.Some? && |namespace.value| > 0 ==> StartsWith(k, namespace.value + "::")
  {
    if namespace.Some? && |namespace.value| > 0 then namespace.value + "::" + name else name
  }

  /** Namespaced keys identify namespace and name, as long as namespaces
      hold no `:`. */
  lemma KeyInjective(ns1: string, n1: string, ns2: string, n2: string)
    requires |ns1| > 0 && |ns2| > 0 && ':' !in ns1 && ':' !in ns2
    requires Key(Some(ns1), n1) == Key(Some(ns2), n2)
    ensures ns1 == ns2 && n1 == n2
  {
    var k := Key(Some(ns1), n1);
    assert k == ns1 + "::" + n1 && k == ns2 + "::" + n2;
    assert forall i :: 0 <= i < |ns1| ==> k[i] == ns1[i];
    assert forall i :: 0 <= i < |ns2| ==> k[i] == ns2[i];
    IndexOfIs(k, ':', |ns1|);
    IndexOfIs(k, ':', |ns2|);
    assert k[..|ns1|] == ns1 && k[..|ns2|] == ns2;
    assert k[|ns1| + 2..] == n1 && k[|ns2| + 2..] == n2;
  }

  /** Without the namespace condition keys do collide: a bare name can
      spell out a namespaced key. */
  lemma KeyAmbiguous()
    ensures Key(None, "a::b") == Key(Some("a"), "b")
  {
  }

  /** A parameter of a widget (`ParameterBase`). */
  datatype Param = Param(name: string, namespace: Option<string>, title: string, help: Option<string>, kind: string)

  /** `ParameterBase.__init__`: the title defaults to the title-cased name,
      the type to the lower-cased class name. */
  function MakeParam(name: string, namespace: Option<string>, title: Option<string>, help: Option<string>,
                     kind: Option<string>, className: string): (p: Param)
    ensures p.name == name && p.namespace == namespace && p.help == help
    ensures title.None? ==> p.title == Titles.TitleFromName(name)
    ensures kind.None? ==> p.kind == LowerStr(className)
  {
    Param(name, namespace, if title.None? then Titles.TitleFromName(name) else title.value, help,
          if kind.None? then LowerStr(className) else kind.value)
  }

  /** A widget: its own parameter record, its callback and its parameters. */
  datatype Widget = Widget(param: Param, callback: string, params: seq<Param>)

  function KeyOf(w: Widget): string
  {
    Key(w.param.namespace, w.param.name)
  }

  /** One registration: a key already present raises `KeyCollision` and
      changes nothing, otherwise exactly that key is added. */
  function Registering(entries: map<string, Widget>, w: Widget): (r: Result<map<string, Widget>, string>)
    ensures r.Err? <==> KeyOf(w) in entries
    ensures r.Err? ==> r.error == KeyCollision
    ensures r.Ok? ==> r.value.Keys == entries.Keys + {KeyOf(w)} && r.value[KeyOf(w)] == w
    ensures r.Ok? ==> forall k :: k in entries ==> r.value[k] == entries[k]
  {
    if KeyOf(w) in entries then Err(KeyCollision) else Ok(entries[KeyOf(w) := w])
  }

  /** Registering widgets in turn, stopping at the first collision. */
  function RegisterAll(entries: map<string, Widget>, ws: seq<Widget>): Result<map<string, Widget>, string>
  {
    if |ws| == 0 then Ok(entries)
    else match RegisterAll(entries, ws[..|ws| - 1])
      case Err(e) => Err(e)
      case Ok(m) => Registering(m, ws[|ws| - 1])
  }

  /** The keys of the widgets, in order. */
  function KeysOf(ws: seq<Widget>): (r: seq<string>)
    ensures |r| == |ws| && forall i :: 0 <= i < |ws| ==> r[i] == KeyOf(ws[i])
  {
    if |ws| == 0 then [] else KeysOf(ws[..|ws| - 1]) + [KeyOf(ws[|ws| - 1])]
  }

  /** Keys that are all unused and pairwise different. */
  predicate Fresh(used: set<string>, ks: seq<string>)
  {
    (forall i :: 0 <= i < |ks| ==> ks[i] !in used) &&
    (forall i, j :: 0 <= i < j < |ks| ==> ks[i] != ks[j])
  }

  lemma FreshSnoc(used: set<string>, ks: seq<string>)
    requires |ks| > 0
    ensures Fresh(used, ks) <==>
      Fresh(used, ks[..|ks| - 1]) && ks[|ks| - 1] !in used && ks[|ks| - 1] !in ks[..|ks| - 1]
  {
    var init := ks[..|ks| - 1];
    assert forall i :: 0 <= i < |init| ==> init[i] == ks[i];
  }

  /** A series of registrations succeeds iff every key is new and no two
      widgets share a key. */
  lemma {:induction false} RegisterAllOk(entries: map<string, Widget>, ws: seq<Widget>)
    ensures RegisterAll(entries, ws).Ok? <==> Fresh(entries.Keys, KeysOf(ws))
    ensures RegisterAll(entries, ws).Ok? ==>
      RegisterAll(entries, ws).value.Keys == entries.Keys + set k | k in KeysOf(ws)
  {
    if |ws| > 0 {
      var init := ws[..|ws| - 1];
      RegisterAllOk(entries, init);
      FreshSnoc(entries.Keys, KeysOf(ws));
      assert KeysOf(ws) == KeysOf(init) + [KeyOf(ws[|ws| - 1])];
    }
  }

  /** After a successful series of registrations every widget is found
      under its key and the earlier entries are kept. */
  lemma {:induction false} RegisterAllContents(entries: map<string, Widget>, ws: seq<Widget>)
    requires RegisterAll(entries, ws).Ok?
    ensures forall k :: k in entries ==> k in RegisterAll(entries, ws).value && RegisterAll(entries, ws).value[k] == entries[k]
    ensures forall i :: 0 <= i < |ws| ==>
      KeyOf(ws[i]) in RegisterAll(entries, ws).value && RegisterAll(entries, ws).value[KeyOf(ws[i])] == ws[i]
  {
    if |ws| > 0 {
      var init := ws[..|ws| - 1];
      var w := ws[|ws| - 1];
      RegisterAllContents(entries, init);
      var m := RegisterAll(entries, init).value;
      assert RegisterAll(entries, ws) == Registering(m, w);
      var after := Registering(m, w).value;
      forall i | 0 <= i < |ws|
        ensures KeyOf(ws[i]) in after && after[KeyOf(ws[i])] == ws[i]
      {
        if i < |init| {
          assert init[i] == ws[i];
        }
      }
    }
  }

  /** A registry (`make_register`'s target dictionary). */
  class Registry {
    var entries: map<string, Widget>

    constructor ()
      ensures entries == map[]
    {
      entries := map[];
    }

    /** The decorator `make_register` builds, applied to a finished widget. */
    method Register(w: Widget) returns (r: Result<Widget, string>)
      modifies this
      ensures KeyOf(w) in old(entries) ==> r == Err(KeyCollision) && entries == old(entries)
      ensures KeyOf(w) !in old(entries) ==> r == Ok(w) && entries == old(entries)[KeyOf(w) := w]
    {
      var key := KeyOf(w);
      if key in entries {
        return Err(KeyCollision);
      }
      entries := entries[key := w];
      r := Ok(w);
    }
  }

  /** `s.replace(k, v, 1)`: the first occurrence of `k` replaced. */
  function ReplaceFirst(s: string, k: string, v: string): string
    decreases |s|
  {
    if StartsWith(s, k) then v + s[|k|..]
    else if |s| == 0 then s
    else [s[0]] + ReplaceFirst(s[1..], k, v)
  }

  /** The first entry of the module map whose prefix starts the module
      name, in the map's iteration order. */
  function FirstPrefix(mapping: seq<(string, string)>, moduleName: string): (i: Option<nat>)
    ensures i.None? <==> forall j :: 0 <= j < |mapping| ==> !StartsWith(moduleName, mapping[j].0)
    ensures i.Some? ==> i.value < |mapping| && StartsWith(moduleName, mapping[i.value].0)
    ensures i.Some? ==> forall j :: 0 <= j < i.value ==> !StartsWith(moduleName, mapping[j].0)
  {
    if |mapping| == 0 then None
    else if StartsWith(moduleName, mapping[0].0) then Some(0)
    else match FirstPrefix(mapping[1..], moduleName)
      case None => None
      case Some(k) => Some(k + 1)
  }

  /** The module name with its first mapped prefix replaced: the rest of
      the name after the prefix is kept. */
  function Rewritten(moduleName: string, mapping: seq<(string, string)>): (ns: string)
    ensures FirstPrefix(mapping, moduleName).None? ==> ns == moduleName
    ensures FirstPrefix(mapping, moduleName).Some? ==>
      var e := mapping[FirstPrefix(mapping, moduleName).value];
      ns == e.1 + moduleName[|e.0|..]
  {
    match FirstPrefix(mapping, moduleName)
    case None => moduleName
    case Some(i) => ReplaceFirst(moduleName, mapping[i].0, mapping[i].1)
  }

  /** The namespace `make_register` gives a widget: an explicit namespace
      verbatim, otherwise the defining module's name rewritten by the first
      matching prefix of the register's module map. */
  method ChooseNamespace(explicit: Option<string>, moduleName: string, mapping: seq<(string, string)>)
    returns (ns: string)
    ensures explicit.Some? ==> ns == explicit.value
    ensures explicit.None? ==> ns == Rewritten(moduleName, mapping)
  {
    if explicit.Some? {
      return explicit.value;
    }
    ns := moduleName;
    var i := 0;
    while i < |mapping|
      invariant i <= |mapping|
      invariant forall j :: 0 <= j < i ==> !StartsWith(moduleName, mapping[j].0)
    {
      var (k, v) := mapping[i];
      if StartsWith(ns, k) {
        ns := ReplaceFirst(ns, k, v);
        assert FirstPrefix(mapping, moduleName) == Some(i) by {
          FirstPrefixAt(mapping, moduleName, i);
        }
        return;
      }
      i := i + 1;
    }
  }

  lemma {:induction false} FirstPrefixAt(mapping: seq<(string, string)>, moduleName: string, i: nat)
    requires i < |mapping| && StartsWith(moduleName, mapping[i].0)
    requires forall j :: 0 <= j < i ==> !StartsWith(moduleName, mapping[j].0)
    ensures FirstPrefix(mapping, moduleName) == Some(i)
  {
    if i > 0 {
      FirstPrefixAt(mapping[1..], moduleName, i - 1);
    }
  }

  /** What a decorated callback is before it becomes a widget: a function
      with its docstring and the parameters collected so far
      (`__marv_params__`), or a widget already. */
  datatype Callback = Function(fname: string, doc: Option<string>, memo: Option<seq<Param>>) | Made(widget: Widget)

  /** `inspect.getdoc(f)`: the docstring as `inspect.cleandoc` (`clean`)
      leaves it, or `None` when there is none. */
  function GetDoc(f: Callback, clean: string -> string): Option<string>
  {
    if f.Function? && f.doc.Some? then Some(clean(f.doc.value)) else None
  }

  function Memo(f: Callback): seq<Param>
    requires f.Function?
  {
    if f.memo.None? then [] else f.memo.value
  }

  /** `_param_memo`: a widget takes the parameter at the end of its
      parameters, a function at the end of its collected parameters. */
  function ParamMemo(f: Callback, p: Param): (g: Callback)
    ensures g.Made? == f.Made?
    ensures f.Made? ==> g.widget == f.widget.(params := f.widget.params + [p])
    ensures f.Function? ==> g.fname == f.fname && g.doc == f.doc && Memo(g) == Memo(f) + [p]
  {
    match f
    case Made(w) => Made(w.(params := w.params + [p]))
    case Function(fname, doc, memo) => Function(fname, doc, Some(Memo(f) + [p]))
  }

  /** The parameter decorators written above a function, top to bottom,
      applied as Python applies them: the bottom one first. */
  function Decorated(f: Callback, ps: seq<Param>): Callback
    decreases |ps|
  {
    if |ps| == 0 then f else Decorated(ParamMemo(f, ps[|ps| - 1]), ps[..|ps| - 1])
  }

  /** `make_widget`: a widget cannot be made twice; the collected
      parameters are reversed into the widget and removed from the function;
      the help is the explicit text cleaned, or else the cleaned docstring; a missing
      name is the lower-cased function name. */
  function MakeWidget(f: Callback, name: Option<string>, namespace: Option<string>, title: Option<string>,
                      help: Option<string>, className: string, clean: string -> string): (r: Result<(Widget, Callback), string>)
    ensures r.Err? <==> f.Made?
    ensures r.Err? ==> r.error == TypeError
    ensures r.Ok? ==> var (w, g) := r.value;
      w.params == Reverse(Memo(f)) && g == f.(memo := None) && w.callback == f.fname &&
      w.param.name == (if name.None? then LowerStr(f.fname) else name.value) &&
      w.param.namespace == namespace &&
      w.param.help == (if help.None? then GetDoc(f, clean) else Some(clean(help.value)))
  {
    if f.Made? then Err(TypeError)
    else
      var n := if name.None? then LowerStr(f.fname) else name.value;
      var h := if help.None? then GetDoc(f, clean) else Some(clean(help.value));
      Ok((Widget(MakeParam(n, namespace, title, h, None, className), f.fname, Reverse(Memo(f))), f.(memo := None)))
  }

  lemma {:induction false} DecoratedMemo(f: Callback, ps: seq<Param>)
    requires f.Function?
    ensures Decorated(f, ps).Function? && Decorated(f, ps).fname == f.fname
    ensures Memo(Decorated(f, ps)) == Memo(f) + Reverse(ps)
    decreases |ps|
  {
    if |ps| > 0 {
      var last := ps[|ps| - 1];
      var init := ps[..|ps| - 1];
      DecoratedMemo(ParamMemo(f, last), init);
      assert ps == init + [last];
      ReverseAppend(init, [last]);
      assert Reverse([last]) == [last];
    }
  }

  /** Parameters end up in the widget in the order they are written above
      the function, top to bottom. */
  lemma DeclarationOrder(f: Callback, ps: seq<Param>, name: Option<string>, namespace: Option<string>,
                         title: Option<string>, help: Option<string>, className: string, clean: string -> string)
    requires f.Function? && f.memo.None?
    ensures MakeWidget(Decorated(f, ps), name, namespace, title, help, className, clean).Ok?
    ensures MakeWidget(Decorated(f, ps), name, namespace, title, help, className, clean).value.0.params == ps
  {
    DecoratedMemo(f, ps);
    assert Memo(f) + Reverse(ps) == Reverse(ps);
    ReverseTwice(ps);
  }

}
