/** The job runner of the `bagbunker` command line: the nested job
    configuration, the choice of jobs, the per-fileset selection of jobs and
    topics, the fan-out of read messages to the job inboxes, and the job
    runs `purge-jobruns` deletes. */
module Cli {
  import opened Wrappers
  import opened Strings
  import opened Seqs
  import opened Model
  import JobQueues

  // ---------------------------------------------------------------------
  // read_config

  /** A configuration entry: a value, or a section of further entries. */
  datatype Node = Value(text: string) | Section(entries: map<string, Node>)

  const AttributeError := "AttributeError"
  const TypeError := "TypeError"
  const KeyError := "KeyError"
  const IndexError := "IndexError"

  function KeysOf(items: seq<(string, string)>): set<string>
  {
    set i | 0 <= i < |items| :: items[i].0
  }

  /** `items[i]` is the last binding of its key. */
  predicate LastBinding(items: seq<(string, string)>, i: int)
    requires 0 <= i < |items|
  {
    forall j :: i < j < |items| ==> items[j].0 != items[i].0
  }

  /** Storing the keys of one configuration section, in order, into a
      section: the last binding of each key wins and every other entry is
      left as it was. */
  /** The keys and last bindings of a list of items with one item more. */
  lemma AssignStep(items: seq<(string, string)>)
    requires |items| > 0
    ensures var init := items[..|items| - 1];
      && KeysOf(items) == KeysOf(init) + {items[|items| - 1].0}
      && (forall i :: 0 <= i < |init| ==> init[i] == items[i])
      && forall i :: 0 <= i < |init| && LastBinding(items, i) ==>
           LastBinding(init, i) && items[i].0 != items[|items| - 1].0
  {
    var init := items[..|items| - 1];
    var last := items[|items| - 1];
    assert forall i :: 0 <= i < |init| ==> init[i] == items[i];
    forall k | k in KeysOf(items) ensures k in KeysOf(init) + {last.0} {
      var i :| 0 <= i < |items| && items[i].0 == k;
      if i < |init| { assert init[i].0 == k; }
    }
  }

  function Assign(m: map<string, Node>, items: seq<(string, string)>): (r: map<string, Node>)
    ensures forall k :: k !in KeysOf(items) ==> (k in r <==> k in m) && (k in m ==> r[k] == m[k])
    ensures forall i :: 0 <= i < |items| && LastBinding(items, i) ==>
      items[i].0 in r && r[items[i].0] == Value(items[i].1)
  {
    if |items| == 0 then m
    else
      var init := items[..|items| - 1];
      var last := items[|items| - 1];
      AssignStep(items);
      Assign(m, init)[last.0 := Value(last.1)]
  }

  /** The entry at a path of keys, if every step on the way is a section. */
  function Lookup(m: map<string, Node>, q: seq<string>): Option<Node>
    decreases |q|
  {
    if |q| == 0 then Some(Section(m))
    else if q[0] !in m then None
    else if |q| == 1 then Some(m[q[0]])
    else match m[q[0]]
      case Value(_) => None
      case Section(sub) => Lookup(sub, q[1..])
  }

  predicate ValueAt(m: map<string, Node>, q: seq<string>)
  {
    Lookup(m, q).Some? && Lookup(m, q).value.Value?
  }

  predicate IsPrefix(p: seq<string>, q: seq<string>)
  {
    |p| <= |q| && q[..|p|] == p
  }

  /** One section of `read_config`: the `setdefault` chain along the dotted
      section name, then the assignment of the section's keys.  A value met
      before the last step has no `setdefault` (an `AttributeError`); a
      value met at the last step takes no item assignment (a `TypeError`)
      unless the section has no keys. */
  function Place(m: map<string, Node>, path: seq<string>, items: seq<(string, string)>): Result<map<string, Node>, string>
    requires |path| >= 1
    decreases |path|
  {
    var child := if path[0] in m then m[path[0]] else Section(map[]);
    match child
    case Value(_) =>
      if |path| > 1 then Err(AttributeError)
      else if |items| == 0 then Ok(m)
      else Err(TypeError)
    case Section(sub) =>
      if |path| == 1 then Ok(m[path[0] := Section(Assign(sub, items))])
      else match Place(sub, path[1..], items)
        case Err(e) => Err(e)
        case Ok(sub') => Ok(m[path[0] := Section(sub')])
  }

  /** A lookup below a missing or fresh key finds nothing. */
  lemma LookupEmpty(q: seq<string>)
    requires |q| >= 1
    ensures Lookup(map[], q) == None
  {
  }

  /** A lookup through `path[0]` only sees the entry under `path[0]`. */
  lemma LookupStep(m: map<string, Node>, q: seq<string>, sub: map<string, Node>)
    requires |q| >= 2
    requires q[0] in m ==> m[q[0]] == Section(sub)
    requires q[0] !in m ==> sub == map[]
    ensures Lookup(m, q) == Lookup(sub, q[1..])
  {
    if q[0] !in m {
      LookupEmpty(q[1..]);
    }
  }

  /** A section's keys are found under the section's path. */
  lemma {:induction false} PlaceSets(m: map<string, Node>, path: seq<string>, items: seq<(string, string)>, i: nat)
    requires |path| >= 1 && Place(m, path, items).Ok?
    requires i < |items| && LastBinding(items, i)
    ensures Lookup(Place(m, path, items).value, path + [items[i].0]) == Some(Value(items[i].1))
    decreases |path|
  {
    var r := Place(m, path, items).value;
    var child := if path[0] in m then m[path[0]] else Section(map[]);
    assert child.Section?;
    var sub := child.entries;
    var q := path + [items[i].0];
    assert q[0] == path[0] && q[1..] == path[1..] + [items[i].0];
    if |path| == 1 {
      assert r == m[path[0] := Section(Assign(sub, items))];
    } else {
      PlaceSets(sub, path[1..], items, i);
    }
  }

  /** Everything that is neither on the section's path nor one of the
      section's own keys is left as it was: sections sharing a prefix share
      the intermediate entries. */
  lemma {:induction false} PlaceKeeps(m: map<string, Node>, path: seq<string>, items: seq<(string, string)>, q: seq<string>)
    requires |path| >= 1 && Place(m, path, items).Ok?
    requires !IsPrefix(q, path)
    requires !(IsPrefix(path, q) && |q| > |path| && q[|path|] in KeysOf(items))
    ensures Lookup(Place(m, path, items).value, q) == Lookup(m, q)
    decreases |path|
  {
    var r := Place(m, path, items).value;
    var child := if path[0] in m then m[path[0]] else Section(map[]);
    assert IsPrefix([], path);
    assert |q| >= 1;
    if child.Value? {
      assert r == m;
    } else if q[0] != path[0] {
      assert r == m[path[0] := r[path[0]]];
    } else {
      assert path[..1] == [path[0]];
      assert q[..1] == path[..1];
      assert |q| >= 2;
      var sub := child.entries;
      if |path| == 1 {
        var sub' := Assign(sub, items);
        assert r == m[path[0] := Section(sub')];
        assert IsPrefix(path, q);
        assert q[1] !in KeysOf(items);
        LookupStep(r, q, sub');
        LookupStep(m, q, sub);
        assert Lookup(sub', q[1..]) == Lookup(sub, q[1..]);
      } else {
        var sub' := Place(sub, path[1..], items).value;
        assert r == m[path[0] := Section(sub')];
        PrefixTail(q, path);
        PrefixTail(path, q);
        PlaceKeeps(sub, path[1..], items, q[1..]);
        LookupStep(r, q, sub');
        LookupStep(m, q, sub);
      }
    }
  }

  lemma PrefixTail(p: seq<string>, q: seq<string>)
    requires |p| >= 1 && |q| >= 1 && p[0] == q[0]
    ensures IsPrefix(p, q) <==> IsPrefix(p[1..], q[1..])
  {
    if |p| <= |q| {
      assert q[..|p|] == [q[0]] + q[1..][..|p| - 1];
      assert p == [p[0]] + p[1..];
    }
  }

  /** A section fails to load exactly when a value lies on its path: before
      the last step, or at it when the section has keys to store. */
  lemma {:induction false} PlaceFails(m: map<string, Node>, path: seq<string>, items: seq<(string, string)>)
    requires |path| >= 1
    ensures Place(m, path, items).Err? <==>
      exists j :: 1 <= j <= |path| && ValueAt(m, path[..j]) && (j < |path| || |items| > 0)
    decreases |path|
  {
    var child := if path[0] in m then m[path[0]] else Section(map[]);
    assert path[..1] == [path[0]];
    if child.Value? {
      forall j | 2 <= j <= |path| ensures !ValueAt(m, path[..j]) {
        assert path[..j][0] == path[0];
      }
      if Place(m, path, items).Err? {
        assert ValueAt(m, path[..1]);
      }
    } else if |path| == 1 {
      assert !ValueAt(m, path[..1]);
    } else {
      var sub := child.entries;
      PlaceFails(sub, path[1..], items);
      assert !ValueAt(m, path[..1]);
      forall j | 2 <= j <= |path|
        ensures ValueAt(m, path[..j]) == ValueAt(sub, path[1..][..j - 1])
      {
        assert path[..j][0] == path[0] && path[..j][1..] == path[1..][..j - 1];
        LookupStep(m, path[..j], sub);
      }
      if Place(m, path, items).Err? {
        var j' :| 1 <= j' <= |path[1..]| && ValueAt(sub, path[1..][..j']) && (j' < |path[1..]| || |items| > 0);
        assert ValueAt(m, path[..j' + 1]);
      } else {
        forall j | 1 <= j <= |path| && ValueAt(m, path[..j]) ensures !(j < |path| || |items| > 0) {
          assert ValueAt(sub, path[1..][..j - 1]);
        }
      }
    }
  }

  /** `read_config` over the parsed sections, in file order. */
  function Configured(sections: seq<(string, seq<(string, string)>)>): Result<map<string, Node>, string>
  {
    if |sections| == 0 then Ok(map[])
    else match Configured(sections[..|sections| - 1])
      case Err(e) => Err(e)
      case Ok(m) =>
        var s := sections[|sections| - 1];
        Place(m, Split(s.0, '.'), s.1)
  }

  /** Once a section fails, reading stops with that error. */
  lemma {:induction false} ConfiguredStops(sections: seq<(string, seq<(string, string)>)>, i: nat)
    requires i <= |sections| && Configured(sections[..i]).Err?
    ensures Configured(sections) == Configured(sections[..i])
    decreases |sections| - i
  {
    if i < |sections| {
      assert sections[..i + 1][..i] == sections[..i];
      ConfiguredStops(sections, i + 1);
    } else {
      assert sections[..i] == sections;
    }
  }

  /** The loop of `read_config`. */
  method ReadConfig(sections: seq<(string, seq<(string, string)>)>) returns (cfg: Result<map<string, Node>, string>)
    ensures cfg == Configured(sections)
  {
    var m: map<string, Node> := map[];
    for i := 0 to |sections|
      invariant Configured(sections[..i]) == Ok(m)
    {
      assert sections[..i + 1][..i] == sections[..i];
      var r := Place(m, Split(sections[i].0, '.'), sections[i].1);
      if r.Err? {
        ConfiguredStops(sections, i + 1);
        return r;
      }
      m := r.value;
    }
    assert sections[..|sections|] == sections;
    cfg := Ok(m);
  }

  /** Sections `a.b` and `a.c` end up side by side under `a`. */
  lemma SharedPrefixExample()
    ensures Configured([("a.b", [("x", "1")]), ("a.c", [("y", "2")])]) ==
      Ok(map["a" := Section(map["b" := Section(map["x" := Value("1")]),
                               "c" := Section(map["y" := Value("2")])])])
  {
    var s: seq<(string, seq<(string, string)>)> := [("a.b", [("x", "1")]), ("a.c", [("y", "2")])];
    var items2: seq<(string, string)> := [("y", "2")];
    var b := Section(map["x" := Value("1")]);
    var c := Section(map["y" := Value("2")]);
    var m1 := map["a" := Section(map["b" := b])];
    SharedPrefixFirst();
    assert s[..|s| - 1] == [("a.b", [("x", "1")])] && s[1] == ("a.c", items2);
    ConfiguredLast(s, m1);
    DottedPair("a.c", "a", "c");
    AssignOne("y", "2");
    PlaceNew(m1, "a", "c", items2);
    assert m1["a" := Section(map["b" := b]["c" := c])] == map["a" := Section(map["b" := b, "c" := c])];
  }

  lemma SharedPrefixFirst()
    ensures Configured([("a.b", [("x", "1")])]) == Ok(map["a" := Section(map["b" := Section(map["x" := Value("1")])])])
  {
    var s1: seq<(string, seq<(string, string)>)> := [("a.b", [("x", "1")])];
    var items1: seq<(string, string)> := [("x", "1")];
    DottedPair("a.b", "a", "b");
    AssignOne("x", "1");
    assert s1[..0] == [] && s1[0] == ("a.b", items1);
    ConfiguredLast(s1, map[]);
    PlaceNew(map[], "a", "b", items1);
  }

  /** A section name with one dot names a section inside a section. */
  lemma DottedPair(name: string, a: string, b: string)
    requires name == a + ['.'] + b && '.' !in a && '.' !in b
    ensures Split(name, '.') == [a, b]
  {
    SplitFirst(a, b, '.');
  }

  lemma ConfiguredLast(sections: seq<(string, seq<(string, string)>)>, m: map<string, Node>)
    requires |sections| > 0 && Configured(sections[..|sections| - 1]) == Ok(m)
    ensures Configured(sections) == Place(m, Split(sections[|sections| - 1].0, '.'), sections[|sections| - 1].1)
  {
  }

  /** A two-part section name whose second part is new under the first. */
  lemma PlaceNew(m: map<string, Node>, a: string, b: string, items: seq<(string, string)>)
    requires a !in m || (m[a].Section? && b !in m[a].entries)
    ensures Place(m, [a, b], items) ==
      Ok(m[a := Section((if a in m then m[a].entries else map[])[b := Section(Assign(map[], items))])])
  {
    var path := [a, b];
    assert path[1..] == [b];
  }

  lemma AssignOne(k: string, v: string)
    ensures Assign(map[], [(k, v)]) == map[k := Value(v)]
  {
    var items := [(k, v)];
    assert items[..0] == [];
  }

  // ---------------------------------------------------------------------
  // The job list

  /** How `run-jobs` goes on: show the help text, run the named jobs, or
      stop on an exception raised while choosing them. */
  datatype Choice = ShowHelp | Chosen(names: seq<string>) | Raised(error: string)

  /** `filter(None, parts)`: the non-empty parts, in order. */
  function NonEmpty(parts: seq<string>): (r: seq<string>)
    ensures forall x :: x in r <==> x in parts && x != ""
    ensures |r| <= |parts|
  {
    if |parts| == 0 then []
    else (if parts[0] == "" then [] else [parts[0]]) + NonEmpty(parts[1..])
  }

  /** `filter` keeps the order and the multiplicity of the parts: it works
      piecewise over a concatenation ... */
  lemma {:induction false} NonEmptyAppend(a: seq<string>, b: seq<string>)
    ensures NonEmpty(a + b) == NonEmpty(a) + NonEmpty(b)
  {
    if |a| == 0 {
      assert a + b == b;
    } else {
      assert (a + b)[1..] == a[1..] + b;
      NonEmptyAppend(a[1..], b);
    }
  }

  /** ... and each single part is kept exactly when it is not empty. */
  lemma NonEmptySingle(x: string)
    ensures NonEmpty([x]) == if x == "" then [] else [x]
  {
    assert [x][1..] == [];
  }

  /** The space-separated `list` entry of the `[job]` section with empty
      words dropped; an entry that is a section where a value is expected
      has no `get` or no `split`. */
  function ConfiguredJobs(cfg: map<string, Node>): (r: Result<seq<string>, string>)
    ensures r.Ok? ==> forall x :: x in r.value ==> x != "" && ' ' !in x
    ensures r.Err? <==>
      ("job" in cfg && (cfg["job"].Value? || ("list" in cfg["job"].entries && cfg["job"].entries["list"].Section?)))
    ensures r.Ok? && "job" in cfg && "list" in cfg["job"].entries ==>
      r.value == NonEmpty(Split(cfg["job"].entries["list"].text, ' '))
    ensures r.Ok? && !("job" in cfg && "list" in cfg["job"].entries) ==> r.value == []
  {
    var job := if "job" in cfg then cfg["job"] else Section(map[]);
    match job
    case Value(_) => Err(AttributeError)
    case Section(entries) =>
      var list := if "list" in entries then entries["list"] else Value("");
      match list
      case Section(_) => Err(AttributeError)
      case Value(text) => Ok(NonEmpty(Split(text, ' ')))
  }

  /** The jobs `run-jobs` runs, from the first source that gives any: the
      invoked subcommand, the `--job` options, the configured job list, and
      all registered jobs.  Without a subcommand, `--all` or `--job` only the
      help text is shown. */
  function JobList(invoked: Option<string>, all: bool, jobs: seq<string>, cfg: map<string, Node>,
                   registered: seq<string>): (r: Choice)
    ensures r.ShowHelp? <==> invoked.None? && !all && |jobs| == 0
    ensures invoked.Some? ==> r == Chosen([invoked.value])
    ensures invoked.None? && |jobs| > 0 ==> r == Chosen(jobs)
    ensures r.Raised? <==> invoked.None? && all && |jobs| == 0 && ConfiguredJobs(cfg).Err?
    ensures r.Chosen? && invoked.None? && |jobs| == 0 ==>
      ConfiguredJobs(cfg).Ok? &&
      (|ConfiguredJobs(cfg).value| > 0 ==> r.names == ConfiguredJobs(cfg).value) &&
      (|ConfiguredJobs(cfg).value| == 0 ==> r.names == registered)
  {
    if invoked.None? && !all && |jobs| == 0 then ShowHelp
    else if invoked.Some? then Chosen([invoked.value])
    else if |jobs| > 0 then Chosen(jobs)
    else match ConfiguredJobs(cfg)
      case Err(e) => Raised(e)
      case Ok(listed) => if |listed| > 0 then Chosen(listed) else Chosen(registered)
  }

  /** A registered job: its version string, its namespace and the topics
      of each of its inputs. */
  datatype Registered = Registered(version: string, namespace: string, inputs: seq<set<string>>)

  /** A job command as the selection sees it: the topics of its first
      input stand for the topics it consumes. */
  datatype Cmd = Cmd(name: string, version: string, group: string, topics: set<string>)

  predicate Runnable(registry: map<string, Registered>, name: string)
  {
    name in registry && |registry[name].inputs| > 0
  }

  function CmdOf(name: string, job: Registered): Cmd
    requires |job.inputs| > 0
  {
    Cmd(name, job.version, job.namespace, job.inputs[0])
  }

  /** The position of the first name that cannot be made a command, or
      the length of the list when there is none. */
  function FirstUnrunnable(names: seq<string>, registry: map<string, Registered>): (k: nat)
    ensures k <= |names|
    ensures forall i :: 0 <= i < k ==> Runnable(registry, names[i])
    ensures k < |names| ==> !Runnable(registry, names[k])
  {
    if |names| == 0 || !Runnable(registry, names[0]) then 0
    else 1 + FirstUnrunnable(names[1..], registry)
  }

  /** `cmdlist`: one command per listed name; the first name that is not
      registered raises `KeyError`, the first registered job without inputs
      `IndexError`. */
  function Commands(names: seq<string>, registry: map<string, Registered>): (r: Result<seq<Cmd>, string>)
    ensures r.Ok? <==> forall i :: 0 <= i < |names| ==> Runnable(registry, names[i])
    ensures r.Ok? ==> |r.value| == |names|
    ensures r.Ok? ==> forall i :: 0 <= i < |names| ==> r.value[i] == CmdOf(names[i], registry[names[i]])
    ensures r.Err? ==> (var k := FirstUnrunnable(names, registry);
      k < |names| && r.error == (if names[k] in registry then IndexError else KeyError))
  {
    if |names| == 0 then Ok([])
    else if names[0] !in registry then Err(KeyError)
    else if |registry[names[0]].inputs| == 0 then Err(IndexError)
    else
      assert forall i :: 0 <= i < |names| - 1 ==> names[1..][i] == names[i + 1];
      match Commands(names[1..], registry)
      case Err(e) => Err(e)
      case Ok(rest) => Ok([CmdOf(names[0], registry[names[0]])] + rest)
  }

  // ---------------------------------------------------------------------
  // Selection of jobs and topics per fileset

  /** A run of the named job that succeeded or failed, as opposed to one
      that was aborted. */
  predicate Completed(run: Jobrun, name: string)
  {
    run.name == name && (run.succeeded || run.failed)
  }

  /** `max(Jobrun.version)` over the completed runs of a job, comparing the
      version strings byte by byte. */
  function MaxVersion(runs: seq<Jobrun>, name: string): (r: Option<string>)
    ensures r.None? <==> forall i :: 0 <= i < |runs| ==> !Completed(runs[i], name)
    ensures r.Some? ==> exists i :: 0 <= i < |runs| && Completed(runs[i], name) && runs[i].version == r.value
    ensures r.Some? ==> forall i :: 0 <= i < |runs| && Completed(runs[i], name) ==> StrLe(runs[i].version, r.value)
  {
    if |runs| == 0 then None
    else
      var init := runs[..|runs| - 1];
      var last := runs[|runs| - 1];
      var prev := MaxVersion(init, name);
      assert forall i :: 0 <= i < |init| ==> init[i] == runs[i];
      if !Completed(last, name) then prev
      else if prev.None? then
        StrLeRefl(last.version);
        Some(last.version)
      else if StrLe(prev.value, last.version) then
        assert forall i :: 0 <= i < |runs| && Completed(runs[i], name) ==> StrLe(runs[i].version, last.version) by {
          forall i | 0 <= i < |runs| && Completed(runs[i], name)
            ensures StrLe(runs[i].version, last.version)
          {
            if i < |init| {
              StrLeTrans(runs[i].version, prev.value, last.version);
            } else {
              StrLeRefl(last.version);
            }
          }
        }
        Some(last.version)
      else
        StrLeTotal(prev.value, last.version);
        Some(prev.value)
  }

  /** The skip rule of `run-jobs`: unless forced, a job is not run again on
      a fileset when its version does not exceed the largest version among
      its completed runs there. */
  predicate Skipped(force: bool, cmd: Cmd, runs: seq<Jobrun>)
  {
    !force && MaxVersion(runs, cmd.name).Some? && StrLe(cmd.version, MaxVersion(runs, cmd.name).value)
  }

  /** Skipping means exactly that some completed run of the job carries a
      version at least as large as the job's. */
  lemma SkippedIff(force: bool, cmd: Cmd, runs: seq<Jobrun>)
    ensures Skipped(force, cmd, runs) <==>
      !force && exists i :: 0 <= i < |runs| && Completed(runs[i], cmd.name) && StrLe(cmd.version, runs[i].version)
  {
    var mv := MaxVersion(runs, cmd.name);
    if !force && exists i :: 0 <= i < |runs| && Completed(runs[i], cmd.name) && StrLe(cmd.version, runs[i].version) {
      var i :| 0 <= i < |runs| && Completed(runs[i], cmd.name) && StrLe(cmd.version, runs[i].version);
      StrLeTrans(cmd.version, runs[i].version, mv.value);
    }
  }

  /** A command the selection keeps for a fileset with topics `ft`. */
  predicate Wanted(ft: set<string>, cmd: Cmd, force: bool, runs: seq<Jobrun>)
  {
    !Skipped(force, cmd, runs) && (cmd.topics == {} || cmd.topics * ft != {})
  }

  /** The inner loop of `run-jobs` for one fileset: the topics to read and
      the commands to start. */
  function Selection(ft: set<string>, cmds: seq<Cmd>, force: bool, runs: seq<Jobrun>): (set<string>, seq<Cmd>)
  {
    if |cmds| == 0 then ({}, [])
    else
      var prev := Selection(ft, cmds[..|cmds| - 1], force, runs);
      var cmd := cmds[|cmds| - 1];
      if Skipped(force, cmd, runs) then prev
      else if cmd.topics == {} then (prev.0, prev.1 + [cmd])
      else if cmd.topics * ft != {} then (prev.0 + cmd.topics * ft, prev.1 + [cmd])
      else prev
  }

  /** A command is started iff it is wanted: not skipped, and either
      without topics or sharing a topic with the fileset. */
  lemma {:induction false} SelectionChosen(ft: set<string>, cmds: seq<Cmd>, force: bool, runs: seq<Jobrun>)
    ensures forall c :: c in Selection(ft, cmds, force, runs).1 <==> c in cmds && Wanted(ft, c, force, runs)
  {
    if |cmds| > 0 {
      var init := cmds[..|cmds| - 1];
      SelectionChosen(ft, init, force, runs);
      assert cmds == init + [cmds[|cmds| - 1]];
    }
  }

  /** The topics read are the union, over the started commands, of their
      topics shared with the fileset; a command without topics adds none. */
  lemma {:induction false} SelectionTopics(ft: set<string>, cmds: seq<Cmd>, force: bool, runs: seq<Jobrun>)
    ensures forall x :: x in Selection(ft, cmds, force, runs).0 <==>
      x in ft && exists c :: c in cmds && Wanted(ft, c, force, runs) && x in c.topics
  {
    if |cmds| > 0 {
      var init := cmds[..|cmds| - 1];
      SelectionTopics(ft, init, force, runs);
      assert cmds == init + [cmds[|cmds| - 1]];
    }
  }

  /** The loop over `cmdlist` for one fileset. */
  method SelectJobs(ft: set<string>, cmds: seq<Cmd>, force: bool, runs: seq<Jobrun>)
    returns (topics: set<string>, chosen: seq<Cmd>)
    ensures (topics, chosen) == Selection(ft, cmds, force, runs)
  {
    topics, chosen := {}, [];
    for i := 0 to |cmds|
      invariant (topics, chosen) == Selection(ft, cmds[..i], force, runs)
    {
      assert cmds[..i + 1][..i] == cmds[..i] && cmds[..i + 1][i] == cmds[i];
      var cmd := cmds[i];
      if Skipped(force, cmd, runs) {
        continue;
      }
      if cmd.topics == {} {
        chosen := chosen + [cmd];
        continue;
      }
      var intersect := cmd.topics * ft;
      if intersect != {} {
        topics := topics + intersect;
        chosen := chosen + [cmd];
      }
    }
    assert cmds[..|cmds|] == cmds;
  }

  /** The fileset filter of `run-jobs`: active, with no file missing, read
      successfully, and, when `--fileset` is given, named by one of its
      values or having an md5 that starts with one of them. */
  predicate Eligible(row: Fileset, filters: seq<string>)
  {
    !row.deleted && !Broken(row) && row.readSucceeded == Some(true) &&
    (|filters| == 0 || exists x :: x in filters && (row.name == x || StartsWith(row.md5, x)))
  }

  /** A fileset's line of the run matrix. */
  datatype Planned = Planned(fileset: Fileset, topics: set<string>, cmds: seq<Cmd>)

  /** What `run-jobs` plans for one fileset, given the topics of its bag
      (`bags(id)`, none when it has no bag) and all recorded job runs. */
  function PlanOf(row: Fileset, filters: seq<string>, bags: nat -> Option<set<string>>,
                  allRuns: seq<Jobrun>, force: bool, cmds: seq<Cmd>): Option<Planned>
  {
    if !Eligible(row, filters) || bags(row.id).None? then None
    else
      var sel := Selection(bags(row.id).value, cmds, force, RunsOf(allRuns, row.id));
      if |sel.1| == 0 then None else Some(Planned(row, sel.0, sel.1))
  }

  /** A fileset gets a line iff it is eligible, has a bag, and some command
      is wanted for it. */
  lemma PlanOfIff(row: Fileset, filters: seq<string>, bags: nat -> Option<set<string>>,
                  allRuns: seq<Jobrun>, force: bool, cmds: seq<Cmd>)
    ensures PlanOf(row, filters, bags, allRuns, force, cmds).Some? <==>
      Eligible(row, filters) && bags(row.id).Some? &&
      exists c :: c in cmds && Wanted(bags(row.id).value, c, force, RunsOf(allRuns, row.id))
  {
    if Eligible(row, filters) && bags(row.id).Some? {
      var ft := bags(row.id).value;
      var runs := RunsOf(allRuns, row.id);
      SelectionChosen(ft, cmds, force, runs);
      var chosen := Selection(ft, cmds, force, runs).1;
      if |chosen| > 0 {
        assert chosen[0] in chosen;
      }
    }
  }

  /** `MATRIX`, in the order the filesets are listed. */
  function Matrix(rows: seq<Fileset>, filters: seq<string>, bags: nat -> Option<set<string>>,
                  allRuns: seq<Jobrun>, force: bool, cmds: seq<Cmd>): seq<Planned>
  {
    Present(rows, row => PlanOf(row, filters, bags, allRuns, force, cmds))
  }

  /** The matrix holds exactly the plans of the filesets that get one. */
  lemma MatrixEntries(rows: seq<Fileset>, filters: seq<string>, bags: nat -> Option<set<string>>,
                      allRuns: seq<Jobrun>, force: bool, cmds: seq<Cmd>)
    ensures forall p :: p in Matrix(rows, filters, bags, allRuns, force, cmds) <==>
      exists i :: 0 <= i < |rows| && PlanOf(rows[i], filters, bags, allRuns, force, cmds) == Some(p)
  {
    var plan := row => PlanOf(row, filters, bags, allRuns, force, cmds);
    PresentMembers(rows, plan);
    assert forall i :: 0 <= i < |rows| ==> plan(rows[i]) == PlanOf(rows[i], filters, bags, allRuns, force, cmds);
  }

  /** The loop over the filesets that fills `MATRIX`. */
  method BuildMatrix(rows: seq<Fileset>, filters: seq<string>, bags: nat -> Option<set<string>>,
                     allRuns: seq<Jobrun>, force: bool, cmds: seq<Cmd>) returns (matrix: seq<Planned>)
    ensures matrix == Matrix(rows, filters, bags, allRuns, force, cmds)
  {
    matrix := [];
    for i := 0 to |rows|
      invariant matrix == Matrix(rows[..i], filters, bags, allRuns, force, cmds)
    {
      assert rows[..i + 1][..i] == rows[..i];
      var row := rows[i];
      if !Eligible(row, filters) {
        assert PlanOf(row, filters, bags, allRuns, force, cmds) == None;
        continue;
      }
      var bag := bags(row.id);
      if bag.None? {
        assert PlanOf(row, filters, bags, allRuns, force, cmds) == None;
        continue;
      }
      var topics, chosen := SelectJobs(bag.value, cmds, force, RunsOf(allRuns, row.id));
      if |chosen| > 0 {
        assert PlanOf(row, filters, bags, allRuns, force, cmds) == Some(Planned(row, topics, chosen));
        matrix := matrix + [Planned(row, topics, chosen)];
      } else {
        assert PlanOf(row, filters, bags, allRuns, force, cmds) == None;
      }
    }
    assert rows[..|rows|] == rows;
  }

  // ---------------------------------------------------------------------
  // Reading messages and filling the job inboxes

  /** A bag message: its topic, its raw payload and its time stamp. */
  datatype Msg = Msg(topic: string, raw: string, time: int)

  /** The messages on the given topics, in order. */
  function OnTopics(msgs: seq<Msg>, topics: set<string>): (r: seq<Msg>)
    ensures forall m :: m in r <==> m in msgs && m.topic in topics
    ensures |r| <= |msgs|
    ensures topics == {} ==> r == []
  {
    if |msgs| == 0 then []
    else
      OnTopics(msgs[..|msgs| - 1], topics) +
      (if msgs[|msgs| - 1].topic in topics then [msgs[|msgs| - 1]] else [])
  }

  lemma {:induction false} OnTopicsAppend(a: seq<Msg>, b: seq<Msg>, topics: set<string>)
    ensures OnTopics(a + b, topics) == OnTopics(a, topics) + OnTopics(b, topics)
    decreases |b|
  {
    if |b| == 0 {
      assert a + b == a;
    } else {
      var b' := b[..|b| - 1];
      var last := b[|b| - 1];
      var tail: seq<Msg> := if last.topic in topics then [last] else [];
      OnTopicsAppend(a, b', topics);
      SplitLast(a, b);
      OnTopicsLast(a + b', last, topics);
      OnTopicsLast(b', last, topics);
      Regroup(OnTopics(a + b, topics), OnTopics(a + b', topics), OnTopics(a, topics), OnTopics(b', topics), tail, OnTopics(b, topics));
    }
  }


  lemma OnTopicsLast(s: seq<Msg>, m: Msg, topics: set<string>)
    ensures OnTopics(s + [m], topics) == OnTopics(s, topics) + (if m.topic in topics then [m] else [])
  {
    assert (s + [m])[..|s|] == s;
  }

  /** Filtering for a topic set after filtering for a wider one is filtering
      for the narrower one alone. */
  lemma {:induction false} OnTopicsTwice(msgs: seq<Msg>, wide: set<string>, narrow: set<string>)
    requires forall m :: m in msgs && m.topic in narrow ==> m.topic in wide
    ensures OnTopics(OnTopics(msgs, wide), narrow) == OnTopics(msgs, narrow)
  {
    if |msgs| > 0 {
      var init := msgs[..|msgs| - 1];
      var last := msgs[|msgs| - 1];
      assert forall m :: m in init ==> m in msgs;
      OnTopicsTwice(init, wide, narrow);
      OnTopicsAppend(OnTopics(init, wide), if last.topic in wide then [last] else [], narrow);
    }
  }

  /** All messages of the bag files, file after file. */
  function Flatten(files: seq<seq<Msg>>): (r: seq<Msg>)
    ensures forall m :: m in r <==> exists i :: 0 <= i < |files| && m in files[i]
  {
    if |files| == 0 then []
    else
      var init := files[..|files| - 1];
      assert forall i :: 0 <= i < |init| ==> init[i] == files[i];
      Flatten(init) + files[|files| - 1]
  }

  /** The `messages()` generator: nothing when no topic is to be read,
      otherwise each file's messages on the topics read, file after file. */
  function ReadSpec(files: seq<seq<Msg>>, topics: set<string>): (r: seq<Msg>)
    ensures topics == {} ==> r == []
  {
    if topics == {} || |files| == 0 then []
    else ReadSpec(files[..|files| - 1], topics) + OnTopics(files[|files| - 1], topics)
  }

  /** What is read is the bag's messages on the topics read, in order. */
  lemma {:induction false} ReadIsFiltered(files: seq<seq<Msg>>, topics: set<string>)
    ensures ReadSpec(files, topics) == OnTopics(Flatten(files), topics)
  {
    if topics != {} && |files| > 0 {
      var init := files[..|files| - 1];
      ReadIsFiltered(init, topics);
      OnTopicsAppend(Flatten(init), files[|files| - 1], topics);
    }
  }

  /** The reading loops of `messages()`. */
  method ReadMessages(files: seq<seq<Msg>>, topics: set<string>) returns (read: seq<Msg>)
    ensures read == ReadSpec(files, topics)
  {
    read := [];
    if topics == {} {
      return;
    }
    for f := 0 to |files|
      invariant read == ReadSpec(files[..f], topics)
    {
      assert files[..f + 1][..f] == files[..f];
      var msgs := files[f];
      for k := 0 to |msgs|
        invariant read == ReadSpec(files[..f], topics) + OnTopics(msgs[..k], topics)
      {
        assert msgs[..k + 1][..k] == msgs[..k];
        if msgs[k].topic in topics {
          read := read + [msgs[k]];
        }
      }
      assert msgs[..|msgs|] == msgs;
    }
    assert files[..|files|] == files;
  }

  type Item = JobQueues.InboxItem<Msg>

  /** Queue items carrying the given messages. */
  function Wrap(msgs: seq<Msg>): (r: seq<Item>)
    ensures |r| == |msgs| && forall i :: 0 <= i < |msgs| ==> r[i] == JobQueues.Message(msgs[i])
  {
    if |msgs| == 0 then [] else Wrap(msgs[..|msgs| - 1]) + [JobQueues.Message(msgs[|msgs| - 1])]
  }

  /** What a job's inbox holds once reading is over: the read messages on
      its topics, in read order, then one end-of-stream marker. */
  function Queued(read: seq<Msg>, topics: set<string>): seq<Item>
  {
    Wrap(OnTopics(read, topics)) + [JobQueues.EndOfStream]
  }

  /** An inbox ends with exactly one end-of-stream marker, and the inbox
      generator hands the job exactly the messages on its topics. */
  lemma QueuedShape(read: seq<Msg>, topics: set<string>)
    ensures var q := Queued(read, topics);
      |q| == |OnTopics(read, topics)| + 1 && q[|q| - 1].EndOfStream? &&
      forall i :: 0 <= i < |q| - 1 ==> q[i] == JobQueues.Message(OnTopics(read, topics)[i])
  {
  }

  /** Filtering one more message. */
  lemma OnTopicsSnoc(read: seq<Msg>, i: nat, topics: set<string>)
    requires i < |read|
    ensures OnTopics(read[..i + 1], topics) ==
      OnTopics(read[..i], topics) + (if read[i].topic in topics then [read[i]] else [])
  {
    assert read[..i + 1][..i] == read[..i] && read[..i + 1][i] == read[i];
  }

  lemma WrapSnoc(msgs: seq<Msg>, m: Msg)
    ensures Wrap(msgs + [m]) == Wrap(msgs) + [JobQueues.Message(m)]
  {
    assert (msgs + [m])[..|msgs|] == msgs;
  }

  /** One pass of the inner delivery loop: the message joins the inbox of
      every job whose topics hold its topic. */
  method Deliver(queues: seq<seq<Item>>, msg: Msg, jobTopics: seq<set<string>>) returns (next: seq<seq<Item>>)
    requires |queues| == |jobTopics|
    ensures |next| == |jobTopics|
    ensures forall j :: 0 <= j < |jobTopics| ==>
      next[j] == queues[j] + (if msg.topic in jobTopics[j] then [JobQueues.Message(msg)] else [])
  {
    next := queues;
    for j := 0 to |jobTopics|
      invariant |next| == |jobTopics|
      invariant forall l :: 0 <= l < j ==>
        next[l] == queues[l] + (if msg.topic in jobTopics[l] then [JobQueues.Message(msg)] else [])
      invariant forall l :: j <= l < |jobTopics| ==> next[l] == queues[l]
    {
      if msg.topic in jobTopics[j] {
        next := next[j := next[j] + [JobQueues.Message(msg)]];
      }
    }
  }

  /** One more message delivered keeps an inbox equal to the wrapped
      messages read so far on its topics. */
  lemma DeliverStep(read: seq<Msg>, i: nat, topics: set<string>, before: seq<Item>, after: seq<Item>)
    requires i < |read|
    requires before == Wrap(OnTopics(read[..i], topics))
    requires after == before + (if read[i].topic in topics then [JobQueues.Message(read[i])] else [])
    ensures after == Wrap(OnTopics(read[..i + 1], topics))
  {
    OnTopicsSnoc(read, i, topics);
    if read[i].topic in topics {
      WrapSnoc(OnTopics(read[..i], topics), read[i]);
    } else {
      assert after == before;
    }
  }

  /** The delivery loop of `run-jobs`: each read message goes to the inbox
      of every job whose topics hold its topic, then every inbox gets its
      end-of-stream marker. */
  method FanOut(read: seq<Msg>, jobTopics: seq<set<string>>) returns (queues: seq<seq<Item>>)
    ensures |queues| == |jobTopics|
    ensures forall j :: 0 <= j < |jobTopics| ==> queues[j] == Queued(read, jobTopics[j])
  {
    queues := seq(|jobTopics|, _ => []);
    for i := 0 to |read|
      invariant |queues| == |jobTopics|
      invariant forall j :: 0 <= j < |jobTopics| ==> queues[j] == Wrap(OnTopics(read[..i], jobTopics[j]))
    {
      var prev := queues;
      queues := Deliver(queues, read[i], jobTopics);
      forall j | 0 <= j < |jobTopics|
        ensures queues[j] == Wrap(OnTopics(read[..i + 1], jobTopics[j]))
      {
        DeliverStep(read, i, jobTopics[j], prev[j], queues[j]);
      }
    }
    assert read[..|read|] == read;
    queues := Close(queues);
  }

  /** Every inbox gets its end-of-stream marker. */
  method Close(queues: seq<seq<Item>>) returns (closed: seq<seq<Item>>)
    ensures |closed| == |queues|
    ensures forall j :: 0 <= j < |queues| ==> closed[j] == queues[j] + [JobQueues.EndOfStream]
  {
    closed := queues;
    for j := 0 to |queues|
      invariant |closed| == |queues|
      invariant forall l :: 0 <= l < j ==> closed[l] == queues[l] + [JobQueues.EndOfStream]
      invariant forall l :: j <= l < |queues| ==> closed[l] == queues[l]
    {
      closed := closed[j := closed[j] + [JobQueues.EndOfStream]];
    }
  }

  /** Every started job receives every message of the bag on its topics, in
      order: the topics read cover what each wanted job shares with the
      bag, and a job without topics receives nothing. */
  lemma JobSeesItsTopics(files: seq<seq<Msg>>, ft: set<string>, cmds: seq<Cmd>, force: bool,
                         runs: seq<Jobrun>, c: Cmd)
    requires forall i, k :: 0 <= i < |files| && 0 <= k < |files[i]| ==> files[i][k].topic in ft
    requires c in Selection(ft, cmds, force, runs).1
    ensures OnTopics(ReadSpec(files, Selection(ft, cmds, force, runs).0), c.topics) ==
            OnTopics(Flatten(files), c.topics)
  {
    var topics := Selection(ft, cmds, force, runs).0;
    SelectionChosen(ft, cmds, force, runs);
    SelectionTopics(ft, cmds, force, runs);
    ReadIsFiltered(files, topics);
    forall m | m in Flatten(files) && m.topic in c.topics ensures m.topic in topics {
      var i :| 0 <= i < |files| && m in files[i];
      var k :| 0 <= k < |files[i]| && files[i][k] == m;
    }
    OnTopicsTwice(Flatten(files), topics, c.topics);
  }

  // ---------------------------------------------------------------------
  // purge-jobruns

  predicate SameGroup(a: Jobrun, b: Jobrun)
  {
    a.name == b.name && a.filesetId == b.filesetId
  }

  /** The job runs `purge-jobruns` deletes: in every group of runs of one
      job on one fileset, all ids but the largest. */
  function PurgeIds(runs: seq<Jobrun>): set<nat>
  {
    set i, j | 0 <= i < |runs| && 0 <= j < |runs| && SameGroup(runs[i], runs[j]) && runs[i].id < runs[j].id :: runs[i].id
  }

  predicate UniqueIds(runs: seq<Jobrun>)
  {
    forall i, j :: 0 <= i < |runs| && 0 <= j < |runs| && runs[i].id == runs[j].id ==> i == j
  }

  /** With ids unique, a run survives the purge exactly when it is the run
      `get_latest_jobrun` returns for its job and fileset. */
  lemma PurgeKeepsLatest(runs: seq<Jobrun>, k: nat)
    requires UniqueIds(runs) && k < |runs|
    ensures runs[k].id !in PurgeIds(runs) <==>
      GetLatestJobrun(runs, runs[k].filesetId, runs[k].name) == Some(runs[k])
  {
    var latest := GetLatestJobrun(runs, runs[k].filesetId, runs[k].name);
    assert runs[k] in runs;
    var j :| 0 <= j < |runs| && runs[j] == latest.value;
    if latest == Some(runs[k]) {
      forall i, l | 0 <= i < |runs| && 0 <= l < |runs| && SameGroup(runs[i], runs[l]) && runs[i].id == runs[k].id
        ensures runs[i].id >= runs[l].id
      {
        assert i == k;
        assert runs[l] in runs;
      }
    } else {
      assert runs[k].id <= runs[j].id;
      assert j != k;
      assert SameGroup(runs[k], runs[j]);
    }
  }
}
