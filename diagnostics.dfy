/** The diagnostics job: counts, per diagnostic name, the OK, warning and
    error statuses published on the diagnostics topic, and stores one record
    per name; the detail view lists the non-zero counters. */
module Diagnostics {
  import opened Wrappers
  import opened Sorting
  import opened Seqs

  /** The levels of a ROS diagnostic status. */
  const LevelOk := 0
  const LevelWarn := 1

  /** One status of a diagnostics message. */
  datatype DiagStatus = DiagStatus(name: string, level: int)

  /** The counters of one name. */
  datatype Counter = Counter(oks: nat, warnings: nat, errors: nat)

  /** A counter after one more status: any level other than OK and WARN
      counts as an error. */
  function Bump(c: Counter, level: int): Counter
  {
    if level == LevelOk then c.(oks := c.oks + 1)
    else if level == LevelWarn then c.(warnings := c.warnings + 1)
    else c.(errors := c.errors + 1)
  }

  function Total(c: Counter): nat
  {
    c.oks + c.warnings + c.errors
  }

  /** The statuses of the messages, in order. */
  function Flatten(messages: seq<seq<DiagStatus>>): seq<DiagStatus>
  {
    if |messages| == 0 then [] else Flatten(messages[..|messages| - 1]) + messages[|messages| - 1]
  }

  /** The counters after a run of statuses, with the names in the order
      they were first seen. */
  datatype Tally = Tally(names: seq<string>, counters: map<string, Counter>)

  /** The counters after one more status. */
  function Step(t: Tally, s: DiagStatus): Tally
  {
    var c := if s.name in t.counters then t.counters[s.name] else Counter(0, 0, 0);
    Tally(if s.name in t.counters then t.names else t.names + [s.name], t.counters[s.name := Bump(c, s.level)])
  }

  function Count(statuses: seq<DiagStatus>): (t: Tally)
    ensures forall n :: n in t.names <==> n in t.counters
  {
    if |statuses| == 0 then Tally([], map[])
    else Step(Count(statuses[..|statuses| - 1]), statuses[|statuses| - 1])
  }

  /** How many statuses carry `name`, and how many of those have a level. */
  function Named(statuses: seq<DiagStatus>, name: string): nat
  {
    if |statuses| == 0 then 0
    else Named(statuses[..|statuses| - 1], name) + (if statuses[|statuses| - 1].name == name then 1 else 0)
  }

  function NamedAt(statuses: seq<DiagStatus>, name: string, level: int): nat
  {
    if |statuses| == 0 then 0
    else NamedAt(statuses[..|statuses| - 1], name, level)
         + (if statuses[|statuses| - 1].name == name && statuses[|statuses| - 1].level == level then 1 else 0)
  }

  /** The names are the names seen, each once, and each counter counts its
      name's OK statuses, WARN statuses and all of its statuses. */
  ghost predicate Tallies(statuses: seq<DiagStatus>, t: Tally)
  {
    && Distinct(t.names)
    && (forall n :: n in t.counters <==> exists i :: 0 <= i < |statuses| && statuses[i].name == n)
    && forall n :: n in t.counters ==>
         && t.counters[n].oks == NamedAt(statuses, n, LevelOk)
         && t.counters[n].warnings == NamedAt(statuses, n, LevelWarn)
         && Total(t.counters[n]) == Named(statuses, n)
  }

  lemma TalliesStep(init: seq<DiagStatus>, s: DiagStatus, t: Tally)
    requires Tallies(init, t)
    requires forall n :: n in t.names <==> n in t.counters
    ensures Tallies(init + [s], Step(t, s))
  {
    var statuses := init + [s];
    var t' := Step(t, s);
    assert forall i :: 0 <= i < |init| ==> init[i] == statuses[i];
    assert statuses[|init|] == s;
    forall n | n in t'.counters
      ensures t'.counters[n].oks == NamedAt(statuses, n, LevelOk)
      ensures t'.counters[n].warnings == NamedAt(statuses, n, LevelWarn)
      ensures Total(t'.counters[n]) == Named(statuses, n)
    {
      NamedSnoc(init, s, n, LevelOk);
      NamedSnoc(init, s, n, LevelWarn);
      if n == s.name && n !in t.counters {
        assert forall i :: 0 <= i < |init| ==> init[i].name != n;
        NamedAbsent(init, n);
      }
    }
    forall n
      ensures n in t'.counters <==> exists i :: 0 <= i < |statuses| && statuses[i].name == n
    {
      if n in t.counters {
        var i :| 0 <= i < |init| && init[i].name == n;
        assert statuses[i].name == n;
      }
    }
    if s.name !in t.counters {
      assert Distinct(t.names + [s.name]) by {
        var names := t.names + [s.name];
        forall i, j | 0 <= i < j < |names|
          ensures names[i] != names[j]
        {
          if j == |t.names| {
            assert names[i] == t.names[i];
          }
        }
      }
    }
  }

  lemma NamedSnoc(init: seq<DiagStatus>, s: DiagStatus, name: string, level: int)
    ensures Named(init + [s], name) == Named(init, name) + (if s.name == name then 1 else 0)
    ensures NamedAt(init + [s], name, level) == NamedAt(init, name, level) + (if s.name == name && s.level == level then 1 else 0)
  {
    assert (init + [s])[..|init|] == init;
  }

  lemma {:induction false} CountMeaning(statuses: seq<DiagStatus>)
    ensures Tallies(statuses, Count(statuses))
  {
    if |statuses| > 0 {
      var init := statuses[..|statuses| - 1];
      CountMeaning(init);
      TalliesStep(init, statuses[|statuses| - 1], Count(init));
      assert init + [statuses[|statuses| - 1]] == statuses;
    }
  }

  /** A name that does not occur has no statuses. */
  lemma {:induction false} NamedAbsent(statuses: seq<DiagStatus>, name: string)
    requires forall i :: 0 <= i < |statuses| ==> statuses[i].name != name
    ensures Named(statuses, name) == 0
    ensures forall level :: NamedAt(statuses, name, level) == 0
  {
    if |statuses| > 0 {
      NamedAbsent(statuses[..|statuses| - 1], name);
    }
  }

  /** The sum of a function of the names over a list of names. */
  function SumOver(names: seq<string>, f: string -> nat): nat
  {
    if |names| == 0 then 0 else SumOver(names[..|names| - 1], f) + f(names[|names| - 1])
  }

  /** Adding one to a single name's term adds one to the sum. */
  lemma {:induction false} SumBump(names: seq<string>, f: string -> nat, g: string -> nat, x: string)
    requires Distinct(names) && x in names
    requires forall n :: g(n) == f(n) + (if n == x then 1 else 0)
    ensures SumOver(names, g) == SumOver(names, f) + 1
  {
    var init := names[..|names| - 1];
    var last := names[|names| - 1];
    assert Distinct(init) && last !in init by {
      assert forall i :: 0 <= i < |init| ==> init[i] == names[i];
    }
    if last == x {
      SumSame(init, f, g, x);
    } else {
      assert x in init by {
        var i :| 0 <= i < |names| && names[i] == x;
        assert init[i] == x;
      }
      SumBump(init, f, g, x);
    }
  }

  /** Terms that agree away from a missing name give the same sum. */
  lemma {:induction false} SumSame(names: seq<string>, f: string -> nat, g: string -> nat, x: string)
    requires x !in names
    requires forall n :: n != x ==> g(n) == f(n)
    ensures SumOver(names, g) == SumOver(names, f)
  {
    if |names| > 0 {
      var init := names[..|names| - 1];
      assert x !in init by {
        assert forall i :: 0 <= i < |init| ==> init[i] == names[i];
      }
      SumSame(init, f, g, x);
    }
  }

  /** Over all names seen, the counters add up to the number of statuses. */
  lemma {:induction false} CountSum(statuses: seq<DiagStatus>)
    ensures SumOver(Count(statuses).names, n => Named(statuses, n)) == |statuses|
  {
    if |statuses| > 0 {
      var init := statuses[..|statuses| - 1];
      var s := statuses[|statuses| - 1];
      assert statuses == init + [s];
      CountSum(init);
      CountMeaning(init);
      var t := Count(init);
      var f := n => Named(init, n);
      var g := n => Named(statuses, n);
      forall n
        ensures g(n) == f(n) + (if n == s.name then 1 else 0)
      {
        NamedSnoc(init, s, n, LevelOk);
      }
      if s.name in t.counters {
        SumBump(t.names, f, g, s.name);
      } else {
        assert forall i :: 0 <= i < |init| ==> init[i].name != s.name;
        NamedAbsent(init, s.name);
        SumNew(t.names, f, g, s.name);
      }
    }
  }

  /** A new name at the end adds its own term to the sum. */
  lemma SumNew(names: seq<string>, f: string -> nat, g: string -> nat, x: string)
    requires x !in names
    requires forall n :: n != x ==> g(n) == f(n)
    ensures SumOver(names + [x], g) == SumOver(names, f) + g(x)
  {
    assert (names + [x])[..|names|] == names;
    SumSame(names, f, g, x);
  }

  /** A stored record. */
  datatype Record = Record(name: string, okCount: nat, warnCount: nat, errorCount: nat)

  function Records(t: Tally): (r: seq<Record>)
    requires forall n :: n in t.names ==> n in t.counters
    ensures |r| == |t.names|
  {
    seq(|t.names|, i requires 0 <= i < |t.names| =>
      Record(t.names[i], t.counters[t.names[i]].oks, t.counters[t.names[i]].warnings, t.counters[t.names[i]].errors))
  }

  lemma CountAppend(before: seq<DiagStatus>, s: DiagStatus)
    ensures Count(before + [s]) == Step(Count(before), s)
  {
    assert (before + [s])[..|before|] == before;
  }

  /** The inner loop of `job`: the statuses of one message. */
  method CountMessage(names: seq<string>, counters: map<string, Counter>, statuses: seq<DiagStatus>,
                      ghost before: seq<DiagStatus>)
    returns (names': seq<string>, counters': map<string, Counter>)
    requires Tally(names, counters) == Count(before)
    ensures Tally(names', counters') == Count(before + statuses)
  {
    names', counters' := names, counters;
    assert before + statuses[..0] == before;
    for j := 0 to |statuses|
      invariant Tally(names', counters') == Count(before + statuses[..j])
    {
      var s := statuses[j];
      CountPrefixStep(before, statuses, j);
      ghost var t := Tally(names', counters');
      var c := if s.name in counters' then counters'[s.name] else Counter(0, 0, 0);
      ghost var c0 := c;
      if s.name !in counters' {
        names' := names' + [s.name];
      }
      if s.level == LevelOk {
        c := c.(oks := c.oks + 1);
      } else if s.level == LevelWarn {
        c := c.(warnings := c.warnings + 1);
      } else {
        c := c.(errors := c.errors + 1);
      }
      assert c == Bump(c0, s.level);
      counters' := counters'[s.name := c];
      assert Tally(names', counters') == Step(t, s);
    }
    assert statuses[..|statuses|] == statuses;
  }

  lemma CountPrefixStep(before: seq<DiagStatus>, statuses: seq<DiagStatus>, j: nat)
    requires j < |statuses|
    ensures Count(before + statuses[..j + 1]) == Step(Count(before + statuses[..j]), statuses[j])
  {
    PrefixSnoc(before, statuses, j);
    CountAppend(before + statuses[..j], statuses[j]);
  }

  /** The counting loops of `job`. */
  method CountStatuses(messages: seq<seq<DiagStatus>>) returns (t: Tally)
    ensures t == Count(Flatten(messages))
  {
    var names: seq<string> := [];
    var counters: map<string, Counter> := map[];
    for i := 0 to |messages|
      invariant Tally(names, counters) == Count(Flatten(messages[..i]))
    {
      assert messages[..i + 1][..i] == messages[..i];
      names, counters := CountMessage(names, counters, messages[i], Flatten(messages[..i]));
    }
    assert messages[..|messages|] == messages;
    t := Tally(names, counters);
  }

  /** `job`: one record per name seen, with its counters. */
  method Job(messages: seq<seq<DiagStatus>>) returns (records: seq<Record>)
    ensures Distinct(Count(Flatten(messages)).names)
    ensures records == Records(Count(Flatten(messages)))
  {
    CountMeaning(Flatten(messages));
    var t := CountStatuses(messages);
    records := seq(|t.names|, i requires 0 <= i < |t.names| =>
      Record(t.names[i], t.counters[t.names[i]].oks, t.counters[t.names[i]].warnings, t.counters[t.names[i]].errors));
  }

  /** A row of the detail table. */
  datatype Row = Row(name: string, count: nat, status: string)

  /** The rows of one record: its non-zero counters, OK first, then WARN,
      then ERROR. */
  function RecordRows(d: Record): seq<Row>
  {
    (if d.okCount != 0 then [Row(d.name, d.okCount, "OK")] else [])
    + (if d.warnCount != 0 then [Row(d.name, d.warnCount, "WARN")] else [])
    + (if d.errorCount != 0 then [Row(d.name, d.errorCount, "ERROR")] else [])
  }

  function Rows(records: seq<Record>): seq<Row>
  {
    if |records| == 0 then [] else Rows(records[..|records| - 1]) + RecordRows(records[|records| - 1])
  }

  /** `diagnostics_detail`: nothing without a job run. */
  function Detail(jobrun: Option<seq<Record>>): Option<seq<Row>>
  {
    if jobrun.None? then None else Some(Rows(jobrun.value))
  }

  /** The number of non-zero counters of a record. */
  function NonZero(d: Record): nat
  {
    (if d.okCount != 0 then 1 else 0) + (if d.warnCount != 0 then 1 else 0) + (if d.errorCount != 0 then 1 else 0)
  }

  function NonZeroAll(records: seq<Record>): nat
  {
    if |records| == 0 then 0 else NonZeroAll(records[..|records| - 1]) + NonZero(records[|records| - 1])
  }

  /** One row per non-zero counter, every row with a positive count and one
      of the three statuses. */
  lemma {:induction false} RowsMeaning(records: seq<Record>)
    ensures |Rows(records)| == NonZeroAll(records)
    ensures forall i :: 0 <= i < |Rows(records)| ==> Rows(records)[i].count > 0
    ensures forall i :: 0 <= i < |Rows(records)| ==> Rows(records)[i].status in ["OK", "WARN", "ERROR"]
  {
    if |records| > 0 {
      RowsMeaning(records[..|records| - 1]);
    }
  }

  /** The rows of one record come in level order and name that record. */
  lemma RecordRowsOrder(d: Record)
    ensures forall i :: 0 <= i < |RecordRows(d)| ==> RecordRows(d)[i].name == d.name
    ensures d.okCount != 0 ==> RecordRows(d)[0] == Row(d.name, d.okCount, "OK")
    ensures d.errorCount != 0 ==> RecordRows(d)[|RecordRows(d)| - 1] == Row(d.name, d.errorCount, "ERROR")
  {
  }

  /** The detail loop. */
  method DetailView(jobrun: Option<seq<Record>>) returns (r: Option<seq<Row>>)
    ensures r == Detail(jobrun)
  {
    if jobrun.None? {
      return None;
    }
    var records := jobrun.value;
    var rows := [];
    for i := 0 to |records|
      invariant rows == Rows(records[..i])
    {
      assert records[..i + 1][..i] == records[..i];
      var d := records[i];
      if d.okCount != 0 {
        rows := rows + [Row(d.name, d.okCount, "OK")];
      }
      if d.warnCount != 0 {
        rows := rows + [Row(d.name, d.warnCount, "WARN")];
      }
      if d.errorCount != 0 {
        rows := rows + [Row(d.name, d.errorCount, "ERROR")];
      }
    }
    assert records[..|records|] == records;
    return Some(rows);
  }
}
