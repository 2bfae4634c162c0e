/** The helpers of marv's `_utils.py`: the round-robin `multiplex`
    interleaver, `title_from_name`, and the queue protocol between a job
    worker thread, its message inbox and the collector that records the
    outcome on the job run.  Threads and queues are sequentialised: a queue
    is the sequence of items put into it. */
module Utils {
  import opened Wrappers

  // ---------------------------------------------------------------------
  // multiplex

  /** What calling a processor does: it raises straight away, or it returns
      a generator that yields `items` and then either stops or raises. */
  datatype Processor<T> = RaisesOnCall | Generator(items: seq<T>, raises: bool)

  /** A live generator of the interleaving: `tag` is the position of its
      processor, `rest` what it has still to yield. */
  datatype Live<T> = Live(tag: nat, rest: seq<T>, raises: bool)

  /** What `multiplex` yields, each item tagged with the position of the
      processor that produced it, and whether an exception escaped after
      those items. */
  datatype Outcome<T> = Outcome(out: seq<(nat, T)>, raised: bool)

  function Untag<T>(s: seq<(nat, T)>): (r: seq<T>)
    ensures |r| == |s| && forall i :: 0 <= i < |s| ==> r[i] == s[i].1
  {
    if |s| == 0 then [] else [s[0].1] + Untag(s[1..])
  }

  /** The items of `s` that came from processor `k`, in order. */
  function Project<T>(s: seq<(nat, T)>, k: nat): seq<T>
  {
    if |s| == 0 then []
    else (if s[0].0 == k then [s[0].1] else []) + Project(s[1..], k)
  }

  lemma {:induction false} ProjectAppend<T>(a: seq<(nat, T)>, b: seq<(nat, T)>, k: nat)
    ensures Project(a + b, k) == Project(a, k) + Project(b, k)
  {
    if |a| == 0 {
      assert a + b == b;
    } else {
      var ab := a + b;
      assert ab[0] == a[0] && ab[1..] == a[1..] + b;
      ProjectAppend(a[1..], b, k);
      var head: seq<T> := if a[0].0 == k then [a[0].1] else [];
      assert Project(ab, k) == head + Project(a[1..] + b, k);
      assert Project(a, k) == head + Project(a[1..], k);
    }
  }

  /** The generators `multiplex` starts with.  Without `dontCatch` a
      processor that raises on call is dropped; with it, the exception
      escapes before anything is yielded (`None`). */
  function Start<T>(procs: seq<Processor<T>>, dontCatch: bool, from: nat): (r: Option<seq<Live<T>>>)
    requires from <= |procs|
    ensures r.Some? ==> forall j :: 0 <= j < |r.value| ==> from <= r.value[j].tag < |procs|
    ensures r.Some? ==> forall i, j :: 0 <= i < j < |r.value| ==> r.value[i].tag < r.value[j].tag
    decreases |procs| - from
  {
    if from == |procs| then Some([])
    else
      match procs[from]
      case RaisesOnCall =>
        if dontCatch then None else Start(procs, dontCatch, from + 1)
      case Generator(items, raises) =>
        var rest := Start(procs, dontCatch, from + 1);
        if rest.None? then None else Some([Live(from, items, raises)] + rest.value)
  }

  function Measure<T>(gens: seq<Live<T>>): nat
  {
    if |gens| == 0 then 0 else 1 + |gens[0].rest| + Measure(gens[1..])
  }

  lemma MeasureSplit<T>(a: seq<Live<T>>, b: seq<Live<T>>)
    ensures Measure(a + b) == Measure(a) + Measure(b)
  {
    if |a| == 0 {
      assert a + b == b;
    } else {
      assert (a + b)[1..] == a[1..] + b;
      MeasureSplit(a[1..], b);
    }
  }

  /** The effect of visiting `gens[i]` in a round: the yielded item if any,
      the generator list afterwards, the index of the next visit, and whether
      an exception escaped.  A generator that stops (or, without
      `dontCatch`, raises) is removed from the list while the `for` loop's
      index still advances, so the generator after it is not visited in this
      round. */
  datatype Visit<T> = Visit(out: seq<(nat, T)>, gens: seq<Live<T>>, next: nat, raised: bool)

  function VisitAt<T>(gens: seq<Live<T>>, i: nat, dontCatch: bool): (v: Visit<T>)
    requires i < |gens|
    ensures !v.raised ==> Measure(v.gens) < Measure(gens)
  {
    MeasureSplit(gens[..i], gens[i..]);
    MeasureSplit(gens[..i], gens[i + 1..]);
    assert gens == gens[..i] + gens[i..];
    var g := gens[i];
    if |g.rest| > 0 then
      var gens' := gens[i := Live(g.tag, g.rest[1..], g.raises)];
      MeasureSplit(gens[..i], gens'[i..]);
      assert gens' == gens[..i] + gens'[i..];
      assert gens'[i..][1..] == gens[i..][1..];
      Visit([(g.tag, g.rest[0])], gens', i + 1, false)
    else if g.raises && dontCatch then
      Visit([], gens, i, true)
    else
      Visit([], gens[..i] + gens[i + 1..], i + 1, false)
  }

  /** One pass of the `for` loop over the generator list, from index `i`. */
  function Round<T>(gens: seq<Live<T>>, i: nat, dontCatch: bool): (r: Visit<T>)
    ensures !r.raised ==> Measure(r.gens) <= Measure(gens)
    ensures !r.raised && i < |gens| ==> Measure(r.gens) < Measure(gens)
    decreases |gens| + 1 - i
  {
    if i >= |gens| then Visit([], gens, i, false)
    else
      var v := VisitAt(gens, i, dontCatch);
      if v.raised then v
      else
        var r := Round(v.gens, v.next, dontCatch);
        Visit(v.out + r.out, r.gens, r.next, r.raised)
  }

  /** Rounds until no generator is left or an exception escapes. */
  function Run<T>(gens: seq<Live<T>>, dontCatch: bool): Outcome<T>
    decreases Measure(gens)
  {
    if |gens| == 0 then Outcome([], false)
    else
      var r := Round(gens, 0, dontCatch);
      if r.raised then Outcome(r.out, true)
      else
        var rest := Run(r.gens, dontCatch);
        Outcome(r.out + rest.out, rest.raised)
  }

  /** `multiplex(inputs, processors, dont_catch=...)`, each processor already
      applied to its copy of the inputs. */
  function MultiplexSpec<T>(procs: seq<Processor<T>>, dontCatch: bool): Outcome<T>
  {
    var start := Start(procs, dontCatch, 0);
    if start.None? then Outcome([], true) else Run(start.value, dontCatch)
  }

  /** `v` with `o` yielded before it. */
  function After<T>(o: seq<(nat, T)>, v: Visit<T>): Visit<T>
  {
    Visit(o + v.out, v.gens, v.next, v.raised)
  }

  lemma AfterAfter<T>(a: seq<(nat, T)>, b: seq<(nat, T)>, v: Visit<T>)
    ensures After(a, After(b, v)) == After(a + b, v)
  {
    assert a + (b + v.out) == (a + b) + v.out;
  }

  lemma RoundUnfold<T>(gens: seq<Live<T>>, i: nat, dontCatch: bool)
    requires i < |gens| && !VisitAt(gens, i, dontCatch).raised
    ensures var v := VisitAt(gens, i, dontCatch);
      Round(gens, i, dontCatch) == After(v.out, Round(v.gens, v.next, dontCatch))
  {
  }

  lemma RunUnfold<T>(gens: seq<Live<T>>, dontCatch: bool, r: Visit<T>)
    requires |gens| > 0 && r == Round(gens, 0, dontCatch)
    ensures r.raised ==> Run(gens, dontCatch) == Outcome(r.out, true)
    ensures !r.raised ==> Run(gens, dontCatch).out == r.out + Run(r.gens, dontCatch).out
    ensures !r.raised ==> Run(gens, dontCatch).raised == Run(r.gens, dontCatch).raised
    ensures !r.raised ==> Measure(r.gens) < Measure(gens)
  {
  }

  /** One pass of the `for` loop over `generators`, which removes exhausted
      generators from the list it is iterating. */
  method MultiplexRound<T>(generators: seq<Live<T>>, dontCatch: bool)
    returns (yielded: seq<(nat, T)>, remaining: seq<Live<T>>, raised: bool)
    ensures var r := Round(generators, 0, dontCatch);
      yielded == r.out && raised == r.raised && (!raised ==> remaining == r.gens)
  {
    remaining := generators;
    yielded := [];
    var i := 0;
    while i < |remaining|
      invariant Round(generators, 0, dontCatch) == After(yielded, Round(remaining, i, dontCatch))
      decreases |remaining| - i
    {
      var g := remaining[i];
      ghost var v := VisitAt(remaining, i, dontCatch);
      ghost var was := remaining;
      ghost var wasI := i;
      ghost var wasY := yielded;
      if |g.rest| > 0 {
        yielded := yielded + [(g.tag, g.rest[0])];
        remaining := remaining[i := Live(g.tag, g.rest[1..], g.raises)];
        i := i + 1;
      } else if g.raises && dontCatch {
        assert yielded + [] == yielded;
        return yielded, remaining, true;
      } else {
        remaining := remaining[..i] + remaining[i + 1..];
        i := i + 1;
      }
      assert v.gens == remaining && v.next == i && yielded == wasY + v.out;
      RoundUnfold(was, wasI, dontCatch);
      AfterAfter(wasY, v.out, Round(remaining, i, dontCatch));
    }
    assert yielded + [] == yielded;
    raised := false;
  }

  /** The interleaving loop of `multiplex`: rounds over the live generators
      until none is left or an exception escapes. */
  method Multiplex<T>(procs: seq<Processor<T>>, dontCatch: bool) returns (out: seq<T>, raised: bool)
    ensures out == Untag(MultiplexSpec(procs, dontCatch).out)
    ensures raised == MultiplexSpec(procs, dontCatch).raised
  {
    var start := Start(procs, dontCatch, 0);
    if start.None? {
      return [], true;
    }
    assert MultiplexSpec(procs, dontCatch) == Run(start.value, dontCatch);
    var generators := start.value;
    var tagged: seq<(nat, T)> := [];
    assert tagged + Run(generators, dontCatch).out == Run(generators, dontCatch).out;
    while |generators| > 0
      invariant Run(start.value, dontCatch).out == tagged + Run(generators, dontCatch).out
      invariant Run(start.value, dontCatch).raised == Run(generators, dontCatch).raised
      decreases Measure(generators)
    {
      ghost var was := generators;
      var yielded, failed;
      yielded, generators, failed := MultiplexRound(generators, dontCatch);
      RunUnfold(was, dontCatch, Round(was, 0, dontCatch));
      if failed {
        return Untag(tagged + yielded), true;
      }
      assert tagged + (yielded + Run(generators, dontCatch).out) == (tagged + yielded) + Run(generators, dontCatch).out;
      tagged := tagged + yielded;
    }
    assert Run(generators, dontCatch) == Outcome([], false);
    assert tagged + [] == tagged;
    out := Untag(tagged);
    raised := false;
  }
}

/** `title_from_name`: the regular-expression substitution of
    `(\A|_)(.)` that upper-cases the first character and turns every `_c`
    into ` C`.  `.` does not match a newline. */
module Titles {
  import opened Strings

  function TitleFromName(name: string): string
  {
    Substitute(name, true)
  }

  /** The substitution from some position on; `atStart` when that position is
      the start of the string, where `\A` matches before `_` is tried. */
  function Substitute(s: string, atStart: bool): string
  {
    if |s| == 0 then ""
    else if atStart && s[0] != '\n' then [Upper(s[0])] + Substitute(s[1..], false)
    else if s[0] == '_' && |s| >= 2 && s[1] != '\n' then [' ', Upper(s[1])] + Substitute(s[2..], false)
    else [s[0]] + Substitute(s[1..], false)
  }

  /** A word as it appears in a title: first character upper-cased. */
  function Capitalize(w: string): string
  {
    if |w| == 0 then "" else [Upper(w[0])] + w[1..]
  }

  predicate IsWord(w: string)
  {
    |w| > 0 && '_' !in w && '\n' !in w
  }

  function Underscored(ws: seq<string>): string
  {
    if |ws| == 0 then "" else "_" + ws[0] + Underscored(ws[1..])
  }

  function Spaced(ws: seq<string>): string
  {
    if |ws| == 0 then "" else " " + Capitalize(ws[0]) + Spaced(ws[1..])
  }

  lemma {:induction false} CopiesPlain(t: string, rest: string)
    requires '_' !in t
    ensures Substitute(t + rest, false) == t + Substitute(rest, false)
  {
    if |t| > 0 {
      assert (t + rest)[1..] == t[1..] + rest;
      CopiesPlain(t[1..], rest);
    } else {
      assert t + rest == rest;
    }
  }

  lemma {:induction false} WordsAfterFirst(ws: seq<string>)
    requires forall i :: 0 <= i < |ws| ==> IsWord(ws[i])
    ensures Substitute(Underscored(ws), false) == Spaced(ws)
  {
    if |ws| > 0 {
      var w := ws[0];
      var s := Underscored(ws);
      assert s == ['_', w[0]] + (w[1..] + Underscored(ws[1..]));
      assert w[0] != '\n' by { assert w[0] in w; }
      CopiesPlain(w[1..], Underscored(ws[1..]));
      WordsAfterFirst(ws[1..]);
    }
  }

  /** The title of `a_b_c` is `A B C`: for a name made of non-empty words
      joined by single underscores, the title joins the capitalised words
      with single spaces. */
  lemma TitleOfWords(ws: seq<string>)
    requires |ws| > 0 && forall i :: 0 <= i < |ws| ==> IsWord(ws[i])
    ensures TitleFromName(Join(ws, "_")) == Capitalize(ws[0]) + Spaced(ws[1..])
  {
    var w := ws[0];
    var u := Underscored(ws[1..]);
    JoinUnderscored(ws);
    assert w[0] != '\n' by { assert w[0] in w; }
    TitleOfHead(w, u);
    CopiesPlain(w[1..], u);
    WordsAfterFirst(ws[1..]);
    TitleChain(w + u, w, u, Spaced(ws[1..]));
  }

  lemma TitleChain(t: string, w: string, u: string, spaced: string)
    requires |w| > 0
    requires TitleFromName(t) == [Upper(w[0])] + Substitute(w[1..] + u, false)
    requires Substitute(w[1..] + u, false) == w[1..] + Substitute(u, false)
    requires Substitute(u, false) == spaced
    ensures TitleFromName(t) == Capitalize(w) + spaced
  {
    assert Capitalize(w) + spaced == [Upper(w[0])] + (w[1..] + spaced);
  }

  /** The first character of a title is upper-cased, and the rest is
      substituted away from the start. */
  lemma TitleOfHead(w: string, u: string)
    requires |w| > 0 && w[0] != '\n'
    ensures TitleFromName(w + u) == [Upper(w[0])] + Substitute(w[1..] + u, false)
  {
    SplitHead(w, u);
  }

  lemma SplitHead(w: string, u: string)
    requires |w| > 0
    ensures (w + u)[0] == w[0] && (w + u)[1..] == w[1..] + u
  {
  }

  lemma {:induction false} JoinUnderscored(ws: seq<string>)
    requires |ws| > 0
    ensures Join(ws, "_") == ws[0] + Underscored(ws[1..])
  {
    if |ws| > 1 {
      JoinUnderscored(ws[1..]);
      assert ws[1..][1..] == ws[2..];
    }
  }
}

/** The queue protocol of `make_async_job` and `async_job_milker`. */
module JobQueues {
  import opened Wrappers

  /** An item of a worker's message inbox. */
  datatype InboxItem<M> = Message(msg: M) | EndOfStream

  /** The `messages()` generator handed to a job: queued messages in FIFO
      order up to the first end-of-stream marker.  The queue always receives
      that marker, so the generator never blocks for good. */
  method Inbox<M>(queue: seq<InboxItem<M>>) returns (msgs: seq<M>)
    requires exists k :: 0 <= k < |queue| && queue[k].EndOfStream?
    ensures |msgs| < |queue| && queue[|msgs|].EndOfStream?
    ensures forall i :: 0 <= i < |msgs| ==> queue[i] == Message(msgs[i])
  {
    msgs := [];
    var i := 0;
    while true
      invariant i == |msgs| && i < |queue|
      invariant forall j :: 0 <= j < i ==> queue[j] == Message(msgs[j])
      invariant exists k :: i <= k < |queue| && queue[k].EndOfStream?
      decreases |queue| - i
    {
      var x := queue[i];
      if x.EndOfStream? {
        return;
      }
      msgs := msgs + [x.msg];
      i := i + 1;
    }
  }

  /** An item of a worker's result queue. */
  datatype RvItem<C, R> = EffectiveConfig(cfg: C) | Result(value: R) | Done | Failed

  /** How a job behaves when called: it raises before returning, or it
      returns its effective config and a generator of results that either
      ends or raises. */
  datatype JobBehaviour<C, R> = CallRaises | Runs(cfg: C, results: seq<R>, raises: bool)

  function Results<C, R>(rs: seq<R>): (q: seq<RvItem<C, R>>)
    ensures |q| == |rs| && forall i :: 0 <= i < |rs| ==> q[i] == Result(rs[i])
  {
    if |rs| == 0 then [] else [Result(rs[0])] + Results(rs[1..])
  }

  /** What the worker thread puts on its result queue. */
  function WorkerOutput<C, R>(b: JobBehaviour<C, R>): seq<RvItem<C, R>>
  {
    match b
    case CallRaises => [Failed, Done]
    case Runs(cfg, results, raises) =>
      [EffectiveConfig(cfg)] + Results(results) + (if raises then [Failed] else []) + [Done]
  }

  lemma ResultsSnoc<C, R>(rs: seq<R>, i: nat)
    requires i < |rs|
    ensures Results<C, R>(rs[..i + 1]) == Results<C, R>(rs[..i]) + [Result(rs[i])]
  {
  }

  /** The worker (`async_job`): the effective config first, then every
      result, then `Failed` if anything raised, and always `Done` last. */
  method AsyncJob<C, R>(b: JobBehaviour<C, R>) returns (rv: seq<RvItem<C, R>>)
    ensures rv == WorkerOutput(b)
  {
    if b.CallRaises? {
      rv := [Failed];
    } else {
      rv := [EffectiveConfig(b.cfg)];
      var i := 0;
      while i < |b.results|
        invariant i <= |b.results|
        invariant rv == [EffectiveConfig(b.cfg)] + Results(b.results[..i])
      {
        ResultsSnoc<C, R>(b.results, i);
        rv := rv + [Result(b.results[i])];
        i := i + 1;
      }
      assert b.results[..i] == b.results;
      if b.raises {
        rv := rv + [Failed];
      }
    }
    rv := rv + [Done];
  }

  predicate Ends<C, R>(x: RvItem<C, R>) { x.Done? || x.Failed? }

  /** The state of a job run as the collector leaves it. */
  datatype RunRecord<C, R> = RunRecord(config: Option<C>, stored: seq<R>, succeeded: bool, failed: bool)

  /** The collector's fold over the queue up to the first `Done` or
      `Failed`. */
  function Milked<C, R>(rv: seq<RvItem<C, R>>, run: RunRecord<C, R>): RunRecord<C, R>
  {
    if |rv| == 0 then run
    else match rv[0]
      case EffectiveConfig(cfg) => Milked(rv[1..], run.(config := Some(cfg)))
      case Done => run.(succeeded := true)
      case Failed => run.(failed := true)
      case Result(x) => Milked(rv[1..], run.(stored := run.stored + [x]))
  }

  /** `async_job_milker`: starting from a job run with no flag set, store the
      config, attach each result, and set `succeeded` on `Done` or `failed`
      on `Failed`, whichever comes first. */
  method Milker<C, R>(rv: seq<RvItem<C, R>>) returns (run: RunRecord<C, R>)
    requires exists k :: 0 <= k < |rv| && Ends(rv[k])
    ensures run == Milked(rv, RunRecord(None, [], false, false))
    ensures run.succeeded != run.failed
  {
    run := RunRecord(None, [], false, false);
    var i := 0;
    while true
      invariant i < |rv| && !run.succeeded && !run.failed
      invariant exists k :: i <= k < |rv| && Ends(rv[k])
      invariant Milked(rv, RunRecord(None, [], false, false)) == Milked(rv[i..], run)
      decreases |rv| - i
    {
      var res := rv[i];
      assert rv[i..][1..] == rv[i + 1..];
      match res {
        case EffectiveConfig(cfg) =>
          run := run.(config := Some(cfg));
        case Done =>
          run := run.(succeeded := true);
          return;
        case Failed =>
          run := run.(failed := true);
          return;
        case Result(x) =>
          run := run.(stored := run.stored + [x]);
      }
      i := i + 1;
    }
  }

  lemma {:induction false} MilkedResults<C, R>(rs: seq<R>, tail: seq<RvItem<C, R>>, run: RunRecord<C, R>)
    ensures Milked(Results(rs) + tail, run) == Milked(tail, run.(stored := run.stored + rs))
  {
    if |rs| == 0 {
      assert Results<C, R>(rs) + tail == tail;
      assert run.stored + rs == run.stored;
    } else {
      var rest := Results<C, R>(rs[1..]) + tail;
      ResultsCons<C, R>(rs, tail);
      MilkedResult(rs[0], rest, run);
      var run' := run.(stored := run.stored + [rs[0]]);
      MilkedResults(rs[1..], tail, run');
      StoredCons(run, rs);
    }
  }

  lemma ResultsCons<C, R>(rs: seq<R>, tail: seq<RvItem<C, R>>)
    requires |rs| > 0
    ensures Results<C, R>(rs) + tail == [Result(rs[0])] + (Results<C, R>(rs[1..]) + tail)
  {
  }

  lemma StoredCons<C, R>(run: RunRecord<C, R>, rs: seq<R>)
    requires |rs| > 0
    ensures run.(stored := run.stored + [rs[0]]).(stored := run.stored + [rs[0]] + rs[1..]) == run.(stored := run.stored + rs)
  {
    assert run.stored + [rs[0]] + rs[1..] == run.stored + rs;
  }

  lemma MilkedResult<C, R>(x: R, rest: seq<RvItem<C, R>>, run: RunRecord<C, R>)
    ensures Milked([Result(x)] + rest, run) == Milked(rest, run.(stored := run.stored + [x]))
  {
    assert ([Result(x)] + rest)[1..] == rest;
  }

  /** Whatever the job does, the collector ends with exactly one flag set:
      `succeeded` iff the job returned and its results ran out without an
      exception; every result is attached, in order, and the effective
      config is recorded iff the job call returned. */
  lemma JobOutcome<C, R>(b: JobBehaviour<C, R>)
    ensures var run := Milked(WorkerOutput(b), RunRecord(None, [], false, false));
      run.succeeded != run.failed &&
      (run.succeeded <==> b.Runs? && !b.raises) &&
      (run.config.Some? <==> b.Runs?) &&
      (b.Runs? ==> run.config == Some(b.cfg) && run.stored == b.results) &&
      (b.CallRaises? ==> run.stored == [])
  {
    if b.Runs? {
      var start: RunRecord<C, R> := RunRecord(Some(b.cfg), [], false, false);
      var tail: seq<RvItem<C, R>> := (if b.raises then [Failed] else []) + [Done];
      assert WorkerOutput(b) == [EffectiveConfig(b.cfg)] + (Results(b.results) + tail);
      assert WorkerOutput(b)[1..] == Results(b.results) + tail;
      MilkedResults(b.results, tail, start);
      assert [] + b.results == b.results;
    }
  }
}

module MultiplexProofs {
  import opened Wrappers
  import opened Utils

  /** What is still to come from processor `k`'s generator. */
  function ItemsOf<T>(gens: seq<Live<T>>, k: nat): seq<T>
  {
    if |gens| == 0 then [] else if gens[0].tag == k then gens[0].rest else ItemsOf(gens[1..], k)
  }

  predicate TagsIncreasing<T>(gens: seq<Live<T>>)
  {
    forall i, j :: 0 <= i < j < |gens| ==> gens[i].tag < gens[j].tag
  }

  lemma ItemsOfAt<T>(gens: seq<Live<T>>, j: nat)
    requires TagsIncreasing(gens) && j < |gens|
    ensures ItemsOf(gens, gens[j].tag) == gens[j].rest
  {
    if j > 0 {
      ItemsOfAt(gens[1..], j - 1);
    }
  }

  lemma ItemsOfAbsent<T>(gens: seq<Live<T>>, k: nat)
    requires forall j :: 0 <= j < |gens| ==> gens[j].tag != k
    ensures ItemsOf(gens, k) == []
  {
    if |gens| > 0 {
      ItemsOfAbsent(gens[1..], k);
    }
  }

  /** `out` yielded while the generators went from `before` to `after`
      accounts for exactly the items they consumed. */
  ghost predicate Accounts<T>(out: seq<(nat, T)>, before: seq<Live<T>>, after: seq<Live<T>>)
  {
    forall k: nat :: Project(out, k) + ItemsOf(after, k) == ItemsOf(before, k)
  }

  ghost predicate Raiser<T>(gens: seq<Live<T>>)
  {
    exists j :: 0 <= j < |gens| && gens[j].raises
  }

  lemma VisitAccounts<T>(gens: seq<Live<T>>, i: nat, dontCatch: bool)
    requires TagsIncreasing(gens) && i < |gens|
    ensures var v := VisitAt(gens, i, dontCatch);
      !v.raised ==> TagsIncreasing(v.gens) && Accounts(v.out, gens, v.gens)
    ensures var v := VisitAt(gens, i, dontCatch);
      v.raised ==> dontCatch && Raiser(gens) && v.out == []
    ensures var v := VisitAt(gens, i, dontCatch);
      !v.raised && dontCatch ==> (Raiser(v.gens) <==> Raiser(gens))
  {
    var v := VisitAt(gens, i, dontCatch);
    if !v.raised {
      forall k: nat
        ensures Project(v.out, k) + ItemsOf(v.gens, k) == ItemsOf(gens, k)
      {
        VisitItems(gens, i, dontCatch, k);
      }
      if dontCatch {
        VisitKeepsRaiser(gens, i);
      }
    } else {
      assert gens[i].raises;
    }
  }

  lemma VisitItems<T>(gens: seq<Live<T>>, i: nat, dontCatch: bool, k: nat)
    requires TagsIncreasing(gens) && i < |gens|
    requires !VisitAt(gens, i, dontCatch).raised
    ensures var v := VisitAt(gens, i, dontCatch);
      Project(v.out, k) + ItemsOf(v.gens, k) == ItemsOf(gens, k)
  {
    var v := VisitAt(gens, i, dontCatch);
    if exists j :: 0 <= j < |v.gens| && v.gens[j].tag == k {
      var j :| 0 <= j < |v.gens| && v.gens[j].tag == k;
      VisitItemsPresent(gens, i, dontCatch, j);
    } else {
      VisitItemsAbsent(gens, i, dontCatch, k);
    }
  }

  lemma VisitItemsPresent<T>(gens: seq<Live<T>>, i: nat, dontCatch: bool, j: nat)
    requires TagsIncreasing(gens) && i < |gens|
    requires !VisitAt(gens, i, dontCatch).raised
    requires j < |VisitAt(gens, i, dontCatch).gens|
    ensures var v := VisitAt(gens, i, dontCatch);
      TagsIncreasing(v.gens) &&
      Project(v.out, v.gens[j].tag) + ItemsOf(v.gens, v.gens[j].tag) == ItemsOf(gens, v.gens[j].tag)
  {
    var v := VisitAt(gens, i, dontCatch);
    var g := gens[i];
    if |g.rest| > 0 {
      assert v.out == [(g.tag, g.rest[0])] && v.gens == gens[i := Live(g.tag, g.rest[1..], g.raises)];
      AdvancePresent(gens, i, j);
    } else {
      assert v.out == [] && v.gens == gens[..i] + gens[i + 1..];
      DropPresent(gens, i, j);
    }
  }

  /** A processor that yields keeps its place; the item yielded and the
      items left are the items it had. */
  lemma AdvancePresent<T>(gens: seq<Live<T>>, i: nat, j: nat)
    requires TagsIncreasing(gens) && i < |gens| && |gens[i].rest| > 0 && j < |gens|
    ensures var g := gens[i];
      var gens' := gens[i := Live(g.tag, g.rest[1..], g.raises)];
      TagsIncreasing(gens') &&
      Project([(g.tag, g.rest[0])], gens'[j].tag) + ItemsOf(gens', gens'[j].tag) == ItemsOf(gens, gens'[j].tag)
  {
    var g := gens[i];
    var gens' := gens[i := Live(g.tag, g.rest[1..], g.raises)];
    ItemsOfAt(gens', j);
    ItemsOfAt(gens, j);
    if j == i {
      assert g.rest == [g.rest[0]] + g.rest[1..];
    }
  }

  /** A finished processor leaves the list; the others keep their items. */
  lemma DropPresent<T>(gens: seq<Live<T>>, i: nat, j: nat)
    requires TagsIncreasing(gens) && i < |gens| && |gens[i].rest| == 0 && j < |gens| - 1
    ensures var gens' := gens[..i] + gens[i + 1..];
      TagsIncreasing(gens') &&
      Project([], gens'[j].tag) + ItemsOf(gens', gens'[j].tag) == ItemsOf(gens, gens'[j].tag)
  {
    var gens' := gens[..i] + gens[i + 1..];
    assert forall a :: 0 <= a < |gens'| ==> gens'[a] == if a < i then gens[a] else gens[a + 1];
    ItemsOfAt(gens', j);
    if j < i {
      ItemsOfAt(gens, j);
    } else {
      ItemsOfAt(gens, j + 1);
    }
  }

  lemma VisitItemsAbsent<T>(gens: seq<Live<T>>, i: nat, dontCatch: bool, k: nat)
    requires TagsIncreasing(gens) && i < |gens|
    requires !VisitAt(gens, i, dontCatch).raised
    requires forall j :: 0 <= j < |VisitAt(gens, i, dontCatch).gens| ==> VisitAt(gens, i, dontCatch).gens[j].tag != k
    ensures var v := VisitAt(gens, i, dontCatch);
      Project(v.out, k) + ItemsOf(v.gens, k) == ItemsOf(gens, k)
  {
    var v := VisitAt(gens, i, dontCatch);
    var g := gens[i];
    ItemsOfAbsent(v.gens, k);
    if |g.rest| > 0 {
      assert forall j :: 0 <= j < |gens| ==> gens[j].tag == v.gens[j].tag;
      ItemsOfAbsent(gens, k);
    } else if k == g.tag {
      ItemsOfAt(gens, i);
    } else {
      forall j | 0 <= j < |gens| ensures gens[j].tag != k {
        if j < i { assert v.gens[j] == gens[j]; }
        else if j > i { assert v.gens[j - 1] == gens[j]; }
      }
      ItemsOfAbsent(gens, k);
    }
  }

  lemma VisitKeepsRaiser<T>(gens: seq<Live<T>>, i: nat)
    requires i < |gens| && !VisitAt(gens, i, true).raised
    ensures Raiser(VisitAt(gens, i, true).gens) <==> Raiser(gens)
  {
    var v := VisitAt(gens, i, true);
    var g := gens[i];
    if Raiser(gens) {
      var j :| 0 <= j < |gens| && gens[j].raises;
      if j < i { assert v.gens[j] == gens[j]; }
      else if j == i { assert v.gens[j].raises; }
      else if |g.rest| > 0 { assert v.gens[j] == gens[j]; }
      else { assert v.gens[j - 1] == gens[j]; }
    }
    if Raiser(v.gens) {
      var j :| 0 <= j < |v.gens| && v.gens[j].raises;
      if |g.rest| > 0 || j < i { assert v.gens[j].raises == gens[j].raises; }
      else { assert v.gens[j] == gens[j + 1]; }
    }
  }

  lemma AccountsTrans<T>(o1: seq<(nat, T)>, o2: seq<(nat, T)>, g0: seq<Live<T>>, g1: seq<Live<T>>, g2: seq<Live<T>>)
    requires Accounts(o1, g0, g1) && Accounts(o2, g1, g2)
    ensures Accounts(o1 + o2, g0, g2)
  {
    forall k: nat
      ensures Project(o1 + o2, k) + ItemsOf(g2, k) == ItemsOf(g0, k)
    {
      ProjectAppend(o1, o2, k);
      assert Project(o1, k) + (Project(o2, k) + ItemsOf(g2, k)) == ItemsOf(g0, k);
    }
  }

  lemma AccountsNothing<T>(gens: seq<Live<T>>)
    ensures Accounts([], gens, gens)
  {
    forall k: nat ensures Project([], k) + ItemsOf(gens, k) == ItemsOf(gens, k) {
      assert [] + ItemsOf(gens, k) == ItemsOf(gens, k);
    }
  }

  lemma {:induction false} RoundAccounts<T>(gens: seq<Live<T>>, i: nat, dontCatch: bool)
    requires TagsIncreasing(gens)
    ensures var r := Round(gens, i, dontCatch);
      !r.raised ==> TagsIncreasing(r.gens) && Accounts(r.out, gens, r.gens)
    ensures var r := Round(gens, i, dontCatch);
      r.raised ==> dontCatch && Raiser(gens) && (exists g1 :: Accounts(r.out, gens, g1))
    ensures var r := Round(gens, i, dontCatch);
      !r.raised && dontCatch ==> (Raiser(r.gens) <==> Raiser(gens))
    decreases |gens| + 1 - i
  {
    if i >= |gens| {
      AccountsNothing(gens);
    } else {
      VisitAccounts(gens, i, dontCatch);
      var v := VisitAt(gens, i, dontCatch);
      if v.raised {
        AccountsNothing(gens);
      } else {
        RoundAccounts(v.gens, v.next, dontCatch);
        var r := Round(v.gens, v.next, dontCatch);
        if r.raised {
          var g1 :| Accounts(r.out, v.gens, g1);
          AccountsTrans(v.out, r.out, gens, v.gens, g1);
        } else {
          AccountsTrans(v.out, r.out, gens, v.gens, r.gens);
        }
      }
    }
  }

  lemma {:induction false} RunAccounts<T>(gens: seq<Live<T>>, dontCatch: bool)
    requires TagsIncreasing(gens)
    ensures var o := Run(gens, dontCatch);
      !o.raised ==> Accounts(o.out, gens, [])
    ensures var o := Run(gens, dontCatch);
      o.raised ==> exists g1 :: Accounts(o.out, gens, g1)
    ensures Run(gens, dontCatch).raised <==> dontCatch && Raiser(gens)
    decreases Measure(gens)
  {
    if |gens| == 0 {
      AccountsNothing(gens);
    } else {
      RoundAccounts(gens, 0, dontCatch);
      var r := Round(gens, 0, dontCatch);
      RunUnfold(gens, dontCatch, r);
      if !r.raised {
        RunAccounts(r.gens, dontCatch);
        var o := Run(r.gens, dontCatch);
        if o.raised {
          var g1 :| Accounts(o.out, r.gens, g1);
          AccountsTrans(r.out, o.out, gens, r.gens, g1);
        } else {
          AccountsTrans(r.out, o.out, gens, r.gens, []);
        }
      }
    }
  }

  /** What processor `k` yields when it is iterated to the end. */
  function Produces<T>(procs: seq<Processor<T>>, k: nat): seq<T>
  {
    if k < |procs| && procs[k].Generator? then procs[k].items else []
  }

  lemma {:induction false} StartItems<T>(procs: seq<Processor<T>>, dontCatch: bool, from: nat)
    requires from <= |procs|
    ensures var s := Start(procs, dontCatch, from);
      s.Some? ==> forall k: nat :: ItemsOf(s.value, k) == (if from <= k then Produces(procs, k) else [])
    decreases |procs| - from
  {
    var s := Start(procs, dontCatch, from);
    if from < |procs| && s.Some? {
      StartItems(procs, dontCatch, from + 1);
      var rest := Start(procs, dontCatch, from + 1);
      forall k: nat ensures ItemsOf(s.value, k) == (if from <= k then Produces(procs, k) else []) {
        if procs[from].Generator? {
          assert s.value[1..] == rest.value;
        }
      }
    }
  }

  lemma {:induction false} StartNone<T>(procs: seq<Processor<T>>, dontCatch: bool, from: nat)
    requires from <= |procs|
    ensures Start(procs, dontCatch, from).None? <==>
      dontCatch && exists k :: from <= k < |procs| && procs[k].RaisesOnCall?
    decreases |procs| - from
  {
    if from < |procs| {
      StartNone(procs, dontCatch, from + 1);
    }
  }

  ghost predicate RaisesMidStream<T>(procs: seq<Processor<T>>, from: nat)
  {
    exists k :: from <= k < |procs| && procs[k].Generator? && procs[k].raises
  }

  lemma {:induction false} StartRaiser<T>(procs: seq<Processor<T>>, dontCatch: bool, from: nat)
    requires from <= |procs|
    ensures var s := Start(procs, dontCatch, from);
      s.Some? ==> (Raiser(s.value) <==> RaisesMidStream(procs, from))
    decreases |procs| - from
  {
    var s := Start(procs, dontCatch, from);
    if from < |procs| && s.Some? {
      StartRaiser(procs, dontCatch, from + 1);
      if procs[from].Generator? {
        StartRaiserGenerator(procs, dontCatch, from);
      } else if RaisesMidStream(procs, from) {
        var k :| from <= k < |procs| && procs[k].Generator? && procs[k].raises;
        assert RaisesMidStream(procs, from + 1);
      }
    }
  }

  lemma StartRaiserGenerator<T>(procs: seq<Processor<T>>, dontCatch: bool, from: nat)
    requires from < |procs| && procs[from].Generator?
    requires Start(procs, dontCatch, from).Some?
    requires Raiser(Start(procs, dontCatch, from + 1).value) <==> RaisesMidStream(procs, from + 1)
    ensures Raiser(Start(procs, dontCatch, from).value) <==> RaisesMidStream(procs, from)
  {
    var s := Start(procs, dontCatch, from);
    var rest := Start(procs, dontCatch, from + 1);
    assert s.value == [Live(from, procs[from].items, procs[from].raises)] + rest.value;
    if Raiser(s.value) {
      var j :| 0 <= j < |s.value| && s.value[j].raises;
      if j > 0 {
        assert rest.value[j - 1].raises;
      }
    }
    if RaisesMidStream(procs, from) {
      var k :| from <= k < |procs| && procs[k].Generator? && procs[k].raises;
      if k == from {
        assert s.value[0].raises;
      } else {
        assert RaisesMidStream(procs, from + 1);
        var j :| 0 <= j < |rest.value| && rest.value[j].raises;
        assert s.value[j + 1].raises;
      }
    }
  }

  /** Without `dont_catch`, `multiplex` never raises, and each processor
      that returned a generator has all of its items yielded, in order;
      a processor that raised on call contributes nothing. */
  lemma MultiplexCatching<T>(procs: seq<Processor<T>>)
    ensures !MultiplexSpec(procs, false).raised
    ensures forall k: nat :: Project(MultiplexSpec(procs, false).out, k) == Produces(procs, k)
  {
    StartNone(procs, false, 0);
    StartItems(procs, false, 0);
    var s := Start(procs, false, 0);
    RunAccounts(s.value, false);
    var o := Run(s.value, false);
    forall k: nat ensures Project(o.out, k) == Produces(procs, k) {
      assert Project(o.out, k) + ItemsOf([], k) == ItemsOf(s.value, k);
    }
  }

  /** With `dont_catch`, an exception escapes exactly when some processor
      raises, on call or mid-stream; otherwise every item is yielded, in
      order per processor. */
  lemma MultiplexDontCatch<T>(procs: seq<Processor<T>>)
    ensures MultiplexSpec(procs, true).raised <==>
      exists k :: 0 <= k < |procs| && (procs[k].RaisesOnCall? || procs[k].raises)
    ensures !MultiplexSpec(procs, true).raised ==>
      forall k: nat :: Project(MultiplexSpec(procs, true).out, k) == Produces(procs, k)
  {
    StartItems(procs, true, 0);
    StartNone(procs, true, 0);
    StartRaiser(procs, true, 0);
    var s := Start(procs, true, 0);
    if s.Some? {
      RunAccounts(s.value, true);
      var o := Run(s.value, true);
      if !o.raised {
        forall k: nat ensures Project(o.out, k) == Produces(procs, k) {
          assert Project(o.out, k) + ItemsOf([], k) == ItemsOf(s.value, k);
        }
      }
    }
  }
}

module MultiplexExamples {
  import opened Wrappers
  import opened Utils

  /** When a generator is removed during a round, the one after it is not
      visited until the next round. */
  lemma RemovalSkipsNext()
    ensures Round([Live(0, [], false), Live(1, [7], false)], 0, false).out == []
    ensures MultiplexSpec([Generator([], false), Generator([7], false)], false).out == [(1, 7)]
  {
  }
}
