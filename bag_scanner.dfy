/** The bag scanner of `bagbunker.scanner`: it parses `name_<n>.bag` file
    names, yields a plain `name.bag` as a one-file set at once, and then, per
    directory, walks the indexed files in descending (basename, index)
    order, assembling runs that end at index 0 and discarding a run at the
    first gap. */
module BagScanner {
  import opened Wrappers
  import opened Strings
  import opened Sorting
  import opened Utils
  import opened MarvScanner

  /** The tail `(?:_(\d+))?\.bag$` must match, as the regular expression
      sees it: `None` when it does not, otherwise the optional index. `$`
      also matches before a final newline. */
  function SuffixIndex(rest: string): Option<Option<nat>>
  {
    var n := |rest|;
    if rest == ".bag" || rest == ".bag\n" then Some(None)
    else
      var core := if n > 0 && rest[n - 1] == '\n' then rest[..n - 1] else rest;
      var m := |core|;
      if m >= 6 && core[0] == '_' && core[m - 4..] == ".bag" && AllDigits(core[1..m - 4])
      then Some(Some(DigitsValue(core[1..m - 4])))
      else None
  }

  /** The lazy `(.*?)` tried at lengths `start`, `start + 1`, … : the first
      length whose remainder matches wins; `.` cannot pass a newline. */
  function ParseFrom(name: string, start: nat): Option<(string, Option<nat>)>
    requires start <= |name|
    decreases |name| - start
  {
    match SuffixIndex(name[start..])
    case Some(idx) => Some((name[..start], idx))
    case None =>
      if start < |name| && name[start] != '\n' then ParseFrom(name, start + 1) else None
  }

  /** `fileset_re.match(name).groups()`, with `None` for no match. */
  function ParseBagName(name: string): Option<(string, Option<nat>)>
  {
    ParseFrom(name, 0)
  }

  /** The index is taken from the final `_<digits>.bag`: everything before
      it, underscores and digits included, is the basename. */
  lemma ParseIndexed(base: string, digits: string)
    requires '\n' !in base && |digits| > 0 && AllDigits(digits)
    ensures ParseBagName(base + "_" + digits + ".bag") == Some((base, Some(DigitsValue(digits))))
  {
    var name := base + "_" + digits + ".bag";
    ParseIndexedFrom(base, digits, 0);
  }

  lemma {:induction false} ParseIndexedFrom(base: string, digits: string, start: nat)
    requires '\n' !in base && |digits| > 0 && AllDigits(digits) && start <= |base|
    ensures ParseFrom(base + "_" + digits + ".bag", start) == Some((base, Some(DigitsValue(digits))))
    decreases |base| - start
  {
    var name := base + "_" + digits + ".bag";
    var rest := name[start..];
    if start == |base| {
      assert rest == "_" + digits + ".bag";
      assert rest[1..|rest| - 4] == digits;
      assert name[..start] == base;
    } else {
      SuffixMissesEarly(base, digits, start);
      assert name[start] == base[start];
      ParseIndexedFrom(base, digits, start + 1);
    }
  }

  /** Before the basename ends, the remainder does not match the tail: an
      underscore of the name would have to be a digit. */
  lemma SuffixMissesEarly(base: string, digits: string, start: nat)
    requires start < |base|
    ensures SuffixIndex((base + "_" + digits + ".bag")[start..]) == None
  {
    var tail := "_" + digits + ".bag";
    var rest := base[start..] + tail;
    assert (base + "_" + digits + ".bag")[start..] == rest by {
      assert base + "_" + digits + ".bag" == base + tail;
    }
    assert rest[|rest| - 1] == 'g' && |rest| > 5;
    var k := |base| - start - 1;
    assert rest[1..|rest| - 4][k] == rest[k + 1] == tail[0] == '_';
  }

  /** A match always splits the name into the basename and a suffix of
      the accepted form. */
  lemma {:induction false} ParseSound(name: string, start: nat)
    requires start <= |name|
    ensures match ParseFrom(name, start)
      case None => true
      case Some((base, idx)) => StartsWith(name, base) && SuffixIndex(name[|base|..]) == Some(idx)
    decreases |name| - start
  {
    if SuffixIndex(name[start..]).None? && start < |name| && name[start] != '\n' {
      ParseSound(name, start + 1);
    }
  }

  /** An entry of `setfiles[dirpath]`. */
  datatype Entry = Entry(base: string, idx: nat, info: FileInfo)

  predicate StrLt(a: string, b: string)
  {
    StrLe(a, b) && a != b
  }

  predicate InfoLe(x: FileInfo, y: FileInfo)
  {
    StrLt(x.dirpath, y.dirpath) || (x.dirpath == y.dirpath && StrLe(x.name, y.name))
  }

  /** Python's tuple order on `(basename, idx, fileinfo)`. */
  predicate EntryLe(a: Entry, b: Entry)
  {
    StrLt(a.base, b.base) ||
    (a.base == b.base && (a.idx < b.idx || (a.idx == b.idx && InfoLe(a.info, b.info))))
  }

  /** The order of `sorted(..., reverse=True)`. */
  predicate Descending(a: Entry, b: Entry)
  {
    EntryLe(b, a)
  }

  lemma StrLtTrans(a: string, b: string, c: string)
    ensures StrLt(a, b) && StrLe(b, c) ==> StrLt(a, c)
    ensures StrLe(a, b) && StrLt(b, c) ==> StrLt(a, c)
  {
    if StrLe(a, b) && StrLe(b, c) {
      StrLeTrans(a, b, c);
      if a == c {
        StrLeAntisym(a, b);
      }
    }
  }

  lemma StrLtTotal(a: string, b: string)
    ensures StrLt(a, b) || a == b || StrLt(b, a)
  {
    StrLeTotal(a, b);
  }

  lemma InfoOrder(x: FileInfo, y: FileInfo, z: FileInfo)
    ensures InfoLe(x, y) || InfoLe(y, x)
    ensures InfoLe(x, y) && InfoLe(y, z) ==> InfoLe(x, z)
  {
    StrLtTotal(x.dirpath, y.dirpath);
    StrLeTotal(x.name, y.name);
    StrLtTrans(x.dirpath, y.dirpath, z.dirpath);
    StrLtTrans(x.dirpath, z.dirpath, y.dirpath);
    if InfoLe(x, y) && InfoLe(y, z) && x.dirpath == y.dirpath == z.dirpath {
      StrLeTrans(x.name, y.name, z.name);
    }
    if StrLt(x.dirpath, y.dirpath) && StrLt(y.dirpath, z.dirpath) {
      StrLtTrans(x.dirpath, y.dirpath, z.dirpath);
    }
  }

  lemma EntryOrder()
    ensures TotalPreorder(Descending)
  {
    forall a: Entry, b: Entry ensures Descending(a, b) || Descending(b, a) {
      StrLtTotal(a.base, b.base);
      InfoOrder(a.info, b.info, a.info);
    }
    forall a: Entry, b: Entry, c: Entry | Descending(a, b) && Descending(b, c)
      ensures Descending(a, c)
    {
      InfoOrder(c.info, b.info, a.info);
      StrLtTrans(c.base, b.base, a.base);
      StrLtTrans(c.base, a.base, b.base);
      if StrLt(c.base, b.base) && StrLt(b.base, a.base) {
        StrLtTrans(c.base, b.base, a.base);
      }
    }
  }

  /** `sorted(dirfiles, reverse=True)`. */
  function SortDescending(entries: seq<Entry>): (r: seq<Entry>)
    ensures SortedBy(r, Descending) && multiset(r) == multiset(entries)
  {
    EntryOrder();
    SortBy(entries, Descending)
  }

  /** The variables of the assembly loop: `indexed_files`, `prev_idx` and
      `sets`. */
  datatype Acc = Acc(indexed: seq<(int, FileInfo)>, prev: Option<nat>, sets: seq<FilesetInfo>)

  /** One iteration of the assembly loop. A gap discards the run so far; the
      entry is put in front; at index 0 the run becomes a set, named after
      this entry's basename, put in front of the sets. */
  function Step(acc: Acc, e: Entry): Acc
  {
    var (indexed, prev) :=
      if acc.prev.Some? && e.idx != acc.prev.value - 1 then ([], None) else (acc.indexed, acc.prev);
    var run := [(e.idx as int, e.info)] + indexed;
    if e.idx == 0 then Acc([], None, [FilesetInfo("bag", e.info.dirpath, e.base, run)] + acc.sets)
    else Acc(run, Some(e.idx), acc.sets)
  }

  function Assemble(entries: seq<Entry>): Acc
  {
    if |entries| == 0 then Acc([], None, [])
    else Step(Assemble(entries[..|entries| - 1]), entries[|entries| - 1])
  }

  /** The inner loop of the scanner over one directory's sorted entries. */
  method AssembleRuns(entries: seq<Entry>) returns (sets: seq<FilesetInfo>)
    ensures sets == Assemble(entries).sets
  {
    var indexed: seq<(int, FileInfo)> := [];
    var prev: Option<nat> := None;
    sets := [];
    for i := 0 to |entries|
      invariant Acc(indexed, prev, sets) == Assemble(entries[..i])
    {
      assert entries[..i + 1][..i] == entries[..i];
      var e := entries[i];
      if prev.Some? && e.idx != prev.value - 1 {
        indexed := [];
        prev := None;
      }
      indexed := [(e.idx as int, e.info)] + indexed;
      if e.idx == 0 {
        sets := [FilesetInfo("bag", e.info.dirpath, e.base, indexed)] + sets;
        indexed := [];
        prev := None;
      } else {
        prev := Some(e.idx);
      }
    }
    assert entries[..|entries|] == entries;
  }

  /** Indices 0, 1, … in ascending order. */
  predicate FromZero(files: seq<(int, FileInfo)>)
  {
    |files| >= 1 && forall j :: 0 <= j < |files| ==> files[j].0 == j
  }

  /** What the loop keeps: a pending run counts up from `prev_idx` by one,
      and every set counts up from 0. */
  predicate Inv(acc: Acc)
  {
    (acc.prev.None? ==> acc.indexed == []) &&
    (acc.prev.Some? ==> acc.prev.value >= 1 && |acc.indexed| >= 1) &&
    (acc.prev.Some? ==> forall j :: 0 <= j < |acc.indexed| ==> acc.indexed[j].0 == acc.prev.value + j) &&
    (forall k :: 0 <= k < |acc.sets| ==> FromZero(acc.sets[k].indexedFiles))
  }

  lemma StepInv(acc: Acc, e: Entry)
    requires Inv(acc)
    ensures Inv(Step(acc, e))
  {
    var (indexed, prev) :=
      if acc.prev.Some? && e.idx != acc.prev.value - 1 then ([], None) else (acc.indexed, acc.prev);
    var run := [(e.idx as int, e.info)] + indexed;
    assert forall j :: 1 <= j < |run| ==> run[j] == indexed[j - 1];
    if e.idx == 0 {
      var s := FilesetInfo("bag", e.info.dirpath, e.base, run);
      assert FromZero(run);
      assert forall k :: 1 <= k < |acc.sets| + 1 ==> ([s] + acc.sets)[k] == acc.sets[k - 1];
    }
  }

  /** Every emitted set has indices exactly 0, 1, …, k in ascending order. */
  lemma {:induction false} AssembleFromZero(entries: seq<Entry>)
    ensures Inv(Assemble(entries))
    ensures forall k :: 0 <= k < |Assemble(entries).sets| ==> FromZero(Assemble(entries).sets[k].indexedFiles)
  {
    if |entries| > 0 {
      AssembleFromZero(entries[..|entries| - 1]);
      StepInv(Assemble(entries[..|entries| - 1]), entries[|entries| - 1]);
    }
  }

  /** The index-0 entries, last first: each of them closes a set. */
  function Zeros(entries: seq<Entry>): (r: seq<Entry>)
    ensures forall k :: 0 <= k < |r| ==> r[k] in entries && r[k].idx == 0
  {
    if |entries| == 0 then []
    else
      var init := entries[..|entries| - 1];
      var e := entries[|entries| - 1];
      assert forall x :: x in init ==> x in entries;
      if e.idx == 0 then [e] + Zeros(init) else Zeros(init)
  }

  /** There is one set per index-0 entry, the set of the last such entry
      first; each is of type `bag`, named after the basename of its index-0
      file and placed in that file's directory. */
  lemma {:induction false} AssembleZeros(entries: seq<Entry>)
    ensures var sets := Assemble(entries).sets; var z := Zeros(entries);
      |sets| == |z| &&
      forall k :: 0 <= k < |sets| ==>
        sets[k].kind == "bag" && sets[k].name == z[k].base && sets[k].dirpath == z[k].info.dirpath &&
        |sets[k].indexedFiles| >= 1 && sets[k].indexedFiles[0] == (0, z[k].info)
  {
    if |entries| > 0 {
      var init := entries[..|entries| - 1];
      var e := entries[|entries| - 1];
      AssembleZeros(init);
      var before := Assemble(init).sets;
      var after := Assemble(entries).sets;
      if e.idx == 0 {
        assert forall k :: 1 <= k < |after| ==> after[k] == before[k - 1];
        assert forall k :: 1 <= k < |after| ==> Zeros(entries)[k] == Zeros(init)[k - 1];
      } else {
        assert after == before;
      }
    }
  }

  /** Over entries sorted in descending order, the index-0 entries taken
      last first are ascending: within a directory the sets come out in
      ascending (basename, file) order. */
  lemma {:induction false} ZerosAscending(entries: seq<Entry>)
    requires SortedBy(entries, Descending)
    ensures var z := Zeros(entries); forall k, l :: 0 <= k < l < |z| ==> EntryLe(z[k], z[l])
  {
    if |entries| > 0 {
      var init := entries[..|entries| - 1];
      var e := entries[|entries| - 1];
      assert SortedBy(init, Descending) by {
        assert forall i :: 0 <= i < |init| ==> init[i] == entries[i];
      }
      ZerosAscending(init);
      if e.idx == 0 {
        var z := Zeros(entries);
        forall l | 1 <= l < |z| ensures EntryLe(z[0], z[l]) {
          var x := z[l];
          assert x == Zeros(init)[l - 1];
          assert x in init;
          var i :| 0 <= i < |init| && init[i] == x;
          assert entries[i] == x;
        }
      }
    }
  }

  function Flatten(sets: seq<FilesetInfo>): seq<(int, FileInfo)>
  {
    if |sets| == 0 then [] else sets[0].indexedFiles + Flatten(sets[1..])
  }

  /** The entries as `(idx, fileinfo)` pairs, last first. */
  function Reversed(entries: seq<Entry>): seq<(int, FileInfo)>
  {
    if |entries| == 0 then []
    else
      var e := entries[|entries| - 1];
      [(e.idx as int, e.info)] + Reversed(entries[..|entries| - 1])
  }

  predicate IsSubseq<T(==)>(a: seq<T>, b: seq<T>)
    decreases |b|
  {
    |a| == 0 || (|b| > 0 && ((a[0] == b[0] && IsSubseq(a[1..], b[1..])) || IsSubseq(a, b[1..])))
  }

  lemma {:induction false} SubseqDropFront<T>(p: seq<T>, q: seq<T>, b: seq<T>)
    requires IsSubseq(p + q, b)
    ensures IsSubseq(q, b)
    decreases |b|
  {
    if |p| > 0 && |b| > 0 {
      if (p + q)[0] == b[0] && IsSubseq((p + q)[1..], b[1..]) {
        assert (p + q)[1..] == p[1..] + q;
        SubseqDropFront(p[1..], q, b[1..]);
        SubseqCons(q, b[1..], b[0]);
        assert [b[0]] + b[1..] == b;
      } else {
        SubseqDropFront(p, q, b[1..]);
        SubseqCons(q, b[1..], b[0]);
        assert [b[0]] + b[1..] == b;
      }
    } else if |p| == 0 {
      assert p + q == q;
    }
  }

  lemma {:induction false} SubseqCons<T>(a: seq<T>, b: seq<T>, x: T)
    requires IsSubseq(a, b)
    ensures IsSubseq(a, [x] + b)
  {
    assert ([x] + b)[1..] == b;
  }

  /** The files of the pending run followed by those of all sets appear in
      the same order among the entries read so far (last first): no file is
      used twice, and the files of a discarded run are lost. */
  lemma {:induction false} AssembleSubseq(entries: seq<Entry>)
    ensures IsSubseq(Assemble(entries).indexed + Flatten(Assemble(entries).sets), Reversed(entries))
  {
    if |entries| > 0 {
      var init := entries[..|entries| - 1];
      var e := entries[|entries| - 1];
      var acc := Assemble(init);
      var x := (e.idx as int, e.info);
      AssembleSubseq(init);
      var rest := Reversed(init);
      assert Reversed(entries) == [x] + rest;
      var tail := Flatten(acc.sets);
      var indexed := if acc.prev.Some? && e.idx != acc.prev.value - 1 then [] else acc.indexed;
      assert IsSubseq(indexed + tail, rest) by {
        if indexed == [] {
          SubseqDropFront(acc.indexed, tail, rest);
          assert indexed + tail == tail;
        }
      }
      var run := [x] + indexed;
      assert ([x] + (indexed + tail))[1..] == indexed + tail;
      assert IsSubseq([x] + (indexed + tail), [x] + rest);
      assert run + tail == [x] + (indexed + tail);
      var after := Assemble(entries);
      if e.idx == 0 {
        var s := FilesetInfo("bag", e.info.dirpath, e.base, run);
        assert after.sets == [s] + acc.sets;
        assert Flatten(after.sets) == run + tail;
        assert after.indexed + Flatten(after.sets) == run + tail;
      } else {
        assert after.indexed + Flatten(after.sets) == run + tail;
      }
    }
  }

  /** The gap test looks only at indices: a run of one basename ending at
      index 1 is completed by the index-0 file of the next smaller basename
      into one set, named after the latter. */
  lemma GapIgnoresBasenames(f1: FileInfo, f0: FileInfo)
    ensures Assemble([Entry("b", 1, f1), Entry("a", 0, f0)]).sets ==
      [FilesetInfo("bag", f0.dirpath, "a", [(0, f0), (1, f1)])]
  {
    var entries := [Entry("b", 1, f1), Entry("a", 0, f0)];
    assert entries[..1] == [Entry("b", 1, f1)] && entries[..1][..0] == [];
    assert Assemble(entries[..1]) == Acc([(1, f1)], Some(1), []);
    assert Assemble(entries) == Step(Acc([(1, f1)], Some(1), []), Entry("a", 0, f0));
    assert [(0, f0)] + [(1, f1)] == [(0, f0), (1, f1)];
    assert Step(Acc([(1, f1)], Some(1), []), Entry("a", 0, f0)).sets ==
      [FilesetInfo("bag", f0.dirpath, "a", [(0, f0)] + [(1, f1)])] + [];
  }

  /** The runs of the test with three sets that each miss one of the files
      2, 1 and 0, walked in descending order: the set missing file 2 keeps
      two files, the one missing file 1 keeps only file 0, and the one
      missing file 0 is dropped. */
  lemma MissingMembersExample(a0: FileInfo, a1: FileInfo, b0: FileInfo, b2: FileInfo, c1: FileInfo, c2: FileInfo)
    ensures var sets := Assemble([Entry("c", 2, c2), Entry("c", 1, c1), Entry("b", 2, b2),
                                  Entry("b", 0, b0), Entry("a", 1, a1), Entry("a", 0, a0)]).sets;
      sets == [FilesetInfo("bag", a0.dirpath, "a", [(0, a0), (1, a1)]),
               FilesetInfo("bag", b0.dirpath, "b", [(0, b0)])]
  {
    var es := [Entry("c", 2, c2), Entry("c", 1, c1), Entry("b", 2, b2),
               Entry("b", 0, b0), Entry("a", 1, a1), Entry("a", 0, a0)];
    assert es[..0] == [];
    assert es[..1][..0] == [];
    assert es[..2][..1] == es[..1];
    assert es[..3][..2] == es[..2];
    assert es[..4][..3] == es[..3];
    assert es[..5][..4] == es[..4];
    assert es[..6][..5] == es[..5];
    assert es[..6] == es;
    assert Assemble(es[..1]) == Acc([(2, c2)], Some(2), []);
    assert Assemble(es[..2]) == Acc([(1, c1), (2, c2)], Some(1), []);
    assert Assemble(es[..3]) == Acc([(2, b2)], Some(2), []);
    var sb := FilesetInfo("bag", b0.dirpath, "b", [(0, b0)]);
    assert [(0, b0)] + [] == [(0, b0)];
    assert Assemble(es[..4]) == Acc([], None, [sb]);
    assert Assemble(es[..5]) == Acc([(1, a1)], Some(1), [sb]);
    assert [(0, a0)] + [(1, a1)] == [(0, a0), (1, a1)];
  }

  /** What the first loop has gathered: the sets of plain names yielded so
      far, the indexed entries per directory (`setfiles`), the directories in
      order of first appearance, and whether a name failed to match (the
      generator then raises `AttributeError` on `None.groups()`). */
  datatype Collected = Collected(singles: seq<FilesetInfo>, setfiles: map<string, seq<Entry>>,
                                 dirs: seq<string>, failed: bool)

  /** The one-file set yielded for a name without an index. */
  function Single(base: string, info: FileInfo): FilesetInfo
  {
    FilesetInfo("bag", info.dirpath, base, [(0, info)])
  }

  /** One iteration of the first loop. */
  function Gather(c: Collected, info: FileInfo): Collected
  {
    match ParseBagName(info.name)
    case None => c.(failed := true)
    case Some((base, None)) => c.(singles := c.singles + [Single(base, info)])
    case Some((base, Some(idx))) =>
      var d := info.dirpath;
      var known := d in c.setfiles;
      var before := if known then c.setfiles[d] else [];
      c.(setfiles := c.setfiles[d := before + [Entry(base, idx, info)]],
         dirs := if known then c.dirs else c.dirs + [d])
  }

  /** The first loop; a failed match stops it. */
  function Collect(infos: seq<FileInfo>): (c: Collected)
    ensures forall d :: d in c.dirs <==> d in c.setfiles
  {
    if |infos| == 0 then Collected([], map[], [], false)
    else
      var c := Collect(infos[..|infos| - 1]);
      if c.failed then c else Gather(c, infos[|infos| - 1])
  }

  /** The second loop: the directories in the given order, each with its
      entries sorted in descending order and assembled into runs. */
  function Runs(setfiles: map<string, seq<Entry>>, dirs: seq<string>): seq<FilesetInfo>
    requires forall d :: d in dirs ==> d in setfiles
  {
    if |dirs| == 0 then []
    else
      var d := dirs[|dirs| - 1];
      Runs(setfiles, dirs[..|dirs| - 1]) + Assemble(SortDescending(setfiles[d])).sets
  }

  /** The bag scanner as a generator: the plain sets in input order, then the
      runs of each directory in ascending directory order; when a name does
      not match, only the plain sets before it come out and the generator
      raises. */
  function BagScan(infos: seq<FileInfo>): Processor<FilesetInfo>
  {
    var c := Collect(infos);
    if c.failed then Generator(c.singles, true)
    else
      var dirs := SortStrings(c.dirs);
      assert forall d :: d in dirs ==> d in c.dirs by {
        assert forall d :: d in dirs ==> d in multiset(dirs);
      }
      Generator(c.singles + Runs(c.setfiles, dirs), false)
  }

  lemma {:induction false} CollectPrefixFailed(infos: seq<FileInfo>, n: nat)
    requires n <= |infos| && Collect(infos[..n]).failed
    ensures Collect(infos) == Collect(infos[..n])
    decreases |infos| - n
  {
    if n < |infos| {
      assert infos[..|infos| - 1][..n] == infos[..n];
      CollectPrefixFailed(infos[..|infos| - 1], n);
    } else {
      assert infos[..n] == infos;
    }
  }

  /** The first loop of the scanner. */
  method CollectBags(infos: seq<FileInfo>) returns (c: Collected)
    ensures c == Collect(infos)
  {
    var singles: seq<FilesetInfo> := [];
    var setfiles: map<string, seq<Entry>> := map[];
    var dirs: seq<string> := [];
    for i := 0 to |infos|
      invariant Collected(singles, setfiles, dirs, false) == Collect(infos[..i])
    {
      assert infos[..i + 1][..i] == infos[..i];
      var info := infos[i];
      assert Collect(infos[..i + 1]) == Gather(Collect(infos[..i]), info);
      var parsed := ParseBagName(info.name);
      if parsed.None? {
        CollectPrefixFailed(infos, i + 1);
        return Collected(singles, setfiles, dirs, true);
      }
      var (base, idx) := parsed.value;
      assert parsed == Some((base, idx));
      ghost var before := Collected(singles, setfiles, dirs, false);
      if idx.None? {
        singles := singles + [Single(base, info)];
        assert Gather(before, info) == Collected(singles, setfiles, dirs, false);
      } else {
        var d := info.dirpath;
        if d in setfiles {
          setfiles := setfiles[d := setfiles[d] + [Entry(base, idx.value, info)]];
        } else {
          assert [] + [Entry(base, idx.value, info)] == [Entry(base, idx.value, info)];
          setfiles := setfiles[d := [Entry(base, idx.value, info)]];
          dirs := dirs + [d];
        }
        assert Gather(before, info) == Collected(singles, setfiles, dirs, false);
      }
    }
    assert infos[..|infos|] == infos;
    c := Collected(singles, setfiles, dirs, false);
  }

  /** The scanner's generator: what it yields, and whether it raises. */
  method ScanBags(infos: seq<FileInfo>) returns (items: seq<FilesetInfo>, raises: bool)
    ensures Generator(items, raises) == BagScan(infos)
  {
    var c := CollectBags(infos);
    if c.failed {
      return c.singles, true;
    }
    var dirs := SortStrings(c.dirs);
    assert forall d :: d in dirs ==> d in c.setfiles by {
      assert forall d :: d in dirs ==> d in multiset(dirs);
    }
    var runs := AssembleDirs(c.setfiles, dirs);
    items := c.singles + runs;
    raises := false;
  }

  /** The second loop of the scanner. */
  method AssembleDirs(setfiles: map<string, seq<Entry>>, dirs: seq<string>) returns (runs: seq<FilesetInfo>)
    requires forall d :: d in dirs ==> d in setfiles
    ensures runs == Runs(setfiles, dirs)
  {
    runs := [];
    for k := 0 to |dirs|
      invariant runs == Runs(setfiles, dirs[..k])
    {
      assert dirs[..k + 1][..k] == dirs[..k];
      var sets := AssembleRuns(SortDescending(setfiles[dirs[k]]));
      runs := runs + sets;
    }
    assert dirs[..|dirs|] == dirs;
  }

  /** A set yielded for a plain name `<base>.bag` of the input. */
  predicate PlainSet(s: FilesetInfo, infos: seq<FileInfo>)
  {
    |s.indexedFiles| == 1 && s == Single(s.name, s.indexedFiles[0].1) &&
    s.indexedFiles[0].1 in infos && ParseBagName(s.indexedFiles[0].1.name) == Some((s.name, None))
  }

  /** A set assembled from indexed names: of type `bag`, indices 0, 1, …,
      named after and placed in the directory of its index-0 file, an input
      file named `<name>_<digits>.bag` with index 0. */
  predicate IndexedSet(s: FilesetInfo, infos: seq<FileInfo>)
  {
    s.kind == "bag" && FromZero(s.indexedFiles) &&
    var first := s.indexedFiles[0].1;
    first in infos && first.dirpath == s.dirpath && ParseBagName(first.name) == Some((s.name, Some(0)))
  }

  /** An entry parsed from an input file of directory `d`. */
  predicate EntryOf(e: Entry, d: string, infos: seq<FileInfo>)
  {
    e.info.dirpath == d && e.info in infos && ParseBagName(e.info.name) == Some((e.base, Some(e.idx)))
  }

  predicate Sound(c: Collected, infos: seq<FileInfo>)
  {
    (forall k :: 0 <= k < |c.singles| ==> PlainSet(c.singles[k], infos)) &&
    (forall d :: d in c.setfiles ==> forall e :: e in c.setfiles[d] ==> EntryOf(e, d, infos))
  }

  lemma {:induction false} CollectSound(infos: seq<FileInfo>)
    ensures Sound(Collect(infos), infos)
  {
    if |infos| > 0 {
      var init := infos[..|infos| - 1];
      var info := infos[|infos| - 1];
      CollectSound(init);
      var c := Collect(init);
      assert forall x :: x in init ==> x in infos;
      assert Sound(c, infos);
      if !c.failed {
        assert info in infos;
        var g := Gather(c, info);
        match ParseBagName(info.name)
        case None =>
        case Some((base, None)) =>
          assert g.singles == c.singles + [Single(base, info)];
        case Some((base, Some(idx))) =>
          var d := info.dirpath;
          forall d' | d' in g.setfiles ensures forall e :: e in g.setfiles[d'] ==> EntryOf(e, d', infos) {
            if d' == d {
              assert EntryOf(Entry(base, idx, info), d, infos);
            }
          }
      }
    }
  }

  /** The sets of one directory's runs lie in that directory. */
  lemma AssembleInDir(entries: seq<Entry>, d: string)
    requires forall e :: e in entries ==> e.info.dirpath == d
    ensures forall s :: s in Assemble(entries).sets ==> s.dirpath == d
  {
    AssembleZeros(entries);
    var sets := Assemble(entries).sets;
    forall s | s in sets ensures s.dirpath == d {
      var k :| 0 <= k < |sets| && sets[k] == s;
      assert Zeros(entries)[k] in entries;
    }
  }

  /** The sets of one directory's runs are indexed sets. */
  lemma AssembleIndexed(entries: seq<Entry>, d: string, infos: seq<FileInfo>)
    requires forall e :: e in entries ==> EntryOf(e, d, infos)
    ensures forall s :: s in Assemble(entries).sets ==> IndexedSet(s, infos)
  {
    AssembleZeros(entries);
    AssembleFromZero(entries);
    var sets := Assemble(entries).sets;
    var z := Zeros(entries);
    forall s | s in sets ensures IndexedSet(s, infos) {
      var k :| 0 <= k < |sets| && sets[k] == s;
      assert EntryOf(z[k], d, infos);
    }
  }

  /** The runs of all directories are indexed sets. */
  lemma {:induction false} RunsIndexed(setfiles: map<string, seq<Entry>>, dirs: seq<string>, infos: seq<FileInfo>)
    requires forall d :: d in dirs ==> d in setfiles
    requires forall d :: d in setfiles ==> forall e :: e in setfiles[d] ==> EntryOf(e, d, infos)
    ensures forall s :: s in Runs(setfiles, dirs) ==> IndexedSet(s, infos)
  {
    if |dirs| > 0 {
      var init := dirs[..|dirs| - 1];
      var d := dirs[|dirs| - 1];
      RunsIndexed(setfiles, init, infos);
      var entries := SortDescending(setfiles[d]);
      assert forall e :: e in entries ==> EntryOf(e, d, infos) by {
        assert forall e :: e in entries ==> e in multiset(setfiles[d]);
      }
      AssembleIndexed(entries, d, infos);
      assert Runs(setfiles, dirs) == Runs(setfiles, init) + Assemble(entries).sets;
    }
  }

  predicate DirsAscending(sets: seq<FilesetInfo>)
  {
    forall k, l :: 0 <= k < l < |sets| ==> StrLe(sets[k].dirpath, sets[l].dirpath)
  }

  /** Over directories in ascending order, the runs come out in the order
      of their directories. */
  lemma {:induction false} RunsOrdered(setfiles: map<string, seq<Entry>>, dirs: seq<string>)
    requires forall d :: d in dirs ==> d in setfiles
    requires forall d :: d in setfiles ==> forall e :: e in setfiles[d] ==> e.info.dirpath == d
    requires SortedStrings(dirs)
    ensures forall s :: s in Runs(setfiles, dirs) ==> s.dirpath in dirs
    ensures DirsAscending(Runs(setfiles, dirs))
  {
    if |dirs| > 0 {
      var init := dirs[..|dirs| - 1];
      var d := dirs[|dirs| - 1];
      SortedInit(dirs);
      RunsOrdered(setfiles, init);
      DirRuns(setfiles, d);
      AscendingAppend(Runs(setfiles, init), Assemble(SortDescending(setfiles[d])).sets, init, d);
    }
  }

  /** The directories before the last one are sorted and precede it. */
  lemma SortedInit(dirs: seq<string>)
    requires |dirs| > 0 && SortedStrings(dirs)
    ensures var init := dirs[..|dirs| - 1];
      && SortedStrings(init)
      && forall x :: x in init ==> x in dirs && StrLe(x, dirs[|dirs| - 1])
  {
    var init := dirs[..|dirs| - 1];
    forall x | x in init ensures x in dirs && StrLe(x, dirs[|dirs| - 1]) {
      var j :| 0 <= j < |init| && init[j] == x;
      assert dirs[j] == x;
    }
  }

  /** The runs of one directory lie in that directory. */
  lemma DirRuns(setfiles: map<string, seq<Entry>>, d: string)
    requires d in setfiles && forall e :: e in setfiles[d] ==> e.info.dirpath == d
    ensures forall s :: s in Assemble(SortDescending(setfiles[d])).sets ==> s.dirpath == d
  {
    var entries := SortDescending(setfiles[d]);
    assert forall e :: e in entries ==> e.info.dirpath == d by {
      assert forall e :: e in entries ==> e in multiset(setfiles[d]);
    }
    AssembleInDir(entries, d);
  }

  /** Runs of a later directory go after the runs of earlier ones. */
  lemma AscendingAppend(before: seq<FilesetInfo>, sets: seq<FilesetInfo>, init: seq<string>, d: string)
    requires DirsAscending(before) && forall s :: s in before ==> s.dirpath in init
    requires forall s :: s in sets ==> s.dirpath == d
    requires forall x :: x in init ==> StrLe(x, d)
    ensures DirsAscending(before + sets)
  {
    var r := before + sets;
    forall k, l | 0 <= k < l < |r| ensures StrLe(r[k].dirpath, r[l].dirpath) {
      if l < |before| {
        assert r[k] == before[k] && r[l] == before[l];
      } else if k >= |before| {
        assert r[k] in sets && r[l] in sets;
        StrLeRefl(d);
      } else {
        assert r[k] == before[k] && r[k] in before;
        assert r[l] in sets;
      }
    }
  }

  /** When it does not raise, the scanner yields the plain sets first, in
      input order, then the runs. */
  lemma BagScanPlainFirst(infos: seq<FileInfo>)
    ensures var g := BagScan(infos); var n := |Collect(infos).singles|;
      g.Generator? && n <= |g.items| && g.items[..n] == Collect(infos).singles &&
      forall k :: 0 <= k < n ==> PlainSet(g.items[k], infos)
  {
    var c := Collect(infos);
    CollectSound(infos);
    if !c.failed {
      var dirs := SortStrings(c.dirs);
      assert forall d :: d in dirs ==> d in c.setfiles by {
        assert forall d :: d in dirs ==> d in multiset(dirs);
      }
      var r := Runs(c.setfiles, dirs);
      assert BagScan(infos).items == c.singles + r;
      assert (c.singles + r)[..|c.singles|] == c.singles;
    }
  }

  /** After the plain sets come indexed sets only, in ascending directory
      order. */
  lemma BagScanIndexed(infos: seq<FileInfo>)
    ensures var g := BagScan(infos); var n := |Collect(infos).singles|;
      g.Generator? && n <= |g.items| &&
      (forall s :: s in g.items[n..] ==> IndexedSet(s, infos)) &&
      DirsAscending(g.items[n..])
  {
    var c := Collect(infos);
    CollectSound(infos);
    if !c.failed {
      var dirs := SortStrings(c.dirs);
      assert forall d :: d in dirs ==> d in c.setfiles by {
        assert forall d :: d in dirs ==> d in multiset(dirs);
      }
      RunsIndexed(c.setfiles, dirs, infos);
      assert forall d :: d in c.setfiles ==> forall e :: e in c.setfiles[d] ==> e.info.dirpath == d;
      RunsOrdered(c.setfiles, dirs);
      var r := Runs(c.setfiles, dirs);
      assert BagScan(infos).items == c.singles + r;
      assert (c.singles + r)[|c.singles|..] == r;
    }
  }

  /** The first loop fails exactly when some name does not match. */
  lemma {:induction false} CollectFails(infos: seq<FileInfo>)
    ensures Collect(infos).failed <==> exists i :: 0 <= i < |infos| && ParseBagName(infos[i].name).None?
  {
    if |infos| > 0 {
      var init := infos[..|infos| - 1];
      CollectFails(init);
      assert forall i :: 0 <= i < |init| ==> init[i] == infos[i];
    }
  }

  /** The generator raises exactly when some name does not match. */
  lemma BagScanRaises(infos: seq<FileInfo>)
    ensures BagScan(infos).raises <==> exists i :: 0 <= i < |infos| && ParseBagName(infos[i].name).None?
  {
    CollectFails(infos);
  }

  /** The plain sets gathered from a prefix stay at the front. */
  lemma {:induction false} CollectSinglesGrow(infos: seq<FileInfo>, m: nat)
    requires m <= |infos|
    ensures Collect(infos[..m]).singles <= Collect(infos).singles
    decreases |infos| - m
  {
    if m < |infos| {
      var init := infos[..|infos| - 1];
      assert init[..m] == infos[..m];
      CollectSinglesGrow(init, m);
    } else {
      assert infos[..m] == infos;
    }
  }

  /** Every plain name before the first failed match yields its own one-file
      set at index 0. */
  lemma PlainYielded(infos: seq<FileInfo>, i: nat, base: string)
    requires i < |infos| && ParseBagName(infos[i].name) == Some((base, None))
    requires forall j :: 0 <= j < i ==> ParseBagName(infos[j].name).Some?
    ensures Single(base, infos[i]) in BagScan(infos).items
  {
    var pre := infos[..i];
    CollectFails(pre);
    assert infos[..i + 1][..i] == pre;
    assert Collect(infos[..i + 1]).singles == Collect(pre).singles + [Single(base, infos[i])];
    CollectSinglesGrow(infos, i + 1);
    BagScanPlainFirst(infos);
    var p := Collect(infos[..i + 1]).singles;
    var s := Collect(infos).singles;
    var k := |p| - 1;
    assert p[k] == Single(base, infos[i]) && s[k] == p[k];
    assert BagScan(infos).items[..|s|][k] == s[k];
  }
}
