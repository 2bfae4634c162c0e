/** The catalogue entities of `marv.model`: files, filesets and job runs,
    with the properties the rest of the system derives from them. */
module Model {
  import opened Wrappers
  import opened Strings
  import opened Sorting

  /** A member file of a fileset. The nullable `missing` column reads as
      `false` when unset, as every reader of it does. */
  datatype File = File(md5: string, name: string, size: int, missing: bool)

  /** A catalogue row. `kind` is the `type` column. */
  datatype Fileset = Fileset(
    id: nat, md5: string, name: string, dirpath: string, kind: string,
    files: seq<File>, deleted: bool, deletedReason: Option<string>,
    timeAdded: int, timeUpdated: int, timeRead: Option<int>,
    readSucceeded: Option<bool>, readError: Option<string>)

  datatype Jobrun = Jobrun(id: nat, filesetId: nat, name: string, version: string,
                           failed: bool, succeeded: bool)

  /** `File.path`: the file name joined onto the directory of its fileset. */
  function FilePath(dirpath: string, f: File): (r: string)
    ensures EndsWith(r, f.name)
    ensures !StartsWith(f.name, "/") ==> StartsWith(r, dirpath)
  {
    PathJoin(dirpath, f.name)
  }

  /** The last path component of a file's path is its name. */
  lemma FilePathName(dirpath: string, f: File)
    requires '/' !in f.name
    ensures Last(Split(FilePath(dirpath, f), '/')) == f.name
  {
    PathJoinLast(dirpath, f.name);
  }

  /** `File.from_file`: a new row carrying only md5, name and size. */
  function FromFile(other: File): (r: File)
    ensures r.md5 == other.md5 && r.name == other.name && r.size == other.size
    ensures !r.missing
  {
    File(other.md5, other.name, other.size, false)
  }

  function Copies(files: seq<File>): (r: seq<File>)
    ensures |r| == |files|
    ensures forall i :: 0 <= i < |r| ==> r[i] == FromFile(files[i])
  {
    seq(|files|, i requires 0 <= i < |files| => FromFile(files[i]))
  }

  /** The attributes `update_from` compares, in the order it compares them. */
  datatype Attr = Name | Dirpath | Type

  const UpdateAttrs: seq<Attr> := [Name, Dirpath, Type]

  function Get(fs: Fileset, a: Attr): string
  {
    match a
    case Name => fs.name
    case Dirpath => fs.dirpath
    case Type => fs.kind
  }

  function Set(fs: Fileset, a: Attr, v: string): Fileset
  {
    match a
    case Name => fs.(name := v)
    case Dirpath => fs.(dirpath := v)
    case Type => fs.(kind := v)
  }

  /** The attributes among the first `n` of `UpdateAttrs` on which the two
      filesets differ, in that order. */
  function ChangedUpTo(self: Fileset, other: Fileset, n: nat): seq<Attr>
    requires n <= |UpdateAttrs|
  {
    if n == 0 then []
    else
      var a := UpdateAttrs[n - 1];
      ChangedUpTo(self, other, n - 1) + (if Get(self, a) != Get(other, a) then [a] else [])
  }

  /** The changed attributes spelled out: name, then dirpath, then type,
      each present exactly when it differs. */
  lemma ChangedAttrs(self: Fileset, other: Fileset)
    ensures ChangedUpTo(self, other, 3) ==
      (if self.name != other.name then [Name] else []) +
      (if self.dirpath != other.dirpath then [Dirpath] else []) +
      (if self.kind != other.kind then [Type] else [])
  {
    assert ChangedUpTo(self, other, 1) == (if self.name != other.name then [Name] else []);
    assert ChangedUpTo(self, other, 2) == ChangedUpTo(self, other, 1) +
      (if self.dirpath != other.dirpath then [Dirpath] else []);
  }

  /** The value form of `update_from`: the row afterwards and the changed
      attributes. */
  function UpdatedFrom(self: Fileset, other: Fileset, now: int): (Fileset, seq<Attr>)
  {
    var changed := ChangedUpTo(self, other, 3);
    var row := self.(name := other.name, dirpath := other.dirpath, kind := other.kind);
    if |changed| > 0 then (row.(files := Copies(other.files), timeUpdated := now), changed)
    else (self, [])
  }

  /** `Fileset.update_from`: compares name, dirpath and type in that order,
      copies each differing value and, when any differed, replaces the file
      list with fresh copies of the other's files and bumps `time_updated`. */
  method UpdateFrom(self: Fileset, other: Fileset, now: int) returns (row: Fileset, changed: seq<Attr>)
    ensures (row, changed) == UpdatedFrom(self, other, now)
    ensures row.name == other.name && row.dirpath == other.dirpath && row.kind == other.kind
  {
    row := self;
    changed := [];
    for i := 0 to |UpdateAttrs|
      invariant changed == ChangedUpTo(self, other, i)
      invariant row.name == (if i >= 1 then other.name else self.name)
      invariant row.dirpath == (if i >= 2 then other.dirpath else self.dirpath)
      invariant row.kind == (if i >= 3 then other.kind else self.kind)
      invariant row == self.(name := row.name, dirpath := row.dirpath, kind := row.kind)
    {
      var a := UpdateAttrs[i];
      var value := Get(other, a);
      if Get(row, a) != value {
        changed := changed + [a];
        row := Set(row, a, value);
      }
    }
    ChangedAttrs(self, other);
    if |changed| > 0 {
      row := row.(files := Copies(other.files), timeUpdated := now);
    }
  }

  /** `update_from` reports no change exactly when name, dirpath and type
      already agree, and then leaves the row as it was. */
  lemma UpdateFromNoChange(self: Fileset, other: Fileset, now: int)
    ensures var (row, changed) := UpdatedFrom(self, other, now);
      (changed == [] <==> self.name == other.name && self.dirpath == other.dirpath && self.kind == other.kind) &&
      (changed == [] ==> row == self)
  {
    ChangedAttrs(self, other);
  }

  function AttrRank(a: Attr): nat
  {
    match a
    case Name => 0
    case Dirpath => 1
    case Type => 2
  }

  /** The changed attributes come without repeats in the order name,
      dirpath, type. */
  lemma UpdateFromOrder(self: Fileset, other: Fileset, now: int)
    ensures var changed := UpdatedFrom(self, other, now).1;
      forall i, j :: 0 <= i < j < |changed| ==> AttrRank(changed[i]) < AttrRank(changed[j])
  {
    ChangedAttrs(self, other);
  }

  /** A second update from the same fileset changes nothing. */
  lemma UpdateFromSettles(self: Fileset, other: Fileset, now: int, later: int)
    ensures var row := UpdatedFrom(self, other, now).0;
      UpdatedFrom(row, other, later) == (row, [])
  {
    var row := UpdatedFrom(self, other, now).0;
    UpdateFromNoChange(self, other, now);
    UpdateFromNoChange(row, other, later);
  }

  /** When something changed, the files are fresh copies of the other's
      files (none marked missing) and `time_updated` is `now`; identity,
      md5 and every other column are kept. */
  lemma UpdateFromCopies(self: Fileset, other: Fileset, now: int)
    requires UpdatedFrom(self, other, now).1 != []
    ensures var row := UpdatedFrom(self, other, now).0;
      row.id == self.id && row.md5 == self.md5 && row.deleted == self.deleted &&
      row.timeAdded == self.timeAdded && row.timeRead == self.timeRead &&
      row.timeUpdated == now && |row.files| == |other.files| &&
      forall i :: 0 <= i < |row.files| ==>
        row.files[i].md5 == other.files[i].md5 && row.files[i].name == other.files[i].name &&
        row.files[i].size == other.files[i].size && !row.files[i].missing
  {
  }

  function AnyMissing(files: seq<File>): (r: bool)
    ensures r <==> exists i :: 0 <= i < |files| && files[i].missing
  {
    if |files| == 0 then false
    else files[0].missing || AnyMissing(files[1..])
  }

  /** `Fileset.broken`: some member file is marked missing. */
  function Broken(fs: Fileset): (r: bool)
    ensures r <==> exists f :: f in fs.files && f.missing
  {
    AnyMissing(fs.files)
  }

  /** The run of the given name with the largest id, keeping the earlier run
      on equal ids: the entry `failed_job_names` leaves in its dictionary. */
  function Latest(runs: seq<Jobrun>, name: string): (r: Option<Jobrun>)
    ensures r.None? <==> forall i :: 0 <= i < |runs| ==> runs[i].name != name
    ensures r.Some? ==> r.value in runs && r.value.name == name
    ensures r.Some? ==> forall i :: 0 <= i < |runs| && runs[i].name == name ==> runs[i].id <= r.value.id
  {
    if |runs| == 0 then None
    else
      var prev := Latest(runs[..|runs| - 1], name);
      var last := runs[|runs| - 1];
      assert forall i :: 0 <= i < |runs| - 1 ==> runs[..|runs| - 1][i] == runs[i];
      if last.name == name && (prev.None? || last.id > prev.value.id) then Some(last)
      else prev
  }

  /** One run more: it replaces the entry for its name when there is none
      or its id is larger; other names keep theirs. */
  lemma LatestStep(runs: seq<Jobrun>, i: nat)
    requires i < |runs|
    ensures forall n ::
      Latest(runs[..i + 1], n) ==
      if runs[i].name == n && (Latest(runs[..i], n).None? || runs[i].id > Latest(runs[..i], n).value.id)
      then Some(runs[i]) else Latest(runs[..i], n)
  {
    assert runs[..i + 1][..i] == runs[..i] && runs[..i + 1][i] == runs[i];
  }

  /** The dictionary loop of `failed_job_names`: for every name, the run
      `Latest` picks, and the names in order of first appearance. */
  method LatestPerName(runs: seq<Jobrun>) returns (jobs: map<string, Jobrun>, order: seq<string>)
    ensures forall n :: n in jobs <==> Latest(runs, n).Some?
    ensures forall n :: n in jobs ==> jobs[n] == Latest(runs, n).value
    ensures Distinct(order) && forall n :: n in order <==> n in jobs
  {
    jobs := map[];
    order := [];
    for i := 0 to |runs|
      invariant forall n :: n in jobs <==> Latest(runs[..i], n).Some?
      invariant forall n :: n in jobs ==> jobs[n] == Latest(runs[..i], n).value
      invariant Distinct(order) && forall n :: n in order <==> n in jobs
    {
      var run := runs[i];
      LatestStep(runs, i);
      if run.name !in jobs {
        DistinctSnoc(order, run.name);
        jobs := jobs[run.name := run];
        order := order + [run.name];
      } else if run.id > jobs[run.name].id {
        jobs := jobs[run.name := run];
      }
    }
    assert runs[..|runs|] == runs;
  }

  /** The names in `order` whose entry in `jobs` failed. */
  function FailedAmong(order: seq<string>, jobs: map<string, Jobrun>): (r: seq<string>)
    requires forall n :: n in order ==> n in jobs
    ensures forall n :: n in r <==> n in order && jobs[n].failed
    ensures Distinct(order) ==> Distinct(r)
  {
    if |order| == 0 then []
    else
      var rest := FailedAmong(order[1..], jobs);
      assert Distinct(order) ==> Distinct(order[1..]) && order[0] !in order[1..] by {
        if Distinct(order) {
          forall i | 0 <= i < |order[1..]| ensures order[1..][i] != order[0] {
            assert order[1..][i] == order[i + 1];
          }
        }
      }
      if jobs[order[0]].failed then [order[0]] + rest else rest
  }

  /** `Fileset.failed_job_names`: the sorted names whose latest run failed. */
  method FailedJobNames(runs: seq<Jobrun>) returns (names: seq<string>)
    ensures SortedStrings(names) && Distinct(names)
    ensures forall n :: n in names <==> Latest(runs, n).Some? && Latest(runs, n).value.failed
  {
    var jobs, order := LatestPerName(runs);
    var failed := FailedAmong(order, jobs);
    names := SortStrings(failed);
    PermutationDistinct(failed, names);
    assert forall n :: n in names <==> n in multiset(names);
    assert forall n :: n in failed <==> n in multiset(failed);
  }

  /** The runs recorded against one fileset: its `jobruns` relation. */
  function RunsOf(all: seq<Jobrun>, filesetId: nat): (r: seq<Jobrun>)
    ensures forall x :: x in r <==> x in all && x.filesetId == filesetId
  {
    if |all| == 0 then []
    else (if all[0].filesetId == filesetId then [all[0]] else []) + RunsOf(all[1..], filesetId)
  }

  /** `Fileset.get_latest_jobrun`: the run of this fileset and name with the
      largest id, whatever its outcome, or none. */
  function GetLatestJobrun(all: seq<Jobrun>, filesetId: nat, name: string): (r: Option<Jobrun>)
    ensures r.None? <==> forall x :: x in all && x.filesetId == filesetId ==> x.name != name
    ensures r.Some? ==> r.value in all && r.value.filesetId == filesetId && r.value.name == name
    ensures r.Some? ==> forall x :: x in all && x.filesetId == filesetId && x.name == name ==> x.id <= r.value.id
  {
    var mine := RunsOf(all, filesetId);
    assert forall x :: x in mine <==> exists i :: 0 <= i < |mine| && mine[i] == x;
    Latest(mine, name)
  }
}
