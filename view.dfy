/** The default views of a fileset: the listing row with its status icons,
    the table of member files and the table of failed jobs. */
module View {
  import opened Wrappers
  import opened Strings
  import opened Sorting
  import opened Model

  /** `fileset_size`: the sum of the member file sizes. */
  function TotalSize(files: seq<File>): (r: int)
    ensures (forall i :: 0 <= i < |files| ==> files[i].size >= 0) ==> r >= 0
  {
    if |files| == 0 then 0 else TotalSize(files[..|files| - 1]) + files[|files| - 1].size
  }

  /** The total of two runs of files is the sum of their totals. */
  lemma {:induction false} TotalSizeAppend(a: seq<File>, b: seq<File>)
    ensures TotalSize(a + b) == TotalSize(a) + TotalSize(b)
    decreases |b|
  {
    if |b| > 0 {
      assert (a + b)[..|a + b| - 1] == a + b[..|b| - 1];
      TotalSizeAppend(a, b[..|b| - 1]);
    } else {
      assert a + b == a;
    }
  }

  /** Every file is counted: a file's size is at most the total when no size
      is negative. */
  lemma {:induction false} TotalSizeBound(files: seq<File>, i: nat)
    requires i < |files| && forall j :: 0 <= j < |files| ==> files[j].size >= 0
    ensures files[i].size <= TotalSize(files)
  {
    assert files == files[..i] + [files[i]] + files[i + 1..];
    TotalSizeAppend(files[..i] + [files[i]], files[i + 1..]);
    TotalSizeAppend(files[..i], [files[i]]);
    assert [files[i]][..0] == [];
  }

  /** A status icon. */
  datatype Status = Status(icon: string, title: string, classes: string)

  const MissingFile := Status("hdd", "A file is missing", "text-danger")
  const NotProcessed := Status("time", "This fileset has not yet been processed", "text-info")

  /** `'{}'.format(x)` of an optional text. */
  function Shown(x: Option<string>): string
  {
    if x.None? then "None" else x.value
  }

  function ReadFailed(error: Option<string>): Status
  {
    Status("fire", "Read error: " + Shown(error), "text-danger")
  }

  function JobsFailed(names: seq<string>): Status
  {
    Status("fire", "Failed jobs: " + Join(names, ", "), "text-danger")
  }

  /** The status of a listing row: a missing-file icon when a member file is
      missing, then either the not-processed icon or, for a fileset read
      without success, the read error, then the failed jobs when there are
      any. */
  function StatusOf(fs: Fileset, failedJobNames: seq<string>): seq<Status>
  {
    (if AnyMissing(fs.files) then [MissingFile] else []) +
    (if fs.timeRead.None? then [NotProcessed]
     else if fs.readSucceeded != Some(true) then [ReadFailed(fs.readError)]
     else []) +
    (if |failedJobNames| > 0 then [JobsFailed(failedJobNames)] else [])
  }

  /** Each entry of the status is there exactly when its condition holds,
      and the not-processed and read-error entries never appear together. */
  lemma StatusEntries(fs: Fileset, failedJobNames: seq<string>)
    ensures MissingFile in StatusOf(fs, failedJobNames) <==> exists f :: f in fs.files && f.missing
    ensures NotProcessed in StatusOf(fs, failedJobNames) <==> fs.timeRead.None?
    ensures ReadFailed(fs.readError) in StatusOf(fs, failedJobNames) <==>
      fs.timeRead.Some? && fs.readSucceeded != Some(true)
    ensures !(NotProcessed in StatusOf(fs, failedJobNames) && ReadFailed(fs.readError) in StatusOf(fs, failedJobNames))
    ensures JobsFailed(failedJobNames) in StatusOf(fs, failedJobNames) <==> |failedJobNames| > 0
    ensures |StatusOf(fs, failedJobNames)| <= 3
  {
    var s := StatusOf(fs, failedJobNames);
    StatusesDiffer(fs.readError, failedJobNames);
    assert MissingFile in s <==> AnyMissing(fs.files);
  }

  /** The four kinds of status entry are told apart by their icon or title. */
  lemma StatusesDiffer(error: Option<string>, names: seq<string>)
    ensures MissingFile != NotProcessed && MissingFile != ReadFailed(error) && MissingFile != JobsFailed(names)
    ensures NotProcessed != ReadFailed(error) && NotProcessed != JobsFailed(names)
    ensures ReadFailed(error) != JobsFailed(names)
  {
    assert MissingFile.icon[0] == 'h' && NotProcessed.icon[0] == 't';
    assert ReadFailed(error).icon[0] == 'f' && JobsFailed(names).icon[0] == 'f';
    assert ReadFailed(error).title[0] == 'R' && JobsFailed(names).title[0] == 'F';
  }

  /** The link of a fileset name in the listing. */
  datatype Route = Route(route: string, id: string, title: string)

  /** A row of the fileset listing. */
  datatype ListingRow = ListingRow(name: Route, md5: string, size: int, tags: seq<string>, tagsRelation: seq<string>,
                                   status: seq<Status>, fileCount: nat, jobCount: nat, commentCount: nat)

  /** `base_listing`: the status is built entry by entry; `failedJobNames`
      is the fileset's `failed_job_names`, `Model.FailedJobNames` of its
      runs. */
  method BaseListing(fs: Fileset, tagLabels: seq<string>, jobruns: seq<Jobrun>, commentCount: nat,
                     failedJobNames: seq<string>) returns (row: ListingRow)
    ensures row.status == StatusOf(fs, failedJobNames)
    ensures row.md5 == Take(fs.md5, 7) && row.name == Route("bagbunker.detail", fs.md5, fs.name)
    ensures row.size == TotalSize(fs.files)
    ensures row.tags == SortStrings(tagLabels) && row.tagsRelation == tagLabels
    ensures row.fileCount == |fs.files| && row.jobCount == |jobruns| && row.commentCount == commentCount
  {
    var status := [];
    if AnyMissing(fs.files) {
      status := status + [MissingFile];
    }
    if fs.timeRead.None? {
      status := status + [NotProcessed];
    } else if fs.readSucceeded != Some(true) {
      status := status + [ReadFailed(fs.readError)];
    }
    if |failedJobNames| > 0 {
      status := status + [JobsFailed(failedJobNames)];
    }
    row := ListingRow(Route("bagbunker.detail", fs.md5, fs.name), Take(fs.md5, 7), TotalSize(fs.files),
                      SortStrings(tagLabels), tagLabels, status, |fs.files|, |jobruns|, commentCount);
  }

  /** The listing of a fileset with the failed job names its runs give: the
      status is that of the sorted names of exactly the jobs whose latest run
      failed. */
  method Listing(fs: Fileset, tagLabels: seq<string>, jobruns: seq<Jobrun>, commentCount: nat) returns (row: ListingRow)
    ensures row.size == TotalSize(fs.files) && row.fileCount == |fs.files| && row.jobCount == |jobruns|
    ensures exists names: seq<string> ::
      && SortedStrings(names) && Distinct(names)
      && (forall n :: n in names <==> Latest(jobruns, n).Some? && Latest(jobruns, n).value.failed)
      && row.status == StatusOf(fs, names)
  {
    var names := FailedJobNames(jobruns);
    row := BaseListing(fs, tagLabels, jobruns, commentCount, names);
  }

  /** A row of the file table of a fileset. */
  datatype FileRow = FileRow(href: string, title: string, target: string, status: seq<Status>, md5: string, size: int)

  const MissingMember := Status("hdd", "This file is missing", "text-danger")
  const DownloadPrefix := "/marv/download/"

  /** `files_detail`: one row per file, in order. */
  function FilesDetail(files: seq<File>): (r: seq<FileRow>)
    ensures |r| == |files|
    ensures forall i :: 0 <= i < |files| ==> (|r[i].status| > 0 <==> files[i].missing)
    ensures forall i :: 0 <= i < |files| ==> StartsWith(r[i].href, DownloadPrefix) && r[i].href[|DownloadPrefix|..] == files[i].md5
    ensures forall i :: 0 <= i < |files| ==> r[i].title == files[i].name && r[i].md5 == files[i].md5 && r[i].size == files[i].size
  {
    seq(|files|, i requires 0 <= i < |files| =>
      FileRow(DownloadPrefix + files[i].md5, files[i].name, "_blank",
              if files[i].missing then [MissingMember] else [], files[i].md5, files[i].size))
  }

  /** The download links of distinct files are distinct. */
  lemma FilesDetailLinks(files: seq<File>, i: nat, j: nat)
    requires i < |files| && j < |files| && files[i].md5 != files[j].md5
    ensures FilesDetail(files)[i].href != FilesDetail(files)[j].href
  {
    var r := FilesDetail(files);
    assert r[i].href[|DownloadPrefix|..] != r[j].href[|DownloadPrefix|..];
  }

  /** A row of the failed-jobs table. */
  datatype FailedRow = FailedRow(status: Status, job: string)

  const FailedIcon := Status("fire", "failed", "text-danger")

  /** `failed_jobs`: nothing at all when no job failed, otherwise one row per
      failed job name, in order. */
  function FailedJobs(failedJobNames: seq<string>): (r: Option<seq<FailedRow>>)
    ensures r.None? <==> |failedJobNames| == 0
    ensures r.Some? ==> |r.value| == |failedJobNames|
    ensures r.Some? ==> forall i :: 0 <= i < |failedJobNames| ==> r.value[i] == FailedRow(FailedIcon, failedJobNames[i])
  {
    if |failedJobNames| == 0 then None
    else Some(seq(|failedJobNames|, i requires 0 <= i < |failedJobNames| => FailedRow(FailedIcon, failedJobNames[i])))
  }

  /** The failed-jobs table and the listing's failed-jobs icon agree: both
      are present for exactly the same filesets. */
  lemma FailedJobsAgree(fs: Fileset, failedJobNames: seq<string>)
    ensures FailedJobs(failedJobNames).Some? <==> JobsFailed(failedJobNames) in StatusOf(fs, failedJobNames)
  {
    StatusEntries(fs, failedJobNames);
  }
}
