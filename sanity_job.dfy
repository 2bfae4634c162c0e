/** The sanity-check job: for each bag of a fileset whose name carries a
    module, run the analysis with the built-in configuration, store the
    results, and keep the fileset in the `invalid` tag exactly while its
    check fails; the detail view renders the stored results. */
module SanityJob {
  import opened Wrappers
  import opened Strings
  import opened Sorting
  import opened SanityCheck
  import Routes

  /** The recording modules a bag name can end in. */
  const Modules: seq<string> := ["camA", "camB", "camC", "main"]

  /** `extract_module_name`: the last path component, cut before its first
      `.bag`, and the part after its last `__`; kept only when it is one of
      the modules. */
  function ExtractModuleName(filename: string): (m: string)
    ensures m == "" || m in Modules
  {
    var basename := SplitOn(Last(Split(filename, '/')), ".bag")[0];
    var candidate := Last(SplitOn(basename, "__"));
    if candidate in Modules then candidate else ""
  }

  lemma ModulePlain(m: string)
    requires m in Modules
    ensures '/' !in m && '_' !in m && '.' !in m
  {
  }

  /** A bag named `<stem>__<module>.bag` in any directory yields its module
      when the stem holds no `/`, `_` or `.`. */
  lemma ModuleNameOf(dir: string, stem: string, m: string)
    requires m in Modules
    requires '/' !in stem && '_' !in stem && '.' !in stem
    ensures ExtractModuleName(dir + "/" + stem + "__" + m + ".bag") == m
  {
    ModulePlain(m);
    var base := stem + "__" + m;
    var file := base + ".bag";
    assert '/' !in file;
    assert '.' !in base;
    SplitLastAfter(dir, file);
    assert dir + "/" + stem + "__" + m + ".bag" == dir + "/" + file;
    SplitOnFirst(base, ".bag", "");
    assert base + ".bag" + "" == file;
    SplitOnFirst(stem, "__", m);
    SplitOnNone(m, "__");
  }

  /** A bag named `<stem>.bag` is skipped unless its stem is itself a
      module. */
  lemma NoModuleName(dir: string, stem: string)
    requires stem !in Modules
    requires '/' !in stem && '_' !in stem && '.' !in stem
    ensures ExtractModuleName(dir + "/" + stem + ".bag") == ""
  {
    var file := stem + ".bag";
    assert '/' !in file;
    SplitLastAfter(dir, file);
    assert dir + "/" + stem + ".bag" == dir + "/" + file;
    SplitOnFirst(stem, ".bag", "");
    assert stem + ".bag" + "" == file;
    SplitOnNone(stem, "__");
  }

  /** The configuration the job writes out and the analysis reads back. */
  const JaiTopics: seq<string> := ["/camX/jai/nir/camera_info", "/camX/jai/nir/image_raw",
                                   "/camX/jai/rgb/camera_info", "/camX/jai/rgb/image_raw"]

  const CameraRate := Bounds(Some(18.5), Some(21.5))
  const GpsRate := Bounds(Some(19.0), Some(21.0))

  const ConfigTopics: seq<(string, Bounds)> := [
    ("/camX/jai/nir/camera_info", CameraRate), ("/camX/jai/nir/image_raw", CameraRate),
    ("/camX/jai/rgb/camera_info", CameraRate), ("/camX/jai/rgb/image_raw", CameraRate),
    ("/camX/siemens_logo/logo_light_state", Bounds(Some(0.9), None)),
    ("/diagnostics_agg", Bounds(Some(0.0), None)),
    ("/gps/fix", GpsRate), ("/gps/heading", GpsRate), ("/gps/info", GpsRate),
    ("/gps/orientation", GpsRate), ("/gps/time_reference", GpsRate),
    ("/rosout_agg", Bounds(Some(0.0), None)), ("/tf", Bounds(Some(15.0), None))]

  const JobConfig := Config(ConfigTopics, Bounds(Some(23.0), None), Bounds(Some(1.0), Some(3.0)),
                            Some(Bounds(Some(4.25), Some(7.0))), Some([("jai", JaiTopics)]))

  /** A stored result: the checks and whether they all passed. */
  datatype Outcome = Outcome(results: seq<Check>, success: bool)

  /** The files of a fileset that name a module, in order. */
  function ModuleFiles(files: seq<string>): (r: seq<string>)
    ensures |r| <= |files|
    ensures forall f :: f in r <==> f in files && ExtractModuleName(f) != ""
  {
    if |files| == 0 then []
    else
      var init := files[..|files| - 1];
      var f := files[|files| - 1];
      assert files == init + [f];
      ModuleFiles(init) + (if ExtractModuleName(f) != "" then [f] else [])
  }

  /** The outcome of one bag: the analysis of its facts for its module. */
  function OutcomeOf(config: Config, dirpath: string, name: string, facts: string -> BagFacts): Outcome
  {
    var results := Analysis(config, ExtractModuleName(name), facts(dirpath + "/" + name));
    Outcome(results, AllPass(results))
  }

  /** The records of the job: exactly one per file that names a module, in
      file order, each the outcome `outcome` gives for that file. */
  function Records(files: seq<string>, outcome: string -> Outcome): (r: seq<Outcome>)
    ensures |r| == |ModuleFiles(files)|
    ensures forall i :: 0 <= i < |r| ==> r[i] == outcome(ModuleFiles(files)[i])
  {
    Outcomes(ModuleFiles(files), outcome)
  }

  function Outcomes(named: seq<string>, outcome: string -> Outcome): (r: seq<Outcome>)
    ensures |r| == |named| && forall i :: 0 <= i < |r| ==> r[i] == outcome(named[i])
  {
    seq(|named|, i requires 0 <= i < |named| => outcome(named[i]))
  }

  lemma OutcomesAppend(a: seq<string>, b: seq<string>, outcome: string -> Outcome)
    ensures Outcomes(a + b, outcome) == Outcomes(a, outcome) + Outcomes(b, outcome)
  {
  }

  lemma ModuleFilesStep(files: seq<string>, i: nat)
    requires i < |files|
    ensures ModuleFiles(files[..i + 1]) ==
      ModuleFiles(files[..i]) + (if ExtractModuleName(files[i]) != "" then [files[i]] else [])
  {
    assert files[..i + 1][..i] == files[..i];
  }

  /** The tag relation: tag label to the fileset ids it holds, as a list. */
  type Tags = map<string, seq<int>>

  const Invalid := "invalid"
  const ValueError := "ValueError"

  function Members(tags: Tags, name: string): seq<int>
  {
    if name in tags then tags[name] else []
  }

  predicate InSomeTag(tags: Tags, fid: int)
  {
    exists name :: name in tags && fid in tags[name]
  }

  /** The tag toggle as written: membership is looked up in every tag, so a
      fileset held by another tag is removed from `invalid` on success even
      when `invalid` does not hold it, and is not added to it on failure.
      A missing `invalid` tag is built but never added to the session, so
      it is stored only when a fileset is appended to it. */
  function ToggleAsWritten(tags: Tags, fid: int, success: bool): Result<Tags, string>
  {
    var invalid := Members(tags, Invalid);
    var held := InSomeTag(tags, fid);
    if held && success then
      if fid in invalid then Ok(tags[Invalid := Routes.Remove(invalid, fid)]) else Err(ValueError)
    else if !held && !success then Ok(tags[Invalid := invalid + [fid]])
    else Ok(tags)
  }

  /** The tag toggle as intended: membership is looked up in `invalid`. */
  function Toggle(tags: Tags, fid: int, success: bool): (r: Tags)
    ensures Invalid in r
    ensures forall name :: name in tags && name != Invalid ==> name in r && r[name] == tags[name]
    ensures forall name :: name in r ==> name in tags || name == Invalid
  {
    var invalid := Members(tags, Invalid);
    if fid in invalid && success then tags[Invalid := Routes.Remove(invalid, fid)]
    else if fid !in invalid && !success then tags[Invalid := invalid + [fid]]
    else tags[Invalid := invalid]
  }

  /** After the toggle, `invalid` holds the fileset exactly when the run
      failed, and holds no fileset twice if it did not before. */
  lemma ToggleMarks(tags: Tags, fid: int, success: bool)
    requires Distinct(Members(tags, Invalid))
    ensures Distinct(Toggle(tags, fid, success)[Invalid])
    ensures fid in Toggle(tags, fid, success)[Invalid] <==> !success
  {
    var invalid := Members(tags, Invalid);
    if fid in invalid && success {
      Routes.RemoveDistinct(invalid, fid);
    } else if fid !in invalid && !success {
      var s := invalid + [fid];
      forall i, j | 0 <= i < j < |s|
        ensures s[i] != s[j]
      {
        if j == |invalid| {
          assert s[i] == invalid[i];
        }
      }
    }
  }

  /** When no other tag holds the fileset, and the `invalid` tag is stored
      or the run failed, the written toggle does what the intended one does. */
  lemma ToggleAgrees(tags: Tags, fid: int, success: bool)
    requires forall name :: name in tags && name != Invalid ==> fid !in tags[name]
    requires Invalid in tags || !success
    ensures ToggleAsWritten(tags, fid, success) == Ok(Toggle(tags, fid, success))
  {
    assert InSomeTag(tags, fid) <==> fid in Members(tags, Invalid);
    if Invalid in tags {
      assert tags[Invalid := tags[Invalid]] == tags;
    }
  }

  /** A fileset held only by another tag: a successful run raises, and a
      failed run is not marked invalid. With no tags at all, a passing run
      leaves the `invalid` tag unstored, where the intended toggle makes it. */
  lemma ToggleAsWrittenFails()
    ensures ToggleAsWritten(map[Invalid := [], "other" := [7]], 7, true) == Err(ValueError)
    ensures ToggleAsWritten(map[Invalid := [], "other" := [7]], 7, false) == Ok(map[Invalid := [], "other" := [7]])
    ensures Toggle(map[Invalid := [], "other" := [7]], 7, false)[Invalid] == [7]
    ensures ToggleAsWritten(map[], 7, true) == Ok(map[])
    ensures Toggle(map[], 7, true) == map[Invalid := []]
  {
    var tags: Tags := map[Invalid := [], "other" := [7]];
    assert InSomeTag(tags, 7) by {
      assert "other" in tags && 7 in tags["other"];
    }
    assert tags[Invalid := []] == tags;
  }

  /** The tags after the toggles of a sequence of outcomes. */
  function TagsAfter(tags: Tags, fid: int, outcomes: seq<Outcome>): Tags
  {
    if |outcomes| == 0 then tags
    else Toggle(TagsAfter(tags, fid, outcomes[..|outcomes| - 1]), fid, outcomes[|outcomes| - 1].success)
  }

  /** After the job, the fileset is in `invalid` exactly when the last
      analysed bag failed its check, and other tags are untouched. */
  lemma {:induction false} TagsAfterMarks(tags: Tags, fid: int, outcomes: seq<Outcome>)
    requires Distinct(Members(tags, Invalid))
    ensures Distinct(Members(TagsAfter(tags, fid, outcomes), Invalid))
    ensures |outcomes| > 0 ==> (fid in TagsAfter(tags, fid, outcomes)[Invalid] <==> !outcomes[|outcomes| - 1].success)
    ensures forall name :: name in tags && name != Invalid ==>
      name in TagsAfter(tags, fid, outcomes) && TagsAfter(tags, fid, outcomes)[name] == tags[name]
  {
    if |outcomes| > 0 {
      var before := TagsAfter(tags, fid, outcomes[..|outcomes| - 1]);
      TagsAfterMarks(tags, fid, outcomes[..|outcomes| - 1]);
      ToggleMarks(before, fid, outcomes[|outcomes| - 1].success);
    }
  }

  /** One more file adds a record exactly when it names a module. */
  lemma RecordsStep(files: seq<string>, i: nat, outcome: string -> Outcome)
    requires i < |files|
    ensures Records(files[..i + 1], outcome) ==
      Records(files[..i], outcome) + (if ExtractModuleName(files[i]) != "" then [outcome(files[i])] else [])
  {
    ModuleFilesStep(files, i);
    OutcomesAppend(ModuleFiles(files[..i]), if ExtractModuleName(files[i]) != "" then [files[i]] else [], outcome);
  }

  lemma TagsAfterStep(tags: Tags, fid: int, outcomes: seq<Outcome>, o: Outcome)
    ensures TagsAfter(tags, fid, outcomes + [o]) == Toggle(TagsAfter(tags, fid, outcomes), fid, o.success)
  {
    assert (outcomes + [o])[..|outcomes|] == outcomes;
  }

  /** The job over the files of one fileset: each bag naming a module is
      analysed, its outcome stored and the `invalid` tag toggled. `facts`
      gives what each bag path holds; the job runs with `JobConfig`. */
  method Job(config: Config, dirpath: string, files: seq<string>, fid: int, tags: Tags, facts: string -> BagFacts)
    returns (records: seq<Outcome>, newTags: Tags)
    ensures records == Records(files, name => OutcomeOf(config, dirpath, name, facts))
    ensures newTags == TagsAfter(tags, fid, records)
  {
    var outcome := name => OutcomeOf(config, dirpath, name, facts);
    records := [];
    newTags := tags;
    for i := 0 to |files|
      invariant records == Records(files[..i], outcome)
      invariant newTags == TagsAfter(tags, fid, records)
    {
      RecordsStep(files, i, outcome);
      var unit := ExtractModuleName(files[i]);
      if unit != "" {
        var result := Analyse(config, unit, facts(dirpath + "/" + files[i]));
        var success := Success(result);
        newTags := Toggle(newTags, fid, success);
        assert Outcome(result, success) == outcome(files[i]);
        TagsAfterStep(tags, fid, records, Outcome(result, success));
        records := records + [Outcome(result, success)];
      }
    }
    assert files[..|files|] == files;
  }

  /** A row of the detail table. */
  datatype Row = Row(name: string, value: string, status: string)

  /** The status texts of the detail table, by result code. */
  function StatusText(status: int): string
    requires OK <= status <= ERROR
  {
    if status == OK then "OK"
    else if status == TOHIGH then "Too High"
    else if status == TOLOW then "Too low"
    else if status == NONEXIST then "Does not exist"
    else if status == UNSYNCED then "Unsynced"
    else "Error"
  }

  /** The configured topics by their written names, a later entry winning. */
  function Configured(entries: seq<(string, Bounds)>): (m: map<string, Bounds>)
    ensures forall k :: k in m <==> exists i :: 0 <= i < |entries| && entries[i].0 == k
  {
    if |entries| == 0 then map[]
    else
      var init := entries[..|entries| - 1];
      assert forall i :: 0 <= i < |init| ==> init[i] == entries[i];
      Configured(init)[entries[|entries| - 1].0 := entries[|entries| - 1].1]
  }

  /** `[min: a, max: b]` with the bounds that are set, min first. */
  function Interval(b: Bounds, show: real -> string): string
  {
    Join((if b.min.Some? then ["min: " + show(b.min.value)] else [])
         + (if b.max.Some? then ["max: " + show(b.max.value)] else []), ", ")
  }

  /** The row of one check: a topic (a name starting with `/`) is labelled
      as such and its status carries the configured bounds, looked up under
      the written (not module-renamed) topic names. `show` is `str`. */
  function EntryRow(c: Check, topics: map<string, Bounds>, show: real -> string): Row
    requires Known(c)
  {
    if StartsWith(c.name, "/") then
      var annotated := c.name in topics && (topics[c.name].min.Some? || topics[c.name].max.Some?);
      Row("Topic " + c.name, show(c.value),
          if annotated then StatusText(c.status) + " [" + Interval(topics[c.name], show) + "]" else StatusText(c.status))
    else Row(c.name, show(c.value), StatusText(c.status))
  }

  function SummaryRow(success: bool): Row
  {
    Row("<b>Summary</b>", "<b>-</b>", if success then "<b>OK</b>" else "<b>Failed</b>")
  }

  predicate KnownAll(results: seq<Check>)
  {
    forall j :: 0 <= j < |results| ==> Known(results[j])
  }

  predicate AllKnown(outcomes: seq<Outcome>)
  {
    forall i :: 0 <= i < |outcomes| ==> KnownAll(outcomes[i].results)
  }

  function EntryRows(results: seq<Check>, topics: map<string, Bounds>, show: real -> string): (r: seq<Row>)
    requires KnownAll(results)
    ensures |r| == |results|
    ensures forall j :: 0 <= j < |results| ==> r[j] == EntryRow(results[j], topics, show)
  {
    if |results| == 0 then []
    else EntryRows(results[..|results| - 1], topics, show) + [EntryRow(results[|results| - 1], topics, show)]
  }

  /** The rows of the stored outcomes: each outcome's checks, then its
      summary row. */
  function Rows(outcomes: seq<Outcome>, topics: map<string, Bounds>, show: real -> string): seq<Row>
    requires AllKnown(outcomes)
  {
    if |outcomes| == 0 then []
    else
      var o := outcomes[|outcomes| - 1];
      Rows(outcomes[..|outcomes| - 1], topics, show) + EntryRows(o.results, topics, show) + [SummaryRow(o.success)]
  }

  const KeyErrorText := "KeyError"

  /** `sanity_check_detail`: nothing without a job run; a stored code the
      status table lacks raises. `topics` is `Configured(ConfigTopics)`. */
  function Detail(jobrun: Option<seq<Outcome>>, topics: map<string, Bounds>, show: real -> string): Option<Result<seq<Row>, string>>
  {
    if jobrun.None? then None
    else if AllKnown(jobrun.value) then Some(Ok(Rows(jobrun.value, topics, show)))
    else Some(Err(KeyErrorText))
  }

  /** The number of checks over all outcomes. */
  function CheckCount(outcomes: seq<Outcome>): nat
  {
    if |outcomes| == 0 then 0 else CheckCount(outcomes[..|outcomes| - 1]) + |outcomes[|outcomes| - 1].results|
  }

  /** One row per check and one summary row per outcome, the last row
      summarising the last outcome. */
  lemma {:induction false} RowsShape(outcomes: seq<Outcome>, topics: map<string, Bounds>, show: real -> string)
    requires AllKnown(outcomes)
    ensures |Rows(outcomes, topics, show)| == CheckCount(outcomes) + |outcomes|
    ensures |outcomes| > 0 ==>
      Rows(outcomes, topics, show)[|Rows(outcomes, topics, show)| - 1] == SummaryRow(outcomes[|outcomes| - 1].success)
  {
    if |outcomes| > 0 {
      RowsShape(outcomes[..|outcomes| - 1], topics, show);
    }
  }

  /** A topic row is labelled `Topic` and its status starts with the plain
      status text; an annotation appears exactly for a configured topic with
      a bound. */
  lemma EntryRowMeaning(c: Check, topics: map<string, Bounds>, show: real -> string)
    requires Known(c)
    ensures EntryRow(c, topics, show).value == show(c.value)
    ensures EntryRow(c, topics, show).name == (if StartsWith(c.name, "/") then "Topic " + c.name else c.name)
    ensures StartsWith(EntryRow(c, topics, show).status, StatusText(c.status))
    ensures EntryRow(c, topics, show).status != StatusText(c.status) <==>
      (StartsWith(c.name, "/") && c.name in topics && (topics[c.name].min.Some? || topics[c.name].max.Some?))
  {
  }

  lemma RowsStep(outcomes: seq<Outcome>, i: nat, topics: map<string, Bounds>, show: real -> string)
    requires i < |outcomes| && AllKnown(outcomes[..i]) && KnownAll(outcomes[i].results)
    ensures AllKnown(outcomes[..i + 1])
    ensures Rows(outcomes[..i + 1], topics, show) ==
      Rows(outcomes[..i], topics, show) + EntryRows(outcomes[i].results, topics, show) + [SummaryRow(outcomes[i].success)]
  {
    assert outcomes[..i + 1][..i] == outcomes[..i];
  }

  lemma EntryRowsStep(results: seq<Check>, j: nat, topics: map<string, Bounds>, show: real -> string)
    requires j < |results| && KnownAll(results[..j]) && Known(results[j])
    ensures KnownAll(results[..j + 1])
    ensures EntryRows(results[..j + 1], topics, show) == EntryRows(results[..j], topics, show) + [EntryRow(results[j], topics, show)]
  {
    assert results[..j + 1][..j] == results[..j];
  }

  /** The rows of one stored outcome's checks, or nothing when one of its
      codes is unknown. */
  method EntryRowsOf(results: seq<Check>, topics: map<string, Bounds>, show: real -> string)
    returns (r: Option<seq<Row>>)
    ensures r.Some? <==> KnownAll(results)
    ensures r.Some? ==> r.value == EntryRows(results, topics, show)
  {
    var entries := [];
    for j := 0 to |results|
      invariant KnownAll(results[..j])
      invariant entries == EntryRows(results[..j], topics, show)
    {
      if !Known(results[j]) {
        return None;
      }
      EntryRowsStep(results, j, topics, show);
      entries := entries + [EntryRow(results[j], topics, show)];
    }
    assert results[..|results|] == results;
    return Some(entries);
  }

  /** The detail view: the stored outcomes rendered row by row. */
  method DetailView(jobrun: Option<seq<Outcome>>, topics: map<string, Bounds>, show: real -> string)
    returns (r: Option<Result<seq<Row>, string>>)
    ensures r == Detail(jobrun, topics, show)
  {
    if jobrun.None? {
      return None;
    }
    var outcomes := jobrun.value;
    var rows := [];
    for i := 0 to |outcomes|
      invariant AllKnown(outcomes[..i])
      invariant rows == Rows(outcomes[..i], topics, show)
    {
      var entries := EntryRowsOf(outcomes[i].results, topics, show);
      if entries.None? {
        assert !KnownAll(outcomes[i].results);
        return Some(Err(KeyErrorText));
      }
      RowsStep(outcomes, i, topics, show);
      rows := rows + entries.value + [SummaryRow(outcomes[i].success)];
    }
    assert outcomes[..|outcomes|] == outcomes;
    return Some(Ok(rows));
  }
}
