/** The bag sanity check: configured thresholds classify topic frequencies,
    duration, file size and track length; synced topic groups are compared
    by message count; GPS errors are counted; the results decide success and
    the level of the published diagnostic. Reading the bag (its summary, the
    GPS track and the diagnostics topic) is not part of this model: its
    figures are inputs. */
module SanityCheck {
  import opened Wrappers
  import opened Strings
  import opened Sorting

  /** The result codes of a check. */
  const OK := 0
  const TOHIGH := 1
  const TOLOW := 2
  const NONEXIST := 3
  const UNSYNCED := 4
  const ERROR := 5

  /** The levels of a ROS diagnostic status. */
  const LevelOk := 0
  const LevelWarn := 1
  const LevelError := 2

  /** The ROS level of each result code, by code. */
  const RosStatus: seq<int> := [LevelOk, LevelWarn, LevelError, LevelError, LevelError, LevelError]

  const KeyError := "KeyError"
  const IndexError := "IndexError"

  /** The optional `min` and `max` of a configured check. */
  datatype Bounds = Bounds(min: Option<real>, max: Option<real>)

  /** A threshold check: `min` is checked before `max`. */
  function Classify(value: real, b: Bounds): (st: int)
  {
    if b.min.Some? && value < b.min.value then TOLOW
    else if b.max.Some? && value > b.max.value then TOHIGH
    else OK
  }

  /** A value within its bounds is OK, one below `min` is too low and one
      above `max` but not below `min` is too high; with crossed bounds a
      value below `min` counts as too low even when it is above `max`. */
  lemma ClassifyMeaning(value: real, b: Bounds)
    ensures Classify(value, b) in {OK, TOLOW, TOHIGH}
    ensures Classify(value, b) == OK <==>
      (b.min.None? || b.min.value <= value) && (b.max.None? || value <= b.max.value)
    ensures Classify(value, b) == TOLOW <==> b.min.Some? && value < b.min.value
    ensures b.min.Some? && b.max.Some? && b.max.value < value < b.min.value ==> Classify(value, b) == TOLOW
  {
  }

  /** One result: what was checked, the measured value and the code. */
  datatype Check = Check(name: string, value: real, status: int)

  /** The check configuration: topic thresholds in file order, duration,
      file size, optional track length and optional synced groups. */
  datatype Config = Config(topics: seq<(string, Bounds)>, duration: Bounds, filesize: Bounds,
                           tracklength: Option<Bounds>, synced: Option<seq<(string, seq<string>)>>)

  /** What the bag's summary, GPS track and diagnostics give: frequency and
      message count per topic, duration, file size in GiB, track length and
      the number of GPS errors, each already rounded as the check rounds
      them. */
  datatype BagFacts = BagFacts(frequencies: map<string, real>, messages: map<string, nat>, duration: real,
                               filesize: real, trackLength: real, gpsErrors: nat)

  /** A topic name with `camX` standing for the unit. */
  function Rename(name: string, unit: string): string
  {
    Replace(name, "camX", unit)
  }

  /** `load_configfile`: the topic thresholds under their renamed keys; a
      later key overwrites an earlier one that renames the same. */
  function RenamedTopics(entries: seq<(string, Bounds)>, unit: string): (m: map<string, Bounds>)
    ensures forall k :: k in m <==> exists i :: 0 <= i < |entries| && Rename(entries[i].0, unit) == k
  {
    if |entries| == 0 then map[]
    else
      var init := entries[..|entries| - 1];
      var last := entries[|entries| - 1];
      assert forall i :: 0 <= i < |init| ==> init[i] == entries[i];
      RenamedTopics(init, unit)[Rename(last.0, unit) := last.1]
  }

  /** The first occurrence of each name, in order. */
  function Dedup(s: seq<string>): (r: seq<string>)
    ensures Distinct(r)
    ensures forall x :: x in r <==> x in s
  {
    if |s| == 0 then []
    else
      var init := Dedup(s[..|s| - 1]);
      var last := s[|s| - 1];
      assert forall x :: x in s <==> x in s[..|s| - 1] || x == last by {
        assert s == s[..|s| - 1] + [last];
      }
      if last in init then init
      else
        assert Distinct(init + [last]) by {
          forall i, j | 0 <= i < j < |init + [last]|
            ensures (init + [last])[i] != (init + [last])[j]
          {
            if j == |init| {
              assert (init + [last])[i] == init[i];
            }
          }
        }
        init + [last]
  }

  /** The renamed topic names, in file order. */
  function RenamedNames(entries: seq<(string, Bounds)>, unit: string): (r: seq<string>)
    ensures forall k :: k in r <==> k in RenamedTopics(entries, unit)
  {
    var r := seq(|entries|, i requires 0 <= i < |entries| => Rename(entries[i].0, unit));
    assert forall k :: k in r <==> exists i :: 0 <= i < |entries| && Rename(entries[i].0, unit) == k by {
      forall k | k in r
        ensures exists i :: 0 <= i < |entries| && Rename(entries[i].0, unit) == k
      {
        var i :| 0 <= i < |r| && r[i] == k;
      }
      forall k | exists i :: 0 <= i < |entries| && Rename(entries[i].0, unit) == k
        ensures k in r
      {
        var i :| 0 <= i < |entries| && Rename(entries[i].0, unit) == k;
        assert r[i] == k;
      }
    }
    r
  }

  /** `sorted(config['topics'])`: every renamed key once, in order. */
  function TopicOrder(entries: seq<(string, Bounds)>, unit: string): (r: seq<string>)
    ensures SortedStrings(r) && Distinct(r)
    ensures forall k :: k in r <==> k in RenamedTopics(entries, unit)
  {
    var names := Dedup(RenamedNames(entries, unit));
    var r := SortStrings(names);
    PermutationDistinct(names, r);
    assert forall k :: k in r <==> k in multiset(names);
    r
  }

  /** The check of one configured topic. */
  function TopicCheck(name: string, b: Bounds, facts: BagFacts): Check
  {
    if name in facts.frequencies then Check(name, facts.frequencies[name], Classify(facts.frequencies[name], b))
    else Check(name, -1.0, NONEXIST)
  }

  function TopicChecks(names: seq<string>, topics: map<string, Bounds>, facts: BagFacts): (r: seq<Check>)
    requires forall i :: 0 <= i < |names| ==> names[i] in topics
    ensures |r| == |names|
    ensures forall i :: 0 <= i < |names| ==> r[i] == TopicCheck(names[i], topics[names[i]], facts)
  {
    if |names| == 0 then []
    else TopicChecks(names[..|names| - 1], topics, facts) + [TopicCheck(names[|names| - 1], topics[names[|names| - 1]], facts)]
  }

  /** The message count of a synced topic, zero when the bag lacks it. */
  function CountOf(messages: map<string, nat>, topic: string): nat
  {
    if topic in messages then messages[topic] else 0
  }

  function MinOf(s: seq<nat>): (m: nat)
    requires |s| > 0
    ensures m in s && forall i :: 0 <= i < |s| ==> m <= s[i]
  {
    if |s| == 1 then s[0]
    else
      var m := MinOf(s[..|s| - 1]);
      assert s == s[..|s| - 1] + [s[|s| - 1]];
      if s[|s| - 1] < m then s[|s| - 1] else m
  }

  function MaxOf(s: seq<nat>): (m: nat)
    requires |s| > 0
    ensures m in s && forall i :: 0 <= i < |s| ==> s[i] <= m
  {
    if |s| == 1 then s[0]
    else
      var m := MaxOf(s[..|s| - 1]);
      assert s == s[..|s| - 1] + [s[|s| - 1]];
      if s[|s| - 1] > m then s[|s| - 1] else m
  }

  /** The spread of a synced group: largest minus smallest count; the
      sentinel start values make an empty group's spread 1. */
  function Spread(counts: seq<nat>): int
  {
    if |counts| == 0 then 1 else MaxOf(counts) - MinOf(counts)
  }

  /** The counts of a synced group, renamed for the unit. */
  function GroupCounts(topics: seq<string>, unit: string, messages: map<string, nat>): (r: seq<nat>)
    ensures |r| == |topics|
    ensures forall i :: 0 <= i < |topics| ==> r[i] == CountOf(messages, Rename(topics[i], unit))
  {
    seq(|topics|, i requires 0 <= i < |topics| => CountOf(messages, Rename(topics[i], unit)))
  }

  function SyncedCheck(group: string, topics: seq<string>, unit: string, messages: map<string, nat>): Check
  {
    var diff := Spread(GroupCounts(topics, unit, messages));
    Check("Synced " + group, diff as real, if diff > 10 then UNSYNCED else OK)
  }

  function SyncedChecks(groups: seq<(string, seq<string>)>, unit: string, messages: map<string, nat>): (r: seq<Check>)
    ensures |r| == |groups|
    ensures forall i :: 0 <= i < |groups| ==> r[i] == SyncedCheck(groups[i].0, groups[i].1, unit, messages)
  {
    if |groups| == 0 then []
    else
      var g := groups[|groups| - 1];
      SyncedChecks(groups[..|groups| - 1], unit, messages) + [SyncedCheck(g.0, g.1, unit, messages)]
  }

  function TrackCheck(b: Bounds, facts: BagFacts): Check
  {
    if "/gps/fix" in facts.frequencies then Check("Tracklength", facts.trackLength, Classify(facts.trackLength, b))
    else Check("Tracklength", -1.0, NONEXIST)
  }

  function GpsCheck(facts: BagFacts): Check
  {
    Check("GPS Errors", facts.gpsErrors as real, if facts.gpsErrors > 0 then ERROR else OK)
  }

  /** The checks after the topic checks: duration, file size, the track
      length when configured, the synced groups when configured, and the
      GPS errors last. */
  function Trailer(config: Config, unit: string, facts: BagFacts): seq<Check>
  {
    [Check("Duration", facts.duration, Classify(facts.duration, config.duration))]
    + [Check("Filesize", facts.filesize, Classify(facts.filesize, config.filesize))]
    + (if config.tracklength.Some? then [TrackCheck(config.tracklength.value, facts)] else [])
    + (if config.synced.Some? then SyncedChecks(config.synced.value, unit, facts.messages) else [])
    + [GpsCheck(facts)]
  }

  /** `analyse_bag_file`: the topic checks in sorted topic order, then the
      trailer. */
  function Analysis(config: Config, unit: string, facts: BagFacts): seq<Check>
  {
    TopicChecks(TopicOrder(config.topics, unit), RenamedTopics(config.topics, unit), facts) + Trailer(config, unit, facts)
  }

  /** A result code is one of the six. */
  predicate Known(c: Check)
  {
    OK <= c.status <= ERROR
  }

  lemma TopicCodes(names: seq<string>, topics: map<string, Bounds>, facts: BagFacts)
    requires forall i :: 0 <= i < |names| ==> names[i] in topics
    ensures forall i :: 0 <= i < |names| ==>
      Known(TopicChecks(names, topics, facts)[i]) && TopicChecks(names, topics, facts)[i].name == names[i]
  {
    forall i | 0 <= i < |names|
      ensures Known(TopicChecks(names, topics, facts)[i])
    {
      if names[i] in facts.frequencies {
        ClassifyMeaning(facts.frequencies[names[i]], topics[names[i]]);
      }
    }
  }

  lemma TrailerLayout(config: Config, unit: string, facts: BagFacts)
    ensures var r := Trailer(config, unit, facts);
      var t := if config.tracklength.Some? then 1 else 0;
      var g := if config.synced.Some? then |config.synced.value| else 0;
      && |r| == 3 + t + g
      && r[0].name == "Duration" && r[1].name == "Filesize"
      && (t == 1 ==> r[2].name == "Tracklength")
      && r[|r| - 1] == Check("GPS Errors", facts.gpsErrors as real, if facts.gpsErrors > 0 then ERROR else OK)
      && (forall i :: 0 <= i < |r| ==> Known(r[i]))
  {
    ClassifyMeaning(facts.duration, config.duration);
    ClassifyMeaning(facts.filesize, config.filesize);
    if config.tracklength.Some? {
      ClassifyMeaning(facts.trackLength, config.tracklength.value);
    }
    var track := if config.tracklength.Some? then [TrackCheck(config.tracklength.value, facts)] else [];
    var synced := if config.synced.Some? then SyncedChecks(config.synced.value, unit, facts.messages) else [];
    TrailerParts([Check("Duration", facts.duration, Classify(facts.duration, config.duration))],
                 [Check("Filesize", facts.filesize, Classify(facts.filesize, config.filesize))],
                 track, synced, GpsCheck(facts));
  }

  /** The trailer's pieces put together: the first two checks, at most one
      track check, the synced checks and the GPS check last. */
  lemma TrailerParts(d: seq<Check>, f: seq<Check>, track: seq<Check>, synced: seq<Check>, g: Check)
    requires |d| == 1 && |f| == 1 && |track| <= 1
    requires Known(d[0]) && Known(f[0]) && Known(g)
    requires (forall i :: 0 <= i < |track| ==> Known(track[i])) && forall i :: 0 <= i < |synced| ==> Known(synced[i])
    ensures var r := d + f + track + synced + [g];
      && |r| == 3 + |track| + |synced|
      && r[0] == d[0] && r[1] == f[0] && (|track| == 1 ==> r[2] == track[0]) && r[|r| - 1] == g
      && forall i :: 0 <= i < |r| ==> Known(r[i])
  {
    var r := d + f + track + synced + [g];
    forall i | 0 <= i < |r|
      ensures Known(r[i])
    {
      if i < 2 + |track| + |synced| {
        assert r[i] == (d + f + track + synced)[i];
      }
    }
  }

  /** The results are one check per configured topic, in sorted topic
      order, followed by the trailer, and every code is one of the six. */
  lemma AnalysisLayout(config: Config, unit: string, facts: BagFacts)
    ensures var r := Analysis(config, unit, facts);
      var names := TopicOrder(config.topics, unit);
      && |r| == |names| + |Trailer(config, unit, facts)|
      && (forall i :: 0 <= i < |names| ==> r[i].name == names[i])
      && (forall i :: 0 <= i < |Trailer(config, unit, facts)| ==> r[|names| + i] == Trailer(config, unit, facts)[i])
      && (forall i :: 0 <= i < |r| ==> Known(r[i]))
  {
    var names := TopicOrder(config.topics, unit);
    var topics := RenamedTopics(config.topics, unit);
    TopicCodes(names, topics, facts);
    TrailerKnown(config, unit, facts);
    Concatenated(TopicChecks(names, topics, facts), Trailer(config, unit, facts), names);
  }

  lemma TrailerKnown(config: Config, unit: string, facts: BagFacts)
    ensures forall i :: 0 <= i < |Trailer(config, unit, facts)| ==> Known(Trailer(config, unit, facts)[i])
  {
    TrailerLayout(config, unit, facts);
  }

  /** The topic checks followed by the trailer. */
  lemma Concatenated(a: seq<Check>, b: seq<Check>, names: seq<string>)
    requires |a| == |names| && forall i :: 0 <= i < |a| ==> a[i].name == names[i] && Known(a[i])
    requires forall i :: 0 <= i < |b| ==> Known(b[i])
    ensures var r := a + b;
      && |r| == |names| + |b|
      && (forall i :: 0 <= i < |names| ==> r[i].name == names[i])
      && (forall i :: 0 <= i < |b| ==> r[|names| + i] == b[i])
      && (forall i :: 0 <= i < |r| ==> Known(r[i]))
  {
  }

  /** A non-empty synced group's spread is its largest minus its smallest
      count, and a group whose counts are equal is in sync. */
  lemma SpreadMeaning(counts: seq<nat>)
    requires |counts| > 0
    ensures Spread(counts) >= 0
    ensures (forall i :: 0 <= i < |counts| ==> counts[i] == counts[0]) ==> Spread(counts) == 0
    ensures forall i, j :: 0 <= i < |counts| && 0 <= j < |counts| ==> counts[i] - counts[j] <= Spread(counts)
  {
    if forall i :: 0 <= i < |counts| ==> counts[i] == counts[0] {
      var lo := MinOf(counts);
      var hi := MaxOf(counts);
      assert lo == counts[0] && hi == counts[0];
    }
  }

  /** The min/max loop over one synced group, with its sentinel starts. */
  method GroupSpread(counts: seq<nat>) returns (diff: int)
    ensures diff == Spread(counts)
  {
    var lo: int := -1;
    var hi: int := 0;
    for i := 0 to |counts|
      invariant i == 0 ==> lo == -1 && hi == 0
      invariant i > 0 ==> lo == MinOf(counts[..i]) && hi == MaxOf(counts[..i])
    {
      assert counts[..i + 1][..i] == counts[..i];
      if counts[i] < lo || lo == -1 {
        lo := counts[i];
      }
      if counts[i] > hi {
        hi := counts[i];
      }
    }
    if |counts| > 0 {
      assert counts[..|counts|] == counts;
    }
    diff := hi - lo;
  }

  /** The topic loop of `analyse_bag_file`. */
  method CheckTopics(names: seq<string>, topics: map<string, Bounds>, facts: BagFacts) returns (results: seq<Check>)
    requires forall i :: 0 <= i < |names| ==> names[i] in topics
    ensures results == TopicChecks(names, topics, facts)
  {
    results := [];
    for i := 0 to |names|
      invariant results == TopicChecks(names[..i], topics, facts)
    {
      assert names[..i + 1][..i] == names[..i];
      var b := topics[names[i]];
      var frequency: real;
      var stat: int;
      if names[i] in facts.frequencies {
        frequency := facts.frequencies[names[i]];
        if b.min.Some? && frequency < b.min.value {
          stat := TOLOW;
        } else if b.max.Some? && frequency > b.max.value {
          stat := TOHIGH;
        } else {
          stat := OK;
        }
      } else {
        stat := NONEXIST;
        frequency := -1.0;
      }
      results := results + [Check(names[i], frequency, stat)];
    }
    assert names[..|names|] == names;
  }

  /** The synced-group loop of `analyse_bag_file`. */
  method CheckSynced(groups: seq<(string, seq<string>)>, unit: string, messages: map<string, nat>) returns (results: seq<Check>)
    ensures results == SyncedChecks(groups, unit, messages)
  {
    results := [];
    for i := 0 to |groups|
      invariant results == SyncedChecks(groups[..i], unit, messages)
    {
      SyncedStep(groups, i, unit, messages);
      var diff := GroupSpread(GroupCounts(groups[i].1, unit, messages));
      var stat := if diff > 10 then UNSYNCED else OK;
      results := results + [Check("Synced " + groups[i].0, diff as real, stat)];
    }
    assert groups[..|groups|] == groups;
  }

  lemma SyncedStep(groups: seq<(string, seq<string>)>, i: nat, unit: string, messages: map<string, nat>)
    requires i < |groups|
    ensures SyncedChecks(groups[..i + 1], unit, messages) ==
      SyncedChecks(groups[..i], unit, messages) + [SyncedCheck(groups[i].0, groups[i].1, unit, messages)]
  {
    assert groups[..i + 1][..i] == groups[..i];
  }

  /** `analyse_bag_file`: the results appended check by check. */
  method Analyse(config: Config, unit: string, facts: BagFacts) returns (results: seq<Check>)
    ensures results == Analysis(config, unit, facts)
  {
    var topics := RenamedTopics(config.topics, unit);
    var checked := CheckTopics(TopicOrder(config.topics, unit), topics, facts);
    var track: seq<Check> := [];
    if config.tracklength.Some? {
      track := [TrackCheck(config.tracklength.value, facts)];
    }
    var synced: seq<Check> := [];
    if config.synced.Some? {
      synced := CheckSynced(config.synced.value, unit, facts.messages);
    }
    results := checked + ([Check("Duration", facts.duration, Classify(facts.duration, config.duration))]
      + [Check("Filesize", facts.filesize, Classify(facts.filesize, config.filesize))]
      + track + synced + [GpsCheck(facts)]);
  }

  /** A check that does not fail the run. */
  predicate Passes(c: Check)
  {
    c.status == OK || c.status == TOHIGH
  }

  /** Every check passes. */
  predicate AllPass(results: seq<Check>)
  {
    forall i :: 0 <= i < |results| ==> Passes(results[i])
  }

  /** `json_output` and the job's success loop: success unless some check
      is neither OK nor too high; the loop stops at the first failure. */
  method Success(results: seq<Check>) returns (success: bool)
    ensures success <==> forall i :: 0 <= i < |results| ==> Passes(results[i])
    ensures success == AllPass(results)
  {
    success := true;
    var i := 0;
    while i < |results|
      invariant 0 <= i <= |results|
      invariant success && forall j :: 0 <= j < i ==> Passes(results[j])
    {
      if !Passes(results[i]) {
        success := false;
        break;
      }
      i := i + 1;
    }
  }

  /** `get_filesize`: the uncompressed size when the summary has one, else
      the size; a summary with neither raises. */
  function Filesize(summary: map<string, int>): (r: Result<int, string>)
    ensures "uncompressed" in summary ==> r == Ok(summary["uncompressed"])
    ensures "uncompressed" !in summary && "size" in summary ==> r == Ok(summary["size"])
    ensures r.Err? <==> "uncompressed" !in summary && "size" !in summary
  {
    if "uncompressed" in summary then Ok(summary["uncompressed"])
    else if "size" in summary then Ok(summary["size"])
    else Err(KeyError)
  }

  /** `str` of an integer. */
  function IntText(n: int): string
  {
    if n < 0 then "-" + Decimal(-n) else Decimal(n)
  }

  /** The text appended to a check's name in the diagnostic. */
  function Label(status: int): string
  {
    if status == NONEXIST then ": NOT EXISTING"
    else if status == TOLOW then ": value to low"
    else if status == TOHIGH then ": value to high"
    else if status == OK then ": OK"
    else if status == UNSYNCED then ": UNSYNCED"
    else if status == ERROR then ": ERROR"
    else ": Status " + IntText(status) + " unknown"
  }

  /** The ROS level of a result code; a code that is not one of the six
      counts as an error. */
  function Level(status: int): (l: int)
    ensures l in {LevelOk, LevelWarn, LevelError}
    ensures l == LevelOk <==> status == OK
    ensures l == LevelWarn <==> status == TOHIGH
  {
    if 0 <= status < |RosStatus| then RosStatus[status] else LevelError
  }

  /** The level after one more check: an error always wins, a warning only
      replaces OK. */
  function Escalate(level: int, ros: int): int
  {
    if ros == LevelError || (level == LevelOk && ros == LevelWarn) then ros else level
  }

  /** The level of a diagnostic for `results`, in check order. */
  function LevelOf(results: seq<Check>): int
  {
    if |results| == 0 then LevelOk else Escalate(LevelOf(results[..|results| - 1]), Level(results[|results| - 1].status))
  }

  /** The diagnostic level is the worst level among the checks: error when
      some check maps to an error, otherwise warning when some check is too
      high, otherwise OK. */
  lemma {:induction false} LevelIsWorst(results: seq<Check>)
    ensures LevelOf(results) == LevelError <==> exists i :: 0 <= i < |results| && Level(results[i].status) == LevelError
    ensures LevelOf(results) == LevelWarn <==>
      (exists i :: 0 <= i < |results| && results[i].status == TOHIGH) &&
      forall i :: 0 <= i < |results| ==> Level(results[i].status) != LevelError
    ensures LevelOf(results) == LevelOk <==> forall i :: 0 <= i < |results| ==> results[i].status == OK
  {
    if |results| > 0 {
      var init := results[..|results| - 1];
      LevelIsWorst(init);
      assert forall i :: 0 <= i < |init| ==> init[i] == results[i];
      var last := results[|results| - 1];
      var l := Level(last.status);
      assert l in {LevelOk, LevelWarn, LevelError};
    }
  }

  lemma LevelStep(results: seq<Check>, i: nat)
    requires i < |results|
    ensures LevelOf(results[..i + 1]) == Escalate(LevelOf(results[..i]), Level(results[i].status))
  {
    assert results[..i + 1][..i] == results[..i];
  }

  /** A published diagnostic: its level and one key/value pair per check. */
  datatype Diagnostic = Diagnostic(level: int, values: seq<(string, string)>)

  /** `send_diagnostic` as intended: every check becomes a key/value pair,
      and the level escalates check by check. `show` is `str` of a value. */
  method Diagnose(results: seq<Check>, show: real -> string) returns (d: Diagnostic)
    ensures d.level == LevelOf(results)
    ensures |d.values| == |results|
    ensures forall i :: 0 <= i < |results| ==> d.values[i] == (results[i].name + Label(results[i].status), show(results[i].value))
  {
    var level := LevelOk;
    var values := [];
    for i := 0 to |results|
      invariant level == LevelOf(results[..i])
      invariant |values| == i
      invariant forall j :: 0 <= j < i ==> values[j] == (results[j].name + Label(results[j].status), show(results[j].value))
    {
      LevelStep(results, i);
      var ros := Level(results[i].status);
      if ros == LevelError || (level == LevelOk && ros == LevelWarn) {
        level := ros;
      }
      ghost var before := values;
      values := values + [(results[i].name + Label(results[i].status), show(results[i].value))];
      assert forall j :: 0 <= j < i ==> values[j] == before[j];
    }
    assert results[..|results|] == results;
    d := Diagnostic(level, values);
  }

  /** The level lookup as written: the code indexes the level table before
      the unknown-code branch is reached, so a code of six or more, or below
      minus six, raises; a negative code within the table's length indexes
      from its end, and the unknown branch then makes it an error. */
  function LevelAsWritten(status: int): Result<int, string>
  {
    if 0 <= status < 6 then Ok(RosStatus[status])
    else if -6 <= status < 0 then Ok(LevelError)
    else Err(IndexError)
  }

  function LevelOfAsWritten(results: seq<Check>): Result<int, string>
  {
    if |results| == 0 then Ok(LevelOk)
    else match LevelOfAsWritten(results[..|results| - 1])
      case Err(e) => Err(e)
      case Ok(level) =>
        match LevelAsWritten(results[|results| - 1].status)
        case Err(e) => Err(e)
        case Ok(ros) => Ok(Escalate(level, ros))
  }

  /** For the six codes, and for the negative codes that still index the
      table, the written code gives the intended level. */
  lemma {:induction false} AsWrittenAgrees(results: seq<Check>)
    requires forall i :: 0 <= i < |results| ==> -6 <= results[i].status < 6
    ensures LevelOfAsWritten(results) == Ok(LevelOf(results))
  {
    if |results| > 0 {
      AsWrittenAgrees(results[..|results| - 1]);
    }
  }

  /** An unknown code of six raises instead of counting as an error. */
  lemma UnknownCodeRaises()
    ensures LevelOfAsWritten([Check("x", 0.0, 6)]) == Err(IndexError)
    ensures LevelOf([Check("x", 0.0, 6)]) == LevelError
  {
    assert [Check("x", 0.0, 6)][..0] == [];
  }
}
