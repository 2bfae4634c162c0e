/** The bag reader: the per-fileset summary of topics and times, the
    topic table and mimetype choice of the message stream, the stream's
    records, and the client that reads the stream back in chunks. */
module Reader {
  import opened Wrappers

  const TypeError := "TypeError"
  const KeyError := "KeyError"
  const NotImplementedError := "NotImplementedError"

  /** What one bag file reports: its start and end time and, per topic, the
      message type and message count. */
  datatype TopicInfo = TopicInfo(name: string, msgType: string, count: int)
  datatype BagFile = BagFile(start: int, end: int, topics: seq<TopicInfo>)

  type Key = (string, string)

  function Get(m: map<Key, int>, k: Key): int
  {
    if k in m then m[k] else 0
  }

  /** The counts of one file's topics added into `m`, a missing key counting
      as zero. */
  function AddTopics(m: map<Key, int>, ts: seq<TopicInfo>): map<Key, int>
  {
    if |ts| == 0 then m
    else
      var acc := AddTopics(m, ts[..|ts| - 1]);
      var t := ts[|ts| - 1];
      acc[(t.name, t.msgType) := Get(acc, (t.name, t.msgType)) + t.count]
  }

  /** The counts of all files, in file order. */
  function Totals(files: seq<BagFile>): map<Key, int>
  {
    if |files| == 0 then map[] else AddTopics(Totals(files[..|files| - 1]), files[|files| - 1].topics)
  }

  /** The messages of one topic and type in a list of topic entries. */
  function EntrySum(ts: seq<TopicInfo>, k: Key): int
  {
    if |ts| == 0 then 0
    else EntrySum(ts[..|ts| - 1], k) + (if (ts[|ts| - 1].name, ts[|ts| - 1].msgType) == k then ts[|ts| - 1].count else 0)
  }

  /** The messages of one topic and type over all files. */
  function TotalOf(files: seq<BagFile>, k: Key): int
  {
    if |files| == 0 then 0 else TotalOf(files[..|files| - 1], k) + EntrySum(files[|files| - 1].topics, k)
  }

  predicate Listed(files: seq<BagFile>, k: Key)
  {
    exists i, j :: 0 <= i < |files| && 0 <= j < |files[i].topics| && (files[i].topics[j].name, files[i].topics[j].msgType) == k
  }

  lemma {:induction false} AddTopicsCounts(m: map<Key, int>, ts: seq<TopicInfo>, k: Key)
    ensures Get(AddTopics(m, ts), k) == Get(m, k) + EntrySum(ts, k)
    ensures k in AddTopics(m, ts) <==> k in m || exists j :: 0 <= j < |ts| && (ts[j].name, ts[j].msgType) == k
  {
    if |ts| > 0 {
      var init := ts[..|ts| - 1];
      AddTopicsCounts(m, init, k);
      assert forall j :: 0 <= j < |init| ==> init[j] == ts[j];
    }
  }

  /** The summary counts a topic and type exactly when some file lists it,
      and then it holds the sum of that entry over all files. */
  lemma {:induction false} TotalsCount(files: seq<BagFile>, k: Key)
    ensures k in Totals(files) <==> Listed(files, k)
    ensures Get(Totals(files), k) == TotalOf(files, k)
  {
    if |files| > 0 {
      var init := files[..|files| - 1];
      TotalsCount(init, k);
      AddTopicsCounts(Totals(init), files[|files| - 1].topics, k);
      assert forall i :: 0 <= i < |init| ==> init[i] == files[i];
      if Listed(files, k) && !Listed(init, k) {
        var i, j :| 0 <= i < |files| && 0 <= j < |files[i].topics| && (files[i].topics[j].name, files[i].topics[j].msgType) == k;
        assert i == |files| - 1;
      }
    }
  }

  /** The counts of consecutive file lists add up. */
  lemma {:induction false} TotalOfAppend(a: seq<BagFile>, b: seq<BagFile>, k: Key)
    ensures TotalOf(a + b, k) == TotalOf(a, k) + TotalOf(b, k)
    decreases |b|
  {
    if |b| == 0 {
      assert a + b == a;
    } else {
      assert (a + b)[..|a + b| - 1] == a + b[..|b| - 1];
      TotalOfAppend(a, b[..|b| - 1], k);
    }
  }

  /** What the reader stores for a bag: start and end time, duration and
      message counts. */
  datatype Summary = Summary(start: int, end: int, duration: int, counts: map<Key, int>)

  /** `reader`: the start time of the first file, the end time of the last,
      and the counts summed per topic and type; a fileset without files has
      no times, and subtracting them raises. */
  method Summarize(files: seq<BagFile>) returns (r: Result<Summary, string>)
    ensures r.Err? <==> |files| == 0
    ensures r.Err? ==> r.error == TypeError
    ensures r.Ok? ==> r.value.start == files[0].start && r.value.end == files[|files| - 1].end
    ensures r.Ok? ==> r.value.duration == r.value.end - r.value.start
    ensures r.Ok? ==> r.value.counts == Totals(files)
  {
    var start: Option<int> := None;
    var end: Option<int> := None;
    var counts: map<Key, int> := map[];
    for i := 0 to |files|
      invariant counts == Totals(files[..i])
      invariant i == 0 <==> start.None?
      invariant i == 0 <==> end.None?
      invariant i > 0 ==> start == Some(files[0].start) && end == Some(files[i - 1].end)
    {
      if start.None? {
        start := Some(files[i].start);
      }
      end := Some(files[i].end);
      assert files[..i + 1][..i] == files[..i];
      counts := AddFile(counts, files[i].topics);
    }
    assert files[..|files|] == files;
    if start.None? || end.None? {
      return Err(TypeError);
    }
    r := Ok(Summary(start.value, end.value, end.value - start.value, counts));
  }

  /** The inner loop of `reader`: one file's topic counts added in. */
  method AddFile(counts: map<Key, int>, ts: seq<TopicInfo>) returns (r: map<Key, int>)
    ensures r == AddTopics(counts, ts)
  {
    r := counts;
    for j := 0 to |ts|
      invariant r == AddTopics(counts, ts[..j])
    {
      assert ts[..j + 1][..j] == ts[..j];
      var k := (ts[j].name, ts[j].msgType);
      r := r[k := Get(r, k) + ts[j].count];
    }
    assert ts[..|ts|] == ts;
  }

  /** The topic table of a message stream: each topic of the bag with its
      position in the full list of the bag's topics and its message type,
      only the requested topics kept, all when none are requested; a topic
      listed twice keeps its last position. */
  function TopicTable(bagTopics: seq<(string, string)>, requested: seq<string>): (r: map<string, (nat, string)>)
    ensures forall name :: name in r <==>
      (|requested| == 0 || name in requested) && exists i :: 0 <= i < |bagTopics| && bagTopics[i].0 == name
    ensures forall name :: name in r ==>
      var i := r[name].0;
      && i < |bagTopics| && bagTopics[i] == (name, r[name].1)
      && forall j :: i < j < |bagTopics| ==> bagTopics[j].0 != name
  {
    if |bagTopics| == 0 then map[]
    else
      var init := bagTopics[..|bagTopics| - 1];
      var last := bagTopics[|bagTopics| - 1];
      var acc := TopicTable(init, requested);
      TopicTableStep(bagTopics, requested, acc);
      if |requested| == 0 || last.0 in requested then acc[last.0 := (|bagTopics| - 1, last.1)] else acc
  }

  /** The topic table of the topics seen so far. */
  ghost predicate IndexesTopics(bagTopics: seq<(string, string)>, requested: seq<string>, r: map<string, (nat, string)>)
  {
    && (forall name :: name in r <==>
      (|requested| == 0 || name in requested) && exists i :: 0 <= i < |bagTopics| && bagTopics[i].0 == name)
    && (forall name :: name in r ==>
      var i := r[name].0;
      && i < |bagTopics| && bagTopics[i] == (name, r[name].1)
      && forall j :: i < j < |bagTopics| ==> bagTopics[j].0 != name)
  }

  lemma TopicTableStep(bagTopics: seq<(string, string)>, requested: seq<string>, acc: map<string, (nat, string)>)
    requires |bagTopics| > 0 && IndexesTopics(bagTopics[..|bagTopics| - 1], requested, acc)
    ensures var last := bagTopics[|bagTopics| - 1];
      IndexesTopics(bagTopics, requested,
        if |requested| == 0 || last.0 in requested then acc[last.0 := (|bagTopics| - 1, last.1)] else acc)
  {
    var init := bagTopics[..|bagTopics| - 1];
    assert forall i :: 0 <= i < |init| ==> init[i] == bagTopics[i];
  }

  /** Requesting topics does not renumber them: a kept topic has the id it
      has in the unfiltered table. */
  lemma TopicIdsStable(bagTopics: seq<(string, string)>, requested: seq<string>, name: string)
    requires name in TopicTable(bagTopics, requested)
    ensures name in TopicTable(bagTopics, [])
    ensures TopicTable(bagTopics, requested)[name] == TopicTable(bagTopics, [])[name]
  {
    var a := TopicTable(bagTopics, requested)[name].0;
    var b := TopicTable(bagTopics, [])[name].0;
    assert !(a < b) && !(b < a);
  }

  /** The mimetypes the stream can be served as, in handler order. */
  const Handlers: seq<string> := ["*/*", "foo/bar", "application/x-ros-bag-msgs"]
  const BagMsgs := "application/x-ros-bag-msgs"

  /** The first accepted mimetype that has a handler. */
  function FirstHandled(accept: seq<string>): (r: Option<nat>)
    ensures r.None? <==> forall i :: 0 <= i < |accept| ==> accept[i] !in Handlers
    ensures r.Some? ==> r.value < |accept| && accept[r.value] in Handlers
    ensures r.Some? ==> forall i :: 0 <= i < r.value ==> accept[i] !in Handlers
  {
    if |accept| == 0 then None
    else if accept[0] in Handlers then Some(0)
    else match FirstHandled(accept[1..])
      case None => None
      case Some(i) => Some(i + 1)
  }

  /** The handler chosen for an Accept list already ordered by quality
      (section 5.3.2 of RFC 7231): the first handler when there is no list,
      otherwise the first accepted mimetype that has a handler; none gives
      status 400. */
  function ChooseHandler(accept: seq<string>): (r: Result<string, int>)
    ensures r.Ok? ==> r.value in Handlers
    ensures |accept| == 0 ==> r == Ok("*/*")
    ensures |accept| > 0 ==> (r.Err? <==> forall i :: 0 <= i < |accept| ==> accept[i] !in Handlers)
    ensures r.Err? ==> r.error == 400
    ensures |accept| > 0 && r.Ok? ==>
      exists i :: 0 <= i < |accept| && accept[i] == r.value && forall j :: 0 <= j < i ==> accept[j] !in Handlers
  {
    if |accept| == 0 then Ok(Handlers[0])
    else match FirstHandled(accept)
      case None => Err(400)
      case Some(i) => Ok(accept[i])
  }

  /** The mimetype the response reports: the catch-all is reported as the
      bag message stream. */
  function Reported(handler: string): (r: string)
    ensures r != "*/*"
    ensures handler != "*/*" ==> r == handler
  {
    if handler == "*/*" then BagMsgs else handler
  }

  /** Without an Accept list, and when only the catch-all is accepted, the
      stream is reported as bag messages; an Accept list with an unknown
      type first picks the next known one. */
  lemma MimetypeExamples()
    ensures ChooseHandler([]) == Ok("*/*") && Reported("*/*") == BagMsgs
    ensures ChooseHandler(["foo/foo", "foo/bar", BagMsgs]) == Ok("foo/bar")
    ensures ChooseHandler(["foo/foo"]) == Err(400)
  {
    assert "foo/foo" != "*/*" && "foo/foo" != BagMsgs;
    assert "foo/foo" != "foo/bar" by {
      assert "foo/foo"[4] != "foo/bar"[4];
    }
    assert ["foo/foo", "foo/bar", BagMsgs][1..] == ["foo/bar", BagMsgs];
    assert FirstHandled(["foo/bar", BagMsgs]) == Some(0);
    assert FirstHandled(["foo/foo", "foo/bar", BagMsgs]) == Some(1);
  }

  /** A record of the message stream: the meta record, or one message as
      topic id, time in nanoseconds and raw data. */
  datatype Record = Meta(topics: map<string, (nat, string)>, name: string) | Message(topicId: nat, nsec: int, data: seq<bv8>)

  /** A message as read from the bag: topic, time and raw data. */
  datatype RawMessage = RawMessage(topic: string, nsec: int, data: seq<bv8>)

  /** What a generator produced: the records it yielded, and the exception
      it raised after them, if any. */
  datatype Streamed = Streamed(records: seq<Record>, raised: Option<string>)

  /** `x_ros_bag_msgs`: the meta record, then one record per message in
      read order; a message on a topic missing from the table raises, after
      the records already yielded for the messages before it. */
  function Stream(topics: map<string, (nat, string)>, name: string, messages: seq<RawMessage>): (r: Streamed)
    ensures r.raised.Some? <==> exists i :: 0 <= i < |messages| && messages[i].topic !in topics
    ensures r.raised.Some? ==> r.raised.value == KeyError
    ensures 1 <= |r.records| <= |messages| + 1 && r.records[0] == Meta(topics, name)
    ensures r.raised.None? ==> |r.records| == |messages| + 1
    ensures r.raised.Some? ==> |r.records| <= |messages| && messages[|r.records| - 1].topic !in topics
    ensures forall i :: 0 <= i < |r.records| - 1 ==>
      && messages[i].topic in topics
      && r.records[i + 1] == Message(topics[messages[i].topic].0, messages[i].nsec, messages[i].data)
  {
    if |messages| == 0 then Streamed([Meta(topics, name)], None)
    else
      var init := messages[..|messages| - 1];
      var last := messages[|messages| - 1];
      assert forall i :: 0 <= i < |init| ==> init[i] == messages[i];
      var s := Stream(topics, name, init);
      if s.raised.Some? then s
      else if last.topic !in topics then Streamed(s.records, Some(KeyError))
      else Streamed(s.records + [Message(topics[last.topic].0, last.nsec, last.data)], None)
  }

  /** A message stream read back: the meta record comes first, and the
      messages follow with their topic ids, times and data. */
  lemma StreamMessages(topics: map<string, (nat, string)>, name: string, messages: seq<RawMessage>)
    requires forall i :: 0 <= i < |messages| ==> messages[i].topic in topics
    ensures Stream(topics, name, messages).raised.None?
    ensures Stream(topics, name, messages).records[0].Meta?
    ensures forall i :: 1 <= i < |Stream(topics, name, messages).records| ==> Stream(topics, name, messages).records[i].Message?
  {
  }

  /** A stream that raises yields first the records of the messages before
      the first one on a missing topic. */
  lemma {:induction false} StreamRaises(topics: map<string, (nat, string)>, name: string, messages: seq<RawMessage>, j: nat)
    requires j < |messages| && messages[j].topic !in topics
    requires forall i :: 0 <= i < j ==> messages[i].topic in topics
    ensures Stream(topics, name, messages) == Streamed(Stream(topics, name, messages[..j]).records, Some(KeyError))
  {
    var init := messages[..|messages| - 1];
    if j == |messages| - 1 {
      assert init == messages[..j];
    } else {
      assert init[j] == messages[j];
      assert init[..j] == messages[..j];
      StreamRaises(topics, name, init, j);
    }
  }

  /** All bytes of a list of chunks, in order. */
  function Concat(chunks: seq<seq<bv8>>): seq<bv8>
  {
    if |chunks| == 0 then [] else Concat(chunks[..|chunks| - 1]) + chunks[|chunks| - 1]
  }

  /** How many chunks `read(n)` pulls into a buffer holding `current`. */
  function Pulled(current: seq<bv8>, chunks: seq<seq<bv8>>, n: nat): (k: nat)
    ensures k <= |chunks|
    decreases |chunks|
  {
    if n <= |current| || |chunks| == 0 then 0 else 1 + Pulled(current + chunks[0], chunks[1..], n)
  }

  lemma ConcatStep(chunks: seq<seq<bv8>>, i: nat)
    requires i < |chunks|
    ensures Concat(chunks[..i + 1]) == Concat(chunks[..i]) + chunks[i]
  {
    assert chunks[..i + 1][..i] == chunks[..i];
  }

  /** `read` pulls exactly as many chunks as needed: after them the buffer
      holds `n` bytes or the chunks have run out, and with one fewer it
      held fewer than `n`. */
  lemma {:induction false} PulledEnough(current: seq<bv8>, chunks: seq<seq<bv8>>, n: nat)
    ensures var k := Pulled(current, chunks, n);
      && (n <= |current + Concat(chunks[..k])| || k == |chunks|)
      && forall j :: 0 <= j < k ==> |current + Concat(chunks[..j])| < n
    decreases |chunks|
  {
    var k := Pulled(current, chunks, n);
    if k > 0 {
      var rest := chunks[1..];
      PulledEnough(current + chunks[0], rest, n);
      forall j | 0 <= j <= |rest|
        ensures current + Concat(chunks[..j + 1]) == current + chunks[0] + Concat(rest[..j])
      {
        ConcatShift(chunks, j);
      }
      forall j | 0 <= j < k
        ensures |current + Concat(chunks[..j])| < n
      {
        if j > 0 {
          assert current + Concat(chunks[..j]) == current + chunks[0] + Concat(rest[..j - 1]);
        } else {
          assert chunks[..0] == [];
        }
      }
    } else {
      assert chunks[..0] == [];
    }
  }

  lemma {:induction false} ConcatShift(chunks: seq<seq<bv8>>, j: nat)
    requires 0 < |chunks| && j < |chunks|
    ensures Concat(chunks[..j + 1]) == chunks[0] + Concat(chunks[1..][..j])
  {
    if j > 0 {
      ConcatShift(chunks, j - 1);
      ConcatStep(chunks, j);
      ConcatStep(chunks[1..], j - 1);
      assert chunks[1..][j - 1] == chunks[j];
    } else {
      assert chunks[..1] == [chunks[0]];
      assert chunks[1..][..0] == [];
    }
  }

  /** The reading side of a message stream: the unread bytes of the last
      pulled chunk and the chunks not yet pulled. */
  class StreamClient {
    var current: seq<bv8>
    var chunks: seq<seq<bv8>>

    /** The stream as the first chunk and the rest; the meta record is
        decoded from it by the unpickler, which is not part of this model. */
    constructor (first: seq<bv8>, rest: seq<seq<bv8>>)
      ensures current == first && chunks == rest
    {
      current := first;
      chunks := rest;
    }

    /** `read(n)`: chunks are pulled until the buffer holds `n` bytes or
        there are none left; at most `n` bytes are returned and the rest
        stays buffered, so no byte is lost or repeated. */
    method Read(n: nat) returns (rv: seq<bv8>)
      modifies this
      ensures var k := Pulled(old(current), old(chunks), n);
        && chunks == old(chunks)[k..]
        && rv + current == old(current) + Concat(old(chunks)[..k])
        && |rv| == if n <= |old(current) + Concat(old(chunks)[..k])| then n else |old(current) + Concat(old(chunks)[..k])|
    {
      var buffer := current;
      var i := 0;
      while n > |buffer| && i < |chunks|
        invariant current == old(current) && chunks == old(chunks)
        invariant 0 <= i <= |chunks|
        invariant buffer == current + Concat(chunks[..i])
        invariant Pulled(current, chunks, n) == i + Pulled(buffer, chunks[i..], n)
        decreases |chunks| - i
      {
        assert chunks[i..][0] == chunks[i] && chunks[i..][1..] == chunks[i + 1..];
        ConcatStep(chunks, i);
        buffer := buffer + chunks[i];
        i := i + 1;
      }
      assert Pulled(buffer, chunks[i..], n) == 0;
      var m := if n <= |buffer| then n else |buffer|;
      rv := buffer[..m];
      assert rv + buffer[m..] == buffer;
      current := buffer[m..];
      chunks := chunks[i..];
    }

    /** `readline` is not supported. */
    method ReadLine() returns (r: Result<seq<bv8>, string>)
      ensures r == Err(NotImplementedError)
    {
      r := Err(NotImplementedError);
    }
  }
}
