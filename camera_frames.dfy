/** The camera-frames job: from each camera topic it keeps every
    `interval`-th image, with the interval chosen so that at most
    `max_frames` images are written per topic, and names the image files by
    topic and frame number; the gallery of a topic lists the job files with
    that topic's prefix. Decoding, scaling and writing the images is not
    part of this model. */
module CameraFrames {
  import opened Wrappers
  import opened Strings

  const KeyError := "KeyError"
  const ZeroDivisionError := "ZeroDivisionError"
  const ValueError := "ValueError"

  /** The camera topics the job reads: the older fixed names, then the jai
      rgb, jai nir, kinect ir and kinect rgb images of each camera module. */
  const Topics: seq<string> := [
    "/camera/image_raw_webcam", "/stereo_rgb/left/image_raw_sync", "/stereo_nir/left/image_raw_sync",
    "/stereo_rgb/right/image_raw_sync", "/stereo_nir/right/image_raw_sync",
    "/kinect2_center/ir/image_raw", "/kinect2_center/rgb/image_raw",
    "/camA/jai/rgb/image_raw", "/camB/jai/rgb/image_raw", "/camC/jai/rgb/image_raw",
    "/camA/jai/nir/image_raw", "/camB/jai/nir/image_raw", "/camC/jai/nir/image_raw",
    "/camA/kinect2/ir/image_raw", "/camB/kinect2/ir/image_raw", "/camC/kinect2/ir/image_raw",
    "/camA/kinect2/rgb/image_raw", "/camB/kinect2/rgb/image_raw", "/camC/kinect2/rgb/image_raw"]

  /** `int(math.ceil(float(count) / max_frames))`, computed exactly: for a
      positive `max_frames` the least `r` with `count <= r * max_frames`. */
  function Ceil(count: nat, maxFrames: int): (r: int)
    requires maxFrames != 0
    ensures maxFrames > 0 ==> r >= 0 && (r - 1) * maxFrames < count <= r * maxFrames
  {
    if maxFrames > 0 then
      var r := (count + maxFrames - 1) / maxFrames;
      assert count + maxFrames - 1 == r * maxFrames + (count + maxFrames - 1) % maxFrames;
      r
    else -(count / -maxFrames)
  }

  /** The message counts of the camera topics in the bag's summary. */
  function CameraCounts(bag: map<string, nat>): (counts: map<string, nat>)
    ensures forall t :: t in counts <==> t in bag && t in Topics
  {
    map t | t in bag && t in Topics :: bag[t]
  }

  /** The interval of every counted topic; dividing by a `max_frames` of
      zero raises as soon as there is a topic to divide for. */
  function Intervals(counts: map<string, nat>, maxFrames: int): (r: Result<map<string, int>, string>)
    ensures r.Err? <==> maxFrames == 0 && |counts| > 0
    ensures r.Ok? ==> r.value.Keys == counts.Keys && forall t :: t in counts ==> r.value[t] == Ceil(counts[t], maxFrames)
  {
    if maxFrames == 0 then
      if |counts| > 0 then Err(ZeroDivisionError) else Ok(map[])
    else Ok(map t | t in counts :: Ceil(counts[t], maxFrames))
  }

  /** The name of frame `index` of `topic`. */
  function FrameName(topic: string, index: nat): string
  {
    "topic" + Replace(topic, "/", "_") + "_" + ZeroPad(index, 3) + ".jpg"
  }

  /** The job's counters and the frames written so far. */
  datatype Progress = Progress(msgIdx: map<string, nat>, frameIdx: map<string, nat>, files: seq<string>)

  function Start(counts: map<string, nat>): Progress
  {
    Progress(map t | t in counts :: 0, map t | t in counts :: 0, [])
  }

  /** One message of `topic`: its message index advances, and it becomes a
      frame when that index is a multiple of the topic's interval. */
  function Step(p: Progress, topic: string, intervals: map<string, int>): Result<Progress, string>
  {
    if topic !in p.msgIdx || topic !in intervals then Err(KeyError)
    else
      var k := p.msgIdx[topic];
      var q := p.(msgIdx := p.msgIdx[topic := k + 1]);
      if intervals[topic] == 0 then Err(ZeroDivisionError)
      else if k % intervals[topic] != 0 then Ok(q)
      else if topic !in p.frameIdx then Err(KeyError)
      else
        var f := p.frameIdx[topic];
        Ok(q.(frameIdx := p.frameIdx[topic := f + 1], files := p.files + [FrameName(topic, f)]))
  }

  /** The messages of `topics`, in read order, one step each. */
  function Run(intervals: map<string, int>, p: Progress, topics: seq<string>): Result<Progress, string>
  {
    if |topics| == 0 then Ok(p)
    else match Run(intervals, p, topics[..|topics| - 1])
      case Err(e) => Err(e)
      case Ok(q) => Step(q, topics[|topics| - 1], intervals)
  }

  /** `job`: the frame files written for the messages of `topics`. */
  function Job(bag: map<string, nat>, maxFrames: int, topics: seq<string>): Result<seq<string>, string>
  {
    var counts := CameraCounts(bag);
    match Intervals(counts, maxFrames)
    case Err(e) => Err(e)
    case Ok(intervals) =>
      match Run(intervals, Start(counts), topics)
      case Err(e) => Err(e)
      case Ok(p) => Ok(p.files)
  }

  /** How often `t` occurs in `s`. */
  function Count(s: seq<string>, t: string): nat
  {
    if |s| == 0 then 0 else Count(s[..|s| - 1], t) + (if s[|s| - 1] == t then 1 else 0)
  }

  /** How many of the message indices `0 .. c-1` are multiples of `k`. */
  function Extracted(c: nat, k: int): nat
    requires c == 0 || k != 0
  {
    if c == 0 then 0 else Extracted(c - 1, k) + (if (c - 1) % k == 0 then 1 else 0)
  }

  /** The counters after the messages of `topics`: per counted topic, the
      number of its messages and the number of those that became frames. */
  predicate Counted(p: Progress, counts: map<string, nat>, intervals: map<string, int>, topics: seq<string>)
    requires intervals.Keys == counts.Keys
  {
    && p.msgIdx.Keys == counts.Keys && p.frameIdx.Keys == counts.Keys
    && forall t :: t in counts ==>
         && p.msgIdx[t] == Count(topics, t)
         && (Count(topics, t) == 0 || intervals[t] != 0)
         && p.frameIdx[t] == Extracted(Count(topics, t), intervals[t])
  }

  lemma StepCounted(p: Progress, counts: map<string, nat>, intervals: map<string, int>, topics: seq<string>, t: string)
    requires intervals.Keys == counts.Keys && Counted(p, counts, intervals, topics)
    ensures Step(p, t, intervals).Ok? <==> t in counts && intervals[t] != 0
    ensures Step(p, t, intervals).Ok? ==> Counted(Step(p, t, intervals).value, counts, intervals, topics + [t])
  {
    if t in counts && intervals[t] != 0 {
      var k, iv := p.msgIdx[t], intervals[t];
      var r := Step(p, t, intervals).value;
      assert r.msgIdx == p.msgIdx[t := k + 1];
      assert r.frameIdx == if k % iv == 0 then p.frameIdx[t := p.frameIdx[t] + 1] else p.frameIdx;
      CountedAfter(p, r, counts, intervals, topics, t);
    }
  }

  /** The counters after one counted message of `t` with a non-zero interval. */
  lemma CountedAfter(p: Progress, r: Progress, counts: map<string, nat>, intervals: map<string, int>, topics: seq<string>, t: string)
    requires intervals.Keys == counts.Keys && Counted(p, counts, intervals, topics)
    requires t in counts && intervals[t] != 0
    requires r.msgIdx == p.msgIdx[t := p.msgIdx[t] + 1]
    requires r.frameIdx == if p.msgIdx[t] % intervals[t] == 0 then p.frameIdx[t := p.frameIdx[t] + 1] else p.frameIdx
    ensures Counted(r, counts, intervals, topics + [t])
  {
    forall u | u in counts
      ensures r.msgIdx[u] == Count(topics + [t], u)
      ensures Count(topics + [t], u) == 0 || intervals[u] != 0
      ensures r.frameIdx[u] == Extracted(Count(topics + [t], u), intervals[u])
    {
      CountSnoc(topics, t, u);
      if u == t {
        CountedOne(p.msgIdx[t], intervals[t], p.frameIdx[t], r.msgIdx[t], r.frameIdx[t], Count(topics + [t], u));
      }
    }
  }

  /** One message of a topic whose counters agree with its count so far. */
  lemma CountedOne(k: nat, iv: int, f: nat, k': nat, f': nat, c: nat)
    requires iv != 0 && f == Extracted(k, iv) && k' == k + 1 && c == k + 1
    requires f' == if k % iv == 0 then f + 1 else f
    ensures k' == c && f' == Extracted(c, iv)
  {
  }

  lemma CountSnoc(topics: seq<string>, t: string, u: string)
    ensures Count(topics + [t], u) == Count(topics, u) + (if t == u then 1 else 0)
  {
    assert (topics + [t])[..|topics|] == topics;
  }

  /** A run succeeds exactly when every message's topic is counted and has
      a non-zero interval, and the counters then count as `Counted` says. */
  lemma {:induction false} RunCounters(counts: map<string, nat>, intervals: map<string, int>, topics: seq<string>)
    requires intervals.Keys == counts.Keys
    ensures Run(intervals, Start(counts), topics).Ok? <==>
      forall i :: 0 <= i < |topics| ==> topics[i] in counts && intervals[topics[i]] != 0
    ensures Run(intervals, Start(counts), topics).Ok? ==> Counted(Run(intervals, Start(counts), topics).value, counts, intervals, topics)
  {
    if |topics| > 0 {
      var init := topics[..|topics| - 1];
      var t := topics[|topics| - 1];
      RunCounters(counts, intervals, init);
      assert forall i :: 0 <= i < |init| ==> init[i] == topics[i];
      var r := Run(intervals, Start(counts), init);
      if r.Ok? {
        StepCounted(r.value, counts, intervals, init, t);
        assert init + [t] == topics;
      }
    }
  }

  /** The product of two numbers keeps its order under a positive factor. */
  lemma MulMono(a: int, b: int, k: int)
    requires k > 0 && a <= b
    ensures a * k <= b * k
  {
  }

  lemma Scale(a: int, b: int, k: int)
    requires k > 0
    ensures a < b <==> a * k < b * k
    ensures a <= b <==> a * k <= b * k
    ensures (a + 1) * k == a * k + k
  {
    if a <= b {
      MulMono(a, b, k);
    } else {
      MulMono(b + 1, a, k);
      assert (b + 1) * k == b * k + k;
    }
    if a < b {
      MulMono(a + 1, b, k);
      assert (a + 1) * k == a * k + k;
    } else {
      MulMono(b, a, k);
    }
  }

  /** A multiple of `k` leaves no remainder. */
  lemma MulMod(e: int, k: int)
    requires k > 0
    ensures (e * k) % k == 0
  {
    var q := (e * k) / k;
    var r := (e * k) % k;
    assert e * k == q * k + r;
    Scale(q, e, k);
    Scale(e, q + 1, k);
    assert (q + 1) * k == q * k + k;
  }

  /** A message index that is a multiple of `k`, past the frames so far,
      starts the next frame. */
  lemma HitStep(c: int, k: int, e: int)
    requires k > 0 && (e - 1) * k < c - 1 <= e * k && (c - 1) % k == 0
    ensures e * k < c <= (e + 1) * k
  {
    var m := (c - 1) / k;
    assert c - 1 == m * k;
    Scale(e - 1, m, k);
    Scale(m, e, k);
    Scale(e, e + 1, k);
  }

  lemma MissStep(c: int, k: int, e: int)
    requires k > 0 && (e - 1) * k < c - 1 <= e * k && (c - 1) % k != 0
    ensures (e - 1) * k < c <= e * k
  {
    MulMod(e, k);
  }

  /** The frames of `c` messages at interval `k > 0` are the ceiling of
      `c / k`. */
  lemma {:induction false} ExtractedCeil(c: nat, k: int)
    requires k > 0
    ensures (Extracted(c, k) - 1) * k < c <= Extracted(c, k) * k
  {
    if c > 0 {
      ExtractedCeil(c - 1, k);
      var e := Extracted(c - 1, k);
      if (c - 1) % k == 0 {
        HitStep(c, k, e);
        assert Extracted(c, k) == e + 1;
      } else {
        MissStep(c, k, e);
      }
    }
  }

  /** With no more messages on a topic than its summary count, at most
      `max_frames` frames are written for it. */
  lemma FramesBound(c: nat, count: nat, maxFrames: int)
    requires maxFrames > 0 && c <= count && Ceil(count, maxFrames) > 0
    ensures Extracted(c, Ceil(count, maxFrames)) <= maxFrames
  {
    var k := Ceil(count, maxFrames);
    ExtractedCeil(c, k);
    var e := Extracted(c, k);
    assert (e - 1) * k < k * maxFrames;
    Scale(e - 1, maxFrames, k);
  }

  /** The job's frames per topic: with a positive `max_frames` and no more
      messages per topic than the summary counts, each topic gets at most
      `max_frames` frames. */
  lemma RunFrames(counts: map<string, nat>, maxFrames: int, topics: seq<string>)
    requires maxFrames > 0
    requires forall t :: t in counts ==> Count(topics, t) <= counts[t]
    ensures var intervals := map t | t in counts :: Ceil(counts[t], maxFrames);
      var r := Run(intervals, Start(counts), topics);
      r.Ok? ==> r.value.frameIdx.Keys == counts.Keys && forall t :: t in r.value.frameIdx ==> r.value.frameIdx[t] <= maxFrames
  {
    var intervals := map t | t in counts :: Ceil(counts[t], maxFrames);
    RunCounters(counts, intervals, topics);
    var r := Run(intervals, Start(counts), topics);
    if r.Ok? {
      forall t | t in counts
        ensures r.value.frameIdx[t] <= maxFrames
      {
        if Count(topics, t) > 0 {
          FramesBound(Count(topics, t), counts[t], maxFrames);
        }
      }
    }
  }

  /** A file name is a frame of a topic the counters know, numbered below
      that topic's frame counter. */
  predicate IsFrame(p: Progress, f: string)
  {
    exists t, j: nat :: t in p.frameIdx && j < p.frameIdx[t] && f == FrameName(t, j)
  }

  predicate AllFrames(p: Progress)
  {
    forall i :: 0 <= i < |p.files| ==> IsFrame(p, p.files[i])
  }

  lemma StepFrames(p: Progress, t: string, intervals: map<string, int>)
    requires AllFrames(p) && Step(p, t, intervals).Ok?
    ensures AllFrames(Step(p, t, intervals).value)
  {
    var q := Step(p, t, intervals).value;
    assert forall u :: u in p.frameIdx ==> u in q.frameIdx && p.frameIdx[u] <= q.frameIdx[u];
    forall i | 0 <= i < |q.files|
      ensures IsFrame(q, q.files[i])
    {
      if i < |p.files| {
        assert q.files[i] == p.files[i];
        var u, j: nat :| u in p.frameIdx && j < p.frameIdx[u] && p.files[i] == FrameName(u, j);
        assert u in q.frameIdx && j < q.frameIdx[u];
      } else {
        assert q.files[i] == FrameName(t, p.frameIdx[t]);
        assert t in q.frameIdx && p.frameIdx[t] < q.frameIdx[t];
      }
    }
  }

  /** Every file written is a frame of a counted topic whose number is
      below that topic's frame counter. */
  lemma {:induction false} RunFiles(intervals: map<string, int>, p: Progress, topics: seq<string>)
    requires AllFrames(p)
    ensures Run(intervals, p, topics).Ok? ==> AllFrames(Run(intervals, p, topics).value)
  {
    if |topics| > 0 {
      var init := topics[..|topics| - 1];
      RunFiles(intervals, p, init);
      var r := Run(intervals, p, init);
      if r.Ok? && Step(r.value, topics[|topics| - 1], intervals).Ok? {
        StepFrames(r.value, topics[|topics| - 1], intervals);
      }
    }
  }

  /** Once the messages so far have failed, the whole run fails the same
      way. */
  lemma {:induction false} RunAbort(intervals: map<string, int>, p: Progress, topics: seq<string>, n: nat)
    requires n <= |topics| && Run(intervals, p, topics[..n]).Err?
    ensures Run(intervals, p, topics) == Run(intervals, p, topics[..n])
  {
    if n < |topics| {
      var init := topics[..|topics| - 1];
      assert init[..n] == topics[..n];
      RunAbort(intervals, p, init, n);
    } else {
      assert topics[..n] == topics;
    }
  }

  /** The message loop of `job`, stopping at the first error. */
  method RunMessages(intervals: map<string, int>, start: Progress, topics: seq<string>) returns (r: Result<Progress, string>)
    ensures r == Run(intervals, start, topics)
  {
    var msgIdx: map<string, nat> := start.msgIdx;
    var frameIdx: map<string, nat> := start.frameIdx;
    var files: seq<string> := start.files;
    for i := 0 to |topics|
      invariant Run(intervals, start, topics[..i]) == Ok(Progress(msgIdx, frameIdx, files))
    {
      assert topics[..i + 1][..i] == topics[..i];
      var topic := topics[i];
      if topic !in msgIdx || topic !in intervals {
        RunAbort(intervals, start, topics, i + 1);
        return Err(KeyError);
      }
      var k := msgIdx[topic];
      msgIdx := msgIdx[topic := k + 1];
      if intervals[topic] == 0 {
        RunAbort(intervals, start, topics, i + 1);
        return Err(ZeroDivisionError);
      }
      if k % intervals[topic] == 0 {
        if topic !in frameIdx {
          RunAbort(intervals, start, topics, i + 1);
          return Err(KeyError);
        }
        var f := frameIdx[topic];
        frameIdx := frameIdx[topic := f + 1];
        files := files + [FrameName(topic, f)];
      }
    }
    assert topics[..|topics|] == topics;
    return Ok(Progress(msgIdx, frameIdx, files));
  }

  /** `job`: intervals first, then the messages. */
  method RunJob(bag: map<string, nat>, maxFrames: int, topics: seq<string>) returns (r: Result<seq<string>, string>)
    ensures r == Job(bag, maxFrames, topics)
  {
    var counts := CameraCounts(bag);
    if maxFrames == 0 && |counts| > 0 {
      return Err(ZeroDivisionError);
    }
    var intervals := Intervals(counts, maxFrames).value;
    var p := RunMessages(intervals, Start(counts), topics);
    if p.Err? {
      return Err(p.error);
    }
    return Ok(p.value.files);
  }

  /** The prefix of a topic's frame files. */
  function GalleryPrefix(topic: string): string
  {
    "topic" + Replace(topic, "/", "_")
  }

  /** Every frame of a topic is in that topic's gallery. */
  lemma FrameInGallery(topic: string, index: nat)
    ensures StartsWith(FrameName(topic, index), GalleryPrefix(topic))
  {
    var p := GalleryPrefix(topic);
    assert FrameName(topic, index) == p + ("_" + ZeroPad(index, 3) + ".jpg");
  }

  /** An image of the gallery. */
  datatype Image = Image(alt: string, src: string, width: int)

  /** The job run a gallery shows. */
  datatype Jobrun = Jobrun(id: nat, name: string, files: seq<string>)

  /** The job files with a prefix, in order. */
  function WithPrefix(files: seq<string>, prefix: string): (r: seq<string>)
    ensures forall f :: f in r <==> f in files && StartsWith(f, prefix)
  {
    if |files| == 0 then []
    else
      var init := files[..|files| - 1];
      var f := files[|files| - 1];
      assert files == init + [f];
      WithPrefix(init, prefix) + (if StartsWith(f, prefix) then [f] else [])
  }

  /** `detail_image_view` for `topic`: nothing without a job run or without
      files of the topic; a job run name that is not exactly `group::name`
      raises. */
  function Gallery(topic: string, jobrun: Option<Jobrun>): (r: Option<Result<seq<Image>, string>>)
    ensures jobrun.None? ==> r.None?
    ensures jobrun.Some? ==> (r.None? <==> |WithPrefix(jobrun.value.files, GalleryPrefix(topic))| == 0)
    ensures r.Some? && r.value.Ok? ==>
      var files := WithPrefix(jobrun.value.files, GalleryPrefix(topic));
      var parts := SplitOn(jobrun.value.name, "::");
      && |parts| == 2
      && |r.value.value| == |files|
      && forall i :: 0 <= i < |files| ==>
           r.value.value[i] == Image(files[i], Join(["/marv/jobrun", parts[0], parts[1], Decimal(jobrun.value.id), files[i]], "/"), 128)
    ensures r.Some? && r.value.Err? ==> |SplitOn(jobrun.value.name, "::")| != 2
  {
    if jobrun.None? then None
    else
      var files := WithPrefix(jobrun.value.files, GalleryPrefix(topic));
      if |files| == 0 then None
      else
        var parts := SplitOn(jobrun.value.name, "::");
        if |parts| != 2 then Some(Err(ValueError))
        else
          Some(Ok(seq(|files|, i requires 0 <= i < |files| =>
            Image(files[i], Join(["/marv/jobrun", parts[0], parts[1], Decimal(jobrun.value.id), files[i]], "/"), 128))))
  }

  /** A gallery's image sources end in the file they show. */
  lemma GallerySources(topic: string, jobrun: Jobrun)
    ensures var r := Gallery(topic, Some(jobrun));
      r.Some? && r.value.Ok? ==>
        forall i :: 0 <= i < |r.value.value| ==> EndsWith(r.value.value[i].src, "/" + r.value.value[i].alt)
  {
    var r := Gallery(topic, Some(jobrun));
    if r.Some? && r.value.Ok? {
      var parts := SplitOn(jobrun.name, "::");
      forall i | 0 <= i < |r.value.value|
        ensures EndsWith(r.value.value[i].src, "/" + r.value.value[i].alt)
      {
        var img := r.value.value[i];
        var pre := ["/marv/jobrun", parts[0], parts[1], Decimal(jobrun.id)];
        assert ["/marv/jobrun", parts[0], parts[1], Decimal(jobrun.id), img.alt] == pre + [img.alt];
        JoinLast(pre, img.alt, "/");
        assert img.src == Join(pre, "/") + ("/" + img.alt);
      }
    }
  }

  /** Joining with one more part ends in the separator and that part. */
  lemma {:induction false} JoinLast(parts: seq<string>, last: string, sep: string)
    requires |parts| > 0
    ensures Join(parts + [last], sep) == Join(parts, sep) + sep + last
  {
    if |parts| == 1 {
      assert (parts + [last])[1..] == [last];
    } else {
      JoinLast(parts[1..], last, sep);
      assert (parts + [last])[1..] == parts[1..] + [last];
    }
  }
}
