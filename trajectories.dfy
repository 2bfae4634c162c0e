/** The trajectory extraction job: of the pose messages, it keeps one every
    `pose_logging_interval` seconds — a message is logged when its time has
    reached the time the previous logged one set for the next. */
module Trajectories {

  datatype Pose = Pose(x: real, y: real, z: real, qx: real, qy: real, qz: real, qw: real)

  /** A pose message with its header time in seconds. */
  datatype PoseMessage = PoseMessage(now: real, pose: Pose)

  /** A stored trajectory point. */
  datatype Trajectory = Trajectory(timestamp: real, pose: Pose)

  function Record(m: PoseMessage): Trajectory
  {
    Trajectory(m.now, m.pose)
  }

  /** The time the next message to be logged must reach, and the points
      logged so far. */
  datatype Throttle = Throttle(next: real, logged: seq<Trajectory>, picks: seq<nat>)

  /** The throttle after a run of messages; `picks` are the positions of the
      logged messages. */
  function Run(messages: seq<PoseMessage>, interval: real): (t: Throttle)
    ensures |t.picks| == |t.logged|
  {
    if |messages| == 0 then Throttle(0.0, [], [])
    else
      var t := Run(messages[..|messages| - 1], interval);
      var m := messages[|messages| - 1];
      if m.now >= t.next then Throttle(m.now + interval, t.logged + [Record(m)], t.picks + [|messages| - 1])
      else t
  }

  /** The logged points are messages of the run, in their order; before the
      first one the threshold is 0, after it the last logged time plus the
      interval, and logged times lie at least `interval` apart. */
  lemma {:induction false} RunMeaning(messages: seq<PoseMessage>, interval: real)
    ensures var t := Run(messages, interval);
      && (forall k :: 0 <= k < |t.picks| ==> t.picks[k] < |messages| && t.logged[k] == Record(messages[t.picks[k]]))
      && (forall k :: 0 <= k < |t.picks| - 1 ==> t.picks[k] < t.picks[k + 1])
      && (forall k :: 0 <= k < |t.logged| - 1 ==> t.logged[k + 1].timestamp >= t.logged[k].timestamp + interval)
      && (|t.logged| == 0 ==> t.next == 0.0 && forall i :: 0 <= i < |messages| ==> messages[i].now < 0.0)
      && (|t.logged| > 0 ==> t.next == t.logged[|t.logged| - 1].timestamp + interval)
  {
    if |messages| > 0 {
      RunMeaning(messages[..|messages| - 1], interval);
      RunExtends(messages, interval);
    }
  }

  /** Conversely, a message is logged exactly when its time has reached the
      threshold in force when it arrives — the one the messages before it
      left; every message not logged arrived before that threshold. */
  lemma {:induction false} RunPicks(messages: seq<PoseMessage>, interval: real)
    ensures forall i :: 0 <= i < |messages| ==>
      (i in Run(messages, interval).picks <==> messages[i].now >= Run(messages[..i], interval).next)
  {
    if |messages| > 0 {
      var n := |messages|;
      var init := messages[..n - 1];
      RunPicks(init, interval);
      PicksBelow(init, interval);
      var t0 := Run(init, interval);
      var t := Run(messages, interval);
      assert t.picks == t0.picks || t.picks == t0.picks + [n - 1];
      assert messages[n - 1].now >= t0.next <==> t.picks == t0.picks + [n - 1];
      forall i | 0 <= i < n
        ensures i in t.picks <==> messages[i].now >= Run(messages[..i], interval).next
      {
        if i < n - 1 {
          assert init[..i] == messages[..i];
          assert init[i] == messages[i];
          assert i in t.picks <==> i in t0.picks;
        } else {
          assert messages[..i] == init;
        }
      }
    }
  }

  /** The positions picked are positions of the run. */
  lemma PicksBelow(messages: seq<PoseMessage>, interval: real)
    ensures forall p :: p in Run(messages, interval).picks ==> p < |messages|
  {
    RunMeaning(messages, interval);
  }

  /** What `RunMeaning` states of the throttle after `messages`. */
  ghost predicate Throttled(messages: seq<PoseMessage>, interval: real, t: Throttle)
    requires |t.picks| == |t.logged|
  {
    && (forall k :: 0 <= k < |t.picks| ==> t.picks[k] < |messages| && t.logged[k] == Record(messages[t.picks[k]]))
    && (forall k :: 0 <= k < |t.picks| - 1 ==> t.picks[k] < t.picks[k + 1])
    && (forall k :: 0 <= k < |t.logged| - 1 ==> t.logged[k + 1].timestamp >= t.logged[k].timestamp + interval)
    && (|t.logged| == 0 ==> t.next == 0.0 && forall i :: 0 <= i < |messages| ==> messages[i].now < 0.0)
    && (|t.logged| > 0 ==> t.next == t.logged[|t.logged| - 1].timestamp + interval)
  }

  /** One message more keeps what `RunMeaning` states. */
  lemma RunExtends(messages: seq<PoseMessage>, interval: real)
    requires |messages| > 0
    requires Throttled(messages[..|messages| - 1], interval, Run(messages[..|messages| - 1], interval))
    ensures Throttled(messages, interval, Run(messages, interval))
  {
    var t := Run(messages[..|messages| - 1], interval);
    var m := messages[|messages| - 1];
    if m.now >= t.next {
      LogKeeps(messages, interval, t);
    } else {
      SkipKeeps(messages, interval, t);
    }
  }

  /** A message before the threshold is skipped. */
  lemma SkipKeeps(messages: seq<PoseMessage>, interval: real, t: Throttle)
    requires |messages| > 0 && |t.picks| == |t.logged|
    requires Throttled(messages[..|messages| - 1], interval, t) && messages[|messages| - 1].now < t.next
    ensures Throttled(messages, interval, t)
  {
    var init := messages[..|messages| - 1];
    assert forall i :: 0 <= i < |init| ==> init[i] == messages[i];
  }

  /** A message at or after the threshold is logged and moves it on. */
  lemma LogKeeps(messages: seq<PoseMessage>, interval: real, t: Throttle)
    requires |messages| > 0 && |t.picks| == |t.logged|
    requires Throttled(messages[..|messages| - 1], interval, t) && messages[|messages| - 1].now >= t.next
    ensures var m := messages[|messages| - 1];
      Throttled(messages, interval, Throttle(m.now + interval, t.logged + [Record(m)], t.picks + [|messages| - 1]))
  {
    var init := messages[..|messages| - 1];
    assert forall i :: 0 <= i < |init| ==> init[i] == messages[i];
    var m := messages[|messages| - 1];
    var t' := Throttle(m.now + interval, t.logged + [Record(m)], t.picks + [|messages| - 1]);
    assert forall k :: 0 <= k < |t.picks| ==> t'.picks[k] == t.picks[k] && t'.logged[k] == t.logged[k];
  }

  /** The first message at or after time 0 is logged, alone. */
  lemma FirstLogged(messages: seq<PoseMessage>, interval: real, i: nat)
    requires i < |messages| && messages[i].now >= 0.0
    requires forall j :: 0 <= j < i ==> messages[j].now < 0.0
    ensures Run(messages[..i + 1], interval).logged == [Record(messages[i])]
  {
    var before := messages[..i];
    assert messages[..i + 1][..i] == before;
    NoneLogged(before, interval);
  }

  /** Messages before time 0 log nothing. */
  lemma {:induction false} NoneLogged(messages: seq<PoseMessage>, interval: real)
    requires forall j :: 0 <= j < |messages| ==> messages[j].now < 0.0
    ensures Run(messages, interval).logged == [] && Run(messages, interval).next == 0.0
  {
    if |messages| > 0 {
      NoneLogged(messages[..|messages| - 1], interval);
    }
  }

  /** `job`: the loop over the pose messages. The flag `log_next_position`
      is never set, so it never forces a message to be logged. */
  method Job(messages: seq<PoseMessage>, interval: real) returns (logged: seq<Trajectory>)
    ensures logged == Run(messages, interval).logged
  {
    var nextLogTime: real := 0.0;
    var logNextPosition := 0;
    logged := [];
    ghost var picks: seq<nat> := [];
    for i := 0 to |messages|
      invariant Throttle(nextLogTime, logged, picks) == Run(messages[..i], interval)
      invariant logNextPosition == 0
    {
      assert messages[..i + 1][..i] == messages[..i];
      var now := messages[i].now;
      if logNextPosition == 1 || now >= nextLogTime {
        logNextPosition := 0;
        nextLogTime := now + interval;
        logged := logged + [Trajectory(now, messages[i].pose)];
        picks := picks + [i];
      }
    }
    assert messages[..|messages|] == messages;
  }
}
