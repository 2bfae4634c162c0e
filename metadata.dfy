/** The metadata job: a bag's robot name comes from the first message on the
    robot-name topic; without one, robot and use case are read off fixed
    components of the fileset's directory path. The listing shows both. */
module Metadata {
  import opened Wrappers
  import opened Strings

  const RobotNameTopic := "/robot_name/name"
  const Unknown := "unknown"

  /** The path separator (`os.sep`). */
  const Sep := '/'

  /** A message of the bag: its topic and, for a robot-name message, the
      `data` field when the message type has one and `robot_name`. */
  datatype Message = Message(topic: string, data: Option<string>, robotName: string)

  datatype Meta = Meta(robot: string, useCase: string)

  /** The robot name a robot-name message carries: `data`, or `robot_name`
      when the message has no `data` field. */
  function NameOf(m: Message): string
  {
    if m.data.Some? then m.data.value else m.robotName
  }

  /** The position of the first robot-name message. */
  function First(messages: seq<Message>): (r: Option<nat>)
    ensures r.Some? ==>
      && r.value < |messages| && messages[r.value].topic == RobotNameTopic
      && forall j :: 0 <= j < r.value ==> messages[j].topic != RobotNameTopic
    ensures r.None? ==> forall j :: 0 <= j < |messages| ==> messages[j].topic != RobotNameTopic
  {
    if |messages| == 0 then None
    else if messages[0].topic == RobotNameTopic then Some(0)
    else match First(messages[1..])
      case None => None
      case Some(i) => Some(i + 1)
  }

  /** The fallback: path components 3 and 6, `unknown` where the path is
      too short. */
  function FromPath(dirpath: string): Meta
  {
    var path := Split(dirpath, Sep);
    Meta(if |path| > 3 then path[3] else Unknown, if |path| > 6 then path[6] else Unknown)
  }

  /** The metadata of a bag. */
  function Derive(messages: seq<Message>, dirpath: string): Meta
  {
    match First(messages)
    case Some(i) => Meta(NameOf(messages[i]), "")
    case None => FromPath(dirpath)
  }

  /** `job`: one record for a fileset with a bag, none without. */
  function Job(hasBag: bool, messages: seq<Message>, dirpath: string): (r: Option<Meta>)
    ensures r.Some? <==> hasBag
  {
    if hasBag then Some(Derive(messages, dirpath)) else None
  }

  /** The search loop of `job`: it stops at the first robot-name message
      (the `break`) and falls back to the path when there is none (the
      loop's `else`). */
  method Search(hasBag: bool, messages: seq<Message>, dirpath: string) returns (r: Option<Meta>)
    ensures r == Job(hasBag, messages, dirpath)
  {
    if !hasBag {
      return None;
    }
    var robot := "";
    var useCase := "";
    var i := 0;
    while i < |messages| && messages[i].topic != RobotNameTopic
      invariant i <= |messages|
      invariant forall j :: 0 <= j < i ==> messages[j].topic != RobotNameTopic
    {
      i := i + 1;
    }
    if i < |messages| {
      robot := if messages[i].data.Some? then messages[i].data.value else messages[i].robotName;
      useCase := "";
    } else {
      var path := Split(dirpath, Sep);
      robot := if |path| > 3 then path[3] else Unknown;
      useCase := if |path| > 6 then path[6] else Unknown;
    }
    FirstIs(messages, i);
    return Some(Meta(robot, useCase));
  }

  /** The loop stops at the first robot-name message, or at the end. */
  lemma FirstIs(messages: seq<Message>, i: nat)
    requires i <= |messages|
    requires forall j :: 0 <= j < i ==> messages[j].topic != RobotNameTopic
    requires i < |messages| ==> messages[i].topic == RobotNameTopic
    ensures First(messages) == if i < |messages| then Some(i) else None
  {
  }

  /** A directory path built of components without separators gives back
      its fourth and seventh components (indices 3 and 6), or `unknown` for each it lacks. */
  lemma FromPathOf(parts: seq<string>)
    requires |parts| >= 1 && forall i :: 0 <= i < |parts| ==> Sep !in parts[i]
    ensures FromPath(Join(parts, [Sep])).robot == if |parts| > 3 then parts[3] else Unknown
    ensures FromPath(Join(parts, [Sep])).useCase == if |parts| > 6 then parts[6] else Unknown
  {
    JoinSplit(parts, Sep);
  }

  /** `listing`: nothing without a job run or a record, otherwise the robot
      and the use case. */
  function Listing(record: Option<Meta>): (r: map<string, string>)
    ensures record.None? ==> r == map[]
    ensures record.Some? ==>
      && r.Keys == {"robot", "use_case"}
      && r["robot"] == record.value.robot && r["use_case"] == record.value.useCase
  {
    if record.None? then map[] else map["robot" := record.value.robot, "use_case" := record.value.useCase]
  }
}
