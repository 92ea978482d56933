/** The `.env` file generated from the scanned hardware. */
module EnvGenerate {

  import opened Common
  import opened EnvLines
  import opened EnvRegenerate
  import opened Selection
  import opened Text

  // ---- inputs ----------------------------------------------------------------------------------------

  datatype Camera = Camera(path: string, role: string)

  datatype Hardware = Hardware(leader: Option<string>, follower: Option<string>, cameras: seq<Camera>)

  datatype Request =
    Request(followerOnly: Option<bool>, lanOpen: Option<bool>, subnet: Option<string>, robotType: string)

  /**
    * What the surroundings supply: the registry pins, the DDS domain, and the two `ipaddress` functions
    * that normalise a subnet and give its first host.
    */
  datatype Host = Host(registry: string, fallback: string, tag: string, domain: nat,
                       normalize: string -> Option<string>, gateway: string -> string)

  datatype Error = LeaderlessProfile | FollowerMissing | LeaderMissing | CameraRole(path: string)

  datatype Outcome = Written(content: string) | Refused(error: Error)

  // ---- keys ------------------------------------------------------------------------------------------

  const MANAGED_KEYS := {
    "FOLLOWER_PORT", "LEADER_PORT", "ROS_DOMAIN_ID", "REGISTRY", "REGISTRY_FALLBACK", "IMAGE_TAG",
    "EDUBOTICS_FOLLOWER_ONLY", "EDUBOTICS_CAMERA_SOURCE", "EDUBOTICS_ROBOT_TYPE", "EDUBOTICS_LAN_OPEN",
    "EDUBOTICS_BIND_HOST", "EDUBOTICS_ROS_NET_SUBNET", "EDUBOTICS_ROS_NET_GATEWAY"
  }

  /** The keys the generator writes; cameras are numbered from one. */
  datatype Key =
    | FollowerPort | LeaderPort | FollowerOnly | RosDomainId | Registry | RegistryFallback | ImageTag | RobotType
    | CameraSource | LanOpen | BindHost | RosNetSubnet | RosNetGateway | CameraDevice(n: nat) | CameraName(n: nat)

  function KeyText(key: Key): string {
    match key
    case FollowerPort => "FOLLOWER_PORT"
    case LeaderPort => "LEADER_PORT"
    case FollowerOnly => "EDUBOTICS_FOLLOWER_ONLY"
    case RosDomainId => "ROS_DOMAIN_ID"
    case Registry => "REGISTRY"
    case RegistryFallback => "REGISTRY_FALLBACK"
    case ImageTag => "IMAGE_TAG"
    case RobotType => "EDUBOTICS_ROBOT_TYPE"
    case CameraSource => "EDUBOTICS_CAMERA_SOURCE"
    case LanOpen => "EDUBOTICS_LAN_OPEN"
    case BindHost => "EDUBOTICS_BIND_HOST"
    case RosNetSubnet => "EDUBOTICS_ROS_NET_SUBNET"
    case RosNetGateway => "EDUBOTICS_ROS_NET_GATEWAY"
    case CameraDevice(n) => DEVICE_PREFIX + Decimal(n)
    case CameraName(n) => NAME_PREFIX + Decimal(n)
  }

  const DEVICE_PREFIX := "CAMERA_DEVICE_"
  const NAME_PREFIX := "CAMERA_NAME_"

  predicate IsManagedKey(key: string) {
    key in MANAGED_KEYS || DEVICE_PREFIX <= key || NAME_PREFIX <= key
  }

  predicate IsDropped(key: string) { IsManagedKey(key) || key == "HF_TOKEN" || key == "HF_TOKEN_MACHINE" }

  function EnvPolicy(): Policy {
    Policy(key => IsDropped(key), "# Operator overrides" + " preserved across" + " regeneration.")
  }

  lemma PolicyComment()
    ensures IsComment(EnvPolicy().marker)
  {
    var a, b, c := "# Operator overrides", " preserved across", " regeneration.";
    assert OneLine(a) && OneLine(b) && OneLine(c);
    assert a[0] == '#' && c[|c| - 1] == '.';
    assert EnvPolicy().marker == a + b + c;
  }

  // ---- the robot profile and the sticky keys ---------------------------------------------------------

  const DEFAULT_LAN_OPEN := "1"
  const DEFAULT_SUBNET := "172.28.0.0/24"

  function ResolveRobotType(robotType: string): string {
    var key := Strip(robotType);
    if key == "omx_full" || key == "omx_follower" || key == "v1_studio" then key else "omx_full"
  }

  predicate FollowerOnlyProfile(id: string) { id == "omx_follower" || id == "v1_studio" }

  function ResolveLanOpen(file: Option<string>, lanOpen: Option<bool>): string {
    if lanOpen.Some? then (if lanOpen.value then "1" else "0")
    else
      var existing := Read(file, KeyText(LanOpen));
      if existing.Some? && (Strip(existing.value) == "0" || Strip(existing.value) == "1") then Strip(existing.value)
      else DEFAULT_LAN_OPEN
  }

  function ValidSubnet(subnet: Option<string>, normalize: string -> Option<string>): Option<string> {
    if subnet.None? || subnet.value == [] then None else normalize(subnet.value)
  }

  function ResolveSubnet(file: Option<string>, subnet: Option<string>, normalize: string -> Option<string>): string {
    var chosen := ValidSubnet(subnet, normalize);
    var carried := ValidSubnet(Read(file, KeyText(RosNetSubnet)), normalize);
    if chosen.Some? then chosen.value else if carried.Some? then carried.value else DEFAULT_SUBNET
  }

  /** Whether the leader stays off, or why nothing is written. */
  function Mode(hardware: Hardware, request: Request): (Option<Error>, bool) {
    var profile := FollowerOnlyProfile(ResolveRobotType(request.robotType));
    var followerOnly := if request.followerOnly.None? then profile else request.followerOnly.value;
    if profile && !followerOnly then (Some(LeaderlessProfile), followerOnly)
    else if hardware.follower.None? then (Some(FollowerMissing), followerOnly)
    else if !followerOnly && hardware.leader.None? then (Some(LeaderMissing), followerOnly)
    else (None, followerOnly)
  }

  // ---- the lines -------------------------------------------------------------------------------------

  /** A line as the generator thinks of it: paths and roles are quoted, the rest is not. */
  datatype Line = Line(key: Key, value: string, quoted: bool)

  function SettingOf(line: Line): Setting { Setting(KeyText(line.key), line.value, line.quoted) }

  function SettingsOf(lines: seq<Line>): (r: seq<Setting>)
    ensures |r| == |lines| && forall i :: 0 <= i < |lines| ==> r[i] == SettingOf(lines[i])
  {
    seq(|lines|, i requires 0 <= i < |lines| => SettingOf(lines[i]))
  }

  function PortLines(hardware: Hardware, followerOnly: bool): seq<Line>
    requires Complete(hardware, followerOnly)
  {
    [Line(FollowerPort, hardware.follower.value, true)] +
    if followerOnly then [Line(FollowerOnly, "1", false)]
    else [Line(LeaderPort, hardware.leader.value, true), Line(FollowerOnly, "0", false)]
  }

  function CameraLines(cameras: seq<Camera>, n: nat): (r: seq<Line>)
    requires n <= |cameras|
    ensures |r| == 2 * n
  {
    if n == 0 then [] else
      CameraLines(cameras, n - 1) +
      [Line(CameraDevice(n), cameras[n - 1].path, true), Line(CameraName(n), cameras[n - 1].role, true)]
  }

  predicate GoodRole(camera: Camera) { camera.role == "gripper" || camera.role == "scene" }

  /** The first camera that has neither role. */
  function Unassigned(cameras: seq<Camera>): Option<Camera> { Find(cameras, camera => !GoodRole(camera)) }

  function NetworkLines(lan: string, subnet: string, robotType: string, host: Host): seq<Line> {
    [Line(RosDomainId, Decimal(host.domain), false),
     Line(Registry, host.registry, false),
     Line(RegistryFallback, host.fallback, false),
     Line(ImageTag, host.tag, false),
     Line(RobotType, robotType, false),
     Line(CameraSource, "usb_cam", false),
     Line(LanOpen, lan, false),
     Line(BindHost, if lan == "1" then "0.0.0.0" else "127.0.0.1", false),
     Line(RosNetSubnet, subnet, false),
     Line(RosNetGateway, host.gateway(subnet), false)]
  }

  /** What is settled before the lines are written. */
  datatype Choice = Choice(followerOnly: bool, lan: string, subnet: string, robotType: string)

  function Chosen(file: Option<string>, hardware: Hardware, request: Request, host: Host): Choice {
    Choice(Mode(hardware, request).1, ResolveLanOpen(file, request.lanOpen),
           ResolveSubnet(file, request.subnet, host.normalize), ResolveRobotType(request.robotType))
  }

  predicate Complete(hardware: Hardware, followerOnly: bool) {
    hardware.follower.Some? && (followerOnly || hardware.leader.Some?)
  }

  function Lines(hardware: Hardware, choice: Choice, host: Host): seq<Line>
    requires Complete(hardware, choice.followerOnly)
  {
    PortLines(hardware, choice.followerOnly) +
    CameraLines(hardware.cameras, |hardware.cameras|) +
    NetworkLines(choice.lan, choice.subnet, choice.robotType, host)
  }

  /** The text made of the lines and of what is carried over. */
  function TextOfFile(file: Option<string>, lines: seq<Line>): string {
    Content(SettingsOf(lines), Preserved(FileLines(file), EnvPolicy()), EnvPolicy())
  }

  function Generated(file: Option<string>, hardware: Hardware, request: Request, host: Host): Outcome {
    var mode := Mode(hardware, request);
    if mode.0.Some? then Refused(mode.0.value)
    else if Unassigned(hardware.cameras).Some? then Refused(CameraRole(Unassigned(hardware.cameras).value.path))
    else Written(TextOfFile(file, Lines(hardware, Chosen(file, hardware, request, host), host)))
  }

  method GenerateEnvFile(file: Option<string>, hardware: Hardware, request: Request, host: Host) returns (r: Outcome)
    ensures r == Generated(file, hardware, request, host)
  {
    var robotType := ResolveRobotType(request.robotType);
    var profile := FollowerOnlyProfile(robotType);
    var followerOnly := profile;
    if request.followerOnly.Some? {
      followerOnly := request.followerOnly.value;
      if profile && !followerOnly { return Refused(LeaderlessProfile); }
    }
    if hardware.follower.None? { return Refused(FollowerMissing); }
    if !followerOnly && hardware.leader.None? { return Refused(LeaderMissing); }
    PolicyComment();
    var preserved := ReadUnmanagedLines(file, EnvPolicy());
    var lines := [Line(FollowerPort, hardware.follower.value, true)];
    if followerOnly {
      lines := lines + [Line(FollowerOnly, "1", false)];
    } else {
      lines := lines + [Line(LeaderPort, hardware.leader.value, true), Line(FollowerOnly, "0", false)];
    }
    var refused, more := AddCameras(hardware.cameras);
    if refused.Some? { return Refused(CameraRole(refused.value)); }
    lines := lines + more;
    var lan := ResolveLanOpen(file, request.lanOpen);
    var subnet := ResolveSubnet(file, request.subnet, host.normalize);
    lines := lines + NetworkLines(lan, subnet, robotType, host);
    return Written(Content(SettingsOf(lines), preserved, EnvPolicy()));
  }

  method AddCameras(cameras: seq<Camera>) returns (refused: Option<string>, lines: seq<Line>)
    ensures refused.Some? <==> Unassigned(cameras).Some?
    ensures refused.Some? ==> refused.value == Unassigned(cameras).value.path
    ensures refused.None? ==> lines == CameraLines(cameras, |cameras|)
  {
    lines := [];
    ghost var bad: Camera -> bool := camera => !GoodRole(camera);
    for i := 0 to |cameras|
      invariant lines == CameraLines(cameras, i)
      invariant Unassigned(cameras) == Find(cameras[i..], bad)
    {
      assert cameras[i..][1..] == cameras[i + 1..];
      if cameras[i].role != "gripper" && cameras[i].role != "scene" { return Some(cameras[i].path), []; }
      lines := lines + [Line(CameraDevice(i + 1), cameras[i].path, true),
                        Line(CameraName(i + 1), cameras[i].role, true)];
    }
    return None, lines;
  }
}
