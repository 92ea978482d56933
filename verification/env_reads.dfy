/** What a generated `.env` file reads, and that generating it again changes nothing. */
module EnvReads {

  import opened Common
  import opened EnvGenerate
  import opened EnvLines
  import opened EnvRegenerate
  import opened Selection
  import opened Text

  // ---- the keys are well formed and differ -----------------------------------------------------------

  predicate KeyChar(c: char) { 'A' <= c <= 'Z' || '0' <= c <= '9' || c == '_' }

  predicate KeyShaped(key: string) { key != [] && forall i :: 0 <= i < |key| ==> KeyChar(key[i]) }

  lemma KeyShapedIsWellFormed(key: string)
    requires KeyShaped(key)
    ensures WellFormedKey(key)
  {
    assert KeyChar(key[0]) && KeyChar(key[|key| - 1]);
  }

  /** Tells the fixed keys apart, by their length and, where that is not enough, one character. */
  function Mark(key: string): int {
    if key == [] || key[0] == 'C' then -1 else if |key| <= 10 then |key| else |key| * 1000 + key[10] as int
  }

  predicate FixedKey(key: string, mark: int) { KeyShaped(key) && Mark(key) == mark }

  lemma PortKeys()
    ensures FixedKey(KeyText(FollowerPort), 13000 + 'O' as int) && FixedKey(KeyText(LeaderPort), 11000 + 'T' as int)
    ensures FixedKey(KeyText(FollowerOnly), 23000 + 'F' as int)
  {
  }

  lemma RegistryKeys()
    ensures FixedKey(KeyText(RosDomainId), 13000 + '_' as int) && FixedKey(KeyText(Registry), 8)
    ensures FixedKey(KeyText(RegistryFallback), 17000 + 'A' as int) && FixedKey(KeyText(ImageTag), 9)
  {
  }

  lemma RobotKeys()
    ensures FixedKey(KeyText(RobotType), 20000 + 'R' as int) && FixedKey(KeyText(CameraSource), 23000 + 'C' as int)
    ensures FixedKey(KeyText(LanOpen), 18000 + 'L' as int)
  {
  }

  lemma NetworkKeys()
    ensures FixedKey(KeyText(BindHost), 19000 + 'B' as int) && FixedKey(KeyText(RosNetSubnet), 24000 + 'R' as int)
    ensures FixedKey(KeyText(RosNetGateway), 25000 + 'R' as int)
  {
  }

  /** The mark of each key. */
  function MarkOf(key: Key): int {
    match key
    case FollowerPort => 13000 + 'O' as int
    case LeaderPort => 11000 + 'T' as int
    case FollowerOnly => 23000 + 'F' as int
    case RosDomainId => 13000 + '_' as int
    case Registry => 8
    case RegistryFallback => 17000 + 'A' as int
    case ImageTag => 9
    case RobotType => 20000 + 'R' as int
    case CameraSource => 23000 + 'C' as int
    case LanOpen => 18000 + 'L' as int
    case BindHost => 19000 + 'B' as int
    case RosNetSubnet => 24000 + 'R' as int
    case RosNetGateway => 25000 + 'R' as int
    case CameraDevice(_) => -1
    case CameraName(_) => -1
  }

  lemma DecimalShaped(n: nat)
    ensures KeyShaped(Decimal(n))
  {
  }

  lemma ShapedAppend(a: string, b: string)
    requires KeyShaped(a) && KeyShaped(b)
    ensures KeyShaped(a + b)
  {
  }

  lemma CameraKeys(n: nat)
    ensures FixedKey(KeyText(CameraDevice(n)), -1) && KeyText(CameraDevice(n))[7] == 'D'
    ensures FixedKey(KeyText(CameraName(n)), -1) && KeyText(CameraName(n))[7] == 'N'
  {
    DecimalShaped(n);
    assert KeyShaped(DEVICE_PREFIX) && DEVICE_PREFIX[7] == 'D' && DEVICE_PREFIX[0] == 'C';
    assert KeyShaped(NAME_PREFIX) && NAME_PREFIX[7] == 'N' && NAME_PREFIX[0] == 'C';
    ShapedAppend(DEVICE_PREFIX, Decimal(n));
    ShapedAppend(NAME_PREFIX, Decimal(n));
  }

  lemma Shaped(key: Key)
    ensures FixedKey(KeyText(key), MarkOf(key))
  {
    match key
    case FollowerPort | LeaderPort | FollowerOnly => PortKeys();
    case RosDomainId | Registry | RegistryFallback | ImageTag => RegistryKeys();
    case RobotType | CameraSource | LanOpen => RobotKeys();
    case BindHost | RosNetSubnet | RosNetGateway => NetworkKeys();
    case CameraDevice(n) => CameraKeys(n);
    case CameraName(n) => CameraKeys(n);
  }

  lemma KeyTextDropped(key: Key)
    ensures IsDropped(KeyText(key))
  {
  }

  /** Different keys have different names. */
  lemma KeyTextInjective(k: Key, l: Key)
    requires KeyText(k) == KeyText(l)
    ensures k == l
  {
    Shaped(k);
    Shaped(l);
    if k.CameraDevice? || k.CameraName? {
      CameraKeys(k.n);
      CameraKeys(l.n);
      var prefix := if k.CameraDevice? then DEVICE_PREFIX else NAME_PREFIX;
      assert KeyText(k)[|prefix|..] == Decimal(k.n) && KeyText(l)[|prefix|..] == Decimal(l.n);
      DecimalInjective(k.n, l.n);
    }
  }

  // ---- the lines are sound ---------------------------------------------------------------------------

  /** A value that may be written without quotes. */
  predicate Raw(v: string) { Plain(v) && OneLine(v) }

  /** No path holds a line break. */
  predicate OneLinePaths(hardware: Hardware) {
    && (hardware.follower.Some? ==> OneLine(hardware.follower.value))
    && (hardware.leader.Some? ==> OneLine(hardware.leader.value))
    && (forall i :: 0 <= i < |hardware.cameras| ==> OneLine(hardware.cameras[i].path))
  }

  /**
    * The release pins and addresses need no quotes, and a normalised subnet is its own normal form, as far
    * as subnets without line breaks go.
    */
  ghost predicate CleanHost(host: Host) {
    && Raw(host.registry) && Raw(host.fallback) && Raw(host.tag)
    && (forall s :: RawGateway(host, s))
    && (forall s :: NormalForm(host, s))
    && host.normalize(DEFAULT_SUBNET) == Some(DEFAULT_SUBNET)
  }

  predicate OneLineSubnet(subnet: Option<string>) { subnet.Some? ==> OneLine(subnet.value) }

  predicate RawGateway(host: Host, s: string) { OneLine(s) ==> Raw(host.gateway(s)) }

  predicate NormalForm(host: Host, s: string) {
    OneLine(s) && host.normalize(s).Some? ==>
      var n := host.normalize(s).value;
      Raw(n) && n != [] && host.normalize(n) == Some(n)
  }

  predicate SoundLineValue(line: Line) { OneLine(line.value) && (line.quoted || Plain(line.value)) }

  ghost predicate SoundLines(lines: seq<Line>) {
    && (forall i :: 0 <= i < |lines| ==> SoundLineValue(lines[i]))
    && (forall i, j :: 0 <= i < j < |lines| ==> lines[i].key != lines[j].key)
  }

  lemma LinesOwned(lines: seq<Line>)
    requires SoundLines(lines)
    ensures Owned(SettingsOf(lines), EnvPolicy())
  {
    var settings := SettingsOf(lines);
    PolicyComment();
    forall i | 0 <= i < |settings| ensures Sound(settings[i], EnvPolicy()) {
      Shaped(lines[i].key);
      KeyShapedIsWellFormed(settings[i].key);
      KeyTextDropped(lines[i].key);
    }
    forall i, j | 0 <= i < j < |settings| ensures settings[i].key != settings[j].key {
      if settings[i].key == settings[j].key { KeyTextInjective(lines[i].key, lines[j].key); }
    }
  }

  lemma RawLiterals()
    ensures Raw("0") && Raw("1") && Raw("usb_cam") && Raw("0.0.0.0") && Raw("127.0.0.1") && Raw(DEFAULT_SUBNET)
    ensures Raw("omx_full") && Raw("omx_follower") && Raw("v1_studio")
    ensures OneLine("gripper") && OneLine("scene")
  {
  }

  lemma PortsSound(hardware: Hardware, followerOnly: bool)
    requires Complete(hardware, followerOnly) && OneLinePaths(hardware)
    ensures var r := PortLines(hardware, followerOnly);
      && SoundLines(r)
      && forall i :: 0 <= i < |r| ==> PortKey(r[i].key) && (r[i].key.LeaderPort? ==> !followerOnly)
  {
    RawLiterals();
  }

  predicate PortKey(key: Key) { key.FollowerPort? || key.FollowerOnly? || key.LeaderPort? }

  predicate CameraKey(key: Key) { key.CameraDevice? || key.CameraName? }

  /** The two lines of camera `n` after those of the cameras before it. */
  lemma CameraAppended(lines: seq<Line>, n: nat, camera: Camera)
    requires SoundLines(lines) && n > 0 && OneLine(camera.path) && GoodRole(camera)
    requires forall i :: 0 <= i < |lines| ==> CameraKey(lines[i].key) && 1 <= lines[i].key.n <= n - 1
    ensures var r := lines + [Line(CameraDevice(n), camera.path, true), Line(CameraName(n), camera.role, true)];
      SoundLines(r) && forall i :: 0 <= i < |r| ==> CameraKey(r[i].key) && 1 <= r[i].key.n <= n
  {
    var added := [Line(CameraDevice(n), camera.path, true), Line(CameraName(n), camera.role, true)];
    assert OneLine("gripper") && OneLine("scene");
    assert SoundLines(added);
    AppendSound(lines, added);
  }

  lemma {:induction false} CamerasSound(cameras: seq<Camera>, n: nat)
    requires n <= |cameras|
    requires forall i :: 0 <= i < n ==> OneLine(cameras[i].path) && GoodRole(cameras[i])
    ensures var r := CameraLines(cameras, n);
      SoundLines(r) && forall i :: 0 <= i < |r| ==> CameraKey(r[i].key) && 1 <= r[i].key.n <= n
  {
    if n > 0 {
      CamerasSound(cameras, n - 1);
      CameraAppended(CameraLines(cameras, n - 1), n, cameras[n - 1]);
    }
  }

  lemma {:induction false} CameraAt(cameras: seq<Camera>, n: nat, i: nat)
    requires i < n <= |cameras|
    ensures var r := CameraLines(cameras, n);
      && r[2 * i] == Line(CameraDevice(i + 1), cameras[i].path, true)
      && r[2 * i + 1] == Line(CameraName(i + 1), cameras[i].role, true)
  {
    if i < n - 1 { CameraAt(cameras, n - 1, i); }
  }

  predicate NetworkKey(key: Key) { !CameraKey(key) && !PortKey(key) }

  /** Where a network line stands. */
  function Place(key: Key): int {
    match key
    case RosDomainId => 0
    case Registry => 1
    case RegistryFallback => 2
    case ImageTag => 3
    case RobotType => 4
    case CameraSource => 5
    case LanOpen => 6
    case BindHost => 7
    case RosNetSubnet => 8
    case RosNetGateway => 9
    case _ => -1
  }

  lemma NetworkPlaces(lan: string, subnet: string, robotType: string, host: Host)
    ensures var r := NetworkLines(lan, subnet, robotType, host);
      |r| == 10 && forall i :: 0 <= i < |r| ==> Place(r[i].key) == i
  {
  }

  lemma NetworkValues(lan: string, subnet: string, robotType: string, host: Host)
    requires CleanHost(host) && Raw(lan) && Raw(subnet) && Raw(robotType)
    ensures var r := NetworkLines(lan, subnet, robotType, host);
      forall i :: 0 <= i < |r| ==> Raw(r[i].value)
  {
    RawLiterals();
    assert RawGateway(host, subnet);
    assert Raw(Decimal(host.domain));
  }

  lemma NetworkSound(lan: string, subnet: string, robotType: string, host: Host)
    requires CleanHost(host) && Raw(lan) && Raw(subnet) && Raw(robotType)
    ensures var r := NetworkLines(lan, subnet, robotType, host);
      |r| == 10 && SoundLines(r) && forall i :: 0 <= i < |r| ==> NetworkKey(r[i].key)
  {
    NetworkPlaces(lan, subnet, robotType, host);
    NetworkValues(lan, subnet, robotType, host);
  }

  lemma LanRaw(file: Option<string>, lanOpen: Option<bool>)
    ensures var lan := ResolveLanOpen(file, lanOpen); (lan == "0" || lan == "1") && Raw(lan)
  {
    RawLiterals();
  }

  lemma ValidSubnetNormal(subnet: Option<string>, host: Host)
    requires CleanHost(host) && OneLineSubnet(subnet)
    ensures var s := ValidSubnet(subnet, host.normalize);
      s.Some? ==> Raw(s.value) && s.value != [] && host.normalize(s.value) == s
  {
    if subnet.Some? { assert NormalForm(host, subnet.value); }
  }

  lemma DefaultSubnetNormal(host: Host)
    requires CleanHost(host)
    ensures Raw(DEFAULT_SUBNET) && DEFAULT_SUBNET != [] && host.normalize(DEFAULT_SUBNET) == Some(DEFAULT_SUBNET)
  {
    RawLiterals();
  }

  lemma SubnetRaw(file: Option<string>, subnet: Option<string>, host: Host)
    requires CleanHost(host) && OneLineSubnet(subnet)
    ensures var s := ResolveSubnet(file, subnet, host.normalize);
      Raw(s) && s != [] && host.normalize(s) == Some(s)
  {
    ValidSubnetNormal(subnet, host);
    if Read(file, KeyText(RosNetSubnet)).Some? { LookupOneLine(FileLines(file), KeyText(RosNetSubnet)); }
    ValidSubnetNormal(Read(file, KeyText(RosNetSubnet)), host);
    DefaultSubnetNormal(host);
  }

  lemma RobotTypeRaw(robotType: string)
    ensures Raw(ResolveRobotType(robotType))
  {
    RawLiterals();
  }

  lemma AllAssigned(cameras: seq<Camera>)
    ensures Unassigned(cameras).None? <==> forall i :: 0 <= i < |cameras| ==> GoodRole(cameras[i])
  {
    FindNone(cameras, camera => !GoodRole(camera));
  }

  ghost predicate CleanChoice(choice: Choice) {
    Raw(choice.lan) && Raw(choice.subnet) && Raw(choice.robotType)
  }

  lemma ChosenClean(file: Option<string>, hardware: Hardware, request: Request, host: Host)
    requires CleanHost(host) && OneLineSubnet(request.subnet)
    ensures CleanChoice(Chosen(file, hardware, request, host))
  {
    LanRaw(file, request.lanOpen);
    SubnetRaw(file, request.subnet, host);
    RobotTypeRaw(request.robotType);
  }

  /** The cameras have a role each and their paths no line break. */
  ghost predicate CleanHardware(hardware: Hardware) {
    OneLinePaths(hardware) && forall i :: 0 <= i < |hardware.cameras| ==> GoodRole(hardware.cameras[i])
  }

  lemma AppendSound(a: seq<Line>, b: seq<Line>)
    requires SoundLines(a) && SoundLines(b)
    requires forall i, j :: 0 <= i < |a| && 0 <= j < |b| ==> a[i].key != b[j].key
    ensures SoundLines(a + b)
  {
  }

  /** The three parts of the file. */
  lemma LinesSound(hardware: Hardware, choice: Choice, host: Host)
    requires CleanHost(host) && CleanHardware(hardware) && CleanChoice(choice) &&
      Complete(hardware, choice.followerOnly)
    ensures var lines := Lines(hardware, choice, host);
      var ports, cameras := PortLines(hardware, choice.followerOnly), CameraLines(hardware.cameras, |hardware.cameras|);
      && SoundLines(lines)
      && (forall i :: |ports| + |cameras| <= i < |lines| ==> NetworkKey(lines[i].key))
      && (forall i :: 0 <= i < |ports| ==> lines[i] == ports[i] && PortKey(lines[i].key))
      && (forall i :: |ports| <= i < |ports| + |cameras| ==> lines[i] == cameras[i - |ports|])
  {
    var ports, cameras := PortLines(hardware, choice.followerOnly), CameraLines(hardware.cameras, |hardware.cameras|);
    var network := NetworkLines(choice.lan, choice.subnet, choice.robotType, host);
    PortsSound(hardware, choice.followerOnly);
    CamerasSound(hardware.cameras, |hardware.cameras|);
    NetworkSound(choice.lan, choice.subnet, choice.robotType, host);
    AppendSound(ports, cameras);
    AppendSound(ports + cameras, network);
  }

  // ---- what the file reads ---------------------------------------------------------------------------

  /** The key a line was written for reads its value; a managed key without a line is absent. */
  lemma FileReads(file: Option<string>, lines: seq<Line>, key: string)
    requires SoundLines(lines)
    ensures var after := Some(TextOfFile(file, lines));
      && (forall i :: 0 <= i < |lines| && KeyText(lines[i].key) == key ==> Read(after, key) == Some(lines[i].value))
      && (IsDropped(key) && (forall i :: 0 <= i < |lines| ==> KeyText(lines[i].key) != key) ==>
        Read(after, key) == None)
      && (!IsDropped(key) ==> Read(after, key) == Read(file, key))
  {
    LinesOwned(lines);
    RegeneratedReads(file, SettingsOf(lines), EnvPolicy(), key);
    var settings := SettingsOf(lines);
    forall i | 0 <= i < |lines| && KeyText(lines[i].key) == key
      ensures Read(Some(TextOfFile(file, lines)), key) == Some(lines[i].value)
    {
      assert settings[i].key == key;
    }
  }

  /** The same for one of the generator's own keys. */
  lemma KeyReads(file: Option<string>, lines: seq<Line>, key: Key)
    requires SoundLines(lines)
    ensures var after := Some(TextOfFile(file, lines));
      && (forall i :: 0 <= i < |lines| && lines[i].key == key ==> Read(after, KeyText(key)) == Some(lines[i].value))
      && ((forall i :: 0 <= i < |lines| ==> lines[i].key != key) ==> Read(after, KeyText(key)) == None)
  {
    FileReads(file, lines, KeyText(key));
    KeyTextDropped(key);
    forall i | 0 <= i < |lines| && KeyText(lines[i].key) == KeyText(key) ensures lines[i].key == key {
      KeyTextInjective(lines[i].key, key);
    }
  }

  /** What was written, and for which choice. */
  lemma WrittenLines(file: Option<string>, hardware: Hardware, request: Request, host: Host)
    requires CleanHost(host) && OneLineSubnet(request.subnet) && OneLinePaths(hardware)
    requires Generated(file, hardware, request, host).Written?
    ensures var choice := Chosen(file, hardware, request, host);
      && CleanHardware(hardware) && CleanChoice(choice) && Complete(hardware, choice.followerOnly)
      && Generated(file, hardware, request, host).content == TextOfFile(file, Lines(hardware, choice, host))
  {
    ChosenClean(file, hardware, request, host);
    AllAssigned(hardware.cameras);
  }

  /**
    * Over any existing file: every line written reads back as the value it was written for; a managed
    * key that was not written, and the legacy token pair, read as absent; every other key reads as before.
    */
  lemma GeneratedReads(file: Option<string>, hardware: Hardware, request: Request, host: Host, key: string)
    requires CleanHost(host) && OneLineSubnet(request.subnet) && OneLinePaths(hardware)
    requires Generated(file, hardware, request, host).Written?
    ensures var after := Some(Generated(file, hardware, request, host).content);
      var lines := Lines(hardware, Chosen(file, hardware, request, host), host);
      && (forall i :: 0 <= i < |lines| && KeyText(lines[i].key) == key ==> Read(after, key) == Some(lines[i].value))
      && (IsDropped(key) && (forall i :: 0 <= i < |lines| ==> KeyText(lines[i].key) != key) ==>
        Read(after, key) == None)
      && (!IsDropped(key) ==> Read(after, key) == Read(file, key))
  {
    WrittenLines(file, hardware, request, host);
    LinesSound(hardware, Chosen(file, hardware, request, host), host);
    FileReads(file, Lines(hardware, Chosen(file, hardware, request, host), host), key);
  }

  ghost predicate Has(lines: seq<Line>, key: Key, value: string) {
    exists i :: 0 <= i < |lines| && lines[i].key == key && lines[i].value == value
  }

  ghost predicate Lacks(lines: seq<Line>, key: Key) { forall i :: 0 <= i < |lines| ==> lines[i].key != key }

  /** What `key` is written as, if it is. */
  ghost predicate Holds(lines: seq<Line>, key: Key, value: Option<string>) {
    if value.None? then Lacks(lines, key) else Has(lines, key, value.value)
  }

  lemma HeldRead(file: Option<string>, lines: seq<Line>, key: Key, value: Option<string>)
    requires SoundLines(lines) && Holds(lines, key, value)
    ensures Read(Some(TextOfFile(file, lines)), KeyText(key)) == value
  {
    KeyReads(file, lines, key);
  }

  lemma PortsHeld(hardware: Hardware, choice: Choice, host: Host)
    requires CleanHost(host) && CleanHardware(hardware) && CleanChoice(choice) &&
      Complete(hardware, choice.followerOnly)
    ensures var lines := Lines(hardware, choice, host);
      && Holds(lines, FollowerPort, hardware.follower)
      && Holds(lines, LeaderPort, if choice.followerOnly then None else hardware.leader)
      && Holds(lines, FollowerOnly, Some(if choice.followerOnly then "1" else "0"))
  {
    var lines, ports := Lines(hardware, choice, host), PortLines(hardware, choice.followerOnly);
    LinesSound(hardware, choice, host);
    CamerasSound(hardware.cameras, |hardware.cameras|);
    PortsSound(hardware, choice.followerOnly);
    assert lines[0].key == FollowerPort && lines[|ports| - 1].key == FollowerOnly;
    assert !choice.followerOnly ==> lines[1].key == LeaderPort;
  }

  lemma NetworkHeld(hardware: Hardware, choice: Choice, host: Host)
    requires Complete(hardware, choice.followerOnly)
    ensures var lines := Lines(hardware, choice, host);
      Has(lines, LanOpen, choice.lan) && Has(lines, RosNetSubnet, choice.subnet)
  {
    var lines := Lines(hardware, choice, host);
    assert lines[|lines| - 4].key == LanOpen && lines[|lines| - 2].key == RosNetSubnet;
  }

  lemma CameraHeld(hardware: Hardware, choice: Choice, host: Host, n: nat)
    requires CleanHost(host) && CleanHardware(hardware) && CleanChoice(choice) &&
      Complete(hardware, choice.followerOnly)
    ensures var lines := Lines(hardware, choice, host);
      var there := 1 <= n <= |hardware.cameras|;
      && Holds(lines, CameraDevice(n), if there then Some(hardware.cameras[n - 1].path) else None)
      && Holds(lines, CameraName(n), if there then Some(hardware.cameras[n - 1].role) else None)
  {
    var lines, p := Lines(hardware, choice, host), |PortLines(hardware, choice.followerOnly)|;
    LinesSound(hardware, choice, host);
    CamerasSound(hardware.cameras, |hardware.cameras|);
    if 1 <= n <= |hardware.cameras| {
      CameraAt(hardware.cameras, |hardware.cameras|, n - 1);
      assert lines[p + 2 * (n - 1)].key == CameraDevice(n) && lines[p + 2 * (n - 1) + 1].key == CameraName(n);
    }
  }

  /** The ports, the leader's only when it is in use, and the sticky keys. */
  lemma PortsRead(file: Option<string>, hardware: Hardware, request: Request, host: Host)
    requires CleanHost(host) && OneLineSubnet(request.subnet) && OneLinePaths(hardware)
    requires Generated(file, hardware, request, host).Written?
    ensures var after := Some(Generated(file, hardware, request, host).content);
      var choice := Chosen(file, hardware, request, host);
      && Read(after, KeyText(FollowerPort)) == hardware.follower
      && Read(after, KeyText(LeaderPort)) == (if choice.followerOnly then None else hardware.leader)
      && Read(after, KeyText(FollowerOnly)) == Some(if choice.followerOnly then "1" else "0")
      && Read(after, KeyText(LanOpen)) == Some(choice.lan)
      && Read(after, KeyText(RosNetSubnet)) == Some(choice.subnet)
  {
    var choice := Chosen(file, hardware, request, host);
    WrittenLines(file, hardware, request, host);
    PortsHeld(hardware, choice, host);
    NetworkHeld(hardware, choice, host);
    LinesSound(hardware, choice, host);
    var lines := Lines(hardware, choice, host);
    HeldRead(file, lines, FollowerPort, hardware.follower);
    HeldRead(file, lines, LeaderPort, if choice.followerOnly then None else hardware.leader);
    HeldRead(file, lines, FollowerOnly, Some(if choice.followerOnly then "1" else "0"));
    HeldRead(file, lines, LanOpen, Some(choice.lan));
    HeldRead(file, lines, RosNetSubnet, Some(choice.subnet));
  }

  /** Camera `n`, counted from one: its device and role while there is such a camera, else absent. */
  lemma CamerasRead(file: Option<string>, hardware: Hardware, request: Request, host: Host, n: nat)
    requires CleanHost(host) && OneLineSubnet(request.subnet) && OneLinePaths(hardware)
    requires Generated(file, hardware, request, host).Written?
    ensures var after := Some(Generated(file, hardware, request, host).content);
      var there := 1 <= n <= |hardware.cameras|;
      && Read(after, KeyText(CameraDevice(n))) == (if there then Some(hardware.cameras[n - 1].path) else None)
      && Read(after, KeyText(CameraName(n))) == (if there then Some(hardware.cameras[n - 1].role) else None)
  {
    var choice := Chosen(file, hardware, request, host);
    WrittenLines(file, hardware, request, host);
    CameraHeld(hardware, choice, host, n);
    LinesSound(hardware, choice, host);
    var there := 1 <= n <= |hardware.cameras|;
    var lines := Lines(hardware, choice, host);
    HeldRead(file, lines, CameraDevice(n), if there then Some(hardware.cameras[n - 1].path) else None);
    HeldRead(file, lines, CameraName(n), if there then Some(hardware.cameras[n - 1].role) else None);
  }

  /** Whether a key of the written file reads as `value`. */
  predicate ReadsAs(outcome: Outcome, key: Key, value: string)
    requires outcome.Written?
  {
    Read(Some(outcome.content), KeyText(key)) == Some(value)
  }

  lemma ReadsAsOneLine(outcome: Outcome, key: Key, value: string)
    requires outcome.Written? && ReadsAs(outcome, key, value)
    ensures OneLine(value)
  {
    LookupOneLine(FileLines(Some(outcome.content)), KeyText(key));
  }

  /** The other paths being free of line breaks, the follower's reads back exactly when it is free of them too. */
  lemma FollowerReadsIff(file: Option<string>, hardware: Hardware, request: Request, host: Host)
    requires CleanHost(host) && OneLineSubnet(request.subnet) && OneLinePaths(hardware.(follower := None))
    requires Generated(file, hardware, request, host).Written?
    ensures ReadsAs(Generated(file, hardware, request, host), FollowerPort, hardware.follower.value) <==>
      OneLine(hardware.follower.value)
  {
    if OneLine(hardware.follower.value) {
      PortsRead(file, hardware, request, host);
    } else if ReadsAs(Generated(file, hardware, request, host), FollowerPort, hardware.follower.value) {
      ReadsAsOneLine(Generated(file, hardware, request, host), FollowerPort, hardware.follower.value);
    }
  }

  /** The same of the leader's, while it is in use. */
  lemma LeaderReadsIff(file: Option<string>, hardware: Hardware, request: Request, host: Host)
    requires CleanHost(host) && OneLineSubnet(request.subnet) && OneLinePaths(hardware.(leader := None))
    requires Generated(file, hardware, request, host).Written? && !Chosen(file, hardware, request, host).followerOnly
    ensures ReadsAs(Generated(file, hardware, request, host), LeaderPort, hardware.leader.value) <==>
      OneLine(hardware.leader.value)
  {
    if OneLine(hardware.leader.value) {
      PortsRead(file, hardware, request, host);
    } else if ReadsAs(Generated(file, hardware, request, host), LeaderPort, hardware.leader.value) {
      ReadsAsOneLine(Generated(file, hardware, request, host), LeaderPort, hardware.leader.value);
    }
  }

  /** And of each camera's. */
  lemma CameraReadsIff(file: Option<string>, hardware: Hardware, request: Request, host: Host, n: nat)
    requires CleanHost(host) && OneLineSubnet(request.subnet) && 1 <= n <= |hardware.cameras|
    requires OneLinePaths(hardware.(cameras := hardware.cameras[..n - 1] + hardware.cameras[n..]))
    requires Generated(file, hardware, request, host).Written?
    ensures ReadsAs(Generated(file, hardware, request, host), CameraDevice(n), hardware.cameras[n - 1].path) <==>
      OneLine(hardware.cameras[n - 1].path)
  {
    var path, outcome := hardware.cameras[n - 1].path, Generated(file, hardware, request, host);
    if OneLine(path) {
      OtherCameras(hardware, n);
      CameraReadsAs(file, hardware, request, host, outcome, Chosen(file, hardware, request, host).followerOnly, n);
    } else if ReadsAs(outcome, CameraDevice(n), path) {
      ReadsAsOneLine(outcome, CameraDevice(n), path);
    }
  }

  lemma OtherCameras(hardware: Hardware, n: nat)
    requires 1 <= n <= |hardware.cameras| && OneLine(hardware.cameras[n - 1].path)
    requires OneLinePaths(hardware.(cameras := hardware.cameras[..n - 1] + hardware.cameras[n..]))
    ensures OneLinePaths(hardware)
  {
    var cameras, others := hardware.cameras, hardware.cameras[..n - 1] + hardware.cameras[n..];
    forall i | 0 <= i < |cameras| ensures OneLine(cameras[i].path) {
      if i < n - 1 { assert cameras[i] == others[i]; }
      if i > n - 1 { assert cameras[i] == others[i - 1]; }
    }
  }

  ghost predicate AllPathsRead(outcome: Outcome, hardware: Hardware, followerOnly: bool)
    requires outcome.Written?
  {
    && hardware.follower.Some? && ReadsAs(outcome, FollowerPort, hardware.follower.value)
    && (!followerOnly ==> hardware.leader.Some? && ReadsAs(outcome, LeaderPort, hardware.leader.value))
    && forall n: nat :: 1 <= n <= |hardware.cameras| ==>
         ReadsAs(outcome, CameraDevice(n), hardware.cameras[n - 1].path)
  }

  /** The hardware whose paths are written: without the leader while it is not in use. */
  function InUse(hardware: Hardware, followerOnly: bool): Hardware {
    if followerOnly then hardware.(leader := None) else hardware
  }

  lemma InUseWritten(file: Option<string>, hardware: Hardware, request: Request, host: Host)
    ensures var used := InUse(hardware, Chosen(file, hardware, request, host).followerOnly);
      && Generated(file, used, request, host) == Generated(file, hardware, request, host)
      && Chosen(file, used, request, host) == Chosen(file, hardware, request, host)
  {
  }

  /** `outcome` is what is generated, the paths being free of line breaks, and `followerOnly` its mode. */
  ghost predicate CleanOutcome(file: Option<string>, hardware: Hardware, request: Request, host: Host,
                               outcome: Outcome, followerOnly: bool) {
    && CleanHost(host) && OneLineSubnet(request.subnet) && OneLinePaths(hardware) && outcome.Written?
    && outcome == Generated(file, hardware, request, host)
    && followerOnly == Chosen(file, hardware, request, host).followerOnly
  }

  lemma PortReadsAs(file: Option<string>, hardware: Hardware, request: Request, host: Host, outcome: Outcome,
                    followerOnly: bool)
    requires CleanOutcome(file, hardware, request, host, outcome, followerOnly)
    ensures Complete(hardware, followerOnly) && ReadsAs(outcome, FollowerPort, hardware.follower.value)
    ensures !followerOnly ==> ReadsAs(outcome, LeaderPort, hardware.leader.value)
  {
    PortsRead(file, hardware, request, host);
  }

  lemma CameraReadsAs(file: Option<string>, hardware: Hardware, request: Request, host: Host, outcome: Outcome,
                      followerOnly: bool, n: nat)
    requires CleanOutcome(file, hardware, request, host, outcome, followerOnly) && 1 <= n <= |hardware.cameras|
    ensures ReadsAs(outcome, CameraDevice(n), hardware.cameras[n - 1].path)
  {
    CamerasRead(file, hardware, request, host, n);
  }

  lemma OneLinePathsRead(file: Option<string>, hardware: Hardware, request: Request, host: Host, outcome: Outcome,
                         followerOnly: bool)
    requires CleanOutcome(file, hardware, request, host, outcome, followerOnly)
    ensures AllPathsRead(outcome, hardware, followerOnly)
  {
    PortReadsAs(file, hardware, request, host, outcome, followerOnly);
    forall n: nat | 1 <= n <= |hardware.cameras|
      ensures ReadsAs(outcome, CameraDevice(n), hardware.cameras[n - 1].path) {
      CameraReadsAs(file, hardware, request, host, outcome, followerOnly, n);
    }
  }

  lemma SamePathsRead(outcome: Outcome, hardware: Hardware, followerOnly: bool)
    requires outcome.Written? && AllPathsRead(outcome, InUse(hardware, followerOnly), followerOnly)
    ensures AllPathsRead(outcome, hardware, followerOnly)
  {
  }

  lemma InUseRead(file: Option<string>, hardware: Hardware, request: Request, host: Host, outcome: Outcome,
                  followerOnly: bool)
    requires CleanHost(host) && OneLineSubnet(request.subnet) && OneLinePaths(InUse(hardware, followerOnly))
    requires outcome == Generated(file, hardware, request, host) && outcome.Written?
    requires followerOnly == Chosen(file, hardware, request, host).followerOnly
    ensures AllPathsRead(outcome, hardware, followerOnly)
  {
    InUseWritten(file, hardware, request, host);
    OneLinePathsRead(file, InUse(hardware, followerOnly), request, host, outcome, followerOnly);
    SamePathsRead(outcome, hardware, followerOnly);
  }

  /** All the paths written read back exactly when none of them holds a line break. */
  lemma AllPathsReadIff(file: Option<string>, hardware: Hardware, request: Request, host: Host)
    requires CleanHost(host) && OneLineSubnet(request.subnet) && Generated(file, hardware, request, host).Written?
    ensures var followerOnly := Chosen(file, hardware, request, host).followerOnly;
      AllPathsRead(Generated(file, hardware, request, host), hardware, followerOnly) <==>
        OneLinePaths(InUse(hardware, followerOnly))
  {
    var outcome := Generated(file, hardware, request, host);
    var followerOnly := Chosen(file, hardware, request, host).followerOnly;
    if OneLinePaths(InUse(hardware, followerOnly)) { InUseRead(file, hardware, request, host, outcome, followerOnly); }
    if AllPathsRead(outcome, hardware, followerOnly) { ReadPathsOneLine(outcome, hardware, followerOnly); }
  }

  lemma ReadPathsOneLine(outcome: Outcome, hardware: Hardware, followerOnly: bool)
    requires outcome.Written? && AllPathsRead(outcome, hardware, followerOnly)
    ensures OneLinePaths(InUse(hardware, followerOnly))
  {
    ReadsAsOneLine(outcome, FollowerPort, hardware.follower.value);
    if !followerOnly { ReadsAsOneLine(outcome, LeaderPort, hardware.leader.value); }
    forall i | 0 <= i < |hardware.cameras| ensures OneLine(hardware.cameras[i].path) {
      ReadsAsOneLine(outcome, CameraDevice(i + 1), hardware.cameras[i].path);
    }
  }

  // ---- generating again ------------------------------------------------------------------------------

  /** The choices made for a file are made again for the file written with them. */
  lemma ChosenAgain(file: Option<string>, hardware: Hardware, request: Request, host: Host, after: Option<string>)
    requires CleanHost(host) && OneLineSubnet(request.subnet)
    requires Read(after, KeyText(LanOpen)) == Some(ResolveLanOpen(file, request.lanOpen))
    requires Read(after, KeyText(RosNetSubnet)) == Some(ResolveSubnet(file, request.subnet, host.normalize))
    ensures Chosen(after, hardware, request, host) == Chosen(file, hardware, request, host)
  {
    var lan := ResolveLanOpen(file, request.lanOpen);
    LanRaw(file, request.lanOpen);
    StripTight(lan);
    SubnetRaw(file, request.subnet, host);
  }

  lemma TextAgain(file: Option<string>, lines: seq<Line>)
    requires SoundLines(lines)
    ensures TextOfFile(Some(TextOfFile(file, lines)), lines) == TextOfFile(file, lines)
  {
    LinesOwned(lines);
    PreservedAgain(file, SettingsOf(lines), EnvPolicy());
  }

  /** The same request over the file just written gives the same text. */
  lemma GeneratedAgain(file: Option<string>, hardware: Hardware, request: Request, host: Host)
    requires CleanHost(host) && OneLineSubnet(request.subnet) && OneLinePaths(hardware)
    requires Generated(file, hardware, request, host).Written?
    ensures var r := Generated(file, hardware, request, host); Generated(Some(r.content), hardware, request, host) == r
  {
    var choice, after := Chosen(file, hardware, request, host), Some(Generated(file, hardware, request, host).content);
    WrittenLines(file, hardware, request, host);
    PortsRead(file, hardware, request, host);
    ChosenAgain(file, hardware, request, host, after);
    LinesSound(hardware, choice, host);
    TextAgain(file, Lines(hardware, choice, host));
  }
}
