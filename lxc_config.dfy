/** The LXC configuration document docker writes for one container
    (the `LxcTemplate` text of lxc_template.go and its two template
    helpers). The template is rendered by hand: `Render` yields the
    document's lines, in order, as typed directives, and `Document` ends
    every line with a newline exactly as `text/template` would print them. */
module LxcConfig {
  import opened Decimal

  const MinInt64: int := -0x8000_0000_0000_0000
  const MaxInt64: int := 0x7fff_ffff_ffff_ffff

  /** Go's `int64` (and `int` on a 64-bit host). */
  type Int64 = x: int | MinInt64 <= x <= MaxInt64

  /** Two's-complement wrap-around of a mathematical integer to 64 bits. */
  function Wrap64(x: int): (r: Int64)
    ensures (r - x) % 0x1_0000_0000_0000_0000 == 0
    ensures MinInt64 <= x <= MaxInt64 ==> r == x
  {
    (x - MinInt64) % 0x1_0000_0000_0000_0000 + MinInt64
  }

  /** The fields of the container's `Config` the template reads. */
  datatype Config = Config(hostname: string, memory: Int64, memorySwap: Int64)

  datatype NetworkSettings = NetworkSettings(ipAddress: string, ipPrefixLen: Int64)

  /** The container descriptor, as far as the template looks into it:
      `Id`, `Config`, `NetworkSettings`, `Mountpoint.Root`, `SysInitPath`. */
  datatype Container = Container(
    id: string,
    config: Config,
    network: NetworkSettings,
    root: string,
    sysInitPath: string)

  /** The keys of the settings the template writes. */
  datatype Key =
    | Utsname | AaProfile
    | NetworkType | NetworkFlags | NetworkLink | NetworkName | NetworkMtu | NetworkIpv4
    | Rootfs | Pts | Console | Tty
    | DevicesDeny | DevicesAllow
    | CapDrop
    | MemoryLimit | MemorySoftLimit | MemswLimit

  function KeyName(k: Key): string {
    match k
    case Utsname => "lxc.utsname"
    case AaProfile => "lxc.aa_profile"
    case NetworkType => "lxc.network.type"
    case NetworkFlags => "lxc.network.flags"
    case NetworkLink => "lxc.network.link"
    case NetworkName => "lxc.network.name"
    case NetworkMtu => "lxc.network.mtu"
    case NetworkIpv4 => "lxc.network.ipv4"
    case Rootfs => "lxc.rootfs"
    case Pts => "lxc.pts"
    case Console => "lxc.console"
    case Tty => "lxc.tty"
    case DevicesDeny => "lxc.cgroup.devices.deny"
    case DevicesAllow => "lxc.cgroup.devices.allow"
    case CapDrop => "lxc.cap.drop"
    case MemoryLimit => "lxc.cgroup.memory.limit_in_bytes"
    case MemorySoftLimit => "lxc.cgroup.memory.soft_limit_in_bytes"
    case MemswLimit => "lxc.cgroup.memory.memsw.limit_in_bytes"
  }

  const MountKey := "lxc.mount.entry"

  /** The template's explanatory comments, one per comment line. */
  datatype Note =
    | HostnameNote | NetworkNote | RootfsNote
    | PtsNote | PtsNoteContinued | ConsoleNote | TtyNote
    | DevicesNote | NullZeroNote | ConsolesNote | RandomNote | PtsDevicesNote | TuntapNote
    | FuseNote | RtcNote
    | StandardMountsNote | InitNote | ResolvConfNote
    | CapabilitiesNote | LimitsNote

  /** The text after `#`. */
  function NoteText(n: Note): string {
    match n
    case HostnameNote => " hostname"
    case NetworkNote => " network configuration"
    case RootfsNote => " root filesystem"
    case PtsNote => " use a dedicated pts for the container (and limit the number of pseudo terminal"
    case PtsNoteContinued => " available)"
    case ConsoleNote => " disable the main console"
    case TtyNote => " no controlling tty at all"
    case DevicesNote => " no implicit access to devices"
    case NullZeroNote => " /dev/null and zero"
    case ConsolesNote => " consoles"
    case RandomNote => " /dev/urandom,/dev/random"
    case PtsDevicesNote => " /dev/pts/* - pts namespaces are \"coming soon\""
    case TuntapNote => " tuntap"
    case FuseNote => " fuse"
    case RtcNote => " rtc"
    case StandardMountsNote => " standard mount point"
    case InitNote => " Inject docker-init"
    case ResolvConfNote => " In order to get a working DNS environment, mount bind (ro) the host's /etc/resolv.conf into the container"
    case CapabilitiesNote => " drop linux capabilities (apply mainly to the user root in the container)"
    case LimitsNote => " limits"
  }

  /** The fields of a mount entry after its target: file-system type,
      options, dump and pass. */
  datatype Fstab =
    | ProcFs | SysFs | DevPtsFs | VarRunFs | VarLockFs | ShmFs | ReadOnlyBind

  function FstabText(f: Fstab): string {
    match f
    case ProcFs => "proc nosuid,nodev,noexec 0 0"
    case SysFs => "sysfs nosuid,nodev,noexec 0 0"
    case DevPtsFs => "devpts newinstance,ptmxmode=0666,nosuid,noexec 0 0"
    case VarRunFs => "tmpfs mode=755,size=4096k,nosuid,nodev,noexec 0 0"
    case VarLockFs => "tmpfs size=1024k,nosuid,nodev,noexec 0 0"
    case ShmFs => "tmpfs size=65536k,nosuid,nodev,noexec 0 0"
    case ReadOnlyBind => "none bind,ro 0 0"
  }

  /** One line of the generated document. */
  datatype Line =
    | Blank
    | Comment(note: Note)
      /** `key = value` */
    | Setting(key: Key, value: string)
      /** `lxc.mount.entry = source target fstab`; when `spaced` is false
          there is no blank between `=` and the source */
    | Mount(spaced: bool, source: string, target: string, fstab: Fstab)
      /** a directive commented out: `#` directly followed by it */
    | Disabled(entry: Line)

  /** `getMemorySwap`: the swap limit is twice the memory limit, computed in
      int64 arithmetic, unless MemorySwap is negative, which disables it. */
  function GetMemorySwap(config: Config): (r: Int64)
    ensures config.memorySwap < 0 ==> r == 0
    ensures config.memorySwap >= 0 ==> (r - 2 * config.memory) % 0x1_0000_0000_0000_0000 == 0
    ensures config.memorySwap >= 0 && MinInt64 <= 2 * config.memory <= MaxInt64 ==>
      r == 2 * config.memory
  {
    if config.memorySwap < 0 then 0 else Wrap64(config.memory * 2)
  }

  /** The swap limit is zero exactly when swap is disabled or the memory
      limit is zero; the only other way to reach zero is the wrap-around
      of the smallest int64, whose double is 2^64. */
  lemma SwapLimitZero(config: Config)
    ensures GetMemorySwap(config) == 0 <==>
      config.memorySwap < 0 || config.memory == 0 || config.memory == MinInt64
  {
    if config.memorySwap >= 0 {
      var m: int := config.memory;
      var r: int := GetMemorySwap(config);
      assert (r - 2 * m) % 0x1_0000_0000_0000_0000 == 0;
      if r == 0 {
        assert -0x1_0000_0000_0000_0000 <= 2 * m <= 0x1_0000_0000_0000_0000 - 2;
        assert 2 * m == 0 || 2 * m == -0x1_0000_0000_0000_0000;
      }
    }
  }

  /** The host name written to `lxc.utsname`: the configured one if set,
      the container id otherwise (Go's `if` on a string tests non-empty). */
  function UtsName(c: Container): (name: string)
    ensures c.config.hostname != "" ==> name == c.config.hostname
    ensures c.config.hostname == "" ==> name == c.id
  {
    if c.config.hostname != "" then c.config.hostname else c.id
  }

  function HostnameSection(c: Container): seq<Line> {
    [ Blank,
      Comment(HostnameNote),
      Blank,
      Setting(Utsname, UtsName(c)),
      Blank,
      Disabled(Setting(AaProfile, "unconfined")),
      Blank ]
  }

  function NetworkSection(n: NetworkSettings): seq<Line> {
    [ Comment(NetworkNote),
      Setting(NetworkType, "veth"),
      Setting(NetworkFlags, "up"),
      Setting(NetworkLink, "lxcbr0"),
      Setting(NetworkName, "eth0"),
      Setting(NetworkMtu, "1500"),
      Setting(NetworkIpv4, n.ipAddress + "/" + IntToString(n.ipPrefixLen)),
      Blank ]
  }

  function RootfsSection(root: string): seq<Line> {
    [ Comment(RootfsNote),
      Blank,
      Setting(Rootfs, root),
      Blank ]
  }

  const TerminalSection: seq<Line> :=
    [ Comment(PtsNote),
      Comment(PtsNoteContinued),
      Setting(Pts, "1024"),
      Blank,
      Comment(ConsoleNote),
      Setting(Console, "none"),
      Blank,
      Comment(TtyNote),
      Setting(Tty, "1"),
      Blank ]

  function Allow(device: string): Line {
    Setting(DevicesAllow, "c " + device + " rwm")
  }

  /** Device access, group by group as the template's comments divide it. */
  const DeviceSection: seq<Line> :=
    DenyAllDevices + NullZeroDevices + ConsoleDevices + RandomDevices
    + PtsDevices + TuntapDevices + DisabledDevices

  const DenyAllDevices: seq<Line> :=
    [ Comment(DevicesNote),
      Setting(DevicesDeny, "a"),
      Blank ]

  const NullZeroDevices: seq<Line> :=
    [ Comment(NullZeroNote),
      Allow("1:3"),
      Allow("1:5"),
      Blank ]

  const ConsoleDevices: seq<Line> :=
    [ Comment(ConsolesNote),
      Allow("5:1"),
      Allow("5:0"),
      Allow("4:0"),
      Allow("4:1"),
      Blank ]

  const RandomDevices: seq<Line> :=
    [ Comment(RandomNote),
      Allow("1:9"),
      Allow("1:8"),
      Blank ]

  const PtsDevices: seq<Line> :=
    [ Comment(PtsDevicesNote),
      Allow("136:*"),
      Allow("5:2"),
      Blank ]

  const TuntapDevices: seq<Line> :=
    [ Comment(TuntapNote),
      Allow("10:200"),
      Blank ]

  /** fuse and rtc, present only commented out */
  const DisabledDevices: seq<Line> :=
    [ Comment(FuseNote),
      Disabled(Allow("10:229")),
      Blank,
      Comment(RtcNote),
      Disabled(Allow("254:0")),
      Blank,
      Blank ]

  /** Bind mounts: the standard file systems, the init binary and the
      resolver file. */
  function MountSection(c: Container, resolvConfPath: string): seq<Line> {
    StandardMounts(c.root) + InitMount(c) + ResolvConfMount(c.root, resolvConfPath)
  }

  /** The commented-out entries still have the root substituted, since the
      template expands `$ROOTFS` inside them too. */
  function StandardMounts(root: string): seq<Line> {
    [ Comment(StandardMountsNote),
      Mount(true, "proc", root + "/proc", ProcFs),
      Mount(true, "sysfs", root + "/sys", SysFs),
      Mount(true, "devpts", root + "/dev/pts", DevPtsFs),
      Disabled(Mount(true, "varrun", root + "/var/run", VarRunFs)),
      Disabled(Mount(true, "varlock", root + "/var/lock", VarLockFs)),
      Disabled(Mount(true, "shm", root + "/dev/shm", ShmFs)),
      Blank ]
  }

  function InitMount(c: Container): seq<Line> {
    [ Comment(InitNote),
      Mount(true, c.sysInitPath, c.root + "/sbin/init", ReadOnlyBind),
      Blank ]
  }

  /** The only entry written without a blank after `=`. */
  function ResolvConfMount(root: string, resolvConfPath: string): seq<Line> {
    [ Comment(ResolvConfNote),
      Blank,
      Mount(false, resolvConfPath, root + "/etc/resolv.conf", ReadOnlyBind),
      Blank ]
  }

  /** The capabilities taken from the container, blank-separated. */
  const DroppedCapabilities :=
    "audit_control audit_write mac_admin mac_override mknod setfcap setpcap sys_admin sys_boot"
    + " sys_module sys_nice sys_pacct sys_rawio sys_resource sys_time sys_tty_config"

  const CapabilitySection: seq<Line> :=
    [ Comment(CapabilitiesNote),
      Setting(CapDrop, DroppedCapabilities),
      Blank,
      Comment(LimitsNote) ]

  /** The memory block, given Memory and the value of `getMemorySwap`:
      present when Memory is non-zero (Go's `if` on an integer), with the
      swap line nested under `with`, which likewise skips a zero value. */
  function LimitsSection(memory: Int64, swap: Int64): seq<Line> {
    if memory != 0 then
      [ Blank,
        Setting(MemoryLimit, IntToString(memory)),
        Setting(MemorySoftLimit, IntToString(memory)) ]
      + (if swap != 0 then [Blank, Setting(MemswLimit, IntToString(swap))] else [])
      + [Blank, Blank]
    else
      [Blank]
  }

  /** The lines of the configuration for container `c`, given the value
      `getResolvConfPath` returns. */
  function Render(c: Container, resolvConfPath: string): seq<Line> {
    HostnameSection(c) + NetworkSection(c.network) + RootfsSection(c.root)
    + TerminalSection + DeviceSection + MountSection(c, resolvConfPath)
    + CapabilitySection + LimitsSection(c.config.memory, GetMemorySwap(c.config))
  }

  /** The text of one line. */
  function Text(l: Line): string {
    match l
    case Blank => ""
    case Comment(n) => "#" + NoteText(n)
    case Setting(k, v) => KeyName(k) + " = " + v
    case Mount(spaced, src, dst, fstab) =>
      MountKey + (if spaced then " = " else " =") + src + " " + dst + " " + FstabText(fstab)
    case Disabled(entry) => "#" + Text(entry)
  }

  /** Every line is terminated by a newline, the template's first line
      included (the template text starts with one). */
  function Serialize(lines: seq<Line>): string {
    if lines == [] then "" else Text(lines[0]) + "\n" + Serialize(lines[1..])
  }

  function Document(c: Container, resolvConfPath: string): string {
    Serialize(Render(c, resolvConfPath))
  }

  /** Values of the settings with key `key`, in document order; disabled
      lines set nothing. */
  function Values(lines: seq<Line>, key: Key): (vs: seq<string>)
    ensures |vs| <= |lines|
  {
    if lines == [] then []
    else
      (if lines[0].Setting? && lines[0].key == key then [lines[0].value] else [])
      + Values(lines[1..], key)
  }

  /** The mount entries in effect, in document order. */
  function Mounts(lines: seq<Line>): seq<Line>
  {
    if lines == [] then []
    else
      (if lines[0].Mount? then [lines[0]] else []) + Mounts(lines[1..])
  }

  lemma {:induction false} ValuesAppend(a: seq<Line>, b: seq<Line>, key: Key)
    ensures Values(a + b, key) == Values(a, key) + Values(b, key)
    decreases |a|
  {
    if a == [] {
      assert a + b == b;
    } else {
      assert (a + b)[1..] == a[1..] + b;
      ValuesAppend(a[1..], b, key);
    }
  }

  predicate Sets(l: Line, key: Key) {
    l.Setting? && l.key == key
  }

  lemma {:induction false} ValuesAbsent(lines: seq<Line>, key: Key)
    requires forall l | l in lines :: !Sets(l, key)
    ensures Values(lines, key) == []
    decreases |lines|
  {
    if lines != [] {
      assert lines[0] in lines;
      ValuesAbsent(lines[1..], key);
    }
  }

  lemma {:induction false} MountsAppend(a: seq<Line>, b: seq<Line>)
    ensures Mounts(a + b) == Mounts(a) + Mounts(b)
    decreases |a|
  {
    if a == [] {
      assert a + b == b;
    } else {
      assert (a + b)[1..] == a[1..] + b;
      MountsAppend(a[1..], b);
    }
  }

  lemma {:induction false} MountsAbsent(lines: seq<Line>)
    requires forall l | l in lines :: !l.Mount?
    ensures Mounts(lines) == []
    decreases |lines|
  {
    if lines != [] {
      assert lines[0] in lines;
      MountsAbsent(lines[1..]);
    }
  }

  /** The keys whose lines depend on the container. */
  predicate Tracked(k: Key) {
    k.Utsname? || k.NetworkIpv4? || k.Rootfs? || k.MemoryLimit? || k.MemorySoftLimit? || k.MemswLimit?
  }

  /** Lines that set no container-dependent key. */
  predicate Untracked(lines: seq<Line>) {
    forall i | 0 <= i < |lines| :: lines[i].Setting? ==> !Tracked(lines[i].key)
  }

  lemma ValuesUntracked(lines: seq<Line>, key: Key)
    requires Untracked(lines) && Tracked(key)
    ensures Values(lines, key) == []
  {
    forall l | l in lines ensures !Sets(l, key) {
      var i :| 0 <= i < |lines| && lines[i] == l;
    }
    ValuesAbsent(lines, key);
  }

  lemma {:induction false} UntrackedAppend(a: seq<Line>, b: seq<Line>)
    requires Untracked(a) && Untracked(b)
    ensures Untracked(a + b)
  {
    forall i | 0 <= i < |a + b| && (a + b)[i].Setting? ensures !Tracked((a + b)[i].key) {
      if i < |a| {
        assert (a + b)[i] == a[i];
      } else {
        assert (a + b)[i] == b[i - |a|];
      }
    }
  }

  lemma DeviceUntracked()
    ensures Untracked(DeviceSection)
  {
    var g1, g2, g3, g4 := DenyAllDevices, NullZeroDevices, ConsoleDevices, RandomDevices;
    var g5, g6, g7 := PtsDevices, TuntapDevices, DisabledDevices;
    assert Untracked(g1) && Untracked(g2) && Untracked(g3) && Untracked(g4);
    assert Untracked(g5) && Untracked(g6) && Untracked(g7);
    UntrackedAppend(g1, g2);
    UntrackedAppend(g1 + g2, g3);
    UntrackedAppend(g1 + g2 + g3, g4);
    UntrackedAppend(g1 + g2 + g3 + g4, g5);
    UntrackedAppend(g1 + g2 + g3 + g4 + g5, g6);
    UntrackedAppend(g1 + g2 + g3 + g4 + g5 + g6, g7);
  }

  lemma ValuesAppend8(s1: seq<Line>, s2: seq<Line>, s3: seq<Line>, s4: seq<Line>,
                      s5: seq<Line>, s6: seq<Line>, s7: seq<Line>, s8: seq<Line>, key: Key)
    ensures Values(s1 + s2 + s3 + s4 + s5 + s6 + s7 + s8, key) ==
      Values(s1, key) + Values(s2, key) + Values(s3, key) + Values(s4, key)
      + Values(s5, key) + Values(s6, key) + Values(s7, key) + Values(s8, key)
  {
    ValuesAppend(s1, s2, key);
    ValuesAppend(s1 + s2, s3, key);
    ValuesAppend(s1 + s2 + s3, s4, key);
    ValuesAppend(s1 + s2 + s3 + s4, s5, key);
    ValuesAppend(s1 + s2 + s3 + s4 + s5, s6, key);
    ValuesAppend(s1 + s2 + s3 + s4 + s5 + s6, s7, key);
    ValuesAppend(s1 + s2 + s3 + s4 + s5 + s6 + s7, s8, key);
  }

  lemma DropEmpty<T>(h: seq<T>, n: seq<T>, r: seq<T>, t: seq<T>, d: seq<T>, m: seq<T>, k: seq<T>, l: seq<T>)
    requires t == d == m == k == []
    ensures h + n + r + t + d + m + k + l == h + n + r + l
  {
  }

  lemma TerminalUntracked()
    ensures Untracked(TerminalSection)
  {
  }

  lemma MountUntracked(c: Container, p: string)
    ensures Untracked(MountSection(c, p))
  {
  }

  lemma CapabilityUntracked()
    ensures Untracked(CapabilitySection)
  {
  }

  /** The sections that are the same for every container, and the mount
      section, set no container-dependent key. */
  lemma StaticSilent(c: Container, p: string, key: Key)
    requires Tracked(key)
    ensures Values(TerminalSection, key) == []
    ensures Values(DeviceSection, key) == []
    ensures Values(MountSection(c, p), key) == []
    ensures Values(CapabilitySection, key) == []
  {
    TerminalUntracked();
    ValuesUntracked(TerminalSection, key);
    DeviceUntracked();
    ValuesUntracked(DeviceSection, key);
    MountUntracked(c, p);
    ValuesUntracked(MountSection(c, p), key);
    CapabilityUntracked();
    ValuesUntracked(CapabilitySection, key);
  }

  /** Of the settings the container decides, each sits in the hostname,
      network, root file system or limits section. */
  lemma RenderTracked(c: Container, p: string, key: Key)
    requires Tracked(key)
    ensures Values(Render(c, p), key) ==
      Values(HostnameSection(c), key) + Values(NetworkSection(c.network), key)
      + Values(RootfsSection(c.root), key)
      + Values(LimitsSection(c.config.memory, GetMemorySwap(c.config)), key)
  {
    var h, n, r, t := HostnameSection(c), NetworkSection(c.network), RootfsSection(c.root), TerminalSection;
    var d, m, k, l := DeviceSection, MountSection(c, p), CapabilitySection,
      LimitsSection(c.config.memory, GetMemorySwap(c.config));
    ValuesAppend8(h, n, r, t, d, m, k, l, key);
    StaticSilent(c, p, key);
    DropEmpty(Values(h, key), Values(n, key), Values(r, key), Values(t, key),
      Values(d, key), Values(m, key), Values(k, key), Values(l, key));
  }

  /** The value a single line contributes to `Values`. */
  function ValueOf(l: Line, key: Key): seq<string> {
    if Sets(l, key) then [l.value] else []
  }

  lemma {:induction false} ValuesCons(l: Line, rest: seq<Line>, key: Key)
    ensures Values([l] + rest, key) == ValueOf(l, key) + Values(rest, key)
  {
    assert ([l] + rest)[1..] == rest;
  }

  lemma HostnameValues(c: Container, key: Key)
    ensures Values(HostnameSection(c), key) == (if key == Utsname then [UtsName(c)] else [])
  {
    var before: seq<Line> := [Blank, Comment(HostnameNote), Blank];
    var after: seq<Line> := [Blank, Disabled(Setting(AaProfile, "unconfined")), Blank];
    assert HostnameSection(c) == before + ([Setting(Utsname, UtsName(c))] + after);
    ValuesAbsent(before, key);
    ValuesAbsent(after, key);
    ValuesAppend(before, [Setting(Utsname, UtsName(c))] + after, key);
    ValuesCons(Setting(Utsname, UtsName(c)), after, key);
  }

  lemma NetworkValues(n: NetworkSettings, key: Key)
    requires Tracked(key)
    ensures Values(NetworkSection(n), key) ==
      (if key == NetworkIpv4 then [n.ipAddress + "/" + IntToString(n.ipPrefixLen)] else [])
  {
    var ipv4 := Setting(NetworkIpv4, n.ipAddress + "/" + IntToString(n.ipPrefixLen));
    var before := NetworkSection(n)[..6];
    var after: seq<Line> := [Blank];
    assert NetworkSection(n) == before + ([ipv4] + after);
    ValuesUntracked(before, key);
    ValuesAbsent(after, key);
    ValuesAppend(before, [ipv4] + after, key);
    ValuesCons(ipv4, after, key);
  }

  lemma RootfsValues(root: string, key: Key)
    ensures Values(RootfsSection(root), key) == (if key == Rootfs then [root] else [])
  {
    var before: seq<Line> := [Comment(RootfsNote), Blank];
    var after: seq<Line> := [Blank];
    assert RootfsSection(root) == before + ([Setting(Rootfs, root)] + after);
    ValuesAbsent(before, key);
    ValuesAbsent(after, key);
    ValuesAppend(before, [Setting(Rootfs, root)] + after, key);
    ValuesCons(Setting(Rootfs, root), after, key);
  }

  lemma SwapBlockValues(swap: Int64, key: Key)
    ensures Values(if swap != 0 then [Blank, Setting(MemswLimit, IntToString(swap))] else [], key)
      == (if swap != 0 && key == MemswLimit then [IntToString(swap)] else [])
  {
    if swap != 0 {
      ValuesCons(Blank, [Setting(MemswLimit, IntToString(swap))], key);
      ValuesCons(Setting(MemswLimit, IntToString(swap)), [], key);
    }
  }

  lemma MemoryHeadValues(text: string, key: Key)
    ensures Values([Blank, Setting(MemoryLimit, text), Setting(MemorySoftLimit, text)], key) ==
      (if key == MemoryLimit then [text] else []) + (if key == MemorySoftLimit then [text] else [])
  {
    var limit, soft := Setting(MemoryLimit, text), Setting(MemorySoftLimit, text);
    ValuesCons(soft, [], key);
    assert [limit, soft] == [limit] + [soft];
    ValuesCons(limit, [soft], key);
    assert [Blank, limit, soft] == [Blank] + [limit, soft];
    ValuesCons(Blank, [limit, soft], key);
  }

  lemma MemoryBlockValues(text: string, b: seq<Line>, key: Key)
    ensures Values([Blank, Setting(MemoryLimit, text), Setting(MemorySoftLimit, text)] + b + [Blank, Blank], key) ==
      (if key == MemoryLimit then [text] else []) + (if key == MemorySoftLimit then [text] else [])
      + Values(b, key)
  {
    var head: seq<Line> := [Blank, Setting(MemoryLimit, text), Setting(MemorySoftLimit, text)];
    var e: seq<Line> := [Blank, Blank];
    ValuesAppend(head, b, key);
    ValuesAppend(head + b, e, key);
    ValuesAbsent(e, key);
    MemoryHeadValues(text, key);
  }

  lemma LimitsValues(memory: Int64, swap: Int64, key: Key)
    ensures Values(LimitsSection(memory, swap), key) ==
      (if memory != 0 && key == MemoryLimit then [IntToString(memory)] else [])
      + (if memory != 0 && key == MemorySoftLimit then [IntToString(memory)] else [])
      + (if memory != 0 && swap != 0 && key == MemswLimit then [IntToString(swap)] else [])
  {
    if memory == 0 {
      ValuesAbsent([Blank], key);
    } else {
      var b: seq<Line> := if swap != 0 then [Blank, Setting(MemswLimit, IntToString(swap))] else [];
      MemoryBlockValues(IntToString(memory), b, key);
      SwapBlockValues(swap, key);
    }
  }

  /** Exactly one `lxc.utsname` line; it names the configured host name,
      or the container id when none is configured. */
  lemma RenderUtsname(c: Container, p: string)
    ensures Values(Render(c, p), Utsname) ==
      [if c.config.hostname != "" then c.config.hostname else c.id]
  {
    RenderTracked(c, p, Utsname);
    HostnameValues(c, Utsname);
    NetworkValues(c.network, Utsname);
    RootfsValues(c.root, Utsname);
    LimitsValues(c.config.memory, GetMemorySwap(c.config), Utsname);
  }

  /** Exactly one `lxc.rootfs` line, naming the container's root. */
  lemma RenderRootfs(c: Container, p: string)
    ensures Values(Render(c, p), Rootfs) == [c.root]
  {
    RenderTracked(c, p, Rootfs);
    HostnameValues(c, Rootfs);
    NetworkValues(c.network, Rootfs);
    RootfsValues(c.root, Rootfs);
    LimitsValues(c.config.memory, GetMemorySwap(c.config), Rootfs);
  }

  /** Exactly one `lxc.network.ipv4` line, giving the container's address
      and prefix length in CIDR notation. */
  lemma RenderIpv4(c: Container, p: string)
    ensures Values(Render(c, p), NetworkIpv4) ==
      [c.network.ipAddress + "/" + IntToString(c.network.ipPrefixLen)]
  {
    RenderTracked(c, p, NetworkIpv4);
    HostnameValues(c, NetworkIpv4);
    NetworkValues(c.network, NetworkIpv4);
    RootfsValues(c.root, NetworkIpv4);
    LimitsValues(c.config.memory, GetMemorySwap(c.config), NetworkIpv4);
  }

  /** The values of one memory key over the whole document. */
  lemma MemoryValues(c: Container, p: string, key: Key)
    requires key.MemoryLimit? || key.MemorySoftLimit? || key.MemswLimit?
    ensures Values(Render(c, p), key) ==
      Values(LimitsSection(c.config.memory, GetMemorySwap(c.config)), key)
  {
    RenderTracked(c, p, key);
    HostnameValues(c, key);
    NetworkValues(c.network, key);
    RootfsValues(c.root, key);
  }

  /** The limit and soft-limit lines appear, once each, exactly when
      Memory is non-zero, and then both carry Memory. */
  lemma RenderMemoryLimits(c: Container, p: string)
    ensures Values(Render(c, p), MemoryLimit) ==
      (if c.config.memory != 0 then [IntToString(c.config.memory)] else [])
    ensures Values(Render(c, p), MemorySoftLimit) == Values(Render(c, p), MemoryLimit)
  {
    MemoryValues(c, p, MemoryLimit);
    LimitsValues(c.config.memory, GetMemorySwap(c.config), MemoryLimit);
    MemoryValues(c, p, MemorySoftLimit);
    LimitsValues(c.config.memory, GetMemorySwap(c.config), MemorySoftLimit);
  }

  /** The swap-limit line appears exactly when Memory is non-zero and the
      swap limit is non-zero, and then carries the swap limit. */
  lemma RenderSwapLimit(c: Container, p: string)
    ensures Values(Render(c, p), MemswLimit) ==
      (if c.config.memory != 0 && GetMemorySwap(c.config) != 0
       then [IntToString(GetMemorySwap(c.config))] else [])
  {
    MemoryValues(c, p, MemswLimit);
    LimitsValues(c.config.memory, GetMemorySwap(c.config), MemswLimit);
  }

  /** MemorySwap = -1 with a memory limit: both memory lines remain, the
      swap line is gone. With MemorySwap >= 0 the swap line is there unless
      the doubled limit wraps to zero. */
  lemma RenderSwapSentinel(c: Container, p: string)
    requires c.config.memory != 0
    ensures c.config.memorySwap < 0 ==>
      Values(Render(c, p), MemoryLimit) == [IntToString(c.config.memory)] &&
      Values(Render(c, p), MemorySoftLimit) == [IntToString(c.config.memory)] &&
      Values(Render(c, p), MemswLimit) == []
    ensures c.config.memorySwap >= 0 && c.config.memory != MinInt64 ==>
      Values(Render(c, p), MemswLimit) == [IntToString(GetMemorySwap(c.config))]
  {
    RenderMemoryLimits(c, p);
    RenderSwapLimit(c, p);
    SwapLimitZero(c.config);
  }

  predicate NoMounts(lines: seq<Line>) {
    forall i | 0 <= i < |lines| :: !lines[i].Mount?
  }

  function MountOf(l: Line): seq<Line> {
    if l.Mount? then [l] else []
  }

  lemma {:induction false} MountsCons(l: Line, rest: seq<Line>)
    ensures Mounts([l] + rest) == MountOf(l) + Mounts(rest)
  {
    assert ([l] + rest)[1..] == rest;
  }

  lemma MountsNone(lines: seq<Line>)
    requires NoMounts(lines)
    ensures Mounts(lines) == []
  {
    forall l | l in lines ensures !l.Mount? {
      var i :| 0 <= i < |lines| && lines[i] == l;
    }
    MountsAbsent(lines);
  }

  lemma {:induction false} NoMountsAppend(a: seq<Line>, b: seq<Line>)
    requires NoMounts(a) && NoMounts(b)
    ensures NoMounts(a + b)
  {
    forall i | 0 <= i < |a + b| ensures !(a + b)[i].Mount? {
      if i < |a| {
        assert (a + b)[i] == a[i];
      } else {
        assert (a + b)[i] == b[i - |a|];
      }
    }
  }

  lemma DeviceNoMounts()
    ensures NoMounts(DeviceSection)
  {
    var g1, g2, g3, g4 := DenyAllDevices, NullZeroDevices, ConsoleDevices, RandomDevices;
    var g5, g6, g7 := PtsDevices, TuntapDevices, DisabledDevices;
    assert NoMounts(g1) && NoMounts(g2) && NoMounts(g3) && NoMounts(g4);
    assert NoMounts(g5) && NoMounts(g6) && NoMounts(g7);
    NoMountsAppend(g1, g2);
    NoMountsAppend(g1 + g2, g3);
    NoMountsAppend(g1 + g2 + g3, g4);
    NoMountsAppend(g1 + g2 + g3 + g4, g5);
    NoMountsAppend(g1 + g2 + g3 + g4 + g5, g6);
    NoMountsAppend(g1 + g2 + g3 + g4 + g5 + g6, g7);
  }

  /** The sections before the mount section hold no mount entry. */
  lemma LeadingNoMounts(c: Container)
    ensures NoMounts(HostnameSection(c) + NetworkSection(c.network) + RootfsSection(c.root)
      + TerminalSection + DeviceSection)
  {
    var h, n, r, t := HostnameSection(c), NetworkSection(c.network), RootfsSection(c.root), TerminalSection;
    assert NoMounts(h) && NoMounts(n) && NoMounts(r) && NoMounts(t);
    DeviceNoMounts();
    NoMountsAppend(h, n);
    NoMountsAppend(h + n, r);
    NoMountsAppend(h + n + r, t);
    NoMountsAppend(h + n + r + t, DeviceSection);
  }

  /** Neither do the sections after it. */
  lemma TrailingNoMounts(memory: Int64, swap: Int64)
    ensures NoMounts(CapabilitySection + LimitsSection(memory, swap))
  {
    assert NoMounts(CapabilitySection) && NoMounts(LimitsSection(memory, swap));
    NoMountsAppend(CapabilitySection, LimitsSection(memory, swap));
  }

  /** Only the mount section holds mount entries in effect. */
  lemma RenderMountsInSection(c: Container, p: string)
    ensures Mounts(Render(c, p)) == Mounts(MountSection(c, p))
  {
    var front := HostnameSection(c) + NetworkSection(c.network) + RootfsSection(c.root)
      + TerminalSection + DeviceSection;
    var m := MountSection(c, p);
    var back := CapabilitySection + LimitsSection(c.config.memory, GetMemorySwap(c.config));
    assert Render(c, p) == front + m + back;
    LeadingNoMounts(c);
    MountsNone(front);
    TrailingNoMounts(c.config.memory, GetMemorySwap(c.config));
    MountsNone(back);
    MountsAppend(front, m);
    MountsAppend(front + m, back);
  }

  lemma StandardMountsMounts(root: string)
    ensures Mounts(StandardMounts(root)) == [
      Mount(true, "proc", root + "/proc", ProcFs),
      Mount(true, "sysfs", root + "/sys", SysFs),
      Mount(true, "devpts", root + "/dev/pts", DevPtsFs) ]
  {
    var std := StandardMounts(root);
    var tail := std[4..];
    assert std == [std[0]] + ([std[1]] + ([std[2]] + ([std[3]] + tail)));
    MountsNone(tail);
    MountsCons(std[3], tail);
    MountsCons(std[2], [std[3]] + tail);
    MountsCons(std[1], [std[2]] + ([std[3]] + tail));
    MountsCons(std[0], [std[1]] + ([std[2]] + ([std[3]] + tail)));
  }

  lemma InitMountMounts(c: Container)
    ensures Mounts(InitMount(c)) == [Mount(true, c.sysInitPath, c.root + "/sbin/init", ReadOnlyBind)]
  {
    var init := InitMount(c);
    assert init == [init[0]] + ([init[1]] + [init[2]]);
    MountsCons(init[2], []);
    MountsCons(init[1], [init[2]]);
    MountsCons(init[0], [init[1]] + [init[2]]);
  }

  lemma ResolvConfMountMounts(root: string, p: string)
    ensures Mounts(ResolvConfMount(root, p)) == [Mount(false, p, root + "/etc/resolv.conf", ReadOnlyBind)]
  {
    var r := ResolvConfMount(root, p);
    assert r == [r[0]] + ([r[1]] + ([r[2]] + [r[3]]));
    MountsCons(r[3], []);
    MountsCons(r[2], [r[3]]);
    MountsCons(r[1], [r[2]] + [r[3]]);
    MountsCons(r[0], [r[1]] + ([r[2]] + [r[3]]));
  }

  lemma MountSectionMounts(c: Container, p: string)
    ensures Mounts(MountSection(c, p)) == [
      Mount(true, "proc", c.root + "/proc", ProcFs),
      Mount(true, "sysfs", c.root + "/sys", SysFs),
      Mount(true, "devpts", c.root + "/dev/pts", DevPtsFs),
      Mount(true, c.sysInitPath, c.root + "/sbin/init", ReadOnlyBind),
      Mount(false, p, c.root + "/etc/resolv.conf", ReadOnlyBind) ]
  {
    MountsAppend(StandardMounts(c.root), InitMount(c));
    MountsAppend(StandardMounts(c.root) + InitMount(c), ResolvConfMount(c.root, p));
    StandardMountsMounts(c.root);
    InitMountMounts(c);
    ResolvConfMountMounts(c.root, p);
  }

  /** The five bind mounts in effect, in order: proc, sysfs, a new pts
      instance, the init binary (from SysInitPath) and the resolver file
      (from the resolved path, written without a blank after `=`). */
  lemma RenderMounts(c: Container, p: string)
    ensures Mounts(Render(c, p)) == [
      Mount(true, "proc", c.root + "/proc", ProcFs),
      Mount(true, "sysfs", c.root + "/sys", SysFs),
      Mount(true, "devpts", c.root + "/dev/pts", DevPtsFs),
      Mount(true, c.sysInitPath, c.root + "/sbin/init", ReadOnlyBind),
      Mount(false, p, c.root + "/etc/resolv.conf", ReadOnlyBind) ]
  {
    RenderMountsInSection(c, p);
    MountSectionMounts(c, p);
  }

  /** Every mount in effect targets a path under the container's root. */
  lemma MountsUnderRoot(c: Container, p: string)
    ensures forall m | m in Mounts(Render(c, p)) :: m.Mount? && c.root <= m.target
  {
    RenderMounts(c, p);
    PrefixOfConcat(c.root, "/proc");
    PrefixOfConcat(c.root, "/sys");
    PrefixOfConcat(c.root, "/dev/pts");
    PrefixOfConcat(c.root, "/sbin/init");
    PrefixOfConcat(c.root, "/etc/resolv.conf");
  }

  /** The resolver mount's line as written (the fifth mount of
      `RenderMounts`): no blank between `=` and the resolved path, then the
      target under the root and a read-only bind. */
  lemma ResolvConfLine(root: string, p: string)
    ensures Text(Mount(false, p, root + "/etc/resolv.conf", ReadOnlyBind)) ==
      "lxc.mount.entry =" + p + " " + root + "/etc/resolv.conf none bind,ro 0 0"
  {
    var tail := root + "/etc/resolv.conf";
    assert Text(Mount(false, p, tail, ReadOnlyBind)) ==
      MountKey + " =" + p + " " + tail + " " + "none bind,ro 0 0";
  }

  /** The document of consecutive parts is the concatenation of their
      documents: each line contributes its text and a newline, in order. */
  lemma {:induction false} SerializeAppend(a: seq<Line>, b: seq<Line>)
    ensures Serialize(a + b) == Serialize(a) + Serialize(b)
    decreases |a|
  {
    if a == [] {
      assert a + b == b;
    } else {
      assert (a + b)[1..] == a[1..] + b;
      SerializeAppend(a[1..], b);
    }
  }

  /** Line `i` of a document: its text and a newline, between the text of
      the lines before it and that of the lines after it. */
  lemma {:induction false} SerializeAt(lines: seq<Line>, i: nat)
    requires i < |lines|
    ensures Serialize(lines) ==
      Serialize(lines[..i]) + Text(lines[i]) + "\n" + Serialize(lines[i + 1..])
  {
    assert lines == lines[..i] + lines[i..];
    SerializeAppend(lines[..i], lines[i..]);
    assert lines[i..][0] == lines[i] && lines[i..][1..] == lines[i + 1..];
  }

  lemma {:induction false} SettingAt(lines: seq<Line>, key: Key, v: string)
    requires v in Values(lines, key)
    ensures exists i :: 0 <= i < |lines| && lines[i] == Setting(key, v)
                decreases |lines|
  {
    if lines[0].Setting? && lines[0].key == key && lines[0].value == v {
      assert lines[0] == Setting(key, v);
    } else {
      SettingAt(lines[1..], key, v);
      var j :| 0 <= j < |lines[1..]| && lines[1..][j] == Setting(key, v);
      assert lines[j + 1] == Setting(key, v);
    }
  }

  lemma {:induction false} MountAt(lines: seq<Line>, m: Line)
    requires m in Mounts(lines)
    ensures exists i :: 0 <= i < |lines| && lines[i] == m
                decreases |lines|
  {
    if lines[0].Mount? && lines[0] == m {
    } else {
      MountAt(lines[1..], m);
      var j :| 0 <= j < |lines[1..]| && lines[1..][j] == m;
      assert lines[j + 1] == m;
    }
  }

  /** A setting in effect is a line of the text: its key, ` = ` and its
      value, ended by a newline. */
  lemma SettingInText(lines: seq<Line>, key: Key, v: string)
    requires v in Values(lines, key)
    ensures exists i :: 0 <= i < |lines| &&
                Serialize(lines) == Serialize(lines[..i]) + Text(Setting(key, v)) + "\n" + Serialize(lines[i + 1..])
  {
    SettingAt(lines, key, v);
    var i :| 0 <= i < |lines| && lines[i] == Setting(key, v);
    SerializeAt(lines, i);
  }

  /** A mount entry in effect is a line of the text. */
  lemma MountInText(lines: seq<Line>, m: Line)
    requires m in Mounts(lines)
    ensures exists i :: 0 <= i < |lines| &&
                Serialize(lines) == Serialize(lines[..i]) + Text(m) + "\n" + Serialize(lines[i + 1..])
  {
    MountAt(lines, m);
    var i :| 0 <= i < |lines| && lines[i] == m;
    SerializeAt(lines, i);
  }

  /** The host-name setting is a line of the document text. */
  lemma DocumentUtsname(c: Container, p: string)
    ensures exists i :: 0 <= i < |Render(c, p)| &&
                Document(c, p) == Serialize(Render(c, p)[..i]) + Text(Setting(Utsname, UtsName(c))) + "\n"
                  + Serialize(Render(c, p)[i + 1..])
  {
    RenderUtsname(c, p);
    SettingInText(Render(c, p), Utsname, UtsName(c));
  }

  lemma ResolvConfInText(lines: seq<Line>, root: string, p: string)
    requires Mount(false, p, root + "/etc/resolv.conf", ReadOnlyBind) in Mounts(lines)
    ensures exists i :: 0 <= i < |lines| &&
                Serialize(lines) == Serialize(lines[..i])
                  + ("lxc.mount.entry =" + p + " " + root + "/etc/resolv.conf none bind,ro 0 0") + "\n"
                  + Serialize(lines[i + 1..])
  {
    var m := Mount(false, p, root + "/etc/resolv.conf", ReadOnlyBind);
    MountAt(lines, m);
    var i :| 0 <= i < |lines| && lines[i] == m;
    SerializeAt(lines, i);
    ResolvConfLine(root, p);
  }

  /** The resolver mount is a line of the document text, written exactly
      as the template writes it. */
  lemma DocumentResolvConf(c: Container, p: string)
    ensures exists i :: 0 <= i < |Render(c, p)| &&
                Document(c, p) == Serialize(Render(c, p)[..i])
                  + ("lxc.mount.entry =" + p + " " + c.root + "/etc/resolv.conf none bind,ro 0 0") + "\n"
                  + Serialize(Render(c, p)[i + 1..])
  {
    RenderMounts(c, p);
    assert Mounts(Render(c, p))[4] == Mount(false, p, c.root + "/etc/resolv.conf", ReadOnlyBind);
    ResolvConfInText(Render(c, p), c.root, p);
  }

  lemma PrefixOfConcat(a: string, b: string)
    ensures a <= a + b
  {
    assert (a + b)[..|a|] == a;
  }
}
