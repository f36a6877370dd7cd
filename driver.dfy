/** The package state of lxc_template.go and the startup routine that
    sets it: `checkResolvConf` decides which resolver file containers get
    and records it in `resolvConfPath`, which the template reads through
    `getResolvConfPath` for every container rendered afterwards.

    The calls into the operating system are inputs here: what reading
    /etc/resolv.conf returned, what the bridge interface's address list
    was (each address already through `net.ParseCIDR`), and whether
    creating /var/lib/docker and writing the copy succeeded. Each `panic`
    of the source is an error result. */
module Driver {
  import opened Wrappers
  import opened LxcConfig
  import opened Loopback

  /** The reasons startup stops; each is a panic in the source. */
  datatype StartupError =
    | ReadFailed         // /etc/resolv.conf could not be read
    | InterfaceFailed    // the bridge interface or its address list could not be had
    | NoAddress          // the bridge has no address, so `a[0]` is out of range
    | ParseFailed        // `net.ParseCIDR` refused the first address
    | MkdirFailed        // /var/lib/docker could not be created
    | WriteFailed        // the rewritten copy could not be written

  /** One address of the bridge interface, as `net.ParseCIDR` takes it: the
      text of its IP part, or a parse failure. */
  datatype BridgeAddr = Cidr(ip: string) | Unparsable

  /** What startup settles: the resolver file containers get, and the
      content written to the copy, if one was written. */
  datatype Resolution = Resolution(path: string, written: Option<string>)

  /** `checkResolvConf` as a function of what the operating system
      answered, in the order the source asks: the host's resolver file (None
      when it cannot be read) and the bridge's addresses (None when the
      interface or its address list cannot be had). */
  function Reconcile(hostFile: Option<string>, bridge: Option<seq<BridgeAddr>>,
                     mkdirOk: bool, writeOk: bool): (r: Result<Resolution, StartupError>)
    ensures hostFile.None? ==> r == Err(ReadFailed)
    ensures hostFile.Some? && bridge.None? ==> r == Err(InterfaceFailed)
    ensures hostFile.Some? && bridge == Some([]) ==> r == Err(NoAddress)
    ensures hostFile.Some? && bridge.Some? && |bridge.value| > 0 && bridge.value[0].Unparsable? ==>
      r == Err(ParseFailed)
    ensures (hostFile.Some? && bridge.Some? && |bridge.value| > 0 && bridge.value[0].Cidr? &&
             RewriteLoopback(hostFile.value, bridge.value[0].ip) == hostFile.value) ==>
      r == Ok(Resolution(HostResolvConf, None))
    ensures (hostFile.Some? && bridge.Some? && |bridge.value| > 0 && bridge.value[0].Cidr? &&
             RewriteLoopback(hostFile.value, bridge.value[0].ip) != hostFile.value) ==>
      r == (if !mkdirOk then Err(MkdirFailed)
            else if !writeOk then Err(WriteFailed)
            else Ok(Resolution(DockerResolvConf, Some(RewriteLoopback(hostFile.value, bridge.value[0].ip)))))
    ensures (r == Err(MkdirFailed) || r == Err(WriteFailed)) ==>
      hostFile.Some? && bridge.Some? && |bridge.value| > 0 && bridge.value[0].Cidr? &&
      RewriteLoopback(hostFile.value, bridge.value[0].ip) != hostFile.value
    ensures r.Ok? ==>
      hostFile.Some? && bridge.Some? && |bridge.value| > 0 && bridge.value[0].Cidr? &&
      var content, ip := hostFile.value, bridge.value[0].ip;
      r.value.path == ResolvConfPathFor(content, ip) &&
      (r.value.written.Some? <==> r.value.path == DockerResolvConf) &&
      (r.value.written.Some? ==> r.value.written.value == RewriteLoopback(content, ip))
  {
    if hostFile.None? then Err(ReadFailed)
    else if bridge.None? then Err(InterfaceFailed)
    else if |bridge.value| == 0 then Err(NoAddress)
    else if bridge.value[0].Unparsable? then Err(ParseFailed)
    else
      var content, ip := hostFile.value, bridge.value[0].ip;
      var cpy := RewriteLoopback(content, ip);
      if cpy != content then
        if !mkdirOk then Err(MkdirFailed)
        else if !writeOk then Err(WriteFailed)
        else Ok(Resolution(DockerResolvConf, Some(cpy)))
      else Ok(Resolution(HostResolvConf, None))
  }

  /** A resolver file without loopback-style entries is used as it is, and
      nothing is written, so the file-system calls cannot fail startup. */
  lemma ReconcileNoLoopback(content: string, addrs: seq<BridgeAddr>, mkdirOk: bool, writeOk: bool)
    requires |addrs| > 0 && addrs[0].Cidr?
    requires forall q | 0 <= q < |content| :: !Candidate(content, q)
    ensures Reconcile(Some(content), Some(addrs), mkdirOk, writeOk) == Ok(Resolution(HostResolvConf, None))
  {
    NoLoopbackUnchanged(content, addrs[0].ip);
  }

  /** A resolver file with a loopback-style entry is rewritten to the
      bridge's address and containers get the copy, unless writing it
      fails. */
  lemma ReconcileLoopback(content: string, addrs: seq<BridgeAddr>, q: nat, mkdirOk: bool, writeOk: bool)
    requires |addrs| > 0 && addrs[0].Cidr?
    requires Candidate(content, q)
    requires |addrs[0].ip| >= 3 && addrs[0].ip[..3] != "127"
    ensures Reconcile(Some(content), Some(addrs), mkdirOk, writeOk) ==
      if !mkdirOk then Err(MkdirFailed)
      else if !writeOk then Err(WriteFailed)
      else Ok(Resolution(DockerResolvConf, Some(RewriteLoopback(content, addrs[0].ip))))
  {
    LoopbackChanged(content, addrs[0].ip, q);
  }

  /** Only the first address counts: the rest of the list is never looked at. */
  lemma ReconcileFirstAddress(hostFile: Option<string>, a: BridgeAddr, rest1: seq<BridgeAddr>,
                              rest2: seq<BridgeAddr>, mkdirOk: bool, writeOk: bool)
    ensures Reconcile(hostFile, Some([a] + rest1), mkdirOk, writeOk) ==
            Reconcile(hostFile, Some([a] + rest2), mkdirOk, writeOk)
  {
  }

  /** The package-level variables of lxc_template.go. */
  class Daemon {
    /** `resolvConfPath`: empty until `checkResolvConf` has run. */
    var resolvConfPath: string
    /** What was last written to /var/lib/docker/resolv.conf, if anything. */
    var persisted: Option<string>

    constructor ()
      ensures resolvConfPath == "" && persisted == None
    {
      resolvConfPath := "";
      persisted := None;
    }

    /** `getResolvConfPath`. */
    function GetResolvConfPath(): string
      reads this
    {
      resolvConfPath
    }

    /** `checkResolvConf`: on success the state records the resolution;
        on failure (a panic in the source, which happens before any
        assignment) the path is unchanged, and so is the copy unless it
        was the write itself that failed. */
    method CheckResolvConf(hostFile: Option<string>, bridge: Option<seq<BridgeAddr>>,
                           mkdirOk: bool, writeOk: bool) returns (r: Result<Resolution, StartupError>)
      modifies this
      ensures r == Reconcile(hostFile, bridge, mkdirOk, writeOk)
      ensures r.Ok? ==> resolvConfPath == r.value.path
      ensures r.Ok? ==> persisted == (if r.value.written.Some? then r.value.written else old(persisted))
      ensures r.Err? ==> resolvConfPath == old(resolvConfPath)
      ensures r.Err? && r != Err(WriteFailed) ==> persisted == old(persisted)
    {
      if hostFile.None? {
        return Err(ReadFailed);
      }
      var content := hostFile.value;
      if bridge.None? {
        return Err(InterfaceFailed);
      }
      var addrs := bridge.value;
      if |addrs| == 0 {
        return Err(NoAddress);
      }
      if addrs[0].Unparsable? {
        return Err(ParseFailed);
      }
      var hostIp := addrs[0].ip;
      var cpy := ReplaceLoopback(content, hostIp);
      if cpy != content {
        if !mkdirOk {
          return Err(MkdirFailed);
        }
        if !writeOk {
          return Err(WriteFailed);
        }
        persisted := Some(cpy);
        resolvConfPath := DockerResolvConf;
        r := Ok(Resolution(DockerResolvConf, Some(cpy)));
      } else {
        resolvConfPath := HostResolvConf;
        r := Ok(Resolution(HostResolvConf, None));
      }
    }

    /** Executing the compiled template for container `c`: the document
        with the resolver mount taken from `getResolvConfPath`. */
    method Generate(c: Container) returns (doc: string)
      ensures doc == Document(c, GetResolvConfPath())
    {
      doc := Document(c, resolvConfPath);
    }
  }

  /** Startup then rendering: once the host's resolver file had a
      loopback-style entry, every container bind-mounts the rewritten copy
      from /var/lib/docker. */
  method StartupThenRender(content: string, ip: string, q: nat, c: Container) returns (mounts: seq<Line>)
    requires Candidate(content, q)
    requires |ip| >= 3 && ip[..3] != "127"
    ensures |mounts| == 5
    ensures mounts[4] == Mount(false, DockerResolvConf, c.root + "/etc/resolv.conf", ReadOnlyBind)
  {
    var d := new Daemon();
    var r := d.CheckResolvConf(Some(content), Some([Cidr(ip)]), true, true);
    ReconcileLoopback(content, [Cidr(ip)], q, true, true);
    RenderMounts(c, d.resolvConfPath);
    mounts := Mounts(Render(c, d.resolvConfPath));
  }
}
