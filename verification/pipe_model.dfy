/**
 * The immutable snapshot of one pipe instance, as the enumerator builds it and
 * the watcher compares it: host, name, hint, connection counts and ACL.
 */
module PipeModels {
  import opened Wrappers
  import opened Exceptions
  import opened FixedWidth
  import opened AclModels

  datatype PipeModel = PipeModel(
    host: string,
    name: string,
    hint: string,
    maxConnections: int32,       // negative: unlimited instances
    acl: Acl,
    activeConnections: uint32)

  /**
   * `GetHintFor`: the service behind a well-known pipe name, by an exact,
   * case-sensitive switch; every other name has the empty hint.
   */
  function HintFor(name: string): string
  {
    match name
    case "atsvc" => "Scheduler service"
    case "AudioSrv" => "Windows Audio service"
    case "browser" => "Computer Browser (ntsvcs alias)"
    case "cert" => "Certificate services"
    case "Ctx_Winstation_API_Service" => "Terminal Services remote management"
    case "DAV RPC SERVICE" => "WebDAV client"
    case "dnsserver" => "DNS Server"
    case "epmapper" => "RPC endpoint mapper"
    case "eventlog" => "Eventlog service (ntsvcs alias)"
    case "HydraLsPipe" => "Terminal Server Licensing"
    case "InitShutdown" => "(Remote) system shutdown"
    case "keysvc" => "Cryptographic services"
    case "locator" => "RPC Locator service"
    case "llsrpc" => "Licensing Logging service"
    case "lsarpc" => "LSA access (lsass alias)"
    case "msgsvc" => "Messenger service (ntsvcs alias)"
    case "netdfs" => "Distributed File System service"
    case "netlogon" => "Net Logon service (lsass alias)"
    case "ntsvcs" => "Plug and Play service"
    case "policyagent" => "IPSEC Policy Agent (Windows 2000)"
    case "ipsec" => "IPsec Services"
    case "ProfMapApi" => "Userenv"
    case "protected_storage" => "Protected Storage"
    case "ROUTER" => "Remote Access"
    case "samr" => "SAM access (lsass alias)"
    case "scerpc" => "Security Configuration Editor (SCE)"
    case "SECLOGON" => "Secondary logon service"
    case "SfcApi" => "Windows File Protection"
    case "spoolss" => "Spooler service"
    case "srvsvc" => "Server service (ntsvcs alias)"
    case "ssdpsrv" => "SSDP service"
    case "svcctl" => "Services control manager (ntsvcs alias)"
    case "tapsrv" => "Telephony service"
    case "trkwks" => "Distributed Link Tracking Client"
    case "W32TIME (ntsvcs alias)" => "Windows Time (Windows 2000 and XP)"
    case "W32TIME_ALT" => "Windows Time (Windows Server 2003)"
    case "winlogonrpc" => "Winlogon"
    case "winreg" => "Remote registry service"
    case "winspipe" => "WINS service"
    case "wkssvc" => "Workstation service (ntsvcs alias)"
    case _ => ""
  }

  /** The invariant every constructed snapshot keeps: its hint is the hint of its name. */
  ghost predicate Valid(p: PipeModel) {
    p.hint == HintFor(p.name)
  }

  /** The PipeModel constructor: a null host or name throws, a null ACL becomes the empty ACL. */
  function New(host: Option<string>, name: Option<string>, maxConn: int32, activeConn: uint32,
               acl: Option<Acl>): (r: Result<PipeModel, Exception>)
    ensures r.Failure? <==> host.None? || name.None?
    ensures r.Failure? ==> r.error == ArgumentNull
    ensures r.Success? ==> Valid(r.value)
    ensures r.Success? ==> r.value.host == host.value && r.value.name == name.value
    ensures r.Success? ==> r.value.maxConnections == maxConn && r.value.activeConnections == activeConn
    ensures r.Success? && acl.None? ==> r.value.acl == EmptyAcl
    ensures r.Success? && acl.Some? ==> r.value.acl == acl.value
  {
    if host.None? || name.None? then Failure(ArgumentNull)
    else Success(Create(host.value, name.value, maxConn, activeConn, acl))
  }

  /** The constructor for arguments known to be non-null. */
  function Create(host: string, name: string, maxConn: int32, activeConn: uint32, acl: Option<Acl>): (p: PipeModel)
    ensures Valid(p)
    ensures p.host == host && p.name == name
    ensures p.maxConnections == maxConn && p.activeConnections == activeConn
    ensures acl.None? ==> p.acl == EmptyAcl
    ensures acl.Some? ==> p.acl == acl.value
  {
    PipeModel(host, name, HintFor(name), maxConn, acl.GetOr(EmptyAcl), activeConn)
  }

  /** `Path`: the UNC path `\\host\name`. */
  function Path(p: PipeModel): (path: string)
    ensures |path| == |p.host| + |p.name| + 3
    ensures path[..2] == ['\\', '\\'] && path[2 + |p.host|] == '\\'
    ensures path[2..2 + |p.host|] == p.host && path[3 + |p.host|..] == p.name
  {
    "\\\\" + p.host + "\\" + p.name
  }

  /** `PipeModel.Equals(PipeModel other)`: every field, the ACL through its own equality. */
  function Equals(self: PipeModel, other: PipeModel): (r: bool)
    ensures r <==> self == other
  {
    self.host == other.host
    && self.name == other.name
    && self.activeConnections == other.activeConnections
    && self.maxConnections == other.maxConnections
    && AclEquals(self.acl, Some(other.acl))
    && self.hint == other.hint
  }

  /** `PipeModel ==`. */
  function OpEq(left: PipeModel, right: PipeModel): (r: bool)
    ensures r <==> left == right
  {
    Equals(left, right)
  }

  /** `PipeModel !=`: exactly the negation of `==`. */
  function OpNe(left: PipeModel, right: PipeModel): (r: bool)
    ensures r <==> !OpEq(left, right)
    ensures r <==> left != right
  {
    !OpEq(left, right)
  }

  /** Equal names give equal hints, so two snapshots of one pipe never differ by hint alone. */
  lemma HintDeterminedByName(p: PipeModel, q: PipeModel)
    requires Valid(p) && Valid(q) && p.name == q.name
    ensures p.hint == q.hint
  {
  }

  /** Snapshot equality is an equivalence relation. */
  lemma EqualsIsEquivalence(p: PipeModel, q: PipeModel, s: PipeModel)
    ensures Equals(p, p)
    ensures Equals(p, q) <==> Equals(q, p)
    ensures Equals(p, q) && Equals(q, s) ==> Equals(p, s)
  {
  }

  /** Two well-known names and their hints. */
  lemma HintExamples()
    ensures HintFor("spoolss") == "Spooler service"
    ensures HintFor("lsarpc") == "LSA access (lsass alias)"
  {
  }

  /** Unknown names have no hint; the lookup is case-sensitive. */
  lemma HintUnknownExamples()
    ensures HintFor("totally-unknown-name") == ""
    ensures HintFor("Spoolss") == ""
  {
  }

  /**
   * For a host without a backslash (a host name never has one), the path
   * determines host and name: keying a cache by path keys it by pipe identity.
   */
  lemma {:induction false} PathDeterminesIdentity(p: PipeModel, q: PipeModel)
    requires forall i :: 0 <= i < |p.host| ==> p.host[i] != '\\'
    requires forall i :: 0 <= i < |q.host| ==> q.host[i] != '\\'
    ensures Path(p) == Path(q) <==> p.host == q.host && p.name == q.name
  {
    var a, b := Path(p), Path(q);
    if a == b {
      assert p.host == a[2..2 + |p.host|];
    }
  }
}
