/**
 The driver record and its configuration and accessor rules (rackhd.go).

 Go's `Driver` embeds libmachine's `BaseDriver` and also declares its own
 `SSHUser` and `SSHPort` fields, which shadow the embedded ones. Both copies
 are kept here: `base.sshUser`/`base.sshPort` are what `NewDriver` fills in,
 while `sshUser`/`sshPort` are what `SetConfigFromFlags`, `Create` and the
 SSH executor read and write.
 */
module DriverConfig {
  import opened Wrappers
  import opened Strings

  const DefaultEndpoint := "localhost:8080"
  const DefaultTransport := "http"
  const DefaultSSHUser := "root"
  const DefaultSSHPassword := "root"
  const DefaultSSHPort := 22

  /** The fields of libmachine's `BaseDriver` that the driver touches. */
  datatype BaseDriver = BaseDriver(
    ipAddress: string,
    machineName: string,
    storePath: string,
    sshUser: string,
    sshPort: int,
    sshKeyPath: string)

  datatype Driver = Driver(
    base: BaseDriver,
    endpoint: string,
    nodeId: string,
    sshUser: string,
    sshPassword: string,
    sshPort: int,
    sshKey: string,
    transport: string)

  /** `NewDriver`: defaults for the endpoint, password and transport, and for the embedded user and port. */
  function NewDriver(hostName: string, storePath: string): (d: Driver)
    ensures d.base == BaseDriver("", hostName, storePath, DefaultSSHUser, DefaultSSHPort, "")
    ensures d.endpoint == DefaultEndpoint && d.sshPassword == DefaultSSHPassword && d.transport == DefaultTransport
    ensures d.nodeId == "" && d.sshKey == ""
    ensures d.sshUser == "" && d.sshPort == 0
  {
    Driver(
      base := BaseDriver("", hostName, storePath, DefaultSSHUser, DefaultSSHPort, ""),
      endpoint := DefaultEndpoint, nodeId := "", sshUser := "", sshPassword := DefaultSSHPassword,
      sshPort := 0, sshKey := "", transport := DefaultTransport)
  }

  const EndpointFlag := "rackhd-endpoint"
  const NodeIdFlag := "rackhd-node-id"
  const TransportFlag := "rackhd-transport"
  const SSHUserFlag := "rackhd-ssh-user"
  const SSHPasswordFlag := "rackhd-ssh-password"
  const SSHPortFlag := "rackhd-ssh-port"

  /** The host's parsed flag values; a name that is absent reads as Go's zero value. */
  datatype DriverOptions = DriverOptions(strings: map<string, string>, ints: map<string, int>) {
    function String(name: string): string {
      if name in strings then strings[name] else ""
    }
    function Int(name: string): int {
      if name in ints then ints[name] else 0
    }
  }

  datatype ConfigError = MissingNodeId

  /**
   `SetConfigFromFlags`. The endpoint and node ID are assigned first; an empty
   node ID then stops the setter with an error and leaves every other field as
   it was. Otherwise the SSH fields are copied from the flags, and the transport
   is "https" when the SSH port is 443 and the transport flag otherwise.
   */
  function SetConfigFromFlags(d: Driver, flags: DriverOptions): (r: (Outcome<ConfigError>, Driver))
    ensures r.1.endpoint == flags.String(EndpointFlag) && r.1.nodeId == flags.String(NodeIdFlag)
    ensures r.1.base == d.base && r.1.sshKey == d.sshKey
    ensures r.0.Fail? <==> flags.String(NodeIdFlag) == ""
    ensures r.0.Fail? ==>
      && r.1.sshUser == d.sshUser && r.1.sshPassword == d.sshPassword
      && r.1.sshPort == d.sshPort && r.1.transport == d.transport
    ensures r.0.Pass? ==>
      && r.1.nodeId != ""
      && r.1.sshUser == flags.String(SSHUserFlag)
      && r.1.sshPassword == flags.String(SSHPasswordFlag)
      && r.1.sshPort == flags.Int(SSHPortFlag)
      && (r.1.sshPort == 443 ==> r.1.transport == "https")
      && (r.1.sshPort != 443 ==> r.1.transport == flags.String(TransportFlag))
  {
    var d1 := d.(endpoint := flags.String(EndpointFlag), nodeId := flags.String(NodeIdFlag));
    if d1.nodeId == "" then
      (Fail(MissingNodeId), d1)
    else
      var port := flags.Int(SSHPortFlag);
      var d2 := d1.(sshUser := flags.String(SSHUserFlag), sshPassword := flags.String(SSHPasswordFlag), sshPort := port);
      (Pass, if port == 443 then d2.(transport := "https") else d2.(transport := flags.String(TransportFlag)))
  }

  /** Applying the same flags twice gives the same driver and outcome as applying them once. */
  lemma SetConfigIdempotent(d: Driver, flags: DriverOptions)
    ensures SetConfigFromFlags(SetConfigFromFlags(d, flags).1, flags) == SetConfigFromFlags(d, flags)
  {
  }

  /** The configured driver does not depend on what the driver held before, once the node ID is given. */
  lemma SetConfigForgetsPrevious(d: Driver, e: Driver, flags: DriverOptions)
    requires d.base == e.base && d.sshKey == e.sshKey
    requires flags.String(NodeIdFlag) != ""
    ensures SetConfigFromFlags(d, flags) == SetConfigFromFlags(e, flags)
  {
  }

  datatype AccessError = IPAddressNotSet

  /** `GetIP`: the resolved address, or an error exactly when none is set. */
  function GetIP(d: Driver): (r: Result<string, AccessError>)
    ensures r.Failure? <==> d.base.ipAddress == ""
    ensures r.Success? ==> r.value == d.base.ipAddress && r.value != ""
  {
    if d.base.ipAddress == "" then Failure(IPAddressNotSet) else Success(d.base.ipAddress)
  }

  const URLScheme := "tcp://"
  const DockerPortSuffix := ":2376"

  /** `GetURL`: the Docker endpoint on the resolved address, or `GetIP`'s error. */
  function GetURL(d: Driver): (r: Result<string, AccessError>)
    ensures r.Failure? <==> GetIP(d).Failure?
    ensures r.Failure? ==> r.error == GetIP(d).error
    ensures r.Success? ==> r.value == "tcp://" + d.base.ipAddress + ":2376"
  {
    match GetIP(d)
    case Failure(e) => Failure(e)
    case Success(ip) => Success(URLScheme + ip + DockerPortSuffix)
  }

  /** The host part of a URL of the shape `GetURL` builds. */
  function URLHost(url: string): Option<string> {
    if |url| >= |URLScheme| + |DockerPortSuffix|
       && url[..|URLScheme|] == URLScheme
       && url[|url| - |DockerPortSuffix|..] == DockerPortSuffix
    then Some(url[|URLScheme|..|url| - |DockerPortSuffix|])
    else None
  }

  /** The URL `GetURL` returns gives back exactly the driver's address. */
  lemma GetURLRoundTrip(d: Driver)
    requires GetURL(d).Success?
    ensures URLHost(GetURL(d).value) == Some(d.base.ipAddress)
  {
    var url := GetURL(d).value;
    assert url == URLScheme + d.base.ipAddress + DockerPortSuffix;
    assert url[..|URLScheme|] == URLScheme;
    assert url[|url| - |DockerPortSuffix|..] == DockerPortSuffix;
    assert url[|URLScheme|..|url| - |DockerPortSuffix|] == d.base.ipAddress;
  }

  /** `GetSSHUsername`: the configured user, defaulting (and storing) "root" when it is empty. */
  function GetSSHUsername(d: Driver): (r: (string, Driver))
    ensures r.0 != ""
    ensures d.sshUser != "" ==> r.0 == d.sshUser && r.1 == d
    ensures d.sshUser == "" ==> r.0 == DefaultSSHUser
    ensures r.1 == d.(sshUser := r.0)
  {
    if d.sshUser == "" then (DefaultSSHUser, d.(sshUser := DefaultSSHUser)) else (d.sshUser, d)
  }

  /** Asking twice returns the same name and changes nothing more. */
  lemma GetSSHUsernameIdempotent(d: Driver)
    ensures GetSSHUsername(GetSSHUsername(d).1) == GetSSHUsername(d)
  {
  }

  /**
   A fresh driver has no address, so `GetIP` and `GetURL` fail, and its own
   user field is still empty (the default went to the shadowed copy), so
   `GetSSHUsername` falls back to "root".
   */
  lemma NewDriverAccessors(hostName: string, storePath: string)
    ensures GetIP(NewDriver(hostName, storePath)) == Failure(IPAddressNotSet)
    ensures GetURL(NewDriver(hostName, storePath)) == Failure(IPAddressNotSet)
    ensures GetSSHUsername(NewDriver(hostName, storePath)).0 == DefaultSSHUser
  {
  }

  const KeyFileName := "id_rsa"
  const PublicKeySuffix := ".pub"

  /**
   libmachine's `BaseDriver.GetSSHKeyPath`: the stored private key path, or,
   when none is stored, `resolved` (the machine's "id_rsa" under its store
   directory), which is stored on the way out.
   */
  function GetSSHKeyPath(d: Driver, resolved: string): (r: (string, Driver))
    ensures d.base.sshKeyPath != "" ==> r.0 == d.base.sshKeyPath
    ensures d.base.sshKeyPath == "" ==> r.0 == resolved
    ensures r.1 == d.(base := d.base.(sshKeyPath := r.0))
  {
    if d.base.sshKeyPath == "" then (resolved, d.(base := d.base.(sshKeyPath := resolved)))
    else (d.base.sshKeyPath, d)
  }

  /**
   Once the path is set, it sticks: a later call returns the same path and
   changes nothing, whatever default it is offered.
   */
  lemma GetSSHKeyPathSticks(d: Driver, resolved: string, later: string)
    requires GetSSHKeyPath(d, resolved).0 != ""
    ensures GetSSHKeyPath(GetSSHKeyPath(d, resolved).1, later) == GetSSHKeyPath(d, resolved)
  {
  }

  /** `publicSSHKeyPath`: the private key path, resolved as `GetSSHKeyPath` does, followed by ".pub". */
  function PublicSSHKeyPath(d: Driver, resolved: string): (r: (string, Driver))
    ensures |r.0| == |GetSSHKeyPath(d, resolved).0| + 4
    ensures r.0[..|GetSSHKeyPath(d, resolved).0|] == GetSSHKeyPath(d, resolved).0
    ensures r.0[|GetSSHKeyPath(d, resolved).0|..] == ".pub"
    ensures r.1 == GetSSHKeyPath(d, resolved).1
  {
    var (path, d') := GetSSHKeyPath(d, resolved);
    (path + PublicKeySuffix, d')
  }

  /** Drivers with different private key paths read different public key files. */
  lemma PublicSSHKeyPathInjective(d: Driver, resolved: string, e: Driver, resolvedE: string)
    requires PublicSSHKeyPath(d, resolved).0 == PublicSSHKeyPath(e, resolvedE).0
    ensures GetSSHKeyPath(d, resolved).0 == GetSSHKeyPath(e, resolvedE).0
  {
    var p := PublicSSHKeyPath(d, resolved).0;
    assert GetSSHKeyPath(d, resolved).0 == p[..|p| - 4];
    assert GetSSHKeyPath(e, resolvedE).0 == p[..|p| - 4];
  }
}
