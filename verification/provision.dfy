/**
 `Driver.Create` (rackhd.go): look the node up, pick the first reachable
 candidate address, generate an SSH key pair, and install the public key on
 the node with four SSH commands. Every step's failure ends the workflow.

 The HTTP lookup, the TCP probe, libmachine's store-path resolution, key
 generation, the file read and the SSH command runner are oracles in `Env`.
 `Run` reports the outcome together with the driver as `Create` leaves it and
 the trace of what was attempted.
 */
module Provision {
  import opened Wrappers
  import opened Strings
  import opened DriverConfig
  import opened Lookup
  import opened Probe
  import opened Bootstrap

  datatype Env = Env(
    /** `GetLookups` with the node ID as query: the payload, or the API error. */
    lookup: string -> Result<seq<Entry>, string>,
    /** `net.DialTimeout("tcp", addr, 25s)` succeeds. */
    reachable: string -> bool,
    /** libmachine's `ResolveStorePath(file)` for a store path and machine name. */
    resolveStorePath: (string, string, string) -> string,
    /** `ssh.GenerateSSHKey(path)`: writes the key pair, or fails. */
    generateKey: string -> Outcome<string>,
    /** `ioutil.ReadFile(path)`. */
    readFile: string -> Result<string, string>,
    /** `executeSSHCommand`: dial, open a session and run one command. */
    exec: (Session, string) -> Outcome<string>)

  datatype CreateError =
    | LookupFailed(cause: string)
    | NoAddresses
    | Unreachable
    | KeyFailed(cause: string)
    | CommandFailed(cause: string)

  /**
   The result of one `Create`: its outcome, the driver afterwards, the
   addresses probed in order, whether key generation was started, and the
   SSH commands issued in order.
   */
  datatype Run = Run(outcome: Outcome<CreateError>, driver: Driver, probes: seq<string>, keyRequested: bool, commands: seq<string>)

  /** The default private key path `GetSSHKeyPath` falls back to: "id_rsa" in the machine's store directory. */
  function DefaultKeyPath(d: Driver, env: Env): string {
    env.resolveStorePath(d.base.storePath, d.base.machineName, KeyFileName)
  }

  /**
   `createSSHKey`: resolve the key path, generate the pair there, then read the
   public half back. The driver keeps the resolved path even when a step fails.
   */
  function CreateSSHKey(d: Driver, env: Env): (r: (Result<string, string>, Driver))
    ensures r.1 == GetSSHKeyPath(d, DefaultKeyPath(d, env)).1
    ensures r.0.Success? <==>
      env.generateKey(r.1.base.sshKeyPath).Pass? && env.readFile(r.1.base.sshKeyPath + PublicKeySuffix).Success?
    ensures r.0.Success? ==> r.0.value == env.readFile(r.1.base.sshKeyPath + PublicKeySuffix).value
  {
    var (path, d1) := GetSSHKeyPath(d, DefaultKeyPath(d, env));
    match env.generateKey(path)
    case Fail(e) => (Failure(e), d1)
    case Pass =>
      var (pub, d2) := PublicSSHKeyPath(d1, DefaultKeyPath(d1, env));
      (env.readFile(pub), d2)
  }

  /**
   The pair is generated at the stored key path, or at the default path when
   none is stored, and the file read back is that path followed by ".pub"; the
   path used is the one the driver keeps.
   */
  lemma CreateSSHKeyReadsGeneratedPair(d: Driver, env: Env)
    ensures
      var path := if d.base.sshKeyPath != "" then d.base.sshKeyPath
                  else env.resolveStorePath(d.base.storePath, d.base.machineName, "id_rsa");
      var r := CreateSSHKey(d, env);
      && r.1 == d.(base := d.base.(sshKeyPath := path))
      && (r.0.Success? <==> env.generateKey(path).Pass? && env.readFile(path + ".pub").Success?)
      && (r.0.Success? ==> r.0.value == env.readFile(path + ".pub").value)
      && (env.generateKey(path).Fail? ==> r.0.error == env.generateKey(path).error)
      && (env.generateKey(path).Pass? && env.readFile(path + ".pub").Failure? ==> r.0.error == env.readFile(path + ".pub").error)
  {
  }

  /** The key step depends on the driver only through its key path, store path and machine name. */
  lemma CreateSSHKeyIgnoresAddress(d: Driver, env: Env, ip: string)
    ensures CreateSSHKey(d.(base := d.base.(ipAddress := ip)), env).0 == CreateSSHKey(d, env).0
    ensures CreateSSHKey(d.(base := d.base.(ipAddress := ip)), env).1 == CreateSSHKey(d, env).1.(base := CreateSSHKey(d, env).1.base.(ipAddress := ip))
  {
  }

  /** The SSH session `executeSSHCommand` opens for a driver. */
  function SessionOf(d: Driver): (s: Session)
    ensures SplitHostPort(s.address) == Some((d.base.ipAddress, d.sshPort))
    ensures s.user == d.sshUser && s.password == d.sshPassword
  {
    HostPortRoundTrip(d.base.ipAddress, d.sshPort);
    Session(HostPort(d.base.ipAddress, d.sshPort), d.sshUser, d.sshPassword)
  }

  /** The candidate addresses of the node's lookup payload; none when the lookup fails. */
  function CandidatesOf(d: Driver, env: Env): seq<string> {
    if env.lookup(d.nodeId).Success? then Candidates(env.lookup(d.nodeId).value) else []
  }

  /** The probe over the node's candidates on the driver's SSH port. */
  function ProbeOf(d: Driver, env: Env): ProbeResult {
    FirstReachable(CandidatesOf(d, env), d.sshPort, env.reachable)
  }

  /** The driver with the address the probe chose, if it chose one; the old address otherwise. */
  function WithProbedAddress(d: Driver, ips: seq<string>, p: ProbeResult): (d': Driver)
    requires p.chosen.Some? ==> p.chosen.value < |ips|
    ensures d' == d.(base := d.base.(ipAddress := d'.base.ipAddress))
    ensures p.chosen.Some? ==> d'.base.ipAddress == ips[p.chosen.value]
    ensures p.chosen.None? ==> d' == d
  {
    match p.chosen
    case Some(k) => d.(base := d.base.(ipAddress := ips[k]))
    case None => d
  }

  /** The address after the probe loop: the first reachable candidate, or the one set before. */
  function ProbedAddress(d: Driver, env: Env): string {
    WithProbedAddress(d, CandidatesOf(d, env), ProbeOf(d, env)).base.ipAddress
  }

  /** The key and command steps, once an address is known. */
  function InstallKey(d: Driver, env: Env, probes: seq<string>): (run: Run)
    ensures run.keyRequested && run.probes == probes
    ensures run.driver.base == CreateSSHKey(d, env).1.base && run.driver.sshUser == d.sshUser
    ensures run.driver == d.(base := run.driver.base, sshKey := run.driver.sshKey)
    ensures run.commands != [] <==> CreateSSHKey(d, env).0.Success?
    ensures CreateSSHKey(d, env).0.Success? ==> run.driver.sshKey == TrimSpace(CreateSSHKey(d, env).0.value)
    ensures CreateSSHKey(d, env).0.Failure? ==> run.driver.sshKey == d.sshKey
  {
    var (key, d1) := CreateSSHKey(d, env);
    match key
    case Failure(e) => Run(Fail(KeyFailed(e)), d1, probes, true, [])
    case Success(k) =>
      var d2 := d1.(sshKey := TrimSpace(k));
      var r := RunCommands(BootstrapCommands(d2.sshUser, d2.sshKey), env.exec, SessionOf(d2));
      match r.outcome
      case Pass => Run(Pass, d2, probes, true, r.issued)
      case Fail(e) => Run(Fail(CommandFailed(e)), d2, probes, true, r.issued)
  }

  /**
   `Create`. Without a candidate nothing changes and nothing is probed; with
   candidates, the probe runs over them and its address is kept, and key
   generation starts exactly when that address is not empty. Only the address,
   the key path and the stored key can change, and the commands issued are
   always a prefix of the four bootstrap commands for the stored user and key,
   all of them when `Create` succeeds.
   */
  function Create(d: Driver, env: Env): (run: Run)
    ensures run.driver == d.(base := d.base.(ipAddress := run.driver.base.ipAddress, sshKeyPath := run.driver.base.sshKeyPath), sshKey := run.driver.sshKey)
    ensures CandidatesOf(d, env) == [] ==> run.driver == d && run.probes == []
    ensures CandidatesOf(d, env) != [] ==> run.probes == ProbeOf(d, env).probed && run.driver.base.ipAddress == ProbedAddress(d, env)
    ensures CandidatesOf(d, env) != [] && ProbedAddress(d, env) == "" ==> run.outcome == Fail(Unreachable)
    ensures run.keyRequested <==> env.lookup(d.nodeId).Success? && CandidatesOf(d, env) != [] && run.driver.base.ipAddress != ""
    ensures run.keyRequested ==> run.driver.base.sshKeyPath == CreateSSHKey(d, env).1.base.sshKeyPath
    ensures !run.keyRequested ==> run.driver.base.sshKeyPath == d.base.sshKeyPath && run.driver.sshKey == d.sshKey
    ensures run.commands == [] ==> run.driver.sshKey == d.sshKey
    ensures run.commands != [] ==> run.keyRequested
    ensures |run.commands| <= 4
    ensures run.commands == BootstrapCommands(run.driver.sshUser, run.driver.sshKey)[..|run.commands|]
    ensures run.outcome.Pass? ==> |run.commands| == 4 && Trimmed(run.driver.sshKey)
  {
    match env.lookup(d.nodeId)
    case Failure(e) => Run(Fail(LookupFailed(e)), d, [], false, [])
    case Success(payload) =>
      var ips := Candidates(payload);
      if |ips| == 0 then Run(Fail(NoAddresses), d, [], false, [])
      else
        var p := FirstReachable(ips, d.sshPort, env.reachable);
        var d1 := WithProbedAddress(d, ips, p);
        CreateSSHKeyIgnoresAddress(d, env, d1.base.ipAddress);
        if d1.base.ipAddress == "" then Run(Fail(Unreachable), d1, p.probed, false, [])
        else InstallKey(d1, env, p.probed)
  }

  /** A failed lookup is returned as is, before anything else is attempted. */
  lemma CreateLookupFails(d: Driver, env: Env)
    requires env.lookup(d.nodeId).Failure?
    ensures Create(d, env) == Run(Fail(LookupFailed(env.lookup(d.nodeId).error)), d, [], false, [])
  {
  }

  /** A payload with no `ipAddress` anywhere fails with no probe, no key and no command. */
  lemma CreateWithoutCandidates(d: Driver, env: Env)
    requires env.lookup(d.nodeId).Success?
    requires forall i :: 0 <= i < |env.lookup(d.nodeId).value| ==> !HasAddress(env.lookup(d.nodeId).value[i])
    ensures Create(d, env) == Run(Fail(NoAddresses), d, [], false, [])
  {
    CandidatesEmptyIff(env.lookup(d.nodeId).value);
  }

  /**
   When candidate `k` is the first reachable one, exactly candidates `0..k`
   are probed, on `ip:port`, and candidate `k` becomes the driver's address.
   */
  lemma CreateSelectsFirstReachable(d: Driver, env: Env, k: nat)
    requires k < |CandidatesOf(d, env)|
    requires env.reachable(HostPort(CandidatesOf(d, env)[k], d.sshPort))
    requires forall i :: 0 <= i < k ==> !env.reachable(HostPort(CandidatesOf(d, env)[i], d.sshPort))
    ensures Create(d, env).driver.base.ipAddress == CandidatesOf(d, env)[k]
    ensures ProbedPrefix(Create(d, env).probes, CandidatesOf(d, env), d.sshPort, k + 1)
  {
    FirstReachableAt(CandidatesOf(d, env), d.sshPort, env.reachable, k);
  }

  /**
   With every candidate unreachable and no address set beforehand, `Create`
   fails after probing all candidates in order, with no key and no command.
   */
  lemma CreateAllUnreachable(d: Driver, env: Env)
    requires CandidatesOf(d, env) != []
    requires forall i :: 0 <= i < |CandidatesOf(d, env)| ==> !env.reachable(HostPort(CandidatesOf(d, env)[i], d.sshPort))
    requires d.base.ipAddress == ""
    ensures Create(d, env).outcome == Fail(Unreachable)
    ensures Create(d, env).driver == d
    ensures ProbedPrefix(Create(d, env).probes, CandidatesOf(d, env), d.sshPort, |CandidatesOf(d, env)|)
    ensures !Create(d, env).keyRequested && Create(d, env).commands == []
  {
    if ProbeOf(d, env).chosen.Some? {
      assert false;
    }
  }

  /**
   The probe never clears the address: with every candidate unreachable but an
   address already set, `Create` probes them all and goes on to key generation
   with that address.
   */
  lemma CreateKeepsPresetAddress(d: Driver, env: Env)
    requires CandidatesOf(d, env) != []
    requires forall i :: 0 <= i < |CandidatesOf(d, env)| ==> !env.reachable(HostPort(CandidatesOf(d, env)[i], d.sshPort))
    requires d.base.ipAddress != ""
    ensures Create(d, env).keyRequested
    ensures Create(d, env).driver.base.ipAddress == d.base.ipAddress
    ensures ProbedPrefix(Create(d, env).probes, CandidatesOf(d, env), d.sshPort, |CandidatesOf(d, env)|)
  {
    if ProbeOf(d, env).chosen.Some? {
      assert false;
    }
  }

  /**
   A first reachable candidate that is the empty string becomes the address,
   and `Create` then fails as unreachable after probing candidates `0..k`: the
   check is on the stored address.
   */
  lemma CreateEmptyCandidateUnreachable(d: Driver, env: Env, k: nat)
    requires k < |CandidatesOf(d, env)|
    requires CandidatesOf(d, env)[k] == ""
    requires env.reachable(HostPort("", d.sshPort))
    requires forall i :: 0 <= i < k ==> !env.reachable(HostPort(CandidatesOf(d, env)[i], d.sshPort))
    ensures Create(d, env).outcome == Fail(Unreachable)
    ensures !Create(d, env).keyRequested && Create(d, env).commands == []
    ensures ProbedPrefix(Create(d, env).probes, CandidatesOf(d, env), d.sshPort, k + 1)
  {
    CreateSelectsFirstReachable(d, env, k);
  }

  /** The SSH session of the bootstrap: the probed address on the driver's own port, user and password. */
  function BootstrapSession(d: Driver, env: Env): Session {
    Session(HostPort(ProbedAddress(d, env), d.sshPort), d.sshUser, d.sshPassword)
  }

  /** The key `Create` stores once the key step succeeds: the read text, trimmed. */
  function StoredKey(d: Driver, env: Env): string
    requires CreateSSHKey(d, env).0.Success?
  {
    TrimSpace(CreateSSHKey(d, env).0.value)
  }

  /** When key generation or the read-back fails, its error is returned and no command is issued. */
  lemma CreateKeyFails(d: Driver, env: Env)
    requires CandidatesOf(d, env) != [] && ProbedAddress(d, env) != ""
    requires CreateSSHKey(d, env).0.Failure?
    ensures Create(d, env).keyRequested
    ensures Create(d, env).outcome == Fail(KeyFailed(CreateSSHKey(d, env).0.error))
    ensures Create(d, env).commands == []
    ensures Create(d, env).driver.sshKey == d.sshKey
  {
  }

  /**
   Once the key is read, the stored key is the text of the ".pub" file next to
   the driver's key path, with surrounding white space trimmed.
   */
  lemma CreateStoresTrimmedKey(d: Driver, env: Env)
    requires CandidatesOf(d, env) != [] && ProbedAddress(d, env) != ""
    requires CreateSSHKey(d, env).0.Success?
    ensures Create(d, env).driver.sshKey == TrimSpace(env.readFile(Create(d, env).driver.base.sshKeyPath + ".pub").value)
    ensures Create(d, env).commands != []
  {
  }

  /**
   Command `k` of the bootstrap failing, after the earlier ones passed, ends
   `Create` with that command's error, and no later command is issued.
   */
  lemma CreateStopsAtFailingCommand(d: Driver, env: Env, k: nat)
    requires CandidatesOf(d, env) != [] && ProbedAddress(d, env) != ""
    requires CreateSSHKey(d, env).0.Success?
    requires k < 4
    requires forall i :: 0 <= i < k ==>
      env.exec(BootstrapSession(d, env), BootstrapCommands(d.sshUser, StoredKey(d, env))[i]).Pass?
    requires env.exec(BootstrapSession(d, env), BootstrapCommands(d.sshUser, StoredKey(d, env))[k]).Fail?
    ensures Create(d, env).outcome ==
      Fail(CommandFailed(env.exec(BootstrapSession(d, env), BootstrapCommands(d.sshUser, StoredKey(d, env))[k]).error))
    ensures Create(d, env).commands == BootstrapCommands(d.sshUser, StoredKey(d, env))[..k + 1]
  {
    var run := Create(d, env);
    var ips := CandidatesOf(d, env);
    var d1 := WithProbedAddress(d, ips, ProbeOf(d, env));
    CreateSSHKeyIgnoresAddress(d, env, d1.base.ipAddress);
    assert run.driver.sshKey == StoredKey(d, env);
    assert SessionOf(run.driver) == BootstrapSession(d, env);
    CreateRunsBootstrap(d, env);
    RunCommandsStopsAt(BootstrapCommands(d.sshUser, StoredKey(d, env)), env.exec, BootstrapSession(d, env), k);
  }

  /** Once the key is read, `Create`'s commands and outcome are those of the bootstrap run. */
  lemma CreateRunsBootstrap(d: Driver, env: Env)
    requires CandidatesOf(d, env) != [] && ProbedAddress(d, env) != ""
    requires CreateSSHKey(d, env).0.Success?
    ensures
      var run := Create(d, env);
      var r := RunCommands(BootstrapCommands(run.driver.sshUser, run.driver.sshKey), env.exec, SessionOf(run.driver));
      && run.commands == r.issued
      && (r.outcome.Pass? <==> run.outcome.Pass?)
      && (r.outcome.Fail? ==> run.outcome == Fail(CommandFailed(r.outcome.error)))
  {
    var ips := CandidatesOf(d, env);
    var p := ProbeOf(d, env);
    var d1 := WithProbedAddress(d, ips, p);
    assert Create(d, env) == InstallKey(d1, env, p.probed);
  }

  /**
   `Create` succeeds exactly when the lookup succeeds with some candidate, the
   probe leaves a non-empty address, the key is generated and read back, and
   all four bootstrap commands for the configured user and the trimmed key pass
   on that address with the configured password.
   */
  lemma CreateSucceedsIff(d: Driver, env: Env)
    ensures Create(d, env).outcome.Pass? <==>
      && env.lookup(d.nodeId).Success?
      && CandidatesOf(d, env) != []
      && ProbedAddress(d, env) != ""
      && CreateSSHKey(d, env).0.Success?
      && forall i :: 0 <= i < 4 ==> env.exec(BootstrapSession(d, env), BootstrapCommands(d.sshUser, StoredKey(d, env))[i]).Pass?
  {
    var run := Create(d, env);
    if CandidatesOf(d, env) != [] && ProbedAddress(d, env) != "" {
      var d1 := WithProbedAddress(d, CandidatesOf(d, env), ProbeOf(d, env));
      CreateSSHKeyIgnoresAddress(d, env, d1.base.ipAddress);
      if CreateSSHKey(d, env).0.Success? {
        assert run.driver.sshKey == StoredKey(d, env) && run.driver.sshUser == d.sshUser;
        assert SessionOf(run.driver) == BootstrapSession(d, env);
        CreateRunsBootstrap(d, env);
      }
    }
  }
}
