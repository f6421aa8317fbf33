# RackHD machine driver: node bootstrap model

A Dafny model of the RackHD driver for Docker Machine (`rackhd.go`). The
driver turns a RackHD node identifier into a machine Docker Machine can
manage. `Create` looks the node up in RackHD and collects the candidate IP
addresses. It picks the first one that accepts a TCP connection on the SSH
port and generates an SSH key pair. It then installs the public key on the
node with four password-authenticated SSH commands. Around `Create` sit the
configuration setter, the constructor defaults and the accessors for the
address, the Docker URL, the SSH user and the public key path.

The model is functional. `Driver` is an immutable record. Every operation
returns its result together with the driver as the Go code leaves it.
`Create` takes an `Env` of oracles: the RackHD lookup, TCP reachability of an
`ip:port` string, libmachine's store-path resolution (which gives the default
key path), key generation, file reading and SSH command execution. It
returns a `Run` with the outcome, the resulting driver, the addresses probed,
whether key generation started and the commands issued.

Modules, one per concern of `rackhd.go`:

- `Wrappers`: `Option`, `Result` and `Outcome`, which stand for Go's `(value, error)` returns.
- `Strings`: `strconv.Itoa` with its inverse, last-index search, and `strings.TrimSpace` with `unicode.IsSpace`.
- `DriverConfig`: the `Driver` record, `NewDriver`, `SetConfigFromFlags`, `GetIP`, `GetURL`, `GetSSHUsername`, libmachine's `GetSSHKeyPath` (which stores a default path when none is set) and `publicSSHKeyPath`.
- `Lookup`: payload entries, candidate extraction, and the Go extraction loops (the inner loop visits map keys in any order).
- `Probe`: the `ip:port` address and the first-reachable probe loop.
- `Bootstrap`: the four shell commands, the `%s`/`%v` subset of `fmt.Sprintf` they are built with, and running them with stop-at-first-failure.
- `Provision`: `createSSHKey` and `Create`.

Behaviour of `rackhd.go` worth knowing:

- **Shadowed fields.** `Driver` declares its own `SSHUser` and `SSHPort`, which shadow the embedded `BaseDriver` fields. `NewDriver` sets only the embedded copies (`root`, 22). The driver's own fields, which `SetConfigFromFlags`, `Create` and the SSH executor use, start as `""` and 0. The model keeps both copies.
- **Pre-set address.** The probe loop never clears `IPAddress`. If every candidate is unreachable but an address was already set, `Create` goes on with that old address instead of failing as unreachable (`CreateKeepsPresetAddress`).
- **Empty address.** A reachable candidate equal to `""` is stored as the address. `Create` then fails as unreachable (`CreateEmptyCandidateUnreachable`).
- **Command errors.** A failed bootstrap command's error is returned unwrapped, without naming the command. The trace's last issued command names the failing step, because the four commands are pairwise distinct (`BootstrapCommandsDistinct`).
- **Error messages.** The "no IP" and "not accessible" errors format a variable that is always nil at that point. The model records error kinds, not message text.

## Model

| member | source | states |
|---|---|---|
| `Strings.Itoa` | rackhd.go:195 | the port text is canonical decimal: digits with no leading zero, preceded by '-' exactly for negative ports (so never "-0"), and it contains no ':' |
| `Strings.ItoaRoundTrip` | rackhd.go:195 | parsing the printed port gives back the same integer |
| `Strings.ItoaRoundTripNeg` | rackhd.go:195 | a negative port's text parses back to that port |
| `Strings.ItoaRoundTripNonNeg` | rackhd.go:195 | a non-negative port's text parses back to that port |
| `Strings.ItoaInjective` | rackhd.go:195 | different ports print as different text |
| `Strings.DecimalCanonical` | rackhd.go:195 | printing the value of any digit string without a leading zero gives that string back |
| `Strings.ItoaCanonicalUnique` | rackhd.go:195 | every text in canonical form is the Itoa of the integer it parses to, so Itoa prints the one canonical form of each port |
| `Strings.TrimBounds` | rackhd.go:218 | the cut points: everything before the first and after the second is white space, and what lies between neither starts nor ends with white space |
| `Strings.TrimSpace` | rackhd.go:218 | the trimmed key neither starts nor ends with white space, and is empty exactly when the read text is all white space |
| `Strings.TrimSpaceOfPadded` | rackhd.go:218 | trimming any white-space-padded text with no white space at its ends gives back exactly that text |
| `Strings.TrimSpaceOfTrimmed` | rackhd.go:218 | text with no white space at either end is left as it is |
| `Strings.TrimSpaceIdempotent` | rackhd.go:218 | trimming an already trimmed key changes nothing |
| `DriverConfig.NewDriver` | rackhd.go:106-118 | default endpoint, password and transport; user "root" and port 22 go only to the embedded copies, leaving the driver's own user and port empty |
| `DriverConfig.NewDriverAccessors` | rackhd.go:106-118 | a fresh driver has no address, so GetIP and GetURL fail, and its user name falls back to "root" |
| `DriverConfig.SetConfigFromFlags` | rackhd.go:128-146 | error exactly when the node ID flag is empty; endpoint and node ID are assigned even then while the SSH fields and transport stay; otherwise the SSH fields come from the flags and port 443 forces "https" whatever the transport flag says |
| `DriverConfig.SetConfigIdempotent` | rackhd.go:128-146 | applying the same flags twice is the same as once |
| `DriverConfig.SetConfigForgetsPrevious` | rackhd.go:128-146 | with a node ID given, the configured fields do not depend on their earlier values |
| `DriverConfig.GetIP` | rackhd.go:274-279 | fails exactly when no address is set, and otherwise returns the address |
| `DriverConfig.GetURL` | rackhd.go:266-272 | fails exactly when GetIP fails, with its error; otherwise "tcp://" + ip + ":2376" |
| `DriverConfig.GetURLRoundTrip` | rackhd.go:266-272 | the host part of the returned URL is exactly the driver's address |
| `DriverConfig.GetSSHUsername` | rackhd.go:246-251 | never empty; the configured user if set, else "root", which is also stored; nothing else changes |
| `DriverConfig.GetSSHUsernameIdempotent` | rackhd.go:246-251 | a second call returns the same name and changes nothing |
| `DriverConfig.GetSSHKeyPath` | rackhd.go:254 | the stored key path when one is set; otherwise the default path, which is also stored; nothing else changes |
| `DriverConfig.GetSSHKeyPathSticks` | rackhd.go:254-259 | once a non-empty path is set, later calls return it and change nothing, whatever default they are offered, so generation and read-back agree on the path |
| `DriverConfig.PublicSSHKeyPath` | rackhd.go:349-351 | the resolved private key path followed by exactly ".pub", leaving the driver as the resolution does |
| `DriverConfig.PublicSSHKeyPathInjective` | rackhd.go:349-351 | equal public key paths come from equal private key paths |
| `Lookup.Candidates` | rackhd.go:174-186 | the candidate list, never longer than the payload; its order, contents and membership are given by CandidatesAppend, CandidatePosition and CandidatesMembership below |
| `Lookup.AddressOf` | rackhd.go:178-184 | an entry yields one address exactly when it is a map with an "ipAddress" key, and that value |
| `Lookup.CandidatesAppend` | rackhd.go:174-186 | extraction over two payload parts is extraction of each part, concatenated: no reordering, no merging |
| `Lookup.CandidatePosition` | rackhd.go:174-186 | entry i's address sits at the candidate position equal to the number of addresses before it |
| `Lookup.CandidatePositionMonotone` | rackhd.go:174-186 | an earlier entry's address comes strictly before any later entry's, so order is kept and duplicates each keep a slot |
| `Lookup.CandidatesEmptyIff` | rackhd.go:174-186 | there are no candidates exactly when no entry is a map with an "ipAddress" key |
| `Lookup.CandidatesMembership` | rackhd.go:174-186 | a string is a candidate exactly when some map entry has it as its "ipAddress" |
| `Lookup.ScanRecord` | rackhd.go:179-184 | the loop over one map's keys, in any order, yields exactly that entry's address or nothing |
| `Lookup.ExtractAddresses` | rackhd.go:174-186 | the nested Go loops compute exactly the candidate list |
| `Probe.HostPort` | rackhd.go:195 | the probed address text, the same text as "%s:%d" at line 364; HostPortRoundTrip below shows it names exactly its candidate and port |
| `Probe.HostPortRoundTrip` | rackhd.go:195 | the probed "ip:port" splits back at its last ':' into the candidate and the port |
| `Probe.FirstReachable` | rackhd.go:194-206 | the chosen candidate is reachable, every earlier one is not, and exactly the candidates up to it were probed in order; with none chosen, all were probed and none is reachable |
| `Probe.ProbeFrom` | rackhd.go:194-206 | from a given candidate on: the chosen one is reachable, the ones between are not, and exactly that range was probed in order |
| `Probe.FirstReachableAt` | rackhd.go:194-206 | when candidate k is the first reachable one, the probe chooses k after probing exactly candidates 0..k |
| `Probe.FirstReachableIgnoresLater` | rackhd.go:194-206 | after a success, later candidates are never probed: appending more changes nothing |
| `Bootstrap.Sprintf` | rackhd.go:223-235 | the `%s`, `%v` and `%%` forms of `fmt.Sprintf`; SprintfLiteral, SprintfVerb, SprintfOne and SprintfTwo state that text without '%' is copied and each verb takes the next argument |
| `Bootstrap.BootstrapCommands` | rackhd.go:223-235 | exactly four commands, one per bootstrap step |
| `Bootstrap.MakeDirMatchesFormat` | rackhd.go:223 | the first command is exactly the text fmt.Sprintf makes of "mkdir -p /home/%s/.ssh" with the user |
| `Bootstrap.WriteKeyMatchesFormat` | rackhd.go:227 | the second command is exactly the text fmt.Sprintf makes of "echo '%v' > /home/%s/.ssh/authorized_keys" with the key, then the user |
| `Bootstrap.ChmodDirMatchesFormat` | rackhd.go:231 | the third command is exactly the text fmt.Sprintf makes of "chmod 700 /home/%s/.ssh" with the user |
| `Bootstrap.ChmodKeysMatchesFormat` | rackhd.go:235 | the fourth command is exactly the text fmt.Sprintf makes of "chmod 600 /home/%s/.ssh/authorized_keys" with the user |
| `Bootstrap.BootstrapCommandsDistinct` | rackhd.go:223-235 | the four commands are pairwise different for every user and key |
| `Bootstrap.RunFrom` | rackhd.go:222-239 | from a given command on: the issued commands are the next ones in order, all but the last passed, and the run passes exactly when every remaining command was issued and passed |
| `Bootstrap.RunCommands` | rackhd.go:222-239 | the issued commands are a prefix; all before the last passed; success exactly when all were issued and passed; on failure the last issued command's error is returned |
| `Bootstrap.RunCommandsStopsAt` | rackhd.go:222-239 | if command k is the first to fail, exactly commands 0..k are issued and k's error is returned |
| `Provision.CreateSSHKey` | rackhd.go:253-264 | the driver keeps the resolved key path; succeeds exactly when generation at that path and reading that path + ".pub" succeed, with the file's text |
| `Provision.CreateSSHKeyReadsGeneratedPair` | rackhd.go:253-264 | the pair is generated at the stored path, or the store's "id_rsa" when none is stored, the public key is read from that same path + ".pub", the driver keeps that path, a generation error is the error returned, and after a successful generation a read error is the error returned |
| `Provision.CreateSSHKeyIgnoresAddress` | rackhd.go:253-264 | the key step's result does not depend on the driver's address, so resolving the address first does not change it |
| `Provision.SessionOf` | rackhd.go:354-364 | the session dials an address that splits back into the driver's address and its own SSH port, as the driver's own user with its password |
| `Provision.WithProbedAddress` | rackhd.go:202 | only the address changes: to the chosen candidate when the probe chose one; otherwise the driver is left as it was |
| `Provision.InstallKey` | rackhd.go:212-239 | commands are issued exactly when the key was read, and the stored key is then the trimmed text |
| `Provision.Create` | rackhd.go:163-240 | only the address, the key path and the key change; without candidates nothing is probed or changed; with candidates the probe runs over them and its address is kept; with candidates and an empty address afterwards, Create fails as unreachable; key generation starts exactly when the lookup has candidates and the address afterwards is non-empty; the stored key changes only once a command is issued; the commands issued are a prefix of the four for the stored user and key, all four on success with a trimmed key |
| `Provision.CreateLookupFails` | rackhd.go:168-171 | a lookup error is returned before any probe, key or command |
| `Provision.CreateWithoutCandidates` | rackhd.go:188-191 | with no "ipAddress" in the payload, Create fails with no probe, no key and no command |
| `Provision.CreateSelectsFirstReachable` | rackhd.go:194-206 | the first reachable candidate becomes the address, after probing exactly the candidates up to it |
| `Provision.CreateAllUnreachable` | rackhd.go:208-210 | all candidates unreachable and no address before: fails as unreachable after probing all in order, with no key and no command |
| `Provision.CreateKeepsPresetAddress` | rackhd.go:194-210 | all candidates unreachable but an address already set: Create probes them all, keeps that address and goes on to key generation |
| `Provision.CreateEmptyCandidateUnreachable` | rackhd.go:194-210 | when the first reachable candidate, at any position k, is the empty string, the probe stops after candidates 0..k and Create fails as unreachable with no key and no command |
| `Provision.CreateKeyFails` | rackhd.go:214-217 | with candidates and a non-empty probed address, a failing key step starts key generation, returns its error (generation or read), issues no command and leaves the stored key as it was |
| `Provision.CreateStoresTrimmedKey` | rackhd.go:214-218 | the stored key is the trimmed text of the ".pub" file next to the driver's key path, and the bootstrap starts |
| `Provision.CreateStopsAtFailingCommand` | rackhd.go:223-237 | with the key read, when command k for the configured user and trimmed key is the first to fail on the probed address, its error is returned and exactly commands 0..k were issued |
| `Provision.CreateRunsBootstrap` | rackhd.go:222-239 | once the key is read, Create's commands and outcome are those of running the four commands in order on the driver's session |
| `Provision.CreateSucceedsIff` | rackhd.go:163-240 | stated over the inputs alone: Create succeeds exactly when the lookup has candidates, the probe leaves a non-empty address, the key is generated and read back, and the four commands for the configured user and the trimmed key all pass on that address with the configured password |

## Left out

- `getClient`, `PreCreateCheck` and the real `GetLookups` HTTP call: a generated REST client. Only the payload or error it returns is modelled, through the `lookup` oracle.
- `net.DialTimeout` with its 25-second timeout: real TCP I/O and timing. It is the `reachable` oracle, a function of the `ip:port` text alone, so a duplicate candidate gets the same answer each time it is probed; answers that change between dials are not modelled.
- `executeSSHCommand` internals (SSH dial, session, stdout buffering and session close): the `exec` oracle, given the address, user and password it would connect with.
- `ssh.GenerateSSHKey` and `ioutil.ReadFile` inside `createSSHKey`: filesystem and cryptography. They are the `generateKey` and `readFile` oracles.
- `BaseDriver.ResolveStorePath`: it lives in libmachine, which is not part of this model. The default key path it builds with `filepath.Join` is the `resolveStorePath` oracle; `GetSSHKeyPath`'s storing of that default is modelled.
- `Strings.TrimSpace`: Go strings are byte sequences, and `string(publicKey)` may hold invalid UTF-8, which `strings.TrimSpace` keeps as non-space. The model's strings are sequences of Unicode characters, so text that is not valid UTF-8 is not represented. SSH public key files are ASCII.
- `GetCreateFlags`: flag metadata with no behaviour.
- `GetState`, `Start`, `Stop`, `Remove`, `Restart`, `Kill`: constant stubs that always return running or nil.
- `GetMachineName`, `DriverName` and `GetSSHHostname`: a field read, a constant and a call to `GetIP`.
- All logging: a side channel with no effect on behaviour.
- The `val.(string)` type assertion, which panics on a non-string `ipAddress`: attribute values are modelled as strings.
- Flag parsing: the host's flag parser is abstracted as maps where a missing name reads as the zero value.
- Integer width: Go's `int` is 64-bit; the model's integers are unbounded. Port values from the flag parser fit either way.
- Formatting: only the `%s`, `%v` and `%%` forms of `fmt.Sprintf` are modelled, because they are the only ones the bootstrap commands use. Go's error markers for a missing argument or an unknown verb are not modelled.
