/**
 The remote trust bootstrap of `Create` (rackhd.go): four shell commands run
 over password-authenticated SSH, each only after the previous one succeeded.
 The SSH dial, session and command run are an oracle, `exec`.
 */
module Bootstrap {
  import opened Wrappers

  /** What `executeSSHCommand` connects with: `ip:port`, user and password. */
  datatype Session = Session(address: string, user: string, password: string)

  /**
   The four commands, in the order `Create` issues them: create the user's
   `.ssh` directory, write the key as the whole `authorized_keys` file, then
   restrict the directory to 700 and the file to 600.
   */
  function BootstrapCommands(user: string, key: string): (cmds: seq<string>)
    ensures |cmds| == 4
  {
    [ "mkdir -p /home/" + user + "/.ssh",
      "echo '" + key + "' > /home/" + user + "/.ssh/authorized_keys",
      "chmod 700 /home/" + user + "/.ssh",
      "chmod 600 /home/" + user + "/.ssh/authorized_keys" ]
  }

  /**
   `fmt.Sprintf` restricted to what the bootstrap uses: `%s` and `%v` take the
   next string argument, `%%` is a literal '%', and every other character is
   copied. Any other verb, a verb with no argument left, and a trailing '%'
   are copied as they stand (Go would print an error marker instead).
   */
  function Sprintf(format: string, args: seq<string>): string
    decreases |format|
  {
    if |format| == 0 then ""
    else if format[0] == '%' && |format| > 1 && format[1] == '%' then "%" + Sprintf(format[2..], args)
    else if format[0] == '%' && |format| > 1 && (format[1] == 's' || format[1] == 'v') && |args| > 0 then
      args[0] + Sprintf(format[2..], args[1..])
    else [format[0]] + Sprintf(format[1..], args)
  }

  /** Text without '%' is copied through unchanged. */
  lemma {:induction false} SprintfLiteral(lit: string, rest: string, args: seq<string>)
    requires '%' !in lit
    ensures Sprintf(lit + rest, args) == lit + Sprintf(rest, args)
    decreases |lit|
  {
    if |lit| == 0 {
      assert lit + rest == rest;
    } else {
      var f := lit + rest;
      assert f[0] == lit[0] && f[0] != '%';
      assert f[1..] == lit[1..] + rest;
      assert Sprintf(f, args) == [f[0]] + Sprintf(f[1..], args);
      SprintfLiteral(lit[1..], rest, args);
      assert lit == [lit[0]] + lit[1..];
    }
  }

  /** A verb consumes the next argument. */
  lemma SprintfVerb(verb: char, rest: string, arg: string, args: seq<string>)
    requires verb == 's' || verb == 'v'
    ensures Sprintf(['%', verb] + rest, [arg] + args) == arg + Sprintf(rest, args)
  {
    assert (['%', verb] + rest)[2..] == rest;
    assert ([arg] + args)[1..] == args;
  }

  /** `lit1 %s lit2`, formatted with one argument. */
  lemma SprintfOne(lit1: string, verb: char, lit2: string, a: string)
    requires '%' !in lit1 && '%' !in lit2
    requires verb == 's' || verb == 'v'
    ensures Sprintf(lit1 + (['%', verb] + lit2), [a]) == lit1 + a + lit2
  {
    SprintfLiteral(lit1, ['%', verb] + lit2, [a]);
    assert [a] == [a] + [];
    SprintfVerb(verb, lit2, a, []);
    assert lit2 + "" == lit2;
    SprintfLiteral(lit2, "", []);
  }

  /** `lit1 %v lit2 %s lit3`, formatted with two arguments. */
  lemma SprintfTwo(lit1: string, lit2: string, lit3: string, a: string, b: string)
    requires '%' !in lit1 && '%' !in lit2 && '%' !in lit3
    ensures Sprintf(lit1 + (['%', 'v'] + (lit2 + (['%', 's'] + lit3))), [a, b]) == lit1 + a + lit2 + b + lit3
  {
    var t2 := lit2 + (['%', 's'] + lit3);
    var t1 := ['%', 'v'] + t2;
    SprintfLiteral(lit1, t1, [a, b]);
    assert [a, b] == [a] + [b];
    SprintfVerb('v', t2, a, [b]);
    assert Sprintf(t1, [a, b]) == a + Sprintf(t2, [b]);
    SprintfOne(lit2, 's', lit3, b);
    assert Sprintf(t1, [a, b]) == a + (lit2 + b + lit3);
  }

  /** The text pieces of the four format strings in `Create`, split at their verbs. */
  const MkdirPrefix := "mkdir -p /home/"
  const EchoPrefix := "echo '"
  const EchoMiddle := "' > /home/"
  const Chmod700Prefix := "chmod 700 /home/"
  const Chmod600Prefix := "chmod 600 /home/"
  const DirSuffix := "/.ssh"
  const KeysSuffix := "/.ssh/authorized_keys"

  /** The first command is "mkdir -p /home/%s/.ssh" formatted with the user. */
  lemma MakeDirMatchesFormat(user: string, key: string)
    ensures BootstrapCommands(user, key)[0] == Sprintf(MkdirPrefix + ("%s" + DirSuffix), [user])
  {
    SprintfOne(MkdirPrefix, 's', DirSuffix, user);
  }

  /** The second command is "echo '%v' > /home/%s/.ssh/authorized_keys" formatted with the key and the user. */
  lemma WriteKeyMatchesFormat(user: string, key: string)
    ensures BootstrapCommands(user, key)[1] == Sprintf(EchoPrefix + ("%v" + (EchoMiddle + ("%s" + KeysSuffix))), [key, user])
  {
    SprintfTwo(EchoPrefix, EchoMiddle, KeysSuffix, key, user);
  }

  /** The third command is "chmod 700 /home/%s/.ssh" formatted with the user. */
  lemma ChmodDirMatchesFormat(user: string, key: string)
    ensures BootstrapCommands(user, key)[2] == Sprintf(Chmod700Prefix + ("%s" + DirSuffix), [user])
  {
    SprintfOne(Chmod700Prefix, 's', DirSuffix, user);
  }

  /** The fourth command is "chmod 600 /home/%s/.ssh/authorized_keys" formatted with the user. */
  lemma ChmodKeysMatchesFormat(user: string, key: string)
    ensures BootstrapCommands(user, key)[3] == Sprintf(Chmod600Prefix + ("%s" + KeysSuffix), [user])
  {
    SprintfOne(Chmod600Prefix, 's', KeysSuffix, user);
  }

  /** The four commands are pairwise different, so the last one issued names the step that failed. */
  lemma BootstrapCommandsDistinct(user: string, key: string)
    ensures forall i, j :: 0 <= i < j < 4 ==> BootstrapCommands(user, key)[i] != BootstrapCommands(user, key)[j]
  {
    var c := BootstrapCommands(user, key);
    assert c[0][0] == 'm' && c[1][0] == 'e' && c[2][0] == 'c' && c[3][0] == 'c';
    assert c[2][6] == '7' && c[3][6] == '6';
  }

  /** The commands issued, and the first failure's error or success when all passed. */
  datatype ExecResult = ExecResult(outcome: Outcome<string>, issued: seq<string>)

  /** Runs the commands from index `from` on, stopping at the first failure. */
  function RunFrom(cmds: seq<string>, exec: (Session, string) -> Outcome<string>, session: Session, from: nat): (r: ExecResult)
    requires from <= |cmds|
    ensures from + |r.issued| <= |cmds|
    ensures forall i :: 0 <= i < |r.issued| ==> r.issued[i] == cmds[from + i]
    ensures forall i :: from <= i < from + |r.issued| - 1 ==> exec(session, cmds[i]).Pass?
    ensures r.outcome.Pass? <==> from + |r.issued| == |cmds| && forall i :: from <= i < |cmds| ==> exec(session, cmds[i]).Pass?
    ensures r.outcome.Fail? ==>
      |r.issued| > 0 && exec(session, cmds[from + |r.issued| - 1]) == Fail(r.outcome.error)
    decreases |cmds| - from
  {
    if from == |cmds| then ExecResult(Pass, [])
    else
      match exec(session, cmds[from])
      case Fail(e) => ExecResult(Fail(e), [cmds[from]])
      case Pass =>
        var rest := RunFrom(cmds, exec, session, from + 1);
        var issued := [cmds[from]] + rest.issued;
        assert forall i :: 1 <= i < |issued| ==> issued[i] == rest.issued[i - 1];
        ExecResult(rest.outcome, issued)
  }

  /**
   Runs `cmds` in order, stopping at the first failure. The issued commands
   are a non-empty prefix ending in the failing one, whose error is returned,
   or all of them when every one succeeds.
   */
  function RunCommands(cmds: seq<string>, exec: (Session, string) -> Outcome<string>, session: Session): (r: ExecResult)
    ensures |r.issued| <= |cmds| && r.issued == cmds[..|r.issued|]
    ensures forall i :: 0 <= i < |r.issued| - 1 ==> exec(session, cmds[i]).Pass?
    ensures r.outcome.Pass? <==> r.issued == cmds && forall i :: 0 <= i < |cmds| ==> exec(session, cmds[i]).Pass?
    ensures r.outcome.Fail? ==>
      |r.issued| > 0 && exec(session, cmds[|r.issued| - 1]) == Fail(r.outcome.error)
  {
    var r := RunFrom(cmds, exec, session, 0);
    assert r.issued == cmds[..|r.issued|];
    r
  }

  /** Once command `k` fails after all earlier ones passed, exactly commands `0..k` were issued. */
  lemma RunCommandsStopsAt(cmds: seq<string>, exec: (Session, string) -> Outcome<string>, session: Session, k: nat)
    requires k < |cmds|
    requires forall i :: 0 <= i < k ==> exec(session, cmds[i]).Pass?
    requires exec(session, cmds[k]).Fail?
    ensures RunCommands(cmds, exec, session) == ExecResult(Fail(exec(session, cmds[k]).error), cmds[..k + 1])
  {
    var r := RunCommands(cmds, exec, session);
    if |r.issued| < k + 1 {
      assert false;
    } else if |r.issued| > k + 1 {
      assert false;
    }
  }
}
