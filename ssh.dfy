/** A machine reached over `ssh`: how its destination is written and the
    argument list each of the three ways of running a remote command passes
    to the `ssh` program. */
module Ssh {
  import opened Common
  import opened Proc

  /** A host known by a display name, a hostname and an optional login
      user; the empty `user` means "the ssh default". */
  datatype SshServer = SshServer(name: string, hostname: string, user: string)

  /** The destination argument: `user@hostname`, or the bare hostname when
      `user` is empty (the empty string is falsy). */
  function UserServer(s: SshServer): (r: string)
    ensures |r| >= |s.hostname| && r[|r| - |s.hostname|..] == s.hostname
    ensures s.user == "" ==> r == s.hostname
    ensures s.user != "" ==> |r| == |s.user| + 1 + |s.hostname| && r[..|s.user|] == s.user && r[|s.user|] == '@'
  {
    if s.user != "" then s.user + "@" + s.hostname else s.hostname
  }

  /** A `user@host` destination split at its last `@`: the text before it
      is the user, the rest the host; with no `@` there is no user.  This
      is how `ssh` splits a word it takes as a destination; which words it
      takes as options or as `ssh://` URIs instead is not modelled. */
  function Destination(d: string): (string, string)
  {
    match LastIndex(d, '@')
    case None => ("", d)
    case Some(i) => (d[..i], d[i + 1..])
  }

  /** Split at its last `@`, the destination gives back exactly the
      server's user and host, as long as the host contains no `@` (the
      user may). */
  lemma DestinationOfUserServer(s: SshServer)
    requires '@' !in s.hostname
    ensures Destination(UserServer(s)) == (s.user, s.hostname)
  {
    if s.user != "" {
      LastIndexBefore(s.user, '@', s.hostname);
      var d := s.user + "@" + s.hostname;
      assert d == s.user + ['@'] + s.hostname;
      assert d[..|s.user|] == s.user;
      assert d[|s.user| + 1..] == s.hostname;
    }
  }

  /** `exec` inherits the terminal and checks the exit status;
      `execString` and `execOutput` capture standard output (decoded as
      text or kept as bytes) and do not check it. */
  datatype Mode = Exec | ExecString | ExecOutput

  /** The `ssh` invocation for running `command` on `s`. */
  function SshCall(s: SshServer, command: string, mode: Mode): Call
  {
    Call("ssh", [UserServer(s), command], NoInput, mode != Exec)
  }

  /** Every mode runs `ssh` with exactly two arguments, the destination and
      the remote command unchanged; only `exec` leaves the output alone. */
  lemma SshCallShape(s: SshServer, command: string, mode: Mode)
    ensures var c := SshCall(s, command, mode);
      && c.program == "ssh" && |c.args| == 2
      && c.args[0] == UserServer(s) && c.args[1] == command
      && c.input == NoInput
      && (c.captured <==> mode != Exec)
  {
  }

  /** Running `command` on `s` with `exec`, which throws "Exit status: N"
      when the remote command exits with a non-zero `code`. */
  function SshExec(s: SshServer, command: string, code: int): (r: Run)
    ensures r.calls == [SshCall(s, command, Exec)]
    ensures r.outcome == Done <==> code == 0
  {
    Checked(SshCall(s, command, Exec), ExecCheck, code)
  }

  /** Running `command` on `s` with `execString`: the output is read
      whatever the exit status. */
  function SshExecString(s: SshServer, command: string): (r: Run)
    ensures r.calls == [SshCall(s, command, ExecString)] && r.outcome == Done
  {
    Unchecked(SshCall(s, command, ExecString))
  }
}
