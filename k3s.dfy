/** Installing k3s on a host over ssh and importing the cluster's
    kubeconfig into the local `kubectl` configuration. */
module K3s {
  import opened Common
  import opened Proc
  import opened Ssh

  // ---------------------------------------------------------------------
  // the install pipeline

  /** The fixed text of the pipeline around the assignments. */
  const InstallPrefix: string := "curl -sfL https://get.k3s.io | "
  const InstallInfix: string := " sh -s - "

  /** The remote command that prints a server's node token. */
  const TokenCommand: string := "sudo cat /var/lib/rancher/k3s/server/node-token"

  /** The remote command that prints a server's kubeconfig. */
  const ConfigCommand: string := "sudo cat /etc/rancher/k3s/k3s.yaml"

  /** The address of the k3s API server on `host`. */
  function ApiUrl(host: string): (url: string)
    ensures url == "https://" + host + ":6443"
  {
    "https://" + host + ":6443"
  }

  /** Each entry of the environment record written `k=v`, in enumeration order. */
  function EnvWords(env: Entries): (ws: seq<string>)
    ensures |ws| == |env|
    ensures forall i :: 0 <= i < |env| ==> ws[i] == env[i].0 + "=" + env[i].1
  {
    seq(|env|, i requires 0 <= i < |env| => env[i].0 + "=" + env[i].1)
  }

  /** `k3sInstallCmd(envVars, params)`: the installer piped into `sh` with
      the environment assignments in front and the parameters after `-`. */
  function InstallCmd(env: Entries, params: seq<string>): string
  {
    InstallPrefix + Join(EnvWords(env), " ") + InstallInfix + Join(params, " ")
  }

  /** With nothing to pass, the command keeps both separators, hence the
      two spaces before `sh`. */
  lemma InstallCmdEmpty()
    ensures InstallCmd([], []) == "curl -sfL https://get.k3s.io |  sh -s - "
  {
  }

  /** The words of a join: a join of nothing still leaves one empty word. */
  function Pieces(ws: seq<string>): seq<string>
  {
    if |ws| == 0 then [""] else ws
  }

  /** Words without a space. */
  ghost predicate SpaceFree(ws: seq<string>)
  {
    forall i :: 0 <= i < |ws| ==> ' ' !in ws[i]
  }

  lemma SpaceFreeAppend(a: seq<string>, b: seq<string>)
    requires SpaceFree(a) && SpaceFree(b)
    ensures SpaceFree(a + b)
  {
    forall i | 0 <= i < |a + b| ensures ' ' !in (a + b)[i] {
      if i >= |a| { assert (a + b)[i] == b[i - |a|]; }
    }
  }

  /** The fixed text, word by word. */
  lemma PrefixHalves()
    ensures InstallPrefix == "curl -sfL " + "https://get.k3s.io | "
  {
  }

  lemma PrefixWords()
    ensures InstallPrefix == "curl" + " " + "-sfL" + " " + "https://get.k3s.io" + " " + "|" + " "
  {
    PrefixHalves();
    assert "curl -sfL " == "curl" + " " + "-sfL" + " ";
    assert "https://get.k3s.io | " == "https://get.k3s.io" + " " + "|" + " ";
  }

  lemma InfixWords()
    ensures InstallInfix == " " + ("sh" + " " + "-s" + " " + "-") + " "
  {
  }

  /** The installer part of the pipeline: four shell words. */
  lemma InstallerJoin()
    ensures Join(["curl", "-sfL", "https://get.k3s.io", "|"], " ") == "curl" + " " + "-sfL" + " " + "https://get.k3s.io" + " " + "|"
  {
  }

  lemma InstallerWords()
    ensures SpaceFree(["curl", "-sfL", "https://get.k3s.io", "|"])
  {
    var ws := ["curl", "-sfL", "https://get.k3s.io", "|"];
    forall i | 0 <= i < 4 ensures ' ' !in ws[i] {
      if i == 0 { assert ws[i] == "curl"; }
      else if i == 1 { assert ws[i] == "-sfL"; }
      else if i == 2 { assert ws[i] == "https://get.k3s.io"; }
      else { assert ws[i] == "|"; }
    }
  }

  /** The shell part of the pipeline: three shell words. */
  lemma ShellJoin()
    ensures Join(["sh", "-s", "-"], " ") == "sh" + " " + "-s" + " " + "-"
  {
  }

  lemma ShellWords()
    ensures SpaceFree(["sh", "-s", "-"])
  {
    var ws := ["sh", "-s", "-"];
    forall i | 0 <= i < 3 ensures ' ' !in ws[i] {
      if i == 0 { assert ws[i] == "sh"; }
      else if i == 1 { assert ws[i] == "-s"; }
      else { assert ws[i] == "-"; }
    }
  }

  /** A join of four non-empty runs of words. */
  lemma JoinFour(a: seq<string>, b: seq<string>, c: seq<string>, d: seq<string>, sep: string)
    requires |a| >= 1 && |b| >= 1 && |c| >= 1 && |d| >= 1
    ensures Join(a + b + c + d, sep)
         == Join(a, sep) + sep + Join(b, sep) + sep + Join(c, sep) + sep + Join(d, sep)
  {
    JoinAppend(a + b + c, d, sep);
    JoinAppend(a + b, c, sep);
    JoinAppend(a, b, sep);
  }

  lemma Glue(a: string, b: string, c: string, d: string, sep: string, p: string, q: string)
    requires p == a + sep && q == sep + c + sep
    ensures p + b + q + d == a + sep + b + sep + c + sep + d
  {
  }

  /** The command is the join, at single spaces, of the installer words,
      the environment assignments, `sh -s -` and the parameters. */
  lemma InstallCmdJoin(env: Entries, params: seq<string>)
    ensures InstallCmd(env, params)
         == Join(["curl", "-sfL", "https://get.k3s.io", "|"] + Pieces(EnvWords(env)) + ["sh", "-s", "-"] + Pieces(params), " ")
  {
    var w1, w2 := ["curl", "-sfL", "https://get.k3s.io", "|"], ["sh", "-s", "-"];
    var pe, pp := Pieces(EnvWords(env)), Pieces(params);
    JoinFour(w1, pe, w2, pp, " ");
    InstallerJoin();
    ShellJoin();
    PrefixWords();
    InfixWords();
    var en, par := Join(EnvWords(env), " "), Join(params, " ");
    assert Join(pe, " ") == en && Join(pp, " ") == par;
    Glue(Join(w1, " "), en, Join(w2, " "), par, " ", InstallPrefix, InstallInfix);
  }

  /** Split at `' '`, the command is the installer, then the environment
      assignments in enumeration order, then `sh -s -`, then the parameters
      in their order, provided none of them contains a space.  An empty list
      shows up as one empty word.  This is how a shell reads it only when
      the words also hold no newline, tab or other shell syntax; see
      `TokenNewlineEndsLine` for what a newline does. */
  lemma InstallCmdWords(env: Entries, params: seq<string>)
    requires forall i :: 0 <= i < |env| ==> ' ' !in env[i].0 && ' ' !in env[i].1
    requires forall i :: 0 <= i < |params| ==> ' ' !in params[i]
    ensures Split(InstallCmd(env, params), ' ') ==
      ["curl", "-sfL", "https://get.k3s.io", "|"] + Pieces(EnvWords(env)) + ["sh", "-s", "-"] + Pieces(params)
  {
    var w1, w2 := ["curl", "-sfL", "https://get.k3s.io", "|"], ["sh", "-s", "-"];
    var pe, pp := Pieces(EnvWords(env)), Pieces(params);
    var ws := w1 + pe + w2 + pp;
    forall i | 0 <= i < |env| ensures ' ' !in EnvWords(env)[i] {
    }
    assert SpaceFree(pe);
    assert SpaceFree(pp);
    InstallerWords();
    ShellWords();
    SpaceFreeAppend(w1, pe);
    SpaceFreeAppend(w1 + pe, w2);
    SpaceFreeAppend(w1 + pe + w2, pp);
    InstallCmdJoin(env, params);
    SplitJoin(ws, ' ');
  }

  /** How a shell reads an assignment word: the name before the first `=`,
      the value after it. */
  function Assignment(word: string): (string, string)
  {
    match FirstIndex(word, '=')
    case None => (word, "")
    case Some(i) => (word[..i], word[i + 1..])
  }

  /** Each assignment word gives back its entry, so every entry appears, in
      enumeration order, exactly once, when no name contains `=`. */
  lemma EnvWordsReadBack(env: Entries)
    requires forall i :: 0 <= i < |env| ==> '=' !in env[i].0
    ensures seq(|env|, i requires 0 <= i < |env| => Assignment(EnvWords(env)[i])) == env
  {
    forall i | 0 <= i < |env| ensures Assignment(EnvWords(env)[i]) == env[i] {
      var w := env[i].0 + "=" + env[i].1;
      FirstIndexAfter(env[i].0, '=', env[i].1);
      assert w[..|env[i].0|] == env[i].0;
      assert w[|env[i].0| + 1..] == env[i].1;
    }
  }

  // ---------------------------------------------------------------------
  // k3sInstall

  datatype Role = Server | Agent

  /** `k3sInstall(server, role, master)`, where reading the master's node
      token (if there is a master) answers `token` and the install command
      exits with `installCode`.  The token goes into the environment as it
      was read, untrimmed. */
  method Install(server: SshServer, role: Role, master: Option<SshServer>, token: string, installCode: int)
    returns (env: Entries, params: seq<string>, run: Run)
    ensures master.None? ==> env == []
    ensures master.Some? ==> env == [("K3S_URL", ApiUrl(master.value.hostname)), ("K3S_TOKEN", token)]
    ensures role == Server && master.None? ==> params == ["--cluster-init", "--tls-san", server.hostname]
    ensures role == Server && master.Some? ==> params == ["--tls-san", server.hostname]
    ensures role == Agent ==> params == []
    ensures run.calls == (if master.Some? then [SshCall(master.value, TokenCommand, ExecString)] else [])
                         + [SshCall(server, InstallCmd(env, params), Exec)]
    ensures run.outcome == Done <==> installCode == 0
    ensures run.outcome != Done ==> run.outcome == Failed(NonZeroExit(ExecCheck, installCode))
  {
    env := [];
    var calls: seq<Call> := [];
    if master.Some? {
      env := Put(env, "K3S_URL", ApiUrl(master.value.hostname));
      calls := calls + SshExecString(master.value, TokenCommand).calls;
      assert "K3S_URL"[4] != "K3S_TOKEN"[4];
      assert Keys(env) == ["K3S_URL"];
      PutNew(env, "K3S_TOKEN", token);
      env := Put(env, "K3S_TOKEN", token);
      assert env == [("K3S_URL", ApiUrl(master.value.hostname)), ("K3S_TOKEN", token)];
      assert calls == [SshCall(master.value, TokenCommand, ExecString)];
    }
    params := [];
    if role == Server {
      if master.None? {
        params := params + ["--cluster-init"];
      }
      params := params + ["--tls-san", server.hostname];
    }
    var cmd := InstallCmd(env, params);
    var install := SshExec(server, cmd, installCode);
    assert install.calls == [SshCall(server, cmd, Exec)];
    run := Run(calls + install.calls, install.outcome);
  }

  /** The token goes in as read.  When it ends in a newline, as the output
      of `sudo cat` of the token file does, that newline ends the first line
      of the remote command right after the assignments, and `sh -s -` with
      the parameters stands on a line of its own. */
  lemma TokenNewlineEndsLine(host: string, t: string, params: seq<string>)
    ensures InstallCmd([("K3S_URL", ApiUrl(host)), ("K3S_TOKEN", t + "\n")], params)
         == (InstallPrefix + ("K3S_URL" + "=" + ApiUrl(host)) + " " + ("K3S_TOKEN" + "=" + t)) + "\n"
            + (InstallInfix + Join(params, " "))
  {
    var env := [("K3S_URL", ApiUrl(host)), ("K3S_TOKEN", t + "\n")];
    var w0, b := "K3S_URL" + "=" + ApiUrl(host), "K3S_TOKEN" + "=";
    var ws := EnvWords(env);
    assert ws[0] == w0 && ws[1] == b + (t + "\n");
    assert ws[1..] == [ws[1]];
    assert Join(ws, " ") == w0 + " " + (b + (t + "\n"));
    Regroup(InstallPrefix, w0, b, t, "\n", InstallInfix, Join(params, " "));
  }

  lemma Regroup(p: string, w: string, b: string, t: string, n: string, i: string, q: string)
    ensures p + (w + " " + (b + (t + n))) + i + q == (p + w + " " + (b + t)) + n + (i + q)
  {
  }

  /** The environment an install builds is a record whose token entry is
      exactly the text read from the master. */
  lemma InstallEnvToken(master: SshServer, token: string)
    ensures var env := [("K3S_URL", ApiUrl(master.hostname)), ("K3S_TOKEN", token)];
      DistinctKeys(env) && Lookup(env, "K3S_TOKEN") == Some(token)
      && Lookup(env, "K3S_URL") == Some(ApiUrl(master.hostname))
  {
    var env := [("K3S_URL", ApiUrl(master.hostname)), ("K3S_TOKEN", token)];
    assert Keys(env) == ["K3S_URL", "K3S_TOKEN"];
  }

  // ---------------------------------------------------------------------
  // kubeconfig

  datatype ClusterInfo = ClusterInfo(
    certificateAuthorityData: Option<string>,
    certificateAuthority: Option<string>,
    server: string)

  datatype KubeCluster = KubeCluster(name: string, cluster: ClusterInfo)

  datatype UserInfo = UserInfo(
    clientCertificateData: Option<string>,
    clientCertificate: Option<string>,
    clientKeyData: Option<string>,
    clientKey: Option<string>)

  datatype KubeUser = KubeUser(name: string, user: UserInfo)

  datatype ContextInfo = ContextInfo(cluster: string, namespace: string, user: string)

  datatype KubeContext = KubeContext(name: string, context: ContextInfo)

  /** A kubeconfig as the YAML parser hands it over. */
  datatype KubeConfig = KubeConfig(clusters: seq<KubeCluster>, users: seq<KubeUser>, contexts: seq<KubeContext>)

  /** The fields the import asserts to be present (with `!`): the first
      cluster's CA data and the first user's certificate and key data. */
  ghost predicate DataPresent(config: KubeConfig)
  {
    && (|config.clusters| > 0 ==> config.clusters[0].cluster.certificateAuthorityData.Some?)
    && (|config.users| > 0 ==> config.users[0].user.clientCertificateData.Some?
                               && config.users[0].user.clientKeyData.Some?)
  }

  /** The four `kubectl config` argument lists that register cluster `name`. */
  function ConfigArgs(name: string, url: string, ca: string, cert: string, key: string): seq<seq<string>>
  {
    [ ["config", "set-cluster", name, "--server", url, "--certificate-authority-data", ca],
      ["config", "set-credentials", name, "--client-certificate-data", cert, "--client-key-data", key],
      ["config", "set-context", name, "--cluster", name, "--user", name],
      ["config", "use-context", name] ]
  }

  function KubectlStep(args: seq<string>): Step
  {
    Step(Call("kubectl", args, NoInput, false), ExecCheck)
  }

  function ConfigSteps(name: string, url: string, ca: string, cert: string, key: string): (steps: seq<Step>)
    ensures |steps| == 4
    ensures forall j :: 0 <= j < 4 ==> steps[j] == KubectlStep(ConfigArgs(name, url, ca, cert, key)[j])
  {
    var a := ConfigArgs(name, url, ca, cert, key);
    [KubectlStep(a[0]), KubectlStep(a[1]), KubectlStep(a[2]), KubectlStep(a[3])]
  }

  /** `k3sDownloadKubeConfig(name, server)`, where the server's kubeconfig
      parses to `config` and the j-th `kubectl config` call exits with
      `exitCode(j)`.  An empty cluster or user list fails when its first
      element is read, before any `kubectl` call. */
  function DownloadKubeConfig(name: string, server: SshServer, config: KubeConfig, exitCode: nat -> int): (r: Run)
    requires DataPresent(config)
    ensures |r.calls| >= 1 && r.calls[0] == SshCall(server, ConfigCommand, ExecString)
    ensures |config.clusters| == 0 || |config.users| == 0 ==> r == Run([r.calls[0]], Failed(UndefinedAccess))
  {
    var read := SshExecString(server, ConfigCommand);
    if |config.clusters| == 0 || |config.users| == 0 then Then(read, Run([], Failed(UndefinedAccess)))
    else
      var ca := config.clusters[0].cluster.certificateAuthorityData.value;
      var url := ApiUrl(server.hostname);
      var cert := config.users[0].user.clientCertificateData.value;
      var key := config.users[0].user.clientKeyData.value;
      Then(read, RunSteps(ConfigSteps(name, url, ca, cert, key), exitCode))
  }

  /** When the kubeconfig has a cluster and a user and every `kubectl config`
      call succeeds, the import reads the kubeconfig and then makes exactly
      the four calls, in order, with the first cluster's CA data, the first
      user's credentials and the server's API URL; it stops at the first
      call that fails. */
  lemma DownloadKubeConfigCalls(name: string, server: SshServer, config: KubeConfig, exitCode: nat -> int)
    requires DataPresent(config)
    requires |config.clusters| > 0 && |config.users| > 0
    ensures var r := DownloadKubeConfig(name, server, config, exitCode);
      var steps := ConfigSteps(name, ApiUrl(server.hostname),
        config.clusters[0].cluster.certificateAuthorityData.value,
        config.users[0].user.clientCertificateData.value,
        config.users[0].user.clientKeyData.value);
      && (r.outcome == Done <==> forall j :: 0 <= j < 4 ==> exitCode(j) == 0)
      && (r.outcome == Done ==> r.calls == [SshCall(server, ConfigCommand, ExecString)] + CallsOf(steps))
      && (forall k :: 0 <= k < 4 && exitCode(k) != 0 && (forall j :: 0 <= j < k ==> exitCode(j) == 0) ==>
            r == Run([SshCall(server, ConfigCommand, ExecString)] + CallsOf(steps[..k + 1]), Failed(NonZeroExit(ExecCheck, exitCode(k)))))
  {
    var steps := ConfigSteps(name, ApiUrl(server.hostname),
      config.clusters[0].cluster.certificateAuthorityData.value,
      config.users[0].user.clientCertificateData.value,
      config.users[0].user.clientKeyData.value);
    RunStepsSpec(steps, exitCode);
  }

  /** Read back as a command line, `set-cluster` names the cluster and
      passes the API URL and the CA data under their flags. */
  lemma SetClusterReadBack(name: string, url: string, ca: string)
    requires !IsFlag(name)
    ensures var a := ConfigArgs(name, url, ca, "", "")[0];
      && Positionals(a) == ["config", "set-cluster", name]
      && FlagValue(a, "--server") == Some(url)
      && FlagValue(a, "--certificate-authority-data") == Some(ca)
  {
    var t0 := ["--certificate-authority-data", ca];
    var flags := ["--server", url] + t0;
    FlagValueFront("--certificate-authority-data", ca, []);
    assert FlagValue(t0, "--server") == FlagValue([], "--server") == None;
    FlagValueFront("--server", url, t0);
    Words3(flags, "config", "set-cluster", name);
    assert ["config"] + (["set-cluster"] + ([name] + flags)) == ConfigArgs(name, url, ca, "", "")[0];
  }

  /** The three leading words of a `kubectl config` command line are its
      arguments and leave the flags behind them alone. */
  lemma Words3(flags: seq<string>, w0: string, w1: string, w2: string)
    requires !IsFlag(w0) && !IsFlag(w1) && !IsFlag(w2)
    ensures var a := [w0] + ([w1] + ([w2] + flags));
      && Positionals(a) == [w0, w1, w2] + Positionals(flags)
      && forall f :: FlagValue(a, f) == FlagValue(flags, f)
  {
    PositionalFront(w2, flags);
    PositionalFront(w1, [w2] + flags);
    PositionalFront(w0, [w1] + ([w2] + flags));
  }

  /** `set-credentials` names the user and passes the certificate and key
      data under their flags. */
  lemma SetCredentialsReadBack(name: string, cert: string, key: string)
    requires !IsFlag(name)
    ensures var a := ConfigArgs(name, "", "", cert, key)[1];
      && Positionals(a) == ["config", "set-credentials", name]
      && FlagValue(a, "--client-certificate-data") == Some(cert)
      && FlagValue(a, "--client-key-data") == Some(key)
  {
    var t0 := ["--client-key-data", key];
    var flags := ["--client-certificate-data", cert] + t0;
    FlagValueFront("--client-key-data", key, []);
    assert FlagValue(t0, "--client-certificate-data") == FlagValue([], "--client-certificate-data") == None;
    FlagValueFront("--client-certificate-data", cert, t0);
    Words3(flags, "config", "set-credentials", name);
    assert ["config"] + (["set-credentials"] + ([name] + flags)) == ConfigArgs(name, "", "", cert, key)[1];
  }

  /** `set-context` ties the context `name` to the cluster and the user of
      the same name, and `use-context` selects it. */
  lemma SetContextReadBack(name: string)
    requires !IsFlag(name)
    ensures var a := ConfigArgs(name, "", "", "", "");
      && Positionals(a[2]) == ["config", "set-context", name]
      && FlagValue(a[2], "--cluster") == Some(name)
      && FlagValue(a[2], "--user") == Some(name)
      && Positionals(a[3]) == ["config", "use-context", name]
  {
    var t0 := ["--user", name];
    var flags := ["--cluster", name] + t0;
    FlagValueFront("--user", name, []);
    assert FlagValue(t0, "--cluster") == FlagValue([], "--cluster") == None;
    FlagValueFront("--cluster", name, t0);
    Words3(flags, "config", "set-context", name);
    assert ["config"] + (["set-context"] + ([name] + flags)) == ConfigArgs(name, "", "", "", "")[2];
    Words3([], "config", "use-context", name);
    assert ["config"] + (["use-context"] + ([name] + [])) == ConfigArgs(name, "", "", "", "")[3];
  }
}
