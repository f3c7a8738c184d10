/** The Kubernetes side: the command lines handed to `kubectl` and `helm`,
    environment variables and secrets, reading a resource back, and the
    manifests a `K8sNamespace` applies.  A namespace never changes its
    context or namespace, so it is a value and its methods are functions
    of it. */
module K8s {
  import opened Common
  import opened Base64
  import opened Manifests
  import opened Proc
  import Security

  /** A `K8sNamespace`: the kube context and the namespace every call targets. */
  datatype Namespace = Namespace(context: string, namespace: string)

  // ---------------------------------------------------------------------
  // command lines

  /** `kubectl(args)`: the namespace's context and namespace in front of `args`. */
  function KubectlArgs(ns: Namespace, args: seq<string>): seq<string>
  {
    ["--context", ns.context, "-n", ns.namespace] + args
  }

  function KubectlCall(ns: Namespace, args: seq<string>, captured: bool): Call
  {
    Call("kubectl", KubectlArgs(ns, args), NoInput, captured)
  }

  /** The arguments of `k8sApply(context, namespace, data)`; the manifest
      comes on standard input. */
  function ApplyArgs(context: string, namespace: string): seq<string>
  {
    ["--context", context, "apply", "-n", namespace, "-f", "-"]
  }

  function ApplyCall(context: string, namespace: string, m: Manifest): Call
  {
    Call("kubectl", ApplyArgs(context, namespace), ManifestInput(m), false)
  }

  /** `k8sApply(context, namespace, m)` where `kubectl apply` exits with `code`. */
  function K8sApply(context: string, namespace: string, m: Manifest, code: int): (r: Run)
    ensures r.calls == [ApplyCall(context, namespace, m)]
    ensures r.outcome == Done <==> code == 0
    ensures r.outcome != Done ==> r.outcome == Failed(NonZeroExit(ApplyCheck, code))
  {
    Checked(ApplyCall(context, namespace, m), ApplyCheck, code)
  }

  /** `ns.apply(m)` */
  function Apply(ns: Namespace, m: Manifest, code: int): Run
  {
    K8sApply(ns.context, ns.namespace, m, code)
  }

  function ApplyStep(ns: Namespace, m: Manifest): Step
  {
    Step(ApplyCall(ns.context, ns.namespace, m), ApplyCheck)
  }

  /** The arguments of `helmChart`: install or upgrade release `name` from
      `chart` and wait for it, with the values on standard input. */
  function HelmArgs(ns: Namespace, name: string, chart: string): seq<string>
  {
    ["--kube-context", ns.context, "--namespace", ns.namespace,
     "upgrade", name, chart, "--install", "--wait", "--values", "-"]
  }

  /** `helmChart({name, remoteChart, values})` where `helm` exits with `code`. */
  function HelmChart(ns: Namespace, name: string, chart: string, values: Json, code: int): (r: Run)
    ensures r.calls == [Call("helm", HelmArgs(ns, name, chart), ValuesInput(values), false)]
    ensures r.outcome == Done <==> code == 0
    ensures r.outcome != Done ==> r.outcome == Failed(NonZeroExit(HelmCheck, code))
  {
    Checked(Call("helm", HelmArgs(ns, name, chart), ValuesInput(values), false), HelmCheck, code)
  }

  /** A call targets the namespace's context and namespace, read back from
      its command line under the flags of its program. */
  ghost predicate InScope(ns: Namespace, c: Call)
  {
    || (c.program == "kubectl" && FlagValue(c.args, "--context") == Some(ns.context)
        && FlagValue(c.args, "-n") == Some(ns.namespace))
    || (c.program == "helm" && FlagValue(c.args, "--kube-context") == Some(ns.context)
        && FlagValue(c.args, "--namespace") == Some(ns.namespace))
  }

  /** A word by which `kubectl` could take a context or a namespace from
      the words after the namespace's own, or look across all namespaces:
      `--context`, `--namespace` or `--all-namespaces`, any of them with
      `=value` attached, or a cluster of short flags that holds `n` or `A`. */
  predicate ScopeFlag(w: string)
  {
    || w == "--context" || w == "--namespace" || w == "--all-namespaces"
    || (|w| >= 10 && w[..10] == "--context=")
    || (|w| >= 12 && w[..12] == "--namespace=")
    || (|w| >= 17 && w[..17] == "--all-namespaces=")
    || (|w| >= 2 && w[0] == '-' && w[1] != '-' && ('n' in w[1..] || 'A' in w[1..]))
  }

  /** `kubectl` reads the namespace's context and namespace from the front
      of its arguments, as long as the words after them name neither a
      context nor a namespace of their own (a later one would win). */
  lemma KubectlScope(ns: Namespace, args: seq<string>, captured: bool)
    requires forall i :: 0 <= i < |args| ==> !ScopeFlag(args[i])
    ensures InScope(ns, KubectlCall(ns, args, captured))
  {
    forall i | 0 <= i < |args| ensures FlagName(args[i]) != "-n" && FlagName(args[i]) != "--context" {
      assert !ScopeFlag(args[i]);
    }
    FlagValueAbsent(args, "-n");
    FlagValueAbsent(args, "--context");
    FlagValueFront("-n", ns.namespace, args);
    FlagValueFront("--context", ns.context, ["-n", ns.namespace] + args);
    assert KubectlArgs(ns, args) == ["--context", ns.context] + (["-n", ns.namespace] + args);
  }

  /** A word that is no flag, such as a resource name, names no scope. */
  lemma NoFlagNoScope(w: string)
    requires !IsFlag(w)
    ensures !ScopeFlag(w)
  {
  }

  /** The words of `getResource(resource, name)` name no scope of their own. */
  lemma GetWordsScopeFree(resource: string, name: string)
    requires !IsFlag(resource) && !IsFlag(name)
    ensures forall i :: 0 <= i < 5 ==> !ScopeFlag(["get", resource, name, "-o", "yaml"][i])
  {
    var ws := ["get", resource, name, "-o", "yaml"];
    forall i | 0 <= i < 5 ensures !ScopeFlag(ws[i]) {
      if i == 0 { assert ws[i] == "get"; }
      else if i == 1 { NoFlagNoScope(resource); }
      else if i == 2 { NoFlagNoScope(name); }
      else if i == 3 { assert ws[i] == "-o"; assert ws[i][1..] == "o"; }
      else { assert ws[i] == "yaml"; }
    }
  }

  /** `kubectl apply` reads the context and the namespace, has the single
      positional argument `apply`, and takes the manifest from standard input
      (`-f -`). */
  lemma ApplyArgsReadBack(context: string, namespace: string)
    ensures FlagValue(ApplyArgs(context, namespace), "--context") == Some(context)
    ensures FlagValue(ApplyArgs(context, namespace), "-n") == Some(namespace)
    ensures FlagValue(ApplyArgs(context, namespace), "-f") == Some("-")
    ensures Positionals(ApplyArgs(context, namespace)) == ["apply"]
  {
    var tail := ["-n", namespace] + ["-f", "-"];
    FlagValueFront("-f", "-", []);
    FlagValueFront("-n", namespace, ["-f", "-"]);
    PositionalFront("apply", tail);
    FlagValueFront("--context", context, ["apply"] + tail);
    assert ApplyArgs(context, namespace) == ["--context", context] + (["apply"] + tail);
  }

  lemma ApplyScope(ns: Namespace, m: Manifest)
    ensures InScope(ns, ApplyCall(ns.context, ns.namespace, m))
  {
    ApplyArgsReadBack(ns.context, ns.namespace);
  }

  /** What follows the context and the namespace on `helm`'s command line:
      the arguments `upgrade`, the release and the chart, the switches
      `--install` and `--wait`, and `--values -`, and no other flag. */
  lemma HelmTail(name: string, chart: string)
    requires !IsFlag(name) && !IsFlag(chart)
    ensures var t := ["upgrade", name, chart, "--install", "--wait", "--values", "-"];
      && Positionals(t) == ["upgrade", name, chart]
      && Switches(t) == ["--install", "--wait"]
      && FlagValue(t, "--values") == Some("-")
      && forall f :: FlagName(f) != "--values" ==> FlagValue(t, f).None?
  {
    var t0 := ["--values", "-"];
    var t1 := ["--wait"] + t0;
    var t2 := ["--install"] + t1;
    var t3 := [chart] + t2;
    var t4 := [name] + t3;
    var t5 := ["upgrade"] + t4;
    FlagValueFront("--values", "-", []);
    SwitchFront("--wait", t0);
    SwitchFront("--install", t1);
    PositionalFront(chart, t2);
    PositionalFront(name, t3);
    PositionalFront("upgrade", t4);
    Nest(name, chart);
    assert Positionals(t5) == ["upgrade"] + ([name] + ([chart] + []));
    assert Switches(t5) == ["--install"] + (["--wait"] + []);
  }

  /** The tail of `helm`'s command line as the nested fronts the proof
      above peels off. */
  lemma Nest(name: string, chart: string)
    ensures ["upgrade", name, chart, "--install", "--wait", "--values", "-"]
         == ["upgrade"] + ([name] + ([chart] + (["--install"] + (["--wait"] + ["--values", "-"]))))
    ensures ["upgrade"] + ([name] + ([chart] + [])) == ["upgrade", name, chart]
    ensures ["--install"] + (["--wait"] + []) == ["--install", "--wait"]
  {
  }

  lemma HelmArgsFront(ns: Namespace, name: string, chart: string)
    ensures HelmArgs(ns, name, chart) == ["--kube-context", ns.context]
      + (["--namespace", ns.namespace] + ["upgrade", name, chart, "--install", "--wait", "--values", "-"])
  {
  }

  /** `helm` reads the namespace's context and namespace from the front of
      its arguments when neither the release nor the chart is a flag. */
  lemma HelmScope(ns: Namespace, name: string, chart: string, values: Json)
    requires !IsFlag(name) && !IsFlag(chart)
    ensures InScope(ns, Call("helm", HelmArgs(ns, name, chart), ValuesInput(values), false))
  {
    var rest := ["upgrade", name, chart, "--install", "--wait", "--values", "-"];
    HelmTail(name, chart);
    assert FlagValue(rest, "--namespace").None? && FlagValue(rest, "--kube-context").None?;
    FlagValueFront("--namespace", ns.namespace, rest);
    FlagValueFront("--kube-context", ns.context, ["--namespace", ns.namespace] + rest);
    HelmArgsFront(ns, name, chart);
  }

  /** `helm` sees the subcommand `upgrade`, the release and the chart as
      its arguments and `--install` and `--wait` as switches, and reads the
      values from standard input, as long as neither the release nor the
      chart is a flag. */
  lemma HelmArgsReadBack(ns: Namespace, name: string, chart: string)
    requires !IsFlag(name) && !IsFlag(chart)
    ensures Positionals(HelmArgs(ns, name, chart)) == ["upgrade", name, chart]
    ensures Switches(HelmArgs(ns, name, chart)) == ["--install", "--wait"]
    ensures FlagValue(HelmArgs(ns, name, chart), "--values") == Some("-")
  {
    var rest := ["upgrade", name, chart, "--install", "--wait", "--values", "-"];
    HelmTail(name, chart);
    FlagValueFront("--namespace", ns.namespace, rest);
    FlagValueFront("--kube-context", ns.context, ["--namespace", ns.namespace] + rest);
    HelmArgsFront(ns, name, chart);
  }

  // ---------------------------------------------------------------------
  // environment variables

  /** `k8sSimpleEnv`'s argument; a missing record counts as `{}`. */
  datatype SimpleEnvProps = SimpleEnvProps(envSecrets: Option<Entries>, envPlain: Option<Entries>)

  /** `secret.split(".")[0]` and `secret.split(".")[1]` */
  function SecretRef(secret: string): (string, string)
    requires '.' in secret
  {
    var parts := Split(secret, '.');
    (parts[0], parts[1])
  }

  /** The secret's name is the text before the first `.`, its key the text
      between the first and the second `.` (or the end); whatever follows a
      second `.` is dropped. */
  lemma SecretRefSpec(secret: string)
    requires '.' in secret
    ensures var (n, k) := SecretRef(secret);
      && |n| < |secret| && secret[..|n|] == n && secret[|n|] == '.' && '.' !in n
      && var rest := secret[|n| + 1..];
         && |k| <= |rest| && rest[..|k|] == k && '.' !in k && (|k| == |rest| || rest[|k|] == '.')
  {
    var i := FirstIndex(secret, '.').value;
    var rest := secret[i + 1..];
    assert Split(secret, '.') == [secret[..i]] + Split(rest, '.');
    match FirstIndex(rest, '.')
    case None =>
      assert Split(rest, '.') == [rest];
    case Some(j) =>
      assert Split(rest, '.') == [rest[..j]] + Split(rest[j + 1..], '.');
  }

  /** `k8sSimpleEnv(props)`: every secret reference must contain a `.`;
      then the secret variables in enumeration order, followed by the
      plain ones in enumeration order. */
  function SimpleEnv(props: SimpleEnvProps): (r: Result<seq<EnvVar>, Error>)
    ensures var secrets, plain := props.envSecrets.GetOr([]), props.envPlain.GetOr([]);
      && (r.Err? <==> exists i :: 0 <= i < |secrets| && '.' !in secrets[i].1)
      && (r.Err? ==> r.error == BadSecretFormat)
      && (r.Ok? ==>
            && |r.value| == |secrets| + |plain|
            && (forall i :: 0 <= i < |secrets| ==>
                  r.value[i] == SecretVar(secrets[i].0, SecretRef(secrets[i].1).0, SecretRef(secrets[i].1).1))
            && (forall i :: 0 <= i < |plain| ==> r.value[|secrets| + i] == PlainVar(plain[i].0, plain[i].1)))
  {
    var secrets, plain := props.envSecrets.GetOr([]), props.envPlain.GetOr([]);
    if exists i | 0 <= i < |secrets| :: '.' !in secrets[i].1 then Err(BadSecretFormat)
    else
      Ok(seq(|secrets|, i requires 0 <= i < |secrets| =>
             SecretVar(secrets[i].0, SecretRef(secrets[i].1).0, SecretRef(secrets[i].1).1))
         + seq(|plain|, i requires 0 <= i < |plain| => PlainVar(plain[i].0, plain[i].1)))
  }

  /** The variables are named after the keys of the two records, secrets first. */
  lemma SimpleEnvNames(props: SimpleEnvProps)
    requires SimpleEnv(props).Ok?
    ensures var vars := SimpleEnv(props).value;
      seq(|vars|, i requires 0 <= i < |vars| => vars[i].name)
        == Keys(props.envSecrets.GetOr([])) + Keys(props.envPlain.GetOr([]))
  {
    var secrets, plain := props.envSecrets.GetOr([]), props.envPlain.GetOr([]);
    var vars := SimpleEnv(props).value;
    KeysIndex(secrets);
    KeysIndex(plain);
    var names := seq(|vars|, i requires 0 <= i < |vars| => vars[i].name);
    var ks, kp := Keys(secrets), Keys(plain);
    forall i | 0 <= i < |secrets| ensures names[i] == ks[i] {
    }
    forall i | 0 <= i < |plain| ensures names[|secrets| + i] == kp[i] {
      assert vars[|secrets| + i] == PlainVar(plain[i].0, plain[i].1);
    }
    ConcatOf(names, ks, kp);
  }

  /** A sequence that agrees with `a` and then with `b` is `a + b`. */
  lemma ConcatOf<T>(s: seq<T>, a: seq<T>, b: seq<T>)
    requires |s| == |a| + |b|
    requires forall i :: 0 <= i < |a| ==> s[i] == a[i]
    requires forall i :: 0 <= i < |b| ==> s[|a| + i] == b[i]
    ensures s == a + b
  {
    forall i | |a| <= i < |s| ensures s[i] == (a + b)[i] {
      assert s[|a| + (i - |a|)] == b[i - |a|];
    }
  }

  /** `Keys` lists the first components in order. */
  lemma {:induction false} KeysIndex(r: Entries)
    ensures forall i :: 0 <= i < |r| ==> Keys(r)[i] == r[i].0
  {
    if |r| > 0 {
      KeysIndex(r[1..]);
      assert Keys(r) == [r[0].0] + Keys(r[1..]);
    }
  }

  // ---------------------------------------------------------------------
  // secrets

  /** The secret type `k8sSetSecret` and `setSecret` use when given none. */
  const DefaultSecretType: string := "Opaque"

  /** The `data` of a secret: every value through `btoa`, keys kept, in
      order; the first value `btoa` refuses is an `InvalidCharacterError`. */
  function EncodeSecretData(data: Entries): (r: Result<Entries, Error>)
    ensures r.Ok? <==> forall i :: 0 <= i < |data| ==> Btoa(data[i].1).Some?
    ensures r.Err? ==> r.error == InvalidCharacter
    ensures r.Ok? ==> && |r.value| == |data| && Keys(r.value) == Keys(data)
                      && forall i :: 0 <= i < |data| ==> Btoa(data[i].1) == Some(r.value[i].1)
  {
    if |data| == 0 then Ok([])
    else
      match Btoa(data[0].1)
      case None => Err(InvalidCharacter)
      case Some(e) =>
        match EncodeSecretData(data[1..])
        case Err(err) => Err(err)
        case Ok(rest) =>
          assert ([(data[0].0, e)] + rest)[1..] == rest;
          assert forall i :: 1 <= i < |data| ==> data[i] == data[1..][i - 1];
          Ok([(data[0].0, e)] + rest)
  }

  /** Decoding the stored data gives back the values that were set. */
  lemma SecretDataDecodes(data: Entries)
    requires EncodeSecretData(data).Ok?
    ensures forall i :: 0 <= i < |data| ==> Atob(EncodeSecretData(data).value[i].1) == Some(data[i].1)
  {
    forall i | 0 <= i < |data| ensures Atob(EncodeSecretData(data).value[i].1) == Some(data[i].1) {
      BtoaRoundTrip(data[i].1);
    }
  }

  function SecretManifest(name: string, namespace: string, secretType: string, encoded: Entries): Manifest
  {
    SecretObject(Metadata(name, Some(namespace), None), secretType, encoded)
  }

  /** `k8sSetSecret(context, namespace, name, data, type)` where `kubectl
      apply` exits with `code`; a missing type is "Opaque". */
  function K8sSetSecret(context: string, namespace: string, name: string, data: Entries,
                        secretType: Option<string>, code: int): (r: Run)
    ensures |r.calls| <= 1
    ensures forall c :: c in r.calls ==> c.args == ApplyArgs(context, namespace)
  {
    match EncodeSecretData(data)
    case Err(e) => Run([], Failed(e))
    case Ok(encoded) =>
      K8sApply(context, namespace, SecretManifest(name, namespace, secretType.GetOr(DefaultSecretType), encoded), code)
  }

  /** A value `btoa` refuses means no call at all.  Otherwise exactly one
      secret is applied, in the given namespace, of the given type or
      "Opaque", with the same keys in the same order and every value
      replaced by its `btoa`, which decodes back to the one given. */
  lemma K8sSetSecretSpec(context: string, namespace: string, name: string, data: Entries,
                         secretType: Option<string>, code: int)
    ensures var r := K8sSetSecret(context, namespace, name, data, secretType, code);
      && ((exists i :: 0 <= i < |data| && Btoa(data[i].1).None?) ==> r == Run([], Failed(InvalidCharacter)))
      && ((forall i :: 0 <= i < |data| ==> Btoa(data[i].1).Some?) ==>
            && |r.calls| == 1 && r.calls[0].input.ManifestInput?
            && var m := r.calls[0].input.manifest;
            && m.SecretObject? && m.metadata == Metadata(name, Some(namespace), None)
            && m.secretType == (if secretType.Some? then secretType.value else "Opaque")
            && Keys(m.data) == Keys(data) && |m.data| == |data|
            && (forall i :: 0 <= i < |data| ==> Btoa(data[i].1) == Some(m.data[i].1))
            && (forall i :: 0 <= i < |data| ==> Atob(m.data[i].1) == Some(data[i].1))
            && (r.outcome == Done <==> code == 0))
  {
    if forall i :: 0 <= i < |data| ==> Btoa(data[i].1).Some? {
      SecretDataDecodes(data);
    }
  }

  /** `ns.setSecret(name, data, type)` */
  function SetSecret(ns: Namespace, name: string, data: Entries, secretType: Option<string>, code: int): (r: Run)
    ensures forall c :: c in r.calls ==> InScope(ns, c)
  {
    var r := K8sSetSecret(ns.context, ns.namespace, name, data, secretType, code);
    ApplyArgsReadBack(ns.context, ns.namespace);
    r
  }

  /** `ns.createNamespace()` */
  function CreateNamespace(ns: Namespace, code: int): (r: Run)
    ensures forall c :: c in r.calls ==> InScope(ns, c)
    ensures r.calls == [ApplyCall(ns.context, ns.namespace, NamespaceObject(Metadata(ns.namespace, None, None)))]
  {
    ApplyScope(ns, NamespaceObject(Metadata(ns.namespace, None, None)));
    Apply(ns, NamespaceObject(Metadata(ns.namespace, None, None)), code)
  }

  // ---------------------------------------------------------------------
  // reading a resource

  /** What `kubectl get` answered: its exit code, its standard output
      parsed as YAML (`None` when that is null), and its standard error. */
  datatype GetOutput = GetOutput(code: int, parsed: Option<Manifest>, stderr: string)

  /** The `kubectl get resource name -o yaml` call, whose output is captured. */
  function GetCall(ns: Namespace, resource: string, name: string): (c: Call)
    ensures c.program == "kubectl" && c.captured && c.input == NoInput
  {
    KubectlCall(ns, ["get", resource, name, "-o", "yaml"], true)
  }

  /** `getResource(resource, name)` after the call: the parsed object on
      success, null when the error says "not found", otherwise an error. */
  function ClassifyGet(resource: string, name: string, out: GetOutput): (r: Result<Option<Manifest>, Error>)
    ensures r.Ok? && r.value.Some? ==> out.code == 0 && r.value == out.parsed
    ensures r.Err? ==> out.code != 0 && r.error == GetFailed(resource, name, out.stderr)
  {
    if out.code == 0 then Ok(out.parsed)
    else if Contains(out.stderr, "not found") then Ok(None)
    else Err(GetFailed(resource, name, out.stderr))
  }

  /** Exit code 0 yields the parsed output; a non-zero exit yields absence
      exactly when "not found" occurs somewhere in the error text, and an
      error naming the resource otherwise. */
  lemma GetResourceSpec(resource: string, name: string, out: GetOutput)
    ensures out.code == 0 ==> ClassifyGet(resource, name, out) == Ok(out.parsed)
    ensures out.code != 0 ==>
      (ClassifyGet(resource, name, out) == Ok(None) <==> exists i :: OccursAt(out.stderr, "not found", i))
    ensures ClassifyGet(resource, name, out).Err? <==>
      out.code != 0 && !(exists i :: OccursAt(out.stderr, "not found", i))
    ensures ClassifyGet(resource, name, out).Err? ==>
      ClassifyGet(resource, name, out).error == GetFailed(resource, name, out.stderr)
  {
    ContainsSpec(out.stderr, "not found");
  }

  /** A lookup targets the namespace unless the resource or the name is a flag. */
  lemma GetScope(ns: Namespace, resource: string, name: string)
    ensures !IsFlag(resource) && !IsFlag(name) ==> InScope(ns, GetCall(ns, resource, name))
  {
    if !IsFlag(resource) && !IsFlag(name) {
      GetWordsScopeFree(resource, name);
      KubectlScope(ns, ["get", resource, name, "-o", "yaml"], true);
    }
  }

  /** `ns.initRandomSecret(name, {key})`, where the lookup of the secret
      answers `got`, the password is drawn from `random` and the apply exits
      with `applyCode`: nothing is written when the secret exists. */
  function InitRandomSecret(ns: Namespace, name: string, key: string, got: GetOutput,
                            random: seq<byte>, applyCode: int): (r: Run)
    requires |random| >= 32
    ensures |r.calls| >= 1 && r.calls[0] == GetCall(ns, "secret", name)
    ensures !IsFlag(name) ==> forall c :: c in r.calls ==> InScope(ns, c)
  {
    var get := Unchecked(GetCall(ns, "secret", name));
    GetScope(ns, "secret", name);
    match ClassifyGet("secret", name, got)
    case Err(e) => Run(get.calls, Failed(e))
    case Ok(Some(_)) => get
    case Ok(None) =>
      Then(get, SetSecret(ns, name, [(key, Security.PasswordOf(32, random))], None, applyCode))
  }

  /** An existing secret is left alone: the lookup is the only call.  An
      absent one is created by exactly one apply of an "Opaque" secret in
      the namespace whose only key is `key` and whose value decodes to a
      32-character password of the alphabet. */
  lemma InitRandomSecretSpec(ns: Namespace, name: string, key: string, got: GetOutput,
                             random: seq<byte>, applyCode: int)
    requires |random| >= 32
    ensures var r := InitRandomSecret(ns, name, key, got, random, applyCode);
      var pw := Security.PasswordOf(32, random);
      && (ClassifyGet("secret", name, got).Ok? && ClassifyGet("secret", name, got).value.Some? ==>
            r == Run([GetCall(ns, "secret", name)], Done))
      && (ClassifyGet("secret", name, got).Err? ==>
            r == Run([GetCall(ns, "secret", name)], Failed(GetFailed("secret", name, got.stderr))))
      && (ClassifyGet("secret", name, got) == Ok(None) ==>
            && Btoa(pw).Some?
            && r.calls == [GetCall(ns, "secret", name),
                           ApplyCall(ns.context, ns.namespace,
                                     SecretManifest(name, ns.namespace, "Opaque", [(key, Btoa(pw).value)]))]
            && Atob(Btoa(pw).value) == Some(pw)
            && |pw| == 32 && (forall i :: 0 <= i < 32 ==> pw[i] in Security.Charset)
            && (r.outcome == Done <==> applyCode == 0))
  {
    var pw := Security.PasswordOf(32, random);
    match ClassifyGet("secret", name, got)
    case Err(e) =>
    case Ok(Some(_)) =>
    case Ok(None) =>
      PasswordEncodes(random);
      EncodeSingle(key, pw);
  }

  /** The data of a one-key secret. */
  lemma EncodeSingle(k: string, v: string)
    requires Btoa(v).Some?
    ensures EncodeSecretData([(k, v)]) == Ok([(k, Btoa(v).value)])
  {
    var data := [(k, v)];
    assert data[0].1 == v;
    var r := EncodeSecretData(data);
    assert r.Ok?;
    KeysIndex(r.value);
    KeysIndex(data);
    assert r.value[0].0 == Keys(data)[0] == k;
    assert r.value[0] == (k, Btoa(v).value);
    assert r.value == [r.value[0]];
  }

  /** A generated password is 32 characters of the alphabet, and `btoa`
      accepts it and decodes back to it. */
  lemma PasswordEncodes(random: seq<byte>)
    requires |random| >= 32
    ensures var pw := Security.PasswordOf(32, random);
      && |pw| == 32 && (forall i :: 0 <= i < 32 ==> pw[i] in Security.Charset)
      && Btoa(pw).Some? && Atob(Btoa(pw).value) == Some(pw)
  {
    var pw := Security.PasswordOf(32, random);
    Security.PasswordOfSpec(32, random, []);
    BtoaAscii(pw);
    BtoaRoundTrip(pw);
  }

  /** `btoa` accepts every ASCII text. */
  lemma BtoaAscii(s: string)
    requires forall i :: 0 <= i < |s| ==> s[i] as int < 128
    ensures Btoa(s).Some?
  {
  }

  // ---------------------------------------------------------------------
  // services, deployments and stateful sets

  function AppLabels(name: string): Entries
  {
    [("app", name)]
  }

  /** `ports.map((port) => ({protocol: "TCP", port}))` */
  function TcpPorts(ports: seq<int>): (r: seq<ServicePort>)
    ensures |r| == |ports|
    ensures forall i :: 0 <= i < |r| ==> r[i].protocol == "TCP" && r[i].port == ports[i]
  {
    seq(|ports|, i requires 0 <= i < |ports| => ServicePort("TCP", ports[i]))
  }

  /** The ClusterIP service `service(name, ports)` applies, selecting `app: name`. */
  function ServiceManifest(name: string, ports: seq<ServicePort>): (r: Manifest)
    ensures r.Kind() == "Service" && r.metadata.name == name
    ensures r.serviceSpec == ServiceSpec(AppLabels(name), ports, "ClusterIP")
  {
    ServiceObject(Metadata(name, None, None), ServiceSpec(AppLabels(name), ports, "ClusterIP"))
  }

  /** `ns.service(name, ports)`: one apply of the ClusterIP service, in
      the namespace, which fails exactly when `kubectl` exits non-zero. */
  function Service(ns: Namespace, name: string, ports: seq<ServicePort>, code: int): (r: Run)
    ensures r.calls == [ApplyCall(ns.context, ns.namespace, ServiceManifest(name, ports))]
    ensures forall c :: c in r.calls ==> InScope(ns, c)
    ensures r.outcome == Done <==> code == 0
    ensures r.outcome != Done ==> r.outcome == Failed(NonZeroExit(ApplyCheck, code))
  {
    ApplyScope(ns, ServiceManifest(name, ports));
    Apply(ns, ServiceManifest(name, ports), code)
  }

  /** The deployment `deploymentAndService` applies: three replicas of
      `pod`, labelled and selected by `app: name`. */
  function DeploymentManifest(name: string, pod: PodSpec): (r: Manifest)
    ensures r.Kind() == "Deployment" && r.metadata.name == name && r.metadata.labels == Some(AppLabels(name))
    ensures r.deploymentSpec.matchLabels == r.deploymentSpec.templateLabels == AppLabels(name)
    ensures r.deploymentSpec.replicas == 3 && r.deploymentSpec.template == pod
  {
    DeploymentObject(Metadata(name, None, Some(AppLabels(name))), DeploymentSpec(AppLabels(name), 3, AppLabels(name), pod))
  }

  /** The steps of applying `primary` and then, when there are ports, the
      TCP service in front of it. */
  function WithService(ns: Namespace, primary: Manifest, name: string, ports: seq<int>): (steps: seq<Step>)
    ensures |steps| == if |ports| > 0 then 2 else 1
    ensures steps[0] == ApplyStep(ns, primary)
    ensures |ports| > 0 ==> steps[1] == ApplyStep(ns, ServiceManifest(name, TcpPorts(ports)))
  {
    [ApplyStep(ns, primary)] + (if |ports| > 0 then [ApplyStep(ns, ServiceManifest(name, TcpPorts(ports)))] else [])
  }

  /** Every step of a namespace's apply sequence targets that namespace. */
  lemma StepsInScope(ns: Namespace, primary: Manifest, name: string, ports: seq<int>, exitCode: nat -> int)
    ensures forall c :: c in RunSteps(WithService(ns, primary, name, ports), exitCode).calls ==> InScope(ns, c)
  {
    var steps := WithService(ns, primary, name, ports);
    RunStepsCalls(steps, exitCode);
    ApplyScope(ns, primary);
    ApplyScope(ns, ServiceManifest(name, TcpPorts(ports)));
  }

  /** `ns.deploymentAndService(name, pod, ports)` where the j-th apply exits
      with `exitCode(j)`; `ports` may be undefined. */
  function DeploymentAndService(ns: Namespace, name: string, pod: PodSpec, ports: Option<seq<int>>,
                                exitCode: nat -> int): (r: Run)
    ensures forall c :: c in r.calls ==> InScope(ns, c)
  {
    StepsInScope(ns, DeploymentManifest(name, pod), name, ports.GetOr([]), exitCode);
    RunSteps(WithService(ns, DeploymentManifest(name, pod), name, ports.GetOr([])), exitCode)
  }

  /** The deployment is applied first; a service follows exactly when
      `ports` is defined and non-empty and the deployment's apply succeeded,
      and it exposes those ports, in order, over TCP. */
  lemma DeploymentAndServiceSpec(ns: Namespace, name: string, pod: PodSpec, ports: Option<seq<int>>,
                                 exitCode: nat -> int)
    ensures var r := DeploymentAndService(ns, name, pod, ports, exitCode);
      var hasPorts := ports.Some? && |ports.value| > 0;
      && |r.calls| >= 1 && r.calls[0] == ApplyCall(ns.context, ns.namespace, DeploymentManifest(name, pod))
      && (|r.calls| == 2 <==> hasPorts && exitCode(0) == 0)
      && (|r.calls| == 2 ==> r.calls[1] == ApplyCall(ns.context, ns.namespace, ServiceManifest(name, TcpPorts(ports.value))))
      && (r.outcome == Done <==> exitCode(0) == 0 && (hasPorts ==> exitCode(1) == 0))
  {
    var steps := WithService(ns, DeploymentManifest(name, pod), name, ports.GetOr([]));
    RunStepsSpec(steps, exitCode);
    assert steps[..1] == [steps[0]];
    assert |steps| == 2 ==> steps[..2] == steps;
  }

  /** `templateSpec.containers.map(c => c.ports).flat().map(p => p?.containerPort)`
      without the undefined entries: the declared container ports in order. */
  function ContainerPorts(cs: seq<Container>): seq<int>
  {
    if |cs| == 0 then []
    else
      (match cs[0].ports
       case None => []
       case Some(ps) => seq(|ps|, i requires 0 <= i < |ps| => ps[i].containerPort))
      + ContainerPorts(cs[1..])
  }

  /** Collecting ports distributes over the list of containers, so they come
      out container by container, in order. */
  lemma {:induction false} ContainerPortsAppend(a: seq<Container>, b: seq<Container>)
    ensures ContainerPorts(a + b) == ContainerPorts(a) + ContainerPorts(b)
  {
    if |a| > 0 {
      assert (a + b)[0] == a[0];
      assert (a + b)[1..] == a[1..] + b;
      ContainerPortsAppend(a[1..], b);
    } else {
      assert a + b == b;
    }
  }

  /** A port is collected exactly when some container declares it. */
  lemma {:induction false} ContainerPortsMember(cs: seq<Container>, p: int)
    ensures p in ContainerPorts(cs) <==>
      exists i, j :: 0 <= i < |cs| && cs[i].ports.Some? && 0 <= j < |cs[i].ports.value|
                     && cs[i].ports.value[j].containerPort == p
  {
    if |cs| > 0 {
      ContainerPortsMember(cs[1..], p);
      if p in ContainerPorts(cs[1..]) {
        var i, j :| 0 <= i < |cs[1..]| && cs[1..][i].ports.Some? && 0 <= j < |cs[1..][i].ports.value|
                    && cs[1..][i].ports.value[j].containerPort == p;
        assert cs[i + 1] == cs[1..][i];
      }
      if exists i, j :: 0 <= i < |cs| && cs[i].ports.Some? && 0 <= j < |cs[i].ports.value|
                        && cs[i].ports.value[j].containerPort == p {
        var i, j :| 0 <= i < |cs| && cs[i].ports.Some? && 0 <= j < |cs[i].ports.value|
                    && cs[i].ports.value[j].containerPort == p;
        if i == 0 {
          var ps := cs[0].ports.value;
          assert seq(|ps|, k requires 0 <= k < |ps| => ps[k].containerPort)[j] == p;
        } else {
          assert cs[1..][i - 1] == cs[i];
        }
      }
    }
  }

  /** The stateful set `statefulSetAndService` applies: `replicas` copies of
      `template`, governed by the service of the same name, labelled and
      selected by `app: name`, with the given volume claim templates. */
  function StatefulSetManifest(name: string, replicas: int, template: PodSpec,
                               claims: Option<seq<ClaimTemplate>>): (r: Manifest)
    ensures r.Kind() == "StatefulSet" && r.metadata.name == name && r.metadata.labels == Some(AppLabels(name))
    ensures r.statefulSetSpec.serviceName == name
    ensures r.statefulSetSpec.matchLabels == r.statefulSetSpec.templateLabels == AppLabels(name)
    ensures r.statefulSetSpec.replicas == replicas && r.statefulSetSpec.template == template
    ensures r.statefulSetSpec.volumeClaimTemplates == claims
  {
    StatefulSetObject(Metadata(name, None, Some(AppLabels(name))),
      StatefulSetSpec(name, replicas, AppLabels(name), AppLabels(name), template, claims))
  }

  /** The service of a name selects exactly the pods that the deployment and
      the stateful set of that name label, and it is the service that
      governs the stateful set. */
  lemma ServiceSelectsWorkload(name: string, ports: seq<ServicePort>, pod: PodSpec, replicas: int,
                               template: PodSpec, claims: Option<seq<ClaimTemplate>>)
    ensures ServiceManifest(name, ports).serviceSpec.selector == DeploymentManifest(name, pod).deploymentSpec.templateLabels
    ensures ServiceManifest(name, ports).serviceSpec.selector == StatefulSetManifest(name, replicas, template, claims).statefulSetSpec.templateLabels
    ensures StatefulSetManifest(name, replicas, template, claims).statefulSetSpec.serviceName == ServiceManifest(name, ports).metadata.name
  {
  }

  /** `ns.statefulSetAndService(name, {templateSpec, replicas, specExtra})`
      where `claims` is `specExtra.volumeClaimTemplates` and the j-th apply
      exits with `exitCode(j)`. */
  function StatefulSetAndService(ns: Namespace, name: string, replicas: int, template: PodSpec,
                                 claims: Option<seq<ClaimTemplate>>, exitCode: nat -> int): (r: Run)
    ensures forall c :: c in r.calls ==> InScope(ns, c)
  {
    var ports := ContainerPorts(template.containers);
    StepsInScope(ns, StatefulSetManifest(name, replicas, template, claims), name, ports, exitCode);
    RunSteps(WithService(ns, StatefulSetManifest(name, replicas, template, claims), name, ports), exitCode)
  }

  /** The stateful set is applied first; a service follows exactly when
      some container declares a port and the first apply succeeded, and it
      exposes the collected ports, in order, over TCP. */
  lemma StatefulSetAndServiceSpec(ns: Namespace, name: string, replicas: int, template: PodSpec,
                                  claims: Option<seq<ClaimTemplate>>, exitCode: nat -> int)
    ensures var r := StatefulSetAndService(ns, name, replicas, template, claims, exitCode);
      var ports := ContainerPorts(template.containers);
      && |r.calls| >= 1 && r.calls[0] == ApplyCall(ns.context, ns.namespace, StatefulSetManifest(name, replicas, template, claims))
      && (|r.calls| == 2 <==> |ports| > 0 && exitCode(0) == 0)
      && (|r.calls| == 2 ==> r.calls[1] == ApplyCall(ns.context, ns.namespace, ServiceManifest(name, TcpPorts(ports))))
      && (r.outcome == Done <==> exitCode(0) == 0 && (|ports| > 0 ==> exitCode(1) == 0))
  {
    var ports := ContainerPorts(template.containers);
    var steps := WithService(ns, StatefulSetManifest(name, replicas, template, claims), name, ports);
    RunStepsSpec(steps, exitCode);
    assert steps[..1] == [steps[0]];
    assert |steps| == 2 ==> steps[..2] == steps;
  }

  /** The single container of `simpleStatefulSetPvService`, with its data
      volume mounted at `volumePath`. */
  function PvContainer(name: string, image: string, env: seq<EnvVar>, volumePath: string, ports: seq<int>): (c: Container)
    ensures c.name == name && c.image == image && c.env == env
    ensures c.ports.Some? && |c.ports.value| == |ports|
    ensures forall i :: 0 <= i < |ports| ==> c.ports.value[i].containerPort == ports[i]
    ensures c.volumeMounts == [VolumeMount(volumePath, name + "-data")]
  {
    Container(name, image, env,
      Some(seq(|ports|, i requires 0 <= i < |ports| => ContainerPort(ports[i]))),
      [VolumeMount(volumePath, name + "-data")])
  }

  /** `ns.simpleStatefulSetPvService(name, {image, env, volumePath,
      volumeSize, ports})`.  The stateful set is named "postgres" whatever
      `name` is; `name` names the container and its volume. */
  function SimpleStatefulSetPvService(ns: Namespace, name: string, image: string, env: Option<SimpleEnvProps>,
                                      volumePath: string, volumeSize: string, ports: seq<int>,
                                      exitCode: nat -> int): (r: Run)
    ensures forall c :: c in r.calls ==> InScope(ns, c)
  {
    match SimpleEnv(env.GetOr(SimpleEnvProps(None, None)))
    case Err(e) => Run([], Failed(e))
    case Ok(vars) =>
      StatefulSetAndService(ns, "postgres", 1,
        PodSpec([PvContainer(name, image, vars, volumePath, ports)]),
        Some([ClaimTemplate(name + "-data", ["ReadWriteOnce"], volumeSize)]),
        exitCode)
  }

  /** A malformed secret reference stops everything before any call.
      Otherwise one replica of a stateful set named "postgres" is applied,
      whose only container is `name` running `image` with the derived
      environment and its `name-data` volume at `volumePath`, claimed as
      `volumeSize` of ReadWriteOnce storage; a "postgres" service for the
      given ports follows exactly when there are ports and the first apply
      succeeded. */
  lemma SimpleStatefulSetPvServiceSpec(ns: Namespace, name: string, image: string, env: Option<SimpleEnvProps>,
                                       volumePath: string, volumeSize: string, ports: seq<int>,
                                       exitCode: nat -> int)
    ensures var r := SimpleStatefulSetPvService(ns, name, image, env, volumePath, volumeSize, ports, exitCode);
      var vars := SimpleEnv(env.GetOr(SimpleEnvProps(None, None)));
      && (vars.Err? ==> r == Run([], Failed(BadSecretFormat)))
      && (vars.Ok? ==>
            && |r.calls| >= 1 && r.calls[0].input.ManifestInput?
            && var m := r.calls[0].input.manifest;
            && m.StatefulSetObject? && m.metadata.name == "postgres"
            && m.statefulSetSpec.serviceName == "postgres" && m.statefulSetSpec.replicas == 1
            && m.statefulSetSpec.template.containers == [PvContainer(name, image, vars.value, volumePath, ports)]
            && m.statefulSetSpec.volumeClaimTemplates == Some([ClaimTemplate(name + "-data", ["ReadWriteOnce"], volumeSize)])
            && (|r.calls| == 2 <==> |ports| > 0 && exitCode(0) == 0)
            && (|r.calls| == 2 ==> r.calls[1] == ApplyCall(ns.context, ns.namespace, ServiceManifest("postgres", TcpPorts(ports))))
            && (r.outcome == Done <==> exitCode(0) == 0 && (|ports| > 0 ==> exitCode(1) == 0)))
  {
    var vars := SimpleEnv(env.GetOr(SimpleEnvProps(None, None)));
    if vars.Ok? {
      var c := PvContainer(name, image, vars.value, volumePath, ports);
      var template := PodSpec([c]);
      var claims := Some([ClaimTemplate(name + "-data", ["ReadWriteOnce"], volumeSize)]);
      StatefulSetAndServiceSpec(ns, "postgres", 1, template, claims, exitCode);
      var ps := c.ports.value;
      assert [c][1..] == [];
      assert seq(|ps|, i requires 0 <= i < |ps| => ps[i].containerPort) == ports;
      assert ContainerPorts(template.containers) == ports;
    }
  }

  // ---------------------------------------------------------------------
  // registry credentials

  /** The registry document `{auths: {[url]: {auth}}}`. */
  function AuthDoc(url: string, auth: string): Json
  {
    JObject([("auths", JObject([(url, JObject([("auth", JString(auth))]))]))])
  }

  const PullSecretType: string := "kubernetes.io/dockerconfigjson"
  const PullSecretKey: string := ".dockerconfigjson"

  /** `ns.createPullSecret(secretName, url, username, password)` where
      `JSON.stringify` is `stringify` and the apply exits with `code`. */
  function CreatePullSecret(ns: Namespace, secretName: string, url: string, username: string, password: string,
                            stringify: Json -> string, code: int): (r: Run)
    ensures forall c :: c in r.calls ==> InScope(ns, c)
  {
    match Btoa(username + ":" + password)
    case None => Run([], Failed(InvalidCharacter))
    case Some(auth) =>
      SetSecret(ns, secretName, [(PullSecretKey, stringify(AuthDoc(url, auth)))], Some(PullSecretType), code)
  }

  /** Credentials `btoa` refuses mean no call, and so does a document it
      refuses (a `url` beyond Latin-1, say).  Otherwise exactly one secret
      of type "kubernetes.io/dockerconfigjson" is applied whose only key is
      ".dockerconfigjson" and whose value is the `btoa` of the document,
      decoding back to it, in which
      `auth` decodes to `username:password`; the run ends normally exactly
      when the apply exits 0. */
  lemma CreatePullSecretSpec(ns: Namespace, secretName: string, url: string, username: string, password: string,
                             stringify: Json -> string, code: int)
    ensures var r := CreatePullSecret(ns, secretName, url, username, password, stringify, code);
      var creds := username + ":" + password;
      && (Btoa(creds).None? ==> r == Run([], Failed(InvalidCharacter)))
      && (Btoa(creds).Some? ==> Atob(Btoa(creds).value) == Some(creds))
      && (Btoa(creds).Some? && Btoa(stringify(AuthDoc(url, Btoa(creds).value))).Some? ==>
            && |r.calls| == 1 && r.calls[0].input.ManifestInput?
            && var m := r.calls[0].input.manifest;
            && m.SecretObject? && m.metadata.name == secretName && m.secretType == "kubernetes.io/dockerconfigjson"
            && |m.data| == 1 && m.data[0].0 == ".dockerconfigjson"
            && Btoa(stringify(AuthDoc(url, Btoa(creds).value))) == Some(m.data[0].1)
            && Atob(m.data[0].1) == Some(stringify(AuthDoc(url, Btoa(creds).value)))
            && (r.outcome == Done <==> code == 0))
      && (Btoa(creds).Some? && Btoa(stringify(AuthDoc(url, Btoa(creds).value))).None? ==>
            r == Run([], Failed(InvalidCharacter)))
  {
    var creds := username + ":" + password;
    if Btoa(creds).Some? {
      BtoaRoundTrip(creds);
      var doc := stringify(AuthDoc(url, Btoa(creds).value));
      var data := [(PullSecretKey, doc)];
      K8sSetSecretSpec(ns.context, ns.namespace, secretName, data, Some(PullSecretType), code);
      if Btoa(doc).Some? {
        assert Keys(data) == [PullSecretKey];
      } else {
        assert Btoa(data[0].1).None?;
      }
    }
  }
}
