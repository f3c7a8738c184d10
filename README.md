# kdeno core, modelled in Dafny

kdeno is a small Deno library for standing up k3s clusters over `ssh` and
reconciling Kubernetes namespaces through `kubectl` and `helm`. Almost all of
its work is done by starting other programs. This model treats each such
process as an oracle. Exit codes, captured output, the node token and the
parsed kubeconfig are inputs. Every operation returns a `Run`: the calls it
made, in order, each with its program, its arguments, what it gets on
standard input and whether its output is captured, plus how the operation
ended (`Done`, `Failed(error)`, or `Polling` for a job poll that has not
decided yet). The decision logic left over is proved against its promises.
That logic covers:

- the k3s install pipeline and role parameters;
- the kubeconfig import plan;
- environment-variable derivation;
- secret encoding;
- the three-way classification of `kubectl get`;
- check-then-create of a random secret;
- the job poll loop;
- the manifest builders and port collection;
- the command lines of `kubectl`, `helm` and `ssh`;
- password generation.

Modules, one per file:

- `Common` (common.dfy): `Option`/`Result`, `join`, `split` on one character, `includes`, and string records in `Object.entries` order with property assignment.
- `Base64` (base64.dfy): `btoa` as the encoding of section 4 of RFC 4648 applied to Latin-1 text, with a reference decoder used to state the round trip.
- `Manifests` (manifests.dfy): the Kubernetes objects the library writes, with only the fields it touches.
- `Proc` (proc.dfy): calls, checked and unchecked calls (`exec`/`execCheck` versus `execString`/`execOutput`), sequences of checked calls, and a reading of command lines back into flags and positional words.
- `Ssh` (ssh.dfy): `SshServer.getUserServer` and the `ssh` invocations.
- `Security` (security.dfy): `generatePassword`, a loop over given random bytes.
- `K3s` (k3s.dfy): `k3sInstallCmd`, `k3sInstall` (a method that fills `env` and `params` step by step, as the source does) and `k3sDownloadKubeConfig`.
- `K8s` (k8s.dfy): `k8sSimpleEnv`, `k8sSetSecret`, `k8sApply`, and the `K8sNamespace` operations except the job loop. `K8sNamespace` never reassigns its fields, so it is the value `Namespace(context, namespace)` and its methods are functions of it.
- `K8sJob` (k8s_job.dfy): `runOneTimeJob` as a `while` loop with `break` and a `success` flag, proved equal to a specification function.
- `K8sStore` (k8s_store.dfy): the cluster as a map from (namespace, resource, name) to objects. `kubectl get` answers from it and `kubectl apply` writes into it, so that two `initRandomSecret` calls can be composed.

Behaviour of the code worth noting:

- The node token is a captured, unchecked `execString` read, inserted untrimmed (src/k3s.ts:39-41, src/k3s.ts:63, src/exec.ts:12-18). A failing read is not an error.
- With a master, the install environment holds `K3S_URL`, set to `https://master:6443`, then `K3S_TOKEN`, set to the token (src/k3s.ts:62-63).
- An agent without a master is accepted and gets no parameters (src/k3s.ts:66-71).
- The kubeconfig import (src/k3s.ts:114-141) passes the CA, certificate and key on as they are. An empty `clusters` or `users` list is not checked: reading element 0 of an empty list and then a field of `undefined` is a `TypeError`, modelled as `UndefinedAccess` after the read and before any `kubectl` call. The `contexts` list is never read.

## Model

| member | source | states |
|---|---|---|
| Ssh.UserServer | src/ssh.ts:10-12 | the destination always ends with the hostname; an empty user gives the bare hostname; a non-empty user gives `user`, `@`, hostname |
| Ssh.SshCall | src/ssh.ts:14-24 | the `ssh` call of a server: the destination and the command as its two arguments, output captured except for `exec`; its shape is proved in `SshCallShape` |
| Ssh.DestinationOfUserServer | src/ssh.ts:10-12 | split at its last `@`, the destination gives back exactly the user and the host whenever the hostname contains no `@` |
| Common.LastIndex | src/ssh.ts:11 | the last index holding a character, or none exactly when the character is absent; no later position holds it |
| Common.LastIndexBefore | src/ssh.ts:11 | a character followed by text free of it is found at its own position |
| Ssh.SshCallShape | src/ssh.ts:14-24 | each of `exec`, `execString`, `execOutput` runs `ssh` with exactly two arguments, the destination and the unchanged command; only `exec` leaves output uncaptured |
| Ssh.SshExec | src/ssh.ts:22-24 | one `ssh` call, ending normally exactly when it exits 0 |
| Ssh.SshExecString | src/ssh.ts:18-20 | one captured `ssh` call whose exit status is not checked |
| Proc.Checked | src/exec.ts:20-31 | a checked call is made once and fails with its exit code exactly when that code is non-zero |
| Proc.Unchecked | src/exec.ts:1-18 | an unchecked call is made once and always ends normally |
| Proc.Then | src/k3s.ts:114-141 | awaiting two operations in sequence: the second happens only if the first ended normally |
| Proc.RunFrom | src/k3s.ts:122-140 | awaiting checked calls one after another makes the calls up to and including the first failing one, and fails with that call's code |
| Proc.RunStepsSpec | src/k3s.ts:122-140 | a sequence of checked calls ends normally iff every call exits 0, and then makes all of them; otherwise it is exactly the prefix up to the first failure, with that failure |
| Proc.RunStepsCalls | src/k8s.ts:272-283 | every call a sequence makes is one of its steps |
| Proc.FlagValueFront | src/k8s.ts:189 | a flag and its value in front of other arguments give that flag its value unless a later occurrence overrides it (the last occurrence wins, and `--namespace` is the same flag as `-n`); every other flag keeps its value, and no argument or switch is added |
| Proc.PositionalFront | src/k8s.ts:189 | a positional word in front of other arguments changes no flag value |
| Proc.SwitchFront | src/k8s.ts:401-413 | a switch such as `--install` in front of other arguments adds itself to the switches and changes no flag value and no argument |
| Proc.FlagValueAbsent | src/k8s.ts:189 | a flag none of whose spellings occurs among the words has no value |
| Common.ContainsSpec | src/k8s.ts:124 | `includes` holds exactly when the text occurs at some position |
| Common.ContainsInfix | src/k8s.ts:124 | a text includes each of its infixes |
| Common.Split | src/k8s.ts:53-54 | `split` on one character gives at least one piece, none containing that character |
| Common.JoinSplit | src/k8s.ts:53-54 | joining the pieces of a split with the separator restores the text |
| Common.SplitJoin | src/k3s.ts:47-50 | splitting a join of separator-free words at the separator gives back the words |
| Common.FirstIndex | src/k8s.ts:53-54 | the first index holding a character, or none when the character is absent |
| Common.LookupDefined | src/k3s.ts:60-64 | a record key reads as defined exactly when it is among the keys |
| Common.PutKeys | src/k3s.ts:62-63 | property assignment keeps an existing key in place and appends a new key last |
| Common.PutLookup | src/k3s.ts:62-63 | after `r[k] = v`, `k` reads `v` and every other key reads as before |
| Common.PutNew | src/k3s.ts:62-63 | assigning a new key appends that entry to the record |
| Common.PutDistinct | src/k3s.ts:62-63 | property assignment keeps the keys of a record distinct |
| Base64.Encode | src/k8s.ts:32 | four characters for every started group of three bytes |
| Base64.EncodeAlphabet | src/k8s.ts:32 | every encoded character is a digit of Table 1 of RFC 4648 or the pad `=` |
| Base64.DecodeEncode | src/k8s.ts:32 | decoding an encoding gives back the bytes |
| Base64.Latin1 | src/k8s.ts:32 | a string has a byte form iff every character is below U+0100, and then byte `i` is character `i` |
| Base64.Btoa | src/k8s.ts:32 | `btoa` succeeds exactly on Latin-1 strings; otherwise it throws `InvalidCharacterError` |
| Base64.BtoaRoundTrip | src/k8s.ts:32 | `atob` of what `btoa` produces is the original string |
| Base64.BtoaShape | src/k8s.ts:32 | `btoa` output has `4 * ceil(n / 3)` characters, all digits or padding |
| Security.Runs | src/security.ts:2-3 | the alphabet starts with the runs A-Z, a-z and 0-9 |
| Security.SymbolsApart | src/security.ts:2-3 | the twelve symbols `!@#$%^&*()_+` are ASCII, distinct and outside those runs |
| Security.CharsetContents | src/security.ts:2-3 | the alphabet has 74 distinct ASCII characters |
| Security.Preimages | src/security.ts:8 | reducing a byte modulo 74 is biased: characters 0-33 each come from four byte values, the rest from three |
| Security.GeneratePassword | src/security.ts:1-11 | the loop appends one character per index: character `i` is `charset[b_i % 74]`, and the length is `max(length, 0)` |
| Security.PasswordOfSpec | src/security.ts:4-10 | a password has the requested length (none below one), only alphabet characters, all ASCII, and depends on exactly the first `length` bytes |
| Security.PasswordOf | src/security.ts:4-10 | defines the password: character `i` is the alphabet character at byte `i` modulo 74, for `max(length, 0)` characters; described in `PasswordOfSpec` and computed by `GeneratePassword` |
| K3s.EnvWords | src/k3s.ts:47-48 | each entry becomes `k=v`, in enumeration order |
| K3s.InstallCmd | src/k3s.ts:43-53 | defines `k3sInstallCmd`: the installer pipe, the `k=v` words joined at spaces, `sh -s -` and the params joined at spaces; read back in `InstallCmdJoin` and `InstallCmdWords` |
| K3s.InstallCmdEmpty | src/k3s.ts:43-53 | with no env and no params the command is the bare installer pipeline, keeping both separators (two spaces before `sh`) |
| K3s.InstallCmdJoin | src/k3s.ts:43-53 | the command is the join at single spaces of the four installer words (`curl`, `-sfL`, the URL and the pipe), the `k=v` words, `sh -s -` and the params, an empty list standing for one empty word |
| K3s.InstallCmdWords | src/k3s.ts:43-53 | split at `' '`, the command is the installer words, the `k=v` words in order, `sh -s -`, then the params in order, for inputs free of spaces (the shell reading of the line is the same only when they also hold no newline or other shell syntax) |
| K3s.TokenNewlineEndsLine | src/k3s.ts:39-41 | when the token read over `ssh` ends in a newline, as captured output does, that newline lands right after the token, before `sh -s -` and the params |
| K3s.EnvWordsReadBack | src/k3s.ts:47-49 | every entry appears once, in order, and reads back as its name and value |
| K3s.Install | src/k3s.ts:55-73 | without a master: empty env and no token read. With one: env is exactly K3S_URL then K3S_TOKEN, the token verbatim. A server gets `--cluster-init` only without a master, then `--tls-san host`; an agent gets nothing. The calls are the optional token read, then the install via `exec`, which ends normally iff it exits 0 and otherwise fails with that exit status |
| K3s.InstallEnvToken | src/k3s.ts:60-64 | the env has distinct keys, K3S_TOKEN reads the token and K3S_URL reads the API URL |
| K3s.ConfigSteps | src/k3s.ts:120-140 | four checked `kubectl` steps, one per argument list, in order |
| K3s.ConfigArgs | src/k3s.ts:122-140 | defines the four `kubectl config` argument lists in order: `set-cluster`, `set-credentials`, `set-context`, `use-context`; read back in the three `ReadBack` lemmas |
| K3s.DownloadKubeConfig | src/k3s.ts:114-119 | the kubeconfig is read first over `ssh`; an empty cluster or user list fails right after that read |
| K3s.DownloadKubeConfigCalls | src/k3s.ts:114-141 | with a cluster and a user: the read, then the four `kubectl config` calls with the first cluster's CA data, the first user's certificate and key, and `https://host:6443`; done iff all exit 0; stops at the first failure |
| K3s.SetClusterReadBack | src/k3s.ts:122-129 | for a cluster name that is not a flag, `set-cluster name` passes the URL under `--server` and the CA under `--certificate-authority-data` |
| K3s.SetCredentialsReadBack | src/k3s.ts:130-137 | for a name that is not a flag, `set-credentials name` passes the certificate and the key under their flags |
| K3s.SetContextReadBack | src/k3s.ts:139-140 | for a name that is not a flag, `set-context name` binds cluster `name` and user `name`; `use-context name` selects it |
| K8s.K8sApply | src/k8s.ts:66-87 | one `kubectl --context c apply -n ns -f -` call with the manifest on standard input; it fails with the exit code iff that is non-zero |
| K8s.ApplyArgs | src/k8s.ts:74 | defines the arguments of `k8sApply`: the context, `apply`, the namespace and `-f -`; read back in `ApplyArgsReadBack` |
| K8s.ApplyArgsReadBack | src/k8s.ts:74 | the apply command line reads back as that context and namespace, `-f -`, and the single positional `apply` |
| K8s.ApplyScope | src/k8s.ts:92-94 | an apply through a namespace targets its context and namespace |
| K8s.KubectlArgs | src/k8s.ts:189 | defines `kubectl(args)`'s arguments: `--context`, the context, `-n`, the namespace, then `args`; read back in `KubectlScope` |
| K8s.KubectlScope | src/k8s.ts:186-194 | a `kubectl(args)` call reads back the namespace's context and namespace whenever no word of `args` could name a context or a namespace itself or override it (`--context`, `--namespace`, `--all-namespaces`, their `=` forms, or a short-flag cluster holding `n` or `A`) |
| K8s.HelmChart | src/k8s.ts:393-428 | one `helm` call with the values on standard input; it fails with the exit code iff that is non-zero |
| K8s.HelmArgs | src/k8s.ts:401-413 | defines the `helm` arguments: kube context, namespace, `upgrade name chart --install --wait --values -`; read back in `HelmArgsReadBack` and `HelmScope` |
| K8s.HelmScope | src/k8s.ts:401-405 | when neither the release nor the chart is a flag, `helm` reads the namespace's context and namespace under `--kube-context` and `--namespace` |
| K8s.HelmArgsReadBack | src/k8s.ts:401-413 | when neither the release nor the chart is a flag, `helm` sees the arguments `upgrade name chart`, the switches `--install` and `--wait`, and reads the values from standard input (`--values -`) |
| K8s.SecretRefSpec | src/k8s.ts:53-54 | a secret reference's name is the text before the first dot, its key the text between the first and second dot (or the end); the rest is dropped |
| K8s.SecretRef | src/k8s.ts:53-54 | defines a secret reference as pieces 0 and 1 of `split(".")`, for a text holding a dot; described in `SecretRefSpec` |
| K8s.SimpleEnv | src/k8s.ts:44-64 | fails iff some secret value has no dot; otherwise secrets first, then plain entries, each in enumeration order, as many variables as the two records have entries together |
| K8s.SimpleEnvNames | src/k8s.ts:48-62 | the variables are named after the keys of the two records, secrets first |
| K8s.EncodeSecretData | src/k8s.ts:31-33 | succeeds iff `btoa` accepts every value; the keys are kept in order and each value is replaced by its `btoa` |
| K8s.SecretDataDecodes | src/k8s.ts:31-33 | every stored value decodes back to the value given |
| K8s.K8sSetSecret | src/k8s.ts:16-37 | at most one call, an apply in the given context and namespace |
| K8s.K8sSetSecretSpec | src/k8s.ts:16-37 | a value `btoa` refuses means no call. Otherwise exactly one secret of the given type (default "Opaque") in the namespace, with the same keys in order and every value replaced by its `btoa`, decoding back to the value given; done iff the apply exits 0 |
| K8s.SetSecret | src/k8s.ts:96-103 | the apply targets the namespace |
| K8s.CreateNamespace | src/k8s.ts:105-113 | one apply of a Namespace object named after the namespace |
| K8s.GetResourceSpec | src/k8s.ts:115-129 | exit 0 yields the parsed output; a non-zero exit yields absence iff "not found" occurs in the error text, and otherwise an error naming the resource |
| K8s.ClassifyGet | src/k8s.ts:120-128 | an object is returned only after exit 0, and it is the parsed output; an error only after a non-zero exit, naming the resource, the name and the error text |
| K8s.GetCall | src/k8s.ts:116-118 | the lookup is a `kubectl` call with no input whose output is captured (`stdout: "piped"`) |
| K8s.GetScope | src/k8s.ts:115-118 | a lookup targets the namespace whenever neither the resource nor the name is a flag |
| K8s.InitRandomSecret | src/k8s.ts:131-141 | the lookup of the secret comes first, and when the name is not a flag every call targets the namespace |
| K8s.InitRandomSecretSpec | src/k8s.ts:131-141 | an existing secret means only the lookup. An absent one means exactly one apply of an "Opaque" secret with the single key, whose value decodes to a 32-character alphabet password. A lookup error stops with that error |
| K8s.PasswordEncodes | src/k8s.ts:138 | a 32-character generated password survives `btoa` and decodes back |
| K8s.TcpPorts | src/k8s.ts:277-281 | one service port per given port, in order, each TCP |
| K8s.Service | src/k8s.ts:196-215 | exactly one call, the apply of the ClusterIP service `name` with the given ports, in the namespace; it ends normally iff that apply exits 0, and otherwise fails with the exit code |
| K8s.ServiceManifest | src/k8s.ts:200-213 | a Service named `name`, selecting `app: name`, with the given ports, of type ClusterIP |
| K8s.ServiceSelectsWorkload | src/k8s.ts:196-329 | the service of a name selects exactly the pods the deployment and the stateful set of that name label, and it is the service that governs the stateful set |
| K8s.WithService | src/k8s.ts:272-283 | the primary apply comes first; there is a second step, the TCP service, iff there are ports |
| K8s.StepsInScope | src/k8s.ts:272-283 | every apply of the sequence targets the namespace |
| K8s.DeploymentAndService | src/k8s.ts:241-284 | every call targets the namespace |
| K8s.DeploymentManifest | src/k8s.ts:246-271 | a Deployment named and labelled `app: name` whose selector equals its pod template's labels, with three replicas of the given pod spec |
| K8s.DeploymentAndServiceSpec | src/k8s.ts:241-284 | the deployment is applied first; a service for exactly the given ports over TCP follows iff `ports` is defined and non-empty and the first apply succeeded |
| K8s.ContainerPortsAppend | src/k8s.ts:325-329 | ports are collected container by container, in order |
| K8s.ContainerPortsMember | src/k8s.ts:325-329 | a port is collected iff some container declares it; undefined port lists contribute nothing |
| K8s.ContainerPorts | src/k8s.ts:325-329 | defines the collected ports: each container's declared `containerPort`s in order, skipping undefined lists; described in `ContainerPortsAppend` and `ContainerPortsMember` |
| K8s.StatefulSetAndService | src/k8s.ts:286-341 | every call targets the namespace |
| K8s.StatefulSetManifest | src/k8s.ts:295-323 | a StatefulSet named and labelled `app: name`, governed by the service `name`, whose selector equals its pod template's labels, with the given replicas, template and volume claim templates |
| K8s.StatefulSetAndServiceSpec | src/k8s.ts:286-341 | the stateful set is applied first; a service for the collected ports follows iff there are any and the first apply succeeded |
| K8s.SimpleStatefulSetPvService | src/k8s.ts:343-391 | every call targets the namespace |
| K8s.PvContainer | src/k8s.ts:357-370 | the container is named `name`, runs the image with the given environment, declares exactly the given ports in order, and mounts volume `name-data` at the volume path |
| K8s.SimpleStatefulSetPvServiceSpec | src/k8s.ts:343-391 | a malformed secret reference means no call. Otherwise one replica of a stateful set named "postgres" whatever `name` is, with the single container `name`, its `name-data` volume at `volumePath`, a ReadWriteOnce claim of `volumeSize`, and a "postgres" service iff there are ports and the stateful-set apply succeeded; done iff the stateful-set apply and, with ports, the service apply exit 0 |
| K8s.CreatePullSecret | src/k8s.ts:217-239 | every call targets the namespace |
| K8s.CreatePullSecretSpec | src/k8s.ts:217-239 | credentials `btoa` refuses mean no call, and so does an auth document `btoa` refuses (both fail with `InvalidCharacterError`). Otherwise one secret of type kubernetes.io/dockerconfigjson whose only key ".dockerconfigjson" holds the `btoa` of the auth document, decoding back to it, in which `auth` decodes to `username:password`; done iff the apply exits 0 |
| K8sJob.FailedCheckedFirst | src/k8s.ts:166-172 | a job whose `failed` counter is non-zero counts as failed, whatever `succeeded` says |
| K8sJob.Observe | src/k8s.ts:162-174 | a lookup error is an error verdict; a failed or succeeded verdict comes only from a job read back after exit 0, with a truthy `failed` counter, or a truthy `succeeded` and an untruthy `failed` |
| K8sJob.JobManifest | src/k8s.ts:144-157 | a Job named `name` with no retries (`backoffLimit` 0), the given pod spec, kept 604800 seconds (a week) after it finishes |
| K8sJob.OneTimeJob | src/k8s.ts:143-184 | the first call is the apply of the job, and the run ends normally only if the apply and the logs exit 0 |
| K8sJob.FirstDecisive | src/k8s.ts:161-175 | the first poll that decides, and every poll before it keeps the loop going |
| K8sJob.FirstDecisiveIs | src/k8s.ts:161-175 | the first deciding poll is unique |
| K8sJob.RunOneTimeJob | src/k8s.ts:143-184 | the loop's run equals the specification: apply, poll until a poll decides, follow the logs, fail unless the job succeeded |
| K8sJob.NoPollAfterDecision | src/k8s.ts:166-173 | no poll follows a deciding one: later answers change nothing |
| K8sJob.PendingKeepsPolling | src/k8s.ts:161-175 | absent jobs and zero counts keep polling, one poll per answer |
| K8sJob.LogsAfterDecision | src/k8s.ts:176-182 | the logs are followed in both outcomes, as the last call; the run ends normally iff the job succeeded and the logs exited 0 |
| K8sJob.OneTimeJobDone | src/k8s.ts:143-184 | the run ends normally iff the apply, a succeeded poll and the logs all went through |
| K8sJob.OneTimeJobInScope | src/k8s.ts:158-179 | when the job name is not a flag, every call targets the namespace |
| K8sStore.Answer | src/k8s.ts:115-129 | a lookup against the store classifies as the stored object, or as absent |
| K8sStore.EffectOfCalls | src/k8s.ts:74 | an apply writes its manifest under the namespace its `-n` names; a lookup changes nothing |
| K8sStore.InitRandomSecretPresent | src/k8s.ts:132-136 | with the secret stored: only the lookup, no apply, and the store is unchanged |
| K8sStore.InitRandomSecretAbsent | src/k8s.ts:137-140 | without it: one apply, after which the store holds the new secret; a failed apply leaves the store as it was |
| K8sStore.InitRandomSecretTwice | src/k8s.ts:131-141 | when the first call went through, a second call against the store it left only looks the secret up and changes nothing: one apply in total if the secret was absent; none at all if it existed |
| K8sStore.AppliesAppend | src/k8s.ts:131-141 | applies are counted additively over consecutive runs |

## Left out

- Process spawning, stdio wiring and `console.log` (src/exec.ts, and the logging in src/k8s.ts). Each process is an oracle: its exit code, its output and the parsed YAML it yields are inputs.
- YAML and JSON serialisation and parsing. Manifests are datatypes with only the fields the code sets. `JSON.stringify` in `createPullSecret` is a parameter `stringify`. A YAML parse error of `getResource` or of the kubeconfig read is not modelled.
- The generated Kubernetes types are not part of this model, and neither are src/hetzner.ts (one CLI call and a JSON parse) or src/op.ts (a CLI wrapper).
- `crypto.getRandomValues`: the random bytes are the input `random`.
- Security.GeneratePassword: lengths are integers; a fractional `length` (the loop would run `ceil(length)` times) is not modelled.
- Object.entries order: records are sequences of entries in enumeration order. JavaScript's hoisting of integer-like keys ahead of the others is not modelled.
- K3s.DownloadKubeConfig: requires the CA, certificate and key data of the first cluster and user to be present, which the code asserts with `!`. What an absent field would pass to `kubectl` is not modelled.
- `statefulSetAndService`: `statefulSetExtra` is not modelled. Of `specExtra`, only `volumeClaimTemplates` (the one key the library passes) is.
- The 1-second sleep between polls is not modelled. The unbounded `while (true)` poll is modelled over a finite sequence of poll answers; when they run out before a decision, the run ends as `Polling`, with no claim about later polls.
- K8sStore: apply is modelled as replacing the stored object, not as a three-way merge. A failed `kubectl apply` is assumed to write nothing, so the store after a failed run is the store after the calls before the failing one; what a partly applied object would leave is not modelled. Concurrent writers, such as a second reconciler racing `initRandomSecret`, are outside the model.
- The `-f` of `kubectl logs` is a switch, yet the command-line reader treats `-f` as taking a value. So only the flags in front of the `logs` words (context and namespace) are claimed for that call.
- The command-line reader reads `--flag value` pairs only. The forms `--flag=value` and short flags clustered with their value (`-nfoo`) are not parsed; the scope claims exclude such words instead of reading them.
- Ssh.DestinationOfUserServer: only the split at the last `@` is stated. `ssh` takes a first word that starts with `-` as an option, and one that starts with `ssh://` as a URI; so a destination such as a bare hostname `-oProxyCommand=…`, or a user starting with `-`, is not read as a destination at all, and the model does not say so.
- K8s.KubectlScope: claims the namespace's scope only for `args` with no word that could name a context or a namespace, because `kubectl` lets the last such flag win; `-A` and `--all-namespaces`, which override `-n`, count as such words.
- K8s.GetScope: claims the scope only when neither the resource nor the name starts with `-`, since `kubectl` would read such a word as a flag.
- K8s.InitRandomSecret: the scope clause holds only for a secret name that is not a flag, for the same reason.
- K8s.HelmScope: holds only when neither the release nor the chart is a flag, for the same reason.
- K8s.HelmArgsReadBack: holds only when neither the release nor the chart is a flag, for the same reason.
- K8sJob.OneTimeJobInScope: holds only for a job name that is not a flag, for the same reason.
- K3s.SetClusterReadBack: holds only for a cluster name that is not a flag, since `kubectl` would read such a word as a flag.
- K3s.SetCredentialsReadBack: holds only for a name that is not a flag.
- K3s.SetContextReadBack: holds only for a name that is not a flag.
- K3s.Install: the node token goes into the command untrimmed. Captured `sudo cat` output normally ends in a newline, which ends the remote shell line right after `K3S_TOKEN=…`, so `sh -s -` and the params would run as a second line without the two variables (see `TokenNewlineEndsLine`). How the remote shell runs the line is not modelled.
- `kubectl` options other than `stdout: "piped"` for `getResource` are not modelled. Elsewhere `kubectl` output is inherited, and a call's `captured` flag records which.
