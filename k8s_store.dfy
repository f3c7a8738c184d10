/** The cluster as a store of objects, so that a run's calls can be played
    against it: `kubectl get` answers from the store and `kubectl apply`
    writes into it.  This is what `initRandomSecret`'s check-then-create
    is about: a second call finds what the first one created. */
module K8sStore {
  import opened Common
  import opened Manifests
  import opened Proc
  import opened K8s
  import opened Base64
  import Security

  /** An object is stored under its namespace, its resource and its name. */
  type Key = (string, string, string)

  type Store = map<Key, Manifest>

  /** The text `kubectl get` prints on standard error for a missing object. */
  function NotFoundText(resource: string, name: string): string
  {
    "Error from server (NotFound): " + resource + " \"" + name + "\" " + "not found"
  }

  /** What `kubectl get resource name -n namespace -o yaml` answers against
      `store`: the stored object, or a "not found" error. */
  function Answer(store: Store, namespace: string, resource: string, name: string): (out: GetOutput)
    ensures ClassifyGet(resource, name, out)
         == Ok(if (namespace, resource, name) in store then Some(store[(namespace, resource, name)]) else None)
  {
    var k := (namespace, resource, name);
    if k in store then GetOutput(0, Some(store[k]), "")
    else
      var prefix := "Error from server (NotFound): " + resource + " \"" + name + "\" ";
      ContainsInfix(prefix, "not found", "");
      assert prefix + "not found" + "" == NotFoundText(resource, name);
      GetOutput(1, None, NotFoundText(resource, name))
  }

  /** What one call does to the store: an apply writes its manifest under
      the namespace its command line names; every other call reads only. */
  function Effect(store: Store, c: Call): Store
  {
    if c.program == "kubectl" && c.input.ManifestInput? && FlagValue(c.args, "-n").Some? then
      var m := c.input.manifest;
      store[(FlagValue(c.args, "-n").value, m.Resource(), m.metadata.name) := m]
    else store
  }

  /** The calls played against the store one after the other. */
  function Effects(store: Store, calls: seq<Call>): Store
    decreases |calls|
  {
    if |calls| == 0 then store else Effects(Effect(store, calls[0]), calls[1..])
  }

  /** The store after a run.  A failed run's last call is the one that
      failed, or one that only reads, so it changes nothing. */
  function After(store: Store, r: Run): Store
  {
    if r.outcome.Failed? && |r.calls| > 0 then Effects(store, r.calls[..|r.calls| - 1])
    else Effects(store, r.calls)
  }

  /** The number of `kubectl apply` calls. */
  function Applies(calls: seq<Call>): (n: nat)
    ensures n <= |calls|
    decreases |calls|
  {
    if |calls| == 0 then 0
    else (if calls[0].input.ManifestInput? then 1 else 0) + Applies(calls[1..])
  }

  lemma {:induction false} AppliesAppend(a: seq<Call>, b: seq<Call>)
    ensures Applies(a + b) == Applies(a) + Applies(b)
    decreases |a|
  {
    if |a| == 0 {
      assert a + b == b;
    } else {
      assert (a + b)[1..] == a[1..] + b;
      AppliesAppend(a[1..], b);
    }
  }

  /** An apply in the namespace writes the manifest there; a lookup
      changes nothing. */
  lemma EffectOfCalls(store: Store, ns: Namespace, m: Manifest, resource: string, name: string)
    ensures Effect(store, ApplyCall(ns.context, ns.namespace, m))
         == store[(ns.namespace, m.Resource(), m.metadata.name) := m]
    ensures Effect(store, GetCall(ns, resource, name)) == store
  {
    ApplyArgsReadBack(ns.context, ns.namespace);
  }

  /** The secret `initRandomSecret` writes. */
  function RandomSecret(ns: Namespace, name: string, key: string, random: seq<byte>): Manifest
    requires |random| >= 32
  {
    var pw := Security.PasswordOf(32, random);
    SecretManifest(name, ns.namespace, "Opaque", [(key, Btoa(pw).GetOr(""))])
  }

  /** `initRandomSecret` against a store holding the secret: it is only
      looked up, and the store stays as it is. */
  lemma InitRandomSecretPresent(store: Store, ns: Namespace, name: string, key: string,
                                random: seq<byte>, code: int)
    requires |random| >= 32
    requires (ns.namespace, "secret", name) in store
    ensures var r := InitRandomSecret(ns, name, key, Answer(store, ns.namespace, "secret", name), random, code);
      && r == Run([GetCall(ns, "secret", name)], Done)
      && Applies(r.calls) == 0 && After(store, r) == store
  {
    var got := Answer(store, ns.namespace, "secret", name);
    var r := InitRandomSecret(ns, name, key, got, random, code);
    assert ClassifyGet("secret", name, got).value.Some?;
    InitRandomSecretSpec(ns, name, key, got, random, code);
    var get := GetCall(ns, "secret", name);
    assert r.calls == [get];
    EffectOfCalls(store, ns, RandomSecret(ns, name, key, random), "secret", name);
    assert r.calls[1..] == [];
    assert After(store, r) == Effects(store, [get]);
    assert [get][1..] == [];
    assert Effects(store, [get]) == Effects(Effect(store, get), []);
  }

  /** `initRandomSecret` against a store without the secret: one apply,
      after which the store holds the new secret, unless the apply failed,
      in which case the store stays as it is. */
  lemma InitRandomSecretAbsent(store: Store, ns: Namespace, name: string, key: string,
                               random: seq<byte>, code: int)
    requires |random| >= 32
    requires (ns.namespace, "secret", name) !in store
    ensures var r := InitRandomSecret(ns, name, key, Answer(store, ns.namespace, "secret", name), random, code);
      && Applies(r.calls) == 1
      && (code == 0 ==>
            r.outcome == Done && After(store, r) == store[(ns.namespace, "secret", name) := RandomSecret(ns, name, key, random)])
      && (code != 0 ==> r.outcome.Failed? && After(store, r) == store)
  {
    var got := Answer(store, ns.namespace, "secret", name);
    var r := InitRandomSecret(ns, name, key, got, random, code);
    InitRandomSecretSpec(ns, name, key, got, random, code);
    var m := RandomSecret(ns, name, key, random);
    EffectOfCalls(store, ns, m, "secret", name);
    var get := GetCall(ns, "secret", name);
    var apply := ApplyCall(ns.context, ns.namespace, m);
    assert r.calls == [get, apply];
    assert r.calls[1..] == [apply];
    assert r.calls[1..][1..] == [];
    assert m.Resource() == "secret" && m.metadata.name == name;
    assert Effect(store, get) == store;
    if code == 0 {
      assert After(store, r) == Effects(store, r.calls);
      assert Effects(store, r.calls) == Effects(store, [apply]);
      assert Effects(store, [apply]) == Effects(Effect(store, apply), []);
    } else {
      assert r.calls[..|r.calls| - 1] == [get];
      assert [get][1..] == [];
      assert After(store, r) == Effects(store, [get]);
      assert Effects(store, [get]) == Effects(Effect(store, get), []);
    }
  }

  /** Calling `initRandomSecret` twice, the second time against the store
      the first call left: when the first call went through, the second
      only looks the secret up and changes nothing, so there is exactly one
      apply in total if the secret was absent and none if it existed. */
  lemma InitRandomSecretTwice(store: Store, ns: Namespace, name: string, key: string,
                              random1: seq<byte>, code1: int, random2: seq<byte>, code2: int)
    requires |random1| >= 32 && |random2| >= 32
    ensures var k := (ns.namespace, "secret", name);
      var r1 := InitRandomSecret(ns, name, key, Answer(store, ns.namespace, "secret", name), random1, code1);
      var store1 := After(store, r1);
      var r2 := InitRandomSecret(ns, name, key, Answer(store1, ns.namespace, "secret", name), random2, code2);
      && (r1.outcome == Done ==>
            && r2 == Run([GetCall(ns, "secret", name)], Done)
            && After(store1, r2) == store1
            && Applies(r1.calls + r2.calls) == (if k in store then 0 else 1))
      && (k in store ==> Applies(r1.calls + r2.calls) == 0)
  {
    var k := (ns.namespace, "secret", name);
    var r1 := InitRandomSecret(ns, name, key, Answer(store, ns.namespace, "secret", name), random1, code1);
    var store1 := After(store, r1);
    var r2 := InitRandomSecret(ns, name, key, Answer(store1, ns.namespace, "secret", name), random2, code2);
    if k in store {
      InitRandomSecretPresent(store, ns, name, key, random1, code1);
    } else {
      InitRandomSecretAbsent(store, ns, name, key, random1, code1);
    }
    if r1.outcome == Done || k in store {
      assert k in store1;
      InitRandomSecretPresent(store1, ns, name, key, random2, code2);
      AppliesAppend(r1.calls, r2.calls);
    }
  }
}
