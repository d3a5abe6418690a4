/** The monitor: informer handlers, the tick snapshot and the sample writes over
    `pods`, `scrapeTargets` and the nested map `endpointStates`. */
module Monitor {
  import opened Common
  import opened Api

  type Uid = string

  datatype Pod = Pod(uid: Uid, name: string, namespace: string, nodeName: string, ip: string)

  datatype ScrapeTarget = ScrapeTarget(uid: Uid, name: string, namespace: string, nodeName: string, ip: string)

  /** Backend name to pod identity to "up". */
  type States = map<string, map<Uid, bool>>

  // -------------------------------------------------------- the nested map

  function Lookup(states: States, backend: string, uid: Uid): (r: Option<bool>) {
    if backend in states && uid in states[backend] then Some(states[backend][uid]) else None
  }

  /** No backend has an empty inner map. */
  ghost predicate Canonical(states: States) {
    forall b :: b in states ==> states[b] != map[]
  }

  /** The write of one sample. */
  function Record(states: States, backend: string, uid: Uid, up: bool): (r: States) {
    var inner := if backend in states then states[backend] else map[];
    states[backend := inner[uid := up]]
  }

  predicate OnlyPod(inner: map<Uid, bool>, uid: Uid) {
    inner.Keys <= {uid}
  }

  /** The removal of a pod from every inner map, dropping the emptied ones. */
  function Forget(states: States, uid: Uid): (r: States) {
    map b | b in states && !OnlyPod(states[b], uid) :: states[b] - {uid}
  }

  function TargetOf(uid: Uid, pod: Pod): (t: ScrapeTarget) {
    ScrapeTarget(uid, pod.name, pod.namespace, pod.nodeName, pod.ip)
  }

  /** The pods that have an address. */
  function Targets(pods: map<Uid, Pod>): (r: map<Uid, ScrapeTarget>) {
    map u | u in pods && pods[u].ip != "" :: TargetOf(u, pods[u])
  }

  /** Targets are stored under their own identity, which samples are recorded by. */
  ghost predicate TargetsKeyed(targets: map<Uid, ScrapeTarget>) {
    forall u :: u in targets ==> targets[u].uid == u
  }

  /** Every pod with an address, and no other, is a target, with its own identity,
      name, namespace, node and address. */
  lemma TargetsExactly(pods: map<Uid, Pod>, u: Uid)
    ensures u in Targets(pods) <==> u in pods && pods[u].ip != ""
    ensures u in Targets(pods) ==>
      && Targets(pods)[u].uid == u
      && Targets(pods)[u].name == pods[u].name && Targets(pods)[u].namespace == pods[u].namespace
      && Targets(pods)[u].nodeName == pods[u].nodeName && Targets(pods)[u].ip == pods[u].ip
    ensures TargetsKeyed(Targets(pods))
  {
  }

  /** The state of the snapshot loop: the pods in `todo` are not yet visited. */
  function TargetsOutside(pods: map<Uid, Pod>, todo: set<Uid>): (r: map<Uid, ScrapeTarget>) {
    map u | u in pods && u !in todo && pods[u].ip != "" :: TargetOf(u, pods[u])
  }

  /** Pods are stored under their own identity. */
  ghost predicate WellKeyed(pods: map<Uid, Pod>) {
    forall u :: u in pods ==> pods[u].uid == u
  }

  lemma WritesKeepCanonical(states: States, backend: string, uid: Uid, up: bool)
    requires Canonical(states)
    ensures Canonical(Record(states, backend, uid, up))
    ensures Canonical(Forget(states, uid))
  {
    var r := Record(states, backend, uid, up);
    assert uid in r[backend];
    forall b | b in Forget(states, uid) ensures Forget(states, uid)[b] != map[] {
      var u :| u in states[b] && u != uid;
      assert u in states[b] - {uid};
    }
  }

  /** A nested map without empty inner maps is determined by its look-ups. */
  lemma CanonicalDetermined(s: States, t: States)
    requires Canonical(s) && Canonical(t)
    requires forall b, u :: Lookup(s, b, u) == Lookup(t, b, u)
    ensures s == t
  {
    LookupsInclude(s, t);
    LookupsInclude(t, s);
    forall b | b in s ensures s[b] == t[b] {
      forall u ensures u in s[b] <==> u in t[b] { assert Lookup(s, b, u) == Lookup(t, b, u); }
      forall u | u in s[b] ensures s[b][u] == t[b][u] { assert Lookup(s, b, u) == Lookup(t, b, u); }
    }
  }

  lemma LookupsInclude(s: States, t: States)
    requires Canonical(s)
    requires forall b, u :: Lookup(s, b, u) == Lookup(t, b, u)
    ensures s.Keys <= t.Keys
  {
    forall b | b in s ensures b in t {
      var u :| u in s[b];
      assert Lookup(s, b, u).Some?;
      assert Lookup(t, b, u).Some?;
    }
  }

  // --------------------------------------------------------------- the class

  class HAProxyMonitor {
    var pods: map<Uid, Pod>
    var scrapeTargets: map<Uid, ScrapeTarget>
    var endpointStates: States

    ghost predicate Valid()
      reads this
    {
      WellKeyed(pods) && TargetsKeyed(scrapeTargets) && Canonical(endpointStates)
    }

    constructor ()
      ensures Valid()
      ensures pods == map[] && scrapeTargets == map[] && endpointStates == map[]
    {
      pods := map[];
      scrapeTargets := map[];
      endpointStates := map[];
    }

    method OnAdd(pod: Pod)
      requires Valid()
      modifies this`pods
      ensures Valid()
      ensures pods == old(pods)[pod.uid := pod]
    {
      pods := pods[pod.uid := pod];
    }

    method OnUpdate(oldPod: Pod, newPod: Pod)
      requires Valid()
      modifies this`pods
      ensures Valid()
      ensures pods == (old(pods) - {oldPod.uid})[newPod.uid := newPod]
    {
      pods := pods - {oldPod.uid};
      pods := pods[newPod.uid := newPod];
    }

    method OnDelete(pod: Pod)
      requires Valid()
      modifies this`pods, this`endpointStates
      ensures Valid()
      ensures pods == old(pods) - {pod.uid}
      ensures endpointStates == Forget(old(endpointStates), pod.uid)
    {
      pods := pods - {pod.uid};
      ghost var before := endpointStates;
      var todo := endpointStates.Keys;
      AllForgotten(before, pod.uid);
      while todo != {}
        invariant pods == old(pods) - {pod.uid}
        invariant todo <= before.Keys
        invariant endpointStates == HalfForgotten(before, pod.uid, todo)
        decreases |todo|
      {
        var backend :| backend in todo;
        HalfForgottenStep(before, pod.uid, todo, backend);
        EmptiedExactly(before[backend], pod.uid);
        var m := endpointStates[backend] - {pod.uid};
        if |m| == 0 {
          endpointStates := endpointStates - {backend};
        } else {
          endpointStates := endpointStates[backend := m];
        }
        todo := todo - {backend};
      }
      WritesKeepCanonical(before, "", pod.uid, true);
    }

    /** One sample of a scrape goroutine, from lock to unlock. */
    method RecordSample(target: ScrapeTarget, backendName: string, isHealthy: bool)
      requires Valid()
      modifies this`endpointStates
      ensures Valid()
      ensures endpointStates == Record(old(endpointStates), backendName, target.uid, isHealthy)
    {
      WritesKeepCanonical(endpointStates, backendName, target.uid, isHealthy);
      if backendName !in endpointStates {
        endpointStates := endpointStates[backendName := map[]];
      }
      endpointStates := endpointStates[backendName := endpointStates[backendName][target.uid := isHealthy]];
    }

    /** The snapshot at the start of a tick. */
    method TakeSnapshot() returns (targets: map<Uid, ScrapeTarget>)
      requires Valid()
      modifies this`scrapeTargets
      ensures Valid()
      ensures scrapeTargets == targets == Targets(pods)
      ensures forall u :: u in targets <==> u in pods && pods[u].ip != ""
      ensures forall u :: u in targets ==>
        targets[u] == ScrapeTarget(u, pods[u].name, pods[u].namespace, pods[u].nodeName, pods[u].ip)
    {
      targets := map[];
      var todo := pods.Keys;
      while todo != {}
        invariant todo <= pods.Keys
        invariant targets == TargetsOutside(pods, todo)
        decreases |todo|
      {
        var uid :| uid in todo;
        var pod := pods[uid];
        if pod.ip != "" {
          targets := targets[pod.uid := TargetOf(uid, pod)];
        }
        todo := todo - {uid};
      }
      scrapeTargets := targets;
    }
  }

  /** The state of the deletion loop: the backends in `todo` are not yet visited. */
  function HalfForgotten(states: States, uid: Uid, todo: set<string>): (r: States) {
    map b | b in states && (b in todo || !OnlyPod(states[b], uid)) ::
      if b in todo then states[b] else states[b] - {uid}
  }

  lemma HalfForgottenStep(states: States, uid: Uid, todo: set<string>, b: string)
    requires b in todo && todo <= states.Keys
    ensures var h := HalfForgotten(states, uid, todo);
      && b in h && h[b] == states[b]
      && HalfForgotten(states, uid, todo - {b}) ==
           if OnlyPod(states[b], uid) then h - {b} else h[b := states[b] - {uid}]
  {
  }

  lemma EmptiedExactly(inner: map<Uid, bool>, uid: Uid)
    ensures |inner - {uid}| == 0 <==> OnlyPod(inner, uid)
  {
  }

  lemma AllForgotten(states: States, uid: Uid)
    ensures HalfForgotten(states, uid, {}) == Forget(states, uid)
    ensures HalfForgotten(states, uid, states.Keys) == states
  {
  }
}
