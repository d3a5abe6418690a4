/** Runs of the monitor: what `endpointStates` holds after any sequence of locked
    steps, why the scrape goroutines of a tick do not race, and exactly when a
    pod that is gone stays recorded. */
module MonitorRuns {
  import opened Common
  import opened Api
  import opened Monitor

  /** The steps that happen under the monitor's lock. */
  datatype Event =
    | Added(pod: Pod)
    | Updated(oldPod: Pod, newPod: Pod)
    | Deleted(pod: Pod)
    | Snapshot
    | Sampled(backend: string, uid: Uid, up: bool)

  predicate Deletes(e: Event, u: Uid) {
    e.Deleted? && e.pod.uid == u
  }

  predicate SamplesPod(e: Event, u: Uid) {
    e.Sampled? && e.uid == u
  }

  predicate Samples(e: Event, b: string, u: Uid) {
    e.Sampled? && e.uid == u && e.backend == b
  }

  /** The effect of a step on `endpointStates`. */
  function Step(states: States, e: Event): (r: States) {
    match e
    case Sampled(b, u, up) => Record(states, b, u, up)
    case Deleted(pod) => Forget(states, pod.uid)
    case _ => states
  }

  function Replay(states: States, es: seq<Event>): (r: States) {
    if es == [] then states
    else Step(Replay(states, es[..|es| - 1]), es[|es| - 1])
  }

  lemma StepKeepsCanonical(states: States, e: Event)
    requires Canonical(states)
    ensures Canonical(Step(states, e))
  {
    match e
    case Sampled(b, u, up) => WritesKeepCanonical(states, b, u, up);
    case Deleted(pod) => WritesKeepCanonical(states, "", pod.uid, true);
    case _ =>
  }

  lemma LookupStep(states: States, e: Event, b: string, u: Uid)
    ensures Lookup(Step(states, e), b, u) ==
      if Samples(e, b, u) then Some(e.up)
      else if Deletes(e, u) then None
      else Lookup(states, b, u)
  {
  }

  /** No lock release ever leaves an empty inner map behind. */
  lemma {:induction false} ReplayKeepsCanonical(states: States, es: seq<Event>)
    requires Canonical(states)
    ensures Canonical(Replay(states, es))
  {
    if es != [] {
      ReplayKeepsCanonical(states, es[..|es| - 1]);
      StepKeepsCanonical(Replay(states, es[..|es| - 1]), es[|es| - 1]);
    }
  }

  // ---------------------------------------------------------- log refinement

  /** Position `i` is the latest sample of (b, u) and no delete of `u` follows. */
  ghost predicate IsCurrentSample(es: seq<Event>, b: string, u: Uid, i: int) {
    && 0 <= i < |es|
    && Samples(es[i], b, u)
    && forall j :: i < j < |es| ==> !Samples(es[j], b, u) && !Deletes(es[j], u)
  }

  /** Log refinement: after any sequence of steps the entry of (b, u) is the
      latest sample of (b, u) if one follows the last delete of `u`, and is
      absent otherwise. */
  lemma {:induction false} LogRefinement(es: seq<Event>, b: string, u: Uid)
    ensures Canonical(Replay(map[], es))
    ensures forall up :: Lookup(Replay(map[], es), b, u) == Some(up) <==>
              exists i :: IsCurrentSample(es, b, u, i) && es[i].up == up
    ensures Lookup(Replay(map[], es), b, u) == None <==> !exists i :: IsCurrentSample(es, b, u, i)
  {
    ReplayKeepsCanonical(map[], es);
    if es != [] {
      var n := |es| - 1;
      var front := es[..n];
      LogRefinement(front, b, u);
      LookupStep(Replay(map[], front), es[n], b, u);
      CurrentSampleStep(es, b, u);
    }
  }

  lemma CurrentSampleStep(es: seq<Event>, b: string, u: Uid)
    requires es != []
    ensures var n := |es| - 1;
      forall i :: IsCurrentSample(es, b, u, i) <==>
        if i == n then Samples(es[n], b, u)
        else IsCurrentSample(es[..n], b, u, i) && !Samples(es[n], b, u) && !Deletes(es[n], u)
  {
  }

  // -------------------------------------------------------------- confluence

  predicate Touches(e: Event, u: Uid) {
    Deletes(e, u) || SamplesPod(e, u)
  }

  /** The steps that concern one pod, in order. */
  function Project(es: seq<Event>, u: Uid): (r: seq<Event>) {
    if es == [] then []
    else
      var n := |es| - 1;
      if Touches(es[n], u) then Project(es[..n], u) + [es[n]] else Project(es[..n], u)
  }

  /** What is recorded for a pod depends only on the steps that concern it. */
  lemma {:induction false} ReplayProjects(states: States, es: seq<Event>, b: string, u: Uid)
    ensures Lookup(Replay(states, es), b, u) == Lookup(Replay(states, Project(es, u)), b, u)
  {
    if es != [] {
      var n := |es| - 1;
      ReplayProjects(states, es[..n], b, u);
      LookupStep(Replay(states, es[..n]), es[n], b, u);
      if Touches(es[n], u) {
        var p := Project(es[..n], u) + [es[n]];
        assert p[..|p| - 1] == Project(es[..n], u);
        LookupStep(Replay(states, Project(es[..n], u)), es[n], b, u);
      }
    }
  }

  /** Two logs that agree on every pod lead to the same map. */
  lemma SameProjectionsSameStates(states: States, es: seq<Event>, fs: seq<Event>)
    requires Canonical(states)
    requires forall u :: Project(es, u) == Project(fs, u)
    ensures Replay(states, es) == Replay(states, fs)
  {
    ReplayKeepsCanonical(states, es);
    ReplayKeepsCanonical(states, fs);
    forall b, u ensures Lookup(Replay(states, es), b, u) == Lookup(Replay(states, fs), b, u) {
      ReplayProjects(states, es, b, u);
      ReplayProjects(states, fs, b, u);
      assert Project(es, u) == Project(fs, u);
    }
    CanonicalDetermined(Replay(states, es), Replay(states, fs));
  }

  lemma {:induction false} ProjectConcat(es: seq<Event>, fs: seq<Event>, u: Uid)
    ensures Project(es + fs, u) == Project(es, u) + Project(fs, u)
  {
    if fs == [] {
      assert es + fs == es;
    } else {
      var n := |fs| - 1;
      assert (es + fs)[..|es + fs| - 1] == es + fs[..n];
      ProjectConcat(es, fs[..n], u);
    }
  }

  lemma ProjectCons(e: Event, es: seq<Event>, u: Uid)
    ensures Project([e] + es, u) == (if Touches(e, u) then [e] else []) + Project(es, u)
  {
    ProjectConcat([e], es, u);
    assert [e][..0] == [];
  }

  /** The goroutines of a tick: `parts[i]` is what goroutine `i` still has to do.
      A schedule names the goroutine that takes the lock next. */
  ghost predicate CompleteSchedule(parts: seq<seq<Event>>, schedule: seq<nat>)
    decreases |schedule|
  {
    if schedule == [] then forall i :: 0 <= i < |parts| ==> parts[i] == []
    else
      var i := schedule[0];
      i < |parts| && parts[i] != [] && CompleteSchedule(parts[i := parts[i][1..]], schedule[1..])
  }

  ghost function Interleaved(parts: seq<seq<Event>>, schedule: seq<nat>): (es: seq<Event>)
    requires CompleteSchedule(parts, schedule)
    decreases |schedule|
  {
    if schedule == [] then []
    else
      var i := schedule[0];
      [parts[i][0]] + Interleaved(parts[i := parts[i][1..]], schedule[1..])
  }

  function Concat(parts: seq<seq<Event>>): (es: seq<Event>) {
    if parts == [] then [] else parts[0] + Concat(parts[1..])
  }

  /** Only goroutine `owner` concerns pod `u`. */
  ghost predicate OwnedBy(parts: seq<seq<Event>>, u: Uid, owner: int) {
    forall i, j :: 0 <= i < |parts| && 0 <= j < |parts[i]| && Touches(parts[i][j], u) ==> i == owner
  }

  /** No pod concerns two goroutines. */
  ghost predicate Separate(parts: seq<seq<Event>>) {
    forall u :: HasOneOwner(parts, u)
  }

  ghost predicate HasOneOwner(parts: seq<seq<Event>>, u: Uid) {
    exists owner :: OwnedBy(parts, u, owner)
  }

  ghost function OwnSteps(parts: seq<seq<Event>>, u: Uid, owner: int): (es: seq<Event>) {
    if 0 <= owner < |parts| then Project(parts[owner], u) else []
  }

  lemma {:induction false} NoTouchNoProjection(es: seq<Event>, u: Uid)
    requires forall j :: 0 <= j < |es| ==> !Touches(es[j], u)
    ensures Project(es, u) == []
  {
    if es != [] { NoTouchNoProjection(es[..|es| - 1], u); }
  }

  lemma {:induction false} InterleavedProjects(parts: seq<seq<Event>>, schedule: seq<nat>, u: Uid, owner: int)
    requires CompleteSchedule(parts, schedule) && OwnedBy(parts, u, owner)
    ensures Project(Interleaved(parts, schedule), u) == OwnSteps(parts, u, owner)
    decreases |schedule|
  {
    if schedule != [] {
      var i := schedule[0];
      var e := parts[i][0];
      var rest := parts[i := parts[i][1..]];
      forall k, j | 0 <= k < |rest| && 0 <= j < |rest[k]| && Touches(rest[k][j], u) ensures k == owner {
        if k == i { assert rest[k][j] == parts[k][j + 1]; }
      }
      InterleavedProjects(rest, schedule[1..], u, owner);
      ProjectCons(e, Interleaved(rest, schedule[1..]), u);
      ProjectCons(e, parts[i][1..], u);
      assert parts[i] == [e] + parts[i][1..];
    }
  }

  lemma {:induction false} ConcatProjects(parts: seq<seq<Event>>, u: Uid, owner: int)
    requires OwnedBy(parts, u, owner)
    ensures Project(Concat(parts), u) == OwnSteps(parts, u, owner)
    decreases |parts|
  {
    if parts != [] {
      var rest := parts[1..];
      forall k, j | 0 <= k < |rest| && 0 <= j < |rest[k]| && Touches(rest[k][j], u) ensures k == owner - 1 {
        assert rest[k] == parts[k + 1];
      }
      ConcatProjects(rest, u, owner - 1);
      ProjectConcat(parts[0], Concat(rest), u);
      if owner != 0 {
        NoTouchNoProjection(parts[0], u);
      } else {
        assert OwnSteps(rest, u, -1) == [];
      }
    }
  }

  /** Every complete schedule of separate goroutines ends like running them one
      after another. */
  lemma SeparateGoroutinesConfluent(states: States, parts: seq<seq<Event>>, schedule: seq<nat>)
    requires Canonical(states) && Separate(parts) && CompleteSchedule(parts, schedule)
    ensures Replay(states, Interleaved(parts, schedule)) == Replay(states, Concat(parts))
  {
    forall u ensures Project(Interleaved(parts, schedule), u) == Project(Concat(parts), u) {
      assert HasOneOwner(parts, u);
      var owner :| OwnedBy(parts, u, owner);
      InterleavedProjects(parts, schedule, u, owner);
      ConcatProjects(parts, u, owner);
    }
    SameProjectionsSameStates(states, Interleaved(parts, schedule), Concat(parts));
  }

  /** One scrape goroutine: only samples of its own target. */
  ghost predicate ScrapesOnly(es: seq<Event>, u: Uid) {
    forall j :: 0 <= j < |es| ==> SamplesPod(es[j], u)
  }

  /** The informer goroutine during a tick: handlers only. */
  ghost predicate HandlersOnly(es: seq<Event>) {
    forall j :: 0 <= j < |es| ==> es[j].Added? || es[j].Updated? || es[j].Deleted?
  }

  ghost predicate IsTick(uids: seq<Uid>, handlers: seq<Event>, scrapes: seq<seq<Event>>) {
    && NoDuplicates(uids)
    && |scrapes| == |uids|
    && (forall i :: 0 <= i < |uids| ==> ScrapesOnly(scrapes[i], uids[i]))
    && HandlersOnly(handlers)
  }

  /** The informer deletes no pod that this tick samples. */
  ghost predicate NoDeleteOfScraped(handlers: seq<Event>, scrapes: seq<seq<Event>>) {
    forall h, i, j :: 0 <= h < |handlers| && 0 <= i < |scrapes| && 0 <= j < |scrapes[i]| ==>
      !(handlers[h].Deleted? && SamplesPod(scrapes[i][j], handlers[h].pod.uid))
  }

  lemma TickIsSeparate(uids: seq<Uid>, handlers: seq<Event>, scrapes: seq<seq<Event>>)
    requires IsTick(uids, handlers, scrapes) && NoDeleteOfScraped(handlers, scrapes)
    ensures Separate([handlers] + scrapes)
  {
    var parts := [handlers] + scrapes;
    forall u ensures HasOneOwner(parts, u) {
      if i, j :| 0 <= i < |parts| && 0 <= j < |parts[i]| && Touches(parts[i][j], u) {
        forall k, l | 0 <= k < |parts| && 0 <= l < |parts[k]| && Touches(parts[k][l], u) ensures k == i {
          TickOwner(uids, handlers, scrapes, u, i, j, k, l);
        }
        assert OwnedBy(parts, u, i);
      } else {
        assert OwnedBy(parts, u, 0);
      }
    }
  }

  lemma TickOwner(uids: seq<Uid>, handlers: seq<Event>, scrapes: seq<seq<Event>>, u: Uid, i: nat, j: nat, k: nat, l: nat)
    requires IsTick(uids, handlers, scrapes) && NoDeleteOfScraped(handlers, scrapes)
    requires var parts := [handlers] + scrapes;
      && i < |parts| && j < |parts[i]| && Touches(parts[i][j], u)
      && k < |parts| && l < |parts[k]| && Touches(parts[k][l], u)
    ensures i == k
  {
  }

  /** Scrape confluence: whatever the interleaving of the scrape goroutines of a
      tick with the informer's handlers, the map after the wait is the one of
      running the handlers and then the targets one after another, provided no
      sampled pod is deleted meanwhile. */
  lemma ScrapeConfluence(states: States, uids: seq<Uid>, handlers: seq<Event>, scrapes: seq<seq<Event>>, schedule: seq<nat>)
    requires Canonical(states)
    requires IsTick(uids, handlers, scrapes) && NoDeleteOfScraped(handlers, scrapes)
    requires CompleteSchedule([handlers] + scrapes, schedule)
    ensures Replay(states, Interleaved([handlers] + scrapes, schedule)) == Replay(states, handlers + Concat(scrapes))
  {
    var parts := [handlers] + scrapes;
    TickIsSeparate(uids, handlers, scrapes);
    SeparateGoroutinesConfluent(states, parts, schedule);
    assert parts[1..] == scrapes;
    assert Concat(parts) == handlers + Concat(scrapes);
  }

  // ------------------------------------------------- when confluence fails

  lemma {:induction false} ReplayConcat(states: States, es: seq<Event>, fs: seq<Event>)
    ensures Replay(states, es + fs) == Replay(Replay(states, es), fs)
  {
    if fs == [] {
      assert es + fs == es;
    } else {
      var n := |fs| - 1;
      assert (es + fs)[..|es + fs| - 1] == es + fs[..n];
      ReplayConcat(states, es, fs[..n]);
    }
  }

  lemma {:induction false} DeletedIsAbsent(states: States, es: seq<Event>, b: string, u: Uid, i: nat)
    requires i < |es| && Deletes(es[i], u)
    requires forall j :: 0 <= j < |es| ==> !SamplesPod(es[j], u)
    ensures Lookup(Replay(states, es), b, u) == None
  {
    var n := |es| - 1;
    LookupStep(Replay(states, es[..n]), es[n], b, u);
    if i < n { DeletedIsAbsent(states, es[..n], b, u, i); }
  }

  lemma {:induction false} SampledIsPresent(states: States, es: seq<Event>, b: string, u: Uid, i: nat)
    requires i < |es| && Samples(es[i], b, u)
    requires forall j :: 0 <= j < |es| ==> !Deletes(es[j], u)
    ensures Lookup(Replay(states, es), b, u).Some?
  {
    var n := |es| - 1;
    LookupStep(Replay(states, es[..n]), es[n], b, u);
    if i < n { SampledIsPresent(states, es[..n], b, u, i); }
  }

  /** Members of a concatenation are members of its parts, and conversely. */
  lemma {:induction false} ConcatMembers(parts: seq<seq<Event>>, e: Event)
    ensures e in Concat(parts) <==> exists i :: 0 <= i < |parts| && e in parts[i]
  {
    if parts != [] {
      var rest := parts[1..];
      ConcatMembers(rest, e);
      assert forall i :: 0 <= i < |rest| ==> rest[i] == parts[i + 1];
      if i :| 0 <= i < |parts| && e in parts[i] {
        if i > 0 { assert e in rest[i - 1]; }
      }
    }
  }

  /** The handlers before or after the scrapes: different maps, if a sampled pod
      is deleted. */
  lemma DeleteRaceDiverges(
    states: States, uids: seq<Uid>, handlers: seq<Event>, scrapes: seq<seq<Event>>, h: nat, i: nat, j: nat)
    requires IsTick(uids, handlers, scrapes)
    requires h < |handlers| && i < |scrapes| && j < |scrapes[i]|
    requires handlers[h].Deleted? && SamplesPod(scrapes[i][j], handlers[h].pod.uid)
    ensures Replay(states, handlers + Concat(scrapes)) != Replay(states, Concat(scrapes) + handlers)
  {
    var e := scrapes[i][j];
    var b, u := e.backend, e.uid;
    var all := Concat(scrapes);
    ConcatMembers(scrapes, e);
    var k :| 0 <= k < |all| && all[k] == e;
    forall l | 0 <= l < |all| ensures !Deletes(all[l], u) {
      ConcatMembers(scrapes, all[l]);
      var a :| 0 <= a < |scrapes| && all[l] in scrapes[a];
      assert ScrapesOnly(scrapes[a], uids[a]);
    }
    ReplayConcat(states, handlers, all);
    SampledIsPresent(Replay(states, handlers), all, b, u, k);
    ReplayConcat(states, all, handlers);
    DeletedIsAbsent(Replay(states, all), handlers, b, u, h);
  }

  lemma ConcatDrop(parts: seq<seq<Event>>, k: nat)
    requires k < |parts|
    ensures Concat(parts[k..]) == parts[k] + Concat(parts[k + 1..])
  {
  }

  /** Goroutine 0 alone has something left to do. */
  lemma {:induction false} RunZero(parts: seq<seq<Event>>) returns (schedule: seq<nat>)
    requires |parts| > 0 && forall i :: 0 < i < |parts| ==> parts[i] == []
    ensures CompleteSchedule(parts, schedule) && Interleaved(parts, schedule) == parts[0]
    decreases |parts[0]|
  {
    if parts[0] == [] {
      schedule := [];
    } else {
      var rest := parts[0 := parts[0][1..]];
      var tail := RunZero(rest);
      FirstStep(parts, 0, tail);
      schedule := [0] + tail;
    }
  }

  /** A schedule that runs goroutines `k`, `k + 1`, ... to their ends one after
      another and goroutine 0 last. */
  lemma {:induction false} RunZeroLast(parts: seq<seq<Event>>, k: nat) returns (schedule: seq<nat>)
    requires 0 < k <= |parts|
    requires forall i :: 0 < i < k ==> parts[i] == []
    ensures CompleteSchedule(parts, schedule)
    ensures Interleaved(parts, schedule) == Concat(parts[k..]) + parts[0]
    decreases |parts| - k, if k < |parts| then |parts[k]| else 0
  {
    if k == |parts| {
      schedule := RunZero(parts);
      assert Concat(parts[k..]) == [];
    } else if parts[k] == [] {
      ConcatDrop(parts, k);
      schedule := RunZeroLast(parts, k + 1);
    } else {
      var rest := parts[k := parts[k][1..]];
      var tail := RunZeroLast(rest, k);
      FirstStep(parts, k, tail);
      schedule := [k] + tail;
      ConcatHead(parts, k);
    }
  }

  lemma ConcatHead(parts: seq<seq<Event>>, k: nat)
    requires k < |parts| && parts[k] != []
    ensures Concat(parts[k..]) == [parts[k][0]] + Concat(parts[k := parts[k][1..]][k..])
  {
  }

  lemma FirstStep(parts: seq<seq<Event>>, i: nat, schedule: seq<nat>)
    requires i < |parts| && parts[i] != []
    requires CompleteSchedule(parts[i := parts[i][1..]], schedule)
    ensures CompleteSchedule(parts, [i] + schedule)
    ensures Interleaved(parts, [i] + schedule) == [parts[i][0]] + Interleaved(parts[i := parts[i][1..]], schedule)
  {
  }

  /** Exactly when the scrapes of a tick do not race: every schedule gives the
      sequential result if and only if no sampled pod is deleted meanwhile. */
  lemma ScrapeConfluenceExactly(states: States, uids: seq<Uid>, handlers: seq<Event>, scrapes: seq<seq<Event>>)
    requires Canonical(states) && IsTick(uids, handlers, scrapes)
    ensures (forall schedule :: CompleteSchedule([handlers] + scrapes, schedule) ==>
               Replay(states, Interleaved([handlers] + scrapes, schedule)) == Replay(states, handlers + Concat(scrapes)))
       <==> NoDeleteOfScraped(handlers, scrapes)
  {
    var parts := [handlers] + scrapes;
    if NoDeleteOfScraped(handlers, scrapes) {
      forall schedule | CompleteSchedule(parts, schedule)
        ensures Replay(states, Interleaved(parts, schedule)) == Replay(states, handlers + Concat(scrapes))
      {
        ScrapeConfluence(states, uids, handlers, scrapes, schedule);
      }
    } else {
      var h, i, j :| 0 <= h < |handlers| && 0 <= i < |scrapes| && 0 <= j < |scrapes[i]|
        && handlers[h].Deleted? && SamplesPod(scrapes[i][j], handlers[h].pod.uid);
      DeleteRaceDiverges(states, uids, handlers, scrapes, h, i, j);
      var schedule := RunZeroLast(parts, 1);
      assert parts[1..] == scrapes;
      assert CompleteSchedule(parts, schedule);
    }
  }

  // ------------------------------------------ recorded pods that are gone

  datatype MonitorState = MonitorState(pods: map<Uid, Pod>, targets: map<Uid, ScrapeTarget>, states: States)

  /** The effect of a step on all three maps. */
  function StepAll(m: MonitorState, e: Event): (r: MonitorState) {
    match e
    case Added(pod) => m.(pods := m.pods[pod.uid := pod])
    case Updated(oldPod, newPod) => m.(pods := (m.pods - {oldPod.uid})[newPod.uid := newPod])
    case Deleted(pod) => m.(pods := m.pods - {pod.uid}, states := Step(m.states, e))
    case Snapshot => m.(targets := Targets(m.pods))
    case Sampled(_, _, _) => m.(states := Step(m.states, e))
  }

  function After(es: seq<Event>): (m: MonitorState) {
    if es == [] then MonitorState(map[], map[], map[])
    else StepAll(After(es[..|es| - 1]), es[|es| - 1])
  }

  lemma {:induction false} AfterReplays(es: seq<Event>)
    ensures After(es).states == Replay(map[], es)
  {
    if es != [] { AfterReplays(es[..|es| - 1]); }
  }

  /** The step stores a pod under an identity. */
  predicate Stores(e: Event, u: Uid) {
    (e.Added? && e.pod.uid == u) || (e.Updated? && e.newPod.uid == u)
  }

  function StoredPod(e: Event): (pod: Pod)
    requires e.Added? || e.Updated?
  {
    if e.Added? then e.pod else e.newPod
  }

  /** The step removes an identity: a delete, or an update away from it. */
  predicate Removes(e: Event, u: Uid) {
    Deletes(e, u) || (e.Updated? && e.oldPod.uid == u && e.newPod.uid != u)
  }

  ghost predicate IsCurrentPod(es: seq<Event>, u: Uid, i: int) {
    && 0 <= i < |es| && Stores(es[i], u)
    && forall j :: i < j < |es| ==> !Stores(es[j], u) && !Removes(es[j], u)
  }

  lemma PodStep(m: MonitorState, e: Event, u: Uid)
    ensures var r := StepAll(m, e).pods;
      && (u in r <==> Stores(e, u) || (u in m.pods && !Removes(e, u)))
      && (u in r ==> r[u] == if Stores(e, u) then StoredPod(e) else m.pods[u])
  {
  }

  lemma CurrentPodStep(es: seq<Event>, u: Uid)
    requires es != []
    ensures var n := |es| - 1;
      forall i :: IsCurrentPod(es, u, i) <==>
        if i == n then Stores(es[n], u)
        else IsCurrentPod(es[..n], u, i) && !Stores(es[n], u) && !Removes(es[n], u)
  {
  }

  /** The pods as a log: after any run the pod of an identity is the one last added or
      updated under it, unless it was deleted or updated away since. */
  lemma {:induction false} PodsExactly(es: seq<Event>, u: Uid, pod: Pod)
    ensures (u in After(es).pods && After(es).pods[u] == pod) <==>
      exists i :: IsCurrentPod(es, u, i) && StoredPod(es[i]) == pod
  {
    if es != [] {
      var n := |es| - 1;
      PodsExactly(es[..n], u, pod);
      PodStep(After(es[..n]), es[n], u);
      CurrentPodStep(es, u);
    }
  }

  ghost predicate DeletedIn(es: seq<Event>, u: Uid) {
    exists i :: 0 <= i < |es| && Deletes(es[i], u)
  }

  /** What the environment guarantees: pod identities are never reused, an update
      keeps the identity and does not take the address away, and only targets of
      the current tick are sampled. Deletes may come at any time. */
  ghost predicate Allowed(es: seq<Event>, e: Event) {
    var m := After(es);
    match e
    case Added(pod) => pod.uid !in m.pods && !DeletedIn(es, pod.uid)
    case Updated(oldPod, newPod) =>
      && oldPod.uid == newPod.uid && newPod.uid in m.pods
      && (m.pods[newPod.uid].ip != "" ==> newPod.ip != "")
    case Deleted(pod) => pod.uid in m.pods
    case Snapshot => true
    case Sampled(_, u, _) => u in m.targets
  }

  ghost predicate AllowedRun(es: seq<Event>) {
    es == [] || (AllowedRun(es[..|es| - 1]) && Allowed(es[..|es| - 1], es[|es| - 1]))
  }

  /** Some sample of `u` came after its delete. */
  ghost predicate SampledLate(es: seq<Event>, u: Uid) {
    exists i, j :: 0 <= i < j < |es| && Deletes(es[i], u) && SamplesPod(es[j], u)
  }

  /** ... and a later tick has begun since. */
  ghost predicate LateInEarlierTick(es: seq<Event>, u: Uid) {
    exists i, j, k :: 0 <= i < j < k < |es| && Deletes(es[i], u) && SamplesPod(es[j], u) && es[k].Snapshot?
  }

  ghost predicate IsRecorded(states: States, u: Uid) {
    exists b :: Lookup(states, b, u).Some?
  }

  ghost predicate IsLive(pods: map<Uid, Pod>, u: Uid) {
    u in pods && pods[u].ip != ""
  }

  ghost predicate GhostInv(es: seq<Event>, u: Uid) {
    var m := After(es);
    && (u in m.pods ==> !DeletedIn(es, u) && m.pods[u].uid == u)
    && (IsRecorded(m.states, u) ==> IsLive(m.pods, u) || SampledLate(es, u))
    && (SampledLate(es, u) ==> IsRecorded(m.states, u) && DeletedIn(es, u))
    && (u in m.targets ==> m.targets[u].ip != "" && (IsLive(m.pods, u) || DeletedIn(es, u)))
    && (IsRecorded(m.states, u) && u !in m.targets <==> LateInEarlierTick(es, u))
  }

  lemma TraceStep(es: seq<Event>, u: Uid)
    requires es != []
    ensures var n := |es| - 1;
      && (DeletedIn(es, u) <==> DeletedIn(es[..n], u) || Deletes(es[n], u))
      && (SampledLate(es, u) <==> SampledLate(es[..n], u) || (SamplesPod(es[n], u) && DeletedIn(es[..n], u)))
      && (LateInEarlierTick(es, u) <==> LateInEarlierTick(es[..n], u) || (es[n].Snapshot? && SampledLate(es[..n], u)))
      && (LateInEarlierTick(es, u) ==> SampledLate(es, u))
  {
  }

  lemma RecordedStep(states: States, e: Event, u: Uid)
    ensures IsRecorded(Step(states, e), u) <==>
      if Deletes(e, u) then false else IsRecorded(states, u) || SamplesPod(e, u)
  {
    if IsRecorded(Step(states, e), u) {
      var b :| Lookup(Step(states, e), b, u).Some?;
      LookupStep(states, e, b, u);
    }
    if SamplesPod(e, u) {
      LookupStep(states, e, e.backend, u);
      assert Lookup(Step(states, e), e.backend, u).Some?;
    } else if IsRecorded(states, u) && !Deletes(e, u) {
      var b :| Lookup(states, b, u).Some?;
      LookupStep(states, e, b, u);
      assert Lookup(Step(states, e), b, u).Some?;
    }
  }

  lemma GhostStep(es: seq<Event>, u: Uid)
    requires es != [] && AllowedRun(es) && GhostInv(es[..|es| - 1], u)
    ensures GhostInv(es, u)
  {
    var n := |es| - 1;
    var m := After(es[..n]);
    TraceStep(es, u);
    if n > 0 { TraceStep(es[..n], u); }
    RecordedStep(m.states, es[n], u);
    match es[n]
    case Added(_) =>
    case Updated(_, _) =>
    case Deleted(_) =>
    case Snapshot =>
    case Sampled(_, _, _) =>
  }

  lemma {:induction false} GhostInvHolds(es: seq<Event>, u: Uid)
    requires AllowedRun(es)
    ensures GhostInv(es, u)
  {
    if es == [] {
      assert !IsRecorded(After(es).states, u);
    } else {
      GhostInvHolds(es[..|es| - 1], u);
      GhostStep(es, u);
    }
  }

  /** Exactly which recorded pods have no target when the map is read: those that
      were sampled after their delete in an earlier tick. Such a pod stays
      recorded for ever, since its delete has already been handled. */
  lemma GhostsExactly(es: seq<Event>, u: Uid)
    requires AllowedRun(es)
    ensures (IsRecorded(After(es).states, u) && u !in After(es).targets) <==> LateInEarlierTick(es, u)
    ensures u in After(es).targets ==> After(es).targets[u].ip != ""
  {
    GhostInvHolds(es, u);
  }

  lemma AppendAllowed(es: seq<Event>, e: Event)
    requires AllowedRun(es) && Allowed(es, e)
    ensures AllowedRun(es + [e]) && After(es + [e]) == StepAll(After(es), e)
  {
    assert (es + [e])[..|es|] == es;
  }

  lemma SeenByTick(p: Pod) returns (es: seq<Event>)
    requires p.ip != ""
    ensures AllowedRun(es) && After(es) == MonitorState(map[p.uid := p], Targets(map[p.uid := p]), map[])
  {
    assert AllowedRun([]) && !DeletedIn([], p.uid);
    AppendAllowed([], Added(p));
    AppendAllowed([] + [Added(p)], Snapshot);
    es := [] + [Added(p)] + [Snapshot];
  }

  /** A pod that is sampled, and then deleted. */
  lemma SampledThenDeleted(p: Pod, backend: string, up: bool) returns (es: seq<Event>)
    requires p.ip != ""
    ensures AllowedRun(es) && AllowedRun(es + [Deleted(p)])
    ensures After(es) == MonitorState(map[p.uid := p], Targets(map[p.uid := p]), map[backend := map[p.uid := up]])
    ensures After(es + [Deleted(p)]).states == map[]
  {
    var first := SeenByTick(p);
    var e := Sampled(backend, p.uid, up);
    AppendAllowed(first, e);
    es := first + [e];
    AppendAllowed(es, Deleted(p));
    assert OnlyPod(map[p.uid := up], p.uid);
    assert Forget(map[backend := map[p.uid := up]], p.uid) == map[];
  }

  /** A pod seen by a tick and then deleted while its scrape is under way. */
  lemma DeletedMeanwhile(p: Pod) returns (es: seq<Event>)
    requires p.ip != ""
    ensures AllowedRun(es) && After(es) == MonitorState(map[], Targets(map[p.uid := p]), map[])
    ensures |es| > 0 && Deletes(es[|es| - 1], p.uid)
  {
    var first := SeenByTick(p);
    AppendAllowed(first, Deleted(p));
    es := first + [Deleted(p)];
    assert map[p.uid := p] - {p.uid} == map[] && Forget(map[], p.uid) == map[];
  }

  /** Pods that are recorded without a target do occur: the sample of such a scrape
      is recorded, and nothing is left but that record when the next tick begins. */
  lemma LateSampleRun(p: Pod, backend: string, up: bool) returns (es: seq<Event>)
    requires p.ip != ""
    ensures AllowedRun(es) && LateInEarlierTick(es, p.uid)
    ensures After(es) == MonitorState(map[], map[], map[backend := map[p.uid := up]])
  {
    var first := DeletedMeanwhile(p);
    var e := Sampled(backend, p.uid, up);
    AppendAllowed(first, e);
    AppendAllowed(first + [e], Snapshot);
    es := first + [e] + [Snapshot];
    assert Deletes(es[|first| - 1], p.uid) && SamplesPod(es[|first|], p.uid) && es[|first| + 1].Snapshot?;
    assert Targets(map[]) == map[];
  }

  /** Position `k` is the latest snapshot. */
  ghost predicate IsLastSnapshot(es: seq<Event>, k: int) {
    && 0 <= k < |es| && es[k].Snapshot?
    && forall j :: k < j < |es| ==> !es[j].Snapshot?
  }

  /** At the latest snapshot, position `k`, pod `u` had an address, and `t` is its
      target. */
  ghost predicate IsTargetOf(es: seq<Event>, k: int, u: Uid, t: ScrapeTarget) {
    && IsLastSnapshot(es, k)
    && u in After(es[..k]).pods
    && var pod := After(es[..k]).pods[u];
    && pod.ip != "" && t == ScrapeTarget(u, pod.name, pod.namespace, pod.nodeName, pod.ip)
  }

  /** The targets, exactly: after any run a pod has a target if and only if it had an
      address at the latest snapshot, and the target holds its identity, name,
      namespace, node and address of then. */
  lemma {:induction false} TargetsExactlyLastSnapshot(es: seq<Event>, u: Uid, t: ScrapeTarget)
    ensures (u in After(es).targets && After(es).targets[u] == t) <==> exists k :: IsTargetOf(es, k, u, t)
  {
    if es != [] {
      var n := |es| - 1;
      if es[n].Snapshot? {
        TargetsExactly(After(es[..n]).pods, u);
        assert forall k :: IsTargetOf(es, k, u, t) ==> k == n;
        assert IsTargetOf(es, n, u, t) <==> u in After(es).targets && After(es).targets[u] == t;
      } else {
        TargetsExactlyLastSnapshot(es[..n], u, t);
        forall k ensures IsTargetOf(es, k, u, t) <==> IsTargetOf(es[..n], k, u, t) {
          TargetOfPrefix(es, k, u, t);
        }
      }
    }
  }

  lemma TargetOfPrefix(es: seq<Event>, k: int, u: Uid, t: ScrapeTarget)
    requires es != [] && !es[|es| - 1].Snapshot?
    ensures IsTargetOf(es, k, u, t) <==> IsTargetOf(es[..|es| - 1], k, u, t)
  {
    var n := |es| - 1;
    if 0 <= k < n {
      assert es[..n][..k] == es[..k];
      assert forall j :: 0 <= j < n ==> es[..n][j] == es[j];
    }
  }

  /** Pod `u` had this address and node at the latest snapshot, position `k`. */
  ghost predicate SeenAtSnapshot(es: seq<Event>, k: int, u: Uid, ip: string, nodeName: string) {
    && IsLastSnapshot(es, k)
    && u in After(es[..k]).pods
    && After(es[..k]).pods[u].ip == ip
    && After(es[..k]).pods[u].nodeName == nodeName
  }

  /** The targets are the pods that had an address at the latest snapshot, with
      the address and node they had then. */
  lemma {:induction false} TargetsAreLastSnapshot(es: seq<Event>, u: Uid)
    requires u in After(es).targets
    ensures exists k :: SeenAtSnapshot(es, k, u, After(es).targets[u].ip, After(es).targets[u].nodeName)
  {
    var n := |es| - 1;
    var t := After(es).targets[u];
    if es[n].Snapshot? {
      assert SeenAtSnapshot(es, n, u, t.ip, t.nodeName);
    } else {
      TargetsAreLastSnapshot(es[..n], u);
      var k :| SeenAtSnapshot(es[..n], k, u, t.ip, t.nodeName);
      assert es[..n][..k] == es[..k];
      assert forall j :: 0 <= j < n ==> es[..n][j] == es[j];
      assert SeenAtSnapshot(es, k, u, t.ip, t.nodeName);
    }
  }

  // ------------------------------------------------- the code takes the steps

  ghost function StateOf(monitor: HAProxyMonitor): (m: MonitorState)
    reads monitor
  {
    MonitorState(monitor.pods, monitor.scrapeTargets, monitor.endpointStates)
  }

  /** Each handler, the snapshot and each sample write of the monitor is one step
      of the runs above. */
  method Perform(monitor: HAProxyMonitor, e: Event)
    requires monitor.Valid()
    requires e.Sampled? ==> e.uid in monitor.scrapeTargets
    modifies monitor
    ensures monitor.Valid()
    ensures StateOf(monitor) == StepAll(old(StateOf(monitor)), e)
  {
    match e
    case Added(pod) => monitor.OnAdd(pod);
    case Updated(oldPod, newPod) => monitor.OnUpdate(oldPod, newPod);
    case Deleted(pod) => monitor.OnDelete(pod);
    case Snapshot => var _ := monitor.TakeSnapshot();
    case Sampled(backend, uid, up) => monitor.RecordSample(monitor.scrapeTargets[uid], backend, up);
  }
}
