/** Any number of load balancers claiming frontends concurrently: passes over
    stale listings, interleaved write by write with each other and with users
    who create, change and delete frontends. */
module ClaimProtocol {
  import opened Common
  import opened Api
  import opened Ports
  import opened Allocator

  /** `history` holds every object version ever stored; a listing may return any
      of them. `passes` holds the current pass of each load balancer. */
  datatype System = System(store: Store, history: set<Frontend>, passes: map<Key, Pass>)

  const INITIAL: System := System(Store(map[], 0), {}, map[])

  datatype Event =
    | Create(key: Key, servicePort: int32, selector: Selector)
    | ChangeSpec(key: Key, servicePort: int32, selector: Selector)
    | Delete(key: Key)
    | Begin(lb: Key, items: seq<Frontend>)
    | Advance(lb: Key, reachable: bool)

  predicate Enabled(s: System, e: Event) {
    match e
    case Create(k, _, _) => k !in s.store.objects
    case ChangeSpec(k, _, _) => k in s.store.objects
    case Delete(k) => k in s.store.objects
    case Begin(_, items) => forall f :: f in items ==> f in s.history
    case Advance(lb, _) => lb in s.passes && s.passes[lb].index < |s.passes[lb].listing|
  }

  function Put(s: System, f: Frontend): (r: System) {
    System(Store(s.store.objects[f.key := f], s.store.revision + 1), s.history + {f}, s.passes)
  }

  /** The version written by the current position of a pass, if any. */
  function Recorded(st: Store, k: Key): (r: set<Frontend>) {
    if k in st.objects then {st.objects[k]} else {}
  }

  function Apply(v: Variant, startingPort: int32, s: System, e: Event): (r: System)
    requires Enabled(s, e)
  {
    var next := s.store.revision + 1;
    match e
    case Create(k, port, selector) => Put(s, Frontend(k, next, next, port, selector, None, None))
    case ChangeSpec(k, port, selector) =>
      Put(s, s.store.objects[k].(servicePort := port, selector := selector, version := next, key := k))
    case Delete(k) => System(Store(s.store.objects - {k}, next), s.history, s.passes)
    case Begin(lb, items) => s.(passes := s.passes[lb := StartPass(lb, items, startingPort)])
    case Advance(lb, reachable) =>
      var p := s.passes[lb];
      var (q, st) := StepPass(v, startingPort, p, s.store, reachable);
      System(st, s.history + Recorded(st, p.listing[p.index].key), s.passes[lb := q])
  }

  ghost predicate ValidRun(v: Variant, startingPort: int32, s: System, es: seq<Event>)
    decreases |es|
  {
    es == [] || (Enabled(s, es[0]) && ValidRun(v, startingPort, Apply(v, startingPort, s, es[0]), es[1..]))
  }

  ghost function RunOf(v: Variant, startingPort: int32, s: System, es: seq<Event>): (r: System)
    requires ValidRun(v, startingPort, s, es)
    decreases |es|
  {
    if es == [] then s else RunOf(v, startingPort, Apply(v, startingPort, s, es[0]), es[1..])
  }

  // ----------------------------------------------------------- the invariant

  /** Versions identify what was stored; owner and port are set together. */
  ghost predicate HistoryOk(s: System) {
    && (forall f :: f in s.history ==>
          f.version <= s.store.revision && f.uid <= s.store.revision && (f.lb.Some? <==> f.port.Some?))
    && (forall f, g :: f in s.history && g in s.history && f.version == g.version ==> f == g)
  }

  ghost predicate StoreOk(s: System) {
    forall k :: k in s.store.objects ==> s.store.objects[k].key == k && s.store.objects[k] in s.history
  }

  ghost predicate PassOk(history: set<Frontend>, lb: Key, p: Pass) {
    && p.lb == lb
    && forall i :: p.index <= i < |p.listing| ==> p.listing[i] in history && Visible(p.listing[i], lb, false)
  }

  ghost predicate Inv(s: System) {
    && HistoryOk(s)
    && StoreOk(s)
    && forall lb :: lb in s.passes ==> PassOk(s.history, lb, s.passes[lb])
  }

  /** Status fields that are set keep their values. */
  ghost predicate Kept(f: Frontend, g: Frontend) {
    && (f.lb.Some? ==> g.lb == f.lb)
    && (f.port.Some? ==> g.port == f.port)
  }

  /** An accepted write of a pass starts from exactly the object that was read. */
  lemma AcceptedMeansCurrent(s: System, lb: Key, reachable: bool)
    requires Inv(s) && Enabled(s, Advance(lb, reachable))
    requires var p := s.passes[lb];
      Accepts(s.store, Amend(p.listing[p.index], p.lb, p.nextPort), reachable)
    ensures var p := s.passes[lb]; var f := p.listing[p.index];
      f.key in s.store.objects && s.store.objects[f.key] == f
  {
  }

  /** The object that an accepted write leaves. */
  lemma WriteEffect(st: Store, f: Frontend, lb: Key, nextPort: int32)
    requires f.key in st.objects && st.objects[f.key] == f
    ensures StoreStatus(st, Amend(f, lb, nextPort))
      == Store(st.objects[f.key := Amend(f, lb, nextPort).(version := st.revision + 1)], st.revision + 1)
  {
  }

  /** An iteration leaves the store as it is, or amends exactly the object that was
      read, which is the stored one. */
  ghost predicate KeepsOrAmends(p: Pass, st: Store, after: Store)
    requires p.index < |p.listing|
  {
    var f := p.listing[p.index];
    || after == st
    || (&& f.key in st.objects && st.objects[f.key] == f && NeedsWrite(f)
        && after == Store(st.objects[f.key := Amend(f, p.lb, p.nextPort).(version := st.revision + 1)], st.revision + 1))
  }

  /** The store after one iteration, given the pass and what was read. */
  lemma PassEffect(v: Variant, startingPort: int32, p: Pass, st: Store, reachable: bool)
    requires p.index < |p.listing|
    requires var f := p.listing[p.index];
      Accepts(st, Amend(f, p.lb, p.nextPort), reachable) ==> f.key in st.objects && st.objects[f.key] == f
    ensures KeepsOrAmends(p, st, StepPass(v, startingPort, p, st, reachable).1)
  {
    var f := p.listing[p.index];
    if NeedsWrite(f) && Accepts(st, Amend(f, p.lb, p.nextPort), reachable) {
      WriteEffect(st, f, p.lb, p.nextPort);
    }
  }

  lemma PassIsOwn(s: System, lb: Key)
    requires Inv(s) && lb in s.passes
    ensures s.passes[lb].lb == lb
  {
  }

  /** What one iteration of a pass does to the store. */
  lemma AdvanceEffect(v: Variant, startingPort: int32, s: System, lb: Key, reachable: bool)
    requires Inv(s) && Enabled(s, Advance(lb, reachable))
    ensures s.passes[lb].lb == lb
    ensures KeepsOrAmends(s.passes[lb], s.store, Apply(v, startingPort, s, Advance(lb, reachable)).store)
  {
    var p := s.passes[lb];
    PassIsOwn(s, lb);
    assert Accepts(s.store, Amend(p.listing[p.index], p.lb, p.nextPort), reachable) ==>
      s.store.objects[p.listing[p.index].key] == p.listing[p.index] by {
      if Accepts(s.store, Amend(p.listing[p.index], p.lb, p.nextPort), reachable) {
        AcceptedMeansCurrent(s, lb, reachable);
      }
    }
    PassEffect(v, startingPort, p, s.store, reachable);
  }

  lemma PutKeepsInv(s: System, f: Frontend)
    requires Inv(s)
    requires f.version == s.store.revision + 1 && f.uid <= f.version && (f.lb.Some? <==> f.port.Some?)
    ensures Inv(Put(s, f))
  {
  }

  /** The store and the history after an iteration are those before it, or those
      after putting the amended object. */
  lemma AdvanceIsPut(v: Variant, startingPort: int32, s: System, lb: Key, reachable: bool)
    requires Inv(s) && Enabled(s, Advance(lb, reachable))
    ensures var p := s.passes[lb]; var f := p.listing[p.index];
      var t := Apply(v, startingPort, s, Advance(lb, reachable));
      || (t.store == s.store && t.history == s.history)
      || (var g := Amend(f, lb, p.nextPort).(version := s.store.revision + 1);
          f in s.history && t.store == Put(s, g).store && t.history == Put(s, g).history)
  {
    var p := s.passes[lb];
    var f := p.listing[p.index];
    AdvanceEffect(v, startingPort, s, lb, reachable);
    var t := Apply(v, startingPort, s, Advance(lb, reachable));
    if t.store == s.store {
      assert Recorded(t.store, f.key) <= s.history;
    }
  }

  lemma AdvanceKeepsPasses(v: Variant, startingPort: int32, s: System, lb: Key, reachable: bool, history: set<Frontend>)
    requires Inv(s) && Enabled(s, Advance(lb, reachable)) && s.history <= history
    ensures var t := Apply(v, startingPort, s, Advance(lb, reachable));
      forall l :: l in t.passes ==> PassOk(history, l, t.passes[l])
  {
    var t := Apply(v, startingPort, s, Advance(lb, reachable));
    var p, q := s.passes[lb], t.passes[lb];
    assert q.index == p.index + 1 && |q.listing| == |p.listing|;
    assert forall i :: q.index <= i < |p.listing| ==> q.listing[i] == p.listing[i];
    forall l | l in t.passes ensures PassOk(history, l, t.passes[l]) {
      assert PassOk(s.history, l, s.passes[l]);
    }
  }

  lemma AdvanceKeepsInv(v: Variant, startingPort: int32, s: System, lb: Key, reachable: bool)
    requires Inv(s) && Enabled(s, Advance(lb, reachable))
    ensures Inv(Apply(v, startingPort, s, Advance(lb, reachable)))
  {
    var t := Apply(v, startingPort, s, Advance(lb, reachable));
    var p := s.passes[lb];
    AdvanceIsPut(v, startingPort, s, lb, reachable);
    AdvanceKeepsPasses(v, startingPort, s, lb, reachable, t.history);
    if t.store != s.store || t.history != s.history {
      var g := Amend(p.listing[p.index], lb, p.nextPort).(version := s.store.revision + 1);
      PutKeepsInv(s, g);
    }
  }

  lemma BeginKeepsInv(v: Variant, startingPort: int32, s: System, lb: Key, items: seq<Frontend>)
    requires Inv(s) && Enabled(s, Begin(lb, items))
    ensures Inv(Apply(v, startingPort, s, Begin(lb, items)))
  {
    var p := StartPass(lb, items, startingPort);
    forall i | 0 <= i < |p.listing| ensures p.listing[i] in s.history && Visible(p.listing[i], lb, false) {
      assert p.listing[i] in p.listing;
    }
  }

  lemma DeleteKeepsInv(s: System, k: Key)
    requires Inv(s)
    ensures Inv(System(Store(s.store.objects - {k}, s.store.revision + 1), s.history, s.passes))
  {
  }

  lemma CreateKeepsInv(v: Variant, startingPort: int32, s: System, k: Key, port: int32, selector: Selector)
    requires Inv(s) && Enabled(s, Create(k, port, selector))
    ensures Inv(Apply(v, startingPort, s, Create(k, port, selector)))
  {
    var next := s.store.revision + 1;
    PutKeepsInv(s, Frontend(k, next, next, port, selector, None, None));
  }

  lemma ChangeKeepsInv(v: Variant, startingPort: int32, s: System, k: Key, port: int32, selector: Selector)
    requires Inv(s) && Enabled(s, ChangeSpec(k, port, selector))
    ensures Inv(Apply(v, startingPort, s, ChangeSpec(k, port, selector)))
  {
    var f := s.store.objects[k];
    assert f in s.history;
    PutKeepsInv(s, f.(servicePort := port, selector := selector, version := s.store.revision + 1, key := k));
  }

  lemma StepKeepsInv(v: Variant, startingPort: int32, s: System, e: Event)
    requires Inv(s) && Enabled(s, e)
    ensures Inv(Apply(v, startingPort, s, e))
  {
    match e
    case Create(k, port, selector) => CreateKeepsInv(v, startingPort, s, k, port, selector);
    case ChangeSpec(k, port, selector) => ChangeKeepsInv(v, startingPort, s, k, port, selector);
    case Delete(k) => DeleteKeepsInv(s, k);
    case Begin(lb, items) => BeginKeepsInv(v, startingPort, s, lb, items);
    case Advance(lb, reachable) => AdvanceKeepsInv(v, startingPort, s, lb, reachable);
  }

  /** The write rule: a pass only changes frontends that are unowned or its own,
      keeps the fields that were set, and leaves both fields set. */
  lemma PassWritesOnlyClaimable(v: Variant, startingPort: int32, s: System, lb: Key, reachable: bool, k: Key)
    requires Inv(s) && Enabled(s, Advance(lb, reachable))
    requires k in s.store.objects
    ensures var after := Apply(v, startingPort, s, Advance(lb, reachable)).store;
      && k in after.objects
      && var f, g := s.store.objects[k], after.objects[k];
      && (f != g ==> (f.lb.None? || f.lb == Some(lb)) && g.lb == Some(lb) && g.port.Some? && g.uid == f.uid)
      && Kept(f, g)
  {
    AdvanceEffect(v, startingPort, s, lb, reachable);
    assert PassOk(s.history, lb, s.passes[lb]);
  }

  // --------------------------------------------------------------- over runs

  lemma StepKeepsStatus(v: Variant, startingPort: int32, s: System, e: Event, k: Key)
    requires Inv(s) && Enabled(s, e) && k in s.store.objects
    ensures var after := Apply(v, startingPort, s, e).store;
      if k in after.objects
      then after.objects[k].uid == s.store.objects[k].uid && Kept(s.store.objects[k], after.objects[k])
      else e == Delete(k)
  {
    match e
    case Advance(lb, reachable) => PassWritesOnlyClaimable(v, startingPort, s, lb, reachable, k);
    case _ =>
  }

  /** An identity that is no longer stored under its key never comes back. */
  ghost predicate Gone(s: System, k: Key, uid: nat) {
    && uid <= s.store.revision
    && (k in s.store.objects ==> s.store.objects[k].uid != uid)
  }

  lemma StepKeepsGone(v: Variant, startingPort: int32, s: System, e: Event, k: Key, uid: nat)
    requires Inv(s) && Enabled(s, e) && Gone(s, k, uid)
    ensures Gone(Apply(v, startingPort, s, e), k, uid)
  {
  }

  lemma {:induction false} GoneForever(v: Variant, startingPort: int32, s: System, es: seq<Event>, k: Key, uid: nat)
    requires Inv(s) && ValidRun(v, startingPort, s, es) && Gone(s, k, uid)
    ensures Gone(RunOf(v, startingPort, s, es), k, uid)
    decreases |es|
  {
    if es != [] {
      StepKeepsGone(v, startingPort, s, es[0], k, uid);
      StepKeepsInv(v, startingPort, s, es[0]);
      GoneForever(v, startingPort, Apply(v, startingPort, s, es[0]), es[1..], k, uid);
    }
  }

  lemma {:induction false} RunKeepsStatus(v: Variant, startingPort: int32, s: System, es: seq<Event>, k: Key)
    requires Inv(s) && ValidRun(v, startingPort, s, es) && k in s.store.objects
    ensures var end := RunOf(v, startingPort, s, es);
      && Inv(end)
      && ((k in end.store.objects && end.store.objects[k].uid == s.store.objects[k].uid) ==>
            Kept(s.store.objects[k], end.store.objects[k]))
    decreases |es|
  {
    if es != [] {
      var t := Apply(v, startingPort, s, es[0]);
      StepKeepsInv(v, startingPort, s, es[0]);
      StepKeepsStatus(v, startingPort, s, es[0], k);
      if k in t.store.objects {
        RunKeepsStatus(v, startingPort, t, es[1..], k);
      } else {
        assert s.store.objects[k] in s.history;
        assert Gone(t, k, s.store.objects[k].uid);
        GoneForever(v, startingPort, t, es[1..], k, s.store.objects[k].uid);
        RunKeepsInv(v, startingPort, t, es[1..]);
      }
    }
  }

  lemma {:induction false} RunKeepsInv(v: Variant, startingPort: int32, s: System, es: seq<Event>)
    requires Inv(s) && ValidRun(v, startingPort, s, es)
    ensures Inv(RunOf(v, startingPort, s, es))
    decreases |es|
  {
    if es != [] {
      StepKeepsInv(v, startingPort, s, es[0]);
      RunKeepsInv(v, startingPort, Apply(v, startingPort, s, es[0]), es[1..]);
    }
  }

  /** In every run from an empty cluster: as long as a frontend exists, the owner
      and the port in its stored status never change once set, and either both
      are set or neither is. */
  lemma ClaimsNeverChange(v: Variant, startingPort: int32, before: seq<Event>, after: seq<Event>, k: Key)
    requires ValidRun(v, startingPort, INITIAL, before)
    requires ValidRun(v, startingPort, RunOf(v, startingPort, INITIAL, before), after)
    requires k in RunOf(v, startingPort, INITIAL, before).store.objects
    ensures var mid := RunOf(v, startingPort, INITIAL, before);
      var end := RunOf(v, startingPort, mid, after);
      var f := mid.store.objects[k];
      && (f.lb.Some? <==> f.port.Some?)
      && ((k in end.store.objects && end.store.objects[k].uid == f.uid) ==>
            Kept(f, end.store.objects[k]))
  {
    RunKeepsInv(v, startingPort, INITIAL, before);
    RunKeepsStatus(v, startingPort, RunOf(v, startingPort, INITIAL, before), after, k);
  }

  /** The fixed point survives every run: frontends that are owned and ported, and
      still exist after any further steps of users and load balancers, cause no
      write in a pass over a fresh listing of them. */
  lemma SettledForever(
    v: Variant, startingPort: int32, s: System, es: seq<Event>,
    lb: Key, later: seq<Frontend>, reachable: nat -> bool)
    requires Inv(s) && ValidRun(v, startingPort, s, es)
    requires Fresh(later, RunOf(v, startingPort, s, es).store)
    requires forall i :: 0 <= i < |later| ==>
      && later[i].key in s.store.objects
      && s.store.objects[later[i].key].uid == later[i].uid
      && !NeedsWrite(s.store.objects[later[i].key])
    ensures var end := RunOf(v, startingPort, s, es).store;
      RunPass(v, startingPort, StartPass(lb, later, startingPort), end, reachable) == end
  {
    var p := StartPass(lb, later, startingPort);
    forall n | 0 <= n < |p.listing| ensures !NeedsWrite(p.listing[n]) {
      assert p.listing[n] in later;
      var i :| 0 <= i < |later| && later[i] == p.listing[n];
      RunKeepsStatus(v, startingPort, s, es, later[i].key);
    }
    SettledPassWritesNothing(v, startingPort, p, RunOf(v, startingPort, s, es).store, reachable);
  }
}
