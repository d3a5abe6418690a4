/** Ports over whole runs of the claim protocol: the range they stay in, and
    when the ports of one load balancer stay different. */
module PortRuns {
  import opened Common
  import opened Api
  import opened Ports
  import opened Allocator
  import opened ClaimProtocol

  /** Room for `n` ports from `startingPort` up, below the 32-bit limit. */
  ghost predicate Roomy(startingPort: int32, n: nat) {
    0 <= startingPort && startingPort as int + n <= INT32_MAX
  }

  ghost predicate PortInRange(f: Frontend, startingPort: int, n: nat) {
    f.port.Some? ==> startingPort <= f.port.value < startingPort + n
  }

  ghost predicate Unported(p: Pass) {
    exists i :: p.index <= i < |p.listing| && p.listing[i].port.None?
  }

  ghost predicate PassInRange(p: Pass, startingPort: int, n: nat) {
    && |p.listing| <= n
    && (forall i :: 0 <= i < |p.listing| ==> PortInRange(p.listing[i], startingPort, n))
    && (Unported(p) ==> startingPort <= p.nextPort < startingPort + n)
  }

  ghost predicate RangeInv(s: System, startingPort: int, n: nat) {
    && (forall f :: f in s.history ==> PortInRange(f, startingPort, n))
    && (forall lb :: lb in s.passes ==> PassInRange(s.passes[lb], startingPort, n))
  }

  /** No pass works on more than `n` frontends. */
  ghost predicate Bounded(e: Event, n: nat) {
    e.Begin? ==> |Filtered(e.items, e.lb, false)| <= n
  }

  lemma {:induction false} UnportedLeavesRoom(listing: seq<Frontend>, i: nat)
    requires i < |listing| && listing[i].port.None?
    ensures |PortsOf(listing)| < |listing|
  {
    var last := |listing| - 1;
    if i < last {
      UnportedLeavesRoom(listing[..last], i);
    }
  }

  lemma RangeHasNoOverflow(listing: seq<Frontend>, startingPort: int32, n: nat)
    requires Roomy(startingPort, n)
    requires forall i :: 0 <= i < |listing| ==> PortInRange(listing[i], startingPort, n)
    ensures NoOverflow(PortsOf(listing))
    ensures forall p :: p in PortsOf(listing) ==> startingPort <= p < startingPort + n
  {
  }

  lemma NextPortInRange(listing: seq<Frontend>, startingPort: int32, n: nat)
    requires Roomy(startingPort, n) && |listing| <= n
    requires forall i :: 0 <= i < |listing| ==> PortInRange(listing[i], startingPort, n)
    ensures NextPort(PortsOf(listing), startingPort) !in PortsOf(listing)
    ensures (exists i :: 0 <= i < |listing| && listing[i].port.None?) ==>
              startingPort <= NextPort(PortsOf(listing), startingPort) < startingPort + n
  {
    var ports := PortsOf(listing);
    RangeHasNoOverflow(listing, startingPort, n);
    NextPortIsLeastFree(ports, startingPort);
    LeastFreeBound(ports, startingPort, NextPort(ports, startingPort));
    if i :| 0 <= i < |listing| && listing[i].port.None? {
      UnportedLeavesRoom(listing, i);
    }
  }

  lemma BeginInRange(s: System, startingPort: int32, n: nat, lb: Key, items: seq<Frontend>)
    requires Roomy(startingPort, n) && RangeInv(s, startingPort, n)
    requires Enabled(s, Begin(lb, items)) && Bounded(Begin(lb, items), n)
    ensures PassInRange(StartPass(lb, items, startingPort), startingPort, n)
  {
    var p := StartPass(lb, items, startingPort);
    forall i | 0 <= i < |p.listing| ensures PortInRange(p.listing[i], startingPort, n) {
      assert p.listing[i] in p.listing;
    }
    NextPortInRange(p.listing, startingPort, n);
  }

  lemma AmendInRange(startingPort: int32, n: nat, p: Pass)
    requires PassInRange(p, startingPort, n) && p.index < |p.listing|
    ensures PortInRange(Amend(p.listing[p.index], p.lb, p.nextPort), startingPort, n)
  {
    var f := p.listing[p.index];
    assert PortInRange(f, startingPort, n);
    assert f.port.None? ==> Unported(p);
  }

  lemma StepKeepsUnported(v: Variant, startingPort: int32, p: Pass, st: Store, reachable: bool)
    requires p.index < |p.listing|
    ensures Unported(StepPass(v, startingPort, p, st, reachable).0) ==> Unported(p)
  {
    var q := StepPass(v, startingPort, p, st, reachable).0;
    if i :| q.index <= i < |q.listing| && q.listing[i].port.None? {
      assert p.listing[i] == q.listing[i];
    }
  }

  /** A pass whose next port is in range, or comes from a search of its listing. */
  lemma SearchedInRange(startingPort: int32, n: nat, q: Pass)
    requires Roomy(startingPort, n) && |q.listing| <= n
    requires forall i :: 0 <= i < |q.listing| ==> PortInRange(q.listing[i], startingPort, n)
    requires q.nextPort == NextPort(PortsOf(q.listing), startingPort)
      || (Unported(q) ==> startingPort <= q.nextPort < startingPort + n)
    ensures PassInRange(q, startingPort, n)
  {
    NextPortInRange(q.listing, startingPort, n);
    if i :| q.index <= i < |q.listing| && q.listing[i].port.None? {
      assert 0 <= i;
    }
  }

  lemma StepPassInRange(v: Variant, startingPort: int32, n: nat, p: Pass, st: Store, reachable: bool)
    requires Roomy(startingPort, n) && PassInRange(p, startingPort, n) && p.index < |p.listing|
    ensures PassInRange(StepPass(v, startingPort, p, st, reachable).0, startingPort, n)
    ensures PortInRange(Amend(p.listing[p.index], p.lb, p.nextPort), startingPort, n)
  {
    var q := StepPass(v, startingPort, p, st, reachable).0;
    AmendInRange(startingPort, n, p);
    forall i | 0 <= i < |q.listing| ensures PortInRange(q.listing[i], startingPort, n) {
      assert PortInRange(p.listing[i], startingPort, n);
    }
    StepKeepsUnported(v, startingPort, p, st, reachable);
    SearchedInRange(startingPort, n, q);
  }

  lemma AdvanceInRange(v: Variant, startingPort: int32, n: nat, s: System, lb: Key, reachable: bool)
    requires Roomy(startingPort, n) && Inv(s) && RangeInv(s, startingPort, n)
    requires Enabled(s, Advance(lb, reachable))
    ensures RangeInv(Apply(v, startingPort, s, Advance(lb, reachable)), startingPort, n)
  {
    var p := s.passes[lb];
    StepPassInRange(v, startingPort, n, p, s.store, reachable);
    AdvanceEffect(v, startingPort, s, lb, reachable);
    var k := p.listing[p.index].key;
    if k in s.store.objects { assert s.store.objects[k] in s.history; }
  }

  lemma StepInRange(v: Variant, startingPort: int32, n: nat, s: System, e: Event)
    requires Roomy(startingPort, n) && Inv(s) && RangeInv(s, startingPort, n)
    requires Enabled(s, e) && Bounded(e, n)
    ensures RangeInv(Apply(v, startingPort, s, e), startingPort, n)
  {
    match e
    case Begin(lb, items) => BeginInRange(s, startingPort, n, lb, items);
    case Advance(lb, reachable) => AdvanceInRange(v, startingPort, n, s, lb, reachable);
    case ChangeSpec(k, _, _) => assert s.store.objects[k] in s.history;
    case _ =>
  }

  lemma {:induction false} RunInRange(v: Variant, startingPort: int32, n: nat, s: System, es: seq<Event>)
    requires Roomy(startingPort, n) && Inv(s) && RangeInv(s, startingPort, n)
    requires ValidRun(v, startingPort, s, es)
    requires forall i :: 0 <= i < |es| ==> Bounded(es[i], n)
    ensures Inv(RunOf(v, startingPort, s, es))
    ensures RangeInv(RunOf(v, startingPort, s, es), startingPort, n)
    decreases |es|
  {
    if es != [] {
      StepKeepsInv(v, startingPort, s, es[0]);
      StepInRange(v, startingPort, n, s, es[0]);
      RunInRange(v, startingPort, n, Apply(v, startingPort, s, es[0]), es[1..]);
    }
  }

  /** Every port ever stored lies in [startingPort, startingPort + n) if no pass
      works on more than `n` frontends: despite deletions, stale listings, lost
      writes and any number of load balancers. */
  lemma PortsStayInRange(v: Variant, startingPort: int32, n: nat, es: seq<Event>)
    requires Roomy(startingPort, n)
    requires ValidRun(v, startingPort, INITIAL, es)
    requires forall i :: 0 <= i < |es| ==> Bounded(es[i], n)
    ensures forall f :: f in RunOf(v, startingPort, INITIAL, es).history ==>
              (f.port.Some? ==> startingPort <= f.port.value < startingPort as int + n)
    ensures forall k :: k in RunOf(v, startingPort, INITIAL, es).store.objects ==>
              RunOf(v, startingPort, INITIAL, es).store.objects[k] in RunOf(v, startingPort, INITIAL, es).history
  {
    RunInRange(v, startingPort, n, INITIAL, es);
    var s := RunOf(v, startingPort, INITIAL, es);
    forall f | f in s.history && f.port.Some? ensures startingPort <= f.port.value < startingPort as int + n {
      assert PortInRange(f, startingPort, n);
    }
  }

  /** The operator starts at 10240, so up to 55296 frontends stay within the
      16-bit port range. */
  lemma PortsFitSixteenBits(v: Variant, es: seq<Event>, k: Key)
    requires ValidRun(v, 10240, INITIAL, es)
    requires forall i :: 0 <= i < |es| ==> Bounded(es[i], 55296)
    requires k in RunOf(v, 10240, INITIAL, es).store.objects
    ensures var f := RunOf(v, 10240, INITIAL, es).store.objects[k];
      f.port.Some? ==> 10240 <= f.port.value <= 65535
  {
    PortsStayInRange(v, 10240, 55296, es);
  }

  // -------------------------------------------------------------- uniqueness

  /** A pass starts from a listing that holds every frontend its load balancer
      owns and, for the code as written, at most one frontend without a port. */
  ghost predicate FreshStart(v: Variant, s: System, e: Event) {
    e.Begin? ==>
      var listing := Filtered(e.items, e.lb, false);
      && Complete(listing, s.store, e.lb)
      && (v.AsWritten? ==> AtMostOneUnported(listing, 0))
  }

  ghost predicate FreshRun(v: Variant, startingPort: int32, s: System, es: seq<Event>)
    requires ValidRun(v, startingPort, s, es)
    decreases |es|
  {
    es == [] || (FreshStart(v, s, es[0]) && FreshRun(v, startingPort, Apply(v, startingPort, s, es[0]), es[1..]))
  }

  ghost predicate Owns(st: Store, lb: Key, k: Key) {
    k in st.objects && st.objects[k].lb == Some(lb) && st.objects[k].port.Some?
  }

  /** What a pass in progress knows about the ports its load balancer owns. */
  ghost predicate PassSafe(v: Variant, startingPort: int32, st: Store, lb: Key, p: Pass) {
    match v
    case AsWritten =>
      && p.nextPort == NextPort(PortsOf(p.listing), startingPort)
      && AtMostOneUnported(p.listing, p.index)
      && forall k :: Owns(st, lb, k) ==>
           var port := st.objects[k].port.value;
           port in PortsOf(p.listing) || (port == p.nextPort && !Unported(p))
    case WriteBack =>
      forall k :: Owns(st, lb, k) ==>
        var port := st.objects[k].port.value;
        port in PortsOf(p.listing) && port != p.nextPort
  }

  ghost predicate UniqueInv(v: Variant, startingPort: int32, s: System) {
    && (forall lb: Key :: OwnedPortsDistinct(s.store, lb))
    && (forall lb :: lb in s.passes ==> PassSafe(v, startingPort, s.store, lb, s.passes[lb]))
  }

  /** Between two stores, a load balancer gained nothing. */
  ghost predicate NothingGained(before: Store, after: Store, lb: Key) {
    forall k :: k in after.objects && after.objects[k].lb == Some(lb) ==>
      k in before.objects && before.objects[k].lb == Some(lb) && before.objects[k].port == after.objects[k].port
  }

  lemma NothingGainedIsSafe(v: Variant, startingPort: int32, before: Store, after: Store, lb: Key)
    requires NothingGained(before, after, lb)
    requires OwnedPortsDistinct(before, lb)
    ensures OwnedPortsDistinct(after, lb)
    ensures forall p :: PassSafe(v, startingPort, before, lb, p) ==> PassSafe(v, startingPort, after, lb, p)
  {
  }

  lemma BeginSafe(v: Variant, startingPort: int32, n: nat, s: System, lb: Key, items: seq<Frontend>)
    requires Roomy(startingPort, n) && RangeInv(s, startingPort, n)
    requires Enabled(s, Begin(lb, items)) && Bounded(Begin(lb, items), n) && FreshStart(v, s, Begin(lb, items))
    ensures PassSafe(v, startingPort, s.store, lb, StartPass(lb, items, startingPort))
  {
    var p := StartPass(lb, items, startingPort);
    BeginInRange(s, startingPort, n, lb, items);
    NextPortInRange(p.listing, startingPort, n);
    forall k | Owns(s.store, lb, k) ensures s.store.objects[k].port.value in PortsOf(p.listing) {
      var i :| 0 <= i < |p.listing| && p.listing[i] == s.store.objects[k];
    }
  }

  /** A position of the pass without an accepted write. */
  lemma IdleStepSafe(v: Variant, startingPort: int32, n: nat, st: Store, lb: Key, p: Pass, reachable: bool)
    requires Roomy(startingPort, n) && PassInRange(p, startingPort, n) && p.index < |p.listing|
    requires PassSafe(v, startingPort, st, lb, p)
    requires StepPass(v, startingPort, p, st, reachable).1 == st
    ensures PassSafe(v, startingPort, st, lb, StepPass(v, startingPort, p, st, reachable).0)
  {
    var q := StepPass(v, startingPort, p, st, reachable).0;
    StepPassInRange(v, startingPort, n, p, st, reachable);
    NextPortInRange(q.listing, startingPort, n);
    PortsSurvive(v, startingPort, p, st, reachable);
    if Unported(q) && v.AsWritten? {
      assert Unported(p);
    }
  }

  /** The list a pass searches never loses a port. */
  lemma PortsSurvive(v: Variant, startingPort: int32, p: Pass, st: Store, reachable: bool)
    requires p.index < |p.listing|
    ensures forall port :: port in PortsOf(p.listing) ==>
              port in PortsOf(StepPass(v, startingPort, p, st, reachable).0.listing)
  {
  }

  /** Between two stores, a load balancer gained one frontend, with this port. */
  ghost predicate GainedOne(before: Store, after: Store, lb: Key, key: Key, port: int32) {
    && (forall k :: Owns(after, lb, k) && k != key ==> Owns(before, lb, k) && after.objects[k].port == before.objects[k].port)
    && (Owns(after, lb, key) ==> after.objects[key].port == Some(port))
  }

  lemma NewPortKeepsDistinct(before: Store, after: Store, lb: Key, key: Key, port: int32)
    requires GainedOne(before, after, lb, key, port)
    requires OwnedPortsDistinct(before, lb)
    requires forall k :: Owns(before, lb, k) ==> before.objects[k].port.value != port
    ensures OwnedPortsDistinct(after, lb)
  {
  }

  /** While a frontend without a port lies ahead, the next port is not owned. */
  lemma NextPortNotOwned(v: Variant, startingPort: int32, n: nat, st: Store, lb: Key, p: Pass, k: Key)
    requires Roomy(startingPort, n) && PassInRange(p, startingPort, n)
    requires Unported(p) && PassSafe(v, startingPort, st, lb, p) && Owns(st, lb, k)
    ensures st.objects[k].port.value != p.nextPort
    ensures st.objects[k].port.value in PortsOf(p.listing)
  {
    NextPortInRange(p.listing, startingPort, n);
  }

  lemma WritingStepSafeAsWritten(startingPort: int32, n: nat, st: Store, after: Store, lb: Key, p: Pass, key: Key)
    requires Roomy(startingPort, n) && PassInRange(p, startingPort, n) && p.index < |p.listing|
    requires p.listing[p.index].port.None?
    requires PassSafe(AsWritten, startingPort, st, lb, p)
    requires GainedOne(st, after, lb, key, p.nextPort)
    ensures PassSafe(AsWritten, startingPort, after, lb, p.(index := p.index + 1))
  {
  }

  lemma WritingStepSafeWriteBack(startingPort: int32, n: nat, st: Store, after: Store, lb: Key, p: Pass, q: Pass, key: Key)
    requires Roomy(startingPort, n) && PassInRange(p, startingPort, n) && PassInRange(q, startingPort, n)
    requires Unported(p) && PassSafe(WriteBack, startingPort, st, lb, p)
    requires GainedOne(st, after, lb, key, p.nextPort)
    requires p.nextPort in PortsOf(q.listing)
    requires forall port :: port in PortsOf(p.listing) ==> port in PortsOf(q.listing)
    requires q.nextPort == NextPort(PortsOf(q.listing), startingPort)
    ensures PassSafe(WriteBack, startingPort, after, lb, q)
  {
    NextPortInRange(q.listing, startingPort, n);
    forall k | Owns(after, lb, k) ensures after.objects[k].port.value in PortsOf(q.listing) {
      if k != key { NextPortNotOwned(WriteBack, startingPort, n, st, lb, p, k); }
    }
  }

  /** A position whose write is accepted: the port it stores is new to its load
      balancer, and the pass stays safe. */
  lemma WritingStepSafe(v: Variant, startingPort: int32, n: nat, st: Store, lb: Key, p: Pass, reachable: bool)
    requires Roomy(startingPort, n) && PassInRange(p, startingPort, n) && p.index < |p.listing|
    requires p.lb == lb && p.listing[p.index].port.None?
    requires PassSafe(v, startingPort, st, lb, p) && OwnedPortsDistinct(st, lb)
    requires Accepts(st, Amend(p.listing[p.index], p.lb, p.nextPort), reachable)
    ensures var (q, after) := StepPass(v, startingPort, p, st, reachable);
      OwnedPortsDistinct(after, lb) && PassSafe(v, startingPort, after, lb, q)
  {
    var (q, after) := StepPass(v, startingPort, p, st, reachable);
    var key := p.listing[p.index].key;
    assert Unported(p);
    assert GainedOne(st, after, lb, key, p.nextPort);
    forall k | Owns(st, lb, k) ensures st.objects[k].port.value != p.nextPort {
      NextPortNotOwned(v, startingPort, n, st, lb, p, k);
    }
    NewPortKeepsDistinct(st, after, lb, key, p.nextPort);
    if v.AsWritten? {
      WritingStepSafeAsWritten(startingPort, n, st, after, lb, p, key);
      assert q == p.(index := p.index + 1);
    } else {
      StepPassInRange(v, startingPort, n, p, st, reachable);
      PortsSurvive(v, startingPort, p, st, reachable);
      assert q.listing[p.index].port == Some(p.nextPort);
      WritingStepSafeWriteBack(startingPort, n, st, after, lb, p, q, key);
    }
  }

  lemma OwnAdvanceSafe(v: Variant, startingPort: int32, n: nat, s: System, lb: Key, reachable: bool)
    requires Roomy(startingPort, n) && Inv(s) && RangeInv(s, startingPort, n) && UniqueInv(v, startingPort, s)
    requires Enabled(s, Advance(lb, reachable))
    ensures var t := Apply(v, startingPort, s, Advance(lb, reachable));
      OwnedPortsDistinct(t.store, lb) && PassSafe(v, startingPort, t.store, lb, t.passes[lb])
  {
    var p := s.passes[lb];
    var f := p.listing[p.index];
    assert PassOk(s.history, lb, p);
    if NeedsWrite(f) && Accepts(s.store, Amend(f, p.lb, p.nextPort), reachable) {
      AcceptedMeansCurrent(s, lb, reachable);
      WritingStepSafe(v, startingPort, n, s.store, lb, p, reachable);
    } else {
      IdleStepSafe(v, startingPort, n, s.store, lb, p, reachable);
    }
  }

  /** A write that claims for `owner` gives nothing to anybody else. */
  lemma AmendGainsNothing(st: Store, f: Frontend, owner: Key, port: int32, lb: Key)
    requires f.key in st.objects && st.objects[f.key] == f && Visible(f, owner, false) && owner != lb
    ensures var g := Amend(f, owner, port).(version := st.revision + 1);
      NothingGained(st, Store(st.objects[f.key := g], st.revision + 1), lb)
  {
  }

  lemma UsersGainNothing(v: Variant, startingPort: int32, s: System, e: Event, lb: Key)
    requires Enabled(s, e) && !e.Advance?
    ensures NothingGained(s.store, Apply(v, startingPort, s, e).store, lb)
  {
  }

  /** A step other than a load balancer's own iteration gains it nothing. */
  lemma OthersGainNothing(v: Variant, startingPort: int32, s: System, e: Event, lb: Key)
    requires Inv(s) && Enabled(s, e)
    requires e.Advance? ==> e.lb != lb
    ensures NothingGained(s.store, Apply(v, startingPort, s, e).store, lb)
  {
    if e.Advance? {
      var p := s.passes[e.lb];
      var f := p.listing[p.index];
      AdvanceEffect(v, startingPort, s, e.lb, e.reachable);
      assert PassOk(s.history, e.lb, p) && Visible(f, e.lb, false);
      if f.key in s.store.objects && s.store.objects[f.key] == f {
        AmendGainsNothing(s.store, f, e.lb, p.nextPort, lb);
      }
    } else {
      UsersGainNothing(v, startingPort, s, e, lb);
    }
  }

  lemma StepKeepsUnique(v: Variant, startingPort: int32, n: nat, s: System, e: Event)
    requires Roomy(startingPort, n) && Inv(s) && RangeInv(s, startingPort, n) && UniqueInv(v, startingPort, s)
    requires Enabled(s, e) && Bounded(e, n) && FreshStart(v, s, e)
    ensures UniqueInv(v, startingPort, Apply(v, startingPort, s, e))
  {
    var t := Apply(v, startingPort, s, e);
    forall lb: Key
      ensures OwnedPortsDistinct(t.store, lb)
      ensures lb in t.passes ==> PassSafe(v, startingPort, t.store, lb, t.passes[lb])
    {
      if e.Advance? && e.lb == lb {
        OwnAdvanceSafe(v, startingPort, n, s, lb, e.reachable);
      } else {
        OthersGainNothing(v, startingPort, s, e, lb);
        NothingGainedIsSafe(v, startingPort, s.store, t.store, lb);
        if e.Begin? && e.lb == lb {
          BeginSafe(v, startingPort, n, s, lb, e.items);
        }
      }
    }
  }

  lemma {:induction false} RunKeepsUnique(v: Variant, startingPort: int32, n: nat, s: System, es: seq<Event>)
    requires Roomy(startingPort, n) && Inv(s) && RangeInv(s, startingPort, n) && UniqueInv(v, startingPort, s)
    requires ValidRun(v, startingPort, s, es) && FreshRun(v, startingPort, s, es)
    requires forall i :: 0 <= i < |es| ==> Bounded(es[i], n)
    ensures UniqueInv(v, startingPort, RunOf(v, startingPort, s, es))
    decreases |es|
  {
    if es != [] {
      StepKeepsInv(v, startingPort, s, es[0]);
      StepInRange(v, startingPort, n, s, es[0]);
      StepKeepsUnique(v, startingPort, n, s, es[0]);
      RunKeepsUnique(v, startingPort, n, Apply(v, startingPort, s, es[0]), es[1..]);
    }
  }

  /** Port uniqueness over runs: if every pass starts from a listing that holds
      all frontends its load balancer owns, then no load balancer ever owns two
      frontends with one port. The code as written needs, in addition, that no
      pass sees two frontends without a port; the write-back variant does not. */
  lemma OwnedPortsStayDistinct(v: Variant, startingPort: int32, n: nat, es: seq<Event>, lb: Key)
    requires Roomy(startingPort, n)
    requires ValidRun(v, startingPort, INITIAL, es) && FreshRun(v, startingPort, INITIAL, es)
    requires forall i :: 0 <= i < |es| ==> Bounded(es[i], n)
    ensures OwnedPortsDistinct(RunOf(v, startingPort, INITIAL, es).store, lb)
  {
    RunKeepsUnique(v, startingPort, n, INITIAL, es);
  }

  // ------------------------------------------------ exactly when ports are shared

  /** The step is a write of the load balancer that goes through and gives out a
      port which it owns already. */
  ghost predicate GivesOwnedPort(s: System, e: Event, lb: Key)
    requires Enabled(s, e)
  {
    && e.Advance? && e.lb == lb
    && var p := s.passes[lb];
    && NeedsWrite(p.listing[p.index])
    && Accepts(s.store, Amend(p.listing[p.index], p.lb, p.nextPort), e.reachable)
    && IsOwnedPort(s.store, lb, p.nextPort)
  }

  /** In every run owner and port are set together. */
  lemma InvSetsTogether(s: System)
    requires Inv(s)
    ensures SetTogether(s.store)
  {
  }

  lemma ClaimDistinctExactly(st: Store, f: Frontend, lb: Key, port: int32)
    requires f.key in st.objects && st.objects[f.key] == f && f.lb.None? && f.port.None?
    requires OwnedPortsDistinct(st, lb)
    ensures OwnedPortsDistinct(StoreStatus(st, Amend(f, lb, port)), lb) <==> !IsOwnedPort(st, lb, port)
  {
    var after := StoreStatus(st, Amend(f, lb, port));
    assert forall k :: k in st.objects && k != f.key ==> after.objects[k] == st.objects[k];
    if k :| k in st.objects && st.objects[k].lb == Some(lb) && st.objects[k].port == Some(port) {
      assert after.objects[k].port == after.objects[f.key].port;
    }
  }

  lemma OwnStepSharesExactly(v: Variant, startingPort: int32, s: System, lb: Key, reachable: bool)
    requires Inv(s) && Enabled(s, Advance(lb, reachable)) && OwnedPortsDistinct(s.store, lb)
    ensures OwnedPortsDistinct(Apply(v, startingPort, s, Advance(lb, reachable)).store, lb)
      <==> !GivesOwnedPort(s, Advance(lb, reachable), lb)
  {
    var p := s.passes[lb];
    var f := p.listing[p.index];
    assert PassOk(s.history, lb, p);
    if NeedsWrite(f) && Accepts(s.store, Amend(f, p.lb, p.nextPort), reachable) {
      AcceptedMeansCurrent(s, lb, reachable);
      InvSetsTogether(s);
      ClaimDistinctExactly(s.store, f, lb, p.nextPort);
    }
  }

  /** One step, in either variant and under any interleaving: owned ports stay
      distinct exactly when the step does not give out an owned port. */
  lemma StepSharesExactly(v: Variant, startingPort: int32, s: System, e: Event, lb: Key)
    requires Inv(s) && Enabled(s, e) && OwnedPortsDistinct(s.store, lb)
    ensures OwnedPortsDistinct(Apply(v, startingPort, s, e).store, lb) <==> !GivesOwnedPort(s, e, lb)
  {
    if e.Advance? && e.lb == lb {
      OwnStepSharesExactly(v, startingPort, s, lb, e.reachable);
    } else {
      OthersGainNothing(v, startingPort, s, e, lb);
      NothingGainedIsSafe(v, startingPort, s.store, Apply(v, startingPort, s, e).store, lb);
    }
  }

  /** The owned ports are distinct in every state of a run. */
  ghost predicate DistinctThroughout(v: Variant, startingPort: int32, s: System, es: seq<Event>, lb: Key)
    requires ValidRun(v, startingPort, s, es)
    decreases |es|
  {
    && OwnedPortsDistinct(s.store, lb)
    && (es != [] ==> DistinctThroughout(v, startingPort, Apply(v, startingPort, s, es[0]), es[1..], lb))
  }

  /** No step of a run gives out an owned port. */
  ghost predicate NeverGivesOwnedPort(v: Variant, startingPort: int32, s: System, es: seq<Event>, lb: Key)
    requires ValidRun(v, startingPort, s, es)
    decreases |es|
  {
    es != [] ==>
      && !GivesOwnedPort(s, es[0], lb)
      && NeverGivesOwnedPort(v, startingPort, Apply(v, startingPort, s, es[0]), es[1..], lb)
  }

  lemma {:induction false} RunSharesExactly(v: Variant, startingPort: int32, s: System, es: seq<Event>, lb: Key)
    requires ValidRun(v, startingPort, s, es) && Inv(s) && OwnedPortsDistinct(s.store, lb)
    ensures DistinctThroughout(v, startingPort, s, es, lb) <==> NeverGivesOwnedPort(v, startingPort, s, es, lb)
    decreases |es|
  {
    if es != [] {
      var t := Apply(v, startingPort, s, es[0]);
      StepSharesExactly(v, startingPort, s, es[0], lb);
      if !GivesOwnedPort(s, es[0], lb) {
        StepKeepsInv(v, startingPort, s, es[0]);
        RunSharesExactly(v, startingPort, t, es[1..], lb);
      } else {
        assert !OwnedPortsDistinct(t.store, lb);
      }
    }
  }

  /** Exactly when ports are shared, over every run of either variant, whatever the
      listings miss: the owned ports of a load balancer are distinct throughout if
      and only if no write of it that goes through offers a port it owns already. */
  lemma PortsSharedExactly(v: Variant, startingPort: int32, es: seq<Event>, lb: Key)
    requires ValidRun(v, startingPort, INITIAL, es)
    ensures DistinctThroughout(v, startingPort, INITIAL, es, lb) <==> NeverGivesOwnedPort(v, startingPort, INITIAL, es, lb)
  {
    RunSharesExactly(v, startingPort, INITIAL, es, lb);
  }

  // -------------------------------------------- a listing that misses one

  function NewFrontend(k: Key, revision: nat): (f: Frontend) {
    Frontend(k, revision, revision, 443, "", None, None)
  }

  lemma RunFirst(v: Variant, startingPort: int32, s: System, e: Event, es: seq<Event>)
    requires Enabled(s, e) && ValidRun(v, startingPort, Apply(v, startingPort, s, e), es)
    ensures ValidRun(v, startingPort, s, [e] + es)
    ensures RunOf(v, startingPort, s, [e] + es) == RunOf(v, startingPort, Apply(v, startingPort, s, e), es)
  {
    assert ([e] + es)[1..] == es;
  }

  lemma RunThree(v: Variant, startingPort: int32, s: System, e: Event, f: Event, g: Event)
    requires Enabled(s, e)
    requires var t := Apply(v, startingPort, s, e); Enabled(t, f) && Enabled(Apply(v, startingPort, t, f), g)
    ensures ValidRun(v, startingPort, s, [e, f, g])
    ensures RunOf(v, startingPort, s, [e, f, g]) ==
      Apply(v, startingPort, Apply(v, startingPort, Apply(v, startingPort, s, e), f), g)
  {
    var t := Apply(v, startingPort, s, e);
    var u := Apply(v, startingPort, t, f);
    RunFirst(v, startingPort, u, g, []);
    RunFirst(v, startingPort, t, f, [g]);
    RunFirst(v, startingPort, s, e, [f, g]);
    assert [e] + [f, g] == [e, f, g];
  }

  lemma {:induction false} RunConcat(v: Variant, startingPort: int32, s: System, es: seq<Event>, fs: seq<Event>)
    requires ValidRun(v, startingPort, s, es) && ValidRun(v, startingPort, RunOf(v, startingPort, s, es), fs)
    ensures ValidRun(v, startingPort, s, es + fs)
    ensures RunOf(v, startingPort, s, es + fs) == RunOf(v, startingPort, RunOf(v, startingPort, s, es), fs)
    decreases |es|
  {
    if es == [] {
      assert es + fs == fs;
    } else {
      assert (es + fs)[1..] == es[1..] + fs;
      RunConcat(v, startingPort, Apply(v, startingPort, s, es[0]), es[1..], fs);
    }
  }

  /** A pass over one new frontend gives it the starting port. */
  lemma LonePassGivesStartingPort(lb: Key, f: Frontend, startingPort: int32)
    requires f.lb.None? && f.port.None?
    ensures StartPass(lb, [f], startingPort) == Pass(lb, [f], 0, startingPort)
  {
  }

  /** The store gained one owned frontend, with this port, and kept the others. */
  ghost predicate Claimed(before: Store, after: Store, lb: Key, k: Key, port: int32) {
    && k in after.objects && after.objects[k].lb == Some(lb) && after.objects[k].port == Some(port)
    && after.revision == before.revision + 2
    && after.objects.Keys == before.objects.Keys + {k}
    && forall l :: l in before.objects && l != k ==> after.objects[l] == before.objects[l]
  }

  lemma LoneCreated(v: Variant, startingPort: int32, s: System, k: Key)
    requires k !in s.store.objects
    ensures var f := NewFrontend(k, s.store.revision + 1);
      && Enabled(s, Create(k, 443, ""))
      && Apply(v, startingPort, s, Create(k, 443, "")) == Put(s, f)
  {
  }

  lemma LoneBegun(v: Variant, startingPort: int32, t: System, lb: Key, f: Frontend)
    requires f in t.history && f.lb.None? && f.port.None?
    ensures Enabled(t, Begin(lb, [f]))
    ensures Apply(v, startingPort, t, Begin(lb, [f])) == t.(passes := t.passes[lb := Pass(lb, [f], 0, startingPort)])
  {
    LonePassGivesStartingPort(lb, f, startingPort);
  }

  lemma LoneAdvanced(v: Variant, startingPort: int32, u: System, lb: Key, f: Frontend)
    requires lb in u.passes && u.passes[lb] == Pass(lb, [f], 0, startingPort)
    requires f.key in u.store.objects && u.store.objects[f.key] == f && f.lb.None? && f.port.None?
    ensures Enabled(u, Advance(lb, true))
    ensures var t := Apply(v, startingPort, u, Advance(lb, true));
      && t.store == StoreStatus(u.store, Amend(f, lb, startingPort))
      && f.key in t.store.objects && t.store.objects[f.key] in t.history
  {
  }

  lemma LoneRunEnds(v: Variant, startingPort: int32, s: System, lb: Key, k: Key)
    requires k !in s.store.objects
    ensures var f := NewFrontend(k, s.store.revision + 1);
      var es := [Create(k, 443, ""), Begin(lb, [f]), Advance(lb, true)];
      && ValidRun(v, startingPort, s, es)
      && RunOf(v, startingPort, s, es).store == StoreStatus(Put(s, f).store, Amend(f, lb, startingPort))
  {
    var f := NewFrontend(k, s.store.revision + 1);
    var t := Put(s, f);
    LoneCreated(v, startingPort, s, k);
    LoneBegun(v, startingPort, t, lb, f);
    var u := t.(passes := t.passes[lb := Pass(lb, [f], 0, startingPort)]);
    LoneAdvanced(v, startingPort, u, lb, f);
    RunThree(v, startingPort, s, Create(k, 443, ""), Begin(lb, [f]), Advance(lb, true));
  }

  lemma LoneStatusClaims(s: System, lb: Key, k: Key, port: int32)
    ensures var f := NewFrontend(k, s.store.revision + 1);
      Claimed(s.store, StoreStatus(Put(s, f).store, Amend(f, lb, port)), lb, k, port)
  {
  }

  /** Such a write does occur: in either variant there is a run in which a pass that
      misses an owned frontend gives its port away again. */
  lemma IncompleteListingSharesPort(v: Variant, startingPort: int32, lb: Key, a: Key, b: Key) returns (es: seq<Event>)
    requires a != b
    ensures ValidRun(v, startingPort, INITIAL, es)
    ensures !OwnedPortsDistinct(RunOf(v, startingPort, INITIAL, es).store, lb)
  {
    var first := ClaimAlone(v, startingPort, INITIAL, lb, a);
    var mid := RunOf(v, startingPort, INITIAL, first);
    var second := ClaimAlone(v, startingPort, mid, lb, b);
    RunConcat(v, startingPort, INITIAL, first, second);
    es := first + second;
    assert mid.store.objects[a] == RunOf(v, startingPort, mid, second).store.objects[a];
  }

  /** A frontend is created and claimed by a pass that lists nothing else. */
  lemma ClaimAlone(v: Variant, startingPort: int32, s: System, lb: Key, k: Key) returns (es: seq<Event>)
    requires k !in s.store.objects
    ensures ValidRun(v, startingPort, s, es)
    ensures Claimed(s.store, RunOf(v, startingPort, s, es).store, lb, k, startingPort)
  {
    var f := NewFrontend(k, s.store.revision + 1);
    es := [Create(k, 443, ""), Begin(lb, [f]), Advance(lb, true)];
    LoneRunEnds(v, startingPort, s, lb, k);
    LoneStatusClaims(s, lb, k, startingPort);
  }

  // --------------------------------------------- an owner's pass is complete

  lemma FreshFirst(v: Variant, startingPort: int32, s: System, e: Event, es: seq<Event>)
    requires Enabled(s, e) && FreshStart(v, s, e)
    requires var t := Apply(v, startingPort, s, e);
      ValidRun(v, startingPort, t, es) && FreshRun(v, startingPort, t, es)
    ensures ValidRun(v, startingPort, s, [e] + es) && FreshRun(v, startingPort, s, [e] + es)
    ensures RunOf(v, startingPort, s, [e] + es) == RunOf(v, startingPort, Apply(v, startingPort, s, e), es)
  {
    assert ([e] + es)[1..] == es;
  }

  lemma FreshLast(v: Variant, startingPort: int32, s: System, e: Event)
    requires Enabled(s, e) && FreshStart(v, s, e)
    ensures ValidRun(v, startingPort, s, [e]) && FreshRun(v, startingPort, s, [e])
    ensures RunOf(v, startingPort, s, [e]) == Apply(v, startingPort, s, e)
  {
  }

  /** A listing of the only stored frontend is complete. */
  lemma LoneListingIsFresh(v: Variant, s: System, lb: Key, f: Frontend)
    requires s.store.objects == map[f.key := f] && (f.lb == None || f.lb == Some(lb))
    ensures FreshStart(v, s, Begin(lb, [f])) && Filtered([f], lb, false) == [f]
  {
    FilteredLast([], f, lb, false);
    assert [] + [f] == [f];
    assert f in Filtered([f], lb, false);
  }

  lemma BeginLists(v: Variant, startingPort: int32, s: System, lb: Key, f: Frontend)
    requires f in s.history && Filtered([f], lb, false) == [f]
    ensures Enabled(s, Begin(lb, [f]))
    ensures var t := Apply(v, startingPort, s, Begin(lb, [f]));
      t.store == s.store && lb in t.passes && t.passes[lb].listing == [f]
  {
  }

  /** The load balancer owns the frontend and a pass of it lists the frontend. */
  ghost predicate ListsItsOwn(s: System, lb: Key, k: Key, port: int32) {
    && k in s.store.objects && s.store.objects[k].lb == Some(lb) && s.store.objects[k].port == Some(port)
    && lb in s.passes && s.passes[lb].listing == [s.store.objects[k]]
  }

  lemma ListsOnly(t: System, lb: Key, g: Frontend, port: int32)
    requires g.key in t.store.objects && t.store.objects[g.key] == g && g.lb == Some(lb) && g.port == Some(port)
    requires lb in t.passes && t.passes[lb].listing == [g]
    ensures ListsItsOwn(t, lb, g.key, port)
  {
  }

  lemma OwnerLast(v: Variant, startingPort: int32, s: System, lb: Key, g: Frontend) returns (es: seq<Event>)
    requires s.store.objects == map[g.key := g] && g in s.history && g.lb == Some(lb) && g.port == Some(startingPort)
    ensures ValidRun(v, startingPort, s, es) && FreshRun(v, startingPort, s, es)
    ensures ListsItsOwn(RunOf(v, startingPort, s, es), lb, g.key, startingPort)
  {
    LoneListingIsFresh(v, s, lb, g);
    BeginLists(v, startingPort, s, lb, g);
    assert s.store.objects[g.key] == g;
    ListsOnly(Apply(v, startingPort, s, Begin(lb, [g])), lb, g, startingPort);
    FreshLast(v, startingPort, s, Begin(lb, [g]));
    es := [Begin(lb, [g])];
  }

  lemma ClaimedOnly(v: Variant, startingPort: int32, s: System, lb: Key, f: Frontend) returns (g: Frontend)
    requires lb in s.passes && s.passes[lb] == Pass(lb, [f], 0, startingPort)
    requires s.store.objects == map[f.key := f] && f.lb.None? && f.port.None?
    ensures Enabled(s, Advance(lb, true))
    ensures var t := Apply(v, startingPort, s, Advance(lb, true));
      t.store.objects == map[g.key := g] && g in t.history
    ensures g.key == f.key && g.lb == Some(lb) && g.port == Some(startingPort)
  {
    LoneAdvanced(v, startingPort, s, lb, f);
    g := Apply(v, startingPort, s, Advance(lb, true)).store.objects[f.key];
  }

  lemma OwnerAfterClaim(v: Variant, startingPort: int32, s: System, lb: Key, f: Frontend) returns (es: seq<Event>)
    requires lb in s.passes && s.passes[lb] == Pass(lb, [f], 0, startingPort)
    requires s.store.objects == map[f.key := f] && f.lb.None? && f.port.None?
    ensures ValidRun(v, startingPort, s, es) && FreshRun(v, startingPort, s, es)
    ensures ListsItsOwn(RunOf(v, startingPort, s, es), lb, f.key, startingPort)
  {
    var g := ClaimedOnly(v, startingPort, s, lb, f);
    var t := Apply(v, startingPort, s, Advance(lb, true));
    var rest := OwnerLast(v, startingPort, t, lb, g);
    FreshFirst(v, startingPort, s, Advance(lb, true), rest);
    es := [Advance(lb, true)] + rest;
  }

  lemma OwnerAfterCreate(v: Variant, startingPort: int32, s: System, lb: Key, f: Frontend) returns (es: seq<Event>)
    requires s.store.objects == map[f.key := f] && f in s.history && f.lb.None? && f.port.None?
    ensures ValidRun(v, startingPort, s, es) && FreshRun(v, startingPort, s, es)
    ensures ListsItsOwn(RunOf(v, startingPort, s, es), lb, f.key, startingPort)
  {
    LoneBegun(v, startingPort, s, lb, f);
    LoneListingIsFresh(v, s, lb, f);
    var rest := OwnerAfterClaim(v, startingPort, Apply(v, startingPort, s, Begin(lb, [f])), lb, f);
    FreshFirst(v, startingPort, s, Begin(lb, [f]), rest);
    es := [Begin(lb, [f])] + rest;
  }

  lemma OwnerFromNothing(v: Variant, startingPort: int32, s: System, lb: Key, k: Key) returns (es: seq<Event>)
    requires s.store.objects == map[]
    ensures ValidRun(v, startingPort, s, es) && FreshRun(v, startingPort, s, es)
    ensures ListsItsOwn(RunOf(v, startingPort, s, es), lb, k, startingPort)
  {
    var f := NewFrontend(k, s.store.revision + 1);
    var e := Create(k, 443, "");
    LoneCreated(v, startingPort, s, k);
    assert Put(s, f).store.objects == map[k := f];
    var rest := OwnerAfterCreate(v, startingPort, Put(s, f), lb, f);
    FreshFirst(v, startingPort, s, e, rest);
    es := [e] + rest;
  }

  /** The conditions of `OwnedPortsStayDistinct` are met by load balancers that own
      something: there is a run of that kind in which an owner lists its frontend. */
  lemma OwnerListsItsOwn(v: Variant, startingPort: int32, lb: Key, k: Key) returns (es: seq<Event>)
    ensures ValidRun(v, startingPort, INITIAL, es) && FreshRun(v, startingPort, INITIAL, es)
    ensures ListsItsOwn(RunOf(v, startingPort, INITIAL, es), lb, k, startingPort)
  {
    es := OwnerFromNothing(v, startingPort, INITIAL, lb, k);
  }
}
