/** One pass of `ReconcileFrontends`: claiming frontends and giving them ports
    through status writes that the API server may refuse. */
module Allocator {
  import opened Common
  import opened Api
  import opened Ports

  // --------------------------------------------------------- the API server

  /** The stored frontends and the revision of the last write. */
  datatype Store = Store(objects: map<Key, Frontend>, revision: nat)

  /** A status write goes through if the server answers and the stored object
      still has the version that the writer read. */
  predicate Accepts(st: Store, g: Frontend, reachable: bool) {
    reachable && g.key in st.objects && st.objects[g.key].version == g.version
  }

  /** The status subresource: only the status fields and the version change. */
  function StoreStatus(st: Store, g: Frontend): (r: Store)
    requires g.key in st.objects
  {
    var stored := st.objects[g.key].(lb := g.lb, port := g.port, version := st.revision + 1);
    Store(st.objects[g.key := stored], st.revision + 1)
  }

  class ApiServer {
    var store: Store

    constructor (initial: Store)
      ensures store == initial
    {
      store := initial;
    }

    method UpdateStatus(g: Frontend, reachable: bool) returns (ok: bool)
      modifies this
      ensures ok == Accepts(old(store), g, reachable)
      ensures store == if ok then StoreStatus(old(store), g) else old(store)
    {
      ok := reachable && g.key in store.objects && store.objects[g.key].version == g.version;
      if ok {
        store := StoreStatus(store, g);
      }
    }
  }

  // -------------------------------------------------------------- the listing

  /** Which listed frontends a load balancer works on. */
  predicate Visible(f: Frontend, lb: Key, onlyOwned: bool) {
    if f.lb.None? then !onlyOwned else f.lb.value == lb
  }

  function Filtered(items: seq<Frontend>, lb: Key, onlyOwned: bool): (r: seq<Frontend>)
    ensures forall f :: f in r <==> f in items && Visible(f, lb, onlyOwned)
    ensures |r| <= |items|
  {
    if items == [] then []
    else
      var last := items[|items| - 1];
      var front := Filtered(items[..|items| - 1], lb, onlyOwned);
      if Visible(last, lb, onlyOwned) then front + [last] else front
  }

  /** What the filter keeps: the own frontends always, the unowned ones unless only
      owned ones are asked for, those of other load balancers never. */
  lemma FilteredExactly(items: seq<Frontend>, lb: Key, onlyOwned: bool, f: Frontend)
    ensures f in Filtered(items, lb, onlyOwned) <==> f in items && (f.lb == Some(lb) || (f.lb == None && !onlyOwned))
  {
  }

  function IfKept(f: Frontend, lb: Key, onlyOwned: bool): (r: seq<Frontend>) {
    if f.lb == Some(lb) || (f.lb == None && !onlyOwned) then [f] else []
  }

  lemma FilteredLast(items: seq<Frontend>, f: Frontend, lb: Key, onlyOwned: bool)
    ensures Filtered(items + [f], lb, onlyOwned) == Filtered(items, lb, onlyOwned) + IfKept(f, lb, onlyOwned)
  {
    assert (items + [f])[..|items|] == items;
  }

  /** ... each as often as it is listed, and in list order. */
  lemma {:induction false} FilteredConcat(a: seq<Frontend>, b: seq<Frontend>, lb: Key, onlyOwned: bool)
    ensures Filtered(a + b, lb, onlyOwned) == Filtered(a, lb, onlyOwned) + Filtered(b, lb, onlyOwned)
    decreases |b|
  {
    if b == [] {
      assert a + b == a;
    } else {
      var n := |b| - 1;
      FilteredConcat(a, b[..n], lb, onlyOwned);
      FilteredLast(a + b[..n], b[n], lb, onlyOwned);
      FilteredLast(b[..n], b[n], lb, onlyOwned);
      SplitLast(a, b);
      ConcatAssociative(Filtered(a, lb, onlyOwned), Filtered(b[..n], lb, onlyOwned), IfKept(b[n], lb, onlyOwned));
    }
  }

  method GetFrontends(items: seq<Frontend>, lb: Key, onlyOwned: bool) returns (filtered: seq<Frontend>)
    ensures filtered == Filtered(items, lb, onlyOwned)
    ensures forall f :: f in filtered <==> f in items && (f.lb == Some(lb) || (f.lb == None && !onlyOwned))
  {
    filtered := [];
    for i := 0 to |items|
      invariant filtered == Filtered(items[..i], lb, onlyOwned)
    {
      var frontend := items[i];
      assert items[..i + 1][..i] == items[..i];
      if onlyOwned && frontend.lb.None? {
        continue;
      }
      if frontend.lb.None? || frontend.lb.value == lb {
        filtered := filtered + [frontend];
      }
    }
    assert items[..|items|] == items;
  }

  // -------------------------------------------------------------- one pass

  /** `AsWritten` is the code: the loop variable is a copy, so the list that the
      port search sees never changes. `WriteBack` is the variant in which the
      amended frontend reaches the list. */
  datatype Variant = AsWritten | WriteBack

  /** A pass in progress. */
  datatype Pass = Pass(lb: Key, listing: seq<Frontend>, index: nat, nextPort: int32)

  predicate NeedsWrite(f: Frontend) {
    f.lb.None? || f.port.None?
  }

  /** The status that the pass asks for. */
  function Amend(f: Frontend, lb: Key, nextPort: int32): (g: Frontend) {
    f.(lb := if f.lb.None? then Some(lb) else f.lb,
       port := if f.port.None? then Some(nextPort) else f.port)
  }

  function StartPass(lb: Key, items: seq<Frontend>, startingPort: int32): (p: Pass) {
    var listing := Filtered(items, lb, false);
    Pass(lb, listing, 0, NextPort(PortsOf(listing), startingPort))
  }

  /** One iteration of the loop over the listing. */
  function StepPass(v: Variant, startingPort: int32, p: Pass, st: Store, reachable: bool): (r: (Pass, Store))
    requires p.index < |p.listing|
  {
    var f := p.listing[p.index];
    var g := Amend(f, p.lb, p.nextPort);
    var listing := if v.WriteBack? then p.listing[p.index := g] else p.listing;
    if NeedsWrite(f) && !Accepts(st, g, reachable) then
      (Pass(p.lb, listing, p.index + 1, p.nextPort), st)
    else
      (Pass(p.lb, listing, p.index + 1, NextPort(PortsOf(listing), startingPort)),
       if NeedsWrite(f) then StoreStatus(st, g) else st)
  }

  /** The rest of a pass that nothing interleaves with; `reachable(i)` says
      whether the server answers the write for position `i`. */
  function RunPass(v: Variant, startingPort: int32, p: Pass, st: Store, reachable: nat -> bool): (r: Store)
    decreases |p.listing| - p.index
  {
    if p.index >= |p.listing| then st
    else
      var (q, st') := StepPass(v, startingPort, p, st, reachable(p.index));
      RunPass(v, startingPort, q, st', reachable)
  }

  method ReconcileFrontends(api: ApiServer, lb: Key, items: seq<Frontend>, startingPort: int32, reachable: nat -> bool)
    modifies api
    ensures api.store == RunPass(AsWritten, startingPort, StartPass(lb, items, startingPort), old(api.store), reachable)
  {
    var frontends := GetFrontends(items, lb, false);
    var nextPort := startingPort;
    if |frontends| > 0 {
      nextPort := GetNextPort(frontends, startingPort);
    }
    ghost var result := RunPass(AsWritten, startingPort, Pass(lb, frontends, 0, nextPort), api.store, reachable);
    for i := 0 to |frontends|
      invariant RunPass(AsWritten, startingPort, Pass(lb, frontends, i, nextPort), api.store, reachable) == result
    {
      ghost var step := StepPass(AsWritten, startingPort, Pass(lb, frontends, i, nextPort), api.store, reachable(i));
      assert RunPass(AsWritten, startingPort, step.0, step.1, reachable) == result;
      var frontend := frontends[i];
      var updated := false;
      if frontend.lb.None? {
        frontend := frontend.(lb := Some(lb));
        updated := true;
      }
      if frontend.port.None? {
        frontend := frontend.(port := Some(nextPort));
        updated := true;
      }
      assert updated == NeedsWrite(frontends[i]) && frontend == Amend(frontends[i], lb, nextPort);
      if updated {
        var ok := api.UpdateStatus(frontend, reachable(i));
        if !ok {
          continue;
        }
      }
      nextPort := GetNextPort(frontends, startingPort);
    }
  }

  // ------------------------------------------------- the effect of one pass

  /** Every object is stored under its own key. */
  ghost predicate WellKeyed(st: Store) {
    forall k :: k in st.objects ==> st.objects[k].key == k
  }

  ghost predicate DistinctKeys(listing: seq<Frontend>) {
    forall i, j :: 0 <= i < j < |listing| ==> listing[i].key != listing[j].key
  }

  /** Every listed frontend is the stored one. */
  ghost predicate Fresh(listing: seq<Frontend>, st: Store) {
    forall i :: 0 <= i < |listing| ==> listing[i].key in st.objects && st.objects[listing[i].key] == listing[i]
  }

  /** No frontend that the load balancer owns is missing from the listing. */
  ghost predicate Complete(listing: seq<Frontend>, st: Store, lb: Key) {
    forall k :: k in st.objects && st.objects[k].lb == Some(lb) ==> st.objects[k] in listing
  }

  ghost predicate ListedPortsDistinct(listing: seq<Frontend>) {
    forall i, j :: 0 <= i < j < |listing| && listing[i].port.Some? ==> listing[i].port != listing[j].port
  }

  /** The frontends that a load balancer owns have different ports. */
  ghost predicate OwnedPortsDistinct(st: Store, lb: Key) {
    forall k, l :: k in st.objects && l in st.objects && k != l
      && st.objects[k].lb == Some(lb) && st.objects[l].lb == Some(lb) && st.objects[k].port.Some?
      ==> st.objects[k].port != st.objects[l].port
  }

  /** The frontends that got a port between two stores. */
  ghost function Assigned(before: Store, after: Store): (r: set<Key>) {
    set k | k in before.objects && k in after.objects
            && before.objects[k].port.None? && after.objects[k].port.Some?
  }

  /** An object after a pass, given what was listed: at most its status and version
      change. */
  ghost predicate Outcome(f: Frontend, lb: Key, nextPort: int32, ok: bool, before: Frontend, after: Frontend) {
    if (f.lb.None? || f.port.None?) && ok && before.version == f.version
    then after == before.(lb := if f.lb.None? then Some(lb) else f.lb,
                          port := if f.port.None? then Some(nextPort) else f.port,
                          version := after.version)
    else after == before
  }

  /** A pass neither creates nor deletes, and leaves alone what it has not listed. */
  lemma {:induction false} PassLeavesAlone(v: Variant, startingPort: int32, p: Pass, st: Store, reachable: nat -> bool, k: Key)
    requires forall i :: p.index <= i < |p.listing| ==> p.listing[i].key != k
    ensures var after := RunPass(v, startingPort, p, st, reachable);
      && after.objects.Keys == st.objects.Keys
      && (k in st.objects ==> after.objects[k] == st.objects[k])
    decreases |p.listing| - p.index
  {
    if p.index < |p.listing| {
      var (q, st') := StepPass(v, startingPort, p, st, reachable(p.index));
      assert forall i :: q.index <= i < |q.listing| ==> q.listing[i] == p.listing[i];
      PassLeavesAlone(v, startingPort, q, st', reachable, k);
    }
  }

  lemma {:induction false} PassKeepsKeys(v: Variant, startingPort: int32, p: Pass, st: Store, reachable: nat -> bool)
    ensures RunPass(v, startingPort, p, st, reachable).objects.Keys == st.objects.Keys
    decreases |p.listing| - p.index
  {
    if p.index < |p.listing| {
      var (q, st') := StepPass(v, startingPort, p, st, reachable(p.index));
      PassKeepsKeys(v, startingPort, q, st', reachable);
    }
  }

  lemma StepOutcome(startingPort: int32, p: Pass, st: Store, reachable: bool)
    requires p.index < |p.listing| && p.listing[p.index].key in st.objects
    ensures var f := p.listing[p.index];
      var after := StepPass(AsWritten, startingPort, p, st, reachable).1;
      && f.key in after.objects
      && Outcome(f, p.lb, p.nextPort, reachable, st.objects[f.key], after.objects[f.key])
  {
  }

  lemma StepElsewhere(v: Variant, startingPort: int32, p: Pass, st: Store, reachable: bool, k: Key)
    requires p.index < |p.listing| && p.listing[p.index].key != k && k in st.objects
    ensures var after := StepPass(v, startingPort, p, st, reachable).1;
      k in after.objects && after.objects[k] == st.objects[k]
  {
  }

  /** In the code as written every port-setting write of a pass asks for the
      same port; a listed frontend changes exactly when its write is accepted. */
  lemma {:induction false} PassOutcome(startingPort: int32, p: Pass, st: Store, reachable: nat -> bool, i: nat)
    requires DistinctKeys(p.listing)
    requires p.nextPort == NextPort(PortsOf(p.listing), startingPort)
    requires p.index <= i < |p.listing| && p.listing[i].key in st.objects
    ensures var after := RunPass(AsWritten, startingPort, p, st, reachable);
      var k := p.listing[i].key;
      && k in after.objects
      && Outcome(p.listing[i], p.lb, p.nextPort, reachable(i), st.objects[k], after.objects[k])
    decreases |p.listing| - p.index
  {
    var (q, st') := StepPass(AsWritten, startingPort, p, st, reachable(p.index));
    var k := p.listing[i].key;
    if p.index == i {
      StepOutcome(startingPort, p, st, reachable(i));
      PassLeavesAlone(AsWritten, startingPort, q, st', reachable, k);
    } else {
      StepElsewhere(AsWritten, startingPort, p, st, reachable(p.index), k);
      PassOutcome(startingPort, q, st', reachable, i);
    }
  }

  /** Position `i` of the listing has no port and its write is answered. */
  ghost predicate GetsPort(listing: seq<Frontend>, reachable: nat -> bool, i: int) {
    0 <= i < |listing| && listing[i].port.None? && reachable(i)
  }

  ghost predicate GivesPortTo(listing: seq<Frontend>, reachable: nat -> bool, k: Key) {
    exists i :: GetsPort(listing, reachable, i) && listing[i].key == k
  }

  lemma GivesPortToListed(listing: seq<Frontend>, reachable: nat -> bool, i: nat)
    requires DistinctKeys(listing) && i < |listing|
    ensures GivesPortTo(listing, reachable, listing[i].key) <==> GetsPort(listing, reachable, i)
  {
  }

  lemma UnlistedGetsNone(startingPort: int32, lb: Key, listing: seq<Frontend>, st: Store, reachable: nat -> bool, k: Key)
    requires forall i :: 0 <= i < |listing| ==> listing[i].key != k
    ensures var p := Pass(lb, listing, 0, NextPort(PortsOf(listing), startingPort));
      k !in Assigned(st, RunPass(AsWritten, startingPort, p, st, reachable)) && !GivesPortTo(listing, reachable, k)
  {
    PassLeavesAlone(AsWritten, startingPort, Pass(lb, listing, 0, NextPort(PortsOf(listing), startingPort)), st, reachable, k);
  }

  lemma ListedGetsPort(startingPort: int32, lb: Key, listing: seq<Frontend>, st: Store, reachable: nat -> bool, i: nat)
    requires DistinctKeys(listing) && Fresh(listing, st) && i < |listing|
    ensures var p := Pass(lb, listing, 0, NextPort(PortsOf(listing), startingPort));
      listing[i].key in Assigned(st, RunPass(AsWritten, startingPort, p, st, reachable)) <==> GetsPort(listing, reachable, i)
  {
    PassOutcome(startingPort, Pass(lb, listing, 0, NextPort(PortsOf(listing), startingPort)), st, reachable, i);
  }

  /** From a fresh listing exactly those frontends get a port. */
  lemma AssignedExactly(startingPort: int32, lb: Key, listing: seq<Frontend>, st: Store, reachable: nat -> bool, k: Key)
    requires DistinctKeys(listing) && Fresh(listing, st)
    ensures var p := Pass(lb, listing, 0, NextPort(PortsOf(listing), startingPort));
      k in Assigned(st, RunPass(AsWritten, startingPort, p, st, reachable)) <==> GivesPortTo(listing, reachable, k)
  {
    if i :| 0 <= i < |listing| && listing[i].key == k {
      ListedGetsPort(startingPort, lb, listing, st, reachable, i);
      GivesPortToListed(listing, reachable, i);
    } else {
      UnlistedGetsNone(startingPort, lb, listing, st, reachable, k);
    }
  }

  /** The frontend is listed without an owner and its write is answered. */
  ghost predicate Joins(listing: seq<Frontend>, reachable: nat -> bool, k: Key) {
    exists i :: 0 <= i < |listing| && listing[i].key == k && listing[i].lb.None? && reachable(i)
  }

  /** A frontend that has a port before the pass and belongs to the load balancer
      after it, listed or not. */
  ghost predicate Holds(listing: seq<Frontend>, st: Store, lb: Key, reachable: nat -> bool, k: Key) {
    && k in st.objects && st.objects[k].port.Some?
    && (st.objects[k].lb == Some(lb) || Joins(listing, reachable, k))
  }

  ghost predicate OwnsPort(st: Store, lb: Key, k: Key) {
    k in st.objects && st.objects[k].lb == Some(lb) && st.objects[k].port.Some?
  }

  /** Which port a frontend has for the load balancer after a pass. */
  ghost predicate PortAfter(
    listing: seq<Frontend>, st: Store, after: Store, lb: Key, reachable: nat -> bool, port: int32, k: Key)
  {
    && (OwnsPort(after, lb, k) <==> Holds(listing, st, lb, reachable, k) || GivesPortTo(listing, reachable, k))
    && (Holds(listing, st, lb, reachable, k) ==> k in after.objects && after.objects[k].port == st.objects[k].port)
    && (GivesPortTo(listing, reachable, k) ==> k in after.objects && after.objects[k].port == Some(port))
  }

  lemma ListedPortAfter(
    startingPort: int32, lb: Key, listing: seq<Frontend>, st: Store, reachable: nat -> bool, i: nat)
    requires DistinctKeys(listing) && Fresh(listing, st) && i < |listing| && Visible(listing[i], lb, false)
    ensures var port := NextPort(PortsOf(listing), startingPort);
      var after := RunPass(AsWritten, startingPort, Pass(lb, listing, 0, port), st, reachable);
      PortAfter(listing, st, after, lb, reachable, port, listing[i].key)
  {
    var p := Pass(lb, listing, 0, NextPort(PortsOf(listing), startingPort));
    var f := listing[i];
    PassOutcome(startingPort, p, st, reachable, i);
    assert GivesPortTo(listing, reachable, f.key) <==> GetsPort(listing, reachable, i);
    assert Joins(listing, reachable, f.key) <==> f.lb.None? && reachable(i);
  }

  lemma PassPortAfter(startingPort: int32, lb: Key, listing: seq<Frontend>, st: Store, reachable: nat -> bool, k: Key)
    requires DistinctKeys(listing) && Fresh(listing, st)
    requires forall f :: f in listing ==> Visible(f, lb, false)
    ensures var port := NextPort(PortsOf(listing), startingPort);
      var after := RunPass(AsWritten, startingPort, Pass(lb, listing, 0, port), st, reachable);
      PortAfter(listing, st, after, lb, reachable, port, k)
  {
    if i :| 0 <= i < |listing| && listing[i].key == k {
      assert listing[i] in listing;
      ListedPortAfter(startingPort, lb, listing, st, reachable, i);
    } else {
      PassLeavesAlone(AsWritten, startingPort, Pass(lb, listing, 0, NextPort(PortsOf(listing), startingPort)), st, reachable, k);
    }
  }

  /** At most one frontend gets a port. */
  ghost predicate AtMostOneGetsPort(listing: seq<Frontend>, reachable: nat -> bool) {
    forall i, j :: GetsPort(listing, reachable, i) && GetsPort(listing, reachable, j) ==> i == j
  }

  ghost predicate HeldPortsDistinct(listing: seq<Frontend>, st: Store, lb: Key, reachable: nat -> bool) {
    forall k, l :: Holds(listing, st, lb, reachable, k) && Holds(listing, st, lb, reachable, l) && k != l ==>
      st.objects[k].port != st.objects[l].port
  }

  ghost predicate PortIsHeld(listing: seq<Frontend>, st: Store, lb: Key, reachable: nat -> bool, port: int32) {
    exists k :: Holds(listing, st, lb, reachable, k) && st.objects[k].port == Some(port)
  }

  /** What decides, before a pass, whether it leaves the owned ports distinct: the
      ports that are there already differ, at most one frontend gets a port, and if
      one does, nobody holds the offered port. */
  ghost predicate KeepsDistinct(listing: seq<Frontend>, st: Store, lb: Key, reachable: nat -> bool, port: int32) {
    && HeldPortsDistinct(listing, st, lb, reachable)
    && AtMostOneGetsPort(listing, reachable)
    && ((exists i :: GetsPort(listing, reachable, i)) ==> !PortIsHeld(listing, st, lb, reachable, port))
  }

  ghost predicate AllPortsAfter(
    listing: seq<Frontend>, st: Store, after: Store, lb: Key, reachable: nat -> bool, port: int32)
  {
    forall k :: PortAfter(listing, st, after, lb, reachable, port, k)
  }

  lemma DistinctMeansKept(listing: seq<Frontend>, st: Store, after: Store, lb: Key, reachable: nat -> bool, port: int32)
    requires DistinctKeys(listing) && Fresh(listing, st) && AllPortsAfter(listing, st, after, lb, reachable, port)
    requires OwnedPortsDistinct(after, lb)
    ensures KeepsDistinct(listing, st, lb, reachable, port)
  {
    forall k, l | Holds(listing, st, lb, reachable, k) && Holds(listing, st, lb, reachable, l) && k != l
      ensures st.objects[k].port != st.objects[l].port
    {
      assert PortAfter(listing, st, after, lb, reachable, port, k) && PortAfter(listing, st, after, lb, reachable, port, l);
    }
    forall i, j | GetsPort(listing, reachable, i) && GetsPort(listing, reachable, j) ensures i == j {
      var k, l := listing[i].key, listing[j].key;
      assert GivesPortTo(listing, reachable, k) && GivesPortTo(listing, reachable, l);
      assert PortAfter(listing, st, after, lb, reachable, port, k) && PortAfter(listing, st, after, lb, reachable, port, l);
    }
    forall i, k | GetsPort(listing, reachable, i) && Holds(listing, st, lb, reachable, k)
      ensures st.objects[k].port != Some(port)
    {
      var l := listing[i].key;
      assert GivesPortTo(listing, reachable, l) && st.objects[l].port.None?;
      assert PortAfter(listing, st, after, lb, reachable, port, k) && PortAfter(listing, st, after, lb, reachable, port, l);
    }
  }

  lemma TwoPortsDiffer(
    listing: seq<Frontend>, st: Store, after: Store, lb: Key, reachable: nat -> bool, port: int32, k: Key, l: Key)
    requires KeepsDistinct(listing, st, lb, reachable, port)
    requires PortAfter(listing, st, after, lb, reachable, port, k) && PortAfter(listing, st, after, lb, reachable, port, l)
    requires OwnsPort(after, lb, k) && OwnsPort(after, lb, l) && k != l
    ensures after.objects[k].port != after.objects[l].port
  {
  }

  lemma KeptMeansDistinct(listing: seq<Frontend>, st: Store, after: Store, lb: Key, reachable: nat -> bool, port: int32)
    requires AllPortsAfter(listing, st, after, lb, reachable, port)
    requires KeepsDistinct(listing, st, lb, reachable, port)
    ensures OwnedPortsDistinct(after, lb)
  {
    forall k, l | k in after.objects && l in after.objects && k != l
      && after.objects[k].lb == Some(lb) && after.objects[l].lb == Some(lb) && after.objects[k].port.Some?
      ensures after.objects[k].port != after.objects[l].port
    {
      if after.objects[l].port.Some? {
        assert PortAfter(listing, st, after, lb, reachable, port, k) && PortAfter(listing, st, after, lb, reachable, port, l);
        TwoPortsDiffer(listing, st, after, lb, reachable, port, k, l);
      }
    }
  }

  /** Port uniqueness, exact form: an uninterrupted pass over any fresh listing,
      complete or not, leaves the owned ports distinct exactly when the ports that
      are there already differ, at most one listed frontend has no port and has its
      write answered, and if there is one, the offered port is free. */
  lemma PassKeepsPortsDistinctExactly(
    startingPort: int32, lb: Key, listing: seq<Frontend>, st: Store, reachable: nat -> bool)
    requires DistinctKeys(listing) && Fresh(listing, st)
    requires forall f :: f in listing ==> Visible(f, lb, false)
    ensures var port := NextPort(PortsOf(listing), startingPort);
      var after := RunPass(AsWritten, startingPort, Pass(lb, listing, 0, port), st, reachable);
      OwnedPortsDistinct(after, lb) <==> KeepsDistinct(listing, st, lb, reachable, port)
  {
    var port := NextPort(PortsOf(listing), startingPort);
    var after := RunPass(AsWritten, startingPort, Pass(lb, listing, 0, port), st, reachable);
    forall k ensures PortAfter(listing, st, after, lb, reachable, port, k) {
      PassPortAfter(startingPort, lb, listing, st, reachable, k);
    }
    if OwnedPortsDistinct(after, lb) {
      DistinctMeansKept(listing, st, after, lb, reachable, port);
    }
    if KeepsDistinct(listing, st, lb, reachable, port) {
      KeptMeansDistinct(listing, st, after, lb, reachable, port);
    }
  }

  // ---------------------------------------------- what a caller can check

  /** Every write is answered. */
  ghost function AllAnswered(): (r: nat -> bool)
    ensures forall i: nat :: r(i)
  {
    (_: nat) => true
  }

  /** Fewer answers do no harm. */
  lemma FewerAnswersKeep(listing: seq<Frontend>, st: Store, lb: Key, reachable: nat -> bool, port: int32)
    requires KeepsDistinct(listing, st, lb, AllAnswered(), port)
    ensures KeepsDistinct(listing, st, lb, reachable, port)
  {
    var all := AllAnswered();
    assert forall i :: GetsPort(listing, reachable, i) ==> GetsPort(listing, all, i);
    assert forall k :: Holds(listing, st, lb, reachable, k) ==> Holds(listing, st, lb, all, k);
  }

  /** For every fresh listing: ports stay distinct whichever writes are answered if
      and only if they do when all are. */
  lemma PassAlwaysKeepsPortsDistinctExactly(startingPort: int32, lb: Key, listing: seq<Frontend>, st: Store)
    requires DistinctKeys(listing) && Fresh(listing, st)
    requires forall f :: f in listing ==> Visible(f, lb, false)
    ensures var port := NextPort(PortsOf(listing), startingPort);
      var p := Pass(lb, listing, 0, port);
      (forall reachable :: OwnedPortsDistinct(RunPass(AsWritten, startingPort, p, st, reachable), lb))
        <==> KeepsDistinct(listing, st, lb, AllAnswered(), port)
  {
    var port := NextPort(PortsOf(listing), startingPort);
    var p := Pass(lb, listing, 0, port);
    forall reachable
      ensures OwnedPortsDistinct(RunPass(AsWritten, startingPort, p, st, reachable), lb)
         <==> KeepsDistinct(listing, st, lb, reachable, port)
    {
      PassKeepsPortsDistinctExactly(startingPort, lb, listing, st, reachable);
    }
    if KeepsDistinct(listing, st, lb, AllAnswered(), port) {
      forall reachable ensures KeepsDistinct(listing, st, lb, reachable, port) {
        FewerAnswersKeep(listing, st, lb, reachable, port);
      }
    }
    assert OwnedPortsDistinct(RunPass(AsWritten, startingPort, p, st, AllAnswered()), lb)
      <==> KeepsDistinct(listing, st, lb, AllAnswered(), port);
  }

  /** Owner and port are set together, as they are in every run. */
  ghost predicate SetTogether(st: Store) {
    forall k :: k in st.objects ==> (st.objects[k].lb.Some? <==> st.objects[k].port.Some?)
  }

  /** The load balancer owns a frontend with this port. */
  ghost predicate IsOwnedPort(st: Store, lb: Key, port: int32) {
    exists k :: k in st.objects && st.objects[k].lb == Some(lb) && st.objects[k].port == Some(port)
  }

  ghost predicate HasUnported(listing: seq<Frontend>) {
    exists i :: 0 <= i < |listing| && listing[i].port.None?
  }

  /** From position `from` on, at most one listed frontend has no port. */
  ghost predicate AtMostOneUnported(listing: seq<Frontend>, from: nat) {
    forall i, j :: from <= i < j < |listing| ==> listing[i].port.Some? || listing[j].port.Some?
  }

  lemma AllAnsweredGets(listing: seq<Frontend>)
    ensures AtMostOneGetsPort(listing, AllAnswered()) <==> AtMostOneUnported(listing, 0)
    ensures (exists i :: GetsPort(listing, AllAnswered(), i)) <==> HasUnported(listing)
  {
    assert forall i :: 0 <= i < |listing| ==> (GetsPort(listing, AllAnswered(), i) <==> listing[i].port.None?);
  }

  /** When owner and port are set together, nobody joins with a port. */
  lemma OwnersHold(listing: seq<Frontend>, st: Store, lb: Key, reachable: nat -> bool, port: int32)
    requires Fresh(listing, st) && SetTogether(st) && OwnedPortsDistinct(st, lb)
    ensures HeldPortsDistinct(listing, st, lb, reachable)
    ensures PortIsHeld(listing, st, lb, reachable, port) <==> IsOwnedPort(st, lb, port)
  {
    forall k ensures Holds(listing, st, lb, reachable, k) <==> OwnsPort(st, lb, k) {
    }
  }

  /** Port uniqueness for the stores that runs produce: one pass over a fresh
      listing, complete or not, keeps the owned ports distinct exactly when at most
      one listed frontend has no port and has its write answered, and if there is
      one, the offered port is not that of an owned frontend, listed or missed. */
  lemma ClaimedPortsStayDistinctExactly(
    startingPort: int32, lb: Key, listing: seq<Frontend>, st: Store, reachable: nat -> bool)
    requires DistinctKeys(listing) && Fresh(listing, st)
    requires forall f :: f in listing ==> Visible(f, lb, false)
    requires SetTogether(st) && OwnedPortsDistinct(st, lb)
    ensures var port := NextPort(PortsOf(listing), startingPort);
      var after := RunPass(AsWritten, startingPort, Pass(lb, listing, 0, port), st, reachable);
      OwnedPortsDistinct(after, lb) <==>
        (&& AtMostOneGetsPort(listing, reachable)
         && ((exists i :: GetsPort(listing, reachable, i)) ==> !IsOwnedPort(st, lb, port)))
  {
    OwnersHold(listing, st, lb, reachable, NextPort(PortsOf(listing), startingPort));
    PassKeepsPortsDistinctExactly(startingPort, lb, listing, st, reachable);
  }

  /** ... and whichever writes are answered, exactly when at most one listed frontend
      has no port and, if there is one, the offered port is not an owned one. */
  lemma ClaimedPortsAlwaysStayDistinctExactly(startingPort: int32, lb: Key, listing: seq<Frontend>, st: Store)
    requires DistinctKeys(listing) && Fresh(listing, st)
    requires forall f :: f in listing ==> Visible(f, lb, false)
    requires SetTogether(st) && OwnedPortsDistinct(st, lb)
    ensures var port := NextPort(PortsOf(listing), startingPort);
      var p := Pass(lb, listing, 0, port);
      (forall reachable :: OwnedPortsDistinct(RunPass(AsWritten, startingPort, p, st, reachable), lb))
        <==> (AtMostOneUnported(listing, 0) && (HasUnported(listing) ==> !IsOwnedPort(st, lb, port)))
  {
    OwnersHold(listing, st, lb, AllAnswered(), NextPort(PortsOf(listing), startingPort));
    AllAnsweredGets(listing);
    PassAlwaysKeepsPortsDistinctExactly(startingPort, lb, listing, st);
  }

  /** A complete listing shows every port that is held. */
  lemma CompleteShowsHeld(listing: seq<Frontend>, st: Store, lb: Key, reachable: nat -> bool, port: int32)
    requires WellKeyed(st) && Fresh(listing, st) && Complete(listing, st, lb) && ListedPortsDistinct(listing)
    ensures HeldPortsDistinct(listing, st, lb, reachable)
    ensures PortIsHeld(listing, st, lb, reachable, port) ==> port in PortsOf(listing)
  {
    forall k | Holds(listing, st, lb, reachable, k) ensures st.objects[k] in listing {
    }
    forall k, l | Holds(listing, st, lb, reachable, k) && Holds(listing, st, lb, reachable, l) && k != l
      ensures st.objects[k].port != st.objects[l].port
    {
      var i :| 0 <= i < |listing| && listing[i] == st.objects[k];
      var j :| 0 <= j < |listing| && listing[j] == st.objects[l];
      assert i < j || j < i;
    }
  }

  /** With a complete listing the offered port is free: one pass keeps the owned
      ports distinct exactly when at most one listed frontend has no port and has its
      write answered, and whichever writes are answered exactly when at most one has
      no port. */
  lemma CompleteListingKeepsPortsDistinctExactly(
    startingPort: int32, lb: Key, listing: seq<Frontend>, st: Store, reachable: nat -> bool)
    requires WellKeyed(st)
    requires DistinctKeys(listing) && Fresh(listing, st) && Complete(listing, st, lb)
    requires forall f :: f in listing ==> Visible(f, lb, false)
    requires ListedPortsDistinct(listing)
    requires !GoesRound(PortsOf(listing))
    ensures var p := Pass(lb, listing, 0, NextPort(PortsOf(listing), startingPort));
      && (OwnedPortsDistinct(RunPass(AsWritten, startingPort, p, st, reachable), lb) <==> AtMostOneGetsPort(listing, reachable))
      && ((forall answered :: OwnedPortsDistinct(RunPass(AsWritten, startingPort, p, st, answered), lb))
          <==> AtMostOneUnported(listing, 0))
  {
    var port := NextPort(PortsOf(listing), startingPort);
    NextPortFreshExactly(PortsOf(listing), startingPort);
    CompleteShowsHeld(listing, st, lb, reachable, port);
    PassKeepsPortsDistinctExactly(startingPort, lb, listing, st, reachable);
    CompleteShowsHeld(listing, st, lb, AllAnswered(), port);
    AllAnsweredGets(listing);
    PassAlwaysKeepsPortsDistinctExactly(startingPort, lb, listing, st);
  }

  /** The failing side: two frontends without a port that are listed together
      and whose writes go through end up owned by the same load balancer with
      the same port. */
  lemma NewFrontendsSharePort(startingPort: int32, lb: Key, listing: seq<Frontend>, st: Store, reachable: nat -> bool, i: nat, j: nat)
    requires DistinctKeys(listing) && Fresh(listing, st)
    requires forall f :: f in listing ==> Visible(f, lb, false)
    requires i < j < |listing| && listing[i].port.None? && listing[j].port.None?
    requires reachable(i) && reachable(j)
    ensures var after := RunPass(AsWritten, startingPort, Pass(lb, listing, 0, NextPort(PortsOf(listing), startingPort)), st, reachable);
      var k, l := listing[i].key, listing[j].key;
      && k in after.objects && l in after.objects && k != l
      && after.objects[k].lb == after.objects[l].lb == Some(lb)
      && after.objects[k].port == after.objects[l].port == Some(NextPort(PortsOf(listing), startingPort))
  {
    var p := Pass(lb, listing, 0, NextPort(PortsOf(listing), startingPort));
    assert listing[i] in listing && listing[j] in listing;
    PassOutcome(startingPort, p, st, reachable, i);
    PassOutcome(startingPort, p, st, reachable, j);
  }

  // ------------------------------------------------------------ convergence

  /** A pass over frontends that are all owned and ported writes nothing. */
  lemma {:induction false} SettledPassWritesNothing(v: Variant, startingPort: int32, p: Pass, st: Store, reachable: nat -> bool)
    requires forall i :: p.index <= i < |p.listing| ==> !NeedsWrite(p.listing[i])
    ensures RunPass(v, startingPort, p, st, reachable) == st
    decreases |p.listing| - p.index
  {
    if p.index < |p.listing| {
      var (q, st') := StepPass(v, startingPort, p, st, reachable(p.index));
      SettledPassWritesNothing(v, startingPort, q, st', reachable);
    }
  }

  /** After a pass over a fresh listing in which every write succeeds, every
      listed frontend is owned and ported. */
  lemma PassSettles(startingPort: int32, lb: Key, items: seq<Frontend>, st: Store, reachable: nat -> bool, i: nat)
    requires var listing := Filtered(items, lb, false);
      DistinctKeys(listing) && Fresh(listing, st) && i < |listing|
    requires forall n :: reachable(n)
    ensures var f := Filtered(items, lb, false)[i];
      var after := RunPass(AsWritten, startingPort, StartPass(lb, items, startingPort), st, reachable);
      && f.key in after.objects
      && after.objects[f.key].lb == Some(lb)
      && after.objects[f.key].port.Some?
  {
    PassOutcome(startingPort, StartPass(lb, items, startingPort), st, reachable, i);
    var f := Filtered(items, lb, false)[i];
    assert f in Filtered(items, lb, false);
  }

  /** ... and every later pass over the same frontends writes nothing. */
  lemma PassReachesFixedPoint(
    startingPort: int32, lb: Key, items: seq<Frontend>, st: Store, reachable: nat -> bool,
    v: Variant, later: seq<Frontend>, reachableLater: nat -> bool)
    requires DistinctKeys(Filtered(items, lb, false)) && Fresh(Filtered(items, lb, false), st)
    requires forall n :: reachable(n)
    requires Fresh(later, RunPass(AsWritten, startingPort, StartPass(lb, items, startingPort), st, reachable))
    requires forall f :: f in later ==> exists i :: 0 <= i < |Filtered(items, lb, false)| && Filtered(items, lb, false)[i].key == f.key
    ensures var after := RunPass(AsWritten, startingPort, StartPass(lb, items, startingPort), st, reachable);
      RunPass(v, startingPort, StartPass(lb, later, startingPort), after, reachableLater) == after
  {
    var after := RunPass(AsWritten, startingPort, StartPass(lb, items, startingPort), st, reachable);
    var p := StartPass(lb, later, startingPort);
    forall n | 0 <= n < |p.listing| ensures !NeedsWrite(p.listing[n]) {
      var f := p.listing[n];
      assert f in later;
      var i :| 0 <= i < |Filtered(items, lb, false)| && Filtered(items, lb, false)[i].key == f.key;
      PassSettles(startingPort, lb, items, st, reachable, i);
      assert after.objects[f.key] == f;
    }
    SettledPassWritesNothing(v, startingPort, p, after, reachableLater);
  }
}
