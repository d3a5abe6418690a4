/** `updateHealthManager`: consolidating the recorded states, joining them with
    the Backend and Frontend objects, and handing the lists to the cache. */
module Publish {
  import opened Common
  import opened Api
  import opened Monitor
  import Cache = HealthCache

  type Lists = map<Key, seq<Cache.Endpoint>>

  /** Evaluating a selector on labels: `None` if the selector is malformed. */
  type Matcher = (Selector, Labels) -> Option<bool>

  // ----------------------------------------------------------- consolidation

  /** The recorded states without empty inner maps. */
  function Pruned(states: States): (r: States) {
    map b | b in states && |states[b]| != 0 :: states[b]
  }

  function Restricted(inner: map<Uid, bool>, todo: set<Uid>): (r: map<Uid, bool>) {
    map u | u in inner && u !in todo :: inner[u]
  }

  /** The state of the accumulating loop: the pods in `todo` are not yet visited. */
  function HalfConsolidated(consolidated: States, name: string, inner: map<Uid, bool>, todo: set<Uid>): (r: States) {
    if inner.Keys <= todo then consolidated else consolidated[name := Restricted(inner, todo)]
  }

  /** One visit: create the inner map if missing, then OR the value in. */
  function Accumulate(states: States, name: string, uid: Uid, isUp: bool): (r: States) {
    var inner := if name in states then states[name] else map[];
    var known := if uid in inner then inner[uid] else false;
    states[name := inner[uid := known || isUp]]
  }

  lemma AccumulateStep(consolidated: States, name: string, inner: map<Uid, bool>, todo: set<Uid>, uid: Uid)
    requires name !in consolidated && uid in todo && todo <= inner.Keys
    ensures Accumulate(HalfConsolidated(consolidated, name, inner, todo), name, uid, inner[uid])
         == HalfConsolidated(consolidated, name, inner, todo - {uid})
  {
    RestrictedStep(inner, todo, uid);
    assert !(inner.Keys <= todo - {uid});
  }

  lemma RestrictedStep(inner: map<Uid, bool>, todo: set<Uid>, uid: Uid)
    requires uid in todo && todo <= inner.Keys
    ensures uid !in Restricted(inner, todo)
    ensures Restricted(inner, todo - {uid}) == Restricted(inner, todo)[uid := inner[uid]]
    ensures inner.Keys <= todo ==> Restricted(inner, todo) == map[]
  {
  }

  /** One backend of the accumulating loop, in any order of its pods. */
  method ConsolidateBackend(consolidated: States, backendName: string, backendMap: map<Uid, bool>) returns (r: States)
    requires backendName !in consolidated
    ensures r == if |backendMap| == 0 then consolidated else consolidated[backendName := backendMap]
  {
    r := consolidated;
    var todo := backendMap.Keys;
    while todo != {}
      invariant todo <= backendMap.Keys
      invariant r == HalfConsolidated(consolidated, backendName, backendMap, todo)
      decreases |todo|
    {
      var uid :| uid in todo;
      AccumulateStep(consolidated, backendName, backendMap, todo, uid);
      if backendName !in r {
        r := r[backendName := map[]];
      }
      var known := if uid in r[backendName] then r[backendName][uid] else false;
      r := r[backendName := r[backendName][uid := known || backendMap[uid]]];
      todo := todo - {uid};
    }
    assert Restricted(backendMap, {}) == backendMap;
  }

  function PrunedOutside(states: States, todo: set<string>): (r: States) {
    map b | b in states && b !in todo && |states[b]| != 0 :: states[b]
  }

  /** Consolidation is a copy, in any iteration order: the accumulating loop
      yields exactly the states, less any empty inner maps. */
  method Consolidate(states: States) returns (consolidated: States)
    ensures consolidated == Pruned(states)
    ensures Canonical(states) ==> consolidated == states
  {
    consolidated := map[];
    var todo := states.Keys;
    while todo != {}
      invariant todo <= states.Keys
      invariant consolidated == PrunedOutside(states, todo)
      decreases |todo|
    {
      var backendName :| backendName in todo;
      consolidated := ConsolidateBackend(consolidated, backendName, states[backendName]);
      todo := todo - {backendName};
    }
    PrunedIsCopy(states);
  }

  lemma PrunedIsCopy(states: States)
    ensures PrunedOutside(states, {}) == Pruned(states)
    ensures Canonical(states) ==> Pruned(states) == states
    ensures Canonical(Pruned(states))
  {
  }

  // -------------------------------------------------------------- the bags

  /** The endpoint of a recorded pod; a pod without a target yields the zero
      value. */
  function EndpointOf(targets: map<Uid, ScrapeTarget>, u: Uid, up: bool): (ep: Cache.Endpoint) {
    if u in targets then Cache.Endpoint(targets[u].nodeName, targets[u].ip, up)
    else Cache.Endpoint("", "", up)
  }

  function Endpoints(inner: map<Uid, bool>, targets: map<Uid, ScrapeTarget>): (r: map<Uid, Cache.Endpoint>) {
    map u | u in inner :: EndpointOf(targets, u, inner[u])
  }

  /** One endpoint per recorded pod. */
  ghost function EndpointBag(inner: map<Uid, bool>, targets: map<Uid, ScrapeTarget>): (r: multiset<Cache.Endpoint>) {
    Bag(inner.Keys, Endpoints(inner, targets))
  }

  /** What the join reads: the consolidated states, the targets of the tick, and
      the listed objects. */
  datatype View = View(states: States, targets: map<Uid, ScrapeTarget>, matches: Matcher,
                       backends: seq<Backend>, frontends: seq<Frontend>)
  {
    /** Whether backend `i` and frontend `j` contribute to a key. */
    predicate Pairs(i: nat, j: nat, key: Key)
      requires i < |backends| && j < |frontends|
    {
      && backends[i].name in states
      && frontends[j].key == key
      && matches(frontends[j].selector, backends[i].labels) == Some(true)
    }

    /** The pods recorded for backend `i`. */
    function Recorded(i: nat): (r: map<Uid, bool>)
      requires i < |backends|
    {
      if backends[i].name in states then states[backends[i].name] else map[]
    }

    ghost function PairBag(i: nat, j: nat, key: Key): (r: multiset<Cache.Endpoint>)
      requires i < |backends| && j < |frontends|
    {
      if Pairs(i, j, key) then EndpointBag(Recorded(i), targets) else multiset{}
    }

    /** The contribution of backend `i` with the first `j` frontends. */
    ghost function RowBag(i: nat, j: nat, key: Key): (r: multiset<Cache.Endpoint>)
      requires i < |backends| && j <= |frontends|
    {
      if j == 0 then multiset{} else RowBag(i, j - 1, key) + PairBag(i, j - 1, key)
    }

    /** The contribution of the first `i` backends. */
    ghost function JoinBag(i: nat, key: Key): (r: multiset<Cache.Endpoint>)
      requires i <= |backends|
    {
      if i == 0 then multiset{} else JoinBag(i - 1, key) + RowBag(i - 1, |frontends|, key)
    }

    /** The declarative join: for each listed backend with data, and each listed
        frontend object of this key whose selector matches, one endpoint per
        recorded pod. */
    ghost function Published(key: Key): (r: multiset<Cache.Endpoint>) {
      JoinBag(|backends|, key)
    }

    ghost predicate RowHits(i: nat, j: nat, key: Key)
      requires i < |backends| && j <= |frontends|
    {
      exists l: nat :: l < j && Pairs(i, l, key)
    }

    ghost predicate Hits(i: nat, key: Key)
      requires i <= |backends|
    {
      exists k: nat :: k < i && RowHits(k, |frontends|, key)
    }
  }

  ghost function ListBag(lists: Lists, key: Key): (r: multiset<Cache.Endpoint>) {
    if key in lists then multiset(lists[key]) else multiset{}
  }

  // ------------------------------------------------------ the nested loops

  /** The innermost loop: the pods of one backend, in any order. */
  method AppendPods(list: seq<Cache.Endpoint>, uidStates: map<Uid, bool>, targets: map<Uid, ScrapeTarget>)
    returns (r: seq<Cache.Endpoint>)
    ensures multiset(r) == multiset(list) + EndpointBag(uidStates, targets)
  {
    r := list;
    ghost var eps := Endpoints(uidStates, targets);
    var todo := uidStates.Keys;
    ghost var total := multiset(r) + Bag(todo, eps);
    while todo != {}
      invariant todo <= uidStates.Keys
      invariant multiset(r) + Bag(todo, eps) == total
      decreases |todo|
    {
      var uid :| uid in todo;
      BagTakes(todo, eps, uid);
      var isUp := uidStates[uid];
      var ep := EndpointOf(targets, uid, isUp);
      ShiftOne(r, Bag(todo - {uid}, eps), ep, total);
      r := r + [ep];
      todo := todo - {uid};
    }
  }

  /** Appending one endpoint per pod to the list of a key. */
  method AppendFor(lists: Lists, key: Key, uidStates: map<Uid, bool>, targets: map<Uid, ScrapeTarget>) returns (r: Lists)
    ensures r.Keys == lists.Keys + {key}
    ensures ListBag(r, key) == ListBag(lists, key) + EndpointBag(uidStates, targets)
    ensures forall k :: k != key ==> ListBag(r, k) == ListBag(lists, k)
  {
    var list := if key in lists then lists[key] else [];
    var appended := AppendPods(list, uidStates, targets);
    r := lists[key := appended];
  }

  /** The lists after backend `i` has been joined with the first `j` frontends. */
  ghost predicate RowJoined(w: View, lists: Lists, r: Lists, i: nat, j: nat, key: Key)
    requires i < |w.backends| && j <= |w.frontends|
  {
    && ListBag(r, key) == ListBag(lists, key) + w.RowBag(i, j, key)
    && (key in r <==> key in lists || w.RowHits(i, j, key))
  }

  ghost predicate AllRowJoined(w: View, lists: Lists, r: Lists, i: nat, j: nat)
    requires i < |w.backends| && j <= |w.frontends|
  {
    forall key :: RowJoined(w, lists, r, i, j, key)
  }

  /** The lists gained the endpoints of one pair. */
  ghost predicate PairAdded(w: View, before: Lists, r: Lists, i: nat, j: nat, key: Key)
    requires i < |w.backends| && j < |w.frontends|
  {
    && ListBag(r, key) == ListBag(before, key) + w.PairBag(i, j, key)
    && (key in r <==> key in before || w.Pairs(i, j, key))
  }

  lemma NothingAdded(w: View, lists: Lists, i: nat, j: nat)
    requires i < |w.backends| && j < |w.frontends|
    requires w.matches(w.frontends[j].selector, w.backends[i].labels) != Some(true)
    ensures forall key :: PairAdded(w, lists, lists, i, j, key)
  {
  }

  lemma SomethingAdded(w: View, lists: Lists, r: Lists, i: nat, j: nat, key: Key)
    requires i < |w.backends| && j < |w.frontends| && w.backends[i].name in w.states
    requires w.matches(w.frontends[j].selector, w.backends[i].labels) == Some(true)
    requires var own := w.frontends[j].key;
      && r.Keys == lists.Keys + {own}
      && ListBag(r, key) == ListBag(lists, key) + if key == own then EndpointBag(w.states[w.backends[i].name], w.targets) else multiset{}
    ensures PairAdded(w, lists, r, i, j, key)
  {
  }

  /** One pair of the nested loops. */
  method JoinPair(w: View, i: nat, j: nat, lists: Lists) returns (r: Lists)
    requires i < |w.backends| && j < |w.frontends| && w.backends[i].name in w.states
    ensures forall key :: PairAdded(w, lists, r, i, j, key)
  {
    var verdict := w.matches(w.frontends[j].selector, w.backends[i].labels);
    if verdict != Some(true) {
      NothingAdded(w, lists, i, j);
      return lists;
    }
    r := AppendFor(lists, w.frontends[j].key, w.states[w.backends[i].name], w.targets);
    forall key ensures PairAdded(w, lists, r, i, j, key) {
      SomethingAdded(w, lists, r, i, j, key);
    }
  }

  lemma AllRowJoinedStep(w: View, lists: Lists, before: Lists, r: Lists, i: nat, j: nat)
    requires i < |w.backends| && j < |w.frontends|
    requires AllRowJoined(w, lists, before, i, j)
    requires forall key :: PairAdded(w, before, r, i, j, key)
    ensures AllRowJoined(w, lists, r, i, j + 1)
  {
    var next := j + 1;
    forall key ensures RowJoined(w, lists, r, i, next, key) {
      assert PairAdded(w, before, r, i, j, key) && RowJoined(w, lists, before, i, j, key);
      RowJoinedStep(w, lists, before, r, i, j, key);
    }
  }

  lemma RowJoinedStep(w: View, lists: Lists, before: Lists, r: Lists, i: nat, j: nat, key: Key)
    requires i < |w.backends| && j < |w.frontends|
    requires RowJoined(w, lists, before, i, j, key) && PairAdded(w, before, r, i, j, key)
    ensures RowJoined(w, lists, r, i, j + 1, key)
  {
  }

  /** The loop over the frontends for one backend that has data. */
  method JoinBackend(w: View, i: nat, lists: Lists) returns (r: Lists)
    requires i < |w.backends| && w.backends[i].name in w.states
    ensures AllRowJoined(w, lists, r, i, |w.frontends|)
  {
    r := lists;
    EmptyRow(w, lists, i);
    for j := 0 to |w.frontends|
      invariant AllRowJoined(w, lists, r, i, j)
    {
      ghost var before := r;
      r := JoinPair(w, i, j, r);
      AllRowJoinedStep(w, lists, before, r, i, j);
    }
  }

  lemma EmptyRow(w: View, lists: Lists, i: nat)
    requires i < |w.backends|
    ensures AllRowJoined(w, lists, lists, i, 0)
  {
  }

  /** The lists are the join with the first `i` backends. */
  ghost predicate JoinedUpTo(w: View, lists: Lists, i: nat, key: Key)
    requires i <= |w.backends|
  {
    && ListBag(lists, key) == w.JoinBag(i, key)
    && (key in lists <==> w.Hits(i, key))
  }

  ghost predicate AllJoined(w: View, lists: Lists, i: nat)
    requires i <= |w.backends|
  {
    forall key :: JoinedUpTo(w, lists, i, key)
  }

  ghost predicate Joined(w: View, lists: Lists) {
    AllJoined(w, lists, |w.backends|)
  }

  /** The nested loops compute the declarative join, for any iteration order of
      the maps. */
  method Join(w: View) returns (lists: Lists)
    ensures Joined(w, lists)
  {
    lists := map[];
    NothingJoined(w);
    for i := 0 to |w.backends|
      invariant AllJoined(w, lists, i)
    {
      ghost var before := lists;
      if w.backends[i].name in w.states {
        lists := JoinBackend(w, i, lists);
      } else {
        AllMissing(w, lists, i);
      }
      AllJoinedStep(w, before, lists, i);
    }
  }

  lemma NothingJoined(w: View)
    ensures AllJoined(w, map[], 0)
  {
  }

  lemma AllMissing(w: View, lists: Lists, i: nat)
    requires i < |w.backends| && w.backends[i].name !in w.states
    ensures AllRowJoined(w, lists, lists, i, |w.frontends|)
  {
    forall key ensures RowJoined(w, lists, lists, i, |w.frontends|, key) {
      MissingBackend(w, i, |w.frontends|, key);
    }
  }

  lemma AllJoinedStep(w: View, before: Lists, lists: Lists, i: nat)
    requires i < |w.backends|
    requires AllJoined(w, before, i) && AllRowJoined(w, before, lists, i, |w.frontends|)
    ensures AllJoined(w, lists, i + 1)
  {
    var next := i + 1;
    forall key ensures JoinedUpTo(w, lists, next, key) {
      assert JoinedUpTo(w, before, i, key) && RowJoined(w, before, lists, i, |w.frontends|, key);
      JoinedStep(w, before, lists, i, key);
    }
  }

  lemma JoinedStep(w: View, before: Lists, lists: Lists, i: nat, key: Key)
    requires i < |w.backends|
    requires JoinedUpTo(w, before, i, key) && RowJoined(w, before, lists, i, |w.frontends|, key)
    ensures JoinedUpTo(w, lists, i + 1, key)
  {
  }

  lemma {:induction false} MissingBackend(w: View, i: nat, j: nat, key: Key)
    requires i < |w.backends| && j <= |w.frontends| && w.backends[i].name !in w.states
    ensures w.RowBag(i, j, key) == multiset{} && !w.RowHits(i, j, key)
  {
    if j > 0 { MissingBackend(w, i, j - 1, key); }
  }

  // ------------------------------------------------------ what is published

  /** An endpoint occurs in a bag of recorded pods exactly if some pod has it. */
  lemma BagMembers(inner: map<Uid, bool>, targets: map<Uid, ScrapeTarget>, ep: Cache.Endpoint)
    ensures ep in EndpointBag(inner, targets) <==> exists u :: u in inner && EndpointOf(targets, u, inner[u]) == ep
  {
    var eps := Endpoints(inner, targets);
    BagCounts(inner.Keys, eps, ep);
    if u :| u in inner && EndpointOf(targets, u, inner[u]) == ep {
      assert u in KeysOf(inner.Keys, eps, ep);
    } else {
      assert KeysOf(inner.Keys, eps, ep) == {};
    }
  }

  /** The origin of a published endpoint: a contributing pair and a recorded pod. */
  ghost predicate Origin(w: View, key: Key, ep: Cache.Endpoint, i: nat, j: nat, u: Uid) {
    && i < |w.backends| && j < |w.frontends| && w.Pairs(i, j, key)
    && u in w.Recorded(i) && ep == EndpointOf(w.targets, u, w.Recorded(i)[u])
  }

  ghost predicate RowOrigin(w: View, key: Key, ep: Cache.Endpoint, i: nat, j: nat) {
    exists l: nat, u :: l < j && Origin(w, key, ep, i, l, u)
  }

  lemma {:induction false} RowMembers(w: View, i: nat, j: nat, key: Key, ep: Cache.Endpoint)
    requires i < |w.backends| && j <= |w.frontends|
    ensures ep in w.RowBag(i, j, key) <==> RowOrigin(w, key, ep, i, j)
  {
    if j > 0 {
      RowMembers(w, i, j - 1, key, ep);
      BagMembers(w.Recorded(i), w.targets, ep);
      if ep in w.PairBag(i, j - 1, key) {
        var u :| u in w.Recorded(i) && EndpointOf(w.targets, u, w.Recorded(i)[u]) == ep;
        assert Origin(w, key, ep, i, j - 1, u);
      }
    }
  }

  ghost predicate JoinOrigin(w: View, key: Key, ep: Cache.Endpoint, i: nat) {
    exists k: nat :: k < i && RowOrigin(w, key, ep, k, |w.frontends|)
  }

  lemma JoinOriginStep(w: View, key: Key, ep: Cache.Endpoint, i: nat)
    ensures JoinOrigin(w, key, ep, i + 1) <==> JoinOrigin(w, key, ep, i) || RowOrigin(w, key, ep, i, |w.frontends|)
  {
  }

  lemma JoinBagStep(w: View, i: nat, key: Key)
    requires i < |w.backends|
    ensures w.JoinBag(i + 1, key) == w.JoinBag(i, key) + w.RowBag(i, |w.frontends|, key)
  {
  }

  lemma InSum<T>(x: T, total: multiset<T>, a: multiset<T>, b: multiset<T>)
    requires total == a + b
    ensures x in total <==> x in a || x in b
  {
  }

  lemma {:induction false} JoinMembers(w: View, i: nat, key: Key, ep: Cache.Endpoint)
    requires i <= |w.backends|
    ensures ep in w.JoinBag(i, key) <==> JoinOrigin(w, key, ep, i)
  {
    if i == 0 {
      assert !JoinOrigin(w, key, ep, 0);
    } else {
      var h := i - 1;
      JoinBagStep(w, h, key);
      InSum(ep, w.JoinBag(i, key), w.JoinBag(h, key), w.RowBag(h, |w.frontends|, key));
      JoinMembers(w, h, key, ep);
      RowMembers(w, h, |w.frontends|, key, ep);
      JoinOriginStep(w, key, ep, h);
    }
  }

  /** Exactly which endpoints are published for a frontend. */
  lemma PublishedExactly(w: View, lists: Lists, key: Key, ep: Cache.Endpoint)
    requires Joined(w, lists)
    ensures (key in lists && ep in lists[key]) <==> exists i: nat, j: nat, u :: Origin(w, key, ep, i, j, u)
  {
    assert JoinedUpTo(w, lists, |w.backends|, key);
    JoinMembers(w, |w.backends|, key, ep);
    assert ep in ListBag(lists, key) <==> ep in w.Published(key);
    if i: nat, j: nat, u :| Origin(w, key, ep, i, j, u) {
      assert RowOrigin(w, key, ep, i, |w.frontends|);
    }
  }

  /** Every published list is non-empty. */
  lemma PublishedNonEmpty(w: View, lists: Lists, key: Key)
    requires Joined(w, lists) && Canonical(w.states) && key in lists
    ensures lists[key] != []
  {
    assert JoinedUpTo(w, lists, |w.backends|, key);
    var i: nat :| i < |w.backends| && w.RowHits(i, |w.frontends|, key);
    var j: nat :| j < |w.frontends| && w.Pairs(i, j, key);
    assert w.Recorded(i) != map[];
    var u :| u in w.Recorded(i);
    var ep := EndpointOf(w.targets, u, w.Recorded(i)[u]);
    assert Origin(w, key, ep, i, j, u);
    PublishedExactly(w, lists, key, ep);
  }

  /** The number of contributing (backend, frontend, pod) combinations. */
  ghost function RowCount(w: View, i: nat, j: nat, key: Key): (r: nat)
    requires i < |w.backends| && j <= |w.frontends|
  {
    if j == 0 then 0 else RowCount(w, i, j - 1, key) + if w.Pairs(i, j - 1, key) then |w.Recorded(i)| else 0
  }

  ghost function JoinCount(w: View, i: nat, key: Key): (r: nat)
    requires i <= |w.backends|
  {
    if i == 0 then 0 else JoinCount(w, i - 1, key) + RowCount(w, i - 1, |w.frontends|, key)
  }

  lemma {:induction false} RowSize(w: View, i: nat, j: nat, key: Key)
    requires i < |w.backends| && j <= |w.frontends|
    ensures |w.RowBag(i, j, key)| == RowCount(w, i, j, key)
  {
    if j > 0 {
      RowSize(w, i, j - 1, key);
      BagSize(w.Recorded(i).Keys, Endpoints(w.Recorded(i), w.targets));
    }
  }

  lemma {:induction false} JoinSize(w: View, i: nat, key: Key)
    requires i <= |w.backends|
    ensures |w.JoinBag(i, key)| == JoinCount(w, i, key)
  {
    if i > 0 {
      var h := i - 1;
      JoinBagStep(w, h, key);
      JoinSize(w, h, key);
      RowSize(w, h, |w.frontends|, key);
      assert JoinCount(w, i, key) == JoinCount(w, h, key) + RowCount(w, h, |w.frontends|, key);
    }
  }

  /** The length of a published list is the sum of the pod counts of its
      contributing pairs: a pod that serves two matching backends counts twice. */
  lemma PublishedLength(w: View, lists: Lists, key: Key)
    requires Joined(w, lists) && key in lists
    ensures |lists[key]| == JoinCount(w, |w.backends|, key)
  {
    assert JoinedUpTo(w, lists, |w.backends|, key);
    JoinSize(w, |w.backends|, key);
    assert |multiset(lists[key])| == |lists[key]|;
  }

  // ------------------------------------------------------- multiplicities

  /** Backend `i`, frontend object `j` and pod `u` together put one endpoint into
      the list of a key. */
  ghost predicate Contributes(w: View, key: Key, i: nat, j: nat, u: Uid) {
    i < |w.backends| && j < |w.frontends| && w.Pairs(i, j, key) && u in w.Recorded(i)
  }

  /** The contributors of backend `i` with the first `j` frontends that yield `ep`. */
  ghost function RowSources(w: View, key: Key, ep: Cache.Endpoint, i: nat, j: nat): (r: set<(nat, nat, Uid)>)
    requires i < |w.backends|
  {
    set l: nat, u | l < j && u in w.Recorded(i) && Origin(w, key, ep, i, l, u) :: (i, l, u)
  }

  /** The contributors of the first `i` backends that yield `ep`. */
  ghost function JoinSources(w: View, key: Key, ep: Cache.Endpoint, i: nat): (r: set<(nat, nat, Uid)>)
    requires i <= |w.backends|
  {
    set k: nat, l: nat, u | k < i && l < |w.frontends| && u in w.Recorded(k) && Origin(w, key, ep, k, l, u) :: (k, l, u)
  }

  /** All contributors of a key that yield `ep`. */
  ghost function Sources(w: View, key: Key, ep: Cache.Endpoint): (r: set<(nat, nat, Uid)>)
    ensures forall i: nat, j: nat, u :: (i, j, u) in r <==> Origin(w, key, ep, i, j, u)
  {
    JoinSources(w, key, ep, |w.backends|)
  }

  lemma {:induction false} TagSize(i: nat, j: nat, pods: set<Uid>)
    ensures |set u | u in pods :: (i, j, u)| == |pods|
    decreases |pods|
  {
    if u :| u in pods {
      var rest := pods - {u};
      TagSize(i, j, rest);
      assert (set v | v in pods :: (i, j, v)) == (set v | v in rest :: (i, j, v)) + {(i, j, u)};
    }
  }

  /** The contributors of one pair that yield `ep`. */
  ghost function PairSources(w: View, key: Key, ep: Cache.Endpoint, i: nat, j: nat): (r: set<(nat, nat, Uid)>)
    requires i < |w.backends|
  {
    set u | u in w.Recorded(i) && Origin(w, key, ep, i, j, u) :: (i, j, u)
  }

  lemma PairCounts(w: View, i: nat, j: nat, key: Key, ep: Cache.Endpoint)
    requires i < |w.backends| && j < |w.frontends|
    ensures w.PairBag(i, j, key)[ep] == |PairSources(w, key, ep, i, j)|
  {
    var inner := w.Recorded(i);
    if w.Pairs(i, j, key) {
      var eps := Endpoints(inner, w.targets);
      var have := KeysOf(inner.Keys, eps, ep);
      BagCounts(inner.Keys, eps, ep);
      TagSize(i, j, have);
      assert PairSources(w, key, ep, i, j) == set u | u in have :: (i, j, u);
    } else {
      assert PairSources(w, key, ep, i, j) == {};
    }
  }

  lemma RowSourcesStep(w: View, key: Key, ep: Cache.Endpoint, i: nat, j: nat)
    requires i < |w.backends|
    ensures RowSources(w, key, ep, i, j + 1) == RowSources(w, key, ep, i, j) + PairSources(w, key, ep, i, j)
    ensures RowSources(w, key, ep, i, j) !! PairSources(w, key, ep, i, j)
  {
  }

  lemma JoinSourcesStep(w: View, key: Key, ep: Cache.Endpoint, i: nat)
    requires i < |w.backends|
    ensures JoinSources(w, key, ep, i + 1) == JoinSources(w, key, ep, i) + RowSources(w, key, ep, i, |w.frontends|)
    ensures JoinSources(w, key, ep, i) !! RowSources(w, key, ep, i, |w.frontends|)
  {
  }

  lemma RowBagStep(w: View, i: nat, j: nat, key: Key)
    requires i < |w.backends| && j < |w.frontends|
    ensures w.RowBag(i, j + 1, key) == w.RowBag(i, j, key) + w.PairBag(i, j, key)
  {
  }

  /** Counting in a sum of bags by disjoint sets. */
  lemma CountSum<T, S>(x: T, total: multiset<T>, a: multiset<T>, b: multiset<T>, all: set<S>, s: set<S>, t: set<S>)
    requires total == a + b && all == s + t && s !! t
    requires a[x] == |s| && b[x] == |t|
    ensures total[x] == |all|
  {
  }

  lemma {:induction false} RowCounts(w: View, i: nat, j: nat, key: Key, ep: Cache.Endpoint)
    requires i < |w.backends| && j <= |w.frontends|
    ensures w.RowBag(i, j, key)[ep] == |RowSources(w, key, ep, i, j)|
  {
    if j == 0 {
      assert RowSources(w, key, ep, i, j) == {};
    } else {
      var h := j - 1;
      RowCounts(w, i, h, key, ep);
      PairCounts(w, i, h, key, ep);
      RowBagStep(w, i, h, key);
      RowSourcesStep(w, key, ep, i, h);
      CountSum(ep, w.RowBag(i, j, key), w.RowBag(i, h, key), w.PairBag(i, h, key),
               RowSources(w, key, ep, i, j), RowSources(w, key, ep, i, h), PairSources(w, key, ep, i, h));
    }
  }

  lemma {:induction false} JoinCounts(w: View, i: nat, key: Key, ep: Cache.Endpoint)
    requires i <= |w.backends|
    ensures w.JoinBag(i, key)[ep] == |JoinSources(w, key, ep, i)|
  {
    if i == 0 {
      assert JoinSources(w, key, ep, i) == {};
    } else {
      var h := i - 1;
      JoinCounts(w, h, key, ep);
      RowCounts(w, h, |w.frontends|, key, ep);
      JoinBagStep(w, h, key);
      JoinSourcesStep(w, key, ep, h);
      CountSum(ep, w.JoinBag(i, key), w.JoinBag(h, key), w.RowBag(h, |w.frontends|, key),
               JoinSources(w, key, ep, i), JoinSources(w, key, ep, h), RowSources(w, key, ep, h, |w.frontends|));
    }
  }

  /** The join, counted: an endpoint occurs in a published list once for each
      combination of backend, frontend object and pod that yields it. */
  lemma PublishedCounts(w: View, lists: Lists, key: Key, ep: Cache.Endpoint)
    requires Joined(w, lists) && key in lists
    ensures multiset(lists[key])[ep] == |Sources(w, key, ep)|
  {
    assert JoinedUpTo(w, lists, |w.backends|, key);
    JoinCounts(w, |w.backends|, key, ep);
  }

  // ---------------------------------------------------- distinct addresses

  /** The address a pod is published with. */
  function AddressOf(targets: map<Uid, ScrapeTarget>, u: Uid): (ip: string)
    ensures forall up :: EndpointOf(targets, u, up).ipAddress == ip
  {
    if u in targets then targets[u].ip else ""
  }

  /** Two contributors with one address. */
  ghost predicate SameAddress(w: View, key: Key, i: nat, j: nat, u: Uid, k: nat, l: nat, v: Uid) {
    && Contributes(w, key, i, j, u) && Contributes(w, key, k, l, v)
    && AddressOf(w.targets, u) == AddressOf(w.targets, v)
  }

  /** No two contributors have the same address. */
  ghost predicate DistinctContributors(w: View, key: Key) {
    forall i, j, u, k, l, v :: SameAddress(w, key, i, j, u, k, l, v) ==> (i, j, u) == (k, l, v)
  }

  /** A contributor's endpoint is in the list. */
  lemma ContributorIsListed(w: View, lists: Lists, key: Key, i: nat, j: nat, u: Uid) returns (n: nat)
    requires Joined(w, lists) && Contributes(w, key, i, j, u)
    ensures key in lists && n < |lists[key]| && lists[key][n] == EndpointOf(w.targets, u, w.Recorded(i)[u])
  {
    var ep := EndpointOf(w.targets, u, w.Recorded(i)[u]);
    assert Origin(w, key, ep, i, j, u);
    PublishedExactly(w, lists, key, ep);
    n :| n < |lists[key]| && lists[key][n] == ep;
  }

  /** ... and every endpoint of the list is that of a contributor. */
  lemma ListedHasContributor(w: View, lists: Lists, key: Key, n: nat) returns (i: nat, j: nat, u: Uid)
    requires Joined(w, lists) && key in lists && n < |lists[key]|
    ensures Contributes(w, key, i, j, u) && lists[key][n] == EndpointOf(w.targets, u, w.Recorded(i)[u])
  {
    PublishedExactly(w, lists, key, lists[key][n]);
    i, j, u :| Origin(w, key, lists[key][n], i, j, u);
  }

  lemma SharedAddressRepeats(w: View, lists: Lists, key: Key, i: nat, j: nat, u: Uid, k: nat, l: nat, v: Uid)
    requires Joined(w, lists) && SameAddress(w, key, i, j, u, k, l, v) && (i, j, u) != (k, l, v)
    ensures key in lists && !Cache.DistinctIps(lists[key])
  {
    var a := ContributorIsListed(w, lists, key, i, j, u);
    var b := ContributorIsListed(w, lists, key, k, l, v);
    var list := lists[key];
    assert Cache.Ips(list)[a] == Cache.Ips(list)[b];
    if a == b && Cache.DistinctIps(list) {
      PublishedCounts(w, lists, key, list[a]);
      SubsetSize({(i, j, u), (k, l, v)}, Sources(w, key, list[a]));
      assert NoDuplicates(list);
      MultiplicityOne(list, list[a]);
      assert false;
    }
  }

  lemma RepeatedEndpointIsShared(w: View, lists: Lists, key: Key, ep: Cache.Endpoint)
    requires Joined(w, lists) && key in lists && multiset(lists[key])[ep] >= 2
    ensures !DistinctContributors(w, key)
  {
    var sources := Sources(w, key, ep);
    PublishedCounts(w, lists, key, ep);
    AtMostOne(sources);
    var s, t :| s in sources && t in sources && s != t;
    assert SameAddress(w, key, s.0, s.1, s.2, t.0, t.1, t.2);
  }

  lemma RepeatIsShared(w: View, lists: Lists, key: Key, a: nat, b: nat)
    requires Joined(w, lists) && key in lists && a < b < |lists[key]|
    requires lists[key][a].ipAddress == lists[key][b].ipAddress
    ensures !DistinctContributors(w, key)
  {
    if lists[key][a] == lists[key][b] {
      MultiplicityBound(lists[key], a, b);
      RepeatedEndpointIsShared(w, lists, key, lists[key][a]);
    } else {
      var i, j, u := ListedHasContributor(w, lists, key, a);
      var k, l, v := ListedHasContributor(w, lists, key, b);
      assert SameAddress(w, key, i, j, u, k, l, v);
    }
  }

  /** Exactly when a published list has distinct addresses: when no two of the
      contributing combinations of backend, frontend object and pod share one. */
  lemma PublishedDistinctExactly(w: View, lists: Lists, key: Key)
    requires Joined(w, lists) && key in lists
    ensures Cache.DistinctIps(lists[key]) <==> DistinctContributors(w, key)
  {
    if !DistinctContributors(w, key) {
      var i, j, u, k, l, v :| SameAddress(w, key, i, j, u, k, l, v) && (i, j, u) != (k, l, v);
      SharedAddressRepeats(w, lists, key, i, j, u, k, l, v);
    }
    if !Cache.DistinctIps(lists[key]) {
      var a, b :| 0 <= a < b < |lists[key]| && Cache.Ips(lists[key])[a] == Cache.Ips(lists[key])[b];
      RepeatIsShared(w, lists, key, a, b);
    }
  }

  /** The failing side: a pod that is recorded for two backends which both match
      a frontend is published twice. */
  lemma SharedPodRepeats(w: View, lists: Lists, key: Key, i: nat, j: nat, k: nat, l: nat, u: Uid)
    requires Joined(w, lists) && i != k
    requires Contributes(w, key, i, j, u) && Contributes(w, key, k, l, u)
    ensures key in lists && !Cache.DistinctIps(lists[key])
  {
    SharedAddressRepeats(w, lists, key, i, j, u, k, l, u);
  }

  /** Exactly one listed backend with data matches the frontend. */
  ghost predicate OnlyPair(w: View, key: Key, i: nat, j: nat) {
    && i < |w.backends| && j < |w.frontends| && w.Pairs(i, j, key)
    && forall k: nat, l: nat :: k < |w.backends| && l < |w.frontends| && w.Pairs(k, l, key) ==> k == i && l == j
  }

  ghost predicate DistinctTargets(targets: map<Uid, ScrapeTarget>) {
    forall u, v :: u in targets && v in targets && u != v ==> targets[u].ip != targets[v].ip
  }

  ghost predicate AllTargeted(inner: map<Uid, bool>, targets: map<Uid, ScrapeTarget>) {
    inner.Keys <= targets.Keys
  }

  /** A frontend that matches exactly one listed backend with data gets a list
      with distinct addresses, if targets have distinct addresses and every
      recorded pod is a target. */
  lemma PublishedDistinctIps(w: View, lists: Lists, key: Key, i: nat, j: nat)
    requires Joined(w, lists) && OnlyPair(w, key, i, j)
    requires DistinctTargets(w.targets) && AllTargeted(w.Recorded(i), w.targets)
    ensures DistinctContributors(w, key)
    ensures key in lists && Cache.DistinctIps(lists[key])
  {
    assert JoinedUpTo(w, lists, |w.backends|, key);
    assert w.RowHits(i, |w.frontends|, key);
    forall a, b, u, c, d, v | SameAddress(w, key, a, b, u, c, d, v) ensures (a, b, u) == (c, d, v) {
      assert a == i && b == j && c == i && d == j;
    }
    PublishedDistinctExactly(w, lists, key);
  }

  /** No pod contributes twice. */
  ghost predicate NoSharedPod(w: View, key: Key) {
    forall i, j, k, l, u :: Contributes(w, key, i, j, u) && Contributes(w, key, k, l, u) ==> i == k && j == l
  }

  /** ... which is all that matters when the contributing pods are targets and
      targets have distinct addresses. */
  lemma DistinctWithoutSharedPods(w: View, key: Key)
    requires DistinctTargets(w.targets)
    requires forall i, j, u :: Contributes(w, key, i, j, u) ==> u in w.targets
    ensures DistinctContributors(w, key) <==> NoSharedPod(w, key)
  {
    if DistinctContributors(w, key) {
      forall i, j, k, l, u | Contributes(w, key, i, j, u) && Contributes(w, key, k, l, u) ensures i == k && j == l {
        assert SameAddress(w, key, i, j, u, k, l, u);
      }
    }
  }

  // ----------------------------------------------------- agreeing health

  /** Contributors with one address are recorded with one health. */
  ghost predicate AgreeingContributors(w: View, key: Key) {
    forall i, j, u, k, l, v :: SameAddress(w, key, i, j, u, k, l, v) ==> w.Recorded(i)[u] == w.Recorded(k)[v]
  }

  lemma DisagreementIsListed(w: View, lists: Lists, key: Key, i: nat, j: nat, u: Uid, k: nat, l: nat, v: Uid)
    requires Joined(w, lists) && SameAddress(w, key, i, j, u, k, l, v) && w.Recorded(i)[u] != w.Recorded(k)[v]
    ensures key in lists && !Cache.Agreeing(lists[key])
  {
    var a := ContributorIsListed(w, lists, key, i, j, u);
    var b := ContributorIsListed(w, lists, key, k, l, v);
    assert a < b || b < a;
  }

  lemma DisagreementIsRecorded(w: View, lists: Lists, key: Key, a: nat, b: nat)
    requires Joined(w, lists) && key in lists && a < |lists[key]| && b < |lists[key]|
    requires lists[key][a].ipAddress == lists[key][b].ipAddress && lists[key][a].healthy != lists[key][b].healthy
    ensures !AgreeingContributors(w, key)
  {
    var i, j, u := ListedHasContributor(w, lists, key, a);
    var k, l, v := ListedHasContributor(w, lists, key, b);
    assert SameAddress(w, key, i, j, u, k, l, v);
  }

  /** Exactly when the entries of one address in a published list agree. */
  lemma PublishedAgreeingExactly(w: View, lists: Lists, key: Key)
    requires Joined(w, lists) && key in lists
    ensures Cache.Agreeing(lists[key]) <==> AgreeingContributors(w, key)
  {
    if !AgreeingContributors(w, key) {
      var i, j, u, k, l, v :| SameAddress(w, key, i, j, u, k, l, v) && w.Recorded(i)[u] != w.Recorded(k)[v];
      DisagreementIsListed(w, lists, key, i, j, u, k, l, v);
    }
    if !Cache.Agreeing(lists[key]) {
      var a, b :| 0 <= a < b < |lists[key]| && lists[key][a].ipAddress == lists[key][b].ipAddress
        && lists[key][a].healthy != lists[key][b].healthy;
      DisagreementIsRecorded(w, lists, key, a, b);
    }
  }
}
