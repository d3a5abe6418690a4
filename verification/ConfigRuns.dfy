/** `BuildConfig` and `ReconcileConfig` as loops, and the keys of the ConfigMap
    over any sequence of passes with changing replica counts. */
module ConfigRuns {
  import opened Common
  import opened Api
  import opened Text
  import opened ConfigBuilder
  import Allocator
  import Routing = ConfigRoundTrip

  // ----------------------------------------------------- writing the text

  method WriteServers(text: string, servers: seq<Server>) returns (r: string)
    ensures r == text + Unlines(AllServers(servers))
  {
    r := text;
    for i := 0 to |servers|
      invariant r == text + Unlines(AllServers(servers[..i]))
    {
      assert servers[..i + 1][..i] == servers[..i];
      UnlinesConcat(AllServers(servers[..i]), ServerLines(servers[i]));
      ConcatAssociative(text, Unlines(AllServers(servers[..i])), Unlines(ServerLines(servers[i])));
      r := r + Unlines(ServerLines(servers[i]));
    }
    assert servers[..|servers|] == servers;
  }

  method WriteRules(text: string, bs: seq<Backend>) returns (r: string)
    ensures r == text + Unlines(AllRules(bs))
  {
    r := text;
    for i := 0 to |bs|
      invariant r == text + Unlines(AllRules(bs[..i]))
    {
      assert bs[..i + 1][..i] == bs[..i];
      UnlinesConcat(AllRules(bs[..i]), RuleLines(bs[i]));
      ConcatAssociative(text, Unlines(AllRules(bs[..i])), Unlines(RuleLines(bs[i])));
      r := r + Unlines(RuleLines(bs[i]));
    }
    assert bs[..|bs|] == bs;
  }

  method WriteBackends(text: string, bs: seq<Backend>) returns (r: string)
    ensures r == text + Unlines(AllBackends(bs))
  {
    r := text;
    for i := 0 to |bs|
      invariant r == text + Unlines(AllBackends(bs[..i]))
    {
      assert bs[..i + 1][..i] == bs[..i];
      ghost var lines := BackendLines(bs[i]) + AllServers(bs[i].servers);
      UnlinesConcat(AllBackends(bs[..i]), lines);
      UnlinesConcat(BackendLines(bs[i]), AllServers(bs[i].servers));
      ghost var before := r;
      r := r + Unlines(BackendLines(bs[i]));
      r := WriteServers(r, bs[i].servers);
      ConcatAssociative(before, Unlines(BackendLines(bs[i])), Unlines(AllServers(bs[i].servers)));
      ConcatAssociative(text, Unlines(AllBackends(bs[..i])), Unlines(lines));
    }
    assert bs[..|bs|] == bs;
  }

  /** One frontend: its section, then the sections of its backends. */
  method WriteFrontend(text: string, f: Frontend, bs: seq<Backend>) returns (r: string)
    ensures r == text + Unlines(BlockLines(f, bs))
  {
    r := text + Unlines(FrontendLines(f));
    r := WriteRules(r, bs);
    r := WriteBackends(r, bs);
    UnlinesConcat(FrontendLines(f), AllRules(bs));
    UnlinesConcat(FrontendLines(f) + AllRules(bs), AllBackends(bs));
    ConcatAssociative(text, Unlines(FrontendLines(f)), Unlines(AllRules(bs)));
    ConcatAssociative(text, Unlines(FrontendLines(f) + AllRules(bs)), Unlines(AllBackends(bs)));
  }

  lemma AllFrontendsStep(fs: seq<Frontend>, backends: BackendMap, i: nat)
    requires i < |fs|
    ensures Unlines(AllFrontends(fs[..i + 1], backends)) ==
      Unlines(AllFrontends(fs[..i], backends)) + Unlines(BlockLines(fs[i], BackendsOf(backends, fs[i])))
  {
    assert fs[..i + 1][..i] == fs[..i];
    UnlinesConcat(AllFrontends(fs[..i], backends), BlockLines(fs[i], BackendsOf(backends, fs[i])));
  }

  method WriteFrontends(fs: seq<Frontend>, backends: BackendMap) returns (r: string)
    ensures r == Unlines(AllFrontends(fs, backends))
  {
    r := "";
    for i := 0 to |fs|
      invariant r == Unlines(AllFrontends(fs[..i], backends))
    {
      AllFrontendsStep(fs, backends, i);
      r := WriteFrontend(r, fs[i], BackendsOf(backends, fs[i]));
    }
    assert fs[..|fs|] == fs;
  }

  // ---------------------------------------------------------- per replica

  /** Iterations of the loop over the replica count. */
  function Count(replicas: int32): (n: nat) {
    if replicas < 0 then 0 else replicas
  }

  function PodName(name: string, i: int): (r: string) {
    name + "-haproxy-" + Itoa(i)
  }

  function ConfigKey(name: string, i: int): (r: string) {
    PodName(name, i) + ".cfg"
  }

  /** One entry per ordinal below the count. */
  function PodConfigs(name: string, n: nat, text: string): (m: map<string, string>) {
    if n == 0 then map[] else PodConfigs(name, n - 1, text)[PodName(name, n - 1) := text]
  }

  /** The loop over the replicas. */
  method Replicate(name: string, n: nat, preamble: string, config: string) returns (configMap: map<string, string>)
    ensures configMap == PodConfigs(name, n, preamble + config)
  {
    configMap := map[];
    for i := 0 to n
      invariant configMap == PodConfigs(name, i, preamble + config)
    {
      var podName := PodName(name, i);
      configMap := configMap[podName := preamble];
      configMap := configMap[podName := configMap[podName] + config];
    }
  }

  /** The configs are those of the ordinals below the replica count, no more and no
      fewer, each with the text. */
  ghost predicate OnePerReplica(configMap: map<string, string>, lb: LoadBalancer, text: string) {
    && (forall i: int :: PodName(lb.key.name, i) in configMap <==> 0 <= i < lb.replicas)
    && (forall pod :: pod in configMap ==> configMap[pod] == text && exists i: int :: pod == PodName(lb.key.name, i))
  }

  lemma PodConfigsPerReplica(lb: LoadBalancer, text: string)
    ensures OnePerReplica(PodConfigs(lb.key.name, Count(lb.replicas), text), lb, text)
  {
    var n := Count(lb.replicas);
    var m := PodConfigs(lb.key.name, n, text);
    PodConfigsExactly(lb.key.name, n, text);
    forall i: int ensures PodName(lb.key.name, i) in m <==> 0 <= i < lb.replicas {
      if PodName(lb.key.name, i) in m {
        assert IsPod(lb.key.name, n, PodName(lb.key.name, i));
        var j :| 0 <= j < n && PodName(lb.key.name, i) == PodName(lb.key.name, j);
        KeysNeverCollide(lb.key.name, i, j);
      }
      if 0 <= i < lb.replicas {
        assert IsPod(lb.key.name, n, PodName(lb.key.name, i));
      }
    }
    forall pod | pod in m ensures m[pod] == text && exists i: int :: pod == PodName(lb.key.name, i) {
      assert IsPod(lb.key.name, n, pod);
    }
  }

  method BuildConfig(lb: LoadBalancer, fs: seq<Frontend>, backends: BackendMap) returns (configMap: map<string, string>)
    ensures configMap == PodConfigs(lb.key.name, Count(lb.replicas), ConfigText(fs, backends))
    ensures OnePerReplica(configMap, lb, ConfigText(fs, backends))
  {
    PodConfigsPerReplica(lb, ConfigText(fs, backends));
    var config := WriteFrontends(fs, backends);
    configMap := Replicate(lb.key.name, Count(lb.replicas), Unlines(Preamble()), config);
  }

  // ------------------------------------------------------------- the merge

  /** The stored ConfigMap. The API does not keep an empty data map: it reads back
      as a nil map, into which nothing can be written. */
  datatype Stored = Absent | Present(data: map<string, string>)

  function DataOf(stored: Stored): (r: map<string, string>) {
    if stored.Absent? then map[] else stored.data
  }

  /** Writing an entry into a nil map panics. */
  predicate Panics(stored: Stored, n: nat) {
    stored == Present(map[]) && n > 0
  }

  function Merged(data: map<string, string>, name: string, n: nat, text: string): (r: map<string, string>) {
    if n == 0 then data else Merged(data, name, n - 1, text)[ConfigKey(name, n - 1) := text]
  }

  /** The stored ConfigMap after a pass. */
  function StoredAfter(stored: Stored, name: string, n: nat, text: string, reachable: bool): (r: Stored) {
    if Panics(stored, n) || !reachable then stored
    else Present(Merged(DataOf(stored), name, n, text))
  }

  predicate IsPod(name: string, n: nat, pod: string) {
    exists i :: 0 <= i < n && pod == PodName(name, i)
  }

  lemma {:induction false} PodConfigsExactly(name: string, n: nat, text: string)
    ensures forall pod :: pod in PodConfigs(name, n, text) <==> IsPod(name, n, pod)
    ensures forall pod :: pod in PodConfigs(name, n, text) ==> PodConfigs(name, n, text)[pod] == text
  {
    if n > 0 {
      PodConfigsExactly(name, n - 1, text);
      assert forall pod :: IsPod(name, n, pod) <==> IsPod(name, n - 1, pod) || pod == PodName(name, n - 1);
    }
  }

  /** Decimal ordinals never collide. */
  lemma KeysNeverCollide(name: string, i: int, j: int)
    requires ConfigKey(name, i) == ConfigKey(name, j) || PodName(name, i) == PodName(name, j)
    ensures i == j
  {
    var prefix := name + "-haproxy-";
    if ConfigKey(name, i) == ConfigKey(name, j) {
      SameSuffix(PodName(name, i), PodName(name, j), ".cfg");
    }
    assert PodName(name, i)[|prefix|..] == Itoa(i);
    assert PodName(name, j)[|prefix|..] == Itoa(j);
    ItoaInjective(i, j);
  }

  lemma SameSuffix(a: string, b: string, suffix: string)
    requires a + suffix == b + suffix
    ensures a == b
  {
    assert |a| == |b|;
    assert (a + suffix)[..|a|] == a && (b + suffix)[..|b|] == b;
  }

  /** The keys that a merge writes. */
  predicate IsKey(name: string, n: nat, key: string) {
    exists i :: 0 <= i < n && key == ConfigKey(name, i)
  }

  lemma {:induction false} MergedExactly(data: map<string, string>, name: string, n: nat, text: string, key: string)
    ensures key in Merged(data, name, n, text) <==> key in data || IsKey(name, n, key)
    ensures IsKey(name, n, key) ==> Merged(data, name, n, text)[key] == text
    ensures key in data && !IsKey(name, n, key) ==> Merged(data, name, n, text)[key] == data[key]
  {
    if n > 0 {
      MergedExactly(data, name, n - 1, text, key);
      IsKeyStep(name, n - 1, key);
    }
  }

  lemma IsKeyStep(name: string, n: nat, key: string)
    ensures IsKey(name, n + 1, key) <==> IsKey(name, n, key) || key == ConfigKey(name, n)
  {
    if IsKey(name, n + 1, key) {
      var i :| 0 <= i < n + 1 && key == ConfigKey(name, i);
      if i < n { assert IsKey(name, n, key); }
    }
  }

  /** A key written for a pod outside `todo`. */
  ghost predicate WrittenKey(pods: set<string>, todo: set<string>, key: string) {
    exists pod :: pod in pods && pod !in todo && key == pod + ".cfg"
  }

  /** The state of the merge loop: the pods in `todo` are not yet visited. */
  ghost predicate HalfMerged(data: map<string, string>, pods: set<string>, todo: set<string>, text: string, r: map<string, string>) {
    forall key ::
      && (key in r <==> key in data || WrittenKey(pods, todo, key))
      && (key in r ==> r[key] == if WrittenKey(pods, todo, key) then text else data[key])
  }

  lemma HalfMergedStep(data: map<string, string>, pods: set<string>, todo: set<string>, text: string, r: map<string, string>, pod: string)
    requires HalfMerged(data, pods, todo, text, r) && pod in pods && pod in todo
    ensures HalfMerged(data, pods, todo - {pod}, text, r[pod + ".cfg" := text])
  {
  }

  lemma HalfMergedEnds(data: map<string, string>, name: string, n: nat, text: string, r: map<string, string>)
    requires HalfMerged(data, PodConfigs(name, n, text).Keys, {}, text, r)
    ensures r == Merged(data, name, n, text)
  {
    var pods := PodConfigs(name, n, text).Keys;
    PodConfigsExactly(name, n, text);
    forall key ensures WrittenKey(pods, {}, key) <==> IsKey(name, n, key) {
      if WrittenKey(pods, {}, key) {
        var pod :| pod in pods && key == pod + ".cfg";
        assert IsPod(name, n, pod);
        var i :| 0 <= i < n && pod == PodName(name, i);
        assert key == ConfigKey(name, i);
      }
      if IsKey(name, n, key) {
        var i :| 0 <= i < n && key == ConfigKey(name, i);
        assert IsPod(name, n, PodName(name, i));
        assert PodName(name, i) in pods && PodName(name, i) !in {};
      }
    }
    forall key ensures key in r <==> key in Merged(data, name, n, text) {
      MergedExactly(data, name, n, text, key);
    }
    forall key | key in r ensures r[key] == Merged(data, name, n, text)[key] {
      MergedExactly(data, name, n, text, key);
    }
  }

  /** The mutate callback: every config is written under its key, in any order. */
  method MergeData(data: map<string, string>, configMap: map<string, string>, ghost name: string, ghost n: nat, ghost text: string)
    returns (r: map<string, string>)
    requires configMap == PodConfigs(name, n, text)
    ensures r == Merged(data, name, n, text)
  {
    PodConfigsExactly(name, n, text);
    r := data;
    var todo := configMap.Keys;
    while todo != {}
      invariant todo <= configMap.Keys
      invariant HalfMerged(data, configMap.Keys, todo, text, r)
      decreases |todo|
    {
      var podName :| podName in todo;
      HalfMergedStep(data, configMap.Keys, todo, text, r, podName);
      r := r[podName + ".cfg" := configMap[podName]];
      todo := todo - {podName};
    }
    HalfMergedEnds(data, name, n, text, r);
  }

  // ------------------------------------------------------------- one pass

  /** The listing made for the frontend at a position, with its selector; `None` if
      the selector is malformed or the listing fails. Each frontend has a listing of
      its own, so equal selectors may list differently. */
  type Lister = (nat, Selector) -> Option<seq<Backend>>

  /** The map that `getBackends` returns: a later frontend of the same name wins. */
  function BackendsFound(fs: seq<Frontend>, lister: Lister): (r: Option<BackendMap>) {
    if fs == [] then Some(map[])
    else
      var n := |fs| - 1;
      var front := BackendsFound(fs[..n], lister);
      var listed := lister(n, fs[n].selector);
      if front.None? || listed.None? then None else Some(front.value[fs[n].key.name := listed.value])
  }

  method GetBackends(fs: seq<Frontend>, lister: Lister) returns (r: Option<BackendMap>)
    ensures r == BackendsFound(fs, lister)
  {
    var backendMap: BackendMap := map[];
    for i := 0 to |fs|
      invariant BackendsFound(fs[..i], lister) == Some(backendMap)
    {
      assert fs[..i + 1][..i] == fs[..i];
      var listed := lister(i, fs[i].selector);
      if listed.None? {
        FailurePersists(fs, lister, i + 1);
        return None;
      }
      backendMap := backendMap[fs[i].key.name := listed.value];
    }
    assert fs[..|fs|] == fs;
    return Some(backendMap);
  }

  lemma {:induction false} FailurePersists(fs: seq<Frontend>, lister: Lister, i: nat)
    requires i <= |fs| && BackendsFound(fs[..i], lister) == None
    ensures BackendsFound(fs, lister) == None
    decreases |fs| - i
  {
    if i == |fs| {
      assert fs[..i] == fs;
    } else {
      assert fs[..i + 1][..i] == fs[..i];
      FailurePersists(fs, lister, i + 1);
    }
  }

  /** Frontend `i` is the last one of its name. */
  ghost predicate IsLastOfName(fs: seq<Frontend>, i: int, name: string) {
    && 0 <= i < |fs| && fs[i].key.name == name
    && forall j :: i < j < |fs| ==> fs[j].key.name != name
  }

  /** The call succeeds exactly if every listing does. */
  lemma {:induction false} BackendsFoundIff(fs: seq<Frontend>, lister: Lister)
    ensures BackendsFound(fs, lister).Some? <==> forall i :: 0 <= i < |fs| ==> lister(i, fs[i].selector).Some?
  {
    if fs != [] {
      var n := |fs| - 1;
      BackendsFoundIff(fs[..n], lister);
      assert forall i :: 0 <= i < n ==> fs[..n][i] == fs[i];
    }
  }

  /** ... and then holds, for each name of a frontend and no other, the listing of the
      last frontend of that name. */
  lemma {:induction false} BackendsFoundExactly(fs: seq<Frontend>, lister: Lister, name: string)
    requires BackendsFound(fs, lister).Some?
    ensures name in BackendsFound(fs, lister).value <==> exists i :: IsLastOfName(fs, i, name)
    ensures forall i :: IsLastOfName(fs, i, name) && name in BackendsFound(fs, lister).value ==>
      lister(i, fs[i].selector) == Some(BackendsFound(fs, lister).value[name])
  {
    if fs != [] {
      var n := |fs| - 1;
      BackendsFoundExactly(fs[..n], lister, name);
      forall i ensures IsLastOfName(fs, i, name) <==>
        if fs[n].key.name == name then i == n else IsLastOfName(fs[..n], i, name)
      {
        LastOfNameStep(fs, i, name);
      }
      if fs[n].key.name == name {
        assert IsLastOfName(fs, n, name);
      }
    }
  }

  lemma LastOfNameStep(fs: seq<Frontend>, i: int, name: string)
    requires fs != []
    ensures var n := |fs| - 1;
      IsLastOfName(fs, i, name) <==> if fs[n].key.name == name then i == n else IsLastOfName(fs[..n], i, name)
  {
  }

  /** With distinct names, each frontend gets exactly the backends of its own
      listing. */
  lemma {:induction false} EachFrontendItsBackends(fs: seq<Frontend>, lister: Lister, i: nat)
    requires i < |fs| && BackendsFound(fs, lister).Some?
    requires forall j, k :: 0 <= j < k < |fs| ==> fs[j].key.name != fs[k].key.name
    ensures lister(i, fs[i].selector) == Some(BackendsOf(BackendsFound(fs, lister).value, fs[i]))
  {
    var n := |fs| - 1;
    if i < n {
      EachFrontendItsBackends(fs[..n], lister, i);
      assert fs[i].key.name != fs[n].key.name;
    }
  }

  lemma FoundForTwo(f: Frontend, g: Frontend, lister: Lister, forF: seq<Backend>, forG: seq<Backend>)
    requires lister(0, f.selector) == Some(forF) && lister(1, g.selector) == Some(forG)
    ensures BackendsFound([f, g], lister) == Some(map[f.key.name := forF, g.key.name := forG])
  {
    assert [f, g][..1] == [f] && [f][..0] == [];
    assert BackendsFound([f], lister) == Some(map[f.key.name := forF]);
  }

  /** The failing side of routing: a backend that was edited between the listings
      for two frontends, whose selectors may be the same, sends the connections of
      the later one to the earlier servers. */
  lemma EditedBackendMisroutes(
    f: Frontend, g: Frontend, lister: Lister, b: Backend, servers: seq<Server>, sni: string, same: Routing.HostTest)
    requires lister(0, f.selector) == Some([b]) && lister(1, g.selector) == Some([b.(servers := servers)])
    requires IsToken(f.key.name) && IsToken(g.key.name) && f.key.name != g.key.name
    requires g.key.name != "stats" && g.key.name != "prometheus"
    requires Routing.CleanBackend(b) && Routing.CleanBackend(b.(servers := servers)) && b.servers != servers && same(b.host, sni)
    ensures BackendsFound([f, g], lister).Some?
    ensures var backends := BackendsFound([f, g], lister).value;
      && Routing.SourceRoute([f, g], backends, g.key.name, sni, same) == Some(servers)
      && Routing.Route(Read(ConfigText([f, g], backends)), g.key.name, sni, same) == Some(b.servers)
  {
    FoundForTwo(f, g, lister, [b], [b.(servers := servers)]);
    Routing.EarlierListingWins(f, g, b, servers, sni, same);
  }

  datatype Outcome = Succeeded | Failed | Panicked

  class ConfigReconciler {
    var stored: Stored

    constructor ()
      ensures stored == Absent
    {
      stored := Absent;
    }

    method ReconcileConfig(lb: LoadBalancer, items: Option<seq<Frontend>>, lister: Lister, reachable: bool) returns (outcome: Outcome)
      modifies this
      ensures var n := Count(lb.replicas);
        if items.None? then outcome == Failed && stored == old(stored)
        else
          var fs := Allocator.Filtered(items.value, lb.key, false);
          var backends := BackendsFound(fs, lister);
          if backends.None? then outcome == Failed && stored == old(stored)
          else
            && stored == StoredAfter(old(stored), lb.key.name, n, ConfigText(fs, backends.value), reachable)
            && outcome == if Panics(old(stored), n) then Panicked else if reachable then Succeeded else Failed
    {
      if items.None? {
        return Failed;
      }
      var fs := Allocator.GetFrontends(items.value, lb.key, false);
      var backends := GetBackends(fs, lister);
      if backends.None? {
        return Failed;
      }
      var configMap := BuildConfig(lb, fs, backends.value);
      outcome := Store(configMap, reachable, lb.key.name, Count(lb.replicas), ConfigText(fs, backends.value));
    }

    /** Creating or updating the ConfigMap. */
    method Store(configMap: map<string, string>, reachable: bool, ghost name: string, ghost n: nat, ghost text: string) returns (outcome: Outcome)
      requires configMap == PodConfigs(name, n, text)
      modifies this
      ensures stored == StoredAfter(old(stored), name, n, text, reachable)
      ensures outcome == if Panics(old(stored), n) then Panicked else if reachable then Succeeded else Failed
    {
      PodConfigsExactly(name, n, text);
      assert n > 0 ==> IsPod(name, n, PodName(name, 0));
      if stored == Present(map[]) && configMap != map[] {
        return Panicked;
      }
      if !reachable {
        return Failed;
      }
      var data := MergeData(DataOf(stored), configMap, name, n, text);
      stored := Present(data);
      return Succeeded;
    }
  }

  // --------------------------------------------------------------- over runs

  /** A pass: the replica count of its load balancer, the text, and whether the server
      answers the write. */
  datatype ConfigPass = ConfigPass(replicas: int32, text: string, reachable: bool)

  function After(name: string, passes: seq<ConfigPass>): (r: Stored) {
    if passes == [] then Absent
    else
      var last := passes[|passes| - 1];
      StoredAfter(After(name, passes[..|passes| - 1]), name, Count(last.replicas), last.text, last.reachable)
  }

  /** Pass `j` was stored. */
  ghost predicate Effective(name: string, passes: seq<ConfigPass>, j: int) {
    0 <= j < |passes| && passes[j].reachable && !(After(name, passes[..j]) == Present(map[]) && passes[j].replicas > 0)
  }

  /** Pass `j` is the last stored one that covers ordinal `i`. */
  ghost predicate LastWriter(name: string, passes: seq<ConfigPass>, i: nat, j: int) {
    && Effective(name, passes, j) && i < passes[j].replicas
    && forall l :: j < l < |passes| && Effective(name, passes, l) ==> passes[l].replicas <= i
  }

  lemma KeyOfOrdinal(name: string, n: nat, i: nat)
    ensures IsKey(name, n, ConfigKey(name, i)) <==> i < n
  {
    if IsKey(name, n, ConfigKey(name, i)) {
      var j :| 0 <= j < n && ConfigKey(name, i) == ConfigKey(name, j);
      KeysNeverCollide(name, i, j);
    }
  }

  lemma EffectiveStep(name: string, passes: seq<ConfigPass>, j: int)
    requires passes != [] && j != |passes| - 1
    ensures Effective(name, passes, j) <==> Effective(name, passes[..|passes| - 1], j)
  {
    if 0 <= j < |passes| - 1 {
      assert passes[..|passes| - 1][..j] == passes[..j];
    }
  }

  lemma LastWriterStep(name: string, passes: seq<ConfigPass>, i: nat, j: int)
    requires passes != []
    ensures var m := |passes| - 1;
      LastWriter(name, passes, i, j) <==>
        if Effective(name, passes, m) && i < passes[m].replicas then j == m
        else LastWriter(name, passes[..m], i, j)
  {
    var m := |passes| - 1;
    if j != m { EffectiveStep(name, passes, j); }
    forall l | j < l < m ensures Effective(name, passes, l) <==> Effective(name, passes[..m], l) {
      EffectiveStep(name, passes, l);
    }
  }

  /** Config keys over runs, exactly: the key of ordinal `i` holds the text of the
      last stored pass whose replica count exceeds `i`, and is absent if there is
      none. */
  lemma {:induction false} KeyHoldsLastWriter(name: string, passes: seq<ConfigPass>, i: nat)
    ensures var data := DataOf(After(name, passes));
      ConfigKey(name, i) in data <==> exists j :: LastWriter(name, passes, i, j)
    ensures var data := DataOf(After(name, passes));
      forall j :: LastWriter(name, passes, i, j) && ConfigKey(name, i) in data ==> data[ConfigKey(name, i)] == passes[j].text
  {
    if passes != [] {
      var m := |passes| - 1;
      var last := passes[m];
      var front := passes[..m];
      var key := ConfigKey(name, i);
      KeyHoldsLastWriter(name, front, i);
      MergedExactly(DataOf(After(name, front)), name, Count(last.replicas), last.text, key);
      KeyOfOrdinal(name, Count(last.replicas), i);
      forall j ensures LastWriter(name, passes, i, j) <==>
        if Effective(name, passes, m) && i < last.replicas then j == m else LastWriter(name, front, i, j)
      {
        LastWriterStep(name, passes, i, j);
      }
      if Effective(name, passes, m) && i < last.replicas {
        assert LastWriter(name, passes, i, m);
      } else {
        assert key in DataOf(After(name, passes)) <==> key in DataOf(After(name, front));
        assert (exists j :: LastWriter(name, front, i, j)) <==> exists j :: LastWriter(name, passes, i, j);
      }
    }
  }

  /** The name of a pod: the StatefulSet's name and the pod's ordinal. */
  function StatefulPod(name: string, i: int): (r: string) {
    (name + "-haproxy") + "-" + Itoa(i)
  }

  /** The file that the container of a pod reads. */
  function ConfigPath(pod: string): (r: string) {
    "/etc/haproxy/static/" + pod + ".cfg"
  }

  /** The file at a path, with the ConfigMap mounted: one file per key. */
  function FileAt(data: map<string, string>, path: string): (r: Option<string>) {
    var mount := "/etc/haproxy/static/";
    if mount <= path && path[|mount|..] in data then Some(data[path[|mount|..]]) else None
  }

  /** The file that a pod reads is the one of its ordinal's key. */
  lemma PodReadsItsKey(data: map<string, string>, name: string, i: int)
    ensures FileAt(data, ConfigPath(StatefulPod(name, i))) ==
      if ConfigKey(name, i) in data then Some(data[ConfigKey(name, i)]) else None
  {
    var path := ConfigPath(StatefulPod(name, i));
    assert StatefulPod(name, i) == PodName(name, i);
    assert path[|"/etc/haproxy/static/"|..] == ConfigKey(name, i);
  }

  /** After a stored pass every pod with an ordinal below its count reads the latest
      config. */
  lemma LatestPassIsServed(name: string, passes: seq<ConfigPass>, i: nat)
    requires Effective(name, passes, |passes| - 1) && i < passes[|passes| - 1].replicas
    ensures After(name, passes).Present?
    ensures FileAt(After(name, passes).data, ConfigPath(StatefulPod(name, i))) == Some(passes[|passes| - 1].text)
  {
    var m := |passes| - 1;
    LastWriterStep(name, passes, i, m);
    KeyHoldsLastWriter(name, passes, i);
    assert LastWriter(name, passes, i, m);
    PodReadsItsKey(After(name, passes).data, name, i);
  }

  /** No key is ever removed. */
  lemma KeysAreKept(name: string, passes: seq<ConfigPass>, key: string)
    requires passes != []
    ensures key in DataOf(After(name, passes[..|passes| - 1])) ==> key in DataOf(After(name, passes))
  {
    var m := |passes| - 1;
    MergedExactly(DataOf(After(name, passes[..m])), name, Count(passes[m].replicas), passes[m].text, key);
  }

  lemma MergeFillsData(data: map<string, string>, name: string, n: nat, text: string)
    ensures Merged(data, name, n, text) == map[] <==> data == map[] && n == 0
  {
    if n > 0 {
      MergedExactly(data, name, n, text, ConfigKey(name, 0));
      KeyOfOrdinal(name, n, 0);
      assert ConfigKey(name, 0) in Merged(data, name, n, text);
    }
  }

  /** A ConfigMap whose data is empty stays so for ever: every later pass with a
      replica panics. It comes about exactly when the first stored pass had no
      replicas. */
  lemma {:induction false} EmptyStuckExactly(name: string, passes: seq<ConfigPass>)
    ensures After(name, passes) == Present(map[]) <==> exists j :: FirstStoredWithout(passes, j)
    ensures After(name, passes) == Absent <==> NoneStored(passes)
  {
    if passes != [] {
      var m := |passes| - 1;
      var front := passes[..m];
      EmptyStuckExactly(name, front);
      MergeFillsData(DataOf(After(name, front)), name, Count(passes[m].replicas), passes[m].text);
      forall j ensures FirstStoredWithout(passes, j) <==>
        FirstStoredWithout(front, j) || (j == m && NoneStored(front) && passes[m].reachable && passes[m].replicas <= 0)
      {
        FirstStoredStep(passes, j);
      }
      if NoneStored(front) && passes[m].reachable && passes[m].replicas <= 0 {
        assert FirstStoredWithout(passes, m);
      }
      assert NoneStored(passes) <==> NoneStored(front) && !passes[m].reachable;
    }
  }

  ghost predicate NoneStored(passes: seq<ConfigPass>) {
    forall l :: 0 <= l < |passes| ==> !passes[l].reachable
  }

  /** Pass `j` is the first one stored, and had no replicas. */
  ghost predicate FirstStoredWithout(passes: seq<ConfigPass>, j: int) {
    0 <= j < |passes| && passes[j].reachable && passes[j].replicas <= 0 && NoneStored(passes[..j])
  }

  lemma FirstStoredStep(passes: seq<ConfigPass>, j: int)
    requires passes != []
    ensures var m := |passes| - 1;
      FirstStoredWithout(passes, j) <==>
        FirstStoredWithout(passes[..m], j) || (j == m && NoneStored(passes[..m]) && passes[m].reachable && passes[m].replicas <= 0)
  {
    var m := |passes| - 1;
    if 0 <= j < m { assert passes[..m][..j] == passes[..j]; }
  }
}
