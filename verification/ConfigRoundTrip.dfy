/** The emitted text read back: every section in order, and routing by the text
    equal to routing by the source objects. */
module ConfigRoundTrip {
  import opened Common
  import opened Api
  import opened Text
  import opened ConfigBuilder

  // -------------------------------------------------------- what is expected

  ghost predicate CleanServer(s: Server) {
    IsToken(s.name) && forall i :: 0 <= i < |s.address| ==> !IsSpace(s.address[i])
  }

  ghost predicate CleanBackend(b: Backend) {
    IsToken(b.name) && IsToken(b.host) && forall i :: 0 <= i < |b.servers| ==> CleanServer(b.servers[i])
  }

  ghost predicate CleanBackends(bs: seq<Backend>) {
    forall i :: 0 <= i < |bs| ==> CleanBackend(bs[i])
  }

  /** Names, hosts and addresses hold no white space. */
  ghost predicate Clean(fs: seq<Frontend>, backends: BackendMap) {
    forall i :: 0 <= i < |fs| ==> IsToken(fs[i].key.name) && CleanBackends(BackendsOf(backends, fs[i]))
  }

  function RulesOf(bs: seq<Backend>): (r: seq<Rule>)
    ensures |r| == |bs|
    ensures forall i :: 0 <= i < |bs| ==> r[i] == Rule(bs[i].name, bs[i].host)
  {
    if bs == [] then [] else
      var n := |bs| - 1;
      RulesOf(bs[..n]) + [Rule(bs[n].name, bs[n].host)]
  }

  function BackendSections(bs: seq<Backend>): (r: seq<Section>)
    ensures |r| == |bs|
    ensures forall i :: 0 <= i < |bs| ==> r[i] == BackendSection(bs[i].name, bs[i].servers, "tcp")
  {
    if bs == [] then [] else
      var n := |bs| - 1;
      BackendSections(bs[..n]) + [BackendSection(bs[n].name, bs[n].servers, "tcp")]
  }

  /** A frontend section followed by the sections of its backends. */
  function BlockOf(f: Frontend, bs: seq<Backend>): (r: seq<Section>) {
    [FrontendSection(f.key.name, [HostPort("*", f.servicePort)], RulesOf(bs), Inspecting())] + BackendSections(bs)
  }

  function SectionsOf(fs: seq<Frontend>, backends: BackendMap): (r: seq<Section>) {
    if fs == [] then []
    else
      var n := |fs| - 1;
      SectionsOf(fs[..n], backends) + BlockOf(fs[n], BackendsOf(backends, fs[n]))
  }

  function PreambleSections(): (r: seq<Section>) {
    [OtherSection("global"), OtherSection("defaults"),
     FrontendSection("stats", [HostPort("", 8404)], [], Setup("http", None, false)),
     FrontendSection("prometheus", [HostPort("", 8405)], [], Setup("http", None, false))]
  }

  // ------------------------------------------------------------ each block

  lemma {:induction false} FeedAllRules(sections: seq<Section>, name: string, binds: seq<HostPort>, setup: Setup, bs: seq<Backend>)
    requires CleanBackends(bs)
    ensures FeedLines(sections + [FrontendSection(name, binds, [], setup)], AllRules(bs))
         == sections + [FrontendSection(name, binds, RulesOf(bs), setup)]
    decreases |bs|
  {
    if bs != [] {
      var n := |bs| - 1;
      FeedAllRules(sections, name, binds, setup, bs[..n]);
      FeedConcat(sections + [FrontendSection(name, binds, [], setup)], AllRules(bs[..n]), RuleLines(bs[n]));
      FeedRule(sections, name, binds, RulesOf(bs[..n]), setup, bs[n]);
    }
  }

  lemma {:induction false} FeedAllServers(sections: seq<Section>, name: string, mode: string, ss: seq<Server>)
    requires forall i :: 0 <= i < |ss| ==> CleanServer(ss[i])
    ensures FeedLines(sections + [BackendSection(name, [], mode)], AllServers(ss)) == sections + [BackendSection(name, ss, mode)]
    decreases |ss|
  {
    if ss != [] {
      var n := |ss| - 1;
      FeedAllServers(sections, name, mode, ss[..n]);
      FeedConcat(sections + [BackendSection(name, [], mode)], AllServers(ss[..n]), ServerLines(ss[n]));
      FeedServer(sections, name, ss[..n], mode, ss[n]);
      assert ss == ss[..n] + [ss[n]];
    }
  }

  ghost predicate InertLine(line: string) {
    Inert(Words(line)) && OneLine(line)
  }

  ghost predicate InertLines(lines: seq<string>) {
    forall i :: 0 <= i < |lines| ==> InertLine(lines[i])
  }

  /** A directive made of words, which no section reacts to. */
  ghost predicate Idle(words: seq<string>) {
    AllTokens(words) && Inert(words)
  }

  ghost predicate AllIdle(directives: seq<seq<string>>) {
    forall i :: 0 <= i < |directives| ==> Idle(directives[i])
  }

  lemma IdleLine(words: seq<string>)
    requires Idle(words)
    ensures InertLine(DirectiveLine(words))
  {
    if words != [] {
      WordsOfIndented(words);
    }
  }

  lemma IdleLines(directives: seq<seq<string>>)
    requires AllIdle(directives)
    ensures InertLines(DirectiveLines(directives))
  {
    forall i | 0 <= i < |directives| ensures InertLine(DirectiveLine(directives[i])) {
      IdleLine(directives[i]);
    }
  }

  /** Two or more words are idle if the first one starts with a letter that no
      directive of interest starts with, or is too short for it. */
  lemma IdleWords(words: seq<string>)
    requires AllTokens(words) && |words| >= 2
    requires words[0][0] != 'f' && words[0][0] != 'b' && words[0][0] != 'u' && words[0][0] != 'm'
    requires words[0] != "server" && words[0] != "tcp-request"
    ensures Idle(words)
  {
    assert "frontend"[0] == 'f' && "backend"[0] == 'b' && "bind"[0] == 'b' && "use_backend"[0] == 'u' && "mode"[0] == 'm';
  }

  lemma FeedBackend(sections: seq<Section>, b: Backend)
    requires CleanBackend(b)
    ensures FeedLines(sections, BackendLines(b) + AllServers(b.servers)) == sections + [BackendSection(b.name, b.servers, "tcp")]
  {
    FeedConcat(sections, BackendLines(b), AllServers(b.servers));
    OpenBackend(sections, b.name);
    FeedBackendMode(sections, ["", Unwords(["backend", b.name])], sections, b.name);
    FeedAllServers(sections, b.name, "tcp", b.servers);
  }

  lemma {:induction false} FeedAllBackends(sections: seq<Section>, bs: seq<Backend>)
    requires CleanBackends(bs)
    ensures FeedLines(sections, AllBackends(bs)) == sections + BackendSections(bs)
    decreases |bs|
  {
    if bs == [] {
      assert sections + [] == sections;
    } else {
      var n := |bs| - 1;
      var b := bs[n];
      FeedAllBackends(sections, bs[..n]);
      FeedConcat(sections, AllBackends(bs[..n]), BackendLines(b) + AllServers(b.servers));
      FeedBackend(sections + BackendSections(bs[..n]), b);
      ConcatAssociative(sections, BackendSections(bs[..n]), [BackendSection(b.name, b.servers, "tcp")]);
    }
  }

  lemma IdleOption(what: string)
    requires IsToken(what)
    ensures Idle(["option", what])
  {
    assert IsToken("option");
    IdleWords(["option", what]);
  }

  lemma AllIdleOne(a: seq<string>)
    requires Idle(a)
    ensures AllIdle([a])
  {
  }

  lemma AllIdleConcat(a: seq<seq<string>>, b: seq<seq<string>>)
    requires AllIdle(a) && AllIdle(b)
    ensures AllIdle(a + b)
  {
  }

  lemma AllIdleThree(a: seq<string>, b: seq<string>, c: seq<string>)
    requires Idle(a) && Idle(b) && Idle(c)
    ensures AllIdle([a, b, c])
  {
  }

  lemma AllIdleTwo(a: seq<string>, b: seq<string>)
    requires Idle(a) && Idle(b)
    ensures AllIdle([a, b])
  {
  }

  lemma LoggingIsIdle()
    ensures InertLines(DirectiveLines([["option", "tcplog"], []]))
  {
    assert IsToken("tcplog");
    IdleOption("tcplog");
    AllIdleTwo(["option", "tcplog"], []);
    IdleLines([["option", "tcplog"], []]);
  }

  lemma AllIdleSix(a: seq<string>, b: seq<string>, c: seq<string>, d: seq<string>, e: seq<string>, f: seq<string>)
    requires Idle(a) && Idle(b) && Idle(c) && Idle(d) && Idle(e) && Idle(f)
    ensures AllIdle([a, b, c, d, e, f])
  {
    AllIdleThree(a, b, c);
    AllIdleThree(d, e, f);
    AllIdleConcat([a, b, c], [d, e, f]);
    assert [a, b, c] + [d, e, f] == [a, b, c, d, e, f];
  }

  /** A frontend header and its bind line. */
  lemma FeedHeader(sections: seq<Section>, name: string, hp: HostPort)
    requires IsToken(name) && forall i :: 0 <= i < |hp.host| ==> !IsSpace(hp.host[i])
    ensures FeedLines(sections, ["", Unwords(["frontend", name])] + [BindLine(hp.host, hp.port)])
         == sections + [FrontendSection(name, [hp], [], Unset())]
  {
    FeedConcat(sections, ["", Unwords(["frontend", name])], [BindLine(hp.host, hp.port)]);
    OpenFrontend(sections, name);
    FeedBind(sections, name, hp, Unset());
  }

  /** ... and the lines that make it wait for a client hello. */
  lemma FeedInspecting(start: seq<Section>, head: seq<string>, sections: seq<Section>, name: string, binds: seq<HostPort>)
    requires FeedLines(start, head) == sections + [FrontendSection(name, binds, [], Setup("tcp", None, false))]
    ensures FeedLines(start, head + [Indented(DelayWords())] + [Indented(AcceptWords())])
         == sections + [FrontendSection(name, binds, [], Inspecting())]
  {
    DelayTokens();
    AcceptTokens();
    FeedMore(start, head, sections, FrontendSection(name, binds, [], Setup("tcp", None, false)), DelayWords());
    DelayExtends(name, binds);
    FeedMore(start, head + [Indented(DelayWords())], sections, FrontendSection(name, binds, [], Setup("tcp", Some("5s"), false)), AcceptWords());
    AcceptExtends(name, binds);
  }

  lemma BlankIsInert()
    ensures InertLines([""])
  {
  }

  lemma FeedFrontendHead(sections: seq<Section>, f: Frontend)
    requires IsToken(f.key.name)
    ensures FeedLines(sections, FrontendLines(f)) ==
      sections + [FrontendSection(f.key.name, [HostPort("*", f.servicePort)], [], Inspecting())]
  {
    var name, hp := f.key.name, HostPort("*", f.servicePort);
    var opening := ["", Unwords(["frontend", name])] + [BindLine("*", f.servicePort)];
    var logging := DirectiveLines([["option", "tcplog"], []]);
    FeedHeader(sections, name, hp);
    FeedFrontendMode(sections, opening, sections, name, [hp], "tcp");
    LoggingIsIdle();
    FeedThenInert(sections, opening + [ModeLine("tcp")], logging);
    FeedInspecting(sections, opening + [ModeLine("tcp")] + logging, sections, name, [hp]);
    BlankIsInert();
    FeedThenInert(sections, opening + [ModeLine("tcp")] + logging + [Indented(DelayWords())] + [Indented(AcceptWords())], [""]);
  }

  lemma FeedThenInert(sections: seq<Section>, head: seq<string>, rest: seq<string>)
    requires InertLines(rest)
    ensures FeedLines(sections, head + rest) == FeedLines(sections, head)
  {
    FeedConcat(sections, head, rest);
    FeedInert(FeedLines(sections, head), rest);
  }

  lemma FeedBlock(sections: seq<Section>, f: Frontend, bs: seq<Backend>)
    requires IsToken(f.key.name) && CleanBackends(bs)
    ensures FeedLines(sections, BlockLines(f, bs)) == sections + BlockOf(f, bs)
  {
    var binds := [HostPort("*", f.servicePort)];
    FeedConcat(sections, FrontendLines(f) + AllRules(bs), AllBackends(bs));
    FeedConcat(sections, FrontendLines(f), AllRules(bs));
    FeedFrontendHead(sections, f);
    FeedAllRules(sections, f.key.name, binds, Inspecting(), bs);
    var section := FrontendSection(f.key.name, binds, RulesOf(bs), Inspecting());
    FeedAllBackends(sections + [section], bs);
    ConcatAssociative(sections, [section], BackendSections(bs));
  }

  lemma {:induction false} FeedAllFrontends(sections: seq<Section>, fs: seq<Frontend>, backends: BackendMap)
    requires Clean(fs, backends)
    ensures FeedLines(sections, AllFrontends(fs, backends)) == sections + SectionsOf(fs, backends)
    decreases |fs|
  {
    if fs == [] {
      assert sections + [] == sections;
    } else {
      var n := |fs| - 1;
      var f := fs[n];
      var bs := BackendsOf(backends, f);
      FeedAllFrontends(sections, fs[..n], backends);
      FeedConcat(sections, AllFrontends(fs[..n], backends), BlockLines(f, bs));
      FeedBlock(sections + SectionsOf(fs[..n], backends), f, bs);
      ConcatAssociative(sections, SectionsOf(fs[..n], backends), BlockOf(f, bs));
    }
  }

  // -------------------------------------------------------- the preamble

  lemma GlobalIsIdle()
    ensures InertLines(DirectiveLines(GlobalRest()))
  {
    assert IsToken("log") && IsToken("stdout") && IsToken("format") && IsToken("raw") && IsToken("local0");
    IdleWords(["log", "stdout", "format", "raw", "local0"]);
    AllIdleOne(["log", "stdout", "format", "raw", "local0"]);
    IdleLines(GlobalRest());
  }

  lemma IdleTimeout(what: string, time: string)
    requires IsToken(what) && IsToken(time)
    ensures Idle(["timeout", what, time])
  {
    assert IsToken("timeout");
    IdleWords(["timeout", what, time]);
  }

  lemma IdleLogGlobal()
    ensures Idle(["log", "global"])
  {
    assert IsToken("log") && IsToken("global");
    IdleWords(["log", "global"]);
  }

  lemma TimeoutTokens()
    ensures IsToken("connect") && IsToken("client") && IsToken("client-fin") && IsToken("server") && IsToken("tunnel")
    ensures IsToken("5s") && IsToken("50s") && IsToken("1h") && IsToken("dontlognull")
  {
  }

  lemma DefaultsAreIdle()
    ensures InertLines(DirectiveLines(DefaultsRest()))
  {
    TimeoutTokens();
    IdleLogGlobal();
    IdleOption("dontlognull");
    IdleTimeout("connect", "5s");
    IdleTimeout("client", "50s");
    IdleTimeout("client-fin", "50s");
    IdleTimeout("server", "50s");
    IdleTimeout("tunnel", "1h");
    AllIdleSix(["log", "global"], ["option", "dontlognull"], ["timeout", "connect", "5s"],
               ["timeout", "client", "50s"], ["timeout", "client-fin", "50s"], ["timeout", "server", "50s"]);
    AllIdleOne(["timeout", "tunnel", "1h"]);
    AllIdleConcat([["log", "global"], ["option", "dontlognull"], ["timeout", "connect", "5s"],
                   ["timeout", "client", "50s"], ["timeout", "client-fin", "50s"], ["timeout", "server", "50s"]],
                  [["timeout", "tunnel", "1h"]]);
    IdleLines(DefaultsRest());
  }

  lemma IdleStatsOne(word: string)
    requires IsToken(word)
    ensures Idle(["stats", word])
  {
    assert IsToken("stats");
    assert |"stats"| != |"server"|;
    IdleWords(["stats", word]);
  }

  lemma IdleStatsTwo(word: string, value: string)
    requires IsToken(word) && IsToken(value)
    ensures Idle(["stats", word, value])
  {
    assert IsToken("stats");
    assert |"stats"| != |"server"|;
    IdleWords(["stats", word, value]);
  }

  lemma StatsTokens()
    ensures IsToken("enable") && IsToken("refresh") && IsToken("10s") && IsToken("uri") && IsToken("/stats") && IsToken("show-modules")
  {
  }

  lemma StatsAreIdle()
    ensures InertLines(DirectiveLines(StatsRest()))
  {
    StatsTokens();
    IdleStatsOne("enable");
    IdleStatsTwo("refresh", "10s");
    IdleStatsTwo("uri", "/stats");
    IdleStatsOne("show-modules");
    AllIdleThree(["stats", "enable"], ["stats", "refresh", "10s"], ["stats", "uri", "/stats"]);
    AllIdleOne(["stats", "show-modules"]);
    AllIdleConcat([["stats", "enable"], ["stats", "refresh", "10s"], ["stats", "uri", "/stats"]], [["stats", "show-modules"]]);
    IdleLines(StatsRest());
  }

  lemma IdleExporter()
    ensures Idle(["http-request", "use-service", "prometheus-exporter"])
  {
    assert IsToken("http-request") && IsToken("use-service") && IsToken("prometheus-exporter");
    IdleWords(["http-request", "use-service", "prometheus-exporter"]);
  }

  lemma IdleNoLog()
    ensures Idle(["no", "log"])
  {
    assert IsToken("no") && IsToken("log");
    IdleWords(["no", "log"]);
  }

  lemma PrometheusIsIdle()
    ensures InertLines(DirectiveLines(PrometheusRest()))
  {
    IdleExporter();
    IdleNoLog();
    AllIdleTwo(["http-request", "use-service", "prometheus-exporter"], ["no", "log"]);
    IdleLines(PrometheusRest());
  }

  lemma OpenOther(sections: seq<Section>, name: string)
    requires name == "global" || name == "defaults"
    ensures FeedLines(sections, ["", name]) == sections + [OtherSection(name)]
  {
    assert IsToken("global") && IsToken("defaults");
    WordsOfUnwords([name]);
    assert Unwords([name]) == name;
    FeedBlank(sections, name);
  }

  lemma FeedGlobal()
    ensures FeedLines([], GlobalLines()) == [OtherSection("global")]
  {
    GlobalIsIdle();
    FeedConcat([], ["", "global"], DirectiveLines(GlobalRest()));
    OpenOther([], "global");
    FeedInert([] + [OtherSection("global")], DirectiveLines(GlobalRest()));
  }

  lemma FeedDefaults(sections: seq<Section>)
    ensures FeedLines(sections, DefaultsLines()) == sections + [OtherSection("defaults")]
  {
    DefaultsAreIdle();
    FeedConcat(sections, ["", "defaults"], DirectiveLines(DefaultsRest()));
    OpenOther(sections, "defaults");
    FeedInert(sections + [OtherSection("defaults")], DirectiveLines(DefaultsRest()));
  }

  lemma FeedStatsHead(sections: seq<Section>)
    ensures FeedLines(sections, ["", Unwords(["frontend", "stats"])] + [ModeLine("http")] + [BindLine("", 8404)])
         == sections + [FrontendSection("stats", [HostPort("", 8404)], [], Setup("http", None, false))]
  {
    var header := ["", Unwords(["frontend", "stats"])];
    assert IsToken("stats");
    OpenFrontend(sections, "stats");
    FeedFrontendMode(sections, header, sections, "stats", [], "http");
    FeedConcat(sections, header + [ModeLine("http")], [BindLine("", 8404)]);
    FeedBind(sections, "stats", HostPort("", 8404), Setup("http", None, false));
  }

  lemma FeedStats(sections: seq<Section>)
    ensures FeedLines(sections, StatsLines()) ==
      sections + [FrontendSection("stats", [HostPort("", 8404)], [], Setup("http", None, false))]
  {
    FeedStatsHead(sections);
    StatsAreIdle();
    FeedThenInert(sections, ["", Unwords(["frontend", "stats"])] + [ModeLine("http")] + [BindLine("", 8404)], DirectiveLines(StatsRest()));
  }

  lemma FeedPrometheus(sections: seq<Section>)
    ensures FeedLines(sections, PrometheusLines()) ==
      sections + [FrontendSection("prometheus", [HostPort("", 8405)], [], Setup("http", None, false))]
  {
    var opening := ["", Unwords(["frontend", "prometheus"])] + [BindLine("", 8405)];
    assert IsToken("prometheus");
    FeedHeader(sections, "prometheus", HostPort("", 8405));
    FeedFrontendMode(sections, opening, sections, "prometheus", [HostPort("", 8405)], "http");
    PrometheusIsIdle();
    FeedThenInert(sections, opening + [ModeLine("http")], DirectiveLines(PrometheusRest()));
  }

  lemma FeedFour(a: seq<string>, b: seq<string>, c: seq<string>, d: seq<string>, p: Section, q: Section, r: Section, s: Section)
    requires FeedLines([], a) == [p]
    requires FeedLines([p], b) == [p] + [q]
    requires FeedLines([p] + [q], c) == [p] + [q] + [r]
    requires FeedLines([p] + [q] + [r], d) == [p] + [q] + [r] + [s]
    ensures FeedLines([], a + b + c + d) == [p, q, r, s]
  {
    FeedConcat([], a + b + c, d);
    FeedConcat([], a + b, c);
    FeedConcat([], a, b);
  }

  lemma FeedPreamble()
    ensures FeedLines([], Preamble()) == PreambleSections()
  {
    var p, q := OtherSection("global"), OtherSection("defaults");
    var r := FrontendSection("stats", [HostPort("", 8404)], [], Setup("http", None, false));
    var s := FrontendSection("prometheus", [HostPort("", 8405)], [], Setup("http", None, false));
    FeedGlobal();
    FeedDefaults([p]);
    FeedStats([p] + [q]);
    FeedPrometheus([p] + [q] + [r]);
    FeedFour(GlobalLines(), DefaultsLines(), StatsLines(), PrometheusLines(), p, q, r, s);
  }

  // ---------------------------------------------------- no stray newlines

  ghost predicate OneLines(lines: seq<string>) {
    forall i :: 0 <= i < |lines| ==> OneLine(lines[i])
  }

  lemma OneLinesConcat(a: seq<string>, b: seq<string>)
    requires OneLines(a) && OneLines(b)
    ensures OneLines(a + b)
  {
  }

  lemma HeaderOneLine(keyword: string, name: string)
    requires IsToken(keyword) && IsToken(name)
    ensures OneLines(["", Unwords([keyword, name])])
  {
  }

  lemma BindOneLine(host: string, port: int)
    requires forall i :: 0 <= i < |host| ==> !IsSpace(host[i])
    ensures OneLines([BindLine(host, port)])
  {
    BindTokens(HostPort(host, port));
    WordsOfIndented(["bind", FormatHostPort(HostPort(host, port))]);
  }

  lemma GlobalOneLines()
    ensures OneLines(GlobalLines())
  {
    assert IsToken("global");
    GlobalIsIdle();
    OneLinesConcat(["", "global"], DirectiveLines(GlobalRest()));
  }

  lemma DefaultsOneLines()
    ensures OneLines(DefaultsLines())
  {
    assert IsToken("defaults");
    DefaultsAreIdle();
    OneLinesConcat(["", "defaults"], DirectiveLines(DefaultsRest()));
  }

  lemma ModeOneLine(mode: string)
    requires mode == "tcp" || mode == "http"
    ensures OneLines([ModeLine(mode)])
  {
    ModeWords(mode);
    WordsOfIndented(["mode", mode]);
  }

  lemma StatsOneLines()
    ensures OneLines(StatsLines())
  {
    assert IsToken("frontend") && IsToken("stats");
    HeaderOneLine("frontend", "stats");
    ModeOneLine("http");
    BindOneLine("", 8404);
    StatsAreIdle();
    OneLinesConcat(["", Unwords(["frontend", "stats"])], [ModeLine("http")]);
    OneLinesConcat(["", Unwords(["frontend", "stats"])] + [ModeLine("http")], [BindLine("", 8404)]);
    OneLinesConcat(["", Unwords(["frontend", "stats"])] + [ModeLine("http")] + [BindLine("", 8404)], DirectiveLines(StatsRest()));
  }

  lemma PrometheusOneLines()
    ensures OneLines(PrometheusLines())
  {
    assert IsToken("frontend") && IsToken("prometheus");
    HeaderOneLine("frontend", "prometheus");
    BindOneLine("", 8405);
    ModeOneLine("http");
    PrometheusIsIdle();
    OneLinesConcat(["", Unwords(["frontend", "prometheus"])], [BindLine("", 8405)]);
    OneLinesConcat(["", Unwords(["frontend", "prometheus"])] + [BindLine("", 8405)], [ModeLine("http")]);
    OneLinesConcat(["", Unwords(["frontend", "prometheus"])] + [BindLine("", 8405)] + [ModeLine("http")], DirectiveLines(PrometheusRest()));
  }

  lemma PreambleOneLines()
    ensures OneLines(Preamble())
  {
    GlobalOneLines();
    DefaultsOneLines();
    StatsOneLines();
    PrometheusOneLines();
    OneLinesConcat(GlobalLines(), DefaultsLines());
    OneLinesConcat(GlobalLines() + DefaultsLines(), StatsLines());
    OneLinesConcat(GlobalLines() + DefaultsLines() + StatsLines(), PrometheusLines());
  }

  lemma IndentedOneLine(words: seq<string>)
    requires AllTokens(words)
    ensures OneLines([Indented(words)])
  {
    WordsOfIndented(words);
  }

  lemma FrontendOneLines(f: Frontend)
    requires IsToken(f.key.name)
    ensures OneLines(FrontendLines(f))
  {
    var opening := ["", Unwords(["frontend", f.key.name])];
    var bind, mode := [BindLine("*", f.servicePort)], [ModeLine("tcp")];
    var logging := DirectiveLines([["option", "tcplog"], []]);
    var delay, accept := [Indented(DelayWords())], [Indented(AcceptWords())];
    assert IsToken("frontend");
    HeaderOneLine("frontend", f.key.name);
    BindOneLine("*", f.servicePort);
    ModeOneLine("tcp");
    LoggingIsIdle();
    DelayTokens();
    AcceptTokens();
    IndentedOneLine(DelayWords());
    IndentedOneLine(AcceptWords());
    BlankIsInert();
    OneLinesConcat(opening, bind);
    OneLinesConcat(opening + bind, mode);
    OneLinesConcat(opening + bind + mode, logging);
    OneLinesConcat(opening + bind + mode + logging, delay);
    OneLinesConcat(opening + bind + mode + logging + delay, accept);
    OneLinesConcat(opening + bind + mode + logging + delay + accept, [""]);
  }

  lemma {:induction false} RulesOneLines(bs: seq<Backend>)
    requires CleanBackends(bs)
    ensures OneLines(AllRules(bs))
  {
    if bs != [] {
      var b := bs[|bs| - 1];
      RulesOneLines(bs[..|bs| - 1]);
      RuleTokens(b);
      WordsOfIndented(["use_backend", b.name, "if", "{", "req_ssl_sni", "-i", b.host, "}"]);
    }
  }

  lemma {:induction false} ServersOneLines(ss: seq<Server>)
    requires forall i :: 0 <= i < |ss| ==> CleanServer(ss[i])
    ensures OneLines(AllServers(ss))
  {
    if ss != [] {
      var s := ss[|ss| - 1];
      ServersOneLines(ss[..|ss| - 1]);
      ServerTokens(s);
      WordsOfIndented(["server", s.name, FormatHostPort(HostPort(s.address, s.port)), "check"]);
    }
  }

  lemma {:induction false} BackendsOneLines(bs: seq<Backend>)
    requires CleanBackends(bs)
    ensures OneLines(AllBackends(bs))
  {
    if bs != [] {
      var b := bs[|bs| - 1];
      BackendsOneLines(bs[..|bs| - 1]);
      ServersOneLines(b.servers);
      assert IsToken("backend");
      HeaderOneLine("backend", b.name);
      ModeOneLine("tcp");
      OneLinesConcat(["", Unwords(["backend", b.name])], [ModeLine("tcp")]);
      OneLinesConcat(BackendLines(b), AllServers(b.servers));
      OneLinesConcat(AllBackends(bs[..|bs| - 1]), BackendLines(b) + AllServers(b.servers));
    }
  }

  lemma {:induction false} FrontendsOneLines(fs: seq<Frontend>, backends: BackendMap)
    requires Clean(fs, backends)
    ensures OneLines(AllFrontends(fs, backends))
  {
    if fs != [] {
      var f := fs[|fs| - 1];
      var bs := BackendsOf(backends, f);
      FrontendsOneLines(fs[..|fs| - 1], backends);
      FrontendOneLines(f);
      RulesOneLines(bs);
      BackendsOneLines(bs);
      OneLinesConcat(FrontendLines(f), AllRules(bs));
      OneLinesConcat(FrontendLines(f) + AllRules(bs), AllBackends(bs));
      OneLinesConcat(AllFrontends(fs[..|fs| - 1], backends), BlockLines(f, bs));
    }
  }

  /** Config round trip: for names, hosts and addresses without white space,
      reading the emitted text by sections recovers the fixed sections and then,
      in order, each frontend's bind port and rules and each backend's servers. */
  lemma ConfigRoundTrip(fs: seq<Frontend>, backends: BackendMap)
    requires Clean(fs, backends)
    ensures Read(ConfigText(fs, backends)) == PreambleSections() + SectionsOf(fs, backends)
  {
    var lines := AllFrontends(fs, backends);
    PreambleOneLines();
    FrontendsOneLines(fs, backends);
    UnlinesConcat(Preamble(), lines);
    OneLinesConcat(Preamble(), lines);
    LinesOfUnlines(Preamble() + lines);
    FeedConcat([], Preamble(), lines);
    FeedPreamble();
    FeedAllFrontends(PreambleSections(), fs, backends);
  }

  // --------------------------------------------------------------- routing

  /** Comparing a rule's host with the server name of a connection. */
  type HostTest = (string, string) -> bool

  /** The rules that a frontend section applies to server names: none unless it takes
      plain connections and waits for the client hello. */
  function NameRules(section: Section): (r: seq<Rule>)
    requires section.FrontendSection?
  {
    if section.setup.mode == "tcp" && section.setup.delay.Some? && section.setup.acceptsHello then section.rules else []
  }

  /** The rules of the first frontend section of a name. */
  function FindFrontend(sections: seq<Section>, name: string): (r: Option<seq<Rule>>) {
    if sections == [] then None
    else if sections[0].FrontendSection? && sections[0].name == name then Some(NameRules(sections[0]))
    else FindFrontend(sections[1..], name)
  }

  /** The servers of the first backend section of a name, none of which can take a
      plain connection unless the section is in tcp mode. */
  function FindBackend(sections: seq<Section>, name: string): (r: Option<seq<Server>>) {
    if sections == [] then None
    else if sections[0].BackendSection? && sections[0].name == name then
      Some(if sections[0].mode == "tcp" then sections[0].servers else [])
    else FindBackend(sections[1..], name)
  }

  function FirstRule(rules: seq<Rule>, sni: string, same: HostTest): (r: Option<string>) {
    if rules == [] then None
    else if same(rules[0].host, sni) then Some(rules[0].backend)
    else FirstRule(rules[1..], sni, same)
  }

  /** Routing a connection by the sections: first matching rule of the frontend,
      then the section it names. */
  function Route(sections: seq<Section>, frontend: string, sni: string, same: HostTest): (r: Option<seq<Server>>) {
    var rules := FindFrontend(sections, frontend);
    if rules.None? then None
    else
      var target := FirstRule(rules.value, sni, same);
      if target.None? then None else FindBackend(sections, target.value)
  }

  function FirstBackend(bs: seq<Backend>, sni: string, same: HostTest): (r: Option<Backend>) {
    if bs == [] then None
    else if same(bs[0].host, sni) then Some(bs[0])
    else FirstBackend(bs[1..], sni, same)
  }

  function FirstFrontend(fs: seq<Frontend>, name: string): (r: Option<Frontend>) {
    if fs == [] then None
    else if fs[0].key.name == name then Some(fs[0])
    else FirstFrontend(fs[1..], name)
  }

  /** The backend that a connection is meant for, by the source objects. */
  function SourceTarget(fs: seq<Frontend>, backends: BackendMap, frontend: string, sni: string, same: HostTest): (r: Option<Backend>) {
    var f := FirstFrontend(fs, frontend);
    if f.None? then None else FirstBackend(BackendsOf(backends, f.value), sni, same)
  }

  /** Routing a connection by the source objects. */
  function SourceRoute(fs: seq<Frontend>, backends: BackendMap, frontend: string, sni: string, same: HostTest): (r: Option<seq<Server>>) {
    var b := SourceTarget(fs, backends, frontend, sni, same);
    if b.None? then None else Some(b.value.servers)
  }

  ghost predicate Listed(fs: seq<Frontend>, backends: BackendMap, b: Backend) {
    exists i :: 0 <= i < |fs| && b in BackendsOf(backends, fs[i])
  }

  function FirstNamed(bs: seq<Backend>, name: string): (r: Option<seq<Server>>) {
    if bs == [] then None
    else if bs[0].name == name then Some(bs[0].servers)
    else FirstNamed(bs[1..], name)
  }

  /** The servers of the first backend of a name, in the order of the frontends and
      of their backend lists. */
  function FirstListed(fs: seq<Frontend>, backends: BackendMap, name: string): (r: Option<seq<Server>>) {
    if fs == [] then None
    else
      var n := |fs| - 1;
      var earlier := FirstListed(fs[..n], backends, name);
      if earlier.Some? then earlier else FirstNamed(BackendsOf(backends, fs[n]), name)
  }

  /** A backend name stands for one backend. */
  ghost predicate Consistent(fs: seq<Frontend>, backends: BackendMap) {
    forall b, c :: Listed(fs, backends, b) && Listed(fs, backends, c) && b.name == c.name ==> b.servers == c.servers
  }

  lemma {:induction false} FindFrontendConcat(a: seq<Section>, b: seq<Section>, name: string)
    ensures FindFrontend(a + b, name) == if FindFrontend(a, name).Some? then FindFrontend(a, name) else FindFrontend(b, name)
  {
    if a == [] {
      assert a + b == b;
    } else {
      assert (a + b)[1..] == a[1..] + b;
      FindFrontendConcat(a[1..], b, name);
    }
  }

  lemma {:induction false} NoFrontendInBackends(sections: seq<Section>, name: string)
    requires forall i :: 0 <= i < |sections| ==> sections[i].BackendSection?
    ensures FindFrontend(sections, name) == None
  {
    if sections != [] { NoFrontendInBackends(sections[1..], name); }
  }

  lemma {:induction false} FirstFrontendConcat(a: seq<Frontend>, b: seq<Frontend>, name: string)
    ensures FirstFrontend(a + b, name) == if FirstFrontend(a, name).Some? then FirstFrontend(a, name) else FirstFrontend(b, name)
  {
    if a == [] {
      assert a + b == b;
    } else {
      assert (a + b)[1..] == a[1..] + b;
      FirstFrontendConcat(a[1..], b, name);
    }
  }

  lemma FindInBlock(f: Frontend, bs: seq<Backend>, name: string)
    ensures FindFrontend(BlockOf(f, bs), name) == if f.key.name == name then Some(RulesOf(bs)) else None
  {
    var block := BlockOf(f, bs);
    assert block[1..] == BackendSections(bs);
    NoFrontendInBackends(BackendSections(bs), name);
  }

  /** The section of a frontend holds the rules of the first frontend of its name. */
  lemma {:induction false} FindInSections(fs: seq<Frontend>, backends: BackendMap, name: string)
    ensures FindFrontend(SectionsOf(fs, backends), name) ==
      var f := FirstFrontend(fs, name);
      if f.None? then None else Some(RulesOf(BackendsOf(backends, f.value)))
  {
    if fs != [] {
      var n := |fs| - 1;
      var bs := BackendsOf(backends, fs[n]);
      FindInSections(fs[..n], backends, name);
      FindFrontendConcat(SectionsOf(fs[..n], backends), BlockOf(fs[n], bs), name);
      FindInBlock(fs[n], bs, name);
      FirstFrontendConcat(fs[..n], [fs[n]], name);
      assert fs == fs[..n] + [fs[n]];
      assert [fs[n]][1..] == [];
    }
  }

  lemma {:induction false} FirstRuleIsFirstBackend(bs: seq<Backend>, sni: string, same: HostTest)
    ensures FirstRule(RulesOf(bs), sni, same) ==
      var b := FirstBackend(bs, sni, same);
      if b.None? then None else Some(b.value.name)
    ensures FirstBackend(bs, sni, same).Some? ==> FirstBackend(bs, sni, same).value in bs
  {
    if bs != [] {
      FirstRuleIsFirstBackend(bs[1..], sni, same);
      assert RulesOf(bs)[1..] == RulesOf(bs[1..]);
    }
  }

  lemma {:induction false} FindBackendConcat(a: seq<Section>, b: seq<Section>, name: string)
    ensures FindBackend(a + b, name) == if FindBackend(a, name).Some? then FindBackend(a, name) else FindBackend(b, name)
  {
    if a == [] {
      assert a + b == b;
    } else {
      assert (a + b)[1..] == a[1..] + b;
      FindBackendConcat(a[1..], b, name);
    }
  }

  lemma {:induction false} FindAmongBackends(bs: seq<Backend>, name: string)
    ensures FindBackend(BackendSections(bs), name) == FirstNamed(bs, name)
  {
    if bs != [] {
      assert BackendSections(bs)[1..] == BackendSections(bs[1..]);
      FindAmongBackends(bs[1..], name);
    }
  }

  /** The section found for a name is that of the first listed backend. */
  lemma {:induction false} FoundIsFirstListed(fs: seq<Frontend>, backends: BackendMap, name: string)
    ensures FindBackend(SectionsOf(fs, backends), name) == FirstListed(fs, backends, name)
  {
    if fs != [] {
      var n := |fs| - 1;
      var bs := BackendsOf(backends, fs[n]);
      var block := BlockOf(fs[n], bs);
      FoundIsFirstListed(fs[..n], backends, name);
      FindBackendConcat(SectionsOf(fs[..n], backends), block, name);
      assert block[1..] == BackendSections(bs);
      FindAmongBackends(bs, name);
    }
  }

  /** `servers` are those of some listed backend of this name. */
  ghost predicate ListedAs(fs: seq<Frontend>, backends: BackendMap, name: string, servers: seq<Server>) {
    exists b :: Listed(fs, backends, b) && b.name == name && b.servers == servers
  }

  lemma {:induction false} FirstNamedIsAmong(bs: seq<Backend>, name: string)
    ensures match FirstNamed(bs, name)
      case None => forall b :: b in bs ==> b.name != name
      case Some(servers) => exists b :: b in bs && b.name == name && b.servers == servers
  {
    if bs != [] {
      FirstNamedIsAmong(bs[1..], name);
      assert bs[0] in bs;
    }
  }

  lemma {:induction false} FirstListedIsListed(fs: seq<Frontend>, backends: BackendMap, name: string)
    ensures match FirstListed(fs, backends, name)
      case None => forall b :: Listed(fs, backends, b) ==> b.name != name
      case Some(servers) => ListedAs(fs, backends, name, servers)
  {
    if fs != [] {
      var n := |fs| - 1;
      FirstListedIsListed(fs[..n], backends, name);
      FirstNamedIsAmong(BackendsOf(backends, fs[n]), name);
      forall b ensures Listed(fs, backends, b) <==> Listed(fs[..n], backends, b) || b in BackendsOf(backends, fs[n]) {
        ListedStep(fs, backends, b);
      }
    }
  }

  lemma ListedStep(fs: seq<Frontend>, backends: BackendMap, b: Backend)
    requires fs != []
    ensures Listed(fs, backends, b) <==>
      Listed(fs[..|fs| - 1], backends, b) || b in BackendsOf(backends, fs[|fs| - 1])
  {
  }

  lemma {:induction false} FirstFrontendIsListed(fs: seq<Frontend>, name: string)
    ensures FirstFrontend(fs, name).Some? ==> FirstFrontend(fs, name).value in fs
  {
    if fs != [] { FirstFrontendIsListed(fs[1..], name); }
  }

  lemma SkipOne(section: Section, rest: seq<Section>, frontend: string, backend: string)
    requires !section.BackendSection?
    requires section.FrontendSection? ==> section.name != frontend
    ensures FindFrontend([section] + rest, frontend) == FindFrontend(rest, frontend)
    ensures FindBackend([section] + rest, backend) == FindBackend(rest, backend)
  {
  }

  lemma SkipFour(p: Section, q: Section, r: Section, s: Section, rest: seq<Section>, frontend: string, backend: string)
    requires !p.BackendSection? && !q.BackendSection? && !r.BackendSection? && !s.BackendSection?
    requires p.OtherSection? && q.OtherSection?
    requires r.name != frontend && s.name != frontend
    ensures FindFrontend([p, q, r, s] + rest, frontend) == FindFrontend(rest, frontend)
    ensures FindBackend([p, q, r, s] + rest, backend) == FindBackend(rest, backend)
  {
    SkipOne(s, rest, frontend, backend);
    SkipOne(r, [s] + rest, frontend, backend);
    SkipOne(q, [r] + ([s] + rest), frontend, backend);
    SkipOne(p, [q] + ([r] + ([s] + rest)), frontend, backend);
    FourFirst(p, q, r, s, rest);
  }

  /** The preamble defines no backend and no frontend but its own two. */
  lemma PreambleIsSkipped(sections: seq<Section>, frontend: string, backend: string)
    requires frontend != "stats" && frontend != "prometheus"
    ensures FindFrontend(PreambleSections() + sections, frontend) == FindFrontend(sections, frontend)
    ensures FindBackend(PreambleSections() + sections, backend) == FindBackend(sections, backend)
  {
    var p := PreambleSections();
    SkipFour(p[0], p[1], p[2], p[3], sections, frontend, backend);
  }

  /** Every `use_backend` target has a section, with the servers of the first listed
      backend of its name. */
  lemma TargetsHaveSections(fs: seq<Frontend>, backends: BackendMap, b: Backend)
    requires Listed(fs, backends, b)
    ensures FindBackend(SectionsOf(fs, backends), b.name).Some?
    ensures FindBackend(SectionsOf(fs, backends), b.name) == FirstListed(fs, backends, b.name)
    ensures Consistent(fs, backends) ==> FirstListed(fs, backends, b.name) == Some(b.servers)
  {
    FoundIsFirstListed(fs, backends, b.name);
    FirstListedIsListed(fs, backends, b.name);
  }

  lemma TargetIsListed(fs: seq<Frontend>, backends: BackendMap, frontend: string, sni: string, same: HostTest)
    requires SourceTarget(fs, backends, frontend, sni, same).Some?
    ensures Listed(fs, backends, SourceTarget(fs, backends, frontend, sni, same).value)
  {
    FirstFrontendIsListed(fs, frontend);
    var f := FirstFrontend(fs, frontend).value;
    var i :| 0 <= i < |fs| && fs[i] == f;
    FirstRuleIsFirstBackend(BackendsOf(backends, f), sni, same);
  }

  /** Routing by the sections leads to the first listed backend that has the name of
      the one meant. */
  lemma RoutingBySections(fs: seq<Frontend>, backends: BackendMap, frontend: string, sni: string, same: HostTest)
    ensures var b := SourceTarget(fs, backends, frontend, sni, same);
      Route(SectionsOf(fs, backends), frontend, sni, same) == if b.None? then None else FirstListed(fs, backends, b.value.name)
  {
    FindInSections(fs, backends, frontend);
    var f := FirstFrontend(fs, frontend);
    if f.Some? {
      FirstRuleIsFirstBackend(BackendsOf(backends, f.value), sni, same);
      var b := FirstBackend(BackendsOf(backends, f.value), sni, same);
      if b.Some? {
        FoundIsFirstListed(fs, backends, b.value.name);
      }
    }
  }

  lemma RoutingSkipsPreamble(sections: seq<Section>, frontend: string, sni: string, same: HostTest)
    requires frontend != "stats" && frontend != "prometheus"
    ensures Route(PreambleSections() + sections, frontend, sni, same) == Route(sections, frontend, sni, same)
  {
    var rules := FindFrontend(sections, frontend);
    PreambleIsSkipped(sections, frontend, "");
    if rules.Some? {
      var target := FirstRule(rules.value, sni, same);
      if target.Some? {
        PreambleIsSkipped(sections, frontend, target.value);
      }
    }
  }

  lemma FindHead(section: Section, rest: seq<Section>, frontend: string)
    requires section.FrontendSection? && section.name == frontend
    ensures FindFrontend([section] + rest, frontend) == Some(NameRules(section))
  {
  }

  /** The third or the fourth section is the frontend looked for. */
  lemma FindEarly(p: Section, q: Section, r: Section, s: Section, rest: seq<Section>, frontend: string)
    requires p.OtherSection? && q.OtherSection? && r.FrontendSection? && s.FrontendSection?
    requires r.rules == [] && s.rules == []
    requires frontend == r.name || frontend == s.name
    ensures FindFrontend([p, q, r, s] + rest, frontend) == Some([])
  {
    var fromS := [s] + rest;
    var fromR := [r] + fromS;
    SkipOne(p, [q] + fromR, frontend, "");
    SkipOne(q, fromR, frontend, "");
    if r.name == frontend {
      FindHead(r, fromS, frontend);
    } else {
      SkipOne(r, fromS, frontend, "");
      FindHead(s, rest, frontend);
    }
    FourFirst(p, q, r, s, rest);
  }

  lemma FourFirst(p: Section, q: Section, r: Section, s: Section, rest: seq<Section>)
    ensures [p, q, r, s] + rest == [p] + ([q] + ([r] + ([s] + rest)))
  {
  }

  /** The two names that the preamble takes route nothing. */
  lemma ReservedNamesRouteNothing(sections: seq<Section>, frontend: string, sni: string, same: HostTest)
    requires frontend == "stats" || frontend == "prometheus"
    ensures Route(PreambleSections() + sections, frontend, sni, same) == None
  {
    var p := PreambleSections();
    FindEarly(p[0], p[1], p[2], p[3], sections, frontend);
  }

  /** Nothing in front of the section of a connection's frontend, or of the section
      of its target, hides it: the frontend has neither of the two fixed names, and
      the first listed backend of the target's name has the target's servers. */
  predicate Unhidden(fs: seq<Frontend>, backends: BackendMap, frontend: string, b: Backend) {
    && frontend != "stats" && frontend != "prometheus"
    && FirstListed(fs, backends, b.name) == Some(b.servers)
  }

  /** Exactly when routing is preserved: for every connection, routing by the text
      and by the objects agree if and only if the objects route nowhere or neither
      section is hidden. */
  lemma RoutingPreservedExactly(fs: seq<Frontend>, backends: BackendMap, frontend: string, sni: string, same: HostTest)
    requires Clean(fs, backends)
    ensures var b := SourceTarget(fs, backends, frontend, sni, same);
      (Route(Read(ConfigText(fs, backends)), frontend, sni, same) == SourceRoute(fs, backends, frontend, sni, same))
      <==> (b.None? || Unhidden(fs, backends, frontend, b.value))
  {
    ConfigRoundTrip(fs, backends);
    if frontend == "stats" || frontend == "prometheus" {
      ReservedNamesRouteNothing(SectionsOf(fs, backends), frontend, sni, same);
    } else {
      RoutingSkipsPreamble(SectionsOf(fs, backends), frontend, sni, same);
      RoutingBySections(fs, backends, frontend, sni, same);
    }
  }

  /** In particular, if each backend name stands for one list of servers, the first
      matching rule of the text leads to the servers of the first backend in the
      source list whose host matches, for every connection to a frontend without a
      fixed name. */
  lemma RoutingPreserved(fs: seq<Frontend>, backends: BackendMap, frontend: string, sni: string, same: HostTest)
    requires Clean(fs, backends) && Consistent(fs, backends)
    requires frontend != "stats" && frontend != "prometheus"
    ensures Route(Read(ConfigText(fs, backends)), frontend, sni, same) == SourceRoute(fs, backends, frontend, sni, same)
  {
    var b := SourceTarget(fs, backends, frontend, sni, same);
    RoutingPreservedExactly(fs, backends, frontend, sni, same);
    if b.Some? {
      TargetIsListed(fs, backends, frontend, sni, same);
      TargetsHaveSections(fs, backends, b.value);
    }
  }

  /** Two versions of a backend in the lists of two frontends: connections of the
      later one go to the servers of the earlier. */
  lemma EarlierListingWins(f: Frontend, g: Frontend, b: Backend, servers: seq<Server>, sni: string, same: HostTest)
    requires IsToken(f.key.name) && IsToken(g.key.name) && f.key.name != g.key.name
    requires g.key.name != "stats" && g.key.name != "prometheus"
    requires CleanBackend(b) && CleanBackend(b.(servers := servers)) && b.servers != servers && same(b.host, sni)
    ensures var backends := map[f.key.name := [b], g.key.name := [b.(servers := servers)]];
      && SourceRoute([f, g], backends, g.key.name, sni, same) == Some(servers)
      && Route(Read(ConfigText([f, g], backends)), g.key.name, sni, same) == Some(b.servers)
  {
    var backends := map[f.key.name := [b], g.key.name := [b.(servers := servers)]];
    var name := g.key.name;
    assert FirstFrontend([f, g][1..], name) == Some(g);
    assert [f, g][..1] == [f] && [f][..0] == [];
    assert FirstListed([f], backends, b.name) == Some(b.servers);
    assert FirstListed([f, g], backends, b.name) == Some(b.servers);
    ConfigRoundTrip([f, g], backends);
    RoutingSkipsPreamble(SectionsOf([f, g], backends), name, sni, same);
    RoutingBySections([f, g], backends, name, sni, same);
  }
}
