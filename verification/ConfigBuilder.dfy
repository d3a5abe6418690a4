/** The config compiler: the HAProxy text emitted for frontends and backends, a
    reader of that text by sections, and the agreement of the two. */
module ConfigBuilder {
  import opened Common
  import opened Api
  import opened Text

  // ------------------------------------------------------------- emission

  type BackendMap = map<string, seq<Backend>>

  /** The backends of a frontend; a missing name reads as the empty list. */
  function BackendsOf(backends: BackendMap, f: Frontend): (r: seq<Backend>) {
    if f.key.name in backends then backends[f.key.name] else []
  }

  /** A directive line; no words make an empty line. */
  function DirectiveLine(words: seq<string>): (line: string) {
    if words == [] then "" else Indented(words)
  }

  function DirectiveLines(directives: seq<seq<string>>): (lines: seq<string>)
    ensures |lines| == |directives|
    ensures forall i :: 0 <= i < |directives| ==> lines[i] == DirectiveLine(directives[i])
  {
    seq(|directives|, i requires 0 <= i < |directives| => DirectiveLine(directives[i]))
  }

  function ModeLine(mode: string): (line: string) {
    Indented(["mode", mode])
  }

  /** Waiting for the client's hello, whose server name the rules look at. */
  function DelayWords(): (words: seq<string>) {
    ["tcp-request", "inspect-delay", "5s"]
  }

  function AcceptWords(): (words: seq<string>) {
    ["tcp-request", "content", "accept", "if", "{", "req_ssl_hello_type", "1", "}"]
  }

  function BindLine(host: string, port: int): (line: string) {
    Indented(["bind", FormatHostPort(HostPort(host, port))])
  }

  function FrontendLines(f: Frontend): (lines: seq<string>) {
    ["", Unwords(["frontend", f.key.name])] + [BindLine("*", f.servicePort)] + [ModeLine("tcp")]
    + DirectiveLines([["option", "tcplog"], []]) + [Indented(DelayWords())] + [Indented(AcceptWords())] + [""]
  }

  function RuleLines(b: Backend): (lines: seq<string>) {
    ["", Indented(["use_backend", b.name, "if", "{", "req_ssl_sni", "-i", b.host, "}"])]
  }

  function BackendLines(b: Backend): (lines: seq<string>) {
    ["", Unwords(["backend", b.name])] + [ModeLine("tcp")]
  }

  function ServerLines(s: Server): (lines: seq<string>) {
    ["", Indented(["server", s.name, FormatHostPort(HostPort(s.address, s.port)), "check"])]
  }

  /** The sections in front, the same in every file. */
  function GlobalRest(): (r: seq<seq<string>>) {
    [["log", "stdout", "format", "raw", "local0"]]
  }

  function GlobalLines(): (r: seq<string>) {
    ["", "global"] + DirectiveLines(GlobalRest())
  }

  function DefaultsRest(): (r: seq<seq<string>>) {
    [["log", "global"],
     ["option", "dontlognull"],
     ["timeout", "connect", "5s"],
     ["timeout", "client", "50s"],
     ["timeout", "client-fin", "50s"],
     ["timeout", "server", "50s"],
     ["timeout", "tunnel", "1h"]]
  }

  function DefaultsLines(): (r: seq<string>) {
    ["", "defaults"] + DirectiveLines(DefaultsRest())
  }

  function StatsRest(): (r: seq<seq<string>>) {
    [["stats", "enable"],
     ["stats", "refresh", "10s"],
     ["stats", "uri", "/stats"],
     ["stats", "show-modules"]]
  }

  function StatsLines(): (r: seq<string>) {
    ["", Unwords(["frontend", "stats"])] + [ModeLine("http")] + [BindLine("", 8404)] + DirectiveLines(StatsRest())
  }

  function PrometheusRest(): (r: seq<seq<string>>) {
    [["http-request", "use-service", "prometheus-exporter"],
     ["no", "log"]]
  }

  function PrometheusLines(): (r: seq<string>) {
    ["", Unwords(["frontend", "prometheus"])] + [BindLine("", 8405)] + [ModeLine("http")] + DirectiveLines(PrometheusRest())
  }

  function Preamble(): (r: seq<string>) {
    GlobalLines() + DefaultsLines() + StatsLines() + PrometheusLines()
  }

  // ----------------------------------------------------- the whole emission

  /** What is emitted for a list of backends inside their frontend section. */
  function AllRules(bs: seq<Backend>): (lines: seq<string>) {
    if bs == [] then [] else AllRules(bs[..|bs| - 1]) + RuleLines(bs[|bs| - 1])
  }

  function AllServers(ss: seq<Server>): (lines: seq<string>) {
    if ss == [] then [] else AllServers(ss[..|ss| - 1]) + ServerLines(ss[|ss| - 1])
  }

  function AllBackends(bs: seq<Backend>): (lines: seq<string>) {
    if bs == [] then []
    else
      var b := bs[|bs| - 1];
      AllBackends(bs[..|bs| - 1]) + (BackendLines(b) + AllServers(b.servers))
  }

  /** A frontend section followed by the sections of its backends. */
  function BlockLines(f: Frontend, bs: seq<Backend>): (lines: seq<string>) {
    FrontendLines(f) + AllRules(bs) + AllBackends(bs)
  }

  function AllFrontends(fs: seq<Frontend>, backends: BackendMap): (lines: seq<string>) {
    if fs == [] then []
    else
      var f := fs[|fs| - 1];
      AllFrontends(fs[..|fs| - 1], backends) + BlockLines(f, BackendsOf(backends, f))
  }

  /** The text of one configuration file. */
  function ConfigText(fs: seq<Frontend>, backends: BackendMap): (text: string) {
    Unlines(Preamble()) + Unlines(AllFrontends(fs, backends))
  }

  // ------------------------------------------------------------- the reader

  datatype Rule = Rule(backend: string, host: string)

  /** How a frontend takes connections: its mode, how long it waits for the first
      bytes, and whether it goes on once it has a client hello. */
  datatype Setup = Setup(mode: string, delay: Option<string>, acceptsHello: bool)

  datatype Section =
    | FrontendSection(name: string, binds: seq<HostPort>, rules: seq<Rule>, setup: Setup)
    | BackendSection(name: string, servers: seq<Server>, mode: string)
    | OtherSection(name: string)

  /** Nothing said: the mode is tcp. */
  function Unset(): (r: Setup) {
    Setup("tcp", None, false)
  }

  /** Plain connections, of which the client hello is waited for. */
  function Inspecting(): (r: Setup) {
    Setup("tcp", Some("5s"), true)
  }

  /** Whether a line opens a section, and which. */
  function Opens(words: seq<string>): (r: Option<Section>) {
    if |words| == 2 && words[0] == "frontend" then Some(FrontendSection(words[1], [], [], Unset()))
    else if |words| == 2 && words[0] == "backend" then Some(BackendSection(words[1], [], "tcp"))
    else if words == ["global"] || words == ["defaults"] then Some(OtherSection(words[0]))
    else None
  }

  /** A directive inside a section. */
  function Extend(section: Section, words: seq<string>): (r: Section) {
    match section
    case FrontendSection(name, binds, rules, setup) =>
      if |words| == 2 && words[0] == "bind" then
        var hp := ParseHostPort(words[1]);
        if hp.Some? then FrontendSection(name, binds + [hp.value], rules, setup) else section
      else if |words| == 8 && words[0] == "use_backend" && words[2..6] == ["if", "{", "req_ssl_sni", "-i"] && words[7] == "}" then
        FrontendSection(name, binds, rules + [Rule(words[1], words[6])], setup)
      else FrontendSection(name, binds, rules, Configure(setup, words))
    case BackendSection(name, servers, mode) =>
      if |words| == 4 && words[0] == "server" && words[3] == "check" then
        var hp := ParseHostPort(words[2]);
        if hp.Some? then BackendSection(name, servers + [Server(words[1], hp.value.host, hp.value.port)], mode) else section
      else if |words| == 2 && words[0] == "mode" then BackendSection(name, servers, words[1])
      else section
    case OtherSection(_) => section
  }

  function Configure(setup: Setup, words: seq<string>): (r: Setup) {
    if |words| == 2 && words[0] == "mode" then setup.(mode := words[1])
    else if |words| == 3 && words[..2] == ["tcp-request", "inspect-delay"] then setup.(delay := Some(words[2]))
    else if words == ["tcp-request", "content", "accept", "if", "{", "req_ssl_hello_type", "1", "}"] then setup.(acceptsHello := true)
    else setup
  }

  function Feed(sections: seq<Section>, words: seq<string>): (r: seq<Section>) {
    var header := Opens(words);
    if header.Some? then sections + [header.value]
    else if words == [] || sections == [] then sections
    else sections[..|sections| - 1] + [Extend(sections[|sections| - 1], words)]
  }

  function FeedLines(sections: seq<Section>, lines: seq<string>): (r: seq<Section>)
    decreases |lines|
  {
    if lines == [] then sections
    else Feed(FeedLines(sections, lines[..|lines| - 1]), Words(lines[|lines| - 1]))
  }

  /** Reading a configuration file by sections. */
  function Read(text: string): (r: seq<Section>) {
    FeedLines([], Lines(text))
  }

  lemma {:induction false} FeedConcat(sections: seq<Section>, a: seq<string>, b: seq<string>)
    ensures FeedLines(sections, a + b) == FeedLines(FeedLines(sections, a), b)
    decreases |b|
  {
    if b == [] {
      assert a + b == a;
    } else {
      var n := |b| - 1;
      assert (a + b)[..|a + b| - 1] == a + b[..n];
      FeedConcat(sections, a, b[..n]);
    }
  }

  lemma FeedOne(sections: seq<Section>, line: string)
    ensures FeedLines(sections, [line]) == Feed(sections, Words(line))
  {
  }

  lemma FeedCons(sections: seq<Section>, line: string, lines: seq<string>)
    ensures FeedLines(sections, [line] + lines) == FeedLines(Feed(sections, Words(line)), lines)
  {
    FeedConcat(sections, [line], lines);
    FeedOne(sections, line);
  }

  // ------------------------------------------------- feeding single lines

  /** Words that no section reacts to. */
  ghost predicate Inert(words: seq<string>) {
    words == [] || (Opens(words).None? && words[0] != "bind" && words[0] != "use_backend" && words[0] != "server"
      && words[0] != "mode" && words[0] != "tcp-request")
  }

  lemma FeedInertWords(sections: seq<Section>, words: seq<string>)
    requires Inert(words)
    ensures Feed(sections, words) == sections
  {
    if sections != [] && words != [] {
      var last := sections[|sections| - 1];
      assert Extend(last, words) == last;
      assert sections == sections[..|sections| - 1] + [last];
    }
  }

  lemma {:induction false} FeedInert(sections: seq<Section>, lines: seq<string>)
    requires forall i :: 0 <= i < |lines| ==> Inert(Words(lines[i]))
    ensures FeedLines(sections, lines) == sections
    decreases |lines|
  {
    if lines != [] {
      var n := |lines| - 1;
      FeedInert(sections, lines[..n]);
      FeedInertWords(sections, Words(lines[n]));
    }
  }

  lemma FeedBlank(sections: seq<Section>, line: string)
    ensures FeedLines(sections, ["", line]) == Feed(sections, Words(line))
  {
    FeedCons(sections, "", [line]);
    assert [""] + [line] == ["", line];
    FeedOne(sections, line);
  }

  lemma FeedLast(sections: seq<Section>, section: Section, words: seq<string>)
    requires words != [] && Opens(words).None?
    ensures Feed(sections + [section], words) == sections + [Extend(section, words)]
  {
  }

  lemma BindTokens(hp: HostPort)
    requires forall i :: 0 <= i < |hp.host| ==> !IsSpace(hp.host[i])
    ensures AllTokens(["bind", FormatHostPort(hp)])
  {
    HostPortRoundTrip(hp);
    assert IsToken("bind");
  }

  lemma FeedBind(sections: seq<Section>, name: string, hp: HostPort, setup: Setup)
    requires forall i :: 0 <= i < |hp.host| ==> !IsSpace(hp.host[i])
    ensures FeedLines(sections + [FrontendSection(name, [], [], setup)], [BindLine(hp.host, hp.port)])
         == sections + [FrontendSection(name, [hp], [], setup)]
  {
    var words := ["bind", FormatHostPort(hp)];
    BindTokens(hp);
    WordsOfIndented(words);
    HostPortRoundTrip(hp);
    assert "bind"[0] == 'b' && "frontend"[0] == 'f' && |"backend"| == 7;
    FeedOne(sections + [FrontendSection(name, [], [], setup)], BindLine(hp.host, hp.port));
    FeedLast(sections, FrontendSection(name, [], [], setup), words);
    assert [] + [hp] == [hp];
  }

  /** A directive after some lines extends the section that they end with. */
  lemma FeedMore(start: seq<Section>, head: seq<string>, sections: seq<Section>, section: Section, words: seq<string>)
    requires FeedLines(start, head) == sections + [section]
    requires AllTokens(words) && words != [] && Opens(words).None?
    ensures FeedLines(start, head + [Indented(words)]) == sections + [Extend(section, words)]
  {
    FeedConcat(start, head, [Indented(words)]);
    FeedOne(sections + [section], Indented(words));
    WordsOfIndented(words);
    FeedLast(sections, section, words);
  }

  lemma ModeWords(mode: string)
    requires mode == "tcp" || mode == "http"
    ensures AllTokens(["mode", mode]) && Opens(["mode", mode]).None?
  {
    assert IsToken("mode") && IsToken("tcp") && IsToken("http");
    assert |"mode"| == 4 && |"frontend"| == 8 && |"backend"| == 7;
  }

  lemma ModeConfigures(setup: Setup, mode: string)
    ensures Configure(setup, ["mode", mode]) == setup.(mode := mode)
  {
  }

  /** A mode line in a frontend. */
  lemma FeedFrontendMode(start: seq<Section>, head: seq<string>, sections: seq<Section>, name: string, binds: seq<HostPort>, mode: string)
    requires FeedLines(start, head) == sections + [FrontendSection(name, binds, [], Unset())]
    requires mode == "tcp" || mode == "http"
    ensures FeedLines(start, head + [ModeLine(mode)]) == sections + [FrontendSection(name, binds, [], Setup(mode, None, false))]
  {
    var words := ["mode", mode];
    ModeWords(mode);
    FeedMore(start, head, sections, FrontendSection(name, binds, [], Unset()), words);
    assert |"mode"| == 4 && "mode"[0] == 'm' && "bind"[0] == 'b';
    ModeConfigures(Unset(), mode);
  }

  lemma FeedBackendMode(start: seq<Section>, head: seq<string>, sections: seq<Section>, name: string)
    requires FeedLines(start, head) == sections + [BackendSection(name, [], "tcp")]
    ensures FeedLines(start, head + [ModeLine("tcp")]) == sections + [BackendSection(name, [], "tcp")]
  {
    ModeWords("tcp");
    FeedMore(start, head, sections, BackendSection(name, [], "tcp"), ["mode", "tcp"]);
  }

  lemma DelayTokens()
    ensures AllTokens(DelayWords()) && Opens(DelayWords()).None?
  {
    assert IsToken("tcp-request") && IsToken("inspect-delay") && IsToken("5s");
  }

  lemma AcceptTokens()
    ensures AllTokens(AcceptWords()) && Opens(AcceptWords()).None?
  {
    assert IsToken("tcp-request") && IsToken("content") && IsToken("accept");
    assert IsToken("if") && IsToken("{") && IsToken("}") && IsToken("1");
    assert IsToken("req_ssl_hello_type");
  }

  lemma DelayExtends(name: string, binds: seq<HostPort>)
    ensures Extend(FrontendSection(name, binds, [], Setup("tcp", None, false)), DelayWords())
         == FrontendSection(name, binds, [], Setup("tcp", Some("5s"), false))
  {
    var words := DelayWords();
    assert words[..2] == ["tcp-request", "inspect-delay"];
  }

  lemma AcceptExtends(name: string, binds: seq<HostPort>)
    ensures Extend(FrontendSection(name, binds, [], Setup("tcp", Some("5s"), false)), AcceptWords())
         == FrontendSection(name, binds, [], Inspecting())
  {
    assert "tcp-request"[0] == 't' && "use_backend"[0] == 'u';
  }

  lemma OpenFrontend(sections: seq<Section>, name: string)
    requires IsToken(name)
    ensures FeedLines(sections, ["", Unwords(["frontend", name])]) == sections + [FrontendSection(name, [], [], Unset())]
  {
    assert IsToken("frontend");
    WordsOfUnwords(["frontend", name]);
    FeedBlank(sections, Unwords(["frontend", name]));
  }

  lemma OpenBackend(sections: seq<Section>, name: string)
    requires IsToken(name)
    ensures FeedLines(sections, ["", Unwords(["backend", name])]) == sections + [BackendSection(name, [], "tcp")]
  {
    assert IsToken("backend");
    assert |"backend"| != |"frontend"|;
    WordsOfUnwords(["backend", name]);
    FeedBlank(sections, Unwords(["backend", name]));
  }

  lemma RuleTokens(b: Backend)
    requires IsToken(b.name) && IsToken(b.host)
    ensures AllTokens(["use_backend", b.name, "if", "{", "req_ssl_sni", "-i", b.host, "}"])
  {
  }

  lemma FeedRule(sections: seq<Section>, name: string, binds: seq<HostPort>, rules: seq<Rule>, setup: Setup, b: Backend)
    requires IsToken(b.name) && IsToken(b.host)
    ensures FeedLines(sections + [FrontendSection(name, binds, rules, setup)], RuleLines(b))
         == sections + [FrontendSection(name, binds, rules + [Rule(b.name, b.host)], setup)]
  {
    var words := ["use_backend", b.name, "if", "{", "req_ssl_sni", "-i", b.host, "}"];
    RuleTokens(b);
    WordsOfIndented(words);
    FeedBlank(sections + [FrontendSection(name, binds, rules, setup)], Indented(words));
    FeedLast(sections, FrontendSection(name, binds, rules, setup), words);
    assert words[2..6] == ["if", "{", "req_ssl_sni", "-i"];
  }

  lemma ServerTokens(s: Server)
    requires IsToken(s.name) && forall i :: 0 <= i < |s.address| ==> !IsSpace(s.address[i])
    ensures AllTokens(["server", s.name, FormatHostPort(HostPort(s.address, s.port)), "check"])
  {
    HostPortRoundTrip(HostPort(s.address, s.port));
    assert IsToken("server") && IsToken("check");
  }

  lemma FeedServer(sections: seq<Section>, name: string, servers: seq<Server>, mode: string, s: Server)
    requires IsToken(s.name) && forall i :: 0 <= i < |s.address| ==> !IsSpace(s.address[i])
    ensures FeedLines(sections + [BackendSection(name, servers, mode)], ServerLines(s))
         == sections + [BackendSection(name, servers + [s], mode)]
  {
    var words := ["server", s.name, FormatHostPort(HostPort(s.address, s.port)), "check"];
    ServerTokens(s);
    WordsOfIndented(words);
    HostPortRoundTrip(HostPort(s.address, s.port));
    FeedBlank(sections + [BackendSection(name, servers, mode)], Indented(words));
    FeedLast(sections, BackendSection(name, servers, mode), words);
  }
}
