/** Text: lines, words, decimal numbers and `address:port` pairs, each with its
    reader and the round trip between the two. */
module Text {
  import opened Common

  predicate IsSpace(c: char) {
    c == ' ' || c == '\t' || c == '\r' || c == '\n'
  }

  /** A non-empty word without white space. */
  predicate IsToken(s: string) {
    s != "" && forall i :: 0 <= i < |s| ==> !IsSpace(s[i])
  }

  // ------------------------------------------------------------------ lines

  /** Lines, each ended by a newline. */
  function Unlines(lines: seq<string>): (text: string) {
    if lines == [] then "" else lines[0] + "\n" + Unlines(lines[1..])
  }

  /** The length of the first line. */
  function LineLength(text: string): (n: nat)
    ensures n <= |text|
    ensures forall i :: 0 <= i < n ==> text[i] != '\n'
    ensures n < |text| ==> text[n] == '\n'
  {
    if text == "" || text[0] == '\n' then 0 else 1 + LineLength(text[1..])
  }

  function Lines(text: string): (lines: seq<string>)
    decreases |text|
  {
    if text == "" then []
    else
      var n := LineLength(text);
      if n == |text| then [text] else [text[..n]] + Lines(text[n + 1..])
  }

  ghost predicate OneLine(line: string) {
    forall i :: 0 <= i < |line| ==> line[i] != '\n'
  }

  lemma LinesCons(line: string, rest: string)
    requires OneLine(line)
    ensures Lines(line + "\n" + rest) == [line] + Lines(rest)
  {
    var text := line + "\n" + rest;
    var n := LineLength(text);
    assert text[|line|] == '\n';
    assert forall i :: 0 <= i < |line| ==> text[i] == line[i];
    assert n == |line|;
    assert text[..n] == line && text[n + 1..] == rest;
  }

  lemma {:induction false} LinesOfUnlines(lines: seq<string>)
    requires forall i :: 0 <= i < |lines| ==> OneLine(lines[i])
    ensures Lines(Unlines(lines)) == lines
  {
    if lines != [] {
      LinesOfUnlines(lines[1..]);
      LinesCons(lines[0], Unlines(lines[1..]));
    }
  }

  lemma {:induction false} UnlinesConcat(a: seq<string>, b: seq<string>)
    ensures Unlines(a + b) == Unlines(a) + Unlines(b)
  {
    if a == [] {
      assert a + b == b;
    } else {
      assert (a + b)[1..] == a[1..] + b;
      UnlinesConcat(a[1..], b);
    }
  }

  // ------------------------------------------------------------------ words

  function WordLength(line: string): (n: nat)
    ensures n <= |line|
    ensures forall i :: 0 <= i < n ==> !IsSpace(line[i])
    ensures n < |line| ==> IsSpace(line[n])
  {
    if line == "" || IsSpace(line[0]) then 0 else 1 + WordLength(line[1..])
  }

  function Words(line: string): (words: seq<string>)
    decreases |line|
  {
    if line == "" then []
    else if IsSpace(line[0]) then Words(line[1..])
    else
      var n := WordLength(line);
      [line[..n]] + Words(line[n..])
  }

  /** Words separated by single spaces. */
  function Unwords(words: seq<string>): (line: string) {
    if words == [] then ""
    else if |words| == 1 then words[0]
    else words[0] + " " + Unwords(words[1..])
  }

  /** A directive inside a section. */
  function Indented(words: seq<string>): (line: string) {
    "  " + Unwords(words)
  }

  ghost predicate AllTokens(words: seq<string>) {
    forall i :: 0 <= i < |words| ==> IsToken(words[i])
  }

  lemma WordsCons(word: string, rest: string)
    requires IsToken(word) && (rest == "" || IsSpace(rest[0]))
    ensures Words(word + rest) == [word] + Words(rest)
  {
    var line := word + rest;
    var n := WordLength(line);
    assert forall i :: 0 <= i < |word| ==> line[i] == word[i];
    assert rest != "" ==> line[|word|] == rest[0];
    assert n == |word|;
    assert line[..n] == word && line[n..] == rest;
  }

  lemma WordsSpaced(word: string, line: string)
    requires IsToken(word) && OneLine(line)
    ensures Words(word + " " + line) == [word] + Words(line)
    ensures OneLine(word + " " + line)
  {
    var rest := " " + line;
    assert rest[1..] == line;
    WordsCons(word, rest);
    assert word + " " + line == word + rest;
  }

  lemma {:induction false} WordsOfUnwords(words: seq<string>)
    requires AllTokens(words)
    ensures Words(Unwords(words)) == words
    ensures OneLine(Unwords(words))
  {
    if |words| == 1 {
      WordsCons(words[0], "");
      assert words[0] + "" == words[0];
    } else if |words| > 1 {
      WordsOfUnwords(words[1..]);
      WordsSpaced(words[0], Unwords(words[1..]));
      assert Unwords(words) == words[0] + " " + Unwords(words[1..]);
      assert words == [words[0]] + words[1..];
    }
  }

  lemma WordsOfIndented(words: seq<string>)
    requires AllTokens(words)
    ensures Words(Indented(words)) == words
    ensures OneLine(Indented(words))
  {
    WordsOfUnwords(words);
    var line := Indented(words);
    assert line[1..] == " " + Unwords(words);
    assert line[1..][1..] == Unwords(words);
  }

  // --------------------------------------------------------------- numbers

  function Digit(d: nat): (c: char)
    requires d < 10
  {
    "0123456789"[d]
  }

  function DigitValue(c: char): (d: Option<nat>)
  {
    if '0' <= c <= '9' then Some(c as int - '0' as int) else None
  }

  lemma DigitRoundTrip(d: nat)
    requires d < 10
    ensures DigitValue(Digit(d)) == Some(d)
    ensures Digit(d) != ':' && Digit(d) != '-' && !IsSpace(Digit(d))
  {
  }

  function FormatNat(n: nat): (s: string)
    ensures s != ""
  {
    if n < 10 then [Digit(n)] else FormatNat(n / 10) + [Digit(n % 10)]
  }

  /** The `%d` of a format string. */
  function Itoa(n: int): (s: string) {
    if n < 0 then "-" + FormatNat(-n) else FormatNat(n)
  }

  function ParseNat(s: string): (r: Option<nat>) {
    if s == "" then None
    else
      var last := DigitValue(s[|s| - 1]);
      if last.None? then None
      else if |s| == 1 then last
      else
        var front := ParseNat(s[..|s| - 1]);
        if front.None? then None else Some(10 * front.value + last.value)
  }

  function Atoi(s: string): (r: Option<int>) {
    if s != "" && s[0] == '-' then
      var n := ParseNat(s[1..]);
      if n.None? then None else Some(-(n.value as int))
    else
      var n := ParseNat(s);
      if n.None? then None else Some(n.value)
  }

  ghost predicate DigitsOnly(s: string) {
    forall i :: 0 <= i < |s| ==> s[i] != ':' && s[i] != '-' && !IsSpace(s[i])
  }

  lemma AppendDigit(s: string, d: nat, n: nat)
    requires d < 10 && s != "" && ParseNat(s) == Some(n) && DigitsOnly(s)
    ensures ParseNat(s + [Digit(d)]) == Some(10 * n + d)
    ensures DigitsOnly(s + [Digit(d)])
  {
    DigitRoundTrip(d);
    var t := s + [Digit(d)];
    assert t[..|t| - 1] == s;
  }

  lemma {:induction false} NatRoundTrip(n: nat)
    ensures ParseNat(FormatNat(n)) == Some(n)
    ensures DigitsOnly(FormatNat(n))
  {
    if n < 10 {
      DigitRoundTrip(n);
    } else {
      NatRoundTrip(n / 10);
      AppendDigit(FormatNat(n / 10), n % 10, n / 10);
    }
  }

  /** The usual form: digits only, and no leading zero. */
  lemma {:induction false} NatCanonical(n: nat)
    ensures forall i :: 0 <= i < |FormatNat(n)| ==> '0' <= FormatNat(n)[i] <= '9'
    ensures FormatNat(n)[0] == '0' <==> n == 0
    ensures n == 0 ==> FormatNat(n) == "0"
  {
    if n >= 10 {
      NatCanonical(n / 10);
    }
  }

  /** Numbers survive printing and reading, and print as words without a colon. */
  lemma IntRoundTrip(n: int)
    ensures Atoi(Itoa(n)) == Some(n)
    ensures IsToken(Itoa(n))
    ensures ':' !in Itoa(n)
  {
    NatRoundTrip(if n < 0 then -n else n);
    if n < 0 {
      assert Itoa(n)[1..] == FormatNat(-n);
    }
  }

  lemma ItoaInjective(m: int, n: int)
    requires Itoa(m) == Itoa(n)
    ensures m == n
  {
    IntRoundTrip(m);
    IntRoundTrip(n);
  }

  // ---------------------------------------------------------- address:port

  datatype HostPort = HostPort(host: string, port: int)

  /** The position of the last colon, or the length if there is none. */
  function LastColon(s: string): (n: nat)
    ensures n <= |s|
    ensures n < |s| ==> s[n] == ':' && ':' !in s[n + 1..]
    ensures n == |s| ==> ':' !in s
    decreases |s|
  {
    if s == "" then 0
    else
      var last := |s| - 1;
      if s[last] == ':' then last
      else
        var n := LastColon(s[..last]);
        assert s == s[..last] + [s[last]];
        if n == last then |s|
        else
          assert s[n + 1..] == s[..last][n + 1..] + [s[last]];
          n
  }

  lemma LastColonIs(s: string, n: nat)
    requires n < |s| && s[n] == ':' && ':' !in s[n + 1..]
    ensures LastColon(s) == n
  {
  }

  function FormatHostPort(hp: HostPort): (s: string) {
    hp.host + ":" + Itoa(hp.port)
  }

  function ParseHostPort(s: string): (r: Option<HostPort>) {
    var n := LastColon(s);
    if n == |s| then None
    else
      var port := Atoi(s[n + 1..]);
      if port.None? then None else Some(HostPort(s[..n], port.value))
  }

  /** `host:port` is read back whatever the host is, colons included. */
  lemma HostPortRoundTrip(hp: HostPort)
    ensures ParseHostPort(FormatHostPort(hp)) == Some(hp)
    ensures (forall i :: 0 <= i < |hp.host| ==> !IsSpace(hp.host[i])) ==> IsToken(FormatHostPort(hp))
  {
    var s := FormatHostPort(hp);
    var digits := Itoa(hp.port);
    IntRoundTrip(hp.port);
    assert s[|hp.host|] == ':';
    assert s[|hp.host| + 1..] == digits;
    var n := LastColon(s);
    LastColonIs(s, |hp.host|);
    assert s[..n] == hp.host;
  }
}
