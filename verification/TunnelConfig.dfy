/**
 The stunnel config file of one tunnel: how it is printed, how the accept port is read back
 after a restart, and how file names carry volume ids.
 */
module TunnelConfig {
  import opened Wrappers
  import opened Text
  import opened PortMaps

  const NFS_OVER_TLS_PORT := 20049

  /** The settings of the manager that end up in every config. */
  datatype Settings = Settings(caFile: string, checkHost: string, debugLevel: nat)

  function AcceptLine(p: nat): string {
    "accept = 127.0.0.1:" + Decimal(p)
  }

  /** The lines after the accept line. */
  function Trailer(nfsServer: string, st: Settings): string {
    LinesText(TrailerLines(nfsServer, st))
  }

  function TrailerLines(nfsServer: string, st: Settings): seq<string> {
    [ "connect = " + nfsServer + ":" + Decimal(NFS_OVER_TLS_PORT),
      "CAfile = " + st.caFile,
      "checkHost = " + st.checkHost,
      "verify = 2",
      "debug = " + Decimal(st.debugLevel) ]
  }

  function Header(v: string): string {
    "[" + v + "]"
  }

  /** buildTunnelConfig. */
  function BuildConfig(v: string, nfsServer: string, p: nat, st: Settings): string {
    Header(v) + "\n" + ("client = yes" + "\n" + (AcceptLine(p) + "\n" + Trailer(nfsServer, st)))
  }

  // ------------------------------------------------------------------
  // Reading
  // ------------------------------------------------------------------

  /** extractPortFromAddress: the number after the last colon. */
  function PortOfAddress(address: string): Option<int> {
    var i := AfterLast(address, ':');
    if i == 0 then None else Atoi(TrimSpace(address[i..]))
  }

  /** What one line says about a directive: nothing, or its value. */
  function DirectiveIn(raw: string, key: string): Option<string> {
    var line := TrimSpace(raw);
    if line == "" || line[0] == '#' || line[0] == ';' || !HasPrefix(line, key) then None
    else
      var rest := TrimSpace(line[|key|..]);
      if rest == "" || rest[0] != '=' then None else Some(TrimSpace(rest[1..]))
  }

  function AcceptValue(raw: string): Option<string> {
    DirectiveIn(raw, "accept")
  }

  datatype Verdict = NoAccept | Accepts(port: int) | Malformed

  function VerdictOf(value: string, r: PortRange): Verdict {
    match PortOfAddress(value)
    case None => Malformed
    case Some(p) => if r.Has(p) then Accepts(p) else Malformed
  }

  /** The first accept directive decides. */
  function ScanLines(lines: seq<string>, r: PortRange): Verdict {
    if lines == [] then NoAccept
    else
      match AcceptValue(lines[0])
      case None => ScanLines(lines[1..], r)
      case Some(value) => VerdictOf(value, r)
  }

  /** extractPortFromConfigFile on a file that could be opened. */
  method ExtractPortFromConfigFile(content: string, r: PortRange) returns (verdict: Verdict)
    ensures verdict == ScanLines(Lines(content), r)
  {
    var lines := Lines(content);
    for i := 0 to |lines|
      invariant ScanLines(lines, r) == ScanLines(lines[i..], r)
    {
      var value := AcceptValue(lines[i]);
      if value.Some? {
        return VerdictOf(value.value, r);
      }
    }
    return NoAccept;
  }

  lemma {:induction false} ScanConcat(xs: seq<string>, ys: seq<string>, r: PortRange)
    ensures ScanLines(xs + ys, r) == if ScanLines(xs, r).NoAccept? then ScanLines(ys, r) else ScanLines(xs, r)
  {
    if xs == [] {
      assert xs + ys == ys;
    } else {
      ScanConcat(xs[1..], ys, r);
      assert (xs + ys)[1..] == xs[1..] + ys;
    }
  }

  // ------------------------------------------------------------------
  // What the reader accepts
  // ------------------------------------------------------------------

  /** The line names the directive and x, with white space around name, sign and value. */
  ghost predicate Directive(raw: string, key: string, x: string, a: string, b: string, c: string, d: string) {
    && AllSpace(a) && AllSpace(b) && AllSpace(c) && AllSpace(d)
    && raw == a + key + b + "=" + c + x + d
  }

  /**
   A line gives a directive the value x exactly when it has the form `key = x`, with any white space around the
   three.
   */
  lemma DirectiveExactly(raw: string, key: string, x: string)
    requires Trimmed(key) && key[0] != '#' && key[0] != ';'
    ensures DirectiveIn(raw, key) == Some(x) <==> Bare(x) && exists a, b, c, d :: Directive(raw, key, x, a, b, c, d)
  {
    if DirectiveIn(raw, key) == Some(x) {
      DirectiveForm(raw, key, x);
    }
    if Bare(x) && exists a, b, c, d :: Directive(raw, key, x, a, b, c, d) {
      var a, b, c, d :| Directive(raw, key, x, a, b, c, d);
      DirectiveReads(raw, key, x, a, b, c, d);
    }
  }

  lemma DirectiveForm(raw: string, key: string, x: string)
    requires DirectiveIn(raw, key) == Some(x)
    ensures Bare(x) && exists a, b, c, d :: Directive(raw, key, x, a, b, c, d)
  {
    var line := TrimSpace(raw);
    var a, e := TrimGives(raw);
    var tail := line[|key|..];
    var b, f := TrimGives(tail);
    var rest := TrimSpace(tail);
    var c, g := TrimGives(rest[1..]);
    assert line == key + tail && rest == "=" + rest[1..];
    Assembled(a, key, b, c, x, g, f, e);
    assert Directive(raw, key, x, a, b, c, g + f + e);
  }

  lemma Assembled(a: string, key: string, b: string, c: string, x: string, g: string, f: string, e: string)
    ensures a + (key + (b + ("=" + (c + x + g)) + f)) + e == a + key + b + "=" + c + x + (g + f + e)
  {
  }

  lemma DirectiveReads(raw: string, key: string, x: string, a: string, b: string, c: string, d: string)
    requires Trimmed(key) && key[0] != '#' && key[0] != ';' && Bare(x) && Directive(raw, key, x, a, b, c, d)
    ensures DirectiveIn(raw, key) == Some(x)
  {
    var line, end := if x == "" then key + b + "=" else key + b + "=" + c + x, if x == "" then c + d else d;
    assert raw == a + line + end;
    assert line[0] == key[0] && line[|line| - 1] == if x == "" then '=' else x[|x| - 1];
    TrimIs(raw, a, line, end);
    ValueReads(line, key, x, b, if x == "" then "" else c);
  }

  /** The part after the name. */
  lemma ValueReads(line: string, key: string, x: string, b: string, c: string)
    requires key != "" && AllSpace(b) && AllSpace(c) && Bare(x) && (x == "" ==> c == "")
    requires line == key + b + "=" + c + x && key[0] != '#' && key[0] != ';' && TrimSpace(line) == line
    ensures DirectiveIn(line, key) == Some(x)
  {
    var tail, rest := line[|key|..], "=" + c + x;
    assert line == key + (b + rest) && tail == b + rest;
    assert rest[|rest| - 1] == if x == "" then '=' else x[|x| - 1];
    assert tail == b + rest + "";
    TrimIs(tail, b, rest, "");
    assert rest[1..] == c + x + "";
    TrimIs(rest[1..], c, x, "");
  }

  /** extractPortFromAddress reads the number after the last colon. */
  lemma AddressExactly(address: string, p: int)
    ensures PortOfAddress(address) == Some(p) <==>
            exists host, tail :: address == host + ":" + tail && ':' !in tail && Atoi(TrimSpace(tail)) == Some(p)
  {
    var i := AfterLast(address, ':');
    if i > 0 {
      assert address == address[..i - 1] + ":" + address[i..];
    }
    forall host, tail | address == host + ":" + tail && ':' !in tail
      ensures i == |host| + 1 && address[i..] == tail
    {
      AfterLastIs(host, ':', tail);
      assert host + [':'] + tail == address;
    }
  }

  /** Line i is the first accept directive. */
  ghost predicate FirstAccept(lines: seq<string>, i: int) {
    0 <= i < |lines| && AcceptValue(lines[i]).Some? && forall j :: 0 <= j < i ==> AcceptValue(lines[j]).None?
  }

  ghost predicate FirstAcceptSays(lines: seq<string>, i: int, p: int) {
    FirstAccept(lines, i) && PortOfAddress(AcceptValue(lines[i]).value) == Some(p)
  }

  /** The verdict is that of the first accept directive: a port in range, or malformed. */
  lemma {:induction false} ScanExactly(lines: seq<string>, r: PortRange)
    ensures ScanLines(lines, r) == NoAccept <==> forall i :: 0 <= i < |lines| ==> AcceptValue(lines[i]).None?
    ensures forall p :: ScanLines(lines, r) == Accepts(p) <==> r.Has(p) && exists i :: FirstAcceptSays(lines, i, p)
  {
    if lines != [] {
      var rest := lines[1..];
      ScanExactly(rest, r);
      if AcceptValue(lines[0]).Some? {
        assert FirstAccept(lines, 0);
        assert forall p :: FirstAcceptSays(lines, 0, p) <==> PortOfAddress(AcceptValue(lines[0]).value) == Some(p);
        assert forall i :: FirstAccept(lines, i) ==> i == 0;
      } else {
        assert forall i :: 1 <= i < |lines| ==> lines[i] == rest[i - 1];
        assert forall i, p :: FirstAcceptSays(rest, i, p) ==> FirstAcceptSays(lines, i + 1, p);
        assert forall i, p :: FirstAcceptSays(lines, i, p) ==> i >= 1 && FirstAcceptSays(rest, i - 1, p);
      }
    }
  }

  // ------------------------------------------------------------------
  // Round trip
  // ------------------------------------------------------------------

  lemma AddressRoundTrip(p: nat)
    requires p <= MAX_INT64
    ensures PortOfAddress("127.0.0.1:" + Decimal(p)) == Some(p)
  {
    var a, d := "127.0.0.1:" + Decimal(p), Decimal(p);
    var i := AfterLast(a, ':');
    assert a[9] == ':';
    assert forall k :: 10 <= k < |a| ==> a[k] == d[k - 10] && IsDigit(a[k]);
    assert i == 10;
    assert a[10..] == d;
    TrimTrimmed(d);
    AtoiOfDecimal(p);
  }

  /** The accept line, cut where the reader cuts it. */
  lemma AcceptLineParts(p: nat)
    ensures var value := "127.0.0.1:" + Decimal(p);
            AcceptLine(p) == "accept" + (" " + ("= " + value)) && ("= " + value)[1..] == " " + value
  {
  }

  lemma AcceptLineRead(p: nat, r: PortRange)
    requires r.Has(p) && p <= MAX_INT64
    ensures AcceptValue(AcceptLine(p)) == Some("127.0.0.1:" + Decimal(p))
    ensures ScanLines([AcceptLine(p)], r) == Accepts(p)
  {
    var d := Decimal(p);
    var line, value := AcceptLine(p), "127.0.0.1:" + d;
    assert line[|line| - 1] == d[|d| - 1] && value[|value| - 1] == d[|d| - 1];
    TrimTrimmed(line);
    AcceptLineParts(p);
    assert line[|"accept"|..] == " " + ("= " + value);
    TrimTrimmed("= " + value);
    TrimTrimmed(value);
    AddressRoundTrip(p);
  }

  lemma BodyRead(nfsServer: string, p: nat, st: Settings, r: PortRange)
    requires r.Has(p) && p <= MAX_INT64
    ensures ScanLines(Lines("client = yes" + "\n" + (AcceptLine(p) + "\n" + Trailer(nfsServer, st))), r) == Accepts(p)
  {
    var accept, trailer := AcceptLine(p), Trailer(nfsServer, st);
    assert IsDigit(accept[|accept| - 1]) && '\n' !in accept;
    LinesHead("client = yes", accept + "\n" + trailer);
    LinesHead(accept, trailer);
    TrimTrimmed("client = yes");
    assert AcceptValue("client = yes") == None;
    AcceptLineRead(p, r);
    ScanConcat(["client = yes"], [accept] + Lines(trailer), r);
    ScanConcat([accept], Lines(trailer), r);
  }

  /** What the section header of v says when read back: for an id without a line break, nothing. */
  function HeaderVerdict(v: string, r: PortRange): Verdict {
    ScanLines(Lines(Header(v) + "\n"), r)
  }

  /** Reading back a printed config, for every id, server and setting: the port, unless the header already decided. */
  lemma ConfigReadsBack(v: string, nfsServer: string, p: nat, st: Settings, r: PortRange)
    requires r.Has(p) && p <= MAX_INT64
    ensures ScanLines(Lines(BuildConfig(v, nfsServer, p, st)), r) ==
            if HeaderVerdict(v, r).NoAccept? then Accepts(p) else HeaderVerdict(v, r)
  {
    var body := "client = yes" + "\n" + (AcceptLine(p) + "\n" + Trailer(nfsServer, st));
    LinesSplit(Header(v), body);
    ScanConcat(Lines(Header(v) + "\n"), Lines(body), r);
    BodyRead(nfsServer, p, st, r);
  }

  lemma BracketedIsNoDirective(line: string)
    requires line != "" && line[0] == '['
    ensures AcceptValue(line) == None
  {
    TrimRightKeepsFirst(line);
  }

  lemma HeaderWithoutBreak(v: string, r: PortRange)
    requires '\n' !in v
    ensures HeaderVerdict(v, r) == NoAccept
  {
    var h := Header(v);
    assert h[|h| - 1] == ']';
    LinesHead(h, "");
    assert h + "\n" + "" == h + "\n";
    assert Lines(h + "\n") == [h];
    BracketedIsNoDirective(h);
    ScanConcat([h], [], r);
    assert ScanLines([h], r) == ScanLines([h][1..], r);
  }

  /** The round trip: an id without a line break reads back its port, whatever the server, CA path and check host. */
  lemma ConfigRoundTrip(v: string, nfsServer: string, p: nat, st: Settings, r: PortRange)
    requires '\n' !in v && r.Has(p) && p <= MAX_INT64
    ensures ScanLines(Lines(BuildConfig(v, nfsServer, p, st)), r) == Accepts(p)
  {
    HeaderWithoutBreak(v, r);
    ConfigReadsBack(v, nfsServer, p, st, r);
  }

  /** The condition is needed: an id whose second line reads as an accept line is read back with that port instead. */
  lemma LineBreakChangesThePort(w: string, q: nat, u: string, nfsServer: string, p: nat, st: Settings, r: PortRange)
    requires '\n' !in w && r.Has(q) && r.Has(p) && q <= MAX_INT64 && p <= MAX_INT64
    ensures ScanLines(Lines(BuildConfig(w + "\n" + AcceptLine(q) + "\n" + u, nfsServer, p, st)), r) == Accepts(q)
  {
    var v := w + "\n" + AcceptLine(q) + "\n" + u;
    HeaderRegrouped(w, AcceptLine(q), u);
    SecondLineDecides("[" + w, q, u + "]" + "\n", r);
    ConfigReadsBack(v, nfsServer, p, st, r);
  }

  lemma HeaderRegrouped(w: string, x: string, u: string)
    ensures Header(w + "\n" + x + "\n" + u) + "\n" == ("[" + w) + "\n" + (x + "\n" + (u + "]" + "\n"))
  {
  }

  lemma SecondLineDecides(first: string, q: nat, last: string, r: PortRange)
    requires first != "" && first[0] == '[' && '\n' !in first && r.Has(q) && q <= MAX_INT64
    ensures ScanLines(Lines(first + "\n" + (AcceptLine(q) + "\n" + last)), r) == Accepts(q)
  {
    var accept := AcceptLine(q);
    assert IsDigit(accept[|accept| - 1]) && '\n' !in accept;
    LinesHead(first, accept + "\n" + last);
    LinesHead(accept, last);
    BracketedIsNoDirective(DropCR(first));
    AcceptLineRead(q, r);
    ScanConcat([DropCR(first)], [accept] + Lines(last), r);
    ScanConcat([accept], Lines(last), r);
  }

  // ------------------------------------------------------------------
  // What a printed config says to stunnel
  // ------------------------------------------------------------------

  /** The value of the first line that gives the directive one. */
  function DirectiveValue(lines: seq<string>, key: string): Option<string> {
    if lines == [] then None
    else if DirectiveIn(lines[0], key).Some? then DirectiveIn(lines[0], key)
    else DirectiveValue(lines[1..], key)
  }

  /** A printed line gives its own directive its value. */
  lemma OwnLine(key: string, x: string)
    requires Trimmed(key) && key[0] != '#' && key[0] != ';' && Bare(x)
    ensures DirectiveIn(key + " = " + x, key) == Some(x)
  {
    var raw := key + " = " + x;
    assert raw == "" + key + " " + "=" + " " + x + "";
    assert Directive(raw, key, x, "", " ", " ", "");
    DirectiveReads(raw, key, x, "", " ", " ", "");
  }

  predicate StartsDifferently(raw: string, key: string) {
    |raw| >= 2 && |key| >= 2 && !IsSpace(raw[0]) && (raw[0] != key[0] || raw[1] != key[1])
  }

  /** A line that starts differently says nothing about the directive. */
  lemma OtherLine(raw: string, key: string)
    requires StartsDifferently(raw, key)
    ensures DirectiveIn(raw, key) == None
  {
    var line := TrimSpace(raw);
    var a, b := TrimGives(raw);
    FirstOf(a, line + b);
    assert raw == a + (line + b);
    assert raw == line + b;
    PrefixStarts(line, key, b);
  }

  lemma FirstOf(a: string, b: string)
    ensures a != "" ==> a + b != "" && (a + b)[0] == a[0]
  {
  }

  lemma PrefixStarts(line: string, key: string, b: string)
    requires |key| >= 2
    ensures HasPrefix(line, key) ==> |line + b| >= 2 && (line + b)[0] == key[0] && (line + b)[1] == key[1]
  {
  }

  /** The texts that go into a config stay on their lines. */
  ghost predicate Printable(v: string, nfsServer: string, st: Settings) {
    && '\n' !in v && '\n' !in nfsServer && '\n' !in st.caFile && '\n' !in st.checkHost
    && Bare(nfsServer) && Bare(st.caFile) && Bare(st.checkHost)
  }

  lemma LineStays(key: string, x: string)
    requires key != "" && '\n' !in key && '\n' !in x && Bare(x)
    ensures OneLine(key + " = " + x)
  {
  }

  lemma PortText()
    ensures Decimal(NFS_OVER_TLS_PORT) == "20049"
  {
    assert Decimal(2) == "2" && Decimal(20) == "20" && Decimal(200) == "200" && Decimal(2004) == "2004";
  }

  /** A printed config is read line by line as it was written. */
  lemma ConfigLines(v: string, nfsServer: string, p: nat, st: Settings)
    requires Printable(v, nfsServer, st)
    ensures Lines(BuildConfig(v, nfsServer, p, st)) ==
            [Header(v), "client = yes", AcceptLine(p)] + TrailerLines(nfsServer, st)
  {
    ConfigText(v, nfsServer, p, st);
    ConfigLinesStay(v, nfsServer, p, st);
    LinesOfText([Header(v), "client = yes", AcceptLine(p)] + TrailerLines(nfsServer, st));
  }

  lemma ConfigText(v: string, nfsServer: string, p: nat, st: Settings)
    ensures BuildConfig(v, nfsServer, p, st) ==
            LinesText([Header(v), "client = yes", AcceptLine(p)] + TrailerLines(nfsServer, st))
  {
    var trailer := TrailerLines(nfsServer, st);
    TextOfMore(Header(v), ["client = yes", AcceptLine(p)] + trailer);
    TextOfMore("client = yes", [AcceptLine(p)] + trailer);
    TextOfMore(AcceptLine(p), trailer);
    assert [Header(v), "client = yes", AcceptLine(p)] + trailer ==
           [Header(v)] + (["client = yes", AcceptLine(p)] + trailer);
    assert ["client = yes", AcceptLine(p)] + trailer == ["client = yes"] + ([AcceptLine(p)] + trailer);
  }

  lemma TextOfMore(line: string, rest: seq<string>)
    ensures LinesText([line] + rest) == line + "\n" + LinesText(rest)
  {
    assert ([line] + rest)[1..] == rest;
  }

  lemma ConfigLinesStay(v: string, nfsServer: string, p: nat, st: Settings)
    requires Printable(v, nfsServer, st)
    ensures var lines := [Header(v), "client = yes", AcceptLine(p)] + TrailerLines(nfsServer, st);
            forall i :: 0 <= i < |lines| ==> OneLine(lines[i])
  {
    NoBreakInDigits(Decimal(st.debugLevel));
    LineStays("CAfile", st.caFile);
    LineStays("checkHost", st.checkHost);
    LineStays("debug", Decimal(st.debugLevel));
    AddressLinesStay(v, nfsServer, p);
  }

  /** The lines with fixed text at their ends. */
  lemma AddressLinesStay(v: string, nfsServer: string, p: nat)
    requires '\n' !in v && '\n' !in nfsServer
    ensures OneLine(Header(v)) && OneLine("client = yes") && OneLine("verify = 2") && OneLine(AcceptLine(p))
    ensures OneLine("connect = " + nfsServer + ":" + Decimal(NFS_OVER_TLS_PORT))
  {
    NoBreakInDigits(Decimal(p));
    EndStays("accept = 127.0.0.1:", Decimal(p));
    NoBreakInDigits(Decimal(NFS_OVER_TLS_PORT));
    EndStays("connect = " + nfsServer + ":", Decimal(NFS_OVER_TLS_PORT));
  }

  lemma EndStays(a: string, d: string)
    requires '\n' !in a && d != "" && AllDigits(d) && '\n' !in d
    ensures OneLine(a + d)
  {
    assert (a + d)[|a + d| - 1] == d[|d| - 1];
  }

  lemma NoBreakInDigits(d: string)
    requires d != "" && AllDigits(d)
    ensures '\n' !in d && Bare(d)
  {
  }

  /** How the lines start. */
  predicate ConfigStarts(lines: seq<string>) {
    && |lines| == 8 && (forall i :: 0 <= i < 8 ==> |lines[i]| >= 2)
    && lines[0][0] == '['
    && lines[1][0] == 'c' && lines[1][1] == 'l' && lines[2][0] == 'a' && lines[2][1] == 'c'
    && lines[3][0] == 'c' && lines[3][1] == 'o' && lines[4][0] == 'C' && lines[4][1] == 'A'
    && lines[5][0] == 'c' && lines[5][1] == 'h' && lines[6][0] == 'v' && lines[6][1] == 'e'
  }

  lemma TwoChars(a: string, b: string)
    requires |a| >= 2
    ensures |a + b| >= 2 && (a + b)[0] == a[0] && (a + b)[1] == a[1]
  {
  }

  /** The lines of a printed config, by position. */
  ghost predicate Printed(lines: seq<string>, v: string, nfsServer: string, p: nat, st: Settings) {
    && |lines| == 8 && lines[0] == "[" + (v + "]") && lines[1] == "client = yes"
    && lines[2] == "accept = " + ("127.0.0.1:" + Decimal(p)) && lines[3] == "connect = " + (nfsServer + ":20049")
    && lines[4] == "CAfile = " + st.caFile && lines[5] == "checkHost = " + st.checkHost
    && lines[6] == "verify = 2" && lines[7] == "debug = " + Decimal(st.debugLevel)
  }

  lemma ConfigIsPrinted(v: string, nfsServer: string, p: nat, st: Settings)
    requires Printable(v, nfsServer, st)
    ensures Printed(Lines(BuildConfig(v, nfsServer, p, st)), v, nfsServer, p, st)
  {
    ConfigLines(v, nfsServer, p, st);
    ConnectLine(nfsServer, st);
    AddressLine(p);
    Regroup("[", v, "]");
  }

  lemma AddressLine(p: nat)
    ensures AcceptLine(p) == "accept = " + ("127.0.0.1:" + Decimal(p))
  {
    assert "accept = 127.0.0.1:" == "accept = " + "127.0.0.1:";
    Regroup("accept = ", "127.0.0.1:", Decimal(p));
  }

  lemma ConnectLine(nfsServer: string, st: Settings)
    ensures TrailerLines(nfsServer, st)[0] == "connect = " + (nfsServer + ":20049")
  {
    PortText();
    assert ":" + "20049" == ":20049";
    Regroup("connect = ", nfsServer, ":");
    Regroup("connect = ", nfsServer + ":", "20049");
    Regroup(nfsServer, ":", "20049");
  }

  lemma PrintedStarts(lines: seq<string>, v: string, nfsServer: string, p: nat, st: Settings)
    requires Printed(lines, v, nfsServer, p, st)
    ensures ConfigStarts(lines)
  {
    assert |"[" + (v + "]")| >= 2 && ("[" + (v + "]"))[0] == '[';
    TwoChars("accept = ", "127.0.0.1:" + Decimal(p));
    TwoChars("connect = ", nfsServer + ":20049");
    TwoChars("CAfile = ", st.caFile);
    TwoChars("checkHost = ", st.checkHost);
    TwoChars("debug = ", Decimal(st.debugLevel));
  }

  /** Line i prints the directive and the lines before it start differently. */
  lemma LineSays(lines: seq<string>, i: nat, key: string, x: string)
    requires i < |lines| && |key| >= 2 && Trimmed(key) && key[0] != '#' && key[0] != ';' && Bare(x)
    requires lines[i] == key + " = " + x
    requires forall j :: 0 <= j < i ==> StartsDifferently(lines[j], key)
    ensures DirectiveValue(lines, key) == Some(x)
    decreases i
  {
    if i == 0 {
      OwnLine(key, x);
    } else {
      OtherLine(lines[0], key);
      LineSays(lines[1..], i - 1, key, x);
    }
  }

  /** The same, of a config whose lines start as they do. */
  lemma PrintedSays(lines: seq<string>, i: nat, key: string, x: string)
    requires ConfigStarts(lines) && 1 <= i < 8 && |key| >= 2 && Trimmed(key) && key[0] != '#' && key[0] != ';'
             && Bare(x)
    requires lines[i] == key + " = " + x
    requires forall j :: 0 <= j < i ==> lines[j][0] != key[0] || lines[j][1] != key[1]
    ensures DirectiveValue(lines, key) == Some(x)
  {
    LineSays(lines, i, key, x);
  }

  lemma ClientSaid(lines: seq<string>)
    requires ConfigStarts(lines) && lines[1] == "client = yes"
    ensures DirectiveValue(lines, "client") == Some("yes")
  {
    assert "client = yes" == "client" + " = " + "yes";
    PrintedSays(lines, 1, "client", "yes");
  }

  lemma AcceptSaid(lines: seq<string>, d: string)
    requires ConfigStarts(lines) && lines[2] == "accept = " + ("127.0.0.1:" + d) && d != "" && AllDigits(d)
    ensures DirectiveValue(lines, "accept") == Some("127.0.0.1:" + d)
  {
    var x := "127.0.0.1:" + d;
    NoBreakInDigits(d);
    assert x[|x| - 1] == d[|d| - 1];
    assert "accept = " == "accept" + " = ";
    PrintedSays(lines, 2, "accept", x);
  }

  lemma ConnectSaid(lines: seq<string>, nfsServer: string)
    requires ConfigStarts(lines) && lines[3] == "connect = " + (nfsServer + ":20049") && Bare(nfsServer)
    ensures DirectiveValue(lines, "connect") == Some(nfsServer + ":20049")
  {
    assert "connect = " == "connect" + " = ";
    PrintedSays(lines, 3, "connect", nfsServer + ":20049");
  }

  lemma CAfileSaid(lines: seq<string>, caFile: string)
    requires ConfigStarts(lines) && lines[4] == "CAfile = " + caFile && Bare(caFile)
    ensures DirectiveValue(lines, "CAfile") == Some(caFile)
  {
    assert "CAfile = " == "CAfile" + " = ";
    PrintedSays(lines, 4, "CAfile", caFile);
  }

  lemma CheckHostSaid(lines: seq<string>, checkHost: string)
    requires ConfigStarts(lines) && lines[5] == "checkHost = " + checkHost && Bare(checkHost)
    ensures DirectiveValue(lines, "checkHost") == Some(checkHost)
  {
    assert "checkHost = " == "checkHost" + " = ";
    PrintedSays(lines, 5, "checkHost", checkHost);
  }

  lemma VerifySaid(lines: seq<string>)
    requires ConfigStarts(lines) && lines[6] == "verify = 2"
    ensures DirectiveValue(lines, "verify") == Some("2")
  {
    assert "verify = 2" == "verify" + " = " + "2";
    PrintedSays(lines, 6, "verify", "2");
  }

  lemma DebugSaid(lines: seq<string>, d: string)
    requires ConfigStarts(lines) && lines[7] == "debug = " + d && d != "" && AllDigits(d)
    ensures DirectiveValue(lines, "debug") == Some(d)
  {
    NoBreakInDigits(d);
    assert "debug = " == "debug" + " = ";
    PrintedSays(lines, 7, "debug", d);
  }

  /**
   What a printed config says to stunnel: connect to that server on 20049, listen on that local port, and check the
   server against that CA file and host.
   */
  lemma ConfigSays(v: string, nfsServer: string, p: nat, st: Settings)
    requires Printable(v, nfsServer, st)
    ensures var lines := Lines(BuildConfig(v, nfsServer, p, st));
            && lines != [] && lines[0] == "[" + (v + "]")
            && DirectiveValue(lines, "client") == Some("yes")
            && DirectiveValue(lines, "accept") == Some("127.0.0.1:" + Decimal(p))
            && DirectiveValue(lines, "connect") == Some(nfsServer + ":20049")
            && DirectiveValue(lines, "CAfile") == Some(st.caFile)
            && DirectiveValue(lines, "checkHost") == Some(st.checkHost)
            && DirectiveValue(lines, "verify") == Some("2")
            && DirectiveValue(lines, "debug") == Some(Decimal(st.debugLevel))
  {
    var lines := Lines(BuildConfig(v, nfsServer, p, st));
    ConfigIsPrinted(v, nfsServer, p, st);
    PrintedStarts(lines, v, nfsServer, p, st);
    ClientSaid(lines);
    AcceptSaid(lines, Decimal(p));
    ConnectSaid(lines, nfsServer);
    CAfileSaid(lines, st.caFile);
    CheckHostSaid(lines, st.checkHost);
    VerifySaid(lines);
    DebugSaid(lines, Decimal(st.debugLevel));
  }

  // ------------------------------------------------------------------
  // File names
  // ------------------------------------------------------------------

  const CONF := ".conf"

  function FileName(v: string): string {
    v + CONF
  }

  /** filepath.Ext of a directory entry's name: from the last dot on. */
  function Ext(name: string): string {
    var i := AfterLast(name, '.');
    if i == 0 then "" else name[i - 1..]
  }

  /** The volume a directory entry stands for, if its extension is .conf. */
  function VolumeOf(name: string): Option<string> {
    if Ext(name) == CONF then Some(name[..|name| - |CONF|]) else None
  }

  lemma FileNameIs(v: string)
    ensures FileName(v) == v + ".conf"
  {
  }

  /** File names and volume ids correspond one to one. */
  lemma FileNameRoundTrip(v: string, name: string)
    ensures VolumeOf(FileName(v)) == Some(v)
    ensures VolumeOf(name) == Some(v) ==> name == FileName(v)
  {
    var f := FileName(v);
    var i := AfterLast(f, '.');
    assert f[|v|] == '.' && f[|v|..] == CONF;
    assert forall k :: |v| + 1 <= k < |f| ==> f[k] == CONF[k - |v|];
    assert i == |v| + 1;
    assert f[..|v|] == v;
    if VolumeOf(name) == Some(v) {
      var j := AfterLast(name, '.');
      assert name == name[..j - 1] + name[j - 1..];
    }
  }

  // ------------------------------------------------------------------
  // The directory as a table volume -> port
  // ------------------------------------------------------------------

  /** The port that v's config file names, if there is one and it is in range. */
  function FilePort(dir: map<string, string>, r: PortRange, v: string): Option<int> {
    if FileName(v) !in dir then None
    else
      match ScanLines(Lines(dir[FileName(v)]), r)
      case Accepts(p) => Some(p)
      case _ => None
  }

  /** The directory as the recovery loop sees it. */
  ghost function Files(dir: map<string, string>, r: PortRange): (files: map<string, int>)
    ensures forall v :: v in files <==> FilePort(dir, r, v).Some?
    ensures forall v <- files :: FilePort(dir, r, v) == Some(files[v])
  {
    map v | v in Volumes(dir) && FilePort(dir, r, v).Some? :: FilePort(dir, r, v).value
  }

  ghost function Volumes(dir: map<string, string>): (vs: set<string>)
    ensures forall v :: v in vs <==> FileName(v) in dir
  {
    var vs := set name | name in dir && VolumeOf(name).Some? :: VolumeOf(name).value;
    assert forall v :: v in vs <==> FileName(v) in dir by {
      forall v
        ensures v in vs <==> FileName(v) in dir
      {
        FileNameRoundTrip(v, FileName(v));
        forall name | name in dir && VolumeOf(name) == Some(v)
          ensures name == FileName(v)
        {
          FileNameRoundTrip(v, name);
        }
      }
    }
    vs
  }

  lemma FileNamesDiffer(v: string, w: string)
    requires FileName(v) == FileName(w)
    ensures v == w
  {
    assert FileName(v)[..|v|] == v && FileName(w)[..|w|] == w;
  }

  lemma FilePortAfterWrite(dir: map<string, string>, r: PortRange, v: string, content: string, w: string)
    ensures w != v ==> FilePort(dir[FileName(v) := content], r, w) == FilePort(dir, r, w)
    ensures w != v ==> FilePort(dir - {FileName(v)}, r, w) == FilePort(dir, r, w)
  {
    if FileName(w) == FileName(v) {
      FileNamesDiffer(v, w);
    }
  }

  /** Writing a printed config changes the table at its own volume only, to the port it was printed with. */
  lemma WriteShows(dir: map<string, string>, v: string, nfsServer: string, p: nat, st: Settings, r: PortRange)
    requires '\n' !in v && r.Has(p) && p <= MAX_INT64
    ensures Files(dir[FileName(v) := BuildConfig(v, nfsServer, p, st)], r) == Files(dir, r)[v := p]
  {
    ConfigRoundTrip(v, nfsServer, p, st, r);
    WriteShowsVerdict(dir, v, BuildConfig(v, nfsServer, p, st), p, r);
  }

  lemma WriteShowsVerdict(dir: map<string, string>, v: string, content: string, p: int, r: PortRange)
    requires ScanLines(Lines(content), r) == Accepts(p)
    ensures Files(dir[FileName(v) := content], r) == Files(dir, r)[v := p]
  {
    var dir' := dir[FileName(v) := content];
    assert FilePort(dir', r, v) == Some(p);
    forall w
      ensures w != v ==> FilePort(dir', r, w) == FilePort(dir, r, w)
    {
      FilePortAfterWrite(dir, r, v, content, w);
    }
    FilesUpdate(dir, dir', v, p, r);
  }

  lemma FilesUpdate(dir: map<string, string>, dir': map<string, string>, v: string, p: int, r: PortRange)
    requires FilePort(dir', r, v) == Some(p)
    requires forall w :: w != v ==> FilePort(dir', r, w) == FilePort(dir, r, w)
    ensures Files(dir', r) == Files(dir, r)[v := p]
  {
    SameExcept(Files(dir', r), Files(dir, r)[v := p]);
  }

  lemma SameExcept(a: map<string, int>, b: map<string, int>)
    requires forall w :: w in a <==> w in b
    requires forall w <- a :: w in b && a[w] == b[w]
    ensures a == b
  {
  }

  /** Deleting a config removes its volume from the table. */
  lemma DeleteShows(dir: map<string, string>, v: string, r: PortRange)
    ensures Files(dir - {FileName(v)}, r) == Files(dir, r) - {v}
  {
    SameExcept(Files(dir - {FileName(v)}, r), Files(dir, r) - {v}) by {
      forall w
        ensures w != v ==> FilePort(dir - {FileName(v)}, r, w) == FilePort(dir, r, w)
      {
        FilePortAfterWrite(dir, r, v, "", w);
      }
    }
  }

  // ------------------------------------------------------------------
  // Recovery from a directory listing
  // ------------------------------------------------------------------

  /** The volumes of the .conf entries, in listing order. */
  function ListedVolumes(names: seq<string>): seq<string> {
    if names == [] then []
    else
      var before := ListedVolumes(names[..|names| - 1]);
      match VolumeOf(names[|names| - 1])
      case None => before
      case Some(v) => before + [v]
  }

  /** recoverExistingTunnels: `dir` holds the entries that are plain readable files, `names` the listing. */
  method RecoverExistingTunnels(names: seq<string>, dir: map<string, string>, r: PortRange) returns (m: Maps)
    ensures m == Recovered(ListedVolumes(names), Files(dir, r), r)
  {
    m := NO_TUNNELS;
    for i := 0 to |names|
      invariant m == Recovered(ListedVolumes(names[..i]), Files(dir, r), r)
    {
      RecoveryStep(names, i, Files(dir, r), r);
      var v := VolumeOf(names[i]);
      if v.Some? && names[i] in dir {
        FileNameRoundTrip(v.value, names[i]);
        var verdict := ExtractPortFromConfigFile(dir[names[i]], r);
        assert FilePort(dir, r, v.value) == if verdict.Accepts? then Some(verdict.port) else None;
        if verdict.Accepts? && r.Has(verdict.port) {
          m := m.Bind(v.value, verdict.port);
        }
      } else if v.Some? {
        FileNameRoundTrip(v.value, names[i]);
      }
    }
    assert names[..|names|] == names;
  }

  lemma RecoveryStep(names: seq<string>, i: nat, files: map<string, int>, r: PortRange)
    requires i < |names|
    ensures Recovered(ListedVolumes(names[..i + 1]), files, r) ==
            var before := Recovered(ListedVolumes(names[..i]), files, r);
            match VolumeOf(names[i])
            case None => before
            case Some(v) => if v in files && r.Has(files[v]) then before.Bind(v, files[v]) else before
  {
    assert names[..i + 1][..i] == names[..i];
    var listed := ListedVolumes(names[..i]);
    if VolumeOf(names[i]).Some? {
      assert (listed + [VolumeOf(names[i]).value])[..|listed|] == listed;
    }
  }

  lemma {:induction false} ListedVolumesIn(names: seq<string>, v: string)
    ensures v in ListedVolumes(names) <==> FileName(v) in names
  {
    if names != [] {
      ListedVolumesIn(names[..|names| - 1], v);
      LastListed(names, v);
      InShorter(names, FileName(v));
      LastNamed(v, names[|names| - 1]);
    }
  }

  lemma InShorter<T>(s: seq<T>, y: T)
    requires s != []
    ensures y in s <==> y in s[..|s| - 1] || y == s[|s| - 1]
  {
    assert s == s[..|s| - 1] + [s[|s| - 1]];
  }

  lemma LastNamed(v: string, name: string)
    ensures VolumeOf(name) == Some(v) <==> name == FileName(v)
  {
    FileNameRoundTrip(v, name);
  }

  lemma InLonger<T>(s: seq<T>, x: T, y: T)
    ensures y in s + [x] <==> y in s || y == x
  {
  }

  lemma LastListed(names: seq<string>, v: string)
    requires names != []
    ensures var init, last := names[..|names| - 1], names[|names| - 1];
            v in ListedVolumes(names) <==> v in ListedVolumes(init) || VolumeOf(last) == Some(v)
  {
    var init, last := names[..|names| - 1], names[|names| - 1];
    match VolumeOf(last)
    case None =>
    case Some(w) => InLonger(ListedVolumes(init), w, v);
  }

  lemma FilesAreListed(names: seq<string>, dir: map<string, string>, r: PortRange)
    requires forall name <- dir :: name in names
    ensures forall v <- Files(dir, r) :: v in ListedVolumes(names) && r.Has(Files(dir, r)[v])
  {
    forall v <- Files(dir, r)
      ensures v in ListedVolumes(names) && r.Has(Files(dir, r)[v])
    {
      ListedVolumesIn(names, v);
      AcceptedInRange(dir, r, v);
    }
  }

  lemma AllRecovered(vs: seq<string>, files: map<string, int>, r: PortRange)
    requires forall v <- files :: v in vs && r.Has(files[v])
    ensures var m := Recovered(vs, files, r); m.ports == files && (Inverse(m) <==> Injective(files))
  {
    var m := Recovered(vs, files, r);
    RecoveredContents(vs, files, r);
    SameExcept(m.ports, files);
    if Inverse(m) {
      forall v, w | v in files && w in files && files[v] == files[w]
        ensures v == w
      {
        assert m.owners[m.ports[v]] == v && m.owners[m.ports[w]] == w;
      }
    }
  }

  /**
   Recovery of a directory whose files are all listed: every in-range config is taken over, and the maps are
   inverse exactly when no two configs name one port.
   */
  lemma RecoveryExactly(names: seq<string>, dir: map<string, string>, r: PortRange)
    requires forall name <- dir :: name in names
    ensures var m := Recovered(ListedVolumes(names), Files(dir, r), r);
            m.ports == Files(dir, r) && (Inverse(m) <==> Injective(Files(dir, r)))
  {
    FilesAreListed(names, dir, r);
    AllRecovered(ListedVolumes(names), Files(dir, r), r);
  }

  lemma {:induction false} ScanInRange(lines: seq<string>, r: PortRange)
    ensures ScanLines(lines, r).Accepts? ==> r.Has(ScanLines(lines, r).port)
  {
    if lines != [] {
      ScanInRange(lines[1..], r);
    }
  }

  lemma AcceptedInRange(dir: map<string, string>, r: PortRange, v: string)
    ensures FilePort(dir, r, v).Some? ==> r.Has(FilePort(dir, r, v).value)
  {
    if FileName(v) in dir {
      ScanInRange(Lines(dir[FileName(v)]), r);
    }
  }
}
