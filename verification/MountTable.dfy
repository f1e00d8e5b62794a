/**
 The in-use test of the tunnel manager: it reads /proc/mounts as text and looks for three
 substrings in one line.
 */
module MountTable {
  import opened Wrappers
  import opened Text
  import opened PortMaps

  const PORT_TEXT := "port="

  predicate LineMatches(line: string, p: nat) {
    Contains(line, "nfs4") && Contains(line, "127.0.0.1:") && Contains(line, PORT_TEXT + Decimal(p))
  }

  /** Some line of the table matches. */
  ghost predicate TextMatches(table: string, p: nat) {
    exists line <- Lines(table) :: LineMatches(line, p)
  }

  /** isTunnelPortInUse: counts the matching lines; an unreadable table counts as in use. */
  method IsTunnelPortInUse(mounts: Option<string>, p: nat) returns (inUse: bool)
    ensures inUse == (mounts.None? || TextMatches(mounts.value, p))
  {
    if mounts.None? {
      return true;
    }
    var lines := Lines(mounts.value);
    var mountCount: nat := 0;
    for i := 0 to |lines|
      invariant mountCount > 0 <==> exists k :: 0 <= k < i && LineMatches(lines[k], p)
    {
      if LineMatches(lines[i], p) {
        mountCount := mountCount + 1;
      }
    }
    inUse := mountCount > 0;
  }

  // ------------------------------------------------------------------
  // The lines that a published tunnel leaves in the table
  // ------------------------------------------------------------------

  /** A live tunnelled mount: the options printed before the tunnel port, the port, the options printed after it. */
  datatype TunnelMount =
    TunnelMount(exportPath: string, target: string, flags: seq<string>, port: nat, after: seq<string>)

  function FlagText(flags: seq<string>): string {
    if flags == [] then "" else flags[0] + "," + FlagText(flags[1..])
  }

  /** Everything before the port option. */
  function Before(m: TunnelMount): string {
    "127.0.0.1:" + m.exportPath + " " + (m.target + " " + ("nfs4" + " " + FlagText(m.flags)))
  }

  function AfterText(after: seq<string>): string {
    if after == [] then " 0 0" else "," + after[0] + AfterText(after[1..])
  }

  function MountLine(m: TunnelMount): string {
    Before(m) + (PORT_TEXT + Decimal(m.port) + AfterText(m.after))
  }

  /** No part of the line other than the port option spells "port=". */
  ghost predicate Plain(m: TunnelMount) {
    && !Contains(m.exportPath, PORT_TEXT) && !Contains(m.target, PORT_TEXT)
    && (forall i :: 0 <= i < |m.flags| ==> !Contains(m.flags[i], PORT_TEXT))
    && (forall i :: 0 <= i < |m.after| ==> !Contains(m.after[i], PORT_TEXT))
  }

  lemma ShortHasNoPort(s: string)
    requires forall i :: 0 <= i < |s| ==> s[i] != '='
    ensures !Contains(s, PORT_TEXT)
  {
    forall i
      ensures !At(s, i, PORT_TEXT)
    {
      if 0 <= i <= |s| - 5 {
        assert s[i..i + 5][4] != PORT_TEXT[4];
      }
    }
  }

  lemma {:induction false} FlagsHaveNoPort(flags: seq<string>)
    requires forall i :: 0 <= i < |flags| ==> !Contains(flags[i], PORT_TEXT)
    ensures !Contains(FlagText(flags), PORT_TEXT)
  {
    if flags == [] {
      ShortHasNoPort("");
    } else {
      FlagsHaveNoPort(flags[1..]);
      NotAcross(flags[0], ',', FlagText(flags[1..]), PORT_TEXT);
    }
  }

  lemma SourceHasNoPort(path: string)
    requires !Contains(path, PORT_TEXT)
    ensures !Contains("127.0.0.1:" + path, PORT_TEXT)
  {
    ShortHasNoPort("127.0.0.1");
    NotAcross("127.0.0.1", ':', path, PORT_TEXT);
    assert "127.0.0.1" + [':'] + path == "127.0.0.1:" + path;
  }

  lemma BeforeHasNoPort(m: TunnelMount)
    requires Plain(m)
    ensures !Contains(Before(m), PORT_TEXT)
  {
    FlagsHaveNoPort(m.flags);
    ShortHasNoPort("nfs4");
    SourceHasNoPort(m.exportPath);
    NotAcross("nfs4", ' ', FlagText(m.flags), PORT_TEXT);
    NotAcross(m.target, ' ', "nfs4" + " " + FlagText(m.flags), PORT_TEXT);
    NotAcross("127.0.0.1:" + m.exportPath, ' ', m.target + " " + ("nfs4" + " " + FlagText(m.flags)), PORT_TEXT);
  }

  /** The text before the port option ends in a blank or a comma. */
  lemma {:induction false} FlagTextEnd(flags: seq<string>)
    ensures flags != [] ==> FlagText(flags) != "" && FlagText(flags)[|FlagText(flags)| - 1] == ','
  {
    if |flags| > 1 {
      FlagTextEnd(flags[1..]);
    }
  }

  lemma BeforeEnds(m: TunnelMount)
    ensures var b := Before(m); b != "" && (b[|b| - 1] == ',' || b[|b| - 1] == ' ')
  {
    FlagTextEnd(m.flags);
  }

  /** The text after the port number starts with a comma or a blank and has no port option. */
  lemma {:induction false} AfterHasNoPort(after: seq<string>)
    requires forall i :: 0 <= i < |after| ==> !Contains(after[i], PORT_TEXT)
    ensures !Contains(AfterText(after), PORT_TEXT)
    ensures var a := AfterText(after); a != "" && (a[0] == ',' || a[0] == ' ') && a[|a| - 1] == '0'
  {
    if after == [] {
      ShortHasNoPort(" 0 0");
    } else {
      var rest := AfterText(after[1..]);
      AfterHasNoPort(after[1..]);
      assert rest == [rest[0]] + rest[1..];
      PartHasNoPort(rest, 1, |rest|);
      assert rest[1..|rest|] == rest[1..];
      NotAcross(after[0], rest[0], rest[1..], PORT_TEXT);
      assert after[0] + [rest[0]] + rest[1..] == after[0] + rest;
      ShortHasNoPort("");
      NotAcross("", ',', after[0] + rest, PORT_TEXT);
      assert "" + [','] + (after[0] + rest) == AfterText(after);
    }
  }

  lemma PartOfPart(s: string, i: int, j: int, k: int, l: int)
    requires 0 <= i <= j <= |s| && 0 <= k <= l <= j - i
    ensures s[i..j][k..l] == s[i + k..i + l]
  {
    var part, whole := s[i..j][k..l], s[i + k..i + l];
    assert forall n :: 0 <= n < l - k ==> part[n] == s[i..j][k + n] == s[i + (k + n)] == whole[n];
  }

  lemma PartHasNoPort(s: string, i: int, j: int)
    requires !Contains(s, PORT_TEXT) && 0 <= i <= j <= |s|
    ensures !Contains(s[i..j], PORT_TEXT)
  {
    forall k
      ensures !At(s[i..j], k, PORT_TEXT)
    {
      if At(s[i..j], k, PORT_TEXT) {
        PartOfPart(s, i, j, k, k + |PORT_TEXT|);
        ContainsAt(s, i + k, PORT_TEXT);
        assert false;
      }
    }
  }

  lemma NoPortNoOption(s: string, digits: string, i: int)
    requires !Contains(s, PORT_TEXT)
    ensures !At(s, i, PORT_TEXT + digits)
  {
    if At(s, i, PORT_TEXT + digits) {
      AtHead(s, i, PORT_TEXT, digits);
      ContainsAt(s, i, PORT_TEXT);
      assert false;
    }
  }

  /** The option text starts a port option only at its own start. */
  lemma OptionStart(digits: string, i: int)
    requires AllDigits(digits) && At(PORT_TEXT + digits, i, PORT_TEXT)
    ensures i == 0
  {
    var y := PORT_TEXT + digits;
    assert y[i..i + 5][0] == y[i];
    assert forall k :: 5 <= k < |y| ==> y[k] == digits[k - 5];
  }

  lemma OptionInOption(d: string, digits: string, i: int)
    requires AllDigits(d) && At(PORT_TEXT + d, i, PORT_TEXT + digits)
    ensures HasPrefix(d, digits)
  {
    var x, y := PORT_TEXT + digits, PORT_TEXT + d;
    AtHead(y, i, PORT_TEXT, digits);
    OptionStart(d, i);
    assert y[0..|x|] == x;
    assert d[..|digits|] == y[5..|x|] == x[5..];
  }

  /** With no other port option around, the option of q is found in the search for p exactly if p's digits begin q's. */
  lemma OnlyThisPort(left: string, c: char, d: string, c': char, right: string, digits: string)
    requires !Contains(left, PORT_TEXT) && !Contains(right, PORT_TEXT) && AllDigits(d) && AllDigits(digits)
    requires (c == ',' || c == ' ') && (c' == ',' || c' == ' ')
    ensures Contains(left + [c] + (PORT_TEXT + d + [c'] + right), PORT_TEXT + digits) <==> HasPrefix(d, digits)
  {
    var x, y := PORT_TEXT + digits, PORT_TEXT + d;
    if HasPrefix(d, digits) {
      var rest := d[|digits|..] + [c'] + right;
      assert d == digits + d[|digits|..];
      assert left + [c] + (y + [c'] + right) == left + [c] + x + rest;
      ContainsMiddle(left + [c], x, rest);
    } else {
      NotInOption(d, digits);
      NotInPlain(left, digits);
      NotInPlain(right, digits);
      NotAcross(y, c', right, x);
      NotAcross(left, c, y + [c'] + right, x);
    }
  }

  lemma NotInOption(d: string, digits: string)
    requires AllDigits(d) && !HasPrefix(d, digits)
    ensures !Contains(PORT_TEXT + d, PORT_TEXT + digits)
  {
    forall i
      ensures !At(PORT_TEXT + d, i, PORT_TEXT + digits)
    {
      if At(PORT_TEXT + d, i, PORT_TEXT + digits) {
        OptionInOption(d, digits, i);
        assert false;
      }
    }
  }

  lemma NotInPlain(s: string, digits: string)
    requires !Contains(s, PORT_TEXT)
    ensures !Contains(s, PORT_TEXT + digits)
  {
    forall i
      ensures !At(s, i, PORT_TEXT + digits)
    {
      NoPortNoOption(s, digits, i);
    }
  }

  /** The line, cut at the separators around the port option. */
  lemma LineParts(m: TunnelMount)
    ensures var b, a := Before(m), AfterText(m.after);
            b != "" && a != "" ==>
              MountLine(m) == b[..|b| - 1] + [b[|b| - 1]] + (PORT_TEXT + Decimal(m.port) + [a[0]] + a[1..])
  {
    var b, a := Before(m), AfterText(m.after);
    if b != "" && a != "" {
      assert b == b[..|b| - 1] + [b[|b| - 1]];
      assert a == [a[0]] + a[1..];
    }
  }

  /** p's digits begin q's digits. */
  predicate Begins(p: nat, q: nat) {
    HasPrefix(Decimal(q), Decimal(p))
  }

  /** A line of a published tunnel matches p exactly when p's digits begin those of the tunnel's port. */
  lemma MountLineMatches(m: TunnelMount, p: nat)
    requires Plain(m)
    ensures LineMatches(MountLine(m), p) <==> Begins(p, m.port)
  {
    var b, a := Before(m), AfterText(m.after);
    BeforeHasNoPort(m);
    BeforeEnds(m);
    AfterHasNoPort(m.after);
    HasMarkers(m);
    PartHasNoPort(b, 0, |b| - 1);
    PartHasNoPort(a, 1, |a|);
    assert a[1..|a|] == a[1..] && b[0..|b| - 1] == b[..|b| - 1];
    LineParts(m);
    OnlyThisPort(b[..|b| - 1], b[|b| - 1], Decimal(m.port), a[0], a[1..], Decimal(p));
  }

  lemma AtHead(s: string, i: int, x: string, y: string)
    requires At(s, i, x + y)
    ensures At(s, i, x)
  {
    assert s[i..i + |x|] == s[i..i + |x + y|][..|x|];
    assert (x + y)[..|x|] == x;
  }

  lemma HasMarkers(m: TunnelMount)
    ensures Contains(MountLine(m), "nfs4") && Contains(MountLine(m), "127.0.0.1:")
  {
    var rest := " " + FlagText(m.flags) + (PORT_TEXT + Decimal(m.port) + AfterText(m.after));
    var left := "127.0.0.1:" + m.exportPath + " " + m.target + " ";
    assert MountLine(m) == left + "nfs4" + rest;
    ContainsMiddle(left, "nfs4", rest);
    var right := m.exportPath + " " + m.target + " " + "nfs4" + rest;
    assert MountLine(m) == "" + "127.0.0.1:" + right;
    ContainsMiddle("", "127.0.0.1:", right);
  }

  lemma ContainsMiddle(left: string, x: string, right: string)
    ensures Contains(left + x + right, x)
  {
    var s := left + x + right;
    assert s[|left|..|left| + |x|] == x;
    ContainsAt(s, |left|, x);
  }

  // ------------------------------------------------------------------
  // The whole table
  // ------------------------------------------------------------------

  /** One line of the table: a published tunnel, or a line that lacks a mount marker or any port option. */
  datatype Entry = Tunnelled(mount: TunnelMount) | Other(line: string)

  function EntryLine(e: Entry): string {
    match e
    case Tunnelled(m) => MountLine(m)
    case Other(line) => line
  }

  ghost predicate Regular(e: Entry) {
    && '\n' !in EntryLine(e)
    && match e
       case Tunnelled(m) => Plain(m)
       case Other(line) => !Contains(line, "nfs4") || !Contains(line, "127.0.0.1:") || !Contains(line, PORT_TEXT)
  }

  ghost predicate RegularTable(es: seq<Entry>) {
    forall i :: 0 <= i < |es| ==> Regular(es[i])
  }

  function TableText(es: seq<Entry>): string {
    if es == [] then "" else EntryLine(es[0]) + "\n" + TableText(es[1..])
  }

  ghost predicate Uses(es: seq<Entry>, p: nat) {
    exists e <- es :: e.Tunnelled? && e.mount.port == p
  }

  /** Some tunnelled mount uses a port whose digits begin with p's. */
  ghost predicate Spells(es: seq<Entry>, p: nat) {
    exists e <- es :: e.Tunnelled? && Begins(p, e.mount.port)
  }

  lemma EntryMatches(e: Entry, p: nat)
    requires Regular(e)
    ensures LineMatches(DropCR(EntryLine(e)), p) <==> e.Tunnelled? && Begins(p, e.mount.port)
  {
    match e
    case Tunnelled(m) =>
      MountLineMatches(m, p);
      AfterHasNoPort(m.after);
      assert MountLine(m)[|MountLine(m)| - 1] == '0';
    case Other(line) =>
      DropCRContains(line, "nfs4");
      DropCRContains(line, "127.0.0.1:");
      DropCRContains(line, PORT_TEXT + Decimal(p));
      if !Contains(line, PORT_TEXT) {
        NotInPlain(line, Decimal(p));
      }
  }

  lemma DropCRContains(s: string, x: string)
    ensures Contains(DropCR(s), x) ==> Contains(s, x)
  {
    if Contains(DropCR(s), x) {
      var i :| 0 <= i <= |DropCR(s)| - |x| && At(DropCR(s), i, x);
      assert s[i..i + |x|] == DropCR(s)[i..i + |x|];
      ContainsAt(s, i, x);
    }
  }

  /** The text test says "in use" exactly when a live tunnelled mount uses a port whose digits begin with p's. */
  lemma {:induction false} InUseByDigits(es: seq<Entry>, p: nat)
    requires RegularTable(es)
    ensures TextMatches(TableText(es), p) <==> Spells(es, p)
  {
    if es != [] {
      var e, rest := es[0], es[1..];
      InUseByDigits(rest, p);
      LinesHead(EntryLine(e), TableText(rest));
      EntryMatches(e, p);
      assert es == [e] + rest;
      assert Lines(TableText(es)) == [DropCR(EntryLine(e))] + Lines(TableText(rest));
      assert Spells(es, p) <==> (e.Tunnelled? && Begins(p, e.mount.port)) || Spells(rest, p);
    }
  }

  // ------------------------------------------------------------------
  // Ranges of ports
  // ------------------------------------------------------------------

  /** No port of the range begins another. */
  ghost predicate PrefixFree(r: PortRange) {
    forall p: nat, q: nat :: r.Has(p) && r.Has(q) && Begins(p, q) ==> p == q
  }

  ghost predicate InRange(es: seq<Entry>, r: PortRange) {
    forall e <- es :: e.Tunnelled? ==> r.Has(e.mount.port)
  }

  /** In such a range the text test says "in use" exactly when a live tunnelled mount uses the port. */
  lemma InUseExactly(es: seq<Entry>, r: PortRange, p: nat)
    requires PrefixFree(r) && r.Has(p) && RegularTable(es) && InRange(es, r)
    ensures TextMatches(TableText(es), p) <==> Uses(es, p)
  {
    InUseByDigits(es, p);
    if Uses(es, p) {
      var e :| e in es && e.Tunnelled? && e.mount.port == p;
      assert Begins(p, e.mount.port);
    }
  }

  ghost predicate Answers(es: seq<Entry>, p: nat) {
    TextMatches(TableText(es), p) <==> Uses(es, p)
  }

  /** The table with one tunnelled mount. */
  function OneMount(q: nat): seq<Entry> {
    [Tunnelled(TunnelMount("/e", "/t", [], q, []))]
  }

  lemma OneMountIsRegular(q: nat)
    ensures RegularTable(OneMount(q))
  {
    var m := TunnelMount("/e", "/t", [], q, []);
    ShortHasNoPort("/e");
    ShortHasNoPort("/t");
    OneMountBefore(q);
    NotInDigits(Decimal(q), '\n');
    NotInEither(PORT_TEXT, Decimal(q), '\n');
    NotInEither(PORT_TEXT + Decimal(q), AfterText(m.after), '\n');
    NotInEither(Before(m), PORT_TEXT + Decimal(q) + AfterText(m.after), '\n');
  }

  lemma OneMountBefore(q: nat)
    ensures Before(TunnelMount("/e", "/t", [], q, [])) == "127.0.0.1:/e /t nfs4 "
  {
  }

  lemma NotInDigits(s: string, c: char)
    requires AllDigits(s) && !IsDigit(c)
    ensures c !in s
  {
  }

  lemma NotInEither(a: string, b: string, c: char)
    requires c !in a && c !in b
    ensures c !in a + b
  {
  }

  /** The test is right on every regular table of a range exactly when no port of the range begins another. */
  lemma TestIsRightExactly(r: PortRange)
    ensures PrefixFree(r) <==>
            forall es, p: nat :: RegularTable(es) && InRange(es, r) && r.Has(p) ==> Answers(es, p)
  {
    if PrefixFree(r) {
      forall es, p: nat | RegularTable(es) && InRange(es, r) && r.Has(p)
        ensures Answers(es, p)
      {
        InUseExactly(es, r, p);
      }
    }
    forall p: nat, q: nat | r.Has(p) && r.Has(q) && Begins(p, q) && p != q
      ensures RegularTable(OneMount(q)) && InRange(OneMount(q), r) && !Answers(OneMount(q), p)
    {
      OneMountIsRegular(q);
      InUseByDigits(OneMount(q), p);
      assert OneMount(q)[0] in OneMount(q);
    }
  }

  /** Ports with equally many digits do not begin each other; the configured ones all have five. */
  lemma ConfiguredRange()
    ensures PrefixFree(PortRange(11300, 300))
  {
    forall p: nat, q: nat | PortRange(11300, 300).Has(p) && PortRange(11300, 300).Has(q) && Begins(p, q)
      ensures p == q
    {
      FiveDigits(p);
      FiveDigits(q);
      assert Decimal(q)[..5] == Decimal(q);
      DecimalIsInjective(p, q);
    }
  }
}
