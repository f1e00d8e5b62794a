/** Parsing and checking "server:/export/path" before a tunnel is set up for it. */
module NfsSource {
  import opened Wrappers
  import opened Text
  import Hostname

  const MAX_SOURCE := 4096
  const MAX_SERVER := 253
  const MAX_PATH := 4096
  const MAX_COMPONENT := 255

  datatype Source = Source(server: string, exportPath: string)

  predicate IsControl(c: char) {
    c as int < 32 || c as int == 127
  }

  predicate NoControl(path: string) {
    forall i :: 0 <= i < |path| ==> !IsControl(path[i])
  }

  predicate ShortComponents(parts: seq<string>) {
    forall i :: 0 <= i < |parts| ==> ByteLen(parts[i]) <= MAX_COMPONENT
  }

  /** The substring and suffix tests of validateExportPath. */
  predicate NoTraversal(path: string) {
    && !Contains(path, "/../") && !HasSuffix(path, "/..")
    && !Contains(path, "/./") && !HasSuffix(path, "/.")
    && !Contains(path, "//")
  }

  predicate PathOk(path: string) {
    NoTraversal(path) && NoControl(path) && ShortComponents(Split(path, '/'))
  }

  /** validateExportPath. */
  method ValidateExportPath(path: string) returns (ok: bool)
    ensures ok == PathOk(path)
  {
    if Contains(path, "\0") {
      ZeroIsControl(path);
      return false;
    }
    if Contains(path, "/../") || HasSuffix(path, "/..") {
      return false;
    }
    if Contains(path, "/./") || HasSuffix(path, "/.") {
      return false;
    }
    if Contains(path, "//") {
      return false;
    }
    for i := 0 to |path|
      invariant forall k :: 0 <= k < i ==> !IsControl(path[k])
    {
      if IsControl(path[i]) {
        return false;
      }
    }
    var components := Split(path, '/');
    for i := 0 to |components|
      invariant forall k :: 0 <= k < i ==> ByteLen(components[k]) <= MAX_COMPONENT
    {
      if components[i] == "" {
        continue;
      }
      if ByteLen(components[i]) > MAX_COMPONENT {
        return false;
      }
    }
    return true;
  }

  lemma ZeroIsControl(path: string)
    requires Contains(path, "\0")
    ensures !NoControl(path)
  {
    var i :| 0 <= i <= |path| - 1 && At(path, i, "\0");
    assert path[i..i + 1][0] == path[i];
  }

  // ------------------------------------------------------------------
  // What the tests mean for the components
  // ------------------------------------------------------------------

  /** A component strictly between the first and the last. */
  ghost predicate Inner(parts: seq<string>, x: string) {
    exists i :: 0 < i < |parts| - 1 && parts[i] == x
  }

  lemma InnerStep(parts: seq<string>, x: string)
    requires |parts| >= 2
    ensures Inner(parts, x) <==> (|parts| >= 3 && parts[1] == x) || Inner(parts[1..], x)
  {
    if Inner(parts, x) {
      var i :| 0 < i < |parts| - 1 && parts[i] == x;
      assert i > 1 ==> parts[1..][i - 1] == x;
    }
    if Inner(parts[1..], x) {
      var i :| 0 < i < |parts[1..]| - 1 && parts[1..][i] == x;
      assert parts[i + 1] == x;
    }
  }

  lemma PrefixIsFirst(parts: seq<string>, x: string)
    requires |parts| > 0 && Without(parts, '/') && '/' !in x
    ensures HasPrefix(Join(parts, '/'), x + "/") <==> |parts| >= 2 && parts[0] == x
  {
    var s, w := Join(parts, '/'), x + "/";
    if |parts| >= 2 {
      SlashedPrefix(parts[0], Join(parts[1..], '/'), x);
    } else {
      assert w[|x|] == '/';
      NoSlashNoPrefix(s, w);
    }
  }

  /** The text up to the first slash. */
  lemma SlashedPrefix(a: string, rest: string, x: string)
    requires '/' !in a && '/' !in x
    ensures HasPrefix(a + ['/'] + rest, x + "/") <==> a == x
  {
    var s, w := a + ['/'] + rest, x + "/";
    IndexOfIs(a, '/', rest);
    if HasPrefix(s, w) {
      PrefixThen(s, x);
      IndexOfIs(x, '/', s[|w|..]);
    }
    if a == x {
      assert s[..|w|] == w;
    }
  }

  lemma PrefixThen(s: string, x: string)
    requires HasPrefix(s, x + "/")
    ensures s == x + ['/'] + s[|x| + 1..] && s[..|x|] == x
  {
    assert s == s[..|x| + 1] + s[|x| + 1..];
  }

  lemma NoSlashNoPrefix(s: string, w: string)
    requires '/' !in s && '/' in w
    ensures !HasPrefix(s, w)
  {
    if |w| <= |s| {
      assert forall c :: c in s[..|w|] ==> c in s;
    }
  }

  lemma HeadChar(a: string, b: string, i: int)
    requires 0 <= i < |a|
    ensures (a + b)[i] in a
  {
    assert (a + b)[i] == a[i];
  }

  lemma SlashedAt(c0: string, rest: string, x: string, i: int)
    requires '/' !in c0 && At(c0 + "/" + rest, i, "/" + x + "/")
    ensures (i == |c0| && HasPrefix(rest, x + "/")) || (i > |c0| && At(rest, i - |c0| - 1, "/" + x + "/"))
  {
    var s, w := c0 + "/" + rest, "/" + x + "/";
    assert s[i..i + |w|][0] == s[i];
    assert s == c0 + ("/" + rest);
    if i < |c0| {
      HeadChar(c0, "/" + rest, i);
      assert false;
    } else if i == |c0| {
      assert rest[..|x| + 1] == s[i + 1..i + |w|] == w[1..] == x + "/";
    } else {
      assert rest[i - |c0| - 1..i - |c0| - 1 + |w|] == s[i..i + |w|];
    }
  }

  lemma SlashedContains(c0: string, rest: string, x: string)
    requires '/' !in c0
    ensures Contains(c0 + "/" + rest, "/" + x + "/") <==> HasPrefix(rest, x + "/") || Contains(rest, "/" + x + "/")
  {
    var s, w := c0 + "/" + rest, "/" + x + "/";
    if Contains(s, w) {
      var i :| 0 <= i <= |s| - |w| && At(s, i, w);
      SlashedAt(c0, rest, x, i);
    }
    if HasPrefix(rest, x + "/") {
      assert s[|c0|..|c0| + |w|] == "/" + rest[..|x| + 1];
      ContainsAt(s, |c0|, w);
    }
    if Contains(rest, w) {
      var i :| 0 <= i <= |rest| - |w| && At(rest, i, w);
      assert s[|c0| + 1 + i..|c0| + 1 + i + |w|] == rest[i..i + |w|];
      ContainsAt(s, |c0| + 1 + i, w);
    }
  }

  lemma {:induction false} ContainsIsInner(parts: seq<string>, x: string)
    requires |parts| > 0 && Without(parts, '/') && '/' !in x
    ensures Contains(Join(parts, '/'), "/" + x + "/") <==> Inner(parts, x)
  {
    if |parts| == 1 {
      NoSlashNoMatch(parts[0], "/" + x + "/");
    } else {
      var rest := Join(parts[1..], '/');
      ContainsIsInner(parts[1..], x);
      PrefixIsFirst(parts[1..], x);
      SlashedContains(parts[0], rest, x);
      InnerStep(parts, x);
    }
  }

  lemma NoSlashNoMatch(s: string, w: string)
    requires '/' !in s && '/' in w
    ensures !Contains(s, w)
  {
    forall i
      ensures !At(s, i, w)
    {
      if 0 <= i <= |s| - |w| {
        assert forall c :: c in s[i..i + |w|] ==> c in s;
      }
    }
  }

  lemma {:induction false} JoinLast(parts: seq<string>, c: char)
    requires |parts| >= 2
    ensures Join(parts, c) == Join(parts[..|parts| - 1], c) + [c] + parts[|parts| - 1]
  {
    var init, last := parts[..|parts| - 1], parts[|parts| - 1];
    if |parts| > 2 {
      JoinLast(parts[1..], c);
      assert parts[1..][..|parts| - 2] == init[1..];
      var mid := Join(init[1..], c);
      assert parts[0] + [c] + (mid + [c] + last) == parts[0] + [c] + mid + [c] + last;
    }
  }

  lemma SuffixIsLast(parts: seq<string>, x: string)
    requires |parts| >= 2 && Without(parts, '/') && '/' !in x
    ensures HasSuffix(Join(parts, '/'), "/" + x) <==> parts[|parts| - 1] == x
  {
    JoinLast(parts, '/');
    SlashedSuffix(Join(parts[..|parts| - 1], '/'), parts[|parts| - 1], x);
  }

  /** The text after the last slash. */
  lemma SlashedSuffix(init: string, last: string, x: string)
    requires '/' !in last && '/' !in x
    ensures HasSuffix(init + ['/'] + last, "/" + x) <==> last == x
  {
    var s, w := init + ['/'] + last, "/" + x;
    AfterLastIs(init, '/', last);
    if HasSuffix(s, w) {
      SuffixThen(s, x);
      AfterLastIs(s[..|s| - |w|], '/', x);
      assert s[|init| + 1..] == last;
    }
    if last == x {
      assert s[|s| - |w|..] == w;
    }
  }

  lemma SuffixThen(s: string, x: string)
    requires HasSuffix(s, "/" + x)
    ensures var k := |s| - |x| - 1; s == s[..k] + ['/'] + x && s[k + 1..] == x
  {
    var k := |s| - |x| - 1;
    assert s[k..] == "/" + x;
    assert s == s[..k] + s[k..];
  }

  /** No "." and no ".." component, and no empty one except the first and the last. */
  ghost predicate CleanComponents(parts: seq<string>) {
    && (forall i :: 0 <= i < |parts| ==> parts[i] != "." && parts[i] != "..")
    && (forall i :: 0 < i < |parts| - 1 ==> parts[i] != "")
  }

  /** For every absolute path, the substring and suffix tests pass exactly when the components are clean. */
  lemma TraversalCheckExactly(path: string)
    requires path != "" && path[0] == '/'
    ensures NoTraversal(path) <==> CleanComponents(Split(path, '/'))
  {
    var parts := Split(path, '/');
    SplitThenJoin(path, '/');
    assert parts[0] == "" && |parts| >= 2;
    ContainsIsInner(parts, "..");
    ContainsIsInner(parts, ".");
    ContainsIsInner(parts, "");
    SuffixIsLast(parts, "..");
    SuffixIsLast(parts, ".");
    assert "/" + ".." + "/" == "/../" && "/" + "." + "/" == "/./" && "/" + "" + "/" == "//";
    assert "/" + ".." == "/.." && "/" + "." == "/.";
    if !CleanComponents(parts) {
      var i :| 0 <= i < |parts| && (parts[i] == "." || parts[i] == ".." || (0 < i < |parts| - 1 && parts[i] == ""));
      assert i != 0;
    }
  }

  // ------------------------------------------------------------------
  // The whole source string
  // ------------------------------------------------------------------

  /** validateNFSServer; `isIP` answers net.ParseIP. */
  predicate ServerOk(server: string, isIP: string -> bool)
    ensures ServerOk(server, isIP) <==> isIP(server) || Hostname.Matches(Hostname.HOSTNAME, server)
  {
    Hostname.HostnameExactly(server);
    isIP(server) || Hostname.AllLabels(Split(server, '.'))
  }

  /** splitNFSSource. */
  function SplitNFSSource(source: string, isIP: string -> bool): Result<Source> {
    if source == "" then Err("empty source")
    else if ByteLen(source) > MAX_SOURCE then Err("source too long")
    else
      var colon := IndexOf(source, ':');
      if colon == |source| then Err("missing ':'")
      else CheckParts(source[..colon], source[colon + 1..], isIP)
  }

  /** The checks on the two parts. */
  function CheckParts(server: string, path: string, isIP: string -> bool): (r: Result<Source>)
    ensures r.Ok? ==> r.value == Source(server, path)
  {
    if server == "" then Err("empty server")
    else if ByteLen(server) > MAX_SERVER then Err("server too long")
    else if !ServerOk(server, isIP) then Err("invalid server")
    else if path == "" then Err("empty path")
    else if ByteLen(path) > MAX_PATH then Err("path too long")
    else if path[0] != '/' then Err("path must start with '/'")
    else if !PathOk(path) then Err("invalid path")
    else Ok(Source(server, path))
  }

  /** What an acceptable path looks like: no control character, no dots, no empty or long component. */
  ghost predicate WellFormedPath(path: string) {
    && path != "" && path[0] == '/'
    && (forall i :: 0 <= i < |path| ==> path[i] as int >= 32 && path[i] as int != 127)
    && CleanComponents(Split(path, '/'))
    && (forall i :: 0 <= i < |Split(path, '/')| ==> ByteLen(Split(path, '/')[i]) <= 255)
  }

  /** What an acceptable server looks like: an IP address or a host name of at most 253 bytes. */
  ghost predicate WellFormedServer(server: string, isIP: string -> bool) {
    && server != "" && ByteLen(server) <= 253
    && (isIP(server) || forall i :: 0 <= i < |Split(server, '.')| ==> Hostname.Label1123(Split(server, '.')[i]))
  }

  /** What an acceptable source looks like, without reference to how it is taken apart. */
  ghost predicate WellFormed(server: string, path: string, isIP: string -> bool) {
    WellFormedServer(server, isIP) && WellFormedPath(path)
  }

  /** validateExportPath on a path that starts with '/'. */
  lemma PathExactly(path: string)
    requires path != "" && path[0] == '/'
    ensures PathOk(path) <==> WellFormedPath(path)
  {
    TraversalCheckExactly(path);
    assert NoControl(path) <==> forall i :: 0 <= i < |path| ==> path[i] as int >= 32 && path[i] as int != 127;
  }

  lemma {:induction false} ByteLenConcat(a: string, b: string)
    ensures ByteLen(a + b) == ByteLen(a) + ByteLen(b)
  {
    if a == "" {
      assert a + b == b;
    } else {
      assert (a + b)[1..] == a[1..] + b;
      ByteLenConcat(a[1..], b);
    }
  }

  lemma PartsExactly(server: string, path: string, isIP: string -> bool)
    ensures CheckParts(server, path, isIP).Ok? <==> WellFormed(server, path, isIP) && ByteLen(path) <= 4096
  {
    Hostname.HostnameExactly(server);
    if path != "" && path[0] == '/' {
      PathExactly(path);
    }
  }

  lemma ColonSplit(source: string, server: string, path: string)
    ensures (var i := IndexOf(source, ':'); i < |source| && source[..i] == server && source[i + 1..] == path) <==>
            source == server + ":" + path && ':' !in server
  {
    var i := IndexOf(source, ':');
    if source == server + ":" + path && ':' !in server {
      IndexOfIs(server, ':', path);
      Pieces(server, path);
    }
    if i < |source| && source[..i] == server && source[i + 1..] == path {
      Glued(source, i);
    }
  }

  lemma Pieces(server: string, path: string)
    ensures var s := server + ":" + path; s[..|server|] == server && s[|server| + 1..] == path
  {
  }

  lemma Glued(source: string, i: nat)
    requires i < |source| && source[i] == ':'
    ensures source == source[..i] + ":" + source[i + 1..]
  {
  }

  /**
   A source is split into server and path exactly when it is server:path, no colon in the server, both parts well-
   formed, at most 4096 bytes in all.
   */
  lemma SourceExactly(source: string, server: string, path: string, isIP: string -> bool)
    ensures SplitNFSSource(source, isIP) == Ok(Source(server, path)) <==>
            && source == server + ":" + path && ':' !in server
            && WellFormed(server, path, isIP) && ByteLen(source) <= 4096
  {
    ColonSplit(source, server, path);
    PartsExactly(server, path, isIP);
    if source == server + ":" + path {
      ByteLenConcat(server + ":", path);
    }
  }
}
