/**
 The hostname pattern of the NFS source check, as a regular expression with the usual
 language semantics, and the labels of RFC 1123 section 2.1 that it stands for.
 */
module Hostname {
  import opened Text

  datatype Class = AlNum | AlNumHyphen | Dot

  predicate IsAlNum(c: char) {
    'a' <= c <= 'z' || 'A' <= c <= 'Z' || '0' <= c <= '9'
  }

  predicate InClass(k: Class, c: char) {
    match k
    case AlNum => IsAlNum(c)
    case AlNumHyphen => IsAlNum(c) || c == '-'
    case Dot => c == '.'
  }

  datatype Re =
    | Char(k: Class)
    | Cat(first: Re, second: Re)
    | Opt(body: Re)
    | UpTo(body: Re, max: nat)   // {0,max}
    | Star(body: Re)

  ghost function Size(re: Re): nat {
    match re
    case Char(_) => 0
    case Cat(a, b) => 1 + Size(a) + Size(b)
    case Opt(a) => 1 + Size(a)
    case UpTo(a, n) => 1 + Size(a) + n
    case Star(a) => 1 + Size(a)
  }

  /** The whole of s is in the language of re. */
  ghost predicate Matches(re: Re, s: string)
    decreases Size(re), |s|
  {
    match re
    case Char(k) => |s| == 1 && InClass(k, s[0])
    case Cat(a, b) => exists i :: 0 <= i <= |s| && Matches(a, s[..i]) && Matches(b, s[i..])
    case Opt(a) => s == "" || Matches(a, s)
    case UpTo(a, n) =>
      s == "" || (n > 0 && exists i :: 0 <= i <= |s| && Matches(a, s[..i]) && Matches(UpTo(a, n - 1), s[i..]))
    case Star(a) => s == "" || exists i :: 0 < i <= |s| && Matches(a, s[..i]) && Matches(Star(a), s[i..])
  }

  const INNER := Cat(UpTo(Char(AlNumHyphen), 61), Char(AlNum))
  const LABEL := Cat(Char(AlNum), Opt(INNER))
  const DOTTED := Cat(LABEL, Char(Dot))
  /** validHostnameRegex. */
  const HOSTNAME := Cat(Star(DOTTED), LABEL)

  // ------------------------------------------------------------------
  // Labels
  // ------------------------------------------------------------------

  predicate AllIn(k: Class, s: string) {
    forall i :: 0 <= i < |s| ==> InClass(k, s[i])
  }

  /** 1 to 63 letters, digits and hyphens, alphanumeric at both ends. */
  predicate IsLabel(s: string) {
    1 <= |s| <= 63 && AllIn(AlNumHyphen, s) && IsAlNum(s[0]) && IsAlNum(s[|s| - 1])
  }

  lemma CatIs(a: Re, b: Re, s: string, i: int)
    requires 0 <= i <= |s| && Matches(a, s[..i]) && Matches(b, s[i..])
    ensures Matches(Cat(a, b), s)
  {
  }

  lemma {:induction false} UpToIs(k: Class, n: nat, s: string)
    ensures Matches(UpTo(Char(k), n), s) <==> |s| <= n && AllIn(k, s)
    decreases n
  {
    if s != "" && n > 0 {
      if Matches(UpTo(Char(k), n), s) {
        var i :| 0 <= i <= |s| && Matches(Char(k), s[..i]) && Matches(UpTo(Char(k), n - 1), s[i..]);
        UpToIs(k, n - 1, s[i..]);
        assert s == s[..i] + s[i..];
      }
      if |s| <= n && AllIn(k, s) {
        UpToIs(k, n - 1, s[1..]);
        assert Matches(Char(k), s[..1]) && Matches(UpTo(Char(k), n - 1), s[1..]);
      }
    }
  }

  lemma InnerIs(s: string)
    ensures Matches(INNER, s) <==> 1 <= |s| <= 62 && AllIn(AlNumHyphen, s) && IsAlNum(s[|s| - 1])
  {
    if Matches(INNER, s) {
      var i :| 0 <= i <= |s| && Matches(UpTo(Char(AlNumHyphen), 61), s[..i]) && Matches(Char(AlNum), s[i..]);
      InnerParts(s, i);
    }
    if 1 <= |s| <= 62 && AllIn(AlNumHyphen, s) && IsAlNum(s[|s| - 1]) {
      InnerMatches(s);
    }
  }

  lemma InnerParts(s: string, i: int)
    requires 0 <= i <= |s| && Matches(UpTo(Char(AlNumHyphen), 61), s[..i]) && Matches(Char(AlNum), s[i..])
    ensures 1 <= |s| <= 62 && AllIn(AlNumHyphen, s) && IsAlNum(s[|s| - 1])
  {
    UpToIs(AlNumHyphen, 61, s[..i]);
    assert s == s[..i] + s[i..];
  }

  lemma InnerMatches(s: string)
    requires 1 <= |s| <= 62 && AllIn(AlNumHyphen, s) && IsAlNum(s[|s| - 1])
    ensures Matches(INNER, s)
  {
    UpToIs(AlNumHyphen, 61, s[..|s| - 1]);
    assert Matches(Char(AlNum), s[|s| - 1..]);
    CatIs(UpTo(Char(AlNumHyphen), 61), Char(AlNum), s, |s| - 1);
  }

  lemma LabelIs(s: string)
    ensures Matches(LABEL, s) <==> IsLabel(s)
  {
    if Matches(LABEL, s) {
      var i :| 0 <= i <= |s| && Matches(Char(AlNum), s[..i]) && Matches(Opt(INNER), s[i..]);
      InnerIs(s[i..]);
      assert s == s[..i] + s[i..];
    }
    if IsLabel(s) {
      assert Matches(Char(AlNum), s[..1]);
      if |s| > 1 {
        InnerIs(s[1..]);
      }
      assert Matches(Opt(INNER), s[1..]);
      CatIs(Char(AlNum), Opt(INNER), s, 1);
    }
  }

  // ------------------------------------------------------------------
  // Dotted names
  // ------------------------------------------------------------------

  predicate AllLabels(ls: seq<string>) {
    forall i :: 0 <= i < |ls| ==> IsLabel(ls[i])
  }

  lemma DottedIs(s: string)
    ensures Matches(DOTTED, s) <==> s != "" && s[|s| - 1] == '.' && IsLabel(s[..|s| - 1])
  {
    if Matches(DOTTED, s) {
      var i :| 0 <= i <= |s| && Matches(LABEL, s[..i]) && Matches(Char(Dot), s[i..]);
      DottedParts(s, i);
    }
    if s != "" && s[|s| - 1] == '.' && IsLabel(s[..|s| - 1]) {
      DottedMatches(s);
    }
  }

  lemma DottedParts(s: string, i: int)
    requires 0 <= i <= |s| && Matches(LABEL, s[..i]) && Matches(Char(Dot), s[i..])
    ensures s != "" && s[|s| - 1] == '.' && IsLabel(s[..|s| - 1])
  {
    LabelIs(s[..i]);
    assert i == |s| - 1;
  }

  lemma DottedMatches(s: string)
    requires s != "" && s[|s| - 1] == '.' && IsLabel(s[..|s| - 1])
    ensures Matches(DOTTED, s)
  {
    LabelIs(s[..|s| - 1]);
    assert Matches(Char(Dot), s[|s| - 1..]);
    CatIs(LABEL, Char(Dot), s, |s| - 1);
  }

  /** A starred prefix and a last label make a list of labels. */
  lemma {:induction false} NameToLabels(pre: string, last: string) returns (ls: seq<string>)
    requires Matches(Star(DOTTED), pre) && IsLabel(last)
    ensures |ls| > 0 && AllLabels(ls) && Join(ls, '.') == pre + last
    decreases |pre|
  {
    if pre == "" {
      ls := [last];
      assert pre + last == last;
    } else {
      var j :| 0 < j <= |pre| && Matches(DOTTED, pre[..j]) && Matches(Star(DOTTED), pre[j..]);
      DottedIs(pre[..j]);
      var rest := NameToLabels(pre[j..], last);
      ls := LabelInFront(pre[..j], rest);
      assert pre + last == pre[..j] + (pre[j..] + last);
    }
  }

  lemma LabelInFront(dotted: string, rest: seq<string>) returns (ls: seq<string>)
    requires dotted != "" && dotted[|dotted| - 1] == '.' && IsLabel(dotted[..|dotted| - 1])
    requires |rest| > 0 && AllLabels(rest)
    ensures |ls| > 0 && AllLabels(ls) && Join(ls, '.') == dotted + Join(rest, '.')
  {
    var head := dotted[..|dotted| - 1];
    ls := [head] + rest;
    assert ls[1..] == rest;
    assert dotted == head + ['.'];
  }

  lemma {:induction false} LabelsToName(ls: seq<string>)
    requires |ls| > 0 && AllLabels(ls)
    ensures Matches(HOSTNAME, Join(ls, '.'))
  {
    var s, last := Join(ls, '.'), ls[|ls| - 1];
    var pre := LabelsPrefix(ls);
    LabelIs(last);
    assert s[..|pre|] == pre && s[|pre|..] == last;
    CatIs(Star(DOTTED), LABEL, s, |pre|);
  }

  lemma {:induction false} LabelsPrefix(ls: seq<string>) returns (pre: string)
    requires |ls| > 0 && AllLabels(ls)
    ensures Matches(Star(DOTTED), pre) && Join(ls, '.') == pre + ls[|ls| - 1]
  {
    if |ls| == 1 {
      pre := "";
      assert pre + ls[0] == ls[0];
    } else {
      var rest := LabelsPrefix(ls[1..]);
      var head := ls[0] + ['.'];
      pre := head + rest;
      assert head[..|head| - 1] == ls[0];
      DottedIs(head);
      assert pre[..|head|] == head && pre[|head|..] == rest;
      assert head + (rest + ls[|ls| - 1]) == pre + ls[|ls| - 1];
    }
  }

  lemma LabelsHaveNoDot(ls: seq<string>)
    requires AllLabels(ls)
    ensures Without(ls, '.')
  {
    forall i | 0 <= i < |ls|
      ensures '.' !in ls[i]
    {
      assert AllIn(AlNumHyphen, ls[i]);
    }
  }

  /** A label of RFC 1123: 1 to 63 ASCII letters, digits and hyphens, no hyphen at either end. */
  predicate Label1123(s: string) {
    && 1 <= |s| <= 63 && s[0] != '-' && s[|s| - 1] != '-'
    && forall i :: 0 <= i < |s| ==> ('a' <= s[i] <= 'z' || 'A' <= s[i] <= 'Z' || '0' <= s[i] <= '9' || s[i] == '-')
  }

  lemma LabelsAre1123(s: string)
    ensures IsLabel(s) <==> Label1123(s)
  {
  }

  /** The pattern accepts exactly the dot-joined lists of labels. */
  lemma HostnameExactly(s: string)
    ensures Matches(HOSTNAME, s) <==> AllLabels(Split(s, '.'))
    ensures Matches(HOSTNAME, s) <==> forall i :: 0 <= i < |Split(s, '.')| ==> Label1123(Split(s, '.')[i])
  {
    AllLabelsAre1123(Split(s, '.'));
    SplitThenJoin(s, '.');
    if AllLabels(Split(s, '.')) {
      LabelsToName(Split(s, '.'));
    }
    if Matches(HOSTNAME, s) {
      var i :| 0 <= i <= |s| && Matches(Star(DOTTED), s[..i]) && Matches(LABEL, s[i..]);
      HostnameParts(s, i);
    }
  }

  lemma AllLabelsAre1123(ls: seq<string>)
    ensures AllLabels(ls) <==> forall i :: 0 <= i < |ls| ==> Label1123(ls[i])
  {
    forall i | 0 <= i < |ls|
      ensures IsLabel(ls[i]) <==> Label1123(ls[i])
    {
      LabelsAre1123(ls[i]);
    }
  }

  lemma HostnameParts(s: string, i: int)
    requires 0 <= i <= |s| && Matches(Star(DOTTED), s[..i]) && Matches(LABEL, s[i..])
    ensures AllLabels(Split(s, '.'))
  {
    LabelIs(s[i..]);
    var ls := NameToLabels(s[..i], s[i..]);
    assert s[..i] + s[i..] == s;
    LabelsHaveNoDot(ls);
    JoinThenSplit(ls, '.');
  }
}
