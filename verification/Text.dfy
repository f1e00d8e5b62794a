/**
 The string operations of the Go standard library that the driver uses.  A Go string is
 modelled as its sequence of code points; byte lengths are computed where the driver
 compares them.
 */
module Text {
  import opened Wrappers

  // ------------------------------------------------------------------
  // Searching
  // ------------------------------------------------------------------

  predicate HasPrefix(s: string, x: string) {
    x <= s
  }

  predicate HasSuffix(s: string, x: string) {
    |x| <= |s| && s[|s| - |x|..] == x
  }

  /** Does x occur in s at position i? */
  predicate At(s: string, i: int, x: string) {
    0 <= i <= |s| - |x| && s[i..i + |x|] == x
  }

  predicate Contains(s: string, x: string) {
    exists i | 0 <= i <= |s| - |x| :: At(s, i, x)
  }

  /** Position of the first c, or |s|. */
  function IndexOf(s: string, c: char): (i: nat)
    ensures i <= |s| && c !in s[..i] && (i < |s| ==> s[i] == c)
  {
    if s == "" || s[0] == c then 0
    else
      var i := IndexOf(s[1..], c);
      assert s[..i + 1] == [s[0]] + s[1..][..i];
      i + 1
  }

  /** Position just after the last c, or 0. */
  function AfterLast(s: string, c: char): (i: nat)
    ensures i <= |s| && c !in s[i..] && (i > 0 ==> s[i - 1] == c)
  {
    if s == "" then 0
    else if s[|s| - 1] == c then |s|
    else
      var i := AfterLast(s[..|s| - 1], c);
      assert s[i..] == s[..|s| - 1][i..] + [s[|s| - 1]];
      i
  }

  lemma ContainsAt(s: string, i: int, x: string)
    requires At(s, i, x)
    ensures Contains(s, x)
  {
  }

  lemma InSlice(s: string, i: int, j: int, k: int)
    requires 0 <= i <= k < j <= |s|
    ensures s[k] in s[i..j]
  {
    assert s[i..j][k - i] == s[k];
  }

  lemma NoChar(s: string, c: char)
    requires c !in s
    ensures !Contains(s, [c])
  {
    forall i
      ensures !At(s, i, [c])
    {
      if At(s, i, [c]) {
        InSlice(s, i, i + 1, i);
        assert false;
      }
    }
  }

  /** An occurrence of x in a + [c] + b that does not contain c lies in a or in b. */
  lemma AtAcross(a: string, c: char, b: string, i: int, x: string)
    requires At(a + [c] + b, i, x) && c !in x
    ensures At(a, i, x) || At(b, i - |a| - 1, x)
  {
    var s := a + [c] + b;
    if i + |x| <= |a| {
      assert a[i..i + |x|] == s[i..i + |x|];
    } else if i > |a| {
      assert b[i - |a| - 1..i - |a| - 1 + |x|] == s[i..i + |x|];
    }
    if i <= |a| < i + |x| {
      InSlice(s, i, i + |x|, |a|);
      assert false;
    }
  }

  lemma NotAcross(a: string, c: char, b: string, x: string)
    requires c !in x && !Contains(a, x) && !Contains(b, x)
    ensures !Contains(a + [c] + b, x)
  {
    forall i
      ensures !At(a + [c] + b, i, x)
    {
      if At(a + [c] + b, i, x) {
        AtAcross(a, c, b, i, x);
        assert false;
      }
    }
  }

  // ------------------------------------------------------------------
  // Splitting and joining
  // ------------------------------------------------------------------

  function Split(s: string, c: char): (parts: seq<string>)
    ensures |parts| > 0
  {
    if s == "" then [""]
    else
      var rest := Split(s[1..], c);
      if s[0] == c then [""] + rest else [[s[0]] + rest[0]] + rest[1..]
  }

  function Join(parts: seq<string>, c: char): string {
    if parts == [] then ""
    else if |parts| == 1 then parts[0]
    else parts[0] + [c] + Join(parts[1..], c)
  }

  ghost predicate Without(parts: seq<string>, c: char) {
    forall i :: 0 <= i < |parts| ==> c !in parts[i]
  }

  lemma {:induction false} SplitThenJoin(s: string, c: char)
    ensures Join(Split(s, c), c) == s
    ensures Without(Split(s, c), c)
  {
    if s != "" {
      var rest := Split(s[1..], c);
      SplitThenJoin(s[1..], c);
      assert s == [s[0]] + s[1..];
      if s[0] == c {
        assert Split(s, c)[1..] == rest;
        assert "" + [c] + Join(rest, c) == [c] + Join(rest, c);
      } else {
        JoinHead([s[0]], rest, c);
      }
    }
  }

  /** Putting text in front of the first part puts it in front of the whole. */
  lemma JoinHead(x: string, parts: seq<string>, c: char)
    requires |parts| > 0
    ensures Join([x + parts[0]] + parts[1..], c) == x + Join(parts, c)
  {
    var joined := [x + parts[0]] + parts[1..];
    if |parts| > 1 {
      assert joined[1..] == parts[1..];
      assert x + parts[0] + [c] + Join(parts[1..], c) == x + (parts[0] + [c] + Join(parts[1..], c));
    }
  }

  lemma {:induction false} SplitPrefix(x: string, s: string, c: char)
    requires c !in x
    ensures Split(x + s, c) == [x + Split(s, c)[0]] + Split(s, c)[1..]
  {
    if x == "" {
      assert x + s == s && x + Split(s, c)[0] == Split(s, c)[0];
    } else {
      SplitPrefix(x[1..], s, c);
      assert (x + s)[1..] == x[1..] + s;
      assert x == [x[0]] + x[1..];
      var inner := Split(x[1..] + s, c);
      assert [x[0]] + inner[0] == x + Split(s, c)[0];
    }
  }

  lemma {:induction false} JoinThenSplit(parts: seq<string>, c: char)
    requires |parts| > 0 && Without(parts, c)
    ensures Split(Join(parts, c), c) == parts
  {
    if |parts| == 1 {
      SplitPrefix(parts[0], "", c);
      assert parts[0] + "" == parts[0];
    } else {
      var tail := Join(parts[1..], c);
      JoinThenSplit(parts[1..], c);
      assert parts[0] + [c] + tail == parts[0] + ([c] + tail);
      SplitPrefix(parts[0], [c] + tail, c);
      assert ([c] + tail)[1..] == tail;
      assert Split([c] + tail, c) == [""] + parts[1..];
      assert parts[0] + "" == parts[0];
    }
  }

  // ------------------------------------------------------------------
  // White space
  // ------------------------------------------------------------------

  /** unicode.IsSpace. */
  predicate IsSpace(c: char) {
    var n := c as int;
    || 9 <= n <= 13 || n == 32 || n == 0x85 || n == 0xA0 || n == 0x1680
    || 0x2000 <= n <= 0x200A || n == 0x2028 || n == 0x2029 || n == 0x202F || n == 0x205F || n == 0x3000
  }

  function TrimLeft(s: string): string {
    if s != "" && IsSpace(s[0]) then TrimLeft(s[1..]) else s
  }

  function TrimRight(s: string): string {
    if s != "" && IsSpace(s[|s| - 1]) then TrimRight(s[..|s| - 1]) else s
  }

  function TrimSpace(s: string): string {
    TrimRight(TrimLeft(s))
  }

  ghost predicate Trimmed(s: string) {
    s != "" && !IsSpace(s[0]) && !IsSpace(s[|s| - 1])
  }

  /** One leading blank or none is removed, trimmed text stays. */
  lemma TrimTrimmed(s: string)
    requires Trimmed(s)
    ensures TrimSpace(s) == s && TrimSpace(" " + s) == s
  {
    assert (" " + s)[1..] == s;
  }

  lemma {:induction false} TrimRightKeepsFirst(s: string)
    requires s != "" && !IsSpace(s[0])
    ensures TrimRight(s) != "" && TrimRight(s)[0] == s[0]
  {
    if IsSpace(s[|s| - 1]) {
      TrimRightKeepsFirst(s[..|s| - 1]);
    }
  }

  ghost predicate AllSpace(s: string) {
    forall i :: 0 <= i < |s| ==> IsSpace(s[i])
  }

  /** No white space at either end. */
  ghost predicate Bare(s: string) {
    s == "" || Trimmed(s)
  }

  /** s is x with white space around it. */
  ghost predicate Padded(s: string, a: string, x: string, b: string) {
    AllSpace(a) && AllSpace(b) && s == a + x + b
  }

  lemma {:induction false} TrimLeftParts(s: string) returns (a: string)
    ensures AllSpace(a) && s == a + TrimLeft(s)
    ensures TrimLeft(s) == "" || !IsSpace(TrimLeft(s)[0])
  {
    a := "";
    if s != "" && IsSpace(s[0]) {
      var rest := TrimLeftParts(s[1..]);
      a := [s[0]] + rest;
      assert s == [s[0]] + s[1..];
    }
  }

  lemma {:induction false} TrimRightParts(s: string) returns (b: string)
    ensures AllSpace(b) && s == TrimRight(s) + b
    ensures TrimRight(s) == "" || !IsSpace(TrimRight(s)[|TrimRight(s)| - 1])
  {
    b := "";
    if s != "" && IsSpace(s[|s| - 1]) {
      var init := s[..|s| - 1];
      var rest := TrimRightParts(init);
      b := rest + [s[|s| - 1]];
      assert s == init + [s[|s| - 1]];
    }
  }

  lemma {:induction false} TrimLeftDrops(a: string, s: string)
    requires AllSpace(a)
    ensures TrimLeft(a + s) == TrimLeft(s)
  {
    if a == "" {
      assert a + s == s;
    } else {
      assert (a + s)[1..] == a[1..] + s;
      TrimLeftDrops(a[1..], s);
    }
  }

  lemma {:induction false} TrimRightDrops(s: string, b: string)
    requires AllSpace(b)
    ensures TrimRight(s + b) == TrimRight(s)
  {
    if b == "" {
      assert s + b == s;
    } else {
      var t := s + b;
      assert t[..|t| - 1] == s + b[..|b| - 1];
      TrimRightDrops(s, b[..|b| - 1]);
    }
  }

  /** Trimming takes away all white space at both ends and nothing else. */
  lemma TrimExactly(s: string, x: string)
    ensures TrimSpace(s) == x <==> Bare(x) && exists a, b :: Padded(s, a, x, b)
  {
    var a := TrimLeftParts(s);
    var t := TrimLeft(s);
    var b := TrimRightParts(t);
    if t != "" {
      TrimRightKeepsFirst(t);
    }
    assert s == a + TrimSpace(s) + b;
    assert Padded(s, a, TrimSpace(s), b);
    if Bare(x) && exists a, b :: Padded(s, a, x, b) {
      var a', b' :| Padded(s, a', x, b');
      assert s == a' + (x + b');
      TrimLeftDrops(a', x + b');
      if x == "" {
        TrimLeftDrops(b', "");
        assert x + b' == b' + "";
      } else {
        TrimRightDrops(x, b');
      }
    }
  }

  lemma TrimIs(s: string, a: string, x: string, b: string)
    requires Bare(x) && Padded(s, a, x, b)
    ensures TrimSpace(s) == x
  {
    TrimExactly(s, x);
  }

  lemma TrimGives(s: string) returns (a: string, b: string)
    ensures Padded(s, a, TrimSpace(s), b) && Bare(TrimSpace(s))
  {
    TrimExactly(s, TrimSpace(s));
    a, b :| Padded(s, a, TrimSpace(s), b);
  }

  // ------------------------------------------------------------------
  // Lines, as bufio.Scanner delivers them
  // ------------------------------------------------------------------

  function DropCR(s: string): string {
    if s != "" && s[|s| - 1] == '\r' then s[..|s| - 1] else s
  }

  function Lines(s: string): seq<string>
    decreases |s|
  {
    if s == "" then []
    else
      var i := IndexOf(s, '\n');
      if i == |s| then [DropCR(s)] else [DropCR(s[..i])] + Lines(s[i + 1..])
  }

  lemma {:induction false} IndexOfIs(a: string, c: char, b: string)
    requires c !in a
    ensures IndexOf(a + [c] + b, c) == |a|
  {
    if a != "" {
      IndexOfIs(a[1..], c, b);
      assert (a + [c] + b)[1..] == a[1..] + [c] + b;
    }
  }

  lemma {:induction false} AfterLastIs(a: string, c: char, b: string)
    requires c !in b
    ensures AfterLast(a + [c] + b, c) == |a| + 1
  {
    if b != "" {
      var s, init := a + [c] + b, b[..|b| - 1];
      AfterLastIs(a, c, init);
      assert s[..|s| - 1] == a + [c] + init;
    }
  }

  lemma LinesHead(a: string, b: string)
    requires '\n' !in a
    ensures Lines(a + "\n" + b) == [DropCR(a)] + Lines(b)
  {
    var s := a + "\n" + b;
    IndexOfIs(a, '\n', b);
    assert s[..|a|] == a && s[|a| + 1..] == b;
  }

  /** Terminated text contributes its own lines, whatever follows. */
  /** Lines, each with a line break behind it. */
  function LinesText(lines: seq<string>): string {
    if lines == [] then "" else lines[0] + "\n" + LinesText(lines[1..])
  }

  /** A line that is read as it was written. */
  ghost predicate OneLine(line: string) {
    line != "" && '\n' !in line && line[|line| - 1] != '\r'
  }

  lemma {:induction false} LinesOfText(lines: seq<string>)
    requires forall i :: 0 <= i < |lines| ==> OneLine(lines[i])
    ensures Lines(LinesText(lines)) == lines
  {
    if lines != [] {
      LinesOfText(lines[1..]);
      LinesHead(lines[0], LinesText(lines[1..]));
    }
  }

  /** A carriage return before the line break is not part of the line. */
  lemma LinesCRLF(a: string, b: string)
    requires '\n' !in a
    ensures Lines(a + "\r\n" + b) == [a] + Lines(b)
  {
    LinesHead(a + "\r", b);
    assert a + "\r" + "\n" + b == a + "\r\n" + b;
    assert (a + "\r")[..|a|] == a;
  }

  lemma {:induction false} LinesSplit(a: string, b: string)
    ensures Lines(a + "\n" + b) == Lines(a + "\n") + Lines(b)
    decreases |a|
  {
    var i := IndexOf(a, '\n');
    if i == |a| {
      assert a[..i] == a;
      LinesHead(a, b);
      LinesHead(a, "");
      assert a + "\n" + "" == a + "\n";
    } else {
      var x, y := a[..i], a[i + 1..];
      assert a == x + "\n" + y;
      LinesSplit(y, b);
      LinesHeadThen(x, y, b);
    }
  }

  lemma Regroup<T>(a: seq<T>, b: seq<T>, c: seq<T>)
    ensures a + b + c == a + (b + c)
  {
  }

  lemma LinesHeadThen(x: string, y: string, b: string)
    requires '\n' !in x && Lines(y + "\n" + b) == Lines(y + "\n") + Lines(b)
    ensures Lines(x + "\n" + y + "\n" + b) == Lines(x + "\n" + y + "\n") + Lines(b)
  {
    var head, tail, rest := x + "\n", y + "\n", Lines(b);
    LinesHead(x, tail + b);
    LinesHead(x, tail);
    Regroup(head, y, "\n");
    Regroup(head, tail, b);
    Regroup([DropCR(x)], Lines(tail), rest);
  }

  // ------------------------------------------------------------------
  // Decimal numbers
  // ------------------------------------------------------------------

  predicate IsDigit(c: char) {
    '0' <= c <= '9'
  }

  ghost predicate AllDigits(s: string) {
    forall i :: 0 <= i < |s| ==> IsDigit(s[i])
  }

  function Digit(d: int): char
    requires 0 <= d < 10
  {
    ('0' as int + d) as char
  }

  /** fmt's %d for a number that is not negative. */
  function Decimal(n: nat): (s: string)
    ensures s != "" && AllDigits(s)
  {
    if n < 10 then [Digit(n)] else Decimal(n / 10) + [Digit(n % 10)]
  }

  /** The value of a digit string; None when a character is not a digit. */
  function Value(s: string): (r: Option<int>)
    ensures r.Some? ==> r.value >= 0
  {
    if s == "" then Some(0)
    else if !IsDigit(s[|s| - 1]) then None
    else
      match Value(s[..|s| - 1])
      case None => None
      case Some(n) => Some(10 * n + (s[|s| - 1] as int - '0' as int))
  }

  const MAX_INT64: int := 0x7FFF_FFFF_FFFF_FFFF

  /** strconv.Atoi on a 64-bit platform. */
  function Atoi(s: string): Option<int> {
    var digits := if s != "" && (s[0] == '+' || s[0] == '-') then s[1..] else s;
    if digits == "" then None
    else
      match Value(digits)
      case None => None
      case Some(n) =>
        if s[0] == '-' then (if n <= MAX_INT64 + 1 then Some(-n) else None)
        else if n <= MAX_INT64 then Some(n) else None
  }

  lemma {:induction false} ValueOfDecimal(n: nat)
    ensures Value(Decimal(n)) == Some(n)
  {
    if n >= 10 {
      ValueOfDecimal(n / 10);
      var s := Decimal(n);
      assert s[..|s| - 1] == Decimal(n / 10);
    }
  }

  lemma AtoiOfDecimal(n: nat)
    requires n <= MAX_INT64
    ensures Atoi(Decimal(n)) == Some(n)
  {
    ValueOfDecimal(n);
    assert IsDigit(Decimal(n)[0]);
  }

  ghost predicate Zeros(s: string) {
    forall i :: 0 <= i < |s| ==> s[i] == '0'
  }

  /** A digit string is a number in decimal after some zeros. */
  lemma {:induction false} DigitsAreDecimal(s: string) returns (zeros: string, n: nat)
    requires s != "" && AllDigits(s)
    ensures Zeros(zeros) && s == zeros + Decimal(n) && Value(s) == Some(n)
  {
    var init, last := s[..|s| - 1], s[|s| - 1];
    var d := last as int - '0' as int;
    assert s == init + [last] && Digit(d) == last;
    if init == "" {
      zeros, n := "", d;
    } else {
      var m;
      zeros, m := DigitsAreDecimal(init);
      n := 10 * m + d;
      assert n / 10 == m && n % 10 == d;
      if m == 0 {
        zeros := zeros + "0";
        assert Decimal(m) == "0";
      }
    }
  }

  lemma {:induction false} ValueOfPadded(zeros: string, n: nat)
    requires Zeros(zeros)
    ensures Value(zeros + Decimal(n)) == Some(n)
    decreases n
  {
    var s := zeros + Decimal(n);
    var init := s[..|s| - 1];
    if n >= 10 {
      assert init == zeros + Decimal(n / 10);
      ValueOfPadded(zeros, n / 10);
    } else {
      assert init == zeros;
      ValueOfZeros(zeros);
    }
  }

  lemma {:induction false} ValueOfZeros(s: string)
    requires Zeros(s)
    ensures Value(s) == Some(0)
  {
    if s != "" {
      ValueOfZeros(s[..|s| - 1]);
    }
  }

  function Magnitude(n: int): nat {
    if n < 0 then -n else n
  }

  /** n written with a sign that fits it, and zeros before its digits. */
  ghost predicate Written(s: string, sign: string, zeros: string, n: int) {
    && Zeros(zeros) && s == sign + (zeros + Decimal(Magnitude(n)))
    && (sign == "-" ==> n <= 0) && (sign != "-" ==> n >= 0) && (sign == "" || sign == "+" || sign == "-")
  }

  /** strconv.Atoi accepts exactly the written numbers of 64 bits. */
  lemma AtoiExactly(s: string, n: int)
    ensures Atoi(s) == Some(n) <==>
            -0x8000_0000_0000_0000 <= n <= 0x7FFF_FFFF_FFFF_FFFF && exists sign, zeros :: Written(s, sign, zeros, n)
  {
    if Atoi(s) == Some(n) {
      AtoiIsWritten(s, n);
    }
    if -0x8000_0000_0000_0000 <= n <= 0x7FFF_FFFF_FFFF_FFFF && exists sign, zeros :: Written(s, sign, zeros, n) {
      var sign, zeros :| Written(s, sign, zeros, n);
      AtoiReads(s, sign, zeros, n);
    }
  }

  lemma AtoiReads(s: string, sign: string, zeros: string, n: int)
    requires -0x8000_0000_0000_0000 <= n <= 0x7FFF_FFFF_FFFF_FFFF && Written(s, sign, zeros, n)
    ensures Atoi(s) == Some(n)
  {
    var digits := zeros + Decimal(Magnitude(n));
    ValueOfPadded(zeros, Magnitude(n));
    DigitFirst(zeros, Decimal(Magnitude(n)));
    if sign != "" {
      SignFirst(sign, digits);
    } else {
      assert s == digits;
    }
  }

  lemma DigitFirst(zeros: string, d: string)
    requires Zeros(zeros) && d != "" && AllDigits(d)
    ensures zeros + d != "" && IsDigit((zeros + d)[0])
  {
    if zeros == "" {
      assert zeros + d == d;
    } else {
      assert (zeros + d)[0] == zeros[0];
    }
  }

  lemma SignFirst(sign: string, digits: string)
    requires |sign| == 1
    ensures (sign + digits)[0] == sign[0] && (sign + digits)[1..] == digits
  {
  }

  lemma AtoiIsWritten(s: string, n: int)
    requires Atoi(s) == Some(n)
    ensures -0x8000_0000_0000_0000 <= n <= 0x7FFF_FFFF_FFFF_FFFF && exists sign, zeros :: Written(s, sign, zeros, n)
  {
    var sign := if s[0] == '+' || s[0] == '-' then [s[0]] else "";
    var digits := s[|sign|..];
    assert s == sign + digits;
    ValueIsDigits(digits);
    var zeros, m := DigitsAreDecimal(digits);
    assert Magnitude(n) == m;
    assert Written(s, sign, zeros, n);
  }

  lemma {:induction false} ValueIsDigits(s: string)
    requires Value(s).Some?
    ensures AllDigits(s)
  {
    if s != "" {
      ValueIsDigits(s[..|s| - 1]);
      assert s == s[..|s| - 1] + [s[|s| - 1]];
    }
  }

  lemma DecimalIsInjective(m: nat, n: nat)
    requires Decimal(m) == Decimal(n)
    ensures m == n
  {
    ValueOfDecimal(m);
    ValueOfDecimal(n);
  }

  lemma FiveDigits(n: nat)
    requires 10000 <= n <= 99999
    ensures |Decimal(n)| == 5
  {
    assert |Decimal(n / 10000)| == 1;
    assert |Decimal(n / 1000)| == 2 by { assert n / 1000 / 10 == n / 10000; }
    assert |Decimal(n / 100)| == 3 by { assert n / 100 / 10 == n / 1000; }
    assert |Decimal(n / 10)| == 4 by { assert n / 10 / 10 == n / 100; }
  }

  // ------------------------------------------------------------------
  // Byte lengths
  // ------------------------------------------------------------------

  function Utf8Len(c: char): nat {
    var n := c as int;
    if n < 0x80 then 1 else if n < 0x800 then 2 else if n < 0x10000 then 3 else 4
  }

  /** Go's len: the number of bytes of the UTF-8 form. */
  function ByteLen(s: string): nat {
    if s == "" then 0 else Utf8Len(s[0]) + ByteLen(s[1..])
  }

  /** The UTF-8 length of one character, and of a character before a text. */
  lemma ByteLenOfChar(c: char, s: string)
    ensures ByteLen([c] + s) == ByteLen([c]) + ByteLen(s)
    ensures ByteLen([c]) == if c as int < 0x80 then 1 else if c as int < 0x800 then 2 else if c as int < 0x10000
                            then 3 else 4
  {
    assert ([c] + s)[1..] == s && [c][1..] == "";
  }
}
