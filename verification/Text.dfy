/** The string operations the program leans on: decimal printing, int(), split and rsplit.
    Texts are ASCII. */
module Text {
  import opened Basics

  // ---- str(n) ----

  predicate IsDigit(c: char) {
    '0' <= c <= '9'
  }

  function DigitChar(d: nat): (c: char)
    requires d < 10
    ensures IsDigit(c) && DigitValue(c) == d
  {
    ('0' as int + d) as char
  }

  function DigitValue(c: char): nat
    requires IsDigit(c)
  {
    c as int - '0' as int
  }

  /** str(n) for n >= 0. */
  function Dec(n: nat): (s: string)
    ensures s != "" && forall c :: c in s ==> IsDigit(c)
  {
    if n < 10 then [DigitChar(n)] else Dec(n / 10) + [DigitChar(n % 10)]
  }

  /** str(n). */
  function IntText(n: int): (s: string)
    ensures s != "" && '.' !in s
  {
    if n < 0 then "-" + Dec(-n) else Dec(n)
  }

  // ---- int(s) ----

  /** What int() trims from an ASCII text. */
  predicate IsSpace(c: char) {
    c == ' ' || '\t' <= c <= '\r'
  }

  function TrimStart(s: string): string {
    if s != "" && IsSpace(s[0]) then TrimStart(s[1..]) else s
  }

  function TrimEnd(s: string): string {
    if s != "" && IsSpace(s[|s| - 1]) then TrimEnd(s[..|s| - 1]) else s
  }

  /** Decimal digits with single underscores between them. */
  function Digits(s: string): Option<nat> {
    if s == "" || !IsDigit(s[|s| - 1]) then None
    else
      var last := DigitValue(s[|s| - 1]);
      var front := s[..|s| - 1];
      if front == "" then Some(last)
      else
        match Digits(if front[|front| - 1] == '_' then front[..|front| - 1] else front)
        case None => None
        case Some(v) => Some(10 * v + last)
  }

  function Signed(sign: int, magnitude: Option<nat>): Option<int> {
    if magnitude.Some? then Some(sign * magnitude.value) else None
  }

  /** int(s); None is the ValueError. */
  function ParseInt(s: string): Option<int> {
    var t := TrimEnd(TrimStart(s));
    if t != "" && t[0] == '-' then
      Signed(-1, Digits(t[1..]))
    else
      Signed(1, Digits(if t != "" && t[0] == '+' then t[1..] else t))
  }

  lemma {:induction false} DigitsOfDec(n: nat)
    ensures Digits(Dec(n)) == Some(n)
  {
    var s := Dec(n);
    if n < 10 {
      assert s[..|s| - 1] == "";
    } else {
      DigitsOfDec(n / 10);
      assert s[..|s| - 1] == Dec(n / 10);
      assert s[..|s| - 1][|s| - 2] in Dec(n / 10);
    }
  }

  /** int() undoes str(). */
  lemma ParseIntText(n: int)
    ensures ParseInt(IntText(n)) == Some(n)
  {
    var s := IntText(n);
    DigitsOfDec(if n < 0 then -n else n);
    if n < 0 {
      assert s[|s| - 1] == Dec(-n)[|s| - 2];
      assert s[|s| - 1] in Dec(-n);
      assert s[1..] == Dec(-n);
    } else {
      assert s[0] in Dec(n) && s[|s| - 1] in Dec(n);
    }
    assert TrimStart(s) == s && TrimEnd(s) == s;
  }

  // ---- What else int() accepts ----

  ghost predicate Blank(s: string) {
    forall c :: c in s ==> IsSpace(c)
  }

  ghost predicate AllDigits(s: string) {
    s != "" && forall c :: c in s ==> IsDigit(c)
  }

  lemma {:induction false} TrimStartBlank(p: string, s: string)
    requires Blank(p)
    ensures TrimStart(p + s) == TrimStart(s)
  {
    if p == "" {
      assert p + s == s;
    } else {
      assert p[0] in p && (p + s)[1..] == p[1..] + s;
      TrimStartBlank(p[1..], s);
    }
  }

  lemma {:induction false} TrimEndBlank(s: string, q: string)
    requires Blank(q)
    ensures TrimEnd(s + q) == TrimEnd(s)
  {
    if q == "" {
      assert s + q == s;
    } else {
      var n := |q| - 1;
      assert q[n] in q && (s + q)[..|s + q| - 1] == s + q[..n];
      TrimEndBlank(s, q[..n]);
    }
  }

  /** White space around a number does not matter. */
  lemma PaddedInt(p: string, s: string, q: string)
    requires Blank(p) && Blank(q) && s != "" && !IsSpace(s[0]) && !IsSpace(s[|s| - 1])
    ensures ParseInt(p + s + q) == ParseInt(s)
  {
    hide Digits;
    assert p + s + q == p + (s + q);
    TrimStartBlank(p, s + q);
    assert (s + q)[0] == s[0];
    TrimEndBlank(s, q);
    assert TrimStart(s) == s;
  }

  /** Nor do leading zeros, or a plus sign. */
  lemma {:induction false} ZerosBefore(zeros: string, n: nat)
    requires forall c :: c in zeros ==> c == '0'
    ensures Digits(zeros + Dec(n)) == Some(n)
    decreases n
  {
    var s := zeros + Dec(n);
    if n < 10 {
      assert s[..|s| - 1] == zeros && s[|s| - 1] == DigitChar(n);
      ZerosAlone(zeros);
    } else {
      ZerosBefore(zeros, n / 10);
      assert s[..|s| - 1] == zeros + Dec(n / 10) && s[|s| - 1] == DigitChar(n % 10);
      assert Dec(n / 10)[|Dec(n / 10)| - 1] in Dec(n / 10);
    }
  }

  lemma {:induction false} ZerosAlone(zeros: string)
    requires forall c :: c in zeros ==> c == '0'
    ensures zeros != "" ==> Digits(zeros) == Some(0)
  {
    if zeros != "" {
      var n := |zeros| - 1;
      assert zeros[n] in zeros && zeros[n] == '0';
      var front := zeros[..n];
      if front != "" {
        assert front[|front| - 1] in zeros && front[|front| - 1] == '0';
        assert forall c :: c in front ==> c in zeros;
        ZerosAlone(front);
      }
    }
  }

  lemma SignedInt(zeros: string, n: nat)
    requires forall c :: c in zeros ==> c == '0'
    ensures ParseInt(zeros + Dec(n)) == Some(n) && ParseInt("+" + (zeros + Dec(n))) == Some(n)
    ensures var m: int := n;
            ParseInt("-" + (zeros + Dec(n))) == Some(-m)
  {
    hide Digits, Dec, ParseInt;
    ZerosBefore(zeros, n);
    JoinedDigits(zeros, Dec(n));
    SignsRead(zeros + Dec(n));
  }

  lemma JoinedDigits(zeros: string, digits: string)
    requires (forall c :: c in zeros ==> c == '0') && AllDigits(digits)
    ensures AllDigits(zeros + digits)
  {
  }

  lemma SignsRead(digits: string)
    requires AllDigits(digits)
    ensures ParseInt(digits) == Signed(1, Digits(digits)) && ParseInt("+" + digits) == Signed(1, Digits(digits))
    ensures ParseInt("-" + digits) == Signed(-1, Digits(digits))
  {
    hide Digits;
    assert digits[0] in digits && digits[|digits| - 1] in digits;
    var plus, minus := "+" + digits, "-" + digits;
    assert plus[1..] == digits && minus[1..] == digits;
    assert plus[|plus| - 1] == digits[|digits| - 1] && minus[|minus| - 1] == digits[|digits| - 1];
    assert TrimStart(digits) == digits && TrimEnd(digits) == digits;
    assert TrimStart(plus) == plus && TrimEnd(plus) == plus;
    assert TrimStart(minus) == minus && TrimEnd(minus) == minus;
  }

  function Times10(front: Option<nat>, last: nat): Option<nat> {
    if front.Some? then Some(10 * front.value + last) else None
  }

  lemma DigitsUnfolded(s: string)
    requires |s| > 1 && IsDigit(s[|s| - 1])
    ensures var front := s[..|s| - 1];
            Digits(s) == Times10(Digits(if front[|front| - 1] == '_' then front[..|front| - 1] else front),
                                 DigitValue(s[|s| - 1]))
  {
  }

  lemma DigitsSnoc(front: string, c: char)
    requires front != "" && IsDigit(c)
    ensures front[|front| - 1] != '_' ==> Digits(front + [c]) == Times10(Digits(front), DigitValue(c))
    ensures Digits(front + "_" + [c]) == Times10(Digits(front), DigitValue(c))
  {
    hide Digits;
    var plain, scored := front + [c], front + "_" + [c];
    DigitsUnfolded(plain);
    DigitsUnfolded(scored);
    assert plain[..|plain| - 1] == front && scored[..|scored| - 1] == front + "_";
    assert (front + "_")[..|front + "_"| - 1] == front;
  }

  /** One underscore between digits changes nothing. */
  lemma {:induction false} Underscored(a: string, b: string)
    requires AllDigits(a) && AllDigits(b)
    ensures Digits(a + "_" + b) == Digits(a + b)
    decreases b
  {
    hide Digits;
    var n := |b| - 1;
    var front, last := b[..n], b[n];
    assert b == front + [last] && last in b && a[|a| - 1] in a;
    if n == 0 {
      assert a + "_" + b == a + "_" + [last] && a + b == a + [last];
      DigitsSnoc(a, last);
    } else {
      assert front[n - 1] in b;
      Underscored(a, front);
      assert a + "_" + b == (a + "_" + front) + [last] && a + b == (a + front) + [last];
      DigitsSnoc(a + "_" + front, last);
      DigitsSnoc(a + front, last);
    }
  }

  /** And nothing else is a number: only digits and underscores between digits make a magnitude. */
  lemma {:induction false} DigitsOnly(s: string)
    ensures Digits(s).Some? ==>
              && s != "" && IsDigit(s[0]) && IsDigit(s[|s| - 1])
              && (forall i :: 0 <= i < |s| ==> IsDigit(s[i]) || s[i] == '_')
              && (forall i :: 0 <= i < |s| - 1 ==> !(s[i] == '_' && s[i + 1] == '_'))
    decreases |s|
  {
    if s != "" && IsDigit(s[|s| - 1]) && |s| > 1 {
      var front := s[..|s| - 1];
      DigitsOnly(if front[|front| - 1] == '_' then front[..|front| - 1] else front);
    }
  }

  lemma DecInjective(m: nat, n: nat)
    requires Dec(m) == Dec(n)
    ensures m == n
  {
    DigitsOfDec(m);
    DigitsOfDec(n);
  }

  // ---- split and rsplit ----

  /** The index of the first dot, or the length. */
  function FirstDot(s: string): (i: nat)
    ensures i <= |s| && '.' !in s[..i]
    ensures i < |s| ==> s[i] == '.'
  {
    if s == "" || s[0] == '.' then 0
    else
      var j := FirstDot(s[1..]);
      assert s[..1 + j] == [s[0]] + s[1..][..j];
      1 + j
  }

  /** s.split("."). */
  function Split(s: string): (parts: seq<string>)
    ensures parts != []
  {
    var i := FirstDot(s);
    if i == |s| then [s] else [s[..i]] + Split(s[i + 1..])
  }

  lemma {:induction false} FirstDotAfter(a: string, rest: string)
    requires '.' !in a
    ensures FirstDot(a + "." + rest) == |a|
  {
    if a == "" {
      assert (a + "." + rest)[0] == '.';
    } else {
      var s := a + "." + rest;
      assert s[1..] == a[1..] + "." + rest;
      assert s[0] == a[0] && a[0] in a;
      FirstDotAfter(a[1..], rest);
    }
  }

  lemma SplitFirst(a: string, rest: string)
    requires '.' !in a
    ensures Split(a + "." + rest) == [a] + Split(rest)
  {
    var s := a + "." + rest;
    FirstDotAfter(a, rest);
    assert s[..|a|] == a && s[|a| + 1..] == rest;
  }

  lemma SplitLast(a: string)
    requires '.' !in a
    ensures Split(a) == [a]
  {
    assert forall i :: 0 <= i < |a| ==> a[i] in a;
  }

  lemma SplitTwo(c: string, d: string)
    requires '.' !in c && '.' !in d
    ensures Split(c + "." + d) == [c, d]
  {
    SplitFirst(c, d);
    SplitLast(d);
  }

  lemma SplitThree(b: string, c: string, d: string)
    requires '.' !in b && '.' !in c && '.' !in d
    ensures Split(b + "." + (c + "." + d)) == [b, c, d]
  {
    SplitTwo(c, d);
    SplitFirst(b, c + "." + d);
  }

  lemma SplitFour(a: string, b: string, c: string, d: string)
    requires '.' !in a && '.' !in b && '.' !in c && '.' !in d
    ensures Split(a + "." + (b + "." + (c + "." + d))) == [a, b, c, d]
  {
    SplitThree(b, c, d);
    SplitFirst(a, b + "." + (c + "." + d));
  }

  /** The index of the last dot, or -1. */
  function LastDot(s: string): (i: int)
    ensures -1 <= i < |s|
    ensures 0 <= i ==> s[i] == '.'
    ensures forall k :: i < k < |s| ==> s[k] != '.'
  {
    if s == "" then -1
    else if s[|s| - 1] == '.' then |s| - 1
    else
      LastDot(s[..|s| - 1])
  }

  /** s.rsplit(".", 2): at most two cuts, from the right. */
  function RSplitTwice(s: string): seq<string> {
    var j := LastDot(s);
    if j < 0 then [s]
    else
      var i := LastDot(s[..j]);
      if i < 0 then [s[..j], s[j + 1..]]
      else [s[..i], s[i + 1..j], s[j + 1..]]
  }

  lemma {:induction false} LastDotBefore(front: string, tail: string)
    requires '.' !in tail
    ensures LastDot(front + "." + tail) == |front|
  {
    var s := front + "." + tail;
    if tail == "" {
      assert s[|s| - 1] == '.';
    } else {
      var n := |tail| - 1;
      assert s[|s| - 1] == tail[n] && tail[n] in tail;
      assert s[..|s| - 1] == front + "." + tail[..n];
      LastDotBefore(front, tail[..n]);
    }
  }

  /** Only the last two fields have to be dot-free. */
  lemma RSplitTwiceJoined(a: string, b: string, c: string)
    requires '.' !in b && '.' !in c
    ensures RSplitTwice(a + "." + b + "." + c) == [a, b, c]
  {
    var s := a + "." + b + "." + c;
    assert s == (a + "." + b) + "." + c;
    LastDotBefore(a + "." + b, c);
    var j := |a + "." + b|;
    assert s[..j] == a + "." + b && s[j + 1..] == c;
    LastDotBefore(a, b);
    assert s[..|a|] == a && s[|a| + 1..j] == b;
  }

  /** And a three-way cut is always of that form. */
  lemma RSplitTwiceInverse(s: string)
    requires |RSplitTwice(s)| == 3
    ensures var parts := RSplitTwice(s);
            s == parts[0] + "." + parts[1] + "." + parts[2] && '.' !in parts[1] && '.' !in parts[2]
  {
    hide LastDot;
    var j := LastDot(s);
    var front := s[..j];
    var i := LastDot(front);
    assert s == front + "." + s[j + 1..];
    assert front == front[..i] + "." + front[i + 1..];
    assert front[..i] == s[..i] && front[i + 1..] == s[i + 1..j];
    assert forall k :: i < k < j ==> front[k] != '.';
  }
}
