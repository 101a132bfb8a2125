/** What a display lock file says: the pid line a server writes, and how a starter reads one back. */
module LockFile {
  import opened Wrappers

  /** Kernel pids: positive and representable as `i32`. */
  type Pid = p: int | 0 < p <= 0x7FFF_FFFF witness 1

  predicate IsDigit(c: char) {
    '0' <= c <= '9'
  }

  function DigitChar(d: nat): (c: char)
    requires d < 10
  {
    '0' + d as char
  }

  function Decimal(n: nat): (s: string)
    decreases n
  {
    if n < 10 then [DigitChar(n)] else Decimal(n / 10) + [DigitChar(n % 10)]
  }

  function Spaces(n: nat): (s: string) {
    seq(n, i => ' ')
  }

  /** `format!("{:>10}\n", pid)`: right-aligned in ten columns, longer numbers unpadded. */
  function FormatPid(p: Pid): string {
    var d := Decimal(p);
    Spaces(if |d| < 10 then 10 - |d| else 0) + d + "\n"
  }

  /** White space among the ASCII characters. */
  predicate IsSpace(c: char) {
    c == ' ' || ('\t' <= c <= '\r')
  }

  function TrimStart(s: string): (r: string) {
    if s != [] && IsSpace(s[0]) then TrimStart(s[1..]) else s
  }

  function TrimEnd(s: string): (r: string) {
    if s != [] && IsSpace(s[|s| - 1]) then TrimEnd(s[..|s| - 1]) else s
  }

  function Trim(s: string): string {
    TrimStart(TrimEnd(s))
  }

  function ParseNat(s: string): (r: Option<nat>) {
    if s == "" then None
    else if !IsDigit(s[|s| - 1]) then None
    else
      var last := (s[|s| - 1] - '0') as nat;
      if |s| == 1 then Some(last)
      else
        var front := ParseNat(s[..|s| - 1]);
        if front.None? then None else Some(10 * front.value + last)
  }

  /** `str::parse::<i32>`: an optional sign, then digits, in range. */
  function ParseI32(s: string): (r: Option<int>) {
    var signed := s != "" && (s[0] == '+' || s[0] == '-');
    var n := ParseNat(if signed then s[1..] else s);
    if n.None? then None
    else
      var m: int := n.value;
      var v: int := if signed && s[0] == '-' then -m else m;
      if -0x8000_0000 <= v <= 0x7FFF_FFFF then Some(v) else None
  }

  /** The pid a lock file names; none when the lock is bogus. */
  function ParsePid(content: string): (r: Option<Pid>) {
    if |content| != 11 || content[10] != '\n' then None
    else
      var v := ParseI32(Trim(content));
      if v.Some? && v.value > 0 then Some(v.value) else None
  }

  // ----- Reading back what was written -----

  function Pow10(k: nat): (r: nat)
    ensures r > 0
  {
    if k == 0 then 1 else 10 * Pow10(k - 1)
  }

  lemma {:induction false} DecimalParses(n: nat, k: nat)
    requires n < Pow10(k) && k > 0
    ensures 0 < |Decimal(n)| <= k
    ensures ParseNat(Decimal(n)) == Some(n)
    ensures IsDigit(Decimal(n)[0]) && IsDigit(Decimal(n)[|Decimal(n)| - 1])
    decreases k
  {
    if n < 10 {
    } else {
      assert Pow10(1) == 10;
      assert k > 1;
      assert n / 10 < Pow10(k - 1);
      DecimalParses(n / 10, k - 1);
      var d := Decimal(n);
      assert d[..|d| - 1] == Decimal(n / 10);
      assert d[|d| - 1] == DigitChar(n % 10);
    }
  }

  lemma {:induction false} TrimStartSpaces(n: nat, s: string)
    requires s != "" && !IsSpace(s[0])
    ensures TrimStart(Spaces(n) + s) == s
  {
    if n == 0 {
      assert Spaces(0) + s == s;
    } else {
      assert (Spaces(n) + s)[1..] == Spaces(n - 1) + s;
      TrimStartSpaces(n - 1, s);
    }
  }

  lemma TenDigits()
    ensures Pow10(10) == 10_000_000_000
  {
    assert Pow10(2) == 100;
    assert Pow10(4) == 100 * Pow10(2);
    assert Pow10(7) == 1000 * Pow10(4);
    assert Pow10(10) == 1000 * Pow10(7);
  }

  lemma TrimPadded(n: nat, d: string)
    requires d != "" && IsDigit(d[0]) && IsDigit(d[|d| - 1])
    ensures Trim(Spaces(n) + d + "\n") == d
  {
    var body := Spaces(n) + d;
    assert body[|body| - 1] == d[|d| - 1];
    assert TrimEnd(body) == body;
    assert (body + "\n")[..|body|] == body;
    TrimStartSpaces(n, d);
  }

  /** A complete lock line is eleven characters and names exactly its writer. */
  lemma PidRoundTrip(p: Pid)
    ensures |FormatPid(p)| == 11
    ensures ParsePid(FormatPid(p)) == Some(p)
  {
    hide Decimal, Trim, ParseNat, Pow10;
    TenDigits();
    DecimalParses(p, 10);
    var d := Decimal(p);
    TrimPadded(if |d| < 10 then 10 - |d| else 0, d);
  }

  /** A line that is not yet complete names nobody, so linking it early would let anyone reclaim it. */
  lemma PartialLineIsBogus(p: Pid, n: nat)
    requires n < |FormatPid(p)|
    ensures ParsePid(FormatPid(p)[..n]) == None
  {
    PidRoundTrip(p);
  }

  // ----- Which contents name somebody -----

  predicate AllDigits(s: string) {
    s != "" && forall i :: 0 <= i < |s| ==> IsDigit(s[i])
  }

  predicate AllSpaces(s: string) {
    forall i :: 0 <= i < |s| ==> IsSpace(s[i])
  }

  /** The number that a string of digits writes, the first digit counting most. */
  function ValueOf(s: string): nat
    requires forall i :: 0 <= i < |s| ==> IsDigit(s[i])
  {
    if s == "" then 0
    else
      assert IsDigit(s[0]);
      (s[0] - '0') as nat * Pow10(|s| - 1) + ValueOf(s[1..])
  }

  lemma TenTimes(d: nat, p: nat)
    ensures d * (10 * p) == 10 * (d * p)
  {
  }

  lemma {:induction false} ValueSnoc(s: string, c: char)
    requires IsDigit(c) && forall i :: 0 <= i < |s| ==> IsDigit(s[i])
    ensures ValueOf(s + [c]) == 10 * ValueOf(s) + (c - '0') as nat
  {
    if s == "" {
      assert s + [c] == [c] && Pow10(0) == 1 && [c][1..] == "";
    } else {
      assert (s + [c])[1..] == s[1..] + [c];
      ValueSnoc(s[1..], c);
      assert Pow10(|s|) == 10 * Pow10(|s| - 1);
      hide Pow10;
      TenTimes((s[0] - '0') as nat, Pow10(|s| - 1));
    }
  }

  lemma AllDigitsSnoc(s: string)
    requires s != ""
    ensures AllDigits(s) <==> IsDigit(s[|s| - 1]) && (|s| == 1 || AllDigits(s[..|s| - 1]))
    ensures s == s[..|s| - 1] + [s[|s| - 1]]
  {
    var n := |s| - 1;
    assert forall i :: 0 <= i < n ==> s[..n][i] == s[i];
  }

  lemma ValueOfDigit(s: string)
    requires |s| == 1 && IsDigit(s[0])
    ensures AllDigits(s) && ValueOf(s) == (s[0] - '0') as nat && ParseNat(s) == Some((s[0] - '0') as nat)
  {
    assert s[1..] == "" && Pow10(0) == 1;
  }

  lemma {:induction false} ParseNatIff(s: string)
    ensures ParseNat(s).Some? <==> AllDigits(s)
    ensures AllDigits(s) ==> ParseNat(s) == Some(ValueOf(s))
    decreases |s|
  {
    hide ValueOf, AllDigits;
    if s == "" {
      assert !AllDigits(s) by { EmptyIsNoNumber(); }
    } else {
      var n := |s| - 1;
      AllDigitsSnoc(s);
      ParseNatIff(s[..n]);
      if AllDigits(s) {
        if n == 0 {
          ValueOfDigit(s);
        } else {
          DigitsSnocValue(s);
        }
      }
    }
  }

  lemma EmptyIsNoNumber()
    ensures !AllDigits("")
  {
  }

  lemma DigitsSnocValue(s: string)
    requires |s| > 1 && AllDigits(s) && AllDigits(s[..|s| - 1])
    ensures ValueOf(s) == 10 * ValueOf(s[..|s| - 1]) + (s[|s| - 1] - '0') as nat
  {
    hide ValueOf;
    AllDigitsSnoc(s);
    ValueSnoc(s[..|s| - 1], s[|s| - 1]);
  }

  lemma TrimStartStep(s: string)
    ensures TrimStart(s) == if s != "" && IsSpace(s[0]) then TrimStart(s[1..]) else s
  {
    hide IsSpace;
  }

  lemma TrimEndStep(s: string)
    ensures TrimEnd(s) == if s != "" && IsSpace(s[|s| - 1]) then TrimEnd(s[..|s| - 1]) else s
  {
    hide IsSpace;
  }

  lemma {:induction false} TrimStartParts(s: string) returns (a: string)
    ensures s == a + TrimStart(s) && AllSpaces(a)
    ensures TrimStart(s) != "" ==> !IsSpace(TrimStart(s)[0])
    ensures TrimStart(s) != "" && s != "" ==> TrimStart(s)[|TrimStart(s)| - 1] == s[|s| - 1]
    decreases |s|
  {
    hide TrimStart, TrimEnd, IsSpace;
    TrimStartStep(s);
    if s != "" && IsSpace(s[0]) {
      var b := TrimStartParts(s[1..]);
      a := [s[0]] + b;
      assert s == [s[0]] + s[1..];
      assert [s[0]] + (b + TrimStart(s)) == a + TrimStart(s);
    } else {
      a := "";
    }
  }

  lemma {:induction false} TrimEndParts(s: string) returns (b: string)
    ensures s == TrimEnd(s) + b && AllSpaces(b)
    ensures TrimEnd(s) != "" ==> !IsSpace(TrimEnd(s)[|TrimEnd(s)| - 1])
    decreases |s|
  {
    hide TrimStart, TrimEnd, IsSpace;
    TrimEndStep(s);
    if s != "" && IsSpace(s[|s| - 1]) {
      var n := |s| - 1;
      var c := TrimEndParts(s[..n]);
      b := c + [s[n]];
      assert s == s[..n] + [s[n]];
      assert (TrimEnd(s) + c) + [s[n]] == TrimEnd(s) + b;
    } else {
      b := "";
    }
  }

  /** Trimming takes off all white space at both ends, and nothing else. */
  lemma TrimParts(s: string) returns (a: string, b: string)
    ensures s == a + Trim(s) + b && AllSpaces(a) && AllSpaces(b)
    ensures var m := Trim(s); m != "" ==> !IsSpace(m[0]) && !IsSpace(m[|m| - 1])
  {
    b := TrimEndParts(s);
    a := TrimStartParts(TrimEnd(s));
  }

  lemma {:induction false} TrimStartOf(a: string, m: string)
    requires AllSpaces(a) && m != "" && !IsSpace(m[0])
    ensures TrimStart(a + m) == m
    decreases |a|
  {
    if a == "" {
      assert a + m == m;
    } else {
      assert (a + m)[1..] == a[1..] + m;
      TrimStartOf(a[1..], m);
    }
  }

  lemma {:induction false} TrimEndOf(m: string, b: string)
    requires AllSpaces(b) && m != "" && !IsSpace(m[|m| - 1])
    ensures TrimEnd(m + b) == m
    decreases |b|
  {
    if b == "" {
      assert m + b == m;
    } else {
      var n := |b| - 1;
      assert (m + b)[..|m + b| - 1] == m + b[..n];
      assert (m + b)[|m + b| - 1] == b[n];
      TrimEndOf(m, b[..n]);
    }
  }

  lemma TrimOf(a: string, m: string, b: string)
    requires AllSpaces(a) && AllSpaces(b) && m != "" && !IsSpace(m[0]) && !IsSpace(m[|m| - 1])
    ensures Trim(a + m + b) == m
  {
    assert (a + m)[|a + m| - 1] == m[|m| - 1];
    TrimEndOf(a + m, b);
    TrimStartOf(a, m);
  }

  /** White space, perhaps a plus sign, digits with the value of the pid, white space. */
  ghost predicate Writes(content: string, a: string, sign: string, digits: string, b: string, p: Pid) {
    && content == a + (sign + digits) + b && AllSpaces(a) && AllSpaces(b)
    && (sign == "" || sign == "+") && AllDigits(digits) && ValueOf(digits) == p
  }

  lemma ParsePositive(m: string, p: Pid) returns (sign: string, digits: string)
    requires ParseI32(m) == Some(p)
    ensures m == sign + digits && (sign == "" || sign == "+") && AllDigits(digits) && ValueOf(digits) == p
  {
    if m != "" && (m[0] == '+' || m[0] == '-') {
      sign, digits := [m[0]], m[1..];
    } else {
      sign, digits := "", m;
    }
    ParseNatIff(digits);
    assert m == sign + digits;
  }

  /** A lock of any other length, or with anything else in it, is bogus. */
  lemma ParsePidIff(content: string, p: Pid)
    ensures ParsePid(content) == Some(p)
       <==> |content| == 11 && content[10] == '\n' && exists a, sign, digits, b :: Writes(content, a, sign, digits, b, p)
  {
    if ParsePid(content) == Some(p) {
      hide Trim, ParseNat, ValueOf, AllDigits, AllSpaces;
      var a, b := TrimParts(content);
      var sign, digits := ParsePositive(Trim(content), p);
      assert Writes(content, a, sign, digits, b, p);
    }
    if |content| == 11 && content[10] == '\n' && exists a, sign, digits, b :: Writes(content, a, sign, digits, b, p) {
      var a, sign, digits, b :| Writes(content, a, sign, digits, b, p);
      WritesParses(content, a, sign, digits, b, p);
    }
  }

  lemma WritesParses(content: string, a: string, sign: string, digits: string, b: string, p: Pid)
    requires Writes(content, a, sign, digits, b, p)
    ensures ParseI32(Trim(content)) == Some(p)
  {
    var m := sign + digits;
    assert m[|m| - 1] == digits[|digits| - 1];
    assert sign == "" ==> m == digits;
    TrimOf(a, m, b);
    ParseNatIff(digits);
    assert sign != "" ==> m[1..] == digits;
    hide ParseNat, ValueOf, Trim, AllSpaces;
  }
}
