/** The parts of the C library that the text code relies on, over buffer contents and C strings. */
module CText {
  import opened Outcomes

  const NUL := '\0'

  const INT_MAX: int := 0x7fff_ffff
  const LONG_MAX: int := 0x7fff_ffff_ffff_ffff

  predicate IsInt(n: int) {
    -INT_MAX - 1 <= n <= INT_MAX
  }

  /** Conversion of a wider integer to a 32-bit `int`. */
  function ToInt(n: int): int {
    (n + INT_MAX + 1) % (2 * (INT_MAX + 1)) - INT_MAX - 1
  }

  /** Conversion to `uint32_t`. */
  function ToUint(n: int): int {
    n % (2 * (INT_MAX + 1))
  }

  // ---------- searching ----------

  /** The offset `strchr` finds, or the length when `c` does not occur. */
  function FirstIndex(s: string, c: char): (i: nat)
    ensures i <= |s|
    ensures i < |s| ==> s[i] == c
    ensures forall j :: 0 <= j < i ==> s[j] != c
  {
    FirstFrom(s, c, 0)
  }

  function FirstFrom(s: string, c: char, from: nat): (i: nat)
    requires from <= |s|
    ensures from <= i <= |s|
    ensures i < |s| ==> s[i] == c
    ensures forall j :: from <= j < i ==> s[j] != c
    decreases |s| - from
  {
    if from == |s| || s[from] == c then from else FirstFrom(s, c, from + 1)
  }

  /** The offset `strrchr` finds, or -1 when `c` does not occur. */
  function LastIndex(s: string, c: char): (i: int)
    ensures -1 <= i < |s|
    ensures i >= 0 ==> s[i] == c
    ensures forall j :: i < j < |s| ==> s[j] != c
  {
    LastBelow(s, c, |s|)
  }

  function LastBelow(s: string, c: char, n: nat): (i: int)
    requires n <= |s|
    ensures -1 <= i < n
    ensures i >= 0 ==> s[i] == c
    ensures forall j :: i < j < n ==> s[j] != c
  {
    if n == 0 then -1 else if s[n - 1] == c then n - 1 else LastBelow(s, c, n - 1)
  }

  lemma FirstIndexIs(s: string, c: char, i: nat)
    requires i < |s| && s[i] == c && forall j :: 0 <= j < i ==> s[j] != c
    ensures FirstIndex(s, c) == i
  {
  }

  lemma LastIndexIs(s: string, c: char, i: nat)
    requires i < |s| && s[i] == c && forall j :: i < j < |s| ==> s[j] != c
    ensures LastIndex(s, c) == i
  {
  }

  lemma SliceOfSuffix(s: string, k: nat, i: nat, j: nat)
    requires i <= j && k + j <= |s|
    ensures s[k..][i..j] == s[k + i..k + j]
  {
  }

  /** Taking a joined text apart at the joint. */
  lemma Joint(a: string, c: char, b: string)
    ensures var s := a + [c] + b;
      |a| < |s| && s[|a|] == c && s[..|a|] == a && s[|a| + 1..] == b
  {
  }

  lemma FirstInJoint(a: string, c: char, b: string)
    requires c !in a
    ensures FirstIndex(a + [c] + b, c) == |a|
  {
    FirstIndexIs(a + [c] + b, c, |a|);
  }

  /** Searching a joined text from the end looks at the second part first, then at the joint. */
  lemma LastInJoint(a: string, c: char, b: string)
    ensures LastIndex(a + [c] + b, c) == |a| + 1 + LastIndex(b, c)
  {
    var s, i := a + [c] + b, LastIndex(b, c);
    assert forall j :: 0 <= j < |b| ==> s[|a| + 1 + j] == b[j];
    LastIndexIs(s, c, |a| + 1 + i);
  }

  /** Cutting off a prefix without `c` only shifts the last occurrence. */
  lemma LastIndexDrop(s: string, c: char, k: nat)
    requires k <= |s| && forall j :: 0 <= j < k ==> s[j] != c
    ensures var d := LastIndex(s[k..], c); LastIndex(s, c) == if d >= 0 then k + d else -1
  {
    var i := LastIndex(s, c);
    if i >= 0 {
      assert s[k..][i - k] == c;
      LastIndexIs(s[k..], c, i - k);
    } else {
      assert c !in s[k..];
    }
  }

  // ---------- strings inside buffers ----------

  /** The C string that starts at offset `i` of a buffer. */
  function StringAt(b: seq<char>, i: nat): string
    requires i <= |b|
  {
    b[i..][..FirstIndex(b[i..], NUL)]
  }

  /** Some NUL stands at or after offset `i`, so reading a string there stays inside the buffer. */
  predicate Terminated(b: seq<char>, i: nat) {
    i <= |b| && NUL in b[i..]
  }

  lemma StringAtIs(b: seq<char>, i: nat, text: string)
    requires i + |text| < |b| && b[i..i + |text|] == text && b[i + |text|] == NUL && NUL !in text
    ensures StringAt(b, i) == text && Terminated(b, i)
  {
    var t := b[i..];
    assert t[..|text|] == text && t[|text|] == NUL;
    FirstIndexIs(t, NUL, |text|);
  }

  /** A buffer that agrees with `s` up to a NUL holds that part of `s`. */
  lemma StringBetween(b: seq<char>, s: string, from: nat, to: nat)
    requires from <= to <= |s| && to < |b| && NUL !in s
    requires b[to] == NUL && b[from..to] == s[from..to]
    ensures Terminated(b, from) && StringAt(b, from) == s[from..to]
  {
    StringAtIs(b, from, s[from..to]);
  }

  // ---------- decimal text ----------

  predicate IsDigit(c: char) {
    '0' <= c <= '9'
  }

  predicate AllDigits(s: string) {
    forall i | 0 <= i < |s| :: IsDigit(s[i])
  }

  /** Length of the leading run of digits. */
  function DigitRun(s: string): (k: nat)
    ensures k <= |s|
    ensures forall j :: 0 <= j < k ==> IsDigit(s[j])
    ensures k < |s| ==> !IsDigit(s[k])
  {
    DigitsFrom(s, 0)
  }

  function DigitsFrom(s: string, from: nat): (k: nat)
    requires from <= |s|
    ensures from <= k <= |s|
    ensures forall j :: from <= j < k ==> IsDigit(s[j])
    ensures k < |s| ==> !IsDigit(s[k])
    decreases |s| - from
  {
    if from == |s| || !IsDigit(s[from]) then from else DigitsFrom(s, from + 1)
  }

  lemma DigitRunIs(s: string, k: nat)
    requires k <= |s| && AllDigits(s[..k]) && (k < |s| ==> !IsDigit(s[k]))
    ensures DigitRun(s) == k
  {
    assert forall j :: 0 <= j < k ==> s[j] == s[..k][j];
  }

  function DecimalValue(s: string): nat
    requires AllDigits(s)
  {
    if s == [] then 0
    else DecimalValue(s[..|s| - 1]) * 10 + (s[|s| - 1] as int - '0' as int)
  }

  /** What `%ld` prints for a number that is not negative. */
  function Decimal(n: nat): (s: string)
    ensures s != [] && AllDigits(s)
  {
    if n < 10 then [('0' as int + n) as char]
    else Decimal(n / 10) + [('0' as int + n % 10) as char]
  }

  lemma {:induction false} DecimalRoundTrip(n: nat)
    ensures DecimalValue(Decimal(n)) == n
  {
    if n >= 10 {
      DecimalRoundTrip(n / 10);
      assert Decimal(n)[..|Decimal(n)| - 1] == Decimal(n / 10);
    } else {
      assert Decimal(n)[..0] == [];
    }
  }

  /** Digits as `%ld` writes them: at least one, and no superfluous leading zero. */
  predicate Canonical(s: string) {
    s != [] && AllDigits(s) && (s[0] == '0' ==> |s| == 1)
  }

  lemma {:induction false} DecimalCanonical(n: nat)
    ensures Canonical(Decimal(n))
    ensures n > 0 ==> Decimal(n)[0] != '0'
  {
    if n >= 10 {
      DecimalCanonical(n / 10);
    }
  }

  /** Reading digits and printing the value gives the same digits exactly when they are canonical. */
  lemma {:induction false} PrintUndoesRead(s: string)
    requires AllDigits(s)
    ensures Decimal(DecimalValue(s)) == s <==> Canonical(s)
  {
    DecimalCanonical(DecimalValue(s));
    if Canonical(s) {
      CanonicalPrints(s);
    }
  }

  lemma {:induction false} CanonicalPrints(s: string)
    requires Canonical(s)
    ensures Decimal(DecimalValue(s)) == s
  {
    var init := s[..|s| - 1];
    if |s| == 1 {
      assert DecimalValue(init) == 0;
    } else {
      CanonicalPrints(init);
      PositiveValue(init);
      var last := s[|s| - 1] as int - '0' as int;
      assert DecimalValue(s) / 10 == DecimalValue(init) && DecimalValue(s) % 10 == last;
      assert s == init + [s[|s| - 1]];
    }
  }

  lemma {:induction false} PositiveValue(s: string)
    requires Canonical(s) && s[0] != '0'
    ensures DecimalValue(s) > 0
  {
    if |s| > 1 {
      PositiveValue(s[..|s| - 1]);
    } else {
      assert s[..0] == [];
    }
  }

  // ---------- strtol, atol and atoi ----------

  predicate IsSpace(c: char) {
    c == ' ' || '\t' <= c <= '\r'
  }

  function SkipSpace(s: string): string {
    if s != [] && IsSpace(s[0]) then SkipSpace(s[1..]) else s
  }

  function AfterSign(t: string): string {
    if t != [] && (t[0] == '-' || t[0] == '+') then t[1..] else t
  }

  /** `strtol` in base 10: blanks, a sign, digits; what follows is ignored and the value saturates. */
  function Atol(s: string): int {
    var t := SkipSpace(s);
    var u := AfterSign(t);
    var n: int := DecimalValue(u[..DigitRun(u)]);
    if t != [] && t[0] == '-' then (if n > LONG_MAX then -LONG_MAX - 1 else -n)
    else if n > LONG_MAX then LONG_MAX else n
  }

  /** `atoi` is `strtol` cut down to 32 bits. */
  function Atoi(s: string): int {
    ToInt(Atol(s))
  }

  lemma AtolOfDigits(s: string)
    requires AllDigits(s)
    ensures Atol(s) == if DecimalValue(s) > LONG_MAX then LONG_MAX else DecimalValue(s)
  {
    assert SkipSpace(s) == s;
    DigitRunIs(s, |s|);
    assert s[..|s|] == s;
  }

  /**
   * The number read from any text: blanks in front and whatever stands behind the digits do not matter, without digits
   * it is 0, and beyond the range of `long` it is the nearest end.
   */
  lemma AtolReads(blanks: string, sign: string, digits: string, behind: string)
    requires forall i | 0 <= i < |blanks| :: IsSpace(blanks[i])
    requires sign in {"", "+", "-"} && AllDigits(digits)
    requires behind != "" ==> !IsDigit(behind[0])
    requires sign == "" && digits == "" && behind != "" ==> !IsSpace(behind[0]) && behind[0] != '+' && behind[0] != '-'
    ensures var n: int, least: int := DecimalValue(digits), -0x8000_0000_0000_0000;
      Atol(blanks + (sign + (digits + behind))) ==
        if sign == "-" then (if -n < least then least else -n) else if n > -least - 1 then -least - 1 else n
  {
    var u := digits + behind;
    var t := sign + u;
    assert SkipSpace(blanks + t) == t by {
      assert t != [] ==> !IsSpace(t[0]);
      SkipsBlanks(blanks, t);
    }
    assert AfterSign(t) == u by {
      assert sign != "" ==> t[0] == sign[0] && t[1..] == u;
    }
    assert u[..DigitRun(u)] == digits by {
      assert u[..|digits|] == digits;
      DigitRunIs(u, |digits|);
    }
  }

  lemma {:induction false} SkipsBlanks(blanks: string, t: string)
    requires forall i | 0 <= i < |blanks| :: IsSpace(blanks[i])
    requires t != [] ==> !IsSpace(t[0])
    ensures SkipSpace(blanks + t) == t
  {
    if blanks != [] {
      assert (blanks + t)[1..] == blanks[1..] + t;
      SkipsBlanks(blanks[1..], t);
    } else {
      assert blanks + t == t;
    }
  }

  lemma ToIntKeeps(n: int)
    requires IsInt(n)
    ensures ToInt(n) == n
  {
  }

  /** The int with the same low 32 bits. */
  lemma ToIntIsInt(n: int)
    ensures IsInt(ToInt(n)) && (n - ToInt(n)) % 0x1_0000_0000 == 0
  {
  }

  lemma AtoiOfDigits(s: string)
    requires AllDigits(s) && DecimalValue(s) <= INT_MAX
    ensures Atoi(s) == DecimalValue(s)
  {
    AtolOfDigits(s);
    var n := Atol(s);
    ToIntKeeps(n);
  }
}
