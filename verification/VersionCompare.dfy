/** `strverscmp`, the table-driven comparison of version strings used where the C library has none
    (lib/perf/perftest_communication.c). */
module VersionCompare {
  /** The bytes of a C string, terminator apart. */
  type Byte = c: nat | 0 < c < 256 witness 1

  const ZERO: Byte := 48   // '0'
  const NINE: Byte := 57   // '9'

  // The states, by the number that ends where the automaton stands.
  const S_N: nat := 0    // there is none
  const S_I: nat := 4    // one that begins with a digit other than zero
  const S_F: nat := 8    // one that begins with zero and has another digit behind the zeroes
  const S_Z: nat := 12   // zeroes and nothing else

  const CMP: int := 2
  const LEN: int := 3

  // A row for each state in turn; in it the successor for each class of byte, the fourth being unused.
  const NEXT_STATE: seq<nat> := [
    S_N, S_I, S_Z, S_N,
    S_N, S_I, S_I, S_I,
    S_N, S_F, S_F, S_F,
    S_N, S_F, S_Z, S_Z]

  // A row for each state; column 4 * k + l for bytes of classes k and l. Class 3 does not occur.
  const ROW_N := [CMP, CMP, CMP, CMP, CMP, LEN, CMP, CMP, CMP, CMP, CMP, CMP, CMP, CMP, CMP, CMP]
  const ROW_I := [CMP, -1,  -1,  CMP, 1,   LEN, LEN, CMP, 1,   LEN, LEN, CMP, CMP, CMP, CMP, CMP]
  const ROW_F := [CMP, CMP, CMP, CMP, CMP, LEN, CMP, CMP, CMP, CMP, CMP, CMP, CMP, CMP, CMP, CMP]
  const ROW_Z := [CMP, 1,   1,   CMP, -1,  CMP, CMP, CMP, -1,  CMP, CMP, CMP]

  /** The result table, its rows one behind the other. */
  function ResultType(i: nat): int
    requires i < 60
  {
    if i < 16 then ROW_N[i] else if i < 32 then ROW_I[i - 16] else if i < 48 then ROW_F[i - 32] else ROW_Z[i - 48]
  }

  predicate IsDigit(c: nat) {
    ZERO <= c <= NINE
  }

  /** `(c == '0') + (isdigit (c) != 0)`. */
  function Class(c: nat): (k: nat)
    ensures k <= 2 && (k == 0 <==> !IsDigit(c))
  {
    (if c == ZERO then 1 else 0) + (if IsDigit(c) then 1 else 0)
  }

  /** The byte a pointer sees, up to and including the terminator but never behind it. */
  function At(s: seq<Byte>, i: nat): nat
    requires i <= |s|
  {
    if i < |s| then s[i] else 0
  }

  /** The automaton's state after reading a prefix. */
  function StateAfter(s: seq<Byte>): (state: nat)
    ensures state in {S_N, S_I, S_F, S_Z}
  {
    if s == [] then S_N else NEXT_STATE[StateAfter(s[..|s| - 1]) + Class(s[|s| - 1])]
  }

  /** The length of the longest common prefix. */
  function Common(s: seq<Byte>, t: seq<Byte>): (k: nat)
    ensures k <= |s| && k <= |t| && s[..k] == t[..k]
    ensures k < |s| && k < |t| ==> s[k] != t[k]
  {
    if s == [] || t == [] || s[0] != t[0] then 0
    else
      var k := 1 + Common(s[1..], t[1..]);
      assert s[..k] == [s[0]] + s[1..][..k - 1] && t[..k] == [t[0]] + t[1..][..k - 1];
      k
  }

  /** How many digits follow from position i on. */
  function DigitRun(s: seq<Byte>, i: nat): (n: nat)
    requires i <= |s|
    ensures i + n <= |s| && !IsDigit(At(s, i + n))
    ensures forall j :: i <= j < i + n ==> IsDigit(s[j])
    decreases |s| - i
  {
    if IsDigit(At(s, i)) then 1 + DigitRun(s, i + 1) else 0
  }

  function Entry(state: nat, k1: nat, k2: nat): int
    requires state in {S_N, S_I, S_F, S_Z} && k1 <= 2 && k2 <= 2
  {
    ResultType(4 * (state + k1) + k2)
  }

  /** What the result table says, row by row: k1 and k2 are zero for a byte that is no digit. */
  function Rule(state: nat, k1: nat, k2: nat): int {
    if state == S_I then
      if k1 == 0 && k2 == 0 then CMP else if k1 == 0 then -1 else if k2 == 0 then 1 else LEN
    else if state == S_Z then
      if k1 == 0 && k2 > 0 then 1 else if k1 > 0 && k2 == 0 then -1 else CMP
    else
      if k1 == 1 && k2 == 1 then LEN else CMP
  }

  lemma TableIsRule(state: nat, k1: nat, k2: nat)
    requires state in {S_N, S_I, S_F, S_Z} && k1 <= 2 && k2 <= 2
    ensures Entry(state, k1, k2) == Rule(state, k1, k2)
  {
    var i := 4 * k1 + k2;
    assert ResultType(4 * state + i) ==
           if state == S_N then ROW_N[i] else if state == S_I then ROW_I[i]
           else if state == S_F then ROW_F[i] else ROW_Z[i];
  }

  /** The verdict at the first difference, c1 against c2, with n1 and n2 digits behind them. */
  function Verdict(state: nat, c1: int, c2: int, n1: nat, n2: nat): int
    requires 0 <= c1 && 0 <= c2
  {
    var e := Rule(state, Class(c1), Class(c2));
    if e == CMP then c1 - c2
    else if e == LEN then (if n1 > n2 then 1 else if n1 < n2 then -1 else c1 - c2)
    else e
  }

  /** Digits behind position k, where there is anything behind it. */
  function RunBehind(s: seq<Byte>, k: nat): nat
    requires k <= |s|
  {
    if k < |s| then DigitRun(s, k + 1) else 0
  }

  function Compare(s: seq<Byte>, t: seq<Byte>): int {
    var k := Common(s, t);
    Verdict(StateAfter(s[..k]), At(s, k), At(t, k), RunBehind(s, k), RunBehind(t, k))
  }

  lemma CommonUnique(s: seq<Byte>, t: seq<Byte>, k: nat)
    requires k <= |s| && k <= |t| && s[..k] == t[..k] && At(s, k) != At(t, k)
    ensures Common(s, t) == k
  {
    var c := Common(s, t);
    forall i | 0 <= i < k
      ensures s[i] == t[i]
    {
      assert s[i] == s[..k][i] && t[i] == t[..k][i];
    }
    forall i | 0 <= i < c
      ensures s[i] == t[i]
    {
      assert s[i] == s[..c][i] && t[i] == t[..c][i];
    }
  }

  lemma StateStep(s: seq<Byte>, i: nat)
    requires i < |s|
    ensures StateAfter(s[..i]) + Class(s[i]) < |NEXT_STATE|
    ensures StateAfter(s[..i + 1]) == NEXT_STATE[StateAfter(s[..i]) + Class(s[i])]
  {
    assert s[..i + 1][..i] == s[..i];
  }

  lemma SamePrefixGrows(s: seq<Byte>, t: seq<Byte>, k: nat)
    requires k < |s| && k <= |t| && s[..k] == t[..k] && At(t, k) == s[k]
    ensures k < |t| && s[..k + 1] == t[..k + 1]
  {
    assert s[..k + 1] == s[..k] + [s[k]] && t[..k + 1] == t[..k] + [t[k]];
  }

  /** The first pointer loop. No pointer passes a terminator, and no table index is out of range. */
  method FirstDifference(s1: seq<Byte>, s2: seq<Byte>) returns (p: nat, state: nat, c2: nat, diff: int)
    ensures p == Common(s1, s2) + 1
    ensures state == StateAfter(s1[..p - 1]) + Class(At(s1, p - 1))
    ensures c2 == At(s2, p - 1) && diff == At(s1, p - 1) - c2
  {
    var c1 := At(s1, 0);
    c2 := At(s2, 0);
    p := 1;
    state := S_N + Class(c1);
    diff := c1 - c2;
    while diff == 0 && c1 != 0
      invariant 1 <= p <= |s1| + 1 && p <= |s2| + 1 && s1[..p - 1] == s2[..p - 1]
      invariant c1 == At(s1, p - 1) && c2 == At(s2, p - 1) && diff == c1 - c2
      invariant state == StateAfter(s1[..p - 1]) + Class(c1)
      decreases |s1| + 1 - p
    {
      StateStep(s1, p - 1);
      SamePrefixGrows(s1, s2, p - 1);
      state := NEXT_STATE[state];
      c1, c2 := At(s1, p), At(s2, p);
      p := p + 1;
      state := state + Class(c1);
      diff := c1 - c2;
    }
    CommonIs(s1, s2, p - 1);
  }

  /** One access to the result table, inside its bounds. */
  method LookUp(state: nat, k2: nat, ghost before: nat, ghost k1: nat) returns (code: int)
    requires before in {S_N, S_I, S_F, S_Z} && k1 <= 2 && k2 <= 2 && state == before + k1
    ensures code == Rule(before, k1, k2)
  {
    TableIsRule(before, k1, k2);
    code := ResultType(4 * state + k2);
  }

  method Strverscmp(s1: seq<Byte>, s2: seq<Byte>, samePointer: bool) returns (r: int)
    requires samePointer ==> s1 == s2
    ensures r == if samePointer then 0 else Compare(s1, s2)
  {
    if samePointer {
      return 0;
    }
    var p, state, c2, diff := FirstDifference(s1, s2);
    var code := LookUp(state, Class(c2), StateAfter(s1[..p - 1]), Class(At(s1, p - 1)));
    if code == CMP {
      r := diff;
    } else if code == LEN {
      r := CompareLengths(s1, s2, p, diff);
    } else {
      r := code;
    }
  }

  /** At the end of the first loop it has read exactly the common prefix. */
  lemma CommonIs(s: seq<Byte>, t: seq<Byte>, k: nat)
    requires k <= |s| && k <= |t| && s[..k] == t[..k] && (At(s, k) == At(t, k) ==> At(s, k) == 0)
    ensures Common(s, t) == k
  {
    if At(s, k) != At(t, k) {
      CommonUnique(s, t, k);
    } else {
      assert s[..k] == s && t[..k] == t;
    }
  }

  /** The second loop: the longer run of digits wins, and `diff` decides between equal ones. */
  method CompareLengths(s1: seq<Byte>, s2: seq<Byte>, p: nat, diff: int) returns (r: int)
    requires p <= |s1| && p <= |s2|
    ensures r == var n1, n2 := DigitRun(s1, p), DigitRun(s2, p); if n1 > n2 then 1 else if n1 < n2 then -1 else diff
  {
    var p1, p2 := p, p;
    while IsDigit(At(s1, p1))
      invariant p <= p1 <= |s1| && p <= p2 <= |s2| && p1 == p2
      invariant DigitRun(s1, p) == p1 - p + DigitRun(s1, p1)
      invariant DigitRun(s2, p) == p2 - p + DigitRun(s2, p2)
      decreases |s1| - p1
    {
      p1 := p1 + 1;
      if !IsDigit(At(s2, p2)) {
        return 1;
      }
      p2 := p2 + 1;
    }
    r := if IsDigit(At(s2, p2)) then -1 else diff;
  }

  // ---- what the comparison means

  lemma CommonSymmetric(s: seq<Byte>, t: seq<Byte>)
    ensures Common(s, t) == Common(t, s)
  {
    CommonIs(t, s, Common(s, t));
  }

  /** Zero exactly for equal strings. */
  lemma ZeroIffEqual(s: seq<Byte>, t: seq<Byte>)
    ensures Compare(s, t) == 0 <==> s == t
  {
    var k := Common(s, t);
    assert s[..|s|] == s && t[..|t|] == t;
    if s == t {
      CommonIs(s, t, |s|);
    }
  }

  function Sign(x: int): int {
    if x < 0 then -1 else if x > 0 then 1 else 0
  }

  /** Exchanging the strings changes the sign. */
  lemma Antisymmetric(s: seq<Byte>, t: seq<Byte>)
    ensures Sign(Compare(t, s)) == -Sign(Compare(s, t))
  {
    var k := Common(s, t);
    CommonSymmetric(s, t);
  }

  /** The digits a string ends in. */
  function Number(s: seq<Byte>): seq<Byte> {
    if s == [] || !IsDigit(s[|s| - 1]) then [] else Number(s[..|s| - 1]) + [s[|s| - 1]]
  }

  lemma {:induction false} NumberIsLongest(s: seq<Byte>)
    ensures var n := Number(s);
            |n| <= |s| && n == s[|s| - |n|..] && Digits(n) && (|n| < |s| ==> !IsDigit(s[|s| - |n| - 1]))
  {
    if s != [] && IsDigit(s[|s| - 1]) {
      NumberIsLongest(s[..|s| - 1]);
    }
  }

  predicate AllZero(n: seq<Byte>) {
    forall i :: 0 <= i < |n| ==> n[i] == ZERO
  }

  /** The state for a number: none, one that starts with a digit other than zero, zeroes only, or zeroes
      with something behind them. */
  function Kind(n: seq<Byte>): nat {
    if n == [] then S_N else if n[0] != ZERO then S_I else if AllZero(n) then S_Z else S_F
  }

  lemma KindStep(n: seq<Byte>, c: Byte)
    ensures Kind(n) + Class(c) < |NEXT_STATE|
    ensures IsDigit(c) ==> NEXT_STATE[Kind(n) + Class(c)] == Kind(n + [c])
    ensures !IsDigit(c) ==> NEXT_STATE[Kind(n) + Class(c)] == S_N
  {
    var m := n + [c];
    assert m[|n|] == c && (n != [] ==> m[0] == n[0]);
    assert AllZero(m) <==> AllZero(n) && c == ZERO by {
      assert forall i :: 0 <= i < |n| ==> m[i] == n[i];
    }
  }

  /** All the automaton remembers of a prefix is the kind of number the prefix ends in. */
  lemma {:induction false} StateMeaning(s: seq<Byte>)
    ensures StateAfter(s) == Kind(Number(s))
  {
    if s != [] {
      StateMeaning(s[..|s| - 1]);
      KindStep(Number(s[..|s| - 1]), s[|s| - 1]);
    }
  }

  // ---- numerals

  predicate Digits(n: seq<Byte>) {
    forall i :: 0 <= i < |n| ==> IsDigit(n[i])
  }

  predicate IsNumeral(n: seq<Byte>) {
    n != [] && Digits(n) && (n[0] == ZERO ==> |n| == 1)
  }

  function Value(n: seq<Byte>): nat
    requires Digits(n)
  {
    if n == [] then 0 else 10 * Value(n[..|n| - 1]) + (n[|n| - 1] - ZERO)
  }

  lemma {:induction false} SameLengthOrder(a: seq<Byte>, b: seq<Byte>, j: nat)
    requires Digits(a) && Digits(b) && j < |a| == |b| && a[..j] == b[..j] && a[j] < b[j]
    ensures Value(a) < Value(b)
  {
    var m := |a| - 1;
    if j < m {
      assert a[..m][..j] == a[..j] && b[..m][..j] == b[..j];
      SameLengthOrder(a[..m], b[..m], j);
    }
  }

  lemma {:induction false} ShorterIsLess(a: seq<Byte>, b: seq<Byte>)
    requires Digits(a) && Digits(b) && |a| < |b| && b[0] != ZERO
    ensures Value(a) < Value(b)
  {
    if a != [] {
      ShorterIsLess(a[..|a| - 1], b[..|b| - 1]);
    } else if |b| > 1 {
      ShorterIsLess(a, b[..|b| - 1]);
    }
  }

  lemma NumberStep(s: seq<Byte>, c: Byte)
    ensures Number(s + [c]) == if IsDigit(c) then Number(s) + [c] else []
  {
    assert (s + [c])[..|s + [c]| - 1] == s;
  }

  lemma {:induction false} NumberAppend(p: seq<Byte>, a: seq<Byte>)
    requires Number(p) == [] && Digits(a)
    ensures Number(p + a) == a
  {
    if a == [] {
      assert p + a == p;
    } else {
      var rest, last := a[..|a| - 1], a[|a| - 1];
      NumberAppend(p, rest);
      NumberStep(p + rest, last);
      assert p + a == (p + rest) + [last];
    }
  }

  lemma {:induction false} DigitRunIs(s: seq<Byte>, i: nat, n: nat)
    requires i + n <= |s| && Digits(s[i..i + n]) && !IsDigit(At(s, i + n))
    ensures DigitRun(s, i) == n
    decreases n
  {
    if n > 0 {
      assert s[i..i + n][0] == s[i] && s[i..i + n][1..] == s[i + 1..i + 1 + (n - 1)];
      DigitRunIs(s, i + 1, n - 1);
    }
  }

  /** A string cut at one of its numbers, leading zeroes included. */
  predicate CutAt(s: seq<Byte>, p: seq<Byte>, a: seq<Byte>, rest: seq<Byte>) {
    s == p + a + rest && Number(p) == [] && a != [] && Digits(a) && !IsDigit(At(rest, 0))
  }

  /** Up to position j of the number. */
  lemma SeesState(s: seq<Byte>, p: seq<Byte>, a: seq<Byte>, rest: seq<Byte>, j: nat)
    requires CutAt(s, p, a, rest) && j <= |a|
    ensures |p| + j <= |s| && s[..|p| + j] == p + a[..j] && StateAfter(s[..|p| + j]) == Kind(a[..j])
  {
    assert s[..|p| + j] == p + a[..j];
    StateMeaning(s[..|p| + j]);
    NumberAppend(p, a[..j]);
  }

  /** From position j of the number on: the byte there and the digits behind it. */
  predicate Sees(a: seq<Byte>, j: nat, c: nat, n: nat) {
    if j < |a| then c == a[j] && n == |a| - j - 1 else !IsDigit(c)
  }

  lemma SeesNumber(s: seq<Byte>, p: seq<Byte>, a: seq<Byte>, rest: seq<Byte>, j: nat)
    requires CutAt(s, p, a, rest) && j <= |a|
    ensures |p| + j <= |s| && Sees(a, j, At(s, |p| + j), RunBehind(s, |p| + j))
  {
    var k := |p| + j;
    if j < |a| {
      var n := |a| - j - 1;
      assert s[k + 1..k + 1 + n] == a[j + 1..];
      assert At(s, k + 1 + n) == At(rest, 0);
      DigitRunIs(s, k + 1, n);
    } else {
      assert At(s, k) == At(rest, 0);
    }
  }

  /** The value of unequal numerals: fewer digits are less, and among equally many the first difference
      decides. */
  lemma NumeralOrder(a: seq<Byte>, b: seq<Byte>, j: nat)
    requires IsNumeral(a) && IsNumeral(b) && a != b && j == Common(a, b)
    ensures |a| < |b| ==> Value(a) < Value(b)
    ensures |a| > |b| ==> Value(a) > Value(b)
    ensures |a| == |b| ==> j < |a| && (if a[j] < b[j] then Value(a) < Value(b) else Value(a) > Value(b))
  {
    assert a[..|a|] == a && b[..|b|] == b;
    if |a| < |b| {
      ShorterIsLess(a, b);
    } else if |a| > |b| {
      ShorterIsLess(b, a);
    } else if a[j] < b[j] {
      SameLengthOrder(a, b, j);
    } else {
      SameLengthOrder(b, a, j);
    }
  }

  /** Behind a common start of unequal numerals the automaton is in the state for a number. */
  lemma NumeralState(a: seq<Byte>, b: seq<Byte>, j: nat)
    requires IsNumeral(a) && IsNumeral(b) && a != b && j == Common(a, b)
    ensures Kind(a[..j]) == if j == 0 then S_N else S_I
    ensures j > 0 || (|a| > j && |b| > j)
    ensures |a| > j || |b| > j
  {
    assert a[..|a|] == a && b[..|b|] == b;
    if j > 0 {
      assert a[0] == a[..j][0] == b[..j][0] == b[0];
      assert a[0] == ZERO && |a| == |b| == 1 ==> a == [ZERO] == b;
    }
  }

  /** In front of the first digit, and behind one that is not zero. */
  lemma VerdictOnDigits(first: bool, c1: nat, c2: nat, n1: nat, n2: nat)
    requires IsDigit(c1) && IsDigit(c2) && (first && c1 == ZERO ==> n1 == 0) && (first && c2 == ZERO ==> n2 == 0)
    ensures var v := Verdict(if first then S_N else S_I, c1, c2, n1, n2);
            if n1 != n2 && (!first || (c1 != ZERO && c2 != ZERO)) then (v < 0 <==> n1 < n2) && v != 0
            else v == c1 - c2
  {
  }

  lemma VerdictAtEnd(c1: nat, c2: nat, n1: nat, n2: nat)
    requires IsDigit(c1) != IsDigit(c2)
    ensures Verdict(S_I, c1, c2, n1, n2) == if IsDigit(c1) then 1 else -1
  {
  }

  /** Reading on from the first difference of two numerals gives the order of their values. */
  lemma VerdictOrders(a: seq<Byte>, b: seq<Byte>, c1: nat, c2: nat, n1: nat, n2: nat)
    requires IsNumeral(a) && IsNumeral(b) && a != b
    requires Sees(a, Common(a, b), c1, n1) && Sees(b, Common(a, b), c2, n2)
    ensures Sign(Verdict(Kind(a[..Common(a, b)]), c1, c2, n1, n2)) == Sign(Value(a) - Value(b))
  {
    var j := Common(a, b);
    NumeralOrder(a, b, j);
    NumeralState(a, b, j);
    if j < |a| && j < |b| {
      VerdictOnDigits(j == 0, c1, c2, n1, n2);
    } else {
      VerdictAtEnd(c1, c2, n1, n2);
    }
  }

  /** The strings part where their numbers do. */
  lemma PartAtNumber(s: seq<Byte>, t: seq<Byte>, p: seq<Byte>,
                     a: seq<Byte>, b: seq<Byte>, rest1: seq<Byte>, rest2: seq<Byte>, j: nat)
    requires CutAt(s, p, a, rest1) && CutAt(t, p, b, rest2) && a != b && j == Common(a, b)
    ensures Common(s, t) == |p| + j
  {
    SeesState(s, p, a, rest1, j);
    SeesState(t, p, b, rest2, j);
    SeesNumber(s, p, a, rest1, j);
    SeesNumber(t, p, b, rest2, j);
    assert a[..|a|] == a && b[..|b|] == b;
    CommonUnique(s, t, |p| + j);
  }

  /** What the comparison of the strings sees of their numbers. */
  lemma CompareAtNumber(s: seq<Byte>, t: seq<Byte>, p: seq<Byte>,
                        a: seq<Byte>, b: seq<Byte>, rest1: seq<Byte>, rest2: seq<Byte>, j: nat)
    returns (c1: nat, c2: nat, n1: nat, n2: nat)
    requires CutAt(s, p, a, rest1) && CutAt(t, p, b, rest2) && a != b && j == Common(a, b)
    ensures Sees(a, j, c1, n1) && Sees(b, j, c2, n2)
    ensures Compare(s, t) == Verdict(Kind(a[..j]), c1, c2, n1, n2)
  {
    PartAtNumber(s, t, p, a, b, rest1, rest2, j);
    SeesState(s, p, a, rest1, j);
    SeesNumber(s, p, a, rest1, j);
    SeesNumber(t, p, b, rest2, j);
    var k := |p| + j;
    c1, c2, n1, n2 := At(s, k), At(t, k), RunBehind(s, k), RunBehind(t, k);
  }

  /** Behind equal prefixes that end in no digit, unequal decimal numerals are ordered by value. */
  lemma NumericOrder(s: seq<Byte>, t: seq<Byte>, p: seq<Byte>,
                     a: seq<Byte>, b: seq<Byte>, rest1: seq<Byte>, rest2: seq<Byte>)
    requires CutAt(s, p, a, rest1) && CutAt(t, p, b, rest2) && a != b && IsNumeral(a) && IsNumeral(b)
    ensures Sign(Compare(s, t)) == Sign(Value(a) - Value(b))
  {
    var c1, c2, n1, n2 := CompareAtNumber(s, t, p, a, b, rest1, rest2, Common(a, b));
    VerdictOrders(a, b, c1, c2, n1, n2);
  }

  // ---- leading zeroes

  /** How many zeroes a number begins with. */
  function Zeroes(n: seq<Byte>): (z: nat)
    ensures z <= |n| && (forall i :: 0 <= i < z ==> n[i] == ZERO) && (z < |n| ==> n[z] != ZERO)
  {
    if n == [] || n[0] != ZERO then 0 else 1 + Zeroes(n[1..])
  }

  lemma ZeroState(n: seq<Byte>, j: nat)
    requires 0 < j <= |n| && n[0] == ZERO
    ensures Kind(n[..j]) == if j <= Zeroes(n) then S_Z else S_F
  {
    var z := Zeroes(n);
    if z < j {
      assert n[..j][z] == n[z];
    }
  }

  /** Of two numbers behind equal prefixes the one with more leading zeroes is less. */
  lemma MoreZeroesIsLess(s: seq<Byte>, t: seq<Byte>, p: seq<Byte>,
                         a: seq<Byte>, b: seq<Byte>, rest1: seq<Byte>, rest2: seq<Byte>)
    requires CutAt(s, p, a, rest1) && CutAt(t, p, b, rest2) && Zeroes(a) > Zeroes(b)
    ensures Compare(s, t) < 0
  {
    var z := Zeroes(b);
    assert a[..z] == b[..z];
    CommonUnique(a, b, z);
    var c1, c2, n1, n2 := CompareAtNumber(s, t, p, a, b, rest1, rest2, z);
    if z > 0 {
      ZeroState(a, z);
    }
  }

  /** Two numbers with as many leading zeroes that differ in a digit: directly behind the zeroes the digits
      decide, and so they do later, unless neither is zero and the numbers differ in length. */
  lemma BehindZeroes(s: seq<Byte>, t: seq<Byte>, p: seq<Byte>,
                     a: seq<Byte>, b: seq<Byte>, rest1: seq<Byte>, rest2: seq<Byte>, j: nat)
    requires CutAt(s, p, a, rest1) && CutAt(t, p, b, rest2) && Zeroes(a) == Zeroes(b) > 0
    requires j == Common(a, b) && j < |a| && j < |b|
    ensures j >= Zeroes(a)
    ensures Sign(Compare(s, t)) ==
            if j > Zeroes(a) && a[j] != ZERO && b[j] != ZERO && |a| != |b| then Sign(|a| - |b|)
            else SignOf(a[j], b[j])
  {
    NoDifferenceBefore(a, b, j);
    var c1, c2, n1, n2 := CompareAtNumber(s, t, p, a, b, rest1, rest2, j);
    ZeroState(a, j);
    VerdictBehindZeroes(j == Zeroes(a), c1, c2, n1, n2);
  }

  function SignOf(c1: int, c2: int): int {
    Sign(c1 - c2)
  }

  lemma NoDifferenceBefore(a: seq<Byte>, b: seq<Byte>, j: nat)
    requires j == Common(a, b) && j < |a| && j < |b| && Zeroes(a) == Zeroes(b)
    ensures j >= Zeroes(a)
  {
  }

  /** Where a number with a leading zero goes on longer than the other, the other is the greater if it is all
      zeroes; else the byte behind it decides. */
  lemma NumberEnds(s: seq<Byte>, t: seq<Byte>, p: seq<Byte>,
                   a: seq<Byte>, b: seq<Byte>, rest1: seq<Byte>, rest2: seq<Byte>)
    requires CutAt(s, p, a, rest1) && CutAt(t, p, b, rest2) && Common(a, b) == |a| < |b| && a[0] == ZERO
    ensures Sign(Compare(s, t)) ==
            if |a| > Zeroes(a) then SignOf(At(rest1, 0), b[|a|]) else 1
  {
    var k := |p| + |a|;
    PartAtNumber(s, t, p, a, b, rest1, rest2, |a|);
    SeesState(s, p, a, rest1, |a|);
    SeesNumber(t, p, b, rest2, |a|);
    ZeroState(a, |a|);
    assert At(s, k) == At(rest1, 0);
  }

  /** Directly behind the zeroes, where a digit is not zero, and further on. */
  lemma VerdictBehindZeroes(first: bool, c1: nat, c2: nat, n1: nat, n2: nat)
    requires IsDigit(c1) && IsDigit(c2) && c1 != c2
    ensures var v := Verdict(if first then S_Z else S_F, c1, c2, n1, n2);
            Sign(v) == if !first && c1 != ZERO && c2 != ZERO && n1 != n2 then Sign(n1 - n2) else Sign(c1 - c2)
  {
  }

  // ---- as fractions

  function Ten(n: nat): (r: nat)
    ensures r >= 1
  {
    if n == 0 then 1 else 10 * Ten(n - 1)
  }

  /** The digits up to m leave less than one unit of the m-th place open. */
  lemma {:induction false} Truncated(n: seq<Byte>, m: nat)
    requires Digits(n) && m <= |n|
    ensures Value(n[..m]) * Ten(|n| - m) <= Value(n) < (Value(n[..m]) + 1) * Ten(|n| - m)
  {
    if m == |n| {
      assert n[..m] == n;
    } else {
      var rest := n[..|n| - 1];
      Truncated(rest, m);
      assert rest[..m] == n[..m];
      TenTimes(Value(n[..m]), Ten(|rest| - m), Value(rest), n[|n| - 1] - ZERO);
    }
  }

  lemma TenTimes(v: nat, t: nat, r: nat, d: nat)
    requires v * t <= r < (v + 1) * t && d <= 9
    ensures v * (10 * t) <= 10 * r + d < (v + 1) * (10 * t)
  {
    assert v * (10 * t) == 10 * (v * t) && (v + 1) * (10 * t) == 10 * ((v + 1) * t);
  }

  lemma {:induction false} TenAdds(m: nat, n: nat)
    ensures Ten(m + n) == Ten(m) * Ten(n)
  {
    if m > 0 {
      TenAdds(m - 1, n);
      assert 10 * (Ten(m - 1) * Ten(n)) == 10 * Ten(m - 1) * Ten(n);
    }
  }

  lemma PlaceValue(n: seq<Byte>, j: nat)
    requires Digits(n) && j < |n|
    ensures Value(n[..j + 1]) == 10 * Value(n[..j]) + (n[j] - ZERO)
  {
    assert n[..j + 1][..j] == n[..j];
  }

  lemma PlacesDiffer(a: seq<Byte>, b: seq<Byte>, j: nat)
    requires Digits(a) && Digits(b) && j < |a| && j < |b| && a[..j] == b[..j] && a[j] < b[j]
    ensures Value(a[..j + 1]) + 1 <= Value(b[..j + 1])
  {
    PlaceValue(a, j);
    PlaceValue(b, j);
  }

  lemma Bounds(a: seq<Byte>, b: seq<Byte>, j: nat) returns (u: nat, v: nat)
    requires Digits(a) && Digits(b) && j < |a| && j < |b| && a[..j] == b[..j] && a[j] < b[j]
    ensures Value(a) < u * Ten(|a| - (j + 1)) && v * Ten(|b| - (j + 1)) <= Value(b) && u <= v
  {
    PlacesDiffer(a, b, j);
    Truncated(a, j + 1);
    Truncated(b, j + 1);
    u, v := Value(a[..j + 1]) + 1, Value(b[..j + 1]);
  }

  /** Read as digits behind a decimal point, numbers are ordered by their first difference. */
  lemma FractionOrder(a: seq<Byte>, b: seq<Byte>, j: nat)
    requires Digits(a) && Digits(b) && j < |a| && j < |b| && a[..j] == b[..j] && a[j] < b[j]
    ensures Value(a) * Ten(|b|) < Value(b) * Ten(|a|)
  {
    var u, v := Bounds(a, b, j);
    ScaledTens(Value(a), Value(b), u, v, j + 1, |a|, |b|);
  }

  lemma ScaledTens(x: nat, y: nat, u: nat, v: nat, place: nat, m: nat, n: nat)
    requires place <= m && place <= n && x < u * Ten(m - place) && v * Ten(n - place) <= y && u <= v
    ensures x * Ten(n) < y * Ten(m)
  {
    TenAdds(place, m - place);
    TenAdds(place, n - place);
    Scaled(x, y, u, v, Ten(place), Ten(m - place), Ten(n - place));
  }

  lemma Scaled(x: nat, y: nat, u: nat, v: nat, t: nat, m: nat, n: nat)
    requires x < u * m && v * n <= y && u <= v && t >= 1 && n >= 1 && m >= 1
    ensures x * (t * n) < y * (t * m)
  {
    var w := t * n;
    assert w >= 1 by {
      Larger(t, n);
    }
    calc {
      x * (t * n);
      x * w;
    <  { Smaller(x, u * m, w); }
      (u * m) * w;
      (u * (m * w));
    <= { SmallerOrEqual(u, v, m * w); }
      v * (m * w);
      v * (m * (t * n));
      (v * n) * (t * m);
    <= { SmallerOrEqual(v * n, y, t * m); }
      y * (t * m);
    }
  }

  lemma Larger(t: nat, n: nat)
    requires t >= 1 && n >= 1
    ensures t * n >= 1
  {
  }

  lemma Smaller(x: nat, y: nat, w: nat)
    requires x < y && w >= 1
    ensures x * w < y * w
  {
    assert y * w == x * w + (y - x) * w;
    Larger(y - x, w);
  }

  lemma SmallerOrEqual(x: nat, y: nat, w: nat)
    requires x <= y
    ensures x * w <= y * w
  {
    if x < y && w >= 1 {
      Smaller(x, y, w);
    }
  }

  /** Behind equal leading zeroes the comparison orders unequal digits as fractions are ordered, except exactly
      where the lesser number is the longer one and its digit, not the first behind the zeroes, is not zero. */
  lemma FractionsInOrderIff(s: seq<Byte>, t: seq<Byte>, p: seq<Byte>,
                            a: seq<Byte>, b: seq<Byte>, rest1: seq<Byte>, rest2: seq<Byte>, j: nat)
    requires CutAt(s, p, a, rest1) && CutAt(t, p, b, rest2) && Zeroes(a) == Zeroes(b) > 0
    requires j == Common(a, b) && j < |a| && j < |b| && Value(a) * Ten(|b|) < Value(b) * Ten(|a|)
    ensures Compare(s, t) < 0 <==> !(|a| > |b| && j > Zeroes(a) && a[j] != ZERO)
  {
    LesserFraction(a, b, j);
    BehindZeroes(s, t, p, a, b, rest1, rest2, j);
  }

  lemma LesserFraction(a: seq<Byte>, b: seq<Byte>, j: nat)
    requires Digits(a) && Digits(b) && j == Common(a, b) && j < |a| && j < |b|
    requires Value(a) * Ten(|b|) < Value(b) * Ten(|a|)
    ensures a[j] < b[j]
  {
    if a[j] > b[j] {
      FractionOrder(b, a, j);
    }
  }

  /** So 0115 comes behind 012. */
  lemma FractionOutOfOrder()
    ensures Compare([48, 49, 49, 53], [48, 49, 50]) > 0
  {
    var a: seq<Byte>, b: seq<Byte> := [48, 49, 49, 53], [48, 49, 50];
    CommonUnique(a, b, 2);
    assert Zeroes(a) == Zeroes(b) == 1;
    BehindZeroes(a, b, [], a, b, [], [], 2);
  }

  // ---- outside numbers

  /** Two bytes that are no digits are ordered as bytes, wherever they stand. */
  lemma NonDigitsByByte(s: seq<Byte>, t: seq<Byte>)
    requires !IsDigit(At(s, Common(s, t))) && !IsDigit(At(t, Common(s, t)))
    ensures Compare(s, t) == At(s, Common(s, t)) - At(t, Common(s, t))
  {
  }

  /** Behind no number a digit and another byte are ordered as bytes. */
  lemma OutsideNumbersByByte(s: seq<Byte>, t: seq<Byte>)
    requires Number(s[..Common(s, t)]) == []
    requires IsDigit(At(s, Common(s, t))) != IsDigit(At(t, Common(s, t)))
    ensures Compare(s, t) == At(s, Common(s, t)) - At(t, Common(s, t))
  {
    StateMeaning(s[..Common(s, t)]);
  }
}
