/** Dotted version numbers (common.go): what compareVersion decides on every pair of strings. */
module Versions {
  import opened Decimals

  const EQUAL: int := 0
  const GREATER: int := 1
  const LESS: int := -1

  const MAX_INT: int := 0x7fff_ffff_ffff_ffff
  const MIN_INT: int := -0x8000_0000_0000_0000
  const MAX_UINT: nat := 0xffff_ffff_ffff_ffff

  // ---------- strings.Split and strconv.Atoi ----------

  /** The parts of a string between its dots; there is always at least one. */
  function Split(s: string): (parts: seq<string>)
    ensures parts != []
  {
    if s == "" then [""]
    else
      var rest := Split(s[1..]);
      if s[0] == '.' then [""] + rest else [[s[0]] + rest[0]] + rest[1..]
  }

  function Join(parts: seq<string>): string
    requires parts != []
  {
    if |parts| == 1 then parts[0] else parts[0] + "." + Join(parts[1..])
  }

  /** What reading an unsigned number from the left has come to; a verdict is final, whatever follows. */
  datatype Scan = Number(n: nat) | OutOfRange | BadSyntax

  function Scanned(s: string): Scan {
    if s == "" then Number(0)
    else
      match Scanned(s[..|s| - 1])
      case Number(n) =>
        if !IsDigit(s[|s| - 1]) then BadSyntax
        else
          var next := n * 10 + (s[|s| - 1] - '0') as nat;
          if next > MAX_UINT then OutOfRange else Number(next)
      case verdict => verdict
  }

  /** The number Atoi yields, its error ignored: 0 for text that is no number, and the nearest int when out of range. */
  function Atoi(s: string): int {
    var signed := s != "" && (s[0] == '-' || s[0] == '+');
    var digits := if signed then s[1..] else s;
    if digits == "" then 0
    else
      match Scanned(digits)
      case BadSyntax => 0
      case OutOfRange => if s[0] == '-' then MIN_INT else MAX_INT
      case Number(n) => Clamp(if s[0] == '-' then 0 - n else n)
  }

  function Clamp(n: int): int {
    if n > MAX_INT then MAX_INT else if n < MIN_INT then MIN_INT else n
  }

  function Numbers(v: string): (ns: seq<int>)
    ensures |ns| == |Split(v)|
  {
    var parts := Split(v);
    seq(|parts|, i requires 0 <= i < |parts| => Atoi(parts[i]))
  }

  // ---------- what the scan decides ----------

  /** The first p characters are digits and already stand for too large a number. */
  ghost predicate Exceeds(s: string, p: nat) {
    p <= |s| && AllDigits(s[..p]) && Value(s[..p]) > MAX_UINT
  }

  /** The scan yields a number exactly if all characters are digits and the number is in range. */
  lemma {:induction false} ScannedNumber(s: string)
    ensures Scanned(s).Number? <==> AllDigits(s) && Value(s) <= MAX_UINT
    ensures Scanned(s).Number? ==> Scanned(s).n == Value(s)
  {
    if s != "" {
      ScannedNumber(s[..|s| - 1]);
    }
  }

  /** It is out of range exactly if some digits at the front already are. */
  lemma {:induction false} ScannedOutOfRange(s: string)
    ensures Scanned(s).OutOfRange? <==> exists p: nat :: Exceeds(s, p)
  {
    if s != "" {
      var init := s[..|s| - 1];
      ScannedOutOfRange(init);
      ScannedNumber(init);
      ExceedsOneMore(s);
      assert s[..|s|] == s && init[..|init|] == init;
      if Scanned(init).OutOfRange? {
        var p: nat :| Exceeds(init, p);
        assert Exceeds(s, p);
      } else if Scanned(s).OutOfRange? {
        assert Exceeds(s, |s|);
      } else {
        assert !Exceeds(init, |init|);
      }
    }
  }

  lemma ExceedsOneMore(s: string)
    requires s != ""
    ensures forall p: nat ::
      Exceeds(s, p) <==> Exceeds(s[..|s| - 1], p) || (p == |s| && AllDigits(s) && Value(s) > MAX_UINT)
  {
    var init := s[..|s| - 1];
    assert s[..|s|] == s;
    forall p: nat ensures Exceeds(s, p) <==> Exceeds(init, p) || (p == |s| && AllDigits(s) && Value(s) > MAX_UINT) {
      assert p <= |init| ==> s[..p] == init[..p];
    }
  }

  /** The digits of a part, without its sign. */
  function Unsigned(s: string): string {
    if s != "" && (s[0] == '-' || s[0] == '+') then s[1..] else s
  }

  /** A signed number within 64 bits is itself, beyond them the nearest such number, and other text is 0. */
  lemma AtoiMeans(s: string)
    ensures var digits, negative := Unsigned(s), s != "" && s[0] == '-';
            if digits != "" && AllDigits(digits) then
              var n: int := if negative then -(Value(digits) as int) else Value(digits);
              Atoi(s) == if n > 0x7fff_ffff_ffff_ffff then 0x7fff_ffff_ffff_ffff
                         else if n < -0x8000_0000_0000_0000 then -0x8000_0000_0000_0000 else n
            else if exists p: nat :: Exceeds(digits, p) then
              Atoi(s) == if negative then -0x8000_0000_0000_0000 else 0x7fff_ffff_ffff_ffff
            else Atoi(s) == 0
  {
    hide Scanned, Value;
    var digits := Unsigned(s);
    ScannedNumber(digits);
    ScannedOutOfRange(digits);
    if AllDigits(digits) && Value(digits) > MAX_UINT {
      assert digits[..|digits|] == digits && Exceeds(digits, |digits|);
    }
    NothingExceeds();
  }

  lemma NothingExceeds()
    ensures forall p: nat :: !Exceeds("", p)
  {
    forall p: nat ensures !Exceeds("", p) {
      if p == 0 {
        assert ""[..0] == "";
      }
    }
  }

  lemma {:induction false} VerdictIsFinal(s: string, t: string)
    requires !Scanned(s).Number?
    ensures Scanned(s + t) == Scanned(s)
  {
    if t == "" {
      assert s + t == s;
    } else {
      assert (s + t)[..|s + t| - 1] == s + t[..|t| - 1];
      VerdictIsFinal(s, t[..|t| - 1]);
    }
  }

  // ---------- comparison ----------

  /** Lexicographic order of number sequences, a proper prefix being smaller. */
  function Lex(a: seq<int>, b: seq<int>): int {
    if a == [] then (if b == [] then EQUAL else LESS)
    else if b == [] then GREATER
    else if a[0] > b[0] then GREATER
    else if a[0] < b[0] then LESS
    else Lex(a[1..], b[1..])
  }

  /** The order compareVersion computes: equal only for equal strings, and less when the numbers cannot tell. */
  function Compared(v1: string, v2: string): int {
    if v1 == v2 then EQUAL
    else if Lex(Numbers(v1), Numbers(v2)) == GREATER then GREATER
    else LESS
  }

  /** From the i-th number on, where the two first differ, m is the greater: by its number, or by going on. */
  ghost predicate GreaterFrom(m: seq<int>, n: seq<int>, i: nat) {
    && i <= |m| && i <= |n| && m[..i] == n[..i]
    && if i < |m| && i < |n| then m[i] > n[i] else i == |n| < |m|
  }

  method CompareVersion(v1: string, v2: string) returns (r: int)
    ensures r == Compared(v1, v2)
    ensures r == 0 || r == 1 || r == -1
    ensures r == 0 <==> v1 == v2
    ensures r == 1 <==> exists i: nat :: GreaterFrom(Numbers(v1), Numbers(v2), i)
  {
    GreaterMeans(v1, v2);
    hide GreaterFrom;
    if v1 == v2 {
      return EQUAL;
    }
    var v1Arr, v2Arr := Split(v1), Split(v2);
    ghost var n1, n2 := Numbers(v1), Numbers(v2);
    for i := 0 to |v1Arr|
      invariant i <= |v2Arr|
      invariant Lex(n1, n2) == Lex(n1[i..], n2[i..])
    {
      if |v2Arr| <= i {
        return GREATER;
      }
      var subv1, subv2 := Atoi(v1Arr[i]), Atoi(v2Arr[i]);
      if subv1 > subv2 {
        return GREATER;
      }
      if subv1 < subv2 {
        return LESS;
      }
    }
    return LESS;
  }

  lemma {:induction false} LexFlips(a: seq<int>, b: seq<int>)
    ensures Lex(a, b) == -Lex(b, a) && (Lex(a, b) == EQUAL <==> a == b)
  {
    if a != [] && b != [] && a[0] == b[0] {
      LexFlips(a[1..], b[1..]);
      assert a == [a[0]] + a[1..] && b == [b[0]] + b[1..];
    }
  }

  lemma {:induction false} LexMeans(a: seq<int>, b: seq<int>)
    ensures Lex(a, b) == 1 <==> exists i: nat :: GreaterFrom(a, b, i)
  {
    if a == [] || b == [] || a[0] != b[0] {
      if Lex(a, b) == 1 {
        assert GreaterFrom(a, b, 0);
      }
      forall i: nat | GreaterFrom(a, b, i) ensures i == 0 || (a != [] && b != [] && a[0] == b[0]) {
        GreaterStart(a, b, i);
      }
    } else {
      LexMeans(a[1..], b[1..]);
      if i: nat :| GreaterFrom(a[1..], b[1..], i) {
        GreaterLater(a, b, i);
      }
      if i: nat :| GreaterFrom(a, b, i) {
        assert i > 0;
        GreaterEarlier(a, b, i);
      }
    }
  }

  lemma GreaterStart(a: seq<int>, b: seq<int>, i: nat)
    requires GreaterFrom(a, b, i)
    ensures i == 0 || (a != [] && b != [] && a[0] == b[0])
  {
    assert i > 0 ==> a[..i][0] == a[0] && b[..i][0] == b[0];
  }

  lemma GreaterLater(a: seq<int>, b: seq<int>, i: nat)
    requires a != [] && b != [] && a[0] == b[0] && GreaterFrom(a[1..], b[1..], i)
    ensures GreaterFrom(a, b, i + 1)
  {
    assert a[..i + 1] == [a[0]] + a[1..][..i] && b[..i + 1] == [b[0]] + b[1..][..i];
  }

  lemma GreaterEarlier(a: seq<int>, b: seq<int>, i: nat)
    requires a != [] && b != [] && i > 0 && GreaterFrom(a, b, i)
    ensures GreaterFrom(a[1..], b[1..], i - 1)
  {
    assert a[1..][..i - 1] == a[..i][1..] && b[1..][..i - 1] == b[..i][1..];
  }

  /** On all strings: greater exactly if the first difference of the numbers is in favour of the first. */
  lemma GreaterMeans(v1: string, v2: string)
    ensures Compared(v1, v2) == 1 <==> exists i: nat :: GreaterFrom(Numbers(v1), Numbers(v2), i)
  {
    hide Lex, Numbers, GreaterFrom;
    LexMeans(Numbers(v1), Numbers(v2));
    LexFlips(Numbers(v1), Numbers(v2));
  }

  lemma {:induction false} LexTransitive(a: seq<int>, b: seq<int>, c: seq<int>)
    requires Lex(a, b) <= 0 && Lex(b, c) <= 0
    ensures Lex(a, c) <= 0 && (Lex(a, b) < 0 || Lex(b, c) < 0 ==> Lex(a, c) < 0)
  {
    if a != [] && b != [] && c != [] && a[0] == b[0] == c[0] {
      LexTransitive(a[1..], b[1..], c[1..]);
    }
  }

  /** On all strings: swapping flips the result exactly unless different strings have equal numbers. */
  lemma ComparisonFlips(v1: string, v2: string)
    ensures Compared(v1, v2) == -Compared(v2, v1) <==> v1 == v2 || Numbers(v1) != Numbers(v2)
  {
    hide Lex, Numbers;
    LexFlips(Numbers(v1), Numbers(v2));
    LexFlips(Numbers(v2), Numbers(v1));
    LexRange(Numbers(v1), Numbers(v2));
  }

  lemma {:induction false} LexRange(a: seq<int>, b: seq<int>)
    ensures Lex(a, b) == LESS || Lex(a, b) == EQUAL || Lex(a, b) == GREATER
  {
    if a != [] && b != [] && a[0] == b[0] {
      LexRange(a[1..], b[1..]);
    }
  }

  lemma {:induction false} SplitPart(a: string, v: string)
    requires '.' !in a
    ensures Split(a) == [a] && Split(a + "." + v) == [a] + Split(v)
  {
    if a == "" {
      assert "" + "." + v == "." + v && ("." + v)[1..] == v;
    } else {
      SplitPart(a[1..], v);
      assert (a + "." + v)[1..] == a[1..] + "." + v;
      assert [a[0]] + a[1..] == a;
    }
  }

  /** The order is not antisymmetric on arbitrary strings: these two are each less than the other. */
  lemma BothLess()
    ensures Compared("1.0", "1.00") == LESS && Compared("1.00", "1.0") == LESS
  {
    var one, zero, zeros := "1", "0", "00";
    SplitPart(one, zero);
    SplitPart(one, zeros);
    SplitPart(zero, "");
    SplitPart(zeros, "");
    assert one + "." + zero == "1.0" && one + "." + zeros == "1.00";
    ZeroNumbers();
    assert Numbers("1.0") == [Atoi(one), Atoi(zero)] && Numbers("1.00") == [Atoi(one), Atoi(zeros)];
    SameNumbersBothLess("1.0", "1.00");
  }

  lemma ZeroNumbers()
    ensures Atoi("0") == 0 && Atoi("00") == 0
  {
    assert "00"[..1] == "0" && "0"[..0] == "";
    assert Scanned("0") == Number(0);
  }

  lemma SameNumbersBothLess(v1: string, v2: string)
    requires v1 != v2 && Numbers(v1) == Numbers(v2)
    ensures Compared(v1, v2) == LESS && Compared(v2, v1) == LESS
  {
    LexFlips(Numbers(v1), Numbers(v2));
    LexFlips(Numbers(v2), Numbers(v1));
  }

  /** What follows too many digits is not read: behind them any letter goes, and neither version is greater. */
  lemma OverflowHidesRest(a: string, rest: string)
    requires a != "" && AllDigits(a) && Value(a) > MAX_UINT && rest != "" && '.' !in rest
    ensures Compared(a, a + rest) == LESS && Compared(a + rest, a) == LESS
  {
    assert a[..|a|] == a && Exceeds(a, |a|);
    ScannedOutOfRange(a);
    VerdictIsFinal(a, rest);
    SplitPart(a, "");
    SplitPart(a + rest, "");
    assert a[0] == (a + rest)[0] && IsDigit(a[0]);
    assert Numbers(a) == [MAX_INT] == Numbers(a + rest);
    assert |a + rest| > |a|;
    SameNumbersBothLess(a, a + rest);
  }

  function Nines(k: nat): (s: string)
    ensures |s| == k
  {
    if k == 0 then "" else Nines(k - 1) + "9"
  }

  lemma {:induction false} ValueOfNines(k: nat)
    ensures AllDigits(Nines(k)) && Value(Nines(k)) + 1 == Pow10(k)
  {
    if k > 0 {
      ValueOfNines(k - 1);
      assert Nines(k)[..k - 1] == Nines(k - 1);
    }
  }

  function Pow10(k: nat): nat {
    if k == 0 then 1 else 10 * Pow10(k - 1)
  }

  lemma PowersOfTen()
    ensures Pow10(20) == 1_0000_0000_0000_0000_0000
  {
    PowerOfSum(1, 1);
    PowerOfSum(2, 2);
    PowerOfSum(4, 4);
    PowerOfSum(8, 8);
    PowerOfSum(16, 4);
  }

  lemma {:induction false} PowerOfSum(j: nat, k: nat)
    ensures Pow10(j + k) == Pow10(j) * Pow10(k)
  {
    if k > 0 {
      PowerOfSum(j, k - 1);
      assert Pow10(j + k) == 10 * Pow10(j + k - 1);
    }
  }

  /** Twenty nines are such digits: with an x behind them or without, each version is less than the other. */
  lemma TwentyNines()
    ensures Compared(Nines(20), Nines(20) + "x") == LESS && Compared(Nines(20) + "x", Nines(20)) == LESS
  {
    ValueOfNines(20);
    PowersOfTen();
    OverflowHidesRest(Nines(20), "x");
  }

  // ---------- canonical versions ----------

  /** Dotted decimal numerals without leading zeros, each within the range of an int. */
  ghost predicate Canonical(v: string) {
    forall i :: 0 <= i < |Split(v)| ==> IsCanonical(Split(v)[i]) && Value(Split(v)[i]) <= MAX_INT
  }

  lemma {:induction false} PartsHaveNoDot(s: string)
    ensures forall i :: 0 <= i < |Split(s)| ==> '.' !in Split(s)[i]
  {
    if s != "" {
      PartsHaveNoDot(s[1..]);
    }
  }

  lemma {:induction false} JoinSplit(s: string)
    ensures Join(Split(s)) == s
  {
    if s != "" {
      var rest := Split(s[1..]);
      JoinSplit(s[1..]);
      if s[0] == '.' {
        assert Split(s)[1..] == rest;
        assert "" + "." + s[1..] == s;
      } else {
        var parts := Split(s);
        assert parts[1..] == rest[1..];
        assert [s[0]] + Join(rest) == s;
        if |rest| > 1 {
          assert [s[0]] + (rest[0] + "." + Join(rest[1..])) == ([s[0]] + rest[0]) + "." + Join(rest[1..]);
        }
      }
    }
  }

  lemma CanonicalPart(s: string)
    requires IsCanonical(s) && Value(s) <= MAX_INT
    ensures Atoi(s) == Value(s)
  {
    assert IsDigit(s[0]);
    ScannedNumber(s);
  }

  /** Canonical versions are told apart by their numbers. */
  lemma NumbersIdentify(v1: string, v2: string)
    requires Canonical(v1) && Canonical(v2) && Numbers(v1) == Numbers(v2)
    ensures v1 == v2
  {
    var a, b := Split(v1), Split(v2);
    forall i | 0 <= i < |a| ensures a[i] == b[i] {
      CanonicalPart(a[i]);
      CanonicalPart(b[i]);
      assert Numbers(v1)[i] == Numbers(v2)[i];
      NumeralOfValue(a[i]);
      NumeralOfValue(b[i]);
    }
    assert a == b;
    JoinSplit(v1);
    JoinSplit(v2);
  }

  /** On canonical versions less, too, is decided by the first difference, in favour of the second. */
  lemma LessMeans(v1: string, v2: string)
    requires Canonical(v1) && Canonical(v2)
    ensures Compared(v1, v2) == -1 <==> exists i: nat :: GreaterFrom(Numbers(v2), Numbers(v1), i)
  {
    hide Lex, Numbers, GreaterFrom, Canonical;
    CanonicalIsLex(v1, v2);
    GreaterMeans(v2, v1);
  }

  /** On canonical versions the comparison is exactly the lexicographic one, and equal means identical. */
  lemma CanonicalIsLex(v1: string, v2: string)
    requires Canonical(v1) && Canonical(v2)
    ensures Compared(v1, v2) == Lex(Numbers(v1), Numbers(v2))
    ensures Compared(v1, v2) == EQUAL <==> v1 == v2
    ensures Compared(v1, v2) == -Compared(v2, v1)
  {
    hide Lex, Numbers, Canonical;
    LexFlips(Numbers(v1), Numbers(v2));
    LexRange(Numbers(v1), Numbers(v2));
    ComparisonFlips(v1, v2);
    if Numbers(v1) == Numbers(v2) {
      NumbersIdentify(v1, v2);
    }
  }

  lemma CanonicalTransitive(v1: string, v2: string, v3: string)
    requires Canonical(v1) && Canonical(v2) && Canonical(v3)
    requires Compared(v1, v2) != GREATER && Compared(v2, v3) != GREATER
    ensures Compared(v1, v3) != GREATER
    ensures Compared(v1, v2) == LESS || Compared(v2, v3) == LESS ==> Compared(v1, v3) == LESS
  {
    hide Lex, Numbers, Canonical, Compared;
    CanonicalIsLex(v1, v2);
    CanonicalIsLex(v2, v3);
    CanonicalIsLex(v1, v3);
    LexRange(Numbers(v1), Numbers(v2));
    LexRange(Numbers(v2), Numbers(v3));
    LexRange(Numbers(v1), Numbers(v3));
    LexTransitive(Numbers(v1), Numbers(v2), Numbers(v3));
  }
}
