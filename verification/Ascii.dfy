/** Octet strings that hold ASCII text: literals, case folding, trimming and decimal numbers. */
module Ascii {
  import opened Common

  /** The octets of an ASCII literal. */
  function Text(s: string): (r: Bytes)
    ensures |r| == |s|
    ensures forall i | 0 <= i < |s| :: r[i] == s[i] as int % 256
  {
    seq(|s|, i requires 0 <= i < |s| => s[i] as int % 256)
  }

  function LowerByte(b: Byte): Byte { if 65 <= b <= 90 then b + 32 else b }

  function Lower(s: Bytes): (r: Bytes)
    ensures |r| == |s|
    ensures forall i | 0 <= i < |s| :: r[i] == LowerByte(s[i])
  {
    seq(|s|, i requires 0 <= i < |s| => LowerByte(s[i]))
  }

  const UPPER: string := "ABCDEFGHIJKLMNOPQRSTUVWXYZ"
  const LOWER: string := "abcdefghijklmnopqrstuvwxyz"

  lemma Alphabet(i: nat)
    requires i < 26
    ensures |UPPER| == |LOWER| == 26 && UPPER[i] as int == 65 + i && LOWER[i] as int == 97 + i
  {
  }

  /** Folding the case is about the 26 letters, and nothing else. */
  lemma LowersTheAlphabet(i: nat, b: Byte)
    requires i < 26
    ensures LowerByte(Text(UPPER)[i]) == Text(LOWER)[i]
    ensures (forall k | 0 <= k < 26 :: b != Text(UPPER)[k]) ==> LowerByte(b) == b
  {
    hide Text, UPPER, LOWER;
    Alphabet(i);
    if 65 <= b <= 90 {
      Alphabet(b - 65);
      assert Text(UPPER)[b - 65] == b;
    }
  }

  /** `eq_ignore_ascii_case` against one of a list of lower-case names. */
  predicate NameIn(name: Bytes, names: seq<Bytes>) { Lower(name) in names }

  // ---- Trimming ----

  function Trim(s: Bytes, blank: set<Byte>): Bytes { TrimEnd(TrimStart(s, blank), blank) }

  predicate Trimmed(s: Bytes, blank: set<Byte>) {
    s == [] || (s[0] !in blank && s[|s| - 1] !in blank)
  }

  /** What trimming removes: a slice of the input is left, blank-free at both ends, and everything
      cut away is blank. */
  lemma {:induction false} TrimSlice(s: Bytes, blank: set<Byte>) returns (i: nat, j: nat)
    ensures i <= j <= |s| && Trim(s, blank) == s[i..j] && Trimmed(s[i..j], blank)
    ensures forall k | 0 <= k < |s| && !(i <= k < j) :: s[k] in blank
    decreases |s|
  {
    if s == [] {
      i, j := 0, 0;
    } else if s[0] in blank {
      i, j := TrimSlice(s[1..], blank);
      i, j := i + 1, j + 1;
      SliceOfTail(s, i, j);
      forall k | 0 <= k < |s| && !(i <= k < j) ensures s[k] in blank {
        if k > 0 { assert s[k] == s[1..][k - 1]; }
      }
    } else {
      i := 0;
      j := TrimEndAt(s, blank);
      assert s[0..j] == s[..j];
    }
  }

  lemma SliceOfTail(s: Bytes, i: nat, j: nat)
    requires 0 < i <= j <= |s|
    ensures s[i..j] == s[1..][i - 1..j - 1]
  {
    forall k | 0 <= k < j - i ensures s[i..j][k] == s[1..][i - 1..j - 1][k] {
      assert s[1..][i - 1 + k] == s[i + k];
    }
  }

  lemma {:induction false} TrimEndAt(s: Bytes, blank: set<Byte>) returns (j: nat)
    ensures j <= |s| && TrimEnd(s, blank) == s[..j] && (j > 0 ==> s[j - 1] !in blank)
    ensures forall k | j <= k < |s| :: s[k] in blank
    decreases |s|
  {
    if s != [] && s[|s| - 1] in blank {
      j := TrimEndAt(s[..|s| - 1], blank);
      assert s[..|s| - 1][..j] == s[..j];
      forall k | j <= k < |s| ensures s[k] in blank {
        if k < |s| - 1 { assert s[k] == s[..|s| - 1][k]; }
      }
    } else {
      j := |s|;
      assert s[..|s|] == s;
    }
  }

  /** Blanks added before and behind a trimmed text are removed again. */
  lemma TrimPadding(left: Bytes, s: Bytes, right: Bytes, blank: set<Byte>)
    requires Trimmed(s, blank) && forall b | b in left + right :: b in blank
    ensures Trim(left + s + right, blank) == s
  {
    assert forall b | b in left || b in right :: b in left + right;
    Assoc(left, s, right);
    TrimStartPadding(left, s + right, blank);
    if s == [] {
      assert s + right == right + [];
      TrimStartPadding(right, [], blank);
    } else {
      assert (s + right)[0] == s[0];
      TrimEndPadding(s, right, blank);
    }
  }

  // ---- Decimal numbers ----

  predicate IsDigit(b: Byte) { 48 <= b <= 57 }

  /** `Display` of an unsigned number. */
  function Decimal(n: nat): (r: Bytes)
    ensures r != [] && forall b | b in r :: IsDigit(b)
  {
    if n < 10 then [48 + n] else Decimal(n / 10) + [48 + n % 10]
  }

  function DigitsValue(s: Bytes): nat
    requires forall b | b in s :: IsDigit(b)
  {
    if s == [] then 0
    else
      assert IsDigit(s[|s| - 1]);
      DigitsValue(s[..|s| - 1]) * 10 + (s[|s| - 1] as int - 48)
  }

  /** `str::parse` for an unsigned type with the given bound: an optional plus sign, then digits. */
  function ParseUnsigned(s: Bytes, bound: nat): Option<nat> {
    var digits := if s != [] && s[0] == 43 then s[1..] else s;
    if digits != [] && (forall b | b in digits :: IsDigit(b)) && DigitsValue(digits) < bound
    then Some(DigitsValue(digits)) else None
  }

  lemma {:induction false} DecimalValue(n: nat)
    ensures DigitsValue(Decimal(n)) == n
  {
    if n >= 10 {
      DecimalValue(n / 10);
      assert Decimal(n)[..|Decimal(n)| - 1] == Decimal(n / 10);
    }
  }

  /** A printed number parses back exactly when it fits the type. */
  lemma DecimalReadsBack(n: nat, bound: nat)
    ensures ParseUnsigned(Decimal(n), bound) == if n < bound then Some(n) else None
  {
    DecimalValue(n);
    assert Decimal(n)[0] in Decimal(n);
  }

  /** A number as it may be written: with a plus sign or none, and any zeros before it. */
  function NumberText(plus: bool, zeros: nat, n: nat): Bytes {
    (if plus then [43] else []) + (seq(zeros, _ => 48) + Decimal(n))
  }

  lemma {:induction false} ZerosCountNothing(zeros: nat, n: nat)
    ensures forall b | b in seq(zeros, _ => 48) + Decimal(n) :: IsDigit(b)
    ensures DigitsValue(seq(zeros, _ => 48) + Decimal(n)) == n
  {
    var s := seq(zeros, _ => 48) + Decimal(n);
    if n < 10 {
      assert s[..|s| - 1] == seq(zeros, _ => 48);
      ZerosAreZero(zeros);
    } else {
      assert s[..|s| - 1] == seq(zeros, _ => 48) + Decimal(n / 10);
      ZerosCountNothing(zeros, n / 10);
    }
  }

  lemma {:induction false} ZerosAreZero(zeros: nat)
    ensures DigitsValue(seq(zeros, _ => 48)) == 0
  {
    if zeros > 0 {
      assert seq(zeros, _ => 48)[..zeros - 1] == seq(zeros - 1, _ => 48);
      ZerosAreZero(zeros - 1);
    }
  }

  lemma DecimalGrows(front: nat, digit: nat)
    requires digit < 10
    ensures Decimal(front * 10 + digit) == (if front == 0 then [] else Decimal(front)) + [48 + digit]
  {
    if front > 0 {
      assert (front * 10 + digit) / 10 == front && (front * 10 + digit) % 10 == digit;
    }
  }

  lemma FrontDigits(s: Bytes)
    requires s != [] && forall b | b in s :: IsDigit(b)
    ensures IsDigit(s[|s| - 1]) && forall b | b in s[..|s| - 1] :: IsDigit(b)
    ensures s == s[..|s| - 1] + [s[|s| - 1]]
  {
    hide IsDigit;
    assert s[|s| - 1] in s;
    forall b | b in s[..|s| - 1] ensures IsDigit(b) { assert b in s; }
  }

  lemma LastDigit(s: Bytes)
    requires s != [] && (forall b | b in s :: IsDigit(b)) && IsDigit(s[|s| - 1])
    requires forall b | b in s[..|s| - 1] :: IsDigit(b)
    ensures DigitsValue(s) == DigitsValue(s[..|s| - 1]) * 10 + (s[|s| - 1] as int - 48)
  {
  }

  lemma {:induction false} DigitsAreDecimal(s: Bytes) returns (zeros: nat)
    requires s != [] && forall b | b in s :: IsDigit(b)
    ensures s == seq(zeros, _ => 48) + Decimal(DigitsValue(s))
    decreases |s|
  {
    hide Decimal, DigitsValue;
    var last := |s| - 1;
    FrontDigits(s);
    LastDigit(s);
    var front := if last == 0 then 0 else DigitsValue(s[..last]);
    var digit := s[last] as int - 48;
    DecimalGrows(front, digit);
    if last == 0 {
      zeros := 0;
      NoDigits();
      assert s == [s[0]] && s[..0] == [];
    } else {
      zeros := DigitsAreDecimal(s[..last]);
      if front == 0 {
        ZeroIsZero();
        assert s[..last] == seq(zeros + 1, _ => 48);
        zeros := zeros + 1;
      } else {
        Assoc(seq(zeros, _ => 48), Decimal(front), [s[last]]);
      }
    }
  }

  lemma NoDigits()
    ensures DigitsValue([]) == 0
  {
  }

  lemma ZeroIsZero()
    ensures Decimal(0) == [48]
  {
  }

  /** Numbers are read in exactly these spellings, below the bound of their type. */
  lemma NumbersRead(s: Bytes, bound: nat, n: nat)
    ensures ParseUnsigned(s, bound) == Some(n)
       <==> n < bound && exists plus: bool, zeros: nat :: s == NumberText(plus, zeros, n)
  {
    if ParseUnsigned(s, bound) == Some(n) {
      var plus := s != [] && s[0] == 43;
      var digits := if plus then s[1..] else s;
      var zeros := DigitsAreDecimal(digits);
      assert s == NumberText(plus, zeros, n);
    }
    forall plus: bool, zeros: nat | n < bound && s == NumberText(plus, zeros, n)
      ensures ParseUnsigned(s, bound) == Some(n)
    {
      ZerosCountNothing(zeros, n);
      var digits := seq(zeros, _ => 48) + Decimal(n);
      assert digits[0] in digits && IsDigit(digits[0]);
      if plus { assert s[1..] == digits; } else { assert s == digits; }
    }
  }
}
