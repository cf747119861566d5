/** The three CRLF finders of the request parser: scalar, and the vector scan that SSE2 runs
    with 16 lanes and AVX2 with 32. */
module CrlfScan {
  import opened Common

  datatype SimdLevel = Scalar | Sse2 | Avx2

  predicate CrlfAt(buf: Bytes, p: nat) {
    p + 1 < |buf| && buf[p] == CR && buf[p + 1] == LF
  }

  /** The first window of two octets equal to CR LF. */
  function FindCrlfScalar(buf: Bytes): (r: Option<nat>)
    ensures r.Some? ==> CrlfAt(buf, r.value) && forall q: nat | q < r.value :: !CrlfAt(buf, q)
    ensures r.None? ==> forall q: nat :: !CrlfAt(buf, q)
  {
    if |buf| < 2 then None
    else if CrlfAt(buf, 0) then Some(0)
    else
      var rest := buf[1..];
      assert forall q: nat | 0 < q :: CrlfAt(buf, q) <==> CrlfAt(rest, q - 1);
      match FindCrlfScalar(rest)
      case None => None
      case Some(p) => Some(p + 1)
  }

  // ---- 32-bit masks as numbers: bit k of m is Bit(m, k) ----

  predicate Bit(m: nat, k: nat) {
    if k == 0 then m % 2 == 1 else Bit(m / 2, k - 1)
  }

  /** Bitwise conjunction, from the lowest bit up. */
  function And(a: nat, b: nat): nat {
    if a == 0 || b == 0 then 0 else (a % 2) * (b % 2) + 2 * And(a / 2, b / 2)
  }

  function TrailingZeros(m: nat): nat
    requires m > 0
  {
    if m % 2 == 1 then 0 else 1 + TrailingZeros(m / 2)
  }

  /** Compare every lane with CR and gather the results, lane k in bit k. */
  function MoveMask(chunk: Bytes): nat {
    if chunk == [] then 0 else (if chunk[0] == CR then 1 else 0) + 2 * MoveMask(chunk[1..])
  }

  lemma {:induction false} ZeroHasNoBit(k: nat)
    ensures !Bit(0, k)
  {
    if k > 0 { ZeroHasNoBit(k - 1); }
  }

  lemma {:induction false} MoveMaskBit(chunk: Bytes, k: nat)
    ensures Bit(MoveMask(chunk), k) <==> k < |chunk| && chunk[k] == CR
  {
    if chunk == [] {
      ZeroHasNoBit(k);
    } else if k > 0 {
      MoveMaskBit(chunk[1..], k - 1);
      HalfAndBit(MoveMask(chunk[1..]), if chunk[0] == CR then 1 else 0);
    } else {
      HalfAndBit(MoveMask(chunk[1..]), if chunk[0] == CR then 1 else 0);
    }
  }

  lemma {:induction false} TrailingZerosIsLowestBit(m: nat, k: nat)
    requires m > 0
    ensures Bit(m, TrailingZeros(m))
    ensures k < TrailingZeros(m) ==> !Bit(m, k)
    decreases m
  {
    if m % 2 == 0 {
      TrailingZerosIsLowestBit(m / 2, if k > 0 then k - 1 else 0);
    }
  }

  lemma {:induction false} AndSelf(m: nat)
    ensures And(m, m) == m
  {
    if m > 0 {
      AndSelf(m / 2);
      BitTimesItself(m % 2);
    }
  }

  lemma BitTimesItself(b: nat)
    requires b < 2
    ensures b * b == b
  {
  }

  /** `mask & (mask - 1)` clears exactly the lowest set bit, and so gets smaller. */
  lemma {:induction false} ClearLowestBit(m: nat, k: nat)
    requires m > 0
    ensures And(m, m - 1) < m
    ensures Bit(And(m, m - 1), k) <==> Bit(m, k) && k != TrailingZeros(m)
    decreases m
  {
    if m % 2 == 1 {
      AndSelf(m / 2);
      assert And(m, m - 1) == m - 1;
      assert k > 0 ==> (m - 1) / 2 == m / 2;
    } else {
      var h := m / 2;
      ClearLowestBit(h, if k > 0 then k - 1 else 0);
      assert (m - 1) / 2 == h - 1 && (m - 1) % 2 == 1;
      assert And(m, m - 1) == 2 * And(h, h - 1);
    }
  }

  /** One step of the mask loop: the lowest bit is visited, then dropped. */
  lemma MaskStep(m: nat)
    requires m > 0
    ensures Bit(m, TrailingZeros(m))
    ensures forall k: nat | k < TrailingZeros(m) :: !Bit(m, k)
    ensures And(m, m - 1) < m
    ensures forall k: nat :: Bit(And(m, m - 1), k) <==> Bit(m, k) && k != TrailingZeros(m)
  {
    TrailingZerosIsLowestBit(m, 0);
    ClearLowestBit(m, 0);
    forall k: nat | k < TrailingZeros(m) ensures !Bit(m, k) { TrailingZerosIsLowestBit(m, k); }
    forall k: nat ensures Bit(And(m, m - 1), k) <==> Bit(m, k) && k != TrailingZeros(m) {
      ClearLowestBit(m, k);
    }
  }

  lemma TailAt(buf: Bytes, i: nat, q: nat)
    requires i <= |buf|
    ensures CrlfAt(buf[i..], q) <==> CrlfAt(buf, i + q)
  {
  }

  /** The position found in the tail of a scanned prefix is the position in the whole buffer. */
  lemma ScanTail(buf: Bytes, i: nat)
    requires i <= |buf|
    requires forall q: nat | q < i :: !CrlfAt(buf, q)
    ensures FindCrlfScalar(buf)
         == match FindCrlfScalar(buf[i..]) case None => None case Some(p) => Some(p + i)
  {
    hide CrlfAt, FindCrlfScalar, FirstCrlf;
    var found := FindCrlfScalar(buf[i..]);
    var r := match found case None => None case Some(p) => Some(p + i);
    TailsAgree(buf, i);
    FindsFirst(buf[i..], found);
    FirstInTail(buf, buf[i..], i, found, r);
    FindsFirst(buf, r);
  }

  lemma TailsAgree(buf: Bytes, i: nat)
    requires i <= |buf|
    ensures forall q: nat :: CrlfAt(buf[i..], q) <==> CrlfAt(buf, i + q)
  {
    hide CrlfAt;
    forall q: nat ensures CrlfAt(buf[i..], q) <==> CrlfAt(buf, i + q) { TailAt(buf, i, q); }
  }

  ghost predicate FirstCrlf(buf: Bytes, r: Option<nat>) {
    match r
    case None => forall q: nat :: !CrlfAt(buf, q)
    case Some(p) => CrlfAt(buf, p) && forall q: nat | q < p :: !CrlfAt(buf, q)
  }

  lemma FindsFirst(buf: Bytes, r: Option<nat>)
    ensures FirstCrlf(buf, r) <==> r == FindCrlfScalar(buf)
  {
    hide CrlfAt;
  }

  lemma FirstInTail(buf: Bytes, tail: Bytes, i: nat, r: Option<nat>, all: Option<nat>)
    requires FirstCrlf(tail, r) && all == match r case None => None case Some(p) => Some(p + i)
    requires forall q: nat | q < i :: !CrlfAt(buf, q)
    requires forall q: nat :: CrlfAt(tail, q) <==> CrlfAt(buf, i + q)
    ensures FirstCrlf(buf, all)
  {
    hide CrlfAt;
    forall q: nat ensures CrlfAt(buf, q) <==> q >= i && CrlfAt(tail, q - i) {
      if q >= i { assert CrlfAt(tail, q - i) <==> CrlfAt(buf, i + (q - i)); }
    }
  }

  /** The vector scan: chunks of `lanes` octets, each CR visited through the mask, then the scalar
      tail. It agrees with the scalar scan on every buffer. */
  method FindCrlfVector(buf: Bytes, lanes: nat) returns (r: Option<nat>)
    requires 0 < lanes <= 32
    ensures r == FindCrlfScalar(buf)
  {
    if |buf| < 2 {
      return FindCrlfScalar(buf);
    }
    var i: nat := 0;
    while i + lanes < |buf|
      invariant i <= |buf|
      invariant forall q: nat | q < i :: !CrlfAt(buf, q)
    {
      var mask := MoveMask(buf[i..i + lanes]);
      forall k: nat ensures Bit(mask, k) <==> k < lanes && buf[i + k] == CR {
        MoveMaskBit(buf[i..i + lanes], k);
      }
      while mask != 0
        invariant forall k: nat | Bit(mask, k) :: k < lanes && buf[i + k] == CR
        invariant forall q: nat | i <= q < i + lanes && CrlfAt(buf, q) :: Bit(mask, q - i)
        decreases mask
      {
        var bit := TrailingZeros(mask);
        MaskStep(mask);
        var pos := i + bit;
        if pos + 1 < |buf| && buf[pos + 1] == LF {
          assert CrlfAt(buf, pos);
          forall q: nat | q < pos ensures !CrlfAt(buf, q) {
            if q >= i { assert !Bit(mask, q - i); }
          }
          return Some(pos);
        }
        var rest := And(mask, mask - 1);
        assert forall k: nat :: Bit(rest, k) <==> Bit(mask, k) && k != bit;
        assert !CrlfAt(buf, i + bit);
        mask := rest;
      }
      forall q: nat | q < i + lanes ensures !CrlfAt(buf, q) {
        if q >= i { ZeroHasNoBit(q - i); }
      }
      i := i + lanes;
    }
    ScanTail(buf, i);
    r := match FindCrlfScalar(buf[i..]) case None => None case Some(p) => Some(p + i);
  }

  /** The finder the dispatch table selects. */
  method FindCrlf(level: SimdLevel, buf: Bytes) returns (r: Option<nat>)
    ensures r == FindCrlfScalar(buf)
  {
    match level
    case Avx2 => r := FindCrlfVector(buf, 32);
    case Sse2 => r := FindCrlfVector(buf, 16);
    case Scalar => r := FindCrlfScalar(buf);
  }
}
