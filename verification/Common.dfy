/** Value types and ASCII text helpers shared by the other modules. */
module Common {

  datatype Option<+T> = None | Some(value: T)

  /** One octet on the wire. */
  type Byte = b: int | 0 <= b < 256

  type Bytes = seq<Byte>

  const U16: nat := 0x1_0000
  const U32: nat := 0x1_0000_0000
  const U64: nat := 0x1_0000_0000_0000_0000

  const CR: Byte := 13
  const LF: Byte := 10
  const SP: Byte := 32
  const TAB: Byte := 9
  const COLON: Byte := 58

  const CRLF: Bytes := [13, 10]

  function Min(a: int, b: int): int { if a <= b then a else b }

  /** A big-endian 16-bit number. */
  function Be16(hi: Byte, lo: Byte): (r: nat)
    ensures r < U16
  {
    (hi as int) * 256 + lo as int
  }

  /** A buffer cut at a position, clamped to the buffer's end. */
  function Drop<T>(s: seq<T>, n: nat): seq<T> { if n <= |s| then s[n..] else [] }

  function Concat(chunks: seq<Bytes>): Bytes {
    if chunks == [] then [] else chunks[0] + Concat(chunks[1..])
  }

  function LowerChar(c: char): char { if 'A' <= c <= 'Z' then ((c as int) + 32) as char else c }

  function LowerText(s: string): (r: string)
    ensures |r| == |s|
    ensures forall i | 0 <= i < |s| :: r[i] == LowerChar(s[i])
  {
    seq(|s|, i requires 0 <= i < |s| => LowerChar(s[i]))
  }

  function TrimStart<T(==)>(s: seq<T>, blank: set<T>): seq<T> {
    if s != [] && s[0] in blank then TrimStart(s[1..], blank) else s
  }

  function TrimEnd<T(==)>(s: seq<T>, blank: set<T>): seq<T> {
    if s != [] && s[|s| - 1] in blank then TrimEnd(s[..|s| - 1], blank) else s
  }

  lemma {:induction false} TrimStartPadding<T>(pad: seq<T>, s: seq<T>, blank: set<T>)
    requires forall b | b in pad :: b in blank
    ensures TrimStart(pad + s, blank) == TrimStart(s, blank)
  {
    if pad == [] {
      assert pad + s == s;
    } else {
      assert pad[0] in pad;
      assert (pad + s)[1..] == pad[1..] + s;
      TrimStartPadding(pad[1..], s, blank);
    }
  }

  lemma {:induction false} TrimEndPadding<T>(s: seq<T>, pad: seq<T>, blank: set<T>)
    requires forall b | b in pad :: b in blank
    ensures TrimEnd(s + pad, blank) == TrimEnd(s, blank)
    decreases |pad|
  {
    if pad == [] {
      assert s + pad == s;
    } else {
      var n := |pad| - 1;
      assert pad[n] in pad;
      assert (s + pad)[..|s + pad| - 1] == s + pad[..n];
      TrimEndPadding(s, pad[..n], blank);
    }
  }

  // ---- Sequence facts, stated once so that proofs can name the instance they use ----

  lemma Assoc<T>(a: seq<T>, b: seq<T>, c: seq<T>)
    ensures (a + b) + c == a + (b + c)
  {
  }

  lemma CutAppend<T>(a: seq<T>, b: seq<T>)
    ensures (a + b)[..|a|] == a && (a + b)[|a|..] == b && Drop(a + b, |a|) == b
  {
  }

  lemma Rejoin<T>(s: seq<T>, n: nat)
    requires n <= |s|
    ensures s[..n] + s[n..] == s
  {
  }

  lemma DropDrop<T>(s: seq<T>, a: nat, b: nat)
    ensures Drop(Drop(s, a), b) == Drop(s, a + b)
  {
  }

  /** A binary number without its lowest bit, and that bit. */
  lemma HalfAndBit(h: nat, bit: nat)
    requires bit < 2
    ensures (2 * h + bit) / 2 == h && (2 * h + bit) % 2 == bit
  {
  }
}
