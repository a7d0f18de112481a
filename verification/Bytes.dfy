/** Bytes, little-endian machine words and in-place patches of byte strings. */
module Bytes {
  type byte = bv8

  const WORD := 8                              // sizeof(size_t)
  const LIMIT := 0x1_0000_0000_0000_0000       // one past the largest size_t
  const HALF := 0x8000_0000_0000_0000          // no object is this large

  function Min(a: nat, b: nat): nat { if a < b then a else b }

  function Pow256(n: nat): nat { if n == 0 then 1 else 256 * Pow256(n - 1) }

  function Encode(w: nat, n: nat): (s: seq<byte>)
    ensures |s| == n
  {
    if n == 0 then [] else [(w % 256) as byte] + Encode(w / 256, n - 1)
  }

  function Decode(s: seq<byte>): nat {
    if s == [] then 0 else s[0] as int + 256 * Decode(s[1..])
  }

  lemma ByteAgain(b: byte)
    ensures (b as int) as byte == b
  {
  }

  lemma NextByte(b: byte)
    requires b < 255
    ensures (b + 1) as int == b as int + 1
  {
  }

  lemma {:induction false} ByteOf(n: nat) returns (b: byte)
    requires n < 256
    ensures b as int == n
  {
    b := 0;
    if n > 0 {
      var c := ByteOf(n - 1);
      NextByte(c);
      b := c + 1;
    }
  }

  lemma ByteRoundTrip(n: nat)
    requires n < 256
    ensures (n as byte) as int == n
  {
    var b := ByteOf(n);
    ByteAgain(b);
  }

  /** Storing a word that fits and loading it back gives the word. */
  lemma {:induction false} DecodeEncode(w: nat, n: nat)
    requires w < Pow256(n)
    ensures Decode(Encode(w, n)) == w
  {
    if n > 0 {
      ByteRoundTrip(w % 256);
      DecodeEncode(w / 256, n - 1);
      assert Encode(w, n)[1..] == Encode(w / 256, n - 1);
    }
  }

  /** Any n bytes are the encoding of the word they decode to. */
  lemma {:induction false} EncodeDecode(s: seq<byte>)
    ensures Decode(s) < Pow256(|s|)
    ensures Encode(Decode(s), |s|) == s
  {
    if s != [] {
      EncodeDecode(s[1..]);
      var b := s[0] as int;
      assert (b as byte) == s[0];
      assert Decode(s) % 256 == b && Decode(s) / 256 == Decode(s[1..]);
    }
  }

  lemma WordLimit()
    ensures Pow256(WORD) == LIMIT
  {
    assert Pow256(4) == 0x1_0000_0000;
    assert Pow256(6) == 0x1_0000_0000_0000;
  }

  function EncodeWord(w: nat): (s: seq<byte>)
    ensures |s| == WORD
  {
    Encode(w, WORD)
  }

  lemma WordRoundTrip(w: nat)
    requires w < LIMIT
    ensures Decode(EncodeWord(w)) == w
  {
    WordLimit();
    DecodeEncode(w, WORD);
  }

  lemma WordBound(s: seq<byte>)
    requires |s| == WORD
    ensures Decode(s) < LIMIT
    ensures EncodeWord(Decode(s)) == s
  {
    WordLimit();
    EncodeDecode(s);
  }

  /** s with the bytes at [at, at + |x|) replaced by x. */
  function Patch<T>(s: seq<T>, at: nat, x: seq<T>): (r: seq<T>)
    requires at + |x| <= |s|
    ensures |r| == |s|
  {
    s[..at] + x + s[at + |x|..]
  }

  lemma PatchSelf<T>(s: seq<T>, at: nat, x: seq<T>)
    requires at + |x| <= |s|
    ensures Patch(s, at, x)[at..at + |x|] == x
  {
  }

  lemma PatchDisjoint<T>(s: seq<T>, at: nat, x: seq<T>, lo: nat, hi: nat)
    requires at + |x| <= |s|
    requires lo <= hi <= |s|
    requires hi <= at || at + |x| <= lo
    ensures Patch(s, at, x)[lo..hi] == s[lo..hi]
  {
  }

  lemma PatchInside<T>(s: seq<T>, at: nat, x: seq<T>, lo: nat, hi: nat)
    requires at + |x| <= |s|
    requires lo <= at && at + |x| <= hi <= |s|
    ensures Patch(s, at, x)[lo..hi] == Patch(s[lo..hi], at - lo, x)
  {
  }

  /** Two adjacent patches are one. */
  lemma PatchPatch<T>(s: seq<T>, at: nat, x: seq<T>, y: seq<T>)
    requires at + |x| + |y| <= |s|
    ensures Patch(Patch(s, at, x), at + |x|, y) == Patch(s, at, x + y)
  {
  }

  lemma PatchLeft<T>(s: seq<T>, p: seq<T>, at: nat, x: seq<T>)
    requires at + |x| <= |s|
    ensures Patch(s + p, at, x) == Patch(s, at, x) + p
  {
  }

  lemma PatchRight<T>(s: seq<T>, p: seq<T>, at: nat, x: seq<T>)
    requires at + |x| <= |p|
    ensures Patch(s + p, |s| + at, x) == s + Patch(p, at, x)
  {
  }

  lemma SliceOfPrefix<T>(w: seq<T>, s: seq<T>, p: seq<T>, o: nat, n: nat)
    requires o + n <= |p| && |s| + |p| <= |w| && w[..|s| + |p|] == s + p
    ensures w[|s| + o..|s| + o + n] == p[o..o + n]
  {
    assert w[|s| + o..|s| + o + n] == w[..|s| + |p|][|s| + o..|s| + o + n];
  }

  lemma SliceOfDrop<T>(s: seq<T>, h: nat, o: nat, n: nat)
    requires h + o + n <= |s|
    ensures s[h..][o..o + n] == s[h + o..h + o + n]
  {
  }

  /** The numbers below n. */
  function Below(n: nat): (s: set<int>)
    ensures forall b :: b in s <==> 0 <= b < n
    ensures |s| == n
  {
    if n == 0 then {} else Below(n - 1) + {n - 1}
  }

  lemma {:induction false} SubsetSize<T>(a: set<T>, b: set<T>)
    requires a <= b
    ensures |a| <= |b|
    ensures |a| == |b| ==> a == b
    decreases a
  {
    if a != {} {
      var x :| x in a;
      SubsetSize(a - {x}, b - {x});
      if |a| == |b| { assert a == (a - {x}) + {x} && b == (b - {x}) + {x}; }
    }
  }

  /** 1 << k */
  function Mask(k: nat): byte {
    if k == 0 then 1 else Mask(k - 1) << 1
  }

  predicate Bit(x: byte, k: nat) { x & Mask(k) != 0 }

  function MarkByte(x: byte, k: nat, occupied: bool): byte {
    if occupied then x | Mask(k) else x & !Mask(k)
  }

  lemma MaskIsShift(k: nat)
    requires k < 8
    ensures Mask(k) == (1 as byte) << k
  {
    if k > 0 { MaskIsShift(k - 1); }
  }

  /** The source's way to set or clear one bit. */
  function ShiftMark(x: byte, k: nat, occupied: bool): (y: byte)
    requires k < 8
    ensures y == MarkByte(x, k, occupied)
  {
    hide Mask;
    MaskIsShift(k);
    var mask := (1 as byte) << k;
    if occupied then x | mask else x & !mask
  }

  /** Setting or clearing one bit of a byte decides that bit and keeps the others. */
  lemma MarkedByte(x: byte, k: nat, j: nat, occupied: bool)
    requires k < 8 && j < 8
    ensures Bit(MarkByte(x, k, occupied), j) == if j == k then occupied else Bit(x, j)
  {
    MaskIsShift(k);
    MaskIsShift(j);
  }
}
