/** The byte view of the word arena: little-endian bytes of words, and memcpy and memset over them. */
module Bytes {
  import opened Shape

  type byte = b: int | 0 <= b < 256

  function Weight(j: int): int requires 0 <= j < 4 {
    if j == 0 then 1 else if j == 1 then 0x100 else if j == 2 then 0x1_0000 else 0x100_0000
  }

  function ByteOf(w: Word, j: int): byte requires 0 <= j < 4 {
    w / Weight(j) % 256
  }

  /** w with its byte j replaced by b. */
  function SetByte(w: Word, j: int, b: byte): int requires 0 <= j < 4 {
    w + (b - ByteOf(w, j)) * Weight(j)
  }

  lemma LowAndRest(x: byte, y: nat)
    ensures (x + 0x100 * y) / 0x100 == y && (x + 0x100 * y) % 0x100 == x
  {
  }

  lemma TwoShifts(w: nat)
    ensures w / 0x1_0000 == w / 0x100 / 0x100
  {
  }

  lemma ThreeShifts(w: nat)
    ensures w / 0x100_0000 == w / 0x1_0000 / 0x100
  {
  }

  /** A word is the sum of its bytes, and only of those. */
  lemma WordIsBytes(w: Word)
    ensures w == ByteOf(w, 0) + 0x100 * ByteOf(w, 1) + 0x1_0000 * ByteOf(w, 2) + 0x100_0000 * ByteOf(w, 3)
  {
    var a := w / 0x100;
    var b := w / 0x1_0000;
    var c := w / 0x100_0000;
    TwoShifts(w);
    ThreeShifts(w);
    assert c < 256;
  }

  lemma BytesOfSum(x0: byte, x1: byte, x2: byte, x3: byte)
    ensures var w := x0 + 0x100 * x1 + 0x1_0000 * x2 + 0x100_0000 * x3;
            0 <= w < 0x1_0000_0000 && ByteOf(w, 0) == x0 && ByteOf(w, 1) == x1 && ByteOf(w, 2) == x2 && ByteOf(w, 3) == x3
  {
    var w2 := x2 + 0x100 * x3;
    var w1 := x1 + 0x100 * w2;
    var w := x0 + 0x100 * w1;
    LowAndRest(x2, x3);
    LowAndRest(x1, w2);
    LowAndRest(x0, w1);
    TwoShifts(w);
    ThreeShifts(w);
  }

  /** Replacing a byte of a word changes that byte and no other. */
  lemma SetByteGets(w: Word, j: int, b: byte)
    requires 0 <= j < 4
    ensures 0 <= SetByte(w, j, b) < 0x1_0000_0000
    ensures forall i :: 0 <= i < 4 ==> ByteOf(SetByte(w, j, b), i) == (if i == j then b else ByteOf(w, i))
  {
    hide ByteOf;
    WordIsBytes(w);
    var x0, x1, x2, x3 := ByteOf(w, 0), ByteOf(w, 1), ByteOf(w, 2), ByteOf(w, 3);
    if j == 0 {
      BytesOfSum(b, x1, x2, x3);
    } else if j == 1 {
      BytesOfSum(x0, b, x2, x3);
    } else if j == 2 {
      BytesOfSum(x0, x1, b, x3);
    } else {
      BytesOfSum(x0, x1, x2, b);
    }
  }

  /** The byte at byte address a of the arena. */
  function ByteAt(m: seq<Word>, a: int): byte requires 0 <= a < 4 * |m| {
    ByteOf(m[a / 4], a % 4)
  }

  /** A run of words as bytes. */
  function ToBytes(ws: seq<Word>): (bs: seq<byte>)
    ensures |bs| == 4 * |ws|
  {
    seq(4 * |ws|, k requires 0 <= k < 4 * |ws| => ByteAt(ws, k))
  }

  /** n bytes from word p on. */
  function BytesFrom(m: seq<Word>, p: int, n: nat): (bs: seq<byte>)
    requires 0 <= p && 4 * p + n <= 4 * |m|
    ensures |bs| == n
  {
    seq<byte>(n, k requires 0 <= k < n => ByteAt(m, 4 * p + k))
  }

  lemma ToBytesAt(m: seq<Word>, lo: int, hi: int, k: int)
    requires 0 <= lo <= hi <= |m| && 0 <= k < 4 * (hi - lo)
    ensures ToBytes(m[lo..hi])[k] == ByteAt(m, 4 * lo + k)
  {
  }

  /** Storing one byte. */
  method PutByte(arena: array<Word>, a: int, b: byte)
    requires 0 <= a < 4 * arena.Length
    modifies arena
    ensures forall x :: 0 <= x < 4 * arena.Length ==>
              ByteAt(arena[..], x) == (if x == a then b else old(ByteAt(arena[..], x)))
    ensures forall i :: 0 <= i < arena.Length && i != a / 4 ==> arena[i] == old(arena[i])
  {
    SetByteGets(arena[a / 4], a % 4, b);
    arena[a / 4] := SetByte(arena[a / 4], a % 4, b);
    forall x | 0 <= x < 4 * arena.Length
      ensures ByteAt(arena[..], x) == (if x == a then b else old(ByteAt(arena[..], x)))
    {
      assert x == 4 * (x / 4) + x % 4 && a == 4 * (a / 4) + a % 4;
    }
  }

  /** memcpy as an ascending copy: right whenever the destination is not above an overlapping source. */
  method Memcpy(arena: array<Word>, dst: int, src: int, n: nat)
    requires 0 <= dst && dst + n <= 4 * arena.Length && 0 <= src && src + n <= 4 * arena.Length
    requires dst <= src || src + n <= dst
    modifies arena
    ensures forall x :: 0 <= x < 4 * arena.Length ==>
              ByteAt(arena[..], x) == (if dst <= x < dst + n then old(ByteAt(arena[..], src + x - dst)) else old(ByteAt(arena[..], x)))
    ensures forall i :: 0 <= i < arena.Length && (4 * i + 4 <= dst || dst + n <= 4 * i) ==> arena[i] == old(arena[i])
  {
    hide ByteOf;
    for i := 0 to n
      invariant forall x :: 0 <= x < 4 * arena.Length ==>
        ByteAt(arena[..], x) == (if dst <= x < dst + i then old(ByteAt(arena[..], src + x - dst)) else old(ByteAt(arena[..], x)))
      invariant forall j :: 0 <= j < arena.Length && (4 * j + 4 <= dst || dst + n <= 4 * j) ==> arena[j] == old(arena[j])
    {
      assert ByteAt(arena[..], src + i) == ByteOf(arena[(src + i) / 4], (src + i) % 4);
      PutByte(arena, dst + i, ByteOf(arena[(src + i) / 4], (src + i) % 4));
    }
  }

  /** memset. */
  method Memset(arena: array<Word>, dst: int, b: byte, n: nat)
    requires 0 <= dst && dst + n <= 4 * arena.Length
    modifies arena
    ensures forall x :: 0 <= x < 4 * arena.Length ==>
              ByteAt(arena[..], x) == (if dst <= x < dst + n then b else old(ByteAt(arena[..], x)))
    ensures forall i :: 0 <= i < arena.Length && (4 * i + 4 <= dst || dst + n <= 4 * i) ==> arena[i] == old(arena[i])
  {
    hide ByteOf;
    for i := 0 to n
      invariant forall x :: 0 <= x < 4 * arena.Length ==>
        ByteAt(arena[..], x) == (if dst <= x < dst + i then b else old(ByteAt(arena[..], x)))
      invariant forall j :: 0 <= j < arena.Length && (4 * j + 4 <= dst || dst + n <= 4 * j) ==> arena[j] == old(arena[j])
    {
      PutByte(arena, dst + i, b);
    }
  }
}
