/**
 * Tile numbers of an 8 x 8 board and single-bit operations on a 64-bit board mask
 * (BitFunctions.java). Tile 63 is the top-left corner Point(0, 0), tile 0 the
 * bottom-right corner Point(7, 7). A Java `byte` is modelled by its bit pattern,
 * a `bv8`, and a Java `long` by a `bv64`.
 */
module BitFunctions {
  import opened Geometry

  /** The int value of a byte, as Java's promotion of a signed byte gives it. */
  function Signed(b: bv8): (v: int)
    ensures -128 <= v < 128
    ensures b < 128 ==> v == b as int
  {
    if b < 128 then b as int else b as int - 256
  }

  /** Java `/` on int: the quotient is truncated toward zero. */
  function JavaDiv(a: int, b: int): (q: int)
    requires b > 0
    ensures a >= 0 ==> q == a / b
    ensures a < 0 ==> q == -((-a) / b)
  {
    if a >= 0 then a / b else -((-a) / b)
  }

  /** Java `%` on int: the remainder takes the sign of the dividend. */
  function JavaRem(a: int, b: int): (r: int)
    requires b > 0
    ensures a == b * JavaDiv(a, b) + r
    ensures a >= 0 ==> 0 <= r < b
    ensures a < 0 ==> -b < r <= 0
  {
    a - b * JavaDiv(a, b)
  }

  /**
   * getTileNum: 63 - (8y + x), narrowed to a byte by the Java cast, which keeps
   * the low eight bits.
   */
  function GetTileNum(pos: Point): bv8 {
    ((63 - (8 * pos.y + pos.x)) % 256) as bv8
  }

  /** On the board the tile number is 63 - (8y + x), a value in 0 .. 63. */
  lemma TileNumOnBoard(pos: Point)
    requires 0 <= pos.x < 8 && 0 <= pos.y < 8
    ensures GetTileNum(pos) < 64
    ensures Signed(GetTileNum(pos)) == 63 - (8 * pos.y + pos.x)
  {
  }

  /** getPoint: column 7 - t % 8 and row 7 - t / 8, with Java's truncating `%` and `/`. */
  function GetPoint(tileNum: bv8): (p: Point)
    ensures tileNum < 64 ==> 0 <= p.x < 8 && 0 <= p.y < 8
  {
    Point(7 - JavaRem(Signed(tileNum), 8), 7 - JavaDiv(Signed(tileNum), 8))
  }

  /** The two numberings are inverse to each other on the 64 tiles of the board. */
  lemma TileNumRoundTrip(pos: Point)
    requires 0 <= pos.x < 8 && 0 <= pos.y < 8
    ensures GetPoint(GetTileNum(pos)) == pos
  {
    TileNumOnBoard(pos);
    var t := 63 - (8 * pos.y + pos.x);
    assert t / 8 == 7 - pos.y && t % 8 == 7 - pos.x;
  }

  lemma PointRoundTrip(tileNum: bv8)
    requires tileNum < 64
    ensures GetTileNum(GetPoint(tileNum)) == tileNum
  {
    var p := GetPoint(tileNum);
    TileNumRoundTrip(p);
    TileNumOnBoard(p);
    GetPointInjective(GetTileNum(p), tileNum);
  }

  /** Distinct tile numbers of the board name distinct points. */
  lemma GetPointInjective(t: bv8, u: bv8)
    requires t < 64 && u < 64 && GetPoint(t) == GetPoint(u)
    ensures t == u
  {
    var a, b := t as int, u as int;
    assert a % 8 == b % 8 && a / 8 == b / 8;
    assert a == b;
  }

  /** Distinct tiles of the board have distinct tile numbers. */
  lemma TileNumInjective(pos: Point, other: Point)
    requires 0 <= pos.x < 8 && 0 <= pos.y < 8 && 0 <= other.x < 8 && 0 <= other.y < 8
    ensures GetTileNum(pos) == GetTileNum(other) <==> pos == other
  {
    if GetTileNum(pos) == GetTileNum(other) {
      TileNumRoundTrip(pos);
      TileNumRoundTrip(other);
    }
  }

  /** The shift distance Java uses for `1L << t`: the low six bits of t. */
  function ShiftDistance(tileNum: bv8): (k: bv8)
    ensures k < 64
    ensures tileNum < 64 ==> k == tileNum
  {
    tileNum & 63
  }

  /** `1L << tileNum`. */
  function Mask(tileNum: bv8): bv64 {
    (1 as bv64) << ShiftDistance(tileNum)
  }

  /** Bit k of a mask, counted from the least significant bit. */
  predicate Bit(m: bv64, k: bv8)
    requires k < 64
  {
    (m >> k) & 1 == 1
  }

  /** getBit (byte overload): whether the bit the tile number selects is set. */
  function GetBit(boardRep: bv64, tileNum: bv8): (b: bool)
    ensures b <==> Bit(boardRep, ShiftDistance(tileNum))
  {
    boardRep & Mask(tileNum) != 0
  }

  /** setBit (byte overload). */
  function SetBit(boardRep: bv64, tileNum: bv8): bv64 {
    boardRep | Mask(tileNum)
  }

  /** clearBit (byte overload). */
  function ClearBit(boardRep: bv64, tileNum: bv8): bv64 {
    boardRep & !Mask(tileNum)
  }

  /** setBit makes the selected bit 1 and keeps every other bit. */
  lemma SetBitEffect(boardRep: bv64, tileNum: bv8, k: bv8)
    requires k < 64
    ensures Bit(SetBit(boardRep, tileNum), k) <==> k == ShiftDistance(tileNum) || Bit(boardRep, k)
  {
    // the two cases separately: the selected bit, and any other bit
    if k == ShiftDistance(tileNum) {
    } else {
    }
  }

  /** clearBit makes the selected bit 0 and keeps every other bit. */
  lemma ClearBitEffect(boardRep: bv64, tileNum: bv8, k: bv8)
    requires k < 64
    ensures Bit(ClearBit(boardRep, tileNum), k) <==> k != ShiftDistance(tileNum) && Bit(boardRep, k)
  {
    // the two cases separately: the selected bit, and any other bit
    if k == ShiftDistance(tileNum) {
    } else {
    }
  }

  /** getBit (Point overload). */
  function GetBitAt(boardRep: bv64, pos: Point): bool {
    GetBit(boardRep, GetTileNum(pos))
  }

  /** setBit (Point overload). */
  function SetBitAt(boardRep: bv64, pos: Point): bv64 {
    SetBit(boardRep, GetTileNum(pos))
  }

  /** clearBit (Point overload). */
  function ClearBitAt(boardRep: bv64, pos: Point): bv64 {
    ClearBit(boardRep, GetTileNum(pos))
  }

  /** Two tiles of the board select the same bit only if they are the same tile. */
  lemma SameBit(pos: Point, other: Point)
    requires 0 <= pos.x < 8 && 0 <= pos.y < 8 && 0 <= other.x < 8 && 0 <= other.y < 8
    ensures ShiftDistance(GetTileNum(other)) == ShiftDistance(GetTileNum(pos)) <==> other == pos
  {
    TileNumOnBoard(pos);
    TileNumOnBoard(other);
    TileNumInjective(pos, other);
  }

  /** The number of set bits among bits 0 .. n-1 of m. */
  function PopCount(m: bv64, n: bv8): (c: nat)
    requires n <= 64
    ensures c <= n as int
  {
    if n == 0 then 0 else PopCount(m, n - 1) + (if Bit(m, n - 1) then 1 else 0)
  }

  /** Java's `num >>= 1` on a long: an arithmetic shift that copies the sign bit. */
  function ShiftRightSigned(num: bv64): bv64 {
    (num >> 1) | (num & 0x8000_0000_0000_0000)
  }

  /** The shift moves bit k + 1 to bit k. */
  lemma ShiftRightSignedBit(num: bv64, k: bv8)
    requires k < 63
    ensures Bit(ShiftRightSigned(num), k) <==> Bit(num, k + 1)
  {
  }

  /** After b shifts, bit k of n is bit k + b of the original num. */
  ghost predicate ShiftedBy(n: bv64, num: bv64, b: bv8)
    requires b <= 64
  {
    forall k: bv8 :: k < 64 - b ==> (Bit(n, k) <==> Bit(num, k + b))
  }

  lemma ShiftedStep(n: bv64, num: bv64, b: bv8)
    requires b < 64 && ShiftedBy(n, num, b)
    ensures ShiftedBy(ShiftRightSigned(n), num, b + 1)
    ensures (n & 1 == 1) <==> Bit(num, b)
  {
    forall k: bv8 | k < 64 - (b + 1)
      ensures Bit(ShiftRightSigned(n), k) <==> Bit(num, k + (b + 1))
    {
      ShiftRightSignedBit(n, k);
      assert Bit(n, k + 1) <==> Bit(num, (k + 1) + b);
    }
    assert Bit(n, 0) <==> Bit(num, 0 + b);
  }

  /**
   * cardinality: test bit 0 and shift, 64 times. The result, a byte in Java, is
   * the number of set bits of the argument.
   */
  method Cardinality(num: bv64) returns (result: int)
    ensures result == PopCount(num, 64)
    ensures 0 <= result <= 64
  {
    result := 0;
    var n := num;
    var i := 0;
    ghost var shifts: bv8 := 0;
    while i < 64
      invariant 0 <= i <= 64 && shifts as int == i
      invariant result == PopCount(num, shifts)
      invariant ShiftedBy(n, num, shifts)
    {
      ShiftedStep(n, num, shifts);
      if n & 1 == 1 {
        result := result + 1;
      }
      i, n, shifts := i + 1, ShiftRightSigned(n), shifts + 1;
    }
  }
}
