/** CRC-32 as the image tool computes it: a table of 256 words, one step for each byte, and
    the main loop unrolled eight times. */
module Crc32 {
  type Word = bv32
  type Byte = bv8

  const POLY: Word := 0xedb88320
  const ONES: Word := 0xffffffff

  function Xor(a: Word, b: Word): Word { a ^ b }

  function Half(c: Word): Word { c >> 1 }

  function Down8(c: Word): Word { c >> 8 }

  function Low(c: Word): Word { c & 0xff }

  function High(c: Word): Word { c & 0xffffff00 }

  predicate Odd(c: Word) { c & 1 == 1 }

  // ---- The shift register --------------------------------------------------------------

  /** The register is multiplied by x: shifted right, with the polynomial added when the
      bit shifted out is one. */
  function Shift(c: Word): Word {
    if Odd(c) then Xor(POLY, Half(c)) else Half(c)
  }

  /** One message bit enters the register. */
  function Feed(c: Word, bit: bool): Word {
    Shift(if bit then Xor(c, 1) else c)
  }

  /** The byte without its `k` low bits. */
  function Rest(b: Byte, k: nat): Word {
    if k == 0 then b as Word else Half(Rest(b, k - 1))
  }

  /** The bits of a byte from bit `k` on, least significant first. */
  function BitsFrom(b: Byte, k: nat): seq<bool>
    decreases 8 - k
  {
    if k >= 8 then [] else [Odd(Rest(b, k))] + BitsFrom(b, k + 1)
  }

  function AllBits(buf: seq<Byte>): seq<bool> {
    if buf == [] then [] else BitsFrom(buf[0], 0) + AllBits(buf[1..])
  }

  /** The shift register fed bit by bit. */
  function Register(c: Word, bits: seq<bool>): Word
    decreases |bits|
  {
    if bits == [] then c else Register(Feed(c, bits[0]), bits[1..])
  }

  /** The checksum of a buffer by the shift register, with the complements before and after. */
  function BitwiseCrc(crc: Word, buf: seq<Byte>): Word {
    Xor(Register(Xor(crc, ONES), AllBits(buf)), ONES)
  }

  lemma {:induction false} RegisterSplit(c: Word, a: seq<bool>, b: seq<bool>)
    ensures Register(c, a + b) == Register(Register(c, a), b)
    decreases |a|
  {
    hide Feed;
    if a == [] {
      assert a + b == b;
    } else {
      assert (a + b)[1..] == a[1..] + b;
      RegisterSplit(Feed(c, a[0]), a[1..], b);
    }
  }

  lemma {:induction false} BitsSplit(a: seq<Byte>, b: seq<Byte>)
    ensures AllBits(a + b) == AllBits(a) + AllBits(b)
  {
    hide BitsFrom;
    if a == [] {
      assert a + b == b;
    } else {
      assert (a + b)[1..] == a[1..] + b;
      BitsSplit(a[1..], b);
    }
  }

  // ---- Words ---------------------------------------------------------------------------

  lemma HalfXor(x: Word, y: Word)
    ensures Half(Xor(x, y)) == Xor(Half(x), Half(y))
  {
  }

  lemma OddXor(x: Word, y: Word)
    ensures Odd(Xor(x, y)) <==> Odd(x) != Odd(y)
  {
  }

  lemma XorAssoc(p: Word, a: Word, b: Word)
    ensures Xor(p, Xor(a, b)) == Xor(Xor(p, a), b)
  {
  }

  lemma XorComm(a: Word, b: Word)
    ensures Xor(a, b) == Xor(b, a)
  {
  }

  lemma XorMoves(p: Word, a: Word, b: Word)
    ensures Xor(p, Xor(a, b)) == Xor(Xor(p, a), b) && Xor(p, Xor(a, b)) == Xor(a, Xor(p, b))
  {
    hide Xor;
    XorAssoc(p, a, b);
    XorAssoc(a, p, b);
    XorComm(p, a);
  }

  lemma XorBack(p: Word, c: Word)
    ensures Xor(p, Xor(p, c)) == c
  {
  }

  lemma XorCancels(p: Word, a: Word, b: Word)
    ensures Xor(Xor(p, a), Xor(p, b)) == Xor(a, b)
  {
    hide Xor;
    XorMoves(Xor(p, a), p, b);
    XorMoves(p, a, b);
    XorBack(p, Xor(a, b));
  }

  lemma XorTwice(a: Word, b: Word)
    ensures Xor(Xor(a, b), b) == a
  {
  }

  lemma XorZero(c: Word)
    ensures Xor(c, 0) == c
  {
  }

  lemma XorOne(c: Word)
    ensures Half(Xor(c, 1)) == Half(c) && (Odd(Xor(c, 1)) <==> !Odd(c))
  {
  }

  lemma SplitLow(c: Word)
    ensures c == Xor(Low(c), High(c))
  {
  }

  lemma LowByte(c: Word, b: Byte)
    ensures Down8(Xor(c, b as Word)) == Down8(c)
    ensures (((c ^ (b as Word)) & 0xff) as Byte) as Word == Low(Xor(c, b as Word))
  {
  }

  /** Eight shifts of the high 24 bits only move them down. */
  lemma HighMovesDown(c: Word)
    ensures Shift(Shift(Shift(Shift(Shift(Shift(Shift(Shift(High(c))))))))) == Down8(c)
  {
  }

  lemma ByteIsUsedUp(b: Byte)
    ensures Half(Half(Half(Half(Half(Half(Half(Half(b as Word)))))))) == 0
  {
  }

  // ---- A byte at a time ----------------------------------------------------------------

  function Shifts(c: Word, k: nat): Word
    decreases k
  {
    if k == 0 then c else Shifts(Shift(c), k - 1)
  }

  lemma ShiftLinear(x: Word, y: Word)
    ensures Shift(Xor(x, y)) == Xor(Shift(x), Shift(y))
  {
    HalfXor(x, y);
    OddXor(x, y);
    XorMoves(POLY, Half(x), Half(y));
    XorCancels(POLY, Half(x), Half(y));
    hide Xor, Half, Odd;
  }

  lemma {:induction false} ShiftsLinear(x: Word, y: Word, k: nat)
    ensures Shifts(Xor(x, y), k) == Xor(Shifts(x, k), Shifts(y, k))
    decreases k
  {
    hide Xor, Shift;
    if k > 0 {
      ShiftLinear(x, y);
      ShiftsLinear(Shift(x), Shift(y), k - 1);
    }
  }

  lemma EightIs(c: Word)
    ensures Shifts(c, 8) == Shift(Shift(Shift(Shift(Shift(Shift(Shift(Shift(c))))))))
  {
    hide Shift;
    var c2 := Shift(Shift(c));
    var c4 := Shift(Shift(c2));
    var c6 := Shift(Shift(c4));
    assert Shifts(c, 8) == Shifts(Shift(c), 7) == Shifts(c2, 6);
    assert Shifts(c2, 6) == Shifts(Shift(c2), 5) == Shifts(c4, 4);
    assert Shifts(c4, 4) == Shifts(Shift(c4), 3) == Shifts(c6, 2);
    assert Shifts(c6, 2) == Shifts(Shift(c6), 1) == Shifts(Shift(Shift(c6)), 0);
  }

  /** What eight shifts do to a register is decided by its low byte. */
  lemma TableStep(c: Word)
    ensures Shifts(c, 8) == Xor(Shifts(Low(c), 8), Down8(c))
  {
    hide Xor, Shift, Low, High, Down8;
    SplitLow(c);
    ShiftsLinear(Low(c), High(c), 8);
    HighMovesDown(c);
    EightIs(High(c));
  }

  /** One bit of the message enters while the rest `r` of the byte waits above it. */
  lemma FeedStep(c: Word, r: Word)
    ensures Shift(Xor(c, r)) == Xor(Feed(c, Odd(r)), Half(r))
  {
    HalfXor(c, r);
    OddXor(c, r);
    XorOne(c);
    XorMoves(POLY, Half(c), Half(r));
    XorCancels(POLY, Half(c), Half(r));
    hide Xor, Half, Odd;
  }

  /** The bits of a byte entered one by one are the byte added to the register and a shift
      for each. */
  lemma {:induction false} BitsEnter(c: Word, b: Byte, k: nat)
    requires k <= 8
    ensures Register(c, BitsFrom(b, k)) == Shifts(Xor(c, Rest(b, k)), 8 - k)
    decreases 8 - k
  {
    hide Xor, Shift, Feed, Odd, Half;
    if k == 8 {
      RestIsZero(b);
      XorZero(c);
    } else {
      var bit := Odd(Rest(b, k));
      assert ([bit] + BitsFrom(b, k + 1))[1..] == BitsFrom(b, k + 1);
      BitsEnter(Feed(c, bit), b, k + 1);
      FeedStep(c, Rest(b, k));
    }
  }

  lemma RestIsZero(b: Byte)
    ensures Rest(b, 8) == 0
  {
    hide Half;
    assert Rest(b, 0) == b as Word;
    assert Rest(b, 1) == Half(Rest(b, 0));
    assert Rest(b, 2) == Half(Rest(b, 1));
    assert Rest(b, 3) == Half(Rest(b, 2));
    assert Rest(b, 4) == Half(Rest(b, 3));
    assert Rest(b, 5) == Half(Rest(b, 4));
    assert Rest(b, 6) == Half(Rest(b, 5));
    assert Rest(b, 7) == Half(Rest(b, 6));
    ByteIsUsedUp(b);
  }

  // ---- The table -----------------------------------------------------------------------

  /** The powers with coefficient one, without x^32. */
  const TERMS: seq<nat> := [0, 1, 2, 4, 5, 7, 8, 10, 11, 12, 16, 22, 23, 26]

  /** The term of power `t` added: the lowest powers are the most significant bits. */
  function With(poly: Word, t: nat): Word
    requires t < 32
  {
    poly | (1 << (31 - t))
  }

  /** The pattern of the first `n` terms. */
  function PolyOf(n: nat): Word
    requires n <= |TERMS|
  {
    if n == 0 then 0 else With(PolyOf(n - 1), TERMS[n - 1])
  }

  predicate HasTerm(poly: Word, t: nat)
    requires t < 32
  {
    (poly >> (31 - t)) & 1 == 1
  }

  lemma LowTerms(t: nat)
    requires t < 16
    ensures HasTerm(POLY, t) <==> t in TERMS
  {
    assert t == 0 || t == 1 || t == 2 || t == 3 || t == 4 || t == 5 || t == 6 || t == 7
        || t == 8 || t == 9 || t == 10 || t == 11 || t == 12 || t == 13 || t == 14 || t == 15;
  }

  lemma HighTerms(t: nat)
    requires 16 <= t < 32
    ensures HasTerm(POLY, t) <==> t in TERMS
  {
    if t < 24 { UpperTerms(t); } else { TopTerms(t); }
  }

  lemma UpperTerms(t: nat)
    requires 16 <= t < 24
    ensures HasTerm(POLY, t) <==> t in TERMS
  {
    assert t == 16 || t == 17 || t == 18 || t == 19 || t == 20 || t == 21 || t == 22 || t == 23;
  }

  lemma TopTerms(t: nat)
    requires 24 <= t < 32
    ensures HasTerm(POLY, t) <==> t in TERMS
  {
    assert t == 24 || t == 25 || t == 26 || t == 27 || t == 28 || t == 29 || t == 30 || t == 31;
  }

  lemma WithLow()
    ensures With(0, 0) == 0x80000000
    ensures With(0x80000000, 1) == 0xc0000000
    ensures With(0xc0000000, 2) == 0xe0000000
    ensures With(0xe0000000, 4) == 0xe8000000
    ensures With(0xe8000000, 5) == 0xec000000
    ensures With(0xec000000, 7) == 0xed000000
    ensures With(0xed000000, 8) == 0xed800000
  {
  }

  lemma WithHigh()
    ensures With(0xed800000, 10) == 0xeda00000
    ensures With(0xeda00000, 11) == 0xedb00000
    ensures With(0xedb00000, 12) == 0xedb80000
    ensures With(0xedb80000, 16) == 0xedb88000
    ensures With(0xedb88000, 22) == 0xedb88200
    ensures With(0xedb88200, 23) == 0xedb88300
    ensures With(0xedb88300, 26) == 0xedb88320
  {
  }

  lemma PolyHalf()
    ensures PolyOf(7) == 0xed800000
  {
    hide With;
    WithLow();
    assert PolyOf(1) == 0x80000000;
    assert PolyOf(2) == 0xc0000000;
    assert PolyOf(3) == 0xe0000000;
    assert PolyOf(4) == 0xe8000000;
    assert PolyOf(5) == 0xec000000;
    assert PolyOf(6) == 0xed000000;
  }

  lemma PolyIs()
    ensures PolyOf(|TERMS|) == POLY
  {
    hide With;
    PolyHalf();
    WithHigh();
    assert PolyOf(8) == 0xeda00000;
    assert PolyOf(9) == 0xedb00000;
    assert PolyOf(10) == 0xedb80000;
    assert PolyOf(11) == 0xedb88000;
    assert PolyOf(12) == 0xedb88200;
    assert PolyOf(13) == 0xedb88300;
  }

  /** The first loop of make_crc_table: the pattern has a one for exactly the terms of the
      polynomial. */
  method MakePoly() returns (poly: Word)
    ensures poly == POLY && forall t: nat :: t < 32 ==> (HasTerm(poly, t) <==> t in TERMS)
  {
    poly := 0;
    hide With, HasTerm;
    for n := 0 to |TERMS|
      invariant poly == PolyOf(n)
    {
      poly := With(poly, TERMS[n]);
    }
    PolyIs();
    forall t: nat | t < 32
      ensures HasTerm(poly, t) <==> t in TERMS
    {
      if t < 16 { LowTerms(t); } else { HighTerms(t); }
    }
  }

  /** Entry `b` is what eight shifts make of `b`. */
  ghost predicate EntryOk(table: seq<Word>, b: Byte) {
    (b as int) < |table| && table[b as int] == Shifts(b as Word, 8)
  }

  ghost predicate TableOk(table: seq<Word>) {
    |table| == 256 && forall b: Byte :: EntryOk(table, b)
  }

  lemma NextByte(b: Byte)
    requires b != 255
    ensures (b + 1) as int == b as int + 1
  {
  }

  lemma SameByte(b: Byte, c: Byte)
    requires b as int == c as int
    ensures b == c
  {
  }

  /** make_crc_table. */
  method MakeCrcTable() returns (table: seq<Word>)
    ensures TableOk(table)
  {
    table := [];
    var poly := MakePoly();
    var byte: Byte := 0;
    hide Shifts, HasTerm;
    for n := 0 to 256
      invariant |table| == n && (n < 256 ==> byte as int == n)
      invariant forall b: Byte :: b as int < n ==> EntryOk(table, b)
    {
      var c := EightShifts(poly, byte);
      ghost var was := table;
      table := table + [c];
      forall b: Byte | b as int < n + 1
        ensures EntryOk(table, b)
      {
        if b as int < n { assert EntryOk(was, b); } else { SameByte(b, byte); }
      }
      if n < 255 {
        NextByte(byte);
        byte := byte + 1;
      }
    }
  }

  /** The inner loop of make_crc_table. */
  method EightShifts(poly: Word, n: Byte) returns (c: Word)
    requires poly == POLY
    ensures c == Shifts(n as Word, 8)
  {
    c := n as Word;
    for k := 0 to 8
      invariant Shifts(c, 8 - k) == Shifts(n as Word, 8)
    {
      ghost var before := c;
      c := if c & 1 == 1 then poly ^ (c >> 1) else c >> 1;
      assert c == Shift(before);
    }
  }

  // ---- crc32 -----------------------------------------------------------------------------

  /** DO1: one byte through the table. */
  method Do1(table: seq<Word>, crc: Word, b: Byte) returns (r: Word)
    requires TableOk(table)
    ensures r == Register(crc, BitsFrom(b, 0))
  {
    var index := ((crc ^ (b as Word)) & 0xff) as Byte;
    assert EntryOk(table, index);
    r := Xor(table[index as int], Down8(crc));
    LowByte(crc, b);
    hide Xor, Down8, Low, Shifts, Register;
    TableStep(Xor(crc, b as Word));
    BitsEnter(crc, b, 0);
  }

  /** DO8: eight bytes, in order. */
  method Do8(table: seq<Word>, crc: Word, buf: seq<Byte>) returns (r: Word)
    requires TableOk(table) && |buf| >= 8
    ensures r == Register(crc, AllBits(buf[..8]))
  {
    hide TableOk, Register, BitsFrom;
    r := Do1(table, crc, buf[0]);
    RegisterBytes(crc, buf, 0);
    r := Do1(table, r, buf[1]);
    RegisterBytes(crc, buf, 1);
    r := Do1(table, r, buf[2]);
    RegisterBytes(crc, buf, 2);
    r := Do1(table, r, buf[3]);
    RegisterBytes(crc, buf, 3);
    r := Do1(table, r, buf[4]);
    RegisterBytes(crc, buf, 4);
    r := Do1(table, r, buf[5]);
    RegisterBytes(crc, buf, 5);
    r := Do1(table, r, buf[6]);
    RegisterBytes(crc, buf, 6);
    r := Do1(table, r, buf[7]);
    RegisterBytes(crc, buf, 7);
  }

  /** One byte more. */
  lemma RegisterBytes(crc: Word, buf: seq<Byte>, k: nat)
    requires k < |buf|
    ensures Register(crc, AllBits(buf[..k + 1])) == Register(Register(crc, AllBits(buf[..k])), BitsFrom(buf[k], 0))
    ensures k == 0 ==> Register(crc, AllBits(buf[..k])) == crc
  {
    hide BitsFrom, Feed;
    assert buf[..k + 1] == buf[..k] + [buf[k]];
    BitsSplit(buf[..k], [buf[k]]);
    assert AllBits([buf[k]]) == BitsFrom(buf[k], 0) + AllBits([]) == BitsFrom(buf[k], 0);
    RegisterSplit(crc, AllBits(buf[..k]), BitsFrom(buf[k], 0));
  }

  /** crc32 with the unrolled loop is the shift register fed bit by bit. */
  method Crc32(table: seq<Word>, crc0: Word, buf: seq<Byte>) returns (r: Word)
    requires TableOk(table)
    ensures r == BitwiseCrc(crc0, buf)
  {
    hide TableOk, BitsFrom, AllBits, Register, Xor;
    var crc, rest := Xor(crc0, ONES), buf;
    while |rest| >= 8
      invariant Register(crc, AllBits(rest)) == Register(Xor(crc0, ONES), AllBits(buf))
    {
      Ahead(crc, rest, 8);
      crc := Do8(table, crc, rest);
      rest := rest[8..];
    }
    while |rest| > 0
      invariant Register(crc, AllBits(rest)) == Register(Xor(crc0, ONES), AllBits(buf))
    {
      Ahead(crc, rest, 1);
      crc := Do1(table, crc, rest[0]);
      rest := rest[1..];
    }
    NothingLeft(crc);
    return Xor(crc, ONES);
  }

  /** The first `k` bytes, then the others. */
  lemma Ahead(c: Word, buf: seq<Byte>, k: nat)
    requires 0 < k <= |buf|
    ensures Register(c, AllBits(buf)) == Register(Register(c, AllBits(buf[..k])), AllBits(buf[k..]))
    ensures k == 1 ==> AllBits(buf[..k]) == BitsFrom(buf[0], 0)
  {
    hide Register, BitsFrom;
    assert buf == buf[..k] + buf[k..];
    BitsSplit(buf[..k], buf[k..]);
    RegisterSplit(c, AllBits(buf[..k]), AllBits(buf[k..]));
    if k == 1 { assert AllBits(buf[..1]) == BitsFrom(buf[0], 0) + AllBits([]); }
  }

  lemma NothingLeft(c: Word)
    ensures Register(c, AllBits([])) == c
  {
  }

  /** Running on `a` and then on `b` is running on `a` followed by `b`. */
  lemma CrcOfConcatenation(crc: Word, a: seq<Byte>, b: seq<Byte>)
    ensures BitwiseCrc(BitwiseCrc(crc, a), b) == BitwiseCrc(crc, a + b)
  {
    hide Xor, Register, AllBits;
    BitsSplit(a, b);
    RegisterSplit(Xor(crc, ONES), AllBits(a), AllBits(b));
    XorTwice(Register(Xor(crc, ONES), AllBits(a)), ONES);
  }

  // ---- What the two complements are for ------------------------------------------------------

  /** What a checked message leaves, its checksum included. */
  const RESIDUE: Word := 0x2144df1c

  function LowByteOf(v: Word): Byte { (v & 0xff) as Byte }

  /** The `k` low bytes of a word, lowest first. */
  function Bytes(v: Word, k: nat): seq<Byte> {
    if k == 0 then [] else [LowByteOf(v)] + Bytes(Down8(v), k - 1)
  }

  /** What is left of a word above its `k` low bytes. */
  function Above(v: Word, k: nat): Word {
    if k == 0 then v else Above(Down8(v), k - 1)
  }

  lemma NothingAbove(v: Word)
    ensures Above(v, 4) == 0
  {
    assert Down8(Down8(Down8(Down8(v)))) == 0;
    hide Down8;
    assert Above(v, 4) == Above(Down8(v), 3) == Above(Down8(Down8(v)), 2);
    assert Above(Down8(Down8(v)), 2) == Above(Down8(Down8(Down8(v))), 1);
    assert Above(Down8(Down8(Down8(v))), 1) == Above(Down8(Down8(Down8(Down8(v)))), 0);
  }

  lemma LowIs(v: Word)
    ensures LowByteOf(v) as Word == Low(v)
  {
  }

  /** The low byte of `v` enters, the other bytes wait above it. */
  lemma LowEnters(c: Word, v: Word)
    ensures Xor(Register(c, BitsFrom(LowByteOf(v), 0)), Down8(v)) == Shifts(Xor(c, v), 8)
  {
    var b := LowByteOf(v);
    assert Rest(b, 0) == b as Word;
    BitsEnter(c, b, 0);
    LowIs(v);
    hide Xor, Shift, Low, High, Down8, Register, BitsFrom, Rest, LowByteOf;
    SplitLow(v);
    XorMoves(c, Low(v), High(v));
    ShiftsLinear(Xor(c, Low(v)), High(v), 8);
    HighMovesDown(v);
    EightIs(High(v));
  }

  lemma {:induction false} MoreShifts(c: Word, a: nat, b: nat)
    ensures Shifts(Shifts(c, a), b) == Shifts(c, a + b)
    decreases a
  {
    hide Shift;
    if a > 0 { MoreShifts(Shift(c), a - 1, b); }
  }

  lemma {:induction false} BytesEnter(c: Word, v: Word, k: nat)
    ensures Xor(Register(c, AllBits(Bytes(v, k))), Above(v, k)) == Shifts(Xor(c, v), 8 * k)
    decreases k
  {
    hide Xor, Shift, Down8, Feed, BitsFrom, LowByteOf, Shifts;
    if k == 0 {
      NoShift(Xor(c, v));
    } else {
      var b, up := LowByteOf(v), Down8(v);
      var next := Register(c, BitsFrom(b, 0));
      LowEnters(c, v);
      assert ([b] + Bytes(up, k - 1))[1..] == Bytes(up, k - 1);
      RegisterSplit(c, BitsFrom(b, 0), AllBits(Bytes(up, k - 1)));
      BytesEnter(next, up, k - 1);
      MoreShifts(Xor(c, v), 8, 8 * (k - 1));
    }
  }

  lemma NoShift(c: Word)
    ensures Shifts(c, 0) == c
  {
  }

  /** A word entered byte by byte is the word added to the register and 32 shifts. */
  lemma WordEnters(c: Word, v: Word)
    ensures Register(c, AllBits(Bytes(v, 4))) == Shifts(Xor(c, v), 32)
  {
    hide Xor, Register, Shifts, Bytes, AllBits, Above;
    BytesEnter(c, v, 4);
    NothingAbove(v);
    XorZero(Register(c, AllBits(Bytes(v, 4))));
  }

  lemma ShiftKeepsApart(a: Word, b: Word)
    requires Shift(a) == Shift(b)
    ensures a == b
  {
  }

  lemma {:induction false} ShiftsKeepApart(a: Word, b: Word, k: nat)
    requires Shifts(a, k) == Shifts(b, k)
    ensures a == b
    decreases k
  {
    hide Shift;
    if k > 0 {
      ShiftsKeepApart(Shift(a), Shift(b), k - 1);
      ShiftKeepsApart(a, b);
    }
  }

  /** Eight shifts of a given register. */
  lemma ByteShifted(c: Word, r: Word)
    requires Shift(Shift(Shift(Shift(Shift(Shift(Shift(Shift(c)))))))) == r
    ensures Shifts(c, 8) == r
  {
    hide Shift;
    EightIs(c);
  }

  lemma OnesShifted()
    ensures Shifts(ONES, 32) == Xor(RESIDUE, ONES)
  {
    ByteShifted(ONES, 0x2dfd1072);
    ByteShifted(0x2dfd1072, 0xbe26ed00);
    ByteShifted(0xbe26ed00, 0xbe26ed);
    ByteShifted(0xbe26ed, 0xdebb20e3);
    hide Shift, Shifts;
    MoreShifts(ONES, 8, 8);
    MoreShifts(ONES, 16, 8);
    MoreShifts(ONES, 24, 8);
  }

  /** A message followed by a word, lowest byte first, leaves the residue exactly when the word
      is the checksum of the message. */
  lemma ResidueIff(crc: Word, buf: seq<Byte>, v: Word)
    ensures BitwiseCrc(crc, buf + Bytes(v, 4)) == RESIDUE <==> v == BitwiseCrc(crc, buf)
  {
    var c := BitwiseCrc(crc, buf);
    CrcOfConcatenation(crc, buf, Bytes(v, 4));
    assert BitwiseCrc(c, Bytes(v, 4)) == Xor(Register(Xor(c, ONES), AllBits(Bytes(v, 4))), ONES);
    hide BitwiseCrc, Xor, Register, Shifts, Bytes, AllBits;
    WordEnters(Xor(c, ONES), v);
    OnesShifted();
    var w := Xor(Xor(c, ONES), v);
    XorTwice(Shifts(w, 32), ONES);
    XorTwice(RESIDUE, ONES);
    if v == c {
      XorComm(c, ONES);
      XorTwice(ONES, c);
    } else if Xor(Shifts(w, 32), ONES) == RESIDUE {
      ShiftsKeepApart(w, ONES, 32);
      SameWord(c, v);
    }
  }

  lemma SameWord(c: Word, v: Word)
    requires Xor(Xor(c, ONES), v) == ONES
    ensures c == v
  {
  }

  /** One byte of a known message. */
  lemma ByteFed(c: Word, b: Byte, r: Word)
    requires Shift(Shift(Shift(Shift(Shift(Shift(Shift(Shift(Xor(c, b as Word))))))))) == r
    ensures Register(c, BitsFrom(b, 0)) == r
  {
    assert Rest(b, 0) == b as Word;
    hide Shift, Xor, Register, BitsFrom, Rest;
    BitsEnter(c, b, 0);
    EightIs(Xor(c, b as Word));
  }

  /** The digits 1 to 9, as published check values use them. */
  lemma CheckValue() returns (digits: seq<Byte>, crc: Word)
    ensures digits == [49, 50, 51, 52, 53, 54, 55, 56, 57]
    ensures crc == BitwiseCrc(0, digits) && crc == 0xcbf43926
  {
    digits := [49, 50, 51, 52, 53, 54, 55, 56, 57];
    crc := BitwiseCrc(0, digits);
    Complements();
    hide Xor, Register, AllBits;
    FirstDigits(digits);
    LastDigits(digits);
    assert digits[..9] == digits;
  }

  lemma Complements()
    ensures Xor(0, ONES) == ONES && Xor(0x340bc6d9, ONES) == 0xcbf43926
  {
  }

  lemma FirstDigits(d: seq<Byte>)
    requires |d| == 9 && d[0] == 49 && d[1] == 50 && d[2] == 51 && d[3] == 52 && d[4] == 53
    ensures Register(ONES, AllBits(d[..5])) == 0x340ac5e3
  {
    OneTwo();
    ThreeToFive();
    hide Register, AllBits, BitsFrom;
    RegisterBytes(ONES, d, 0);
    RegisterBytes(ONES, d, 1);
    RegisterBytes(ONES, d, 2);
    RegisterBytes(ONES, d, 3);
    RegisterBytes(ONES, d, 4);
  }

  lemma OneTwo()
    ensures Register(ONES, BitsFrom(49, 0)) == 0x7c231048
    ensures Register(0x7c231048, BitsFrom(50, 0)) == 0xb0acbb32
  {
    ByteFed(ONES, 49, 0x7c231048);
    ByteFed(0x7c231048, 50, 0xb0acbb32);
  }

  lemma ThreeToFive()
    ensures Register(0xb0acbb32, BitsFrom(51, 0)) == 0x77b79c2d
    ensures Register(0x77b79c2d, BitsFrom(52, 0)) == 0x641c1f5c
    ensures Register(0x641c1f5c, BitsFrom(53, 0)) == 0x340ac5e3
  {
    ByteFed(0xb0acbb32, 51, 0x77b79c2d);
    ByteFed(0x77b79c2d, 52, 0x641c1f5c);
    ByteFed(0x641c1f5c, 53, 0x340ac5e3);
  }

  lemma LastDigits(d: seq<Byte>)
    requires |d| == 9 && d[5] == 54 && d[6] == 55 && d[7] == 56 && d[8] == 57
    requires Register(ONES, AllBits(d[..5])) == 0x340ac5e3
    ensures Register(ONES, AllBits(d[..9])) == 0x340bc6d9
  {
    ByteFed(0x340ac5e3, 54, 0xf68d2c9e);
    ByteFed(0xf68d2c9e, 55, 0xaffc9660);
    ByteFed(0xaffc9660, 56, 0x651f2550);
    ByteFed(0x651f2550, 57, 0x340bc6d9);
    hide Register, AllBits, BitsFrom;
    RegisterBytes(ONES, d, 5);
    RegisterBytes(ONES, d, 6);
    RegisterBytes(ONES, d, 7);
    RegisterBytes(ONES, d, 8);
  }
}
