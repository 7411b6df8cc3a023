/** The sixteen-bit register of a CRC, one bit at a time. */
module CrcRegister {

  type byte = bv8

  const POLY: bv16 := 0x1021

  // Named so that proofs can treat them as plain symbols.
  function Xor(a: bv16, b: bv16): bv16 { a ^ b }

  function Xor8(a: byte, b: byte): byte { a ^ b }

  /** One step of division by the polynomial: shift, and subtract it when a one falls out. */
  function Shift(c: bv16): bv16 { (c << 1) ^ ((c >> 15) * POLY) }

  function Shifts(c: bv16, n: nat): bv16
    decreases n
  {
    if n == 0 then c else Shifts(Shift(c), n - 1)
  }

  function Shift8(c: bv16): bv16 {
    Shift(Shift(Shift(Shift(Shift(Shift(Shift(Shift(c))))))))
  }

  lemma ShiftsEight(c: bv16)
    ensures Shifts(c, 8) == Shift8(c)
  {
    var two := Shift(Shift(c));
    var four := Shift(Shift(two));
    var six := Shift(Shift(four));
    assert Shifts(c, 8) == Shifts(two, 6);
    assert Shifts(two, 6) == Shifts(four, 4);
    assert Shifts(four, 4) == Shifts(six, 2);
    assert Shifts(six, 2) == Shifts(Shift(six), 1) == Shift(Shift(six));
  }

  lemma ShiftOfXor(x: bv16, y: bv16, z: bv16)
    requires z == x ^ y
    ensures Shift(z) == Shift(x) ^ Shift(y)
  {
  }

  lemma ShiftLinear(x: bv16, y: bv16)
    ensures Shift(Xor(x, y)) == Xor(Shift(x), Shift(y))
  {
    hide Shift;
    ShiftOfXor(x, y, Xor(x, y));
  }

  lemma {:induction false} ShiftsLinear(x: bv16, y: bv16, n: nat)
    ensures Shifts(Xor(x, y), n) == Xor(Shifts(x, n), Shifts(y, n))
    decreases n
  {
    hide Xor, Shift;
    if n > 0 {
      ShiftLinear(x, y);
      ShiftsLinear(Shift(x), Shift(y), n - 1);
    }
  }

  lemma ShiftsLow(c: bv16)
    requires c & 0xFF00 == 0
    ensures Shifts(c, 8) == c << 8
  {
    ShiftsEight(c);
  }

  /** The register after one message bit: it is added to the bit that falls out. */
  function Feed(c: bv16, bit: bv16): bv16 { (c << 1) ^ (((c >> 15) ^ bit) * POLY) }

  function FeedAll(c: bv16, bits: seq<bv16>): bv16
    decreases |bits|
  {
    if bits == [] then c else FeedAll(Feed(c, bits[0]), bits[1..])
  }

  function Head(h: bv16): bv16 { h >> 15 }

  function Up(h: bv16): bv16 { h << 1 }

  /** The n top bits of h, the highest first, and what is left of h then. */
  function TopBits(h: bv16, n: nat): (r: seq<bv16>)
    ensures |r| == n
    decreases n
  {
    if n == 0 then [] else [Head(h)] + TopBits(Up(h), n - 1)
  }

  function Ups(h: bv16, n: nat): bv16
    decreases n
  {
    if n == 0 then h else Ups(Up(h), n - 1)
  }

  lemma ShiftOfMessage(c: bv16, h: bv16, z: bv16)
    requires z == c ^ h
    ensures Shift(z) == Feed(c, h >> 15) ^ (h << 1)
  {
  }

  lemma ShiftWithMessage(c: bv16, h: bv16)
    ensures Shift(Xor(c, h)) == Xor(Feed(c, Head(h)), Up(h))
  {
    hide Shift, Feed;
    ShiftOfMessage(c, h, Xor(c, h));
  }

  /** Feeding n bits one by one is shifting n times with the bits on top of the register. */
  lemma {:induction false} FeedBits(c: bv16, h: bv16, n: nat)
    ensures Shifts(Xor(c, h), n) == Xor(FeedAll(c, TopBits(h, n)), Ups(h, n))
    decreases n
  {
    hide Xor, Shift, Feed, Head, Up;
    if n > 0 {
      ShiftWithMessage(c, h);
      FeedBits(Feed(c, Head(h)), Up(h), n - 1);
      assert TopBits(h, n)[1..] == TopBits(Up(h), n - 1);
    }
  }
}
