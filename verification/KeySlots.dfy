/** The hash slot of a key, and which keys share one. */
module KeySlots {
  import opened CrcRegister
  import opened Crc

  type Key = seq<byte>

  const OPEN: byte := 0x7B    // {
  const CLOSE: byte := 0x7D   // }
  const COLON: byte := 0x3A
  const STAR: byte := 0x2A
  const SLOTS: nat := 16384

  /** Position of the first c at or after from, or the length when there is none. */
  function Scan(key: Key, c: byte, from: nat): (p: nat)
    requires from <= |key|
    ensures from <= p <= |key| && (p < |key| ==> key[p] == c)
    ensures forall i :: from <= i < p ==> key[i] != c
    decreases |key| - from
  {
    if from == |key| || key[from] == c then from else Scan(key, c, from + 1)
  }

  /** The key holds a closed, non-empty tag between its first brace and the next closing one. */
  predicate HasTag(key: Key) {
    var s := Scan(key, OPEN, 0);
    s < |key| && s + 1 < Scan(key, CLOSE, s + 1) < |key|
  }

  /** The part of the key that is hashed. */
  function HashTag(key: Key): Key {
    var s := Scan(key, OPEN, 0);
    if HasTag(key) then key[s + 1..Scan(key, CLOSE, s + 1)] else key
  }

  function Low14(crc: bv16): bv16 { crc & 0x3FFF }

  function Slot14(crc: bv16): nat { Low14(crc) as nat }

  function SlotByKey(key: Key): (slot: nat)
    ensures slot < SLOTS
  {
    assert Crc16(HashTag(key)) & 0x3FFF < 0x4000;
    Slot14(Crc16(HashTag(key)))
  }

  // ----- what is hashed

  /** A key with a closed, non-empty tag behind its first brace. */
  predicate TaggedAs(key: Key, pre: Key, tag: Key, post: Key) {
    key == pre + [0x7B] + tag + [0x7D] + post && 0x7B !in pre && tag != [] && 0x7D !in tag
  }

  lemma {:induction false} ScanIs(key: Key, c: byte, from: nat, p: nat)
    requires from <= p <= |key| && (p < |key| ==> key[p] == c) && forall i :: from <= i < p ==> key[i] != c
    ensures Scan(key, c, from) == p
    decreases |key| - from
  {
    if from < p { ScanIs(key, c, from + 1, p); }
  }

  lemma TagIsHashed(key: Key, pre: Key, tag: Key, post: Key)
    requires TaggedAs(key, pre, tag, post)
    ensures HashTag(key) == tag && HasTag(key)
  {
    var s, e := |pre|, |pre| + 1 + |tag|;
    assert key[s] == OPEN && key[e] == CLOSE && key[s + 1..e] == tag;
    assert forall i :: 0 <= i < s ==> key[i] == pre[i];
    assert forall i :: s + 1 <= i < e ==> key[i] == tag[i - s - 1];
    ScanIs(key, OPEN, 0, s);
    ScanIs(key, CLOSE, s + 1, e);
    hide Scan;
  }

  lemma TagIsFound(key: Key) returns (pre: Key, tag: Key, post: Key)
    requires HasTag(key)
    ensures TaggedAs(key, pre, tag, post)
  {
    hide Scan;
    var s := Scan(key, OPEN, 0);
    var e := Scan(key, CLOSE, s + 1);
    pre, tag, post := key[..s], key[s + 1..e], key[e + 1..];
    assert key == key[..s] + [key[s]] + key[s + 1..e] + [key[e]] + key[e + 1..];
  }

  /** The slot is that of the bits between the first brace and the next closing one. */
  lemma SlotOfTag(key: Key, pre: Key, tag: Key, post: Key)
    requires TaggedAs(key, pre, tag, post)
    ensures SlotByKey(key) == (FeedAll(0, BitsOf(tag)) & 0x3FFF) as nat
  {
    TagIsHashed(key, pre, tag, post);
    ChecksumDivides(tag);
    hide Crc16, HashTag, FeedAll;
  }

  /** Without such a tag it is that of the whole key. */
  lemma SlotOfWhole(key: Key)
    requires forall pre, tag, post :: !TaggedAs(key, pre, tag, post)
    ensures SlotByKey(key) == (FeedAll(0, BitsOf(key)) & 0x3FFF) as nat
  {
    ChecksumDivides(key);
    hide Crc16, FeedAll;
    if HasTag(key) {
      var pre, tag, post := TagIsFound(key);
      assert false;
    }
  }

  method ComputeSlot(key: Key) returns (slot: nat)
    ensures slot == SlotByKey(key) && slot < SLOTS
    ensures forall pre, tag, post | TaggedAs(key, pre, tag, post) :: slot == (FeedAll(0, BitsOf(tag)) & 0x3FFF) as nat
    ensures (forall pre, tag, post :: !TaggedAs(key, pre, tag, post)) ==> slot == (FeedAll(0, BitsOf(key)) & 0x3FFF) as nat
  {
    SlotIsRemainder(key);
    slot := ScanAndHash(key);
  }

  lemma SlotIsRemainder(key: Key)
    ensures forall pre, tag, post | TaggedAs(key, pre, tag, post) ::
              SlotByKey(key) == (FeedAll(0, BitsOf(tag)) & 0x3FFF) as nat
    ensures (forall pre, tag, post :: !TaggedAs(key, pre, tag, post)) ==>
              SlotByKey(key) == (FeedAll(0, BitsOf(key)) & 0x3FFF) as nat
  {
    hide SlotByKey;
    forall pre, tag, post | TaggedAs(key, pre, tag, post)
      ensures SlotByKey(key) == (FeedAll(0, BitsOf(tag)) & 0x3FFF) as nat
    {
      SlotOfTag(key, pre, tag, post);
    }
    if forall pre, tag, post :: !TaggedAs(key, pre, tag, post) { SlotOfWhole(key); }
  }

  /** The loops of SlotByKey. */
  method ScanAndHash(key: Key) returns (slot: nat)
    ensures slot == SlotByKey(key)
  {
    var crc: bv16;
    var s := 0;
    while s < |key| && key[s] != OPEN
      invariant 0 <= s <= |key| && Scan(key, OPEN, s) == Scan(key, OPEN, 0)
    {
      s := s + 1;
    }
    if s == |key| {
      crc := ComputeCrc16(key);
      return Slot14(crc);
    }
    var e := s + 1;
    while e < |key| && key[e] != CLOSE
      invariant s + 1 <= e <= |key| && Scan(key, CLOSE, e) == Scan(key, CLOSE, s + 1)
    {
      e := e + 1;
    }
    if e == |key| || e == s + 1 {
      crc := ComputeCrc16(key);
      return Slot14(crc);
    }
    crc := ComputeCrc16(key[s + 1..e]);
    return Slot14(crc);
  }

  lemma UserChecksum()
    ensures Crc16([0x75, 0x73, 0x65, 0x72]) == 0xD562
  {
    assert Step(0, 0x75) == 0x2E32 && Step(0x2E32, 0x73) == 0xB958;
    assert Step(0xB958, 0x65) == 0x52F1 && Step(0x52F1, 0x72) == 0xD562;
    hide Step;
    StepsTo(0x52F1, 0x72, []);
    StepsTo(0xB958, 0x65, [0x72]);
    StepsTo(0x2E32, 0x73, [0x65, 0x72]);
    StepsTo(0, 0x75, [0x73, 0x65, 0x72]);
  }

  /** A known slot: that of {user}:1. */
  lemma UserSlot()
    ensures SlotByKey([0x7B, 0x75, 0x73, 0x65, 0x72, 0x7D, 0x3A, 0x31]) == 5474
  {
    var key: Key := [0x7B, 0x75, 0x73, 0x65, 0x72, 0x7D, 0x3A, 0x31];
    var tag: Key := [0x75, 0x73, 0x65, 0x72];
    TagIsHashed(key, [], tag, [0x3A, 0x31]);
    UserChecksum();
    hide Crc16, HashTag;
    assert (0xD562 as bv16) & 0x3FFF == 0x1562;
  }

  // ----- which keys share a slot

  lemma {:induction false} ScanPrefix(a: Key, b: Key, c: byte, from: nat)
    requires from <= |a|
    ensures Scan(a, c, from) < |a| ==> Scan(a + b, c, from) == Scan(a, c, from)
    ensures Scan(a, c, from) == |a| && c !in b ==> Scan(a + b, c, from) == |a + b|
    decreases |a| - from
  {
    if from < |a| && a[from] != c {
      ScanPrefix(a, b, c, from + 1);
    }
  }

  lemma TagOfPrefix(a: Key, b: Key)
    requires HasTag(a)
    ensures HasTag(a + b) && HashTag(a + b) == HashTag(a)
  {
    var s := Scan(a, OPEN, 0);
    ScanPrefix(a, b, OPEN, 0);
    ScanPrefix(a, b, CLOSE, s + 1);
    var e := Scan(a, CLOSE, s + 1);
    assert (a + b)[s + 1..e] == a[s + 1..e];
  }

  lemma NoTagWithout(a: Key, b: Key)
    requires !HasTag(a) && OPEN !in b && CLOSE !in b
    ensures !HasTag(a + b)
  {
    var s := Scan(a, OPEN, 0);
    ScanPrefix(a, b, OPEN, 0);
    if s < |a| { ScanPrefix(a, b, CLOSE, s + 1); }
  }

  lemma TableOfXor(x: byte, y: byte)
    ensures Table(Xor8(x, y)) == Xor(Table(x), Table(y))
  {
    hide Table, Shift, Shift8, Shifts, High, Xor, Xor8;
    TableIsShift8(x);
    TableIsShift8(y);
    TableIsShift8(Xor8(x, y));
    ShiftsEight(High(x));
    ShiftsEight(High(y));
    ShiftsEight(High(Xor8(x, y)));
    ShiftsLinear(High(x), High(y), 8);
    HighOfXor(x, y);
  }

  lemma HighOfXor(x: byte, y: byte)
    ensures High(Xor8(x, y)) == Xor(High(x), High(y))
  {
  }

  /** No table entry but the first is a multiple of 2^14. */
  lemma TableSeesSlot(b: byte)
    requires b != 0
    ensures Slot14(Table(b)) != 0
  {
    var r, k := (b >> 4) as nat, (b & 15) as nat;
    assert r < 16 && k < 16;
    assert Table(b) & 0x3FFF != 0;
  }

  lemma XorLow14(u: bv16, t: bv16, v: bv16)
    ensures Low14(Xor(u, t)) == Low14(Xor(u, v)) ==> Low14(Xor(t, v)) == 0
  {
  }

  lemma NumberIsInjective(x: bv16, y: bv16)
    ensures x as nat == y as nat <==> x == y
  {
    assert x as nat == y as nat ==> (x as nat) as bv16 == (y as nat) as bv16;
  }

  lemma SlotIsLow14(x: bv16, y: bv16)
    ensures Slot14(x) == Slot14(y) <==> Low14(x) == Low14(y)
  {
    hide Low14;
    NumberIsInjective(Low14(x), Low14(y));
  }

  lemma ZeroSlot()
    ensures Slot14(0) == 0 && Low14(0) == 0
  {
  }

  lemma SameSlotBits(u: bv16, t: bv16, v: bv16)
    ensures Slot14(Xor(u, t)) == Slot14(Xor(u, v)) ==> Slot14(Xor(t, v)) == 0
  {
    hide Xor, Low14, Slot14;
    XorLow14(u, t, v);
    SlotIsLow14(Xor(u, t), Xor(u, v));
    SlotIsLow14(Xor(t, v), 0);
    ZeroSlot();
  }

  lemma XorDiffers(h: byte, a: byte, b: byte)
    requires a != b
    ensures Xor8(Xor8(h, a), Xor8(h, b)) != 0
  {
  }

  lemma StepDiffers(c: bv16, a: byte, b: byte)
    requires a != b
    ensures Slot14(Step(c, a)) != Slot14(Step(c, b))
  {
    hide Table, Hi, Xor8, Xor, Slot14;
    var x, y := Xor8(Hi(c), a), Xor8(Hi(c), b);
    XorDiffers(Hi(c), a, b);
    TableOfXor(x, y);
    TableSeesSlot(Xor8(x, y));
    SameSlotBits(c << 8, Table(x), Table(y));
  }

  /** Keys hashed whole that differ in their last byte only never share a slot. */
  lemma LastByteCounts(t: Key, a: byte, b: byte)
    requires a != b
    ensures Slot14(Crc16(t + [a])) != Slot14(Crc16(t + [b]))
  {
    hide Step, Slot14;
    CrcAppend(0, t, [a]);
    CrcAppend(0, t, [b]);
    OneByte(Crc16(t), a);
    OneByte(Crc16(t), b);
    StepDiffers(Crc16(t), a, b);
  }

  lemma OneByte(c: bv16, a: byte)
    ensures CrcFrom(c, [a]) == Step(c, a)
  {
    hide Step;
    assert [a][1..] == [];
  }

  function KeyOf(title: Key, id: Key): Key { title + [COLON] + id }

  lemma TaggedKey(title: Key, rest: Key)
    requires HasTag(title)
    ensures SlotByKey(title + rest) == SlotByKey(title)
  {
    TagOfPrefix(title, rest);
  }

  lemma UntaggedKey(title: Key, b: byte)
    requires !HasTag(title) && b != OPEN && b != CLOSE
    ensures SlotByKey(KeyOf(title, [b])) == Slot14(Crc16(title + [COLON] + [b]))
  {
    assert title + [COLON] + [b] == title + ([COLON] + [b]);
    NoTagWithout(title, [COLON] + [b]);
  }

  const LETTER: byte := 0x78

  lemma UntaggedSplits(title: Key)
    requires !HasTag(title)
    ensures SlotByKey(KeyOf(title, [LETTER])) != SlotByKey(KeyOf(title, [STAR]))
  {
    hide SlotByKey, HasTag, Crc16, Slot14, KeyOf;
    UntaggedKey(title, STAR);
    UntaggedKey(title, LETTER);
    LastByteCounts(title + [COLON], STAR, LETTER);
  }

  /** All keys of a title lie in the slot of its list pattern exactly when the title carries a tag. */
  lemma TitleSharesSlotIff(title: Key)
    ensures (forall id :: SlotByKey(KeyOf(title, id)) == SlotByKey(KeyOf(title, [STAR]))) <==> HasTag(title)
  {
    hide SlotByKey, HasTag;
    if HasTag(title) {
      forall id ensures SlotByKey(KeyOf(title, id)) == SlotByKey(title) {
        assert KeyOf(title, id) == title + ([COLON] + id);
        TaggedKey(title, [COLON] + id);
      }
    } else {
      UntaggedSplits(title);
    }
  }
}
