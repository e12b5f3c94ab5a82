/** CRC-32 (IEEE 802.3 clause 3.2.9; RFC 1952 section 8): table-driven form, bit-serial definition,
    residue over a framed message, and detection of short bursts. */
module Crc {
  import opened ByteNumbers
  import opened Bytes
  import opened Words

  const POLY: bv32 := 0xEDB88320
  const ONES: bv32 := 0xFFFFFFFF

  // ----- the definition: the message is shifted in bit by bit, lowest bit of a byte first -----

  /** One clock of the reflected shift register with message bit `bit`. */
  function ClockBit(c: Reg, bit: bool): Reg {
    Reg(ClockBitOf(c.bits, bit))
  }

  function ClockBitOf(c: bv32, bit: bool): bv32 {
    if (c & 1 == 1) != bit then (c >> 1) ^ POLY else c >> 1
  }

  /** The low `n` bits of `b`, lowest first. */
  function ClockBits(c: Reg, b: byte, n: nat): Reg
    decreases n
  {
    if n == 0 then c else ClockBits(ClockBit(c, b & 1 == 1), b >> 1, n - 1)
  }

  /** The register after a whole message. */
  function Register(c: Reg, s: bytes): Reg
    decreases s
  {
    if s == [] then c else Register(ClockBits(c, s[0], 8), s[1..])
  }

  /** CRC-32 of a byte string, as the 32-bit number that goes on the wire. */
  function Crc32(s: bytes): (v: u32) {
    NumberOf(Xor(Register(Reg(ONES), s), Reg(ONES)))
  }

  // ----- the step the code uses: a division step without a message bit -----

  function Xor(a: Reg, b: Reg): Reg {
    Reg(a.bits ^ b.bits)
  }

  /** A byte in the low eight bits. */
  function Low(b: byte): Reg {
    Reg(b as bv32)
  }

  /** Eight places up. */
  function Up(a: Reg): Reg {
    Reg(a.bits << 8)
  }

  function StepOf(c: bv32): bv32 {
    if c & 1 == 1 then POLY ^ (c >> 1) else c >> 1
  }

  function Step(c: Reg): Reg {
    Reg(StepOf(c.bits))
  }

  function Steps(c: Reg, n: nat): Reg
    decreases n
  {
    if n == 0 then c else Steps(Step(c), n - 1)
  }

  lemma XorShift(a: bv32, b: bv32)
    ensures (a ^ b) >> 1 == (a >> 1) ^ (b >> 1)
    ensures (a ^ b) & 1 == (a & 1) ^ (b & 1)
  {
  }

  lemma LowBit(a: bv32)
    ensures a & 1 == 0 || a & 1 == 1
  {
  }

  lemma XorRegroup(p: bv32, a: bv32, b: bv32)
    ensures (p ^ a) ^ b == p ^ (a ^ b)
    ensures a ^ (p ^ b) == p ^ (a ^ b)
    ensures (p ^ a) ^ (p ^ b) == a ^ b
  {
  }

  lemma {:induction false} StepOfLinear(a: bv32, b: bv32, x: bv32)
    requires x == a ^ b
    ensures Reg(StepOf(x)) == Reg(StepOf(a) ^ StepOf(b))
  {
    XorShift(a, b);
    LowBit(a);
    LowBit(b);
    XorRegroup(POLY, a >> 1, b >> 1);
  }

  lemma StepIs(a: Reg)
    ensures Step(a) == Reg(StepOf(a.bits))
  {
    hide StepOf;
  }

  lemma XorIs(a: Reg, b: Reg)
    ensures Xor(a, b).bits == a.bits ^ b.bits
  {
  }

  lemma XorOfSteps(a: Reg, b: Reg)
    ensures Xor(Step(a), Step(b)) == Reg(StepOf(a.bits) ^ StepOf(b.bits))
  {
    hide StepOf;
  }

  /** Dividing is linear over exclusive or. */
  lemma {:induction false} StepLinear(a: Reg, b: Reg)
    ensures Step(Xor(a, b)) == Xor(Step(a), Step(b))
  {
    hide Step, Xor, StepOf;
    XorOfSteps(a, b);
    StepIs(Xor(a, b));
    XorIs(a, b);
    StepOfLinear(a.bits, b.bits, Xor(a, b).bits);
  }

  lemma {:induction false} StepsLinear(a: Reg, b: Reg, n: nat)
    ensures Steps(Xor(a, b), n) == Xor(Steps(a, n), Steps(b, n))
    decreases n
  {
    hide Xor, Step;
    if n != 0 {
      StepLinear(a, b);
      StepsLinear(Step(a), Step(b), n - 1);
    }
  }

  /** A step loses nothing: the top bit of the result tells which branch was taken. */
  lemma StepInjective(a: Reg, b: Reg)
    requires Step(a) == Step(b)
    ensures a == b
  {
  }

  lemma {:induction false} StepsInjective(a: Reg, b: Reg, n: nat)
    requires Steps(a, n) == Steps(b, n)
    ensures a == b
    decreases n
  {
    hide Step;
    if n != 0 {
      StepsInjective(Step(a), Step(b), n - 1);
      StepInjective(a, b);
    }
  }

  lemma {:induction false} StepsAdd(c: Reg, m: nat, n: nat)
    ensures Steps(c, m + n) == Steps(Steps(c, m), n)
    decreases m
  {
    hide Step;
    if m != 0 {
      StepsAdd(Step(c), m - 1, n);
    }
  }

  lemma {:induction false} Steps8(c: Reg)
    ensures Steps(c, 8) == Step(Step(Step(Step(Step(Step(Step(Step(c))))))))
  {
    hide Step;
    var d := Step(Step(Step(Step(c))));
    assert Steps(c, 8) == Steps(Step(c), 7) == Steps(Step(Step(c)), 6) == Steps(Step(Step(Step(c))), 5) == Steps(d, 4);
    assert Steps(d, 4) == Steps(Step(d), 3) == Steps(Step(Step(d)), 2) == Steps(Step(Step(Step(d))), 1);
  }

  /** One place down; the bit that falls out is lost. */
  function Half(a: Reg): Reg {
    Reg(a.bits >> 1)
  }

  /** Eight places down. */
  function Down(a: Reg): Reg {
    Reg(a.bits >> 8)
  }

  predicate Even(a: Reg) {
    a.bits & 1 == 0
  }

  predicate LowByteClear(a: Reg) {
    a.bits & 0xFF == 0
  }

  lemma HalvesOfLowByteClear(h: Reg)
    requires LowByteClear(h)
    ensures Even(h) && Even(Half(h)) && Even(Half(Half(h))) && Even(Half(Half(Half(h))))
  {
  }

  lemma HalvesOfUpperNibble(h: Reg)
    requires LowByteClear(h)
    ensures var g := Half(Half(Half(Half(h))));
      Even(g) && Even(Half(g)) && Even(Half(Half(g))) && Even(Half(Half(Half(g))))
  {
  }

  lemma EightHalves(h: Reg)
    ensures Half(Half(Half(Half(Half(Half(Half(Half(h)))))))) == Down(h)
  {
  }

  lemma StepOfEven(h: Reg)
    requires Even(h)
    ensures Step(h) == Half(h)
  {
  }

  /** While only zero bits fall out, eight steps are a plain shift. */
  lemma {:induction false} StepsOfHigh(h: Reg)
    requires LowByteClear(h)
    ensures Steps(h, 8) == Down(h)
  {
    hide Step, Half, Even, Down, LowByteClear;
    HalvesOfLowByteClear(h);
    HalvesOfUpperNibble(h);
    EightHalves(h);
    StepOfEven(h);
    StepOfEven(Half(h));
    StepOfEven(Half(Half(h)));
    StepOfEven(Half(Half(Half(h))));
    var g := Half(Half(Half(Half(h))));
    StepOfEven(g);
    StepOfEven(Half(g));
    StepOfEven(Half(Half(g)));
    StepOfEven(Half(Half(Half(g))));
    Steps8(h);
  }

  lemma {:induction false} ClockIsStepBits(c: bv32, b: bv32, x: bv32)
    requires x == c ^ b
    ensures Reg(StepOf(x)) == Reg(ClockBitOf(c, b & 1 == 1) ^ (b >> 1))
  {
    XorShift(c, b);
    LowBit(c);
    LowBit(b);
    XorRegroup(POLY, c >> 1, b >> 1);
  }

  lemma LowBitOfByte(b: byte)
    ensures Low(b).bits & 1 == 1 <==> b & 1 == 1
  {
  }

  lemma XorOfClock(c: Reg, b: byte, bit: bool)
    ensures Xor(ClockBit(c, bit), Low(b >> 1)) == Reg(ClockBitOf(c.bits, bit) ^ (Low(b).bits >> 1))
  {
    hide ClockBitOf;
  }

  /** A division step after adding a byte is a clock with its low bit, the other bits still to come. */
  lemma {:induction false} ClockIsStep(c: Reg, b: byte)
    ensures Step(Xor(c, Low(b))) == Xor(ClockBit(c, b & 1 == 1), Low(b >> 1))
  {
    hide Step, Xor, Low, StepOf, ClockBit, ClockBitOf;
    StepIs(Xor(c, Low(b)));
    XorIs(c, Low(b));
    ClockIsStepBits(c.bits, Low(b).bits, Xor(c, Low(b)).bits);
    LowBitOfByte(b);
    XorOfClock(c, b, b & 1 == 1);
  }

  /** The byte that is left after `n` bits were taken. */
  function Rest(b: byte, n: nat): byte
    decreases n
  {
    if n == 0 then b else Rest(b >> 1, n - 1)
  }

  lemma {:induction false} RestOfByte(b: byte)
    ensures Rest(b, 8) == 0
  {
    var d := b >> 4;
    assert Rest(b, 8) == Rest(b >> 1, 7) == Rest((b >> 1) >> 1, 6) == Rest(((b >> 1) >> 1) >> 1, 5)
      == Rest((((b >> 1) >> 1) >> 1) >> 1, 4);
    assert (((b >> 1) >> 1) >> 1) >> 1 == d;
    assert Rest(d, 4) == Rest(d >> 1, 3) == Rest((d >> 1) >> 1, 2) == Rest(((d >> 1) >> 1) >> 1, 1);
    assert (((d >> 1) >> 1) >> 1) >> 1 == 0;
  }

  /** Feeding `n` message bits is the same as adding the byte first and then dividing `n` times. */
  lemma {:induction false} ClockBitsAreSteps(c: Reg, b: byte, n: nat)
    ensures Steps(Xor(c, Low(b)), n) == Xor(ClockBits(c, b, n), Low(Rest(b, n)))
    decreases n
  {
    hide Xor, Low, Step, ClockBit;
    if n != 0 {
      ClockIsStep(c, b);
      ClockBitsAreSteps(ClockBit(c, b & 1 == 1), b >> 1, n - 1);
    }
  }

  lemma XorZero(c: Reg)
    ensures Xor(c, Low(0)) == c
  {
  }

  lemma {:induction false} ClockByte(c: Reg, b: byte)
    ensures ClockBits(c, b, 8) == Steps(Xor(c, Low(b)), 8)
  {
    hide Xor, Low, Step, ClockBit;
    ClockBitsAreSteps(c, b, 8);
    RestOfByte(b);
    XorZero(ClockBits(c, b, 8));
  }

  // ----- the table-driven form -----

  ghost predicate IsCrcTable(table: seq<bv32>) {
    |table| == 256 && forall i :: 0 <= i < 256 ==> table[i] == Steps(Low(i as byte), 8).bits
  }

  method MakeCrcTable() returns (table: seq<bv32>)
    ensures IsCrcTable(table)
  {
    hide Steps, Low;
    var t := new bv32[256];
    for i := 0 to 256
      invariant forall j :: 0 <= j < i ==> t[j] == Steps(Low(j as byte), 8).bits
    {
      var c := TableEntry(i as byte);
      t[i] := c;
    }
    table := t[..];
  }

  method TableEntry(b: byte) returns (c: bv32)
    ensures Reg(c) == Steps(Low(b), 8)
  {
    c := b as bv32;
    for k := 0 to 8
      invariant Steps(Reg(c), 8 - k) == Steps(Low(b), 8)
    {
      ghost var before := Reg(c);
      c := if c & 1 == 1 then POLY ^ (c >> 1) else c >> 1;
      assert Reg(c) == Step(before);
    }
  }

  /** The low byte alone, and the rest alone. */
  function LowPart(x: Reg): Reg {
    Reg(x.bits & 0xFF)
  }

  function HighPart(x: Reg): Reg {
    Reg(x.bits & 0xFFFFFF00)
  }

  lemma LowPartIsByte(x: Reg)
    ensures Low((x.bits & 0xFF) as byte) == LowPart(x)
  {
  }

  lemma SplitBits(x: bv32)
    ensures (x & 0xFF) ^ (x & 0xFFFFFF00) == x
  {
  }

  lemma {:induction false} SplitByte(x: Reg)
    ensures Xor(LowPart(x), HighPart(x)) == x
  {
    SplitBits(x.bits);
  }

  lemma HighPartLow(x: Reg)
    ensures LowByteClear(HighPart(x))
  {
  }

  lemma HighPartDown(x: Reg)
    ensures Down(HighPart(x)) == Down(x)
  {
  }

  lemma ByteLeavesHighPart(c: Reg, b: byte)
    ensures Down(Xor(c, Low(b))) == Down(c)
  {
  }

  /** By linearity, one table entry plus a shift is eight division steps. */
  lemma {:induction false} TableStep(c: Reg, b: byte)
    ensures Xor(Steps(Low((Xor(c, Low(b)).bits & 0xFF) as byte), 8), Down(c)) == ClockBits(c, b, 8)
  {
    hide Xor, Low, Step, ClockBit, Down, LowPart, HighPart, LowByteClear;
    var x := Xor(c, Low(b));
    LowPartIsByte(x);
    SplitByte(x);
    HighPartLow(x);
    HighPartDown(x);
    ByteLeavesHighPart(c, b);
    StepsLinear(LowPart(x), HighPart(x), 8);
    StepsOfHigh(HighPart(x));
    ClockByte(c, b);
  }

  lemma {:induction false} RegisterAppend(c: Reg, s: bytes, t: bytes)
    ensures Register(c, s + t) == Register(Register(c, s), t)
    decreases s
  {
    hide ClockBits;
    if s == [] {
      assert s + t == t;
    } else {
      assert (s + t)[1..] == s[1..] + t;
      RegisterAppend(ClockBits(c, s[0], 8), s[1..], t);
    }
  }

  lemma RegisterByte(c: Reg, b: byte)
    ensures Register(c, [b]) == ClockBits(c, b, 8)
  {
    hide ClockBits;
  }

  /** crc32: one table lookup per byte computes the bit-serial CRC of every input. */
  method ComputeCrc32(data: bytes) returns (v: u32)
    ensures v == Crc32(data)
  {
    var table := MakeCrcTable();
    var c := ONES;
    for i := 0 to |data|
      invariant Reg(c) == Register(Reg(ONES), data[..i])
    {
      c := TableClock(table, c, data[i]);
      assert data[..i + 1] == data[..i] + [data[i]];
      RegisterAppend(Reg(ONES), data[..i], [data[i]]);
      RegisterByte(Register(Reg(ONES), data[..i]), data[i]);
    }
    assert data[..|data|] == data;
    v := NumberOf(Xor(Reg(c), Reg(ONES)));
  }

  /** One round of crc32's loop. */
  method TableClock(table: seq<bv32>, c: bv32, b: byte) returns (c': bv32)
    requires IsCrcTable(table)
    ensures Reg(c') == ClockBits(Reg(c), b, 8)
  {
    hide Steps, ClockBits, Step, ClockBit;
    var k := ((c ^ (b as bv32)) & 0xFF) as byte;
    var entry := Lookup(table, k);
    c' := entry ^ (c >> 8);
    TableStep(Reg(c), b);
    hide Xor, Low, Down;
    RoundBits(c, b, entry);
  }

  lemma RoundBits(c: bv32, b: byte, entry: bv32)
    ensures Xor(Reg(c), Low(b)).bits == c ^ (b as bv32)
    ensures Reg(entry ^ (c >> 8)) == Xor(Reg(entry), Down(Reg(c)))
  {
  }

  method Lookup(table: seq<bv32>, k: byte) returns (entry: bv32)
    requires IsCrcTable(table)
    ensures Reg(entry) == Steps(Low(k), 8)
  {
    hide Steps;
    IntOfByte(k);
    entry := table[k as int];
  }

  // ----- framing: message followed by its CRC -----

  /** A datagram whose last four bytes are the CRC of the rest. */
  predicate Framed(d: bytes) {
    |d| >= 4 && Field(d, |d| - 4, 4) == Crc32(d[..|d| - 4])
  }

  function WithCrc(s: bytes): (d: bytes)
    ensures |d| == |s| + 4
  {
    s + LePut(Crc32(s), 4)
  }

  lemma {:induction false} WithCrcIsFramed(s: bytes)
    ensures Framed(WithCrc(s)) && WithCrc(s)[..|s|] == s
  {
    hide Crc32;
    CapacityValues();
    FieldInContext(s, Crc32(s), 4, []);
    assert s + LePut(Crc32(s), 4) + [] == WithCrc(s);
  }

  /** Four message bytes as one register, the first byte lowest. */
  function Word(w: bytes): Reg
    requires |w| == 4
  {
    Xor(Xor(Xor(Low(w[0]), Up(Low(w[1]))), Up(Up(Low(w[2])))), Up(Up(Up(Low(w[3])))))
  }

  lemma BytesOfWordBits(a: byte, b: byte, c: byte, d: byte)
    ensures var v := ((a as bv32) ^ ((b as bv32) << 8) ^ (((c as bv32) << 8) << 8) ^ ((((d as bv32) << 8) << 8) << 8));
      && a == (v & 0xFF) as byte && b == ((v >> 8) & 0xFF) as byte
      && c == ((v >> 16) & 0xFF) as byte && d == ((v >> 24) & 0xFF) as byte
  {
  }

  lemma {:induction false} WordBytesOfWord(w: bytes)
    requires |w| == 4
    ensures WordBytes(Word(w)) == w
  {
    BytesOfWordBits(w[0], w[1], w[2], w[3]);
    assert w == [w[0], w[1], w[2], w[3]];
  }

  lemma WordOfWordBytesBits(v: bv32)
    ensures ((((v & 0xFF) as byte) as bv32) ^ ((((v >> 8) & 0xFF) as byte as bv32) << 8)
      ^ (((((v >> 16) & 0xFF) as byte as bv32) << 8) << 8)
      ^ ((((((v >> 24) & 0xFF) as byte as bv32) << 8) << 8) << 8)) == v
  {
  }

  lemma {:induction false} WordOfWordBytes(c: Reg)
    ensures Word(WordBytes(c)) == c
  {
    WordOfWordBytesBits(c.bits);
  }

  predicate TopByteClear(b: Reg) {
    b.bits & 0xFF00_0000 == 0
  }

  lemma TopByteClearOfUp(b: byte)
    ensures TopByteClear(Low(b)) && TopByteClear(Up(Low(b))) && TopByteClear(Up(Up(Low(b))))
  {
  }

  lemma UpDown(b: Reg)
    requires TopByteClear(b)
    ensures LowByteClear(Up(b)) && Down(Up(b)) == b
  {
  }

  /** A word added after eight steps could as well have been added, eight places higher, before them. */
  lemma {:induction false} AddEarlier(a: Reg, b: Reg)
    requires TopByteClear(b)
    ensures Xor(Steps(a, 8), b) == Steps(Xor(a, Up(b)), 8)
  {
    hide Xor, Step, Up, Down, TopByteClear, LowByteClear;
    UpDown(b);
    StepsOfHigh(Up(b));
    StepsLinear(a, Up(b), 8);
  }

  lemma XorAssoc(a: Reg, b: Reg, c: Reg)
    ensures Xor(Xor(a, b), c) == Xor(a, Xor(b, c))
  {
  }

  /** Four message bytes act as one word added to the register before 32 steps. */
  lemma {:induction false} RegisterOfWord(c: Reg, w: bytes)
    requires |w| == 4
    ensures Register(c, w) == Steps(Xor(c, Word(w)), 32)
  {
    hide Xor, Step, Low, Up, ClockBits, TopByteClear;
    var a0, a1, a2, a3 := Low(w[0]), Up(Low(w[1])), Up(Up(Low(w[2]))), Up(Up(Up(Low(w[3]))));
    var x0 := Xor(c, a0);
    var x1 := Xor(x0, a1);
    var x2 := Xor(x1, a2);
    var x3 := Xor(x2, a3);
    forall i | 0 <= i < 4 { TopByteClearOfUp(w[i]); }
    var r1 := ClockBits(c, w[0], 8);
    var r2 := ClockBits(r1, w[1], 8);
    var r3 := ClockBits(r2, w[2], 8);
    var r4 := ClockBits(r3, w[3], 8);
    assert r1 == Steps(x0, 8) by { ClockByte(c, w[0]); }
    assert r2 == Steps(x1, 16) by {
      ClockByte(r1, w[1]);
      AddEarlier(x0, Low(w[1]));
      StepsAdd(x1, 8, 8);
    }
    assert r3 == Steps(x2, 24) by {
      ClockByte(r2, w[2]);
      StepsAdd(x1, 8, 8);
      AddEarlier(Steps(x1, 8), Low(w[2]));
      AddEarlier(x1, Up(Low(w[2])));
      StepsAdd(x2, 8, 16);
      StepsAdd(Steps(x2, 8), 8, 8);
    }
    assert r4 == Steps(x3, 32) by {
      ClockByte(r3, w[3]);
      StepsAdd(x2, 8, 16);
      StepsAdd(Steps(x2, 8), 8, 8);
      AddEarlier(Steps(Steps(x2, 8), 8), Low(w[3]));
      AddEarlier(Steps(x2, 8), Up(Low(w[3])));
      AddEarlier(x2, Up(Up(Low(w[3]))));
      StepsAdd(x3, 8, 24);
      StepsAdd(Steps(x3, 8), 8, 16);
      StepsAdd(Steps(Steps(x3, 8), 8), 8, 8);
    }
    assert Register(c, w) == r4 by {
      assert w == [w[0]] + ([w[1]] + ([w[2]] + [w[3]]));
      RegisterAppend(c, [w[0]], [w[1]] + ([w[2]] + [w[3]]));
      RegisterAppend(r1, [w[1]], [w[2]] + [w[3]]);
      RegisterAppend(r2, [w[2]], [w[3]]);
      RegisterByte(c, w[0]);
      RegisterByte(r1, w[1]);
      RegisterByte(r2, w[2]);
      RegisterByte(r3, w[3]);
    }
    XorAssoc(c, a0, a1);
    XorAssoc(c, Xor(a0, a1), a2);
    XorAssoc(c, Xor(Xor(a0, a1), a2), a3);
  }

  /** The register a correctly framed datagram always ends in. */
  function Residue(): Reg {
    Steps(Reg(ONES), 32)
  }

  lemma XorOnes(c: Reg)
    ensures Xor(c, Xor(c, Reg(ONES))) == Reg(ONES)
  {
  }

  lemma {:induction false} XorCancel(c: Reg, v: Reg, w: Reg)
    requires Xor(c, v) == Xor(c, w)
    ensures v == w
  {
    XorCancelBits(c.bits, v.bits, w.bits);
  }

  lemma XorCancelBits(c: bv32, v: bv32, w: bv32)
    requires c ^ v == c ^ w
    ensures v == w
  {
  }

  lemma XorCommutes(a: Reg, b: Reg)
    ensures Xor(a, b) == Xor(b, a)
  {
  }

  /** The trailer a message needs: its register, inverted, lowest byte first. */
  lemma {:induction false} TrailerOfFramed(s: bytes, w: bytes)
    requires |w| == 4
    ensures Framed(s + w) <==> w == WordBytes(Xor(Register(Reg(ONES), s), Reg(ONES)))
  {
    hide Xor, Register, NumberOf, WordBytes;
    var d := s + w;
    assert d[..|d| - 4] == s && d[|d| - 4..|d|] == w;
    NumberIs(Xor(Register(Reg(ONES), s), Reg(ONES)), w);
  }

  /** The frame check passes exactly when the register over the whole datagram ends in the residue. */
  lemma {:induction false} FramedIffResidue(d: bytes)
    requires |d| >= 4
    ensures Framed(d) <==> Register(Reg(ONES), d) == Residue()
  {
    hide Xor, Step, Steps, Word, WordBytes, Register, Framed;
    var s, w := d[..|d| - 4], d[|d| - 4..];
    assert s + w == d;
    var c := Register(Reg(ONES), s);
    var k := Xor(c, Reg(ONES));
    TrailerOfFramed(s, w);
    RegisterAppend(Reg(ONES), s, w);
    RegisterOfWord(c, w);
    XorOnes(c);
    WordOfWordBytes(k);
    WordBytesOfWord(w);
    if Register(Reg(ONES), d) == Residue() {
      StepsInjective(Xor(c, Word(w)), Reg(ONES), 32);
      XorCancel(c, Word(w), k);
    }
  }

  /** Equal registers after the same message mean equal registers before it. */
  lemma {:induction false} RegisterInjective(c: Reg, d: Reg, s: bytes)
    requires Register(c, s) == Register(d, s)
    ensures c == d
    decreases s
  {
    hide ClockBits, Xor, Low, Step;
    if s != [] {
      RegisterInjective(ClockBits(c, s[0], 8), ClockBits(d, s[0], 8), s[1..]);
      ClockByte(c, s[0]);
      ClockByte(d, s[0]);
      var b := Low(s[0]);
      StepsInjective(Xor(c, b), Xor(d, b), 8);
      XorCommutes(c, b);
      XorCommutes(d, b);
      XorCancel(b, c, d);
    }
  }

  /** `d` and `e` differ, and only within the `k` bytes from offset `i`. */
  ghost predicate DifferOnlyIn(d: bytes, e: bytes, i: nat, k: nat) {
    && |d| == |e| && d != e && i + k <= |d|
    && d[..i] == e[..i] && d[i + k..] == e[i + k..]
  }

  lemma {:induction false} WidenWindow(d: bytes, e: bytes, i: nat, k: nat) returns (j: nat)
    requires k <= 4 <= |d| && DifferOnlyIn(d, e, i, k)
    ensures DifferOnlyIn(d, e, j, 4)
  {
    j := if i + 4 <= |d| then i else |d| - 4;
    assert d[..j] == d[..i][..j] && e[..j] == e[..i][..j];
    var m := j + 4 - (i + k);
    assert d[j + 4..] == d[i + k..][m..] && e[j + 4..] == e[i + k..][m..];
  }

  /** A framed datagram damaged within at most four consecutive bytes is never framed again. */
  lemma {:induction false} BurstDetected(d: bytes, e: bytes, i: nat, k: nat)
    requires Framed(d) && k <= 4 && DifferOnlyIn(d, e, i, k)
    ensures !Framed(e)
  {
    hide Framed, Register, Residue, Word, Xor, Steps;
    if Framed(e) {
      assert |d| >= 4 by { FramedLength(d); }
      var j := WidenWindow(d, e, i, k);
      FramedIffResidue(d);
      FramedIffResidue(e);
      var pre, post := d[..j], d[j + 4..];
      var w, x := d[j..j + 4], e[j..j + 4];
      assert d == pre + (w + post) && e == pre + (x + post);
      RegisterAppend(Reg(ONES), pre, w + post);
      RegisterAppend(Reg(ONES), pre, x + post);
      var c := Register(Reg(ONES), pre);
      RegisterAppend(c, w, post);
      RegisterAppend(c, x, post);
      RegisterInjective(Register(c, w), Register(c, x), post);
      RegisterOfWord(c, w);
      RegisterOfWord(c, x);
      StepsInjective(Xor(c, Word(w)), Xor(c, Word(x)), 32);
      XorCancel(c, Word(w), Word(x));
      WordBytesOfWord(w);
      WordBytesOfWord(x);
      assert false;
    }
  }

  lemma FramedLength(d: bytes)
    requires Framed(d)
    ensures |d| >= 4
  {
  }
}
