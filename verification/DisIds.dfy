/** DIS entity identifiers: 48-bit packing and the FNV-1a fold to 32-bit object ids. */
module DisIds {
  import opened ByteNumbers
  import opened Bytes

  /** A DIS EntityID. */
  datatype EntityId = EntityId(site: u16, app: u16, entity: u16)

  /** site, application and entity side by side in 48 bits. */
  function Pack48(id: EntityId): int {
    (id.site * 0x1_0000 + id.app) * 0x1_0000 + id.entity
  }

  function Unpack48(packed: nat): EntityId
    requires packed < 0x1_0000_0000_0000
  {
    var upper := packed / 0x1_0000;
    EntityId(upper / 0x1_0000, upper % 0x1_0000, packed % 0x1_0000)
  }

  lemma SplitBelow(upper: nat, low: u16)
    ensures (upper * 0x1_0000 + low) / 0x1_0000 == upper && (upper * 0x1_0000 + low) % 0x1_0000 == low
  {
  }

  /** Packing loses nothing. */
  lemma {:induction false} UnpackPack(id: EntityId)
    ensures 0 <= Pack48(id) < 0x1_0000_0000_0000 && Unpack48(Pack48(id)) == id
  {
    SplitBelow(id.site * 0x1_0000 + id.app, id.entity);
    SplitBelow(id.site, id.app);
  }

  const FNV_BASIS: u32 := 2166136261
  const FNV_PRIME: int := 16777619

  /** `h` with a byte exclusive-ored in; only its low eight bits can change. */
  function WithByte(h: u32, b: byte): u32 {
    256 * (h / 256) + XorNumber((h % 256) as byte, b)
  }

  function XorNumber(x: byte, b: byte): (n: nat)
    ensures n < 256
  {
    IntOfByte(x ^ b);
    (x ^ b) as int
  }

  /** Multiplication by the FNV prime in 32 bits. */
  function Times(h: u32): u32 {
    h * FNV_PRIME % TWO32
  }

  /** One round of FNV-1a. */
  function Fnv(h: u32, b: byte): u32 {
    Times(WithByte(h, b))
  }

  function FnvAll(h: u32, s: bytes): u32
    decreases s
  {
    if s == [] then h else FnvAll(Fnv(h, s[0]), s[1..])
  }

  function High(v: u16): byte {
    (v / 256) as byte
  }

  function Low(v: u16): byte {
    (v % 256) as byte
  }

  function IdBytes(id: EntityId): (b: bytes)
    ensures |b| == 6
  {
    [High(id.site), Low(id.site), High(id.app), Low(id.app), High(id.entity), Low(id.entity)]
  }

  /** The 32-bit object id of an entity. */
  function Fold(id: EntityId): u32 {
    FnvAll(FNV_BASIS, IdBytes(id))
  }

  /** foldEntityId's loop. */
  method FoldEntityId(id: EntityId) returns (v: u32)
    ensures v == Fold(id)
  {
    hide Fnv;
    var s := IdBytes(id);
    v := FNV_BASIS;
    for i := 0 to |s|
      invariant FnvAll(v, s[i..]) == FnvAll(FNV_BASIS, s)
    {
      assert s[i..][1..] == s[i + 1..];
      v := Fnv(v, s[i]);
    }
  }

  // ----- a published value -----

  lemma {:induction false} LowByte(high: nat, low: byte)
    ensures var h := 256 * high + low as int; h / 256 == high && h % 256 == low as int && (h % 256) as byte == low
  {
    IntOfByte(low);
  }

  lemma {:induction false} SwapByte(high: nat, low: byte, b: byte, x: byte)
    requires high < 0x100_0000 && low ^ b == x
    ensures 256 * high + low as int < TWO32 && WithByte(256 * high + low as int, b) == 256 * high + x as int
  {
    IntOfByte(low);
    LowByte(high, low);
  }

  lemma {:induction false} OneRound(high: nat, low: byte, b: byte, x: byte, q: nat, r: u32)
    requires high < 0x100_0000 && low ^ b == x && (256 * high + x as int) * 16777619 == q * TWO32 + r
    ensures 256 * high + low as int < TWO32 && Fnv(256 * high + low as int, b) == r
  {
    hide WithByte;
    SwapByte(high, low, b, x);
    TimesIs(256 * high + x as int, q, r);
  }

  lemma TimesIs(u: u32, q: nat, r: u32)
    requires u * 16777619 == q * TWO32 + r
    ensures Times(u) == r
  {
  }

  lemma {:induction false} FirstRounds()
    ensures Fnv(Fnv(0x811C9DC5, 0x66), 0x6F) == 0x6222E842
  {
    hide Fnv;
    OneRound(0x811C9D, 0xC5, 0x66, 0xA3, 8461672, 0xE30C2799);
    OneRound(0xE30C27, 0x99, 0x6F, 0xF6, 14880141, 0x6222E842);
  }

  lemma {:induction false} MiddleRounds()
    ensures Fnv(Fnv(0x6222E842, 0x6F), 0x62) == 0x3F5076EF
  {
    hide Fnv;
    OneRound(0x6222E8, 0x42, 0x6F, 0x2D, 6431618, 0xA9F37ED7);
    OneRound(0xA9F37E, 0xD7, 0x62, 0xB5, 11138186, 0x3F5076EF);
  }

  lemma {:induction false} LastRounds()
    ensures Fnv(Fnv(0x3F5076EF, 0x61), 0x72) == 0xBF9CF968
  {
    hide Fnv;
    OneRound(0x3F5076, 0xEF, 0x61, 0x8E, 4149466, 0x39AAA18A);
    OneRound(0x39AAA1, 0x8A, 0x72, 0xF8, 3779324, 0xBF9CF968);
  }

  lemma {:induction false} TwoBytes(v: u16, high: byte, low: byte)
    requires v == 256 * high as int + low as int
    ensures High(v) == high && Low(v) == low
  {
    assert v / 256 == high as int && v % 256 == low as int;
  }

  lemma {:induction false} FoobarBytes()
    ensures IdBytes(EntityId(0x666F, 0x6F62, 0x6172)) == [0x66, 0x6F, 0x6F, 0x62, 0x61, 0x72]
  {
    hide High, Low;
    TwoBytes(0x666F, 0x66, 0x6F);
    TwoBytes(0x6F62, 0x6F, 0x62);
    TwoBytes(0x6172, 0x61, 0x72);
  }

  /** The published FNV-1a value of "foobar", as the fold of the entity with these six bytes. */
  lemma {:induction false} FoldOfFoobar()
    ensures Fold(EntityId(0x666F, 0x6F62, 0x6172)) == 0xBF9CF968
  {
    hide Fnv, IdBytes, Fold;
    FirstRounds();
    MiddleRounds();
    LastRounds();
    FoobarBytes();
    SixRounds(EntityId(0x666F, 0x6F62, 0x6172));
  }

  lemma {:induction false} SixRounds(id: EntityId)
    ensures var s := IdBytes(id);
      Fold(id) == Fnv(Fnv(Fnv(Fnv(Fnv(Fnv(FNV_BASIS, s[0]), s[1]), s[2]), s[3]), s[4]), s[5])
  {
    hide Fnv, IdBytes;
    var s := IdBytes(id);
    ThreeRounds(FNV_BASIS, s);
    ThreeRounds(Fnv(Fnv(Fnv(FNV_BASIS, s[0]), s[1]), s[2]), s[3..]);
  }

  lemma {:induction false} ThreeRounds(h: u32, s: bytes)
    requires |s| >= 3
    ensures FnvAll(h, s) == FnvAll(Fnv(Fnv(Fnv(h, s[0]), s[1]), s[2]), s[3..])
  {
    hide Fnv;
    assert s[1..][1..] == s[2..] && s[2..][1..] == s[3..];
    assert FnvAll(h, s) == FnvAll(Fnv(h, s[0]), s[1..]);
    assert FnvAll(Fnv(h, s[0]), s[1..]) == FnvAll(Fnv(Fnv(h, s[0]), s[1]), s[2..]);
  }

  // ----- the fold is injective on the entity number -----

  lemma {:induction false} NoCommonMultiple(d: int, k: int)
    requires -TWO32 < d < TWO32 && d * FNV_PRIME == TWO32 * k
    ensures d == 0
  {
    assert FNV_PRIME * 899433627 == 1 + TWO32 * 3513497;
    assert d == TWO32 * (899433627 * k - 3513497 * d);
  }

  lemma NoCloseMultiple(d: int, e: int, k: int)
    requires -256 < d < 256 && -256 < e < 256 && d * FNV_PRIME == TWO32 * k + e
    ensures d == 0
  {
  }

  /** The quotient and remainder of a 32-bit multiplication by the prime. */
  lemma {:induction false} TimesParts(u: u32) returns (q: int)
    ensures u * FNV_PRIME == TWO32 * q + Times(u)
  {
    q := u * FNV_PRIME / TWO32;
  }

  /** The prime is odd, so it has an inverse modulo 2^32 and multiplying by it loses nothing. */
  lemma {:induction false} TimesInjective(u: u32, v: u32)
    requires Times(u) == Times(v)
    ensures u == v
  {
    hide Times;
    var q := TimesParts(u);
    var p := TimesParts(v);
    NoCommonMultiple(u - v, q - p);
  }

  lemma CloseWords(u: u32, v: u32)
    requires u / 256 == v / 256
    ensures -256 < u - v < 256
  {
  }

  /** Words that agree above the low byte stay apart there when multiplied, unless they are equal. */
  lemma {:induction false} TimesSeparates(u: u32, v: u32)
    requires u / 256 == v / 256 && Times(u) / 256 == Times(v) / 256
    ensures u == v
  {
    hide Times;
    CloseWords(u, v);
    CloseWords(Times(u), Times(v));
    var q := TimesParts(u);
    var p := TimesParts(v);
    NoCloseMultiple(u - v, Times(u) - Times(v), q - p);
  }

  lemma {:induction false} SameNumberSameByte(x: byte, y: byte)
    requires x as int == y as int
    ensures x == y
  {
    IntOfByte(x);
    IntOfByte(y);
  }

  lemma XorCancels(x: byte, b: byte, c: byte)
    requires x ^ b == x ^ c
    ensures b == c
  {
  }

  lemma {:induction false} XorNumberInjective(x: byte, b: byte, c: byte)
    requires XorNumber(x, b) == XorNumber(x, c)
    ensures b == c
  {
    SameNumberSameByte(x ^ b, x ^ c);
    XorCancels(x, b, c);
  }

  lemma WithByteParts(h: u32, b: byte)
    ensures WithByte(h, b) / 256 == h / 256 && WithByte(h, b) % 256 == XorNumber((h % 256) as byte, b)
  {
    hide XorNumber;
  }

  lemma {:induction false} WithByteInjective(h: u32, b: byte, c: byte)
    requires WithByte(h, b) == WithByte(h, c)
    ensures b == c
  {
    hide WithByte, XorNumber;
    WithByteParts(h, b);
    WithByteParts(h, c);
    XorNumberInjective((h % 256) as byte, b, c);
  }

  /** Two rounds from one state separate every two pairs of bytes. */
  lemma {:induction false} TwoRoundsInjective(h: u32, b0: byte, b1: byte, c0: byte, c1: byte)
    requires Fnv(Fnv(h, b0), b1) == Fnv(Fnv(h, c0), c1)
    ensures b0 == c0 && b1 == c1
  {
    hide WithByte, Times;
    var u, v := WithByte(h, b0), WithByte(h, c0);
    TimesInjective(WithByte(Times(u), b1), WithByte(Times(v), c1));
    WithByteParts(h, b0);
    WithByteParts(h, c0);
    WithByteParts(Times(u), b1);
    WithByteParts(Times(v), c1);
    TimesSeparates(u, v);
    WithByteInjective(h, b0, c0);
    WithByteInjective(Times(u), b1, c1);
  }

  lemma {:induction false} FnvAppend(h: u32, s: bytes, t: bytes)
    ensures FnvAll(h, s + t) == FnvAll(FnvAll(h, s), t)
    decreases s
  {
    hide Fnv;
    if s == [] {
      assert s + t == t;
    } else {
      assert (s + t)[1..] == s[1..] + t;
      FnvAppend(Fnv(h, s[0]), s[1..], t);
    }
  }

  lemma {:induction false} FnvTwo(h: u32, b: byte, c: byte)
    ensures FnvAll(h, [b, c]) == Fnv(Fnv(h, b), c)
  {
    hide Fnv;
    assert [b, c][1..] == [c];
    assert FnvAll(Fnv(h, b), [c]) == FnvAll(Fnv(Fnv(h, b), c), []);
  }

  /** The state after the site and application bytes. */
  function AfterApp(id: EntityId): u32 {
    FnvAll(FNV_BASIS, [High(id.site), Low(id.site), High(id.app), Low(id.app)])
  }

  lemma {:induction false} FoldRounds(id: EntityId)
    ensures Fold(id) == Fnv(Fnv(AfterApp(id), High(id.entity)), Low(id.entity))
  {
    hide Fnv, High, Low, FnvAll;
    var front := [High(id.site), Low(id.site), High(id.app), Low(id.app)];
    assert IdBytes(id) == front + [High(id.entity), Low(id.entity)];
    FnvAppend(FNV_BASIS, front, [High(id.entity), Low(id.entity)]);
    FnvTwo(AfterApp(id), High(id.entity), Low(id.entity));
  }

  lemma {:induction false} HighLow(v: u16)
    ensures v == 256 * (High(v) as int) + Low(v) as int
  {
    ByteOfInt(v / 256);
    ByteOfInt(v % 256);
  }

  /** Within one site and application no two entities fold to the same object id. */
  lemma {:induction false} FoldInjective(a: EntityId, b: EntityId)
    requires a.site == b.site && a.app == b.app && Fold(a) == Fold(b)
    ensures a == b
  {
    hide Fnv, FnvAll, Fold, High, Low;
    FoldRounds(a);
    FoldRounds(b);
    var h := AfterApp(a);
    TwoRoundsInjective(h, High(a.entity), Low(a.entity), High(b.entity), Low(b.entity));
    HighLow(a.entity);
    HighLow(b.entity);
  }
}
