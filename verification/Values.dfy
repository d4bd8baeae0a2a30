/** Tagged 64-bit values: value.c and the tag constants of value.h. */
module Values {

  type byte = x: nat | x < 0x100

  const TWO_32: nat := 0x1_0000_0000
  const TWO_48: nat := 0x1_0000_0000_0000
  const TWO_64: nat := 0x1_0000_0000_0000_0000
  const TAG_NIL: nat := 0xfff8
  const TAG_NONE: nat := 0xffff
  const TAG_STR: nat := 0x7ff9
  const TAG_TBL: nat := 0x7ffa
  const TAG_SSTR: nat := 0x7ffb
  const SSTR_MAX_LENGTH: nat := 5

  /** A value by what its bits denote. `None` is the mark of an empty table slot, `Tbl` refers to a
      table object by its slot in the collector's memory, `Plain` is every other bit pattern. */
  datatype Value =
    | None
    | Nil
    | Tbl(ref: nat)
    | Str(ptr: nat)
    | SStr(chars: seq<byte>)
    | Plain(bits: nat)

  function Tag(u: nat): nat { u / TWO_48 }

  function Payload(u: nat): nat { u % TWO_48 }

  /** The bytes of `s` from the least significant byte up. */
  function Pack(s: seq<byte>): (r: nat)
  {
    if s == [] then 0 else s[0] + 0x100 * Pack(s[1..])
  }

  function Pow256(n: nat): (r: nat)
    ensures r > 0
  {
    if n == 0 then 1 else 0x100 * Pow256(n - 1)
  }

  /** bv_make_sstr: the length in byte 0, the characters from byte 1, cut after five. */
  function MakeSStr(s: seq<byte>): nat
  {
    var k := if |s| > SSTR_MAX_LENGTH then s[..SSTR_MAX_LENGTH] else s;
    TAG_SSTR * TWO_48 + |k| + 0x100 * Pack(k)
  }

  /** The machine word of a value; table objects are 8 bytes each, laid out from address `base`. */
  function Encode(base: nat, v: Value): nat
  {
    match v
    case None => TAG_NONE * TWO_48
    case Nil => TAG_NIL * TWO_48
    case Tbl(r) => TAG_TBL * TWO_48 + (base + 8 * r)
    case Str(p) => TAG_STR * TWO_48 + p
    case SStr(s) => MakeSStr(s)
    case Plain(u) => u
  }

  /** What the constructors of value.c can build: pointers of at most 48 bits, at most five packed
      characters, and plain words that carry none of the other tags. */
  predicate Canonical(base: nat, v: Value)
  {
    match v
    case None => true
    case Nil => true
    case Tbl(r) => base + 8 * r < TWO_48
    case Str(p) => p < TWO_48
    case SStr(s) => |s| <= SSTR_MAX_LENGTH
    case Plain(u) => u < TWO_64 && Tag(u) !in {TAG_NIL, TAG_NONE, TAG_STR, TAG_TBL, TAG_SSTR}
  }

  lemma {:induction false} PackBound(s: seq<byte>)
    ensures Pack(s) < Pow256(|s|)
  {
    if s != [] {
      PackBound(s[1..]);
    }
  }

  lemma {:induction false} PackInjective(s: seq<byte>, t: seq<byte>)
    requires |s| == |t| && Pack(s) == Pack(t)
    ensures s == t
  {
    if s != [] {
      assert s[0] == Pack(s) % 0x100 == t[0];
      PackInjective(s[1..], t[1..]);
      assert s == [s[0]] + s[1..] && t == [t[0]] + t[1..];
    }
  }

  /** Byte i of a word, counted from the least significant one, which is the first in memory. */
  function ByteAt(u: nat, i: nat): byte
  {
    (u / Pow256(i)) % 0x100
  }

  lemma NextByte(u: nat, i: nat)
    ensures ByteAt(u, 0) == u % 0x100 && ByteAt(u, i + 1) == ByteAt(u / 0x100, i)
  {
    DivTwice(u, 0x100, Pow256(i));
  }

  lemma DivTwice(u: nat, a: nat, b: nat)
    requires a > 0 && b > 0
    ensures a * b > 0 && u / (a * b) == (u / a) / b
  {
    var t := u / a;
    DivTwiceOf(u, a, b, t, u % a, t / b, t % b);
  }

  lemma DivTwiceOf(u: nat, a: nat, b: nat, t: nat, s: nat, q: nat, r: nat)
    requires u == t * a + s && s < a && t == q * b + r && r < b
    ensures a * b > 0 && u / (a * b) == q
  {
    Expand(q, b, r, a);
    RestFits(r, b, a, s);
    QuotientUnique(u, a * b, q, r * a + s);
  }

  lemma Expand(q: nat, b: nat, r: nat, a: nat)
    ensures (q * b + r) * a == q * (a * b) + r * a
  {
  }

  lemma RestFits(r: nat, b: nat, a: nat, s: nat)
    requires r < b && s < a
    ensures r * a + s < a * b
  {
    assert (r + 1) * a <= b * a by { MulMonotone(r + 1, b, a); }
  }

  lemma MulMonotone(x: nat, y: nat, a: nat)
    requires x <= y
    ensures x * a <= y * a
  {
  }

  lemma QuotientUnique(x: nat, m: nat, q: nat, r: nat)
    requires m > 0 && r < m && x == q * m + r
    ensures x / m == q && x % m == r
  {
    ModUnique(x, m, q, r);
    MulDistributes(q, x / m, m);
    AtLeastOneMultiple(q - x / m, m);
  }

  lemma {:induction false} PackedBytes(s: seq<byte>, rest: nat, i: nat)
    requires i < |s|
    ensures ByteAt(Pack(s) + Pow256(|s|) * rest, i) == s[i]
  {
    PackStep(s, rest);
    hide ByteAt, Pack, Pow256;
    var u := Pack(s) + Pow256(|s|) * rest;
    if i == 0 {
      NextByte(u, 0);
    } else {
      NextByte(u, i - 1);
      PackedBytes(s[1..], rest, i - 1);
    }
  }

  lemma PackStep(s: seq<byte>, rest: nat)
    requires s != []
    ensures var u, above := Pack(s) + Pow256(|s|) * rest, Pack(s[1..]) + Pow256(|s| - 1) * rest;
            u == s[0] + 0x100 * above && u % 0x100 == s[0] && u / 0x100 == above
  {
    PackSum(Pack(s), s[0], Pack(s[1..]), Pow256(|s|), Pow256(|s| - 1), rest);
  }

  lemma PackSum(sum: nat, low: byte, p: nat, big: nat, q: nat, rest: nat)
    requires sum == low + 0x100 * p && big == 0x100 * q
    ensures var u, above := sum + big * rest, p + q * rest;
            u == low + 0x100 * above && u % 0x100 == low && u / 0x100 == above
  {
    Regroup(q, rest);
    ByteSplit(sum + big * rest, low, p + q * rest);
  }

  lemma Regroup(a: nat, b: nat)
    ensures (0x100 * a) * b == 0x100 * (a * b)
  {
  }

  /** A packed short string as memory: its length in byte 0, its characters in order from byte 1 on, and the tag
      above. */
  lemma SStrBytes(s: seq<byte>)
    requires |s| <= SSTR_MAX_LENGTH
    ensures ByteAt(MakeSStr(s), 0) == |s|
    ensures forall i | 0 <= i < |s| :: ByteAt(MakeSStr(s), i + 1) == s[i]
    ensures Tag(MakeSStr(s)) == TAG_SSTR
  {
    SStrLayout(s);
    hide ByteAt, Pow256, Pack, Tag;
    var u, rest := MakeSStr(s), Pow256(5 - |s|) * TAG_SSTR;
    NextByte(u, 0);
    PowersMeet(|s|);
    ByteSplit(u, |s|, Pack(s) + Pow256(|s|) * rest);
    forall i | 0 <= i < |s|
      ensures ByteAt(u, i + 1) == s[i]
    {
      NextByte(u, i);
      PackedBytes(s, rest, i);
    }
  }

  /** Of a longer one the first five characters are kept. */
  lemma SStrCut(s: seq<byte>)
    requires |s| > SSTR_MAX_LENGTH
    ensures ByteAt(MakeSStr(s), 0) == SSTR_MAX_LENGTH && Tag(MakeSStr(s)) == TAG_SSTR
    ensures forall i | 0 <= i < SSTR_MAX_LENGTH :: ByteAt(MakeSStr(s), i + 1) == s[i]
  {
    SStrBytes(s[..SSTR_MAX_LENGTH]);
  }

  lemma ByteSplit(u: nat, low: nat, high: nat)
    requires u == low + 0x100 * high && low < 0x100
    ensures u % 0x100 == low && u / 0x100 == high
  {
  }

  lemma PowersMeet(n: nat)
    requires n <= 5
    ensures 0x100 * (Pow256(n) * (Pow256(5 - n) * TAG_SSTR)) == TAG_SSTR * TWO_48
  {
    assert Pow256(1) == 0x100 && Pow256(2) == 0x1_0000 && Pow256(3) == 0x100_0000;
    assert Pow256(4) == 0x1_0000_0000 && Pow256(5) == 0x100_0000_0000;
  }

  lemma SStrLayout(s: seq<byte>)
    requires |s| <= SSTR_MAX_LENGTH
    ensures Tag(MakeSStr(s)) == TAG_SSTR
    ensures Payload(MakeSStr(s)) == |s| + 0x100 * Pack(s)
    ensures Payload(MakeSStr(s)) % 0x100 == |s|
  {
    PackBound(s);
    assert Pow256(1) == 0x100 * Pow256(0) && Pow256(2) == 0x100 * Pow256(1) && Pow256(3) == 0x100 * Pow256(2);
    assert Pow256(4) == 0x100 * Pow256(3) && Pow256(5) == 0x100 * Pow256(4);
    assert |s| + 0x100 * Pack(s) < TWO_48;
  }

  /** Tags separate the kinds of value, and a word determines its value: what `a.u == b.u` compares
      is equality of values, and bv_is_tbl, bv_is_nil and bv_get_tbl read back what bv_make_tbl
      and its siblings wrote. */
  lemma EncodeFaithful(base: nat, v: Value, w: Value)
    requires Canonical(base, v) && Canonical(base, w)
    ensures Encode(base, v) < TWO_64
    ensures Tag(Encode(base, v)) == TAG_TBL <==> v.Tbl?
    ensures v.Tbl? ==> Payload(Encode(base, v)) == base + 8 * v.ref
    ensures v.Str? ==> Tag(Encode(base, v)) == TAG_STR && Payload(Encode(base, v)) == v.ptr
    ensures v.SStr? ==> ByteAt(Encode(base, v), 0) == |v.chars|
    ensures v.SStr? ==> forall i | 0 <= i < |v.chars| :: ByteAt(Encode(base, v), i + 1) == v.chars[i]
    ensures v.Plain? ==> Encode(base, v) == v.bits
    ensures Encode(base, v) == TAG_NIL * TWO_48 <==> v == Nil
    ensures Encode(base, v) == TAG_NONE * TWO_48 <==> v == None
    ensures Encode(base, v) == Encode(base, w) <==> v == w
  {
    hide ByteAt;
    EncodeTag(base, v);
    EncodeTag(base, w);
    if v.SStr? { SStrBytes(v.chars); }
    if Encode(base, v) == Encode(base, w) && v.SStr? {
      PackInjective(v.chars, w.chars);
    }
  }

  /** The pattern of a double that is no number: all exponent bits, and some bit below them. */
  predicate IsNaN(u: nat)
  {
    (u / 0x10_0000_0000_0000) % 0x800 == 0x7ff && u % 0x10_0000_0000_0000 != 0
  }

  /** Every tagged word is a NaN, so no number is ever taken for one. */
  lemma TaggedIsNaN(base: nat, v: Value)
    requires Canonical(base, v) && !v.Plain?
    ensures IsNaN(Encode(base, v))
  {
    EncodeTag(base, v);
    var u := Encode(base, v);
    assert u == Tag(u) * TWO_48 + Payload(u);
    assert u / 0x10_0000_0000_0000 == Tag(u) / 16;
  }

  lemma EncodeTag(base: nat, v: Value)
    requires Canonical(base, v)
    ensures Encode(base, v) < TWO_64
    ensures v.None? ==> Tag(Encode(base, v)) == TAG_NONE
    ensures v.Nil? ==> Tag(Encode(base, v)) == TAG_NIL
    ensures v.Tbl? ==> Tag(Encode(base, v)) == TAG_TBL && Payload(Encode(base, v)) == base + 8 * v.ref
    ensures v.Str? ==> Tag(Encode(base, v)) == TAG_STR && Payload(Encode(base, v)) == v.ptr
    ensures v.SStr? ==> Tag(Encode(base, v)) == TAG_SSTR
    ensures v.SStr? ==> Payload(Encode(base, v)) == |v.chars| + 0x100 * Pack(v.chars)
    ensures v.SStr? ==> Payload(Encode(base, v)) % 0x100 == |v.chars|
    ensures v.Plain? ==> Tag(Encode(base, v)) !in {TAG_NIL, TAG_NONE, TAG_STR, TAG_TBL, TAG_SSTR}
  {
    if v.SStr? {
      SStrLayout(v.chars);
    }
  }

  /** Bitwise operators on naturals, bit by bit. */
  function BitAnd(a: nat, b: nat): (r: nat)
    ensures r <= b
  {
    if a == 0 || b == 0 then 0 else (a % 2) * (b % 2) + 2 * BitAnd(a / 2, b / 2)
  }

  function BitXor(a: nat, b: nat): nat
    decreases a + b
  {
    if a == 0 && b == 0 then 0 else (a + b) % 2 + 2 * BitXor(a / 2, b / 2)
  }

  /** rhhm_bb_hash of a word that is not a table: `v.u ^ (v.u >> 32)`, cut to 32 bits. */
  function FoldHash(u: nat): (r: nat)
    ensures r < TWO_32
  {
    BitXor(u, u / TWO_32) % TWO_32
  }

  function Bit(u: int, k: nat): int
    decreases k
  {
    if k == 0 then u % 2 else Bit(u / 2, k - 1)
  }

  lemma {:induction false} XorBit(a: nat, b: nat, k: nat)
    ensures Bit(BitXor(a, b), k) == (Bit(a, k) + Bit(b, k)) % 2
  {
    XorStep(a, b);
    hide BitXor;
    if k > 0 { XorBit(a / 2, b / 2, k - 1); }
  }

  lemma XorStep(a: nat, b: nat)
    ensures BitXor(a, b) % 2 == (a + b) % 2 && BitXor(a, b) / 2 == BitXor(a / 2, b / 2)
  {
    var high := BitXor(a / 2, b / 2);
    assert BitXor(a, b) == (a + b) % 2 + 2 * high;
    hide BitXor;
    HalfSplit(BitXor(a, b), (a + b) % 2, high);
  }

  lemma HalfSplit(u: int, low: int, high: int)
    requires u == low + 2 * high && 0 <= low < 2
    ensures u % 2 == low && u / 2 == high
  {
  }

  lemma {:induction false} ShiftedBit(u: nat, m: nat, k: nat)
    ensures Bit(u / Pow2(m), k) == Bit(u, k + m)
  {
    if m > 0 {
      DivTwice(u, 2, Pow2(m - 1));
      ShiftedBit(u / 2, m - 1, k);
    }
  }

  lemma {:induction false} CutBit(u: nat, m: nat, k: nat)
    requires k < m
    ensures Bit(u % Pow2(m), k) == Bit(u, k)
  {
    HalveMod(u, Pow2(m - 1));
    if k > 0 { CutBit(u / 2, m - 1, k - 1); }
  }

  lemma PowersOfHalf()
    ensures Pow2(32) == TWO_32
  {
    assert Pow2(8) == 0x100 && Pow2(16) == 0x100 * Pow2(8);
    assert Pow2(24) == 0x100 * Pow2(16) && Pow2(32) == 0x100 * Pow2(24);
  }

  /** The hash of a word that is not a table: bit k of the lower half against bit k of the upper half. */
  lemma FoldHashBits(u: nat, k: nat)
    requires k < 32
    ensures Bit(FoldHash(u), k) == if Bit(u, k) == Bit(u, k + 32) then 0 else 1
  {
    PowersOfHalf();
    CutBit(BitXor(u, u / TWO_32), 32, k);
    XorBit(u, u / TWO_32, k);
    ShiftedBit(u, 32, k);
    BitIsBit(u, k);
    BitIsBit(u, k + 32);
  }

  lemma {:induction false} BitIsBit(u: nat, k: nat)
    ensures 0 <= Bit(u, k) < 2
  {
    if k > 0 { BitIsBit(u / 2, k - 1); }
  }

  function Pow2(n: nat): (r: nat)
    ensures r > 0
  {
    if n == 0 then 1 else 2 * Pow2(n - 1)
  }

  /** `x & (cap - 1)` is `x % cap` for the power-of-two capacities of rhhm_init. */
  lemma {:induction false} MaskIsMod(x: nat, k: nat)
    ensures BitAnd(x, Pow2(k) - 1) == x % Pow2(k)
  {
    hide BitAnd;
    if x == 0 {
      AndZero(Pow2(k) - 1);
      ModUnique(0, Pow2(k), 0, 0);
    } else if k == 0 {
      AndZero(x);
    } else {
      var m := Pow2(k - 1);
      assert Pow2(k) == 2 * m;
      MaskIsMod(x / 2, k - 1);
      hide Pow2;
      MaskHalves(x, m);
      HalveMod(x, m);
    }
  }

  lemma AndZero(x: nat)
    ensures BitAnd(0, x) == 0 && BitAnd(x, 0) == 0
  {
  }

  lemma MaskHalves(x: nat, m: nat)
    requires m > 0 && x > 0
    ensures BitAnd(x, 2 * m - 1) == x % 2 + 2 * BitAnd(x / 2, m - 1)
  {
    assert (2 * m - 1) / 2 == m - 1 && (2 * m - 1) % 2 == 1;
  }

  lemma HalveMod(x: nat, m: nat)
    requires m > 0
    ensures x % (2 * m) == x % 2 + 2 * ((x / 2) % m)
  {
    var q := (x / 2) / m;
    var r := (x / 2) % m;
    assert x / 2 == q * m + r;
    assert x == 2 * (q * m + r) + x % 2;
    assert 2 * (q * m) == q * (2 * m);
    assert x == q * (2 * m) + (2 * r + x % 2);
    ModUnique(x, 2 * m, q, 2 * r + x % 2);
  }

  lemma ModUnique(x: nat, m: nat, q: nat, r: nat)
    requires m > 0 && r < m && x == q * m + r
    ensures x % m == r
  {
    MulDistributes(q, x / m, m);
    AtLeastOneMultiple(q - x / m, m);
  }

  lemma MulDistributes(a: int, b: int, m: int)
    ensures (a - b) * m == a * m - b * m
  {
  }

  lemma AtLeastOneMultiple(d: int, m: int)
    requires m > 0
    ensures d > 0 ==> d * m >= m
    ensures d < 0 ==> d * m <= -m
  {
  }
}
