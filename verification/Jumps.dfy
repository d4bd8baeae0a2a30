/** Jump emission and backpatching of cc.c over a byte buffer: after the forward jumps are filled in,
    every jump reaches the recorded address of its target. */
module Jumps {
  import opened Values

  const TWO_31: int := 0x8000_0000

  /** The four little-endian bytes of a 32-bit integer. */
  function I32Bytes(x: int): (r: seq<byte>)
    requires -TWO_31 <= x < TWO_31
    ensures |r| == 4
  {
    var u := if x < 0 then x + 0x1_0000_0000 else x;
    [u % 0x100, (u / 0x100) % 0x100, (u / 0x1_0000) % 0x100, u / 0x100_0000]
  }

  function I32Of(b: seq<byte>): int
    requires |b| == 4
  {
    var b0: int, b1: int, b2: int, b3: int := b[0], b[1], b[2], b[3];
    var u := b0 + 0x100 * b1 + 0x1_0000 * b2 + 0x100_0000 * b3;
    if u < TWO_31 then u else u - 0x1_0000_0000
  }

  lemma I32RoundTrip(x: int)
    requires -TWO_31 <= x < TWO_31
    ensures I32Of(I32Bytes(x)) == x
  {
    var u := if x < 0 then x + 0x1_0000_0000 else x;
    assert u / 0x100 == (u / 0x1_0000) * 0x100 + (u / 0x100) % 0x100;
    assert u / 0x1_0000 == (u / 0x100_0000) * 0x100 + (u / 0x1_0000) % 0x100;
  }

  /** Assigning a pointer difference to an i32 keeps its low 32 bits. */
  function Cut32(x: int): (r: int)
    ensures -TWO_31 <= r < TWO_31
    ensures -TWO_31 <= x < TWO_31 ==> r == x
  {
    (x + TWO_31) % 0x1_0000_0000 - TWO_31
  }

  datatype Kind = Always | IfZero | IfNotZero

  // --- the instruction set ------------------------------------------------------------------

  /** A 32-bit displacement as the processor reads it from offset p: least significant byte first, in two's
      complement. */
  function Displacement(code: seq<byte>, p: nat): int
    requires p + 4 <= |code|
  {
    var b0: int, b1: int, b2: int, b3: int := code[p], code[p + 1], code[p + 2], code[p + 3];
    b0 + 256 * b1 + 65536 * b2 + 16777216 * (if b3 < 128 then b3 else b3 - 256)
  }

  /** Where the processor goes on after the jump at offset p, given the zero flag: E9 always jumps, 0F 84 when the
      flag is set, 0F 85 when it is not. -1 for anything else. */
  function Follow(code: seq<byte>, p: nat, zero: bool): int
  {
    if p + 5 <= |code| && code[p] == 0xe9 then p + 5 + Displacement(code, p + 1)
    else if p + 6 <= |code| && code[p] == 0x0f && (code[p + 1] == 0x84 || code[p + 1] == 0x85) then
      if (code[p + 1] == 0x84) == zero then p + 6 + Displacement(code, p + 2) else p + 6
    else -1
  }

  /** Is a jump of this kind taken under the zero flag? */
  predicate Takes(k: Kind, zero: bool)
  {
    match k
    case Always => true
    case IfZero => zero
    case IfNotZero => !zero
  }

  lemma DisplacementIs(code: seq<byte>, p: nat)
    requires p + 4 <= |code|
    ensures Displacement(code, p) == I32Of(code[p..p + 4])
  {
  }

  // --- emission -----------------------------------------------------------------------------

  function Opcode(k: Kind): (r: seq<byte>)
    ensures 1 <= |r| <= 2
  {
    match k
    case Always => [0xe9]
    case IfZero => [0x0f, 0x84]
    case IfNotZero => [0x0f, 0x85]
  }

  /** A jump in the buffer: the offset just past it, and the operation it should reach. */
  datatype Site = Site(end: nat, target: nat)

  predicate Far(a: Site, b: Site) { a.end + 5 <= b.end || b.end + 5 <= a.end }

  predicate In(code: seq<byte>, s: Site) { 4 <= s.end <= |code| }

  function Rel(code: seq<byte>, s: Site): int
    requires In(code, s)
  {
    I32Of(code[s.end - 4..s.end])
  }

  /** The displacement leads from just past the jump to the target's address. */
  predicate Reaches(code: seq<byte>, addr: seq<int>, s: Site)
  {
    In(code, s) && s.target < |addr| && Rel(code, s) + s.end == addr[s.target]
  }

  /** A forward jump not filled in yet holds its target's index. */
  predicate Pending(code: seq<byte>, s: Site)
  {
    In(code, s) && Rel(code, s) == s.target
  }

  /** Overwrite the four bytes before offset e. */
  function Patch(code: seq<byte>, e: nat, x: int): (r: seq<byte>)
    requires 4 <= e <= |code| && -TWO_31 <= x < TWO_31
    ensures |r| == |code|
  {
    code[..e - 4] + I32Bytes(x) + code[e..]
  }

  lemma PatchSets(code: seq<byte>, s: Site, x: int)
    requires In(code, s) && -TWO_31 <= x < TWO_31
    ensures Rel(Patch(code, s.end, x), s) == x
  {
    assert Patch(code, s.end, x)[s.end - 4..s.end] == I32Bytes(x);
    I32RoundTrip(x);
  }

  lemma PatchSpares(code: seq<byte>, s: Site, t: Site, x: int)
    requires In(code, s) && In(code, t) && Far(s, t) && -TWO_31 <= x < TWO_31
    ensures Rel(Patch(code, s.end, x), t) == Rel(code, t)
  {
    assert Patch(code, s.end, x)[t.end - 4..t.end] == code[t.end - 4..t.end];
  }

  lemma AppendSpares(code: seq<byte>, more: seq<byte>, s: Site)
    requires In(code, s)
    ensures In(code + more, s) && Rel(code + more, s) == Rel(code, s)
  {
    assert (code + more)[s.end - 4..s.end] == code[s.end - 4..s.end];
  }

  /** A processor that comes to the jump of operation k goes on at the address of its target when the kind of the
      jump says so, and at that of the next operation otherwise. */
  ghost predicate Obeys(code: seq<byte>, addr: seq<int>, items: seq<Item>, end: nat, k: nat)
    requires k < end <= |items| && |items| < |addr|
  {
    items[k].jump ==>
      && 0 <= addr[k] && items[k].target < |addr|
      && forall zero :: Follow(code, addr[k] + |items[k].pre|, zero) ==
           if Takes(items[k].kind, zero) then addr[items[k].target]
           else if k + 1 < end then addr[k + 1] else addr[|items|]
  }

  /** The emitted opcodes are those that the processor takes for jumps of their kinds. */
  lemma FollowKind(code: seq<byte>, p: nat, k: Kind, zero: bool)
    requires p + |Opcode(k)| + 4 <= |code| && code[p..p + |Opcode(k)|] == Opcode(k)
    ensures var next := p + |Opcode(k)| + 4;
            Follow(code, p, zero) == if Takes(k, zero) then next + I32Of(code[next - 4..next]) else next
  {
    hide I32Of, Displacement;
    var op := code[p..p + |Opcode(k)|];
    assert op[0] == code[p] && (|op| > 1 ==> op[1] == code[p + 1]);
    DisplacementIs(code, p + |Opcode(k)|);
  }

  lemma LinkedObeys(code: seq<byte>, addr: seq<int>, items: seq<Item>, end: nat, k: nat)
    requires k < end <= |items| && |items| < |addr| && LinkedAt(code, addr, items, end, k)
    ensures Obeys(code, addr, items, end, k)
  {
    hide I32Of, Follow, Opcode, Takes;
    if items[k].jump {
      var a, n := addr[k], |items[k].pre|;
      var opcode := Opcode(items[k].kind);
      ReachesIs(code, addr, a + n + |opcode| + 4, items[k].target);
      hide LinkedAt, Reaches, Rel;
      LeadEnds(code, a, items[k].pre, opcode);
      forall zero
        ensures Follow(code, a + n, zero) == if Takes(items[k].kind, zero) then addr[items[k].target]
            else a + n + |opcode| + 4
      {
        FollowKind(code, a + n, items[k].kind, zero);
      }
    }
  }

  lemma ReachesIs(code: seq<byte>, addr: seq<int>, end: nat, target: nat)
    requires Reaches(code, addr, Site(end, target))
    ensures 4 <= end <= |code| && target < |addr| && I32Of(code[end - 4..end]) + end == addr[target]
  {
  }

  lemma LeadEnds(code: seq<byte>, a: nat, pre: seq<byte>, opcode: seq<byte>)
    requires a + |pre + opcode| <= |code| && code[a..a + |pre + opcode|] == pre + opcode
    ensures code[a + |pre|..a + |pre| + |opcode|] == opcode
  {
    assert code[a + |pre|..a + |pre| + |opcode|] == code[a..a + |pre + opcode|][|pre|..];
  }

  /** An operation as the emitter sees it: bytes, then possibly a jump. */
  datatype Item = Item(pre: seq<byte>, jump: bool, kind: Kind, target: nat)

  /** The bytes of an operation up to the displacement of its jump. */
  function Lead(item: Item): (r: seq<byte>)
    ensures |item.pre| <= |r| <= |item.pre| + 2
  {
    if item.jump then item.pre + Opcode(item.kind) else item.pre
  }

  function Room(items: seq<Item>, i: nat, end: nat): nat
    requires end <= |items|
    decreases end - i
  {
    if i >= end then 0 else |items[i].pre| + 6 + Room(items, i + 1, end)
  }

  /** Jumps stay inside the chunk or leave for the end of the whole list. */
  predicate TargetsOk(items: seq<Item>, begin: nat, end: nat)
    requires end <= |items|
  {
    forall i | begin <= i < end && items[i].jump :: begin <= items[i].target < end || items[i].target == |items|
  }

  /** Where operation k ends while the first i are laid out. */
  function EndOf(code: seq<byte>, addr: seq<int>, i: nat, k: nat): int
    requires k < i <= |addr|
  {
    if k + 1 < i then addr[k + 1] else |code|
  }

  /** Operation k starts with its bytes at its recorded address. */
  predicate StartsAt(code: seq<byte>, a: int, pre: seq<byte>)
  {
    0 <= a && a + |pre| <= |code| && code[a..a + |pre|] == pre
  }

  /** Operation k is laid out: its bytes at its address clear of every marked displacement, its jump
      among the recorded ones. */
  ghost predicate LaidAt(code: seq<byte>, addr: seq<int>, fwd: seq<Site>, back: seq<Site>, items: seq<Item>, i: nat,
                         k: nat)
    requires k < i <= |items| && |items| < |addr|
  {
    && StartsAt(code, addr[k], Lead(items[k]))
    && (forall j | 0 <= j < |fwd| :: fwd[j].end <= addr[k] || addr[k] + |Lead(items[k])| + 4 <= fwd[j].end)
    && (items[k].jump ==>
          EndOf(code, addr, i, k) == addr[k] + |Lead(items[k])| + 4 &&
          var s := Site(EndOf(code, addr, i, k), items[k].target);
          s in fwd || s in back)
  }

  ghost predicate Laid(code: seq<byte>, addr: seq<int>, fwd: seq<Site>, back: seq<Site>, items: seq<Item>, begin: nat,
                       i: nat)
    requires i <= |items| && |items| < |addr|
  {
    forall k | begin <= k < i :: LaidAt(code, addr, fwd, back, items, i, k)
  }

  /** The finished chunk: every operation's bytes are at its address, and every jump's displacement,
      added to the address after the jump, is the address of its target. */
  ghost predicate Linked(code: seq<byte>, addr: seq<int>, items: seq<Item>, begin: nat, end: nat)
    requires end <= |items| && |items| < |addr|
  {
    forall k | begin <= k < end :: LinkedAt(code, addr, items, end, k)
  }

  predicate LinkedAt(code: seq<byte>, addr: seq<int>, items: seq<Item>, end: nat, k: nat)
    requires k < end <= |items| && |items| < |addr|
  {
    var next := if k + 1 < end then addr[k + 1] else addr[|items|];
    && StartsAt(code, addr[k], Lead(items[k]))
    && (items[k].jump ==> next == addr[k] + |Lead(items[k])| + 4 && Reaches(code, addr, Site(next, items[k].target)))
  }

  lemma SliceKept(code0: seq<byte>, code: seq<byte>, a: nat, n: nat)
    requires code0 <= code && a + n <= |code0|
    ensures code[a..a + n] == code0[a..a + n]
  {
    assert code[..|code0|] == code0;
  }

  lemma LeadIs(code0: seq<byte>, item: Item)
    ensures code0 + Lead(item) == if item.jump then code0 + item.pre + Opcode(item.kind) else code0 + item.pre
    ensures |Lead(item)| == |item.pre| + if item.jump then |Opcode(item.kind)| else 0
  {
  }

  lemma Appended(code0: seq<byte>, more: seq<byte>, code: seq<byte>)
    requires code0 + more <= code
    ensures code0 <= code && code[|code0|..|code0| + |more|] == more
  {
    assert code[..|code0| + |more|] == code0 + more;
    assert code[..|code0|] == (code0 + more)[..|code0|];
  }

  /** Laying out operation i keeps the ones before it. */
  lemma LaidNext(code0: seq<byte>, addr0: seq<int>, fwd0: seq<Site>, back0: seq<Site>,
                 code: seq<byte>, addr: seq<int>, fwd: seq<Site>, back: seq<Site>, items: seq<Item>, begin: nat, i: nat)
    requires begin <= i < |items| && |items| < |addr0| && Laid(code0, addr0, fwd0, back0, items, begin, i)
    requires addr == addr0[i := |code0|] && code0 + Lead(items[i]) <= code
    requires forall j | 0 <= j < |fwd0| :: fwd0[j].end <= |code0|
    requires if items[i].jump
             then |code| == |code0| + |Lead(items[i])| + 4 && var s := Site(|code|, items[i].target);
                  (fwd == fwd0 + [s] && back == back0) || (fwd == fwd0 && back == back0 + [s])
             else code == code0 + Lead(items[i]) && fwd == fwd0 && back == back0
    ensures Laid(code, addr, fwd, back, items, begin, i + 1)
  {
    hide LaidAt, Lead;
    var n := i + 1;
    forall k | begin <= k < n
      ensures LaidAt(code, addr, fwd, back, items, n, k)
    {
      if k < i {
        LaidKept(code0, addr0, fwd0, back0, code, addr, fwd, back, items, i, k);
      } else {
        LaidNew(code0, code, addr, fwd, back, items, i);
      }
    }
  }

  /** More code behind it leaves a laid operation as it is. */
  lemma LaidKept(code0: seq<byte>, addr0: seq<int>, fwd0: seq<Site>, back0: seq<Site>,
                 code: seq<byte>, addr: seq<int>, fwd: seq<Site>, back: seq<Site>, items: seq<Item>, i: nat, k: nat)
    requires k < i < |items| && |items| < |addr0| && LaidAt(code0, addr0, fwd0, back0, items, i, k)
    requires addr == addr0[i := |code0|] && code0 + Lead(items[i]) <= code && fwd0 <= fwd && back0 <= back
    requires forall j | |fwd0| <= j < |fwd| :: |code0| + 4 <= fwd[j].end
    ensures LaidAt(code, addr, fwd, back, items, i + 1, k)
  {
    Appended(code0, Lead(items[i]), code);
    var a, p := addr0[k], Lead(items[k]);
    SliceKept(code0, code, a, |p|);
    assert EndOf(code, addr, i + 1, k) == EndOf(code0, addr0, i, k);
    assert forall j | 0 <= j < |fwd0| :: fwd[j] == fwd0[j];
    assert forall s | s in fwd0 || s in back0 :: s in fwd || s in back;
    hide Lead;
  }

  /** The operation just laid out. */
  lemma LaidNew(code0: seq<byte>, code: seq<byte>, addr: seq<int>, fwd: seq<Site>, back: seq<Site>, items: seq<Item>,
                i: nat)
    requires i < |items| < |addr| && addr[i] == |code0| && code0 + Lead(items[i]) <= code
    requires forall j | 0 <= j < |fwd| :: fwd[j].end <= |code0| || |code0| + |Lead(items[i])| + 4 <= fwd[j].end
    requires items[i].jump ==>
               && |code| == |code0| + |Lead(items[i])| + 4
               && (Site(|code|, items[i].target) in fwd || Site(|code|, items[i].target) in back)
    ensures LaidAt(code, addr, fwd, back, items, i + 1, i)
  {
    Appended(code0, Lead(items[i]), code);
  }

  lemma LaidEnd(code: seq<byte>, addr0: seq<int>, addr: seq<int>, fwd: seq<Site>, back: seq<Site>, items: seq<Item>,
                begin: nat, end: nat)
    requires end <= |items| && |items| < |addr0| && Laid(code, addr0, fwd, back, items, begin, end)
    requires addr == addr0[|items| := |code|]
    ensures Laid(code, addr, fwd, back, items, begin, end)
  {
    forall k | begin <= k < end
      ensures LaidAt(code, addr, fwd, back, items, end, k)
    {
      assert LaidAt(code, addr0, fwd, back, items, end, k);
    }
  }

  /** Filling in the marks links the chunk. */
  lemma LaidLinked(code0: seq<byte>, addr: seq<int>, fwd: seq<Site>, back: seq<Site>, items: seq<Item>, begin: nat,
                   end: nat, code: seq<byte>)
    requires end <= |items| && |items| < |addr| && addr[|items|] == |code0|
    requires Laid(code0, addr, fwd, back, items, begin, end)
    requires |code| == |code0| && (forall j | 0 <= j < |fwd| :: Reaches(code, addr, fwd[j])) &&
        (forall j | 0 <= j < |back| :: Reaches(code, addr, back[j]))
    requires forall x | 0 <= x < |code| && (forall j | 0 <= j < |fwd| :: !(fwd[j].end - 4 <= x < fwd[j].end)) ::
        code[x] == code0[x]
    ensures Linked(code, addr, items, begin, end)
  {
    forall k | begin <= k < end
      ensures LinkedAt(code, addr, items, end, k)
    {
      assert LaidAt(code0, addr, fwd, back, items, end, k);
      var a, p := addr[k], Lead(items[k]);
      forall x | 0 <= x < |p|
        ensures code[a..a + |p|][x] == p[x]
      {
        assert code0[a..a + |p|][x] == code0[a + x];
        assert code[a + x] == code0[a + x];
      }
      assert code[a..a + |p|] == p;
    }
  }

  /** The part of struct cc that jumps use. The code emitted so far is a sequence; offsets count from
      the start of the mapping at address `base`. */
  class Cc {
    const base: nat
    const limit: nat
    const opAddr: array<int>
    const fill: array<nat>
    var code: seq<byte>
    var ifill: nat
    ghost var back: seq<Site>
    ghost var fwd: seq<Site>
    ghost var top: nat

    ghost predicate Sites()
      reads this
    {
      && (forall j | 0 <= j < |fwd| :: fwd[j].end <= |code|) && (forall j | 0 <= j < |back| :: back[j].end <= |code|)
      && (forall i, j | 0 <= i < j < |fwd| :: Far(fwd[i], fwd[j]))
      && (forall i, j | 0 <= i < |fwd| && 0 <= j < |back| :: Far(fwd[i], back[j]))
      && (forall i, j | 0 <= i < j < |back| :: Far(back[i], back[j]))
    }

    /** While emitting: backward jumps reach their targets, forward jumps hold theirs. */
    ghost predicate Emitting()
      reads this, opAddr, fill
    {
      && limit < TWO_31 && |code| <= limit && Sites()
      && ifill == |fwd| <= fill.Length && (forall j | 0 <= j < ifill :: fill[j] == fwd[j].end)
      && (forall j | 0 <= j < |back| :: Reaches(code, opAddr[..], back[j]))
      && (forall j | 0 <= j < |fwd| :: Pending(code, fwd[j]) && fwd[j].target < opAddr.Length)
      && opAddr.Length <= 0x1_0001 && top <= opAddr.Length && (forall j | 0 <= j < |back| :: back[j].target < top)
    }

    constructor (base: nat, limit: nat, nops: nat, begin: nat)
      requires limit < TWO_31 && begin <= nops <= 0x1_0000
      ensures Emitting() && top == begin && code == [] && back == [] && fwd == [] && fresh(opAddr) && fresh(fill)
      ensures opAddr.Length == nops + 1 && fill.Length == nops && this.limit == limit
    {
      this.base, this.limit := base, limit;
      opAddr := new int[nops + 1];
      fill := new nat[nops];
      code, ifill, back, fwd, top := [], 0, [], [], begin;
    }

    /** Any instruction that is not a jump. */
    method Bytes(bs: seq<byte>)
      requires Emitting() && |code| + |bs| <= limit
      modifies `code
      ensures Emitting() && code == old(code) + bs
    {
      forall j | 0 <= j < |back|
        ensures Reaches(code + bs, opAddr[..], back[j])
      {
        AppendSpares(code, bs, back[j]);
      }
      forall j | 0 <= j < |fwd|
        ensures Pending(code + bs, fwd[j])
      {
        AppendSpares(code, bs, fwd[j]);
      }
      code := code + bs;
    }

    /** cc_jmp, cc_jz, cc_jnz: opcode, then the distance from the next instruction to address f. */
    method CcJump(k: Kind, f: int)
      requires Emitting() && |code| + 6 <= limit
      modifies `code
      ensures Emitting() && |code| == |old(code)| + |Opcode(k)| + 4 && old(code) + Opcode(k) <= code
      ensures I32Of(code[|code| - 4..]) == Cut32(f - (base + |code|))
      ensures forall zero :: Follow(code, |old(code)|, zero) ==
                |code| + if Takes(k, zero) then Cut32(f - (base + |code|)) else 0
    {
      var next := |code| + |Opcode(k)| + 4;
      var offset := Cut32(f - (base + next));
      Bytes(Opcode(k));
      Bytes(I32Bytes(offset));
      assert code[|code| - 4..] == I32Bytes(offset);
      I32RoundTrip(offset);
      ghost var p := |old(code)|;
      assert code[p..p + |Opcode(k)|] == Opcode(k) && code[|code| - 4..|code|] == code[|code| - 4..];
      forall zero
        ensures Follow(code, p, zero) == |code| + if Takes(k, zero) then offset else 0
      {
        FollowKind(code, p, k, zero);
      }
    }

    /** cc_mark: leave the target index in the displacement and remember the jump. */
    method Mark(target: nat)
      requires Emitting() && 5 <= |code| && target < opAddr.Length && ifill < fill.Length
      requires forall j | 0 <= j < |fwd| :: fwd[j].end + 5 <= |code|
      requires forall j | 0 <= j < |back| :: back[j].end + 5 <= |code|
      modifies `code, `ifill, `fwd, fill
      ensures Emitting() && code == Patch(old(code), |old(code)|, target)
      ensures fwd == old(fwd) + [Site(|code|, target)] && ifill == old(ifill) + 1
    {
      hide I32Of, I32Bytes, Patch, Rel, Reaches, Pending;
      ghost var was := code;
      MarkSpares(was, opAddr[..], fwd, back, target);
      code := Patch(code, |code|, target);
      fill[ifill] := |code|;
      ifill := ifill + 1;
      fwd := fwd + [Site(|code|, target)];
    }

    /** `c.opAddr[i] = cc_cur(&c)` */
    method SetAddr(i: nat)
      requires Emitting() && top <= i < opAddr.Length
      modifies `top, opAddr
      ensures Emitting() && top == i + 1 && opAddr[..] == old(opAddr[..])[i := |code|]
    {
      ghost var addr := opAddr[..];
      opAddr[i] := |code|;
      top := i + 1;
      assert opAddr[..] == addr[i := |code|];
      forall j | 0 <= j < |back|
        ensures Reaches(code, opAddr[..], back[j])
      {
        assert Reaches(code, addr, back[j]);
      }
    }

    /** The jump of operation i: to a known address, or marked for later. */
    method Jump(k: Kind, i: nat, target: nat)
      requires Emitting() && |code| + 6 <= limit && i + 1 == top && target < opAddr.Length
      requires target <= i ==> 0 <= opAddr[target] <= |code|
      requires target > i ==> ifill < fill.Length
      modifies `code, `ifill, `back, `fwd, fill
      ensures Emitting() && |code| == |old(code)| + |Opcode(k)| + 4 && old(code) + Opcode(k) <= code
      ensures var s := Site(|code|, target);
              if target <= i then back == old(back) + [s] && fwd == old(fwd) && ifill == old(ifill)
              else fwd == old(fwd) + [s] && back == old(back) && ifill == old(ifill) + 1
    {
      hide Follow, Opcode, Takes, I32Of;
      if target <= i {
        CcJump(k, base + opAddr[target]);
        ghost var s := Site(|code|, target);
        assert code[s.end - 4..s.end] == code[|code| - 4..];
        assert Reaches(code, opAddr[..], s);
        back := back + [s];
      } else {
        ghost var was := code;
        CcJump(k, 0);
        ghost var c := code;
        Mark(target);
        assert was + Opcode(k) == code[..|was| + |Opcode(k)|] by {
          var n := |was| + |Opcode(k)|;
          assert was + Opcode(k) == c[..n] && Patch(c, |c|, target)[..n] == c[..n];
        }
      }
    }

    /** cc_fill_marks: replace each kept target index by the distance to that target. */
    method FillMarks()
      requires Emitting() && forall j | 0 <= j < |fwd| :: 0 <= opAddr[fwd[j].target] <= |code|
      modifies `code
      ensures |code| == |old(code)|
      ensures forall j | 0 <= j < |fwd| :: Reaches(code, opAddr[..], fwd[j])
      ensures forall j | 0 <= j < |back| :: Reaches(code, opAddr[..], back[j])
      ensures forall x | 0 <= x < |code| && (forall j | 0 <= j < |fwd| :: !(fwd[j].end - 4 <= x < fwd[j].end)) ::
          code[x] == old(code)[x]
    {
      hide Reaches, Pending, I32Of, Rel, Patch;
      ghost var was, addrs := code, opAddr[..];
      FillStarts(code, addrs, fwd, back);
      var i := 0;
      while i < ifill
        invariant 0 <= i <= ifill && Filled(was, code, addrs, fwd, back, i)
      {
        var addr := fill[i];
        FillNext(was, code, addrs, fwd, back, i);
        var target := I32Of(code[addr - 4..addr]);
        var off := Cut32(opAddr[target] - addr);
        code := Patch(code, addr, off);
        i := i + 1;
      }
    }

    /** Operations [begin, i) are laid out. */
    ghost predicate Laying(items: seq<Item>, begin: nat, end: nat, i: nat)
      reads this, opAddr, fill
    {
      && begin <= i <= end <= |items| && opAddr.Length == |items| + 1 && fill.Length >= |items|
      && Emitting() && top == i && |code| + Room(items, i, end) <= limit && ifill <= i - begin
      && Laid(code, opAddr[..], fwd, back, items, begin, i)
      && forall j | 0 <= j < |fwd| :: begin <= fwd[j].target && (fwd[j].target < end || fwd[j].target == |items|)
    }

    /** One round of the loop of compile_chunk. */
    method Lay(items: seq<Item>, begin: nat, end: nat, i: nat)
      requires Laying(items, begin, end, i) && i < end && TargetsOk(items, begin, end)
      modifies this, opAddr, fill
      ensures Laying(items, begin, end, i + 1)
    {
      hide I32Of, Rel, Patch, Lead, Opcode, Far, Pending;
      ghost var code0, addr0, fwd0, back0 := code, opAddr[..], fwd, back;
      SetAddr(i);
      Bytes(items[i].pre);
      if items[i].jump {
        var t := items[i].target;
        if begin <= t < i { assert LaidAt(code0, addr0, fwd0, back0, items, i, t); }
        Jump(items[i].kind, i, items[i].target);
      }
      LeadIs(code0, items[i]);
      LaidNext(code0, addr0, fwd0, back0, code, opAddr[..], fwd, back, items, begin, i);
    }

    /** The loop of compile_chunk over operations [begin, end), seen as bytes and jumps, then the
        backpatching. `top` starts at begin. */
    method Chunk(items: seq<Item>, begin: nat, end: nat)
      requires Emitting() && code == [] && back == [] && fwd == [] && top == begin <= end <= |items|
      requires opAddr.Length == |items| + 1 && fill.Length >= |items| && Room(items, begin, end) <= limit
      requires TargetsOk(items, begin, end)
      modifies this, opAddr, fill
      ensures Linked(code, opAddr[..], items, begin, end)
      ensures forall k | begin <= k < end :: Obeys(code, opAddr[..], items, end, k)
    {
      hide Laid, Linked, Sites, Room, TargetsOk;
      NothingLaid(code, opAddr[..], fwd, back, items, begin);
      var i := begin;
      while i < end
        invariant Laying(items, begin, end, i)
      {
        Lay(items, begin, end, i);
        i := i + 1;
      }
      Link(items, begin, end);
      AllObey(code, opAddr[..], items, begin, end);
    }

    /** The address of the end of the list, then the backpatching. */
    method Link(items: seq<Item>, begin: nat, end: nat)
      requires Laying(items, begin, end, end)
      modifies `code, `top, opAddr
      ensures Linked(code, opAddr[..], items, begin, end)
    {
      hide I32Of, Rel, Patch;
      ghost var addr0 := opAddr[..];
      SetAddr(|items|);
      ghost var emitted, addr := code, opAddr[..];
      LaidEnd(emitted, addr0, addr, fwd, back, items, begin, end);
      forall j | 0 <= j < |fwd|
        ensures 0 <= opAddr[fwd[j].target] <= |code|
      {
        var t := fwd[j].target;
        if t < end { assert LaidAt(emitted, addr, fwd, back, items, end, t); }
      }
      FillMarks();
      LaidLinked(emitted, addr, fwd, back, items, begin, end, code);
    }
  }

  /** Marking the jump that has just been emitted leaves all others as they were. */
  lemma MarkSpares(code: seq<byte>, addr: seq<int>, fwd: seq<Site>, back: seq<Site>, target: nat)
    requires 5 <= |code| && target < TWO_31
    requires forall j | 0 <= j < |fwd| :: Pending(code, fwd[j]) && fwd[j].end + 5 <= |code|
    requires forall j | 0 <= j < |back| :: Reaches(code, addr, back[j]) && back[j].end + 5 <= |code|
    ensures var r := Patch(code, |code|, target);
            && Pending(r, Site(|code|, target)) && (forall j | 0 <= j < |fwd| :: Pending(r, fwd[j]))
            && forall j | 0 <= j < |back| :: Reaches(r, addr, back[j])
  {
    hide Patch, Rel;
    var s := Site(|code|, target);
    PatchSets(code, s, target);
    forall j | 0 <= j < |back|
      ensures Reaches(Patch(code, |code|, target), addr, back[j])
    {
      PatchSpares(code, s, back[j], target);
    }
    forall j | 0 <= j < |fwd|
      ensures Pending(Patch(code, |code|, target), fwd[j])
    {
      PatchSpares(code, s, fwd[j], target);
    }
  }

  lemma AllObey(code: seq<byte>, addr: seq<int>, items: seq<Item>, begin: nat, end: nat)
    requires end <= |items| && |items| < |addr| && Linked(code, addr, items, begin, end)
    ensures forall k | begin <= k < end :: Obeys(code, addr, items, end, k)
  {
    forall k | begin <= k < end
      ensures Obeys(code, addr, items, end, k)
    {
      LinkedObeys(code, addr, items, end, k);
    }
  }

  /** The first i forward jumps are filled in; was is the code before. */
  ghost predicate Filled(was: seq<byte>, code: seq<byte>, addr: seq<int>, fwd: seq<Site>, back: seq<Site>, i: nat)
  {
    && |code| == |was| && i <= |fwd|
    && (forall j | 0 <= j < i :: Reaches(code, addr, fwd[j]))
    && (forall j | i <= j < |fwd| :: Pending(code, fwd[j]))
    && (forall j | 0 <= j < |back| :: Reaches(code, addr, back[j]))
    && (forall x | 0 <= x < |code| && Outside(fwd, x) :: code[x] == was[x])
  }

  /** Byte x belongs to no forward jump's displacement. */
  ghost predicate Outside(fwd: seq<Site>, x: int)
  {
    forall j | 0 <= j < |fwd| :: !(fwd[j].end - 4 <= x < fwd[j].end)
  }

  lemma FillStarts(code: seq<byte>, addr: seq<int>, fwd: seq<Site>, back: seq<Site>)
    requires forall j | 0 <= j < |fwd| :: Pending(code, fwd[j])
    requires forall j | 0 <= j < |back| :: Reaches(code, addr, back[j])
    ensures Filled(code, code, addr, fwd, back, 0)
  {
  }

  /** Filling in the next one: its displacement is the distance to its target, no other byte changes. */
  lemma FillNext(was: seq<byte>, code: seq<byte>, addr: seq<int>, fwd: seq<Site>, back: seq<Site>, i: nat)
    requires Filled(was, code, addr, fwd, back, i) && i < |fwd| && |code| < TWO_31
    requires forall j | 0 <= j < |fwd| :: fwd[j].target < |addr| && 0 <= addr[fwd[j].target] <= |code|
    requires forall j, l | 0 <= j < l < |fwd| :: Far(fwd[j], fwd[l])
    requires forall j, l | 0 <= j < |fwd| && 0 <= l < |back| :: Far(fwd[j], back[l])
    ensures var e := fwd[i].end;
            && 4 <= e <= |code| && I32Of(code[e - 4..e]) == fwd[i].target
            && Filled(was, Patch(code, e, Cut32(addr[fwd[i].target] - e)), addr, fwd, back, i + 1)
  {
    assert Pending(code, fwd[i]);
    hide I32Of, Patch, Far, I32Bytes, Outside, Rel, Reaches, Pending;
    NextTarget(code, fwd[i]);
    var e := fwd[i].end;
    var x := Cut32(addr[fwd[i].target] - e);
    PatchedReaches(code, addr, fwd[i]);
    forall j | 0 <= j < |fwd| && j != i
      ensures Far(fwd[i], fwd[j])
    {
      FarBothWays(fwd, i, j);
    }
    forall j | 0 <= j < |fwd| && j != i
      ensures Reaches(code, addr, fwd[j]) ==> Reaches(Patch(code, e, x), addr, fwd[j])
      ensures Pending(code, fwd[j]) ==> Pending(Patch(code, e, x), fwd[j])
    {
      PatchedKeeps(code, addr, fwd[i], fwd[j], x);
    }
    forall j | 0 <= j < |back|
      ensures Reaches(Patch(code, e, x), addr, back[j])
    {
      PatchedKeeps(code, addr, fwd[i], back[j], x);
    }
    PatchOutside(was, code, fwd, i, x);
  }

  lemma FarBothWays(fwd: seq<Site>, i: nat, j: nat)
    requires forall j, l | 0 <= j < l < |fwd| :: Far(fwd[j], fwd[l])
    requires i < |fwd| && j < |fwd| && i != j
    ensures Far(fwd[i], fwd[j])
  {
  }

  lemma PatchedReaches(code: seq<byte>, addr: seq<int>, s: Site)
    requires In(code, s) && s.target < |addr| && 0 <= addr[s.target] <= |code| < TWO_31
    ensures Reaches(Patch(code, s.end, Cut32(addr[s.target] - s.end)), addr, s)
  {
    PatchSets(code, s, Cut32(addr[s.target] - s.end));
  }

  lemma PatchedKeeps(code: seq<byte>, addr: seq<int>, s: Site, t: Site, x: int)
    requires In(code, s) && Far(s, t) && -TWO_31 <= x < TWO_31
    ensures Reaches(code, addr, t) ==> Reaches(Patch(code, s.end, x), addr, t)
    ensures Pending(code, t) ==> Pending(Patch(code, s.end, x), t)
  {
    hide Patch, Rel;
    if In(code, t) { PatchSpares(code, s, t, x); }
  }

  lemma NextTarget(code: seq<byte>, s: Site)
    requires Pending(code, s)
    ensures 4 <= s.end <= |code| && I32Of(code[s.end - 4..s.end]) == s.target
  {
  }

  lemma PatchOutside(was: seq<byte>, code: seq<byte>, fwd: seq<Site>, i: nat, x: int)
    requires i < |fwd| && 4 <= fwd[i].end <= |code| == |was| && -TWO_31 <= x < TWO_31
    requires forall y | 0 <= y < |code| && Outside(fwd, y) :: code[y] == was[y]
    ensures forall y | 0 <= y < |code| && Outside(fwd, y) :: Patch(code, fwd[i].end, x)[y] == was[y]
  {
    forall y | 0 <= y < |code| && Outside(fwd, y)
      ensures Patch(code, fwd[i].end, x)[y] == was[y]
    {
      assert !(fwd[i].end - 4 <= y < fwd[i].end);
    }
  }

  lemma NothingLaid(code: seq<byte>, addr: seq<int>, fwd: seq<Site>, back: seq<Site>, items: seq<Item>, begin: nat)
    requires begin <= |items| < |addr|
    ensures Laid(code, addr, fwd, back, items, begin, begin)
  {
  }
}
