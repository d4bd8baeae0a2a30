/** The constant table of ir.c: each constant gets one operand number, and the number finds it. */
module Constants {
  import opened Values
  import opened RobinHood
  import opened Rhhm

  /** IR_CTT_MAX, and the exponent of the index table's capacity, twice as large. */
  const CTT_MAX: nat := 4096
  const MAP_BITS: nat := 13

  /** The word of the negative operand number -n. */
  function Number(n: nat): Value
    requires 0 < n <= CTT_MAX
  {
    Plain(TWO_64 - n)
  }

  /** rhhm_bb_hash of a constant, which is never a table. */
  function Hash(v: Value): nat { FoldHash(Encode(0, v)) }

  lemma HashBits(v: Value, k: nat)
    requires k < 32
    ensures Bit(Hash(v), k) == if Bit(Encode(0, v), k) == Bit(Encode(0, v), k + 32) then 0 else 1
  {
    FoldHashBits(Encode(0, v), k);
  }

  predicate NumberAt(m: map<Value, Value>, ctts: seq<Value>, i: nat)
    requires i < |ctts| <= CTT_MAX
  {
    ctts[i] in m && m[ctts[i]] == Number(i + 1)
  }

  predicate Held(ctts: seq<Value>, v: Value) { v in ctts }

  /** The index maps each constant to its number, and holds nothing else. */
  ghost predicate Indexes(m: map<Value, Value>, ctts: seq<Value>)
  {
    && |ctts| <= CTT_MAX
    && (forall i, j | 0 <= i < j < |ctts| :: ctts[i] != ctts[j])
    && (forall i | 0 <= i < |ctts| :: NumberAt(m, ctts, i))
    && (forall v | v in m :: Held(ctts, v))
    && |m| == |ctts|
  }

  lemma OneMore(m: map<Value, Value>, v: Value, w: Value)
    requires v !in m
    ensures |m[v := w]| == |m| + 1
  {
    assert m[v := w].Keys == m.Keys + {v};
  }

  lemma IndexGrows(m: map<Value, Value>, ctts: seq<Value>, v: Value)
    requires Indexes(m, ctts) && v !in ctts && |ctts| < CTT_MAX
    ensures Indexes(m[v := Number(|ctts| + 1)], ctts + [v])
  {
    var r, c := m[v := Number(|ctts| + 1)], ctts + [v];
    assert !Held(ctts, v) && v !in m;
    OneMore(m, v, Number(|ctts| + 1));
    forall i | 0 <= i < |c|
      ensures NumberAt(r, c, i)
    {
      assert i < |ctts| ==> NumberAt(m, ctts, i);
    }
    forall x | x in r
      ensures Held(c, x)
    {
      assert x != v ==> Held(ctts, x);
    }
    hide NumberAt, Held;
    assert forall i, j | 0 <= i < j < |c| :: c[i] != c[j];
  }

  ghost function Same(v: Value): Value { v }

  /** r is the number of constant v. */
  ghost predicate Numbered(ctts: seq<Value>, v: Value, r: Value)
  {
    exists i :: 0 <= i < |ctts| <= CTT_MAX && ctts[i] == v && r == Number(i + 1)
  }

  /** The index never fills, and a lookup in it answers the number. */
  lemma Findable(t: seq<Entry<Value>>, ctts: seq<Value>, v: Value)
    requires Good(t, Hash) && Indexes(Contents(t), ctts) && |t| == Pow2(MAP_BITS)
    ensures HasRoom(t)
    ensures if v in ctts then Numbered(ctts, v, Get(t, Hash, v)) else Get(t, Hash, v) == Nil
  {
    Capacity13();
    CountIsSize(t);
    GetExact(t, Hash, v);
    forall x | x in Contents(t)
      ensures Contents(t)[x] != Nil
    {
      assert Held(ctts, x);
      var i :| 0 <= i < |ctts| && ctts[i] == x;
      assert NumberAt(Contents(t), ctts, i);
    }
    NoNilNoBlock(t, Hash, v);
    if v in ctts {
      var i :| 0 <= i < |ctts| && ctts[i] == v;
      assert NumberAt(Contents(t), ctts, i);
    } else {
      assert !Held(ctts, v);
    }
  }

  lemma AllDifferent(m: map<Value, Value>, ctts: seq<Value>)
    requires Indexes(m, ctts)
    ensures forall i, j | 0 <= i < j < |ctts| :: ctts[i] != ctts[j]
  {
  }

  lemma NothingIndexed(ctts: seq<Value>)
    requires Indexes(map[], ctts)
    ensures ctts == []
  {
  }

  function Hashing(): Value -> nat { (k: Value) => Hash(k) }

  function Comparing(): (Value, Value) -> bool { (a: Value, b: Value) => a == b }

  class Table {
    const index: Rhhm<Value>
    var ctts: seq<Value>

    ghost predicate Valid()
      reads this, index, if index.data.Block? then {index.data.table} else {}
    {
      index.Valid(Same, Hash) && index.Capacity() == Pow2(MAP_BITS) && Indexes(index.Map(Same), ctts)
    }

    /** ir_init, for the constants */
    constructor ()
      ensures Valid() && ctts == [] && fresh(index)
    {
      index := new Rhhm(Pow2(MAP_BITS), 0);
      ctts := [];
    }

    /** hm_get on the index: the constant's number, or nil. */
    method Look(v: Value) returns (r: Value)
      requires Valid()
      ensures if v in ctts then Numbered(ctts, v, r) else r == Nil
    {
      hide Indexes, Good, HasRoom, Contents, Numbered, Get, GetFrom, Pow2;
      if index.data.Block? { Findable(View(index.data.table[..], Same), ctts, v); }
      else { NothingIndexed(ctts); }
      r := index.Get(Hashing(), Comparing(), v, Same, Hash);
    }

    /** hm_set on the index for the next constant. */
    method Add(v: Value)
      requires Valid() && v !in ctts && |ctts| < CTT_MAX
      modifies this, index, if index.data.Block? then {index.data.table} else {}
      ensures Valid() && ctts == old(ctts) + [v]
    {
      hide Indexes, Ordered, HasRoom, Contents, Numbered, Pow2;
      IndexGrows(index.Map(Same), ctts, v);
      if index.data.Block? { Findable(View(index.data.table[..], Same), ctts, v); }
      ctts := ctts + [v];
      index.Set(true, Hashing(), Comparing(), v, Number(|ctts|), Same, Hash);
    }

    /** ir_ctt: the operand number of v, new or known; decoded as the code generator does, it gives
        v back, and numbers handed out before keep their meaning. */
    method Ctt(v: Value) returns (n: int)
      requires Valid() && |ctts| < CTT_MAX
      modifies this, index, if index.data.Block? then {index.data.table} else {}
      ensures Valid() && ctts == if v in old(ctts) then old(ctts) else old(ctts) + [v]
      ensures n < 0 && 0 <= -n - 1 < |ctts| && ctts[-n - 1] == v
      ensures forall i | 0 <= i < |ctts| && ctts[i] == v :: n == -i - 1
    {
      hide Indexes, Ordered, Contents, Pow2;
      var idx := Look(v);
      AllDifferent(index.Map(Same), ctts);
      if idx != Nil {
        return idx.bits - TWO_64;
      }
      Add(v);
      AllDifferent(index.Map(Same), ctts);
      n := 0 - |ctts|;
    }
  }

  lemma Capacity13()
    ensures Pow2(MAP_BITS) == 2 * CTT_MAX
  {
    assert Pow2(4) == 16 && Pow2(8) == 16 * Pow2(4) && Pow2(12) == 16 * Pow2(8);
  }
}
