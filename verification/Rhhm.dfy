/** The table object of rhhm.c: lazy initialisation and the in-place loops of rhhm_set, rhhm_get and
    rhhm_remove, proved against the theories RobinHood and Removal. */
module Rhhm {
  import opened Values
  import opened RobinHood
  import opened Removal

  /** The one word of a table: capacity and hash packed together until the first rhhm_set, the data block after
      it, or the null pointer when there was no memory for the block. */
  datatype Data<K> =
    | Packed(cap: nat, hash: nat)
    | Block(hash: nat, table: array<Entry<K>>)
    | Null

  /** A table with every key replaced by the identity that the compare callback tells apart. */
  ghost function View<K, I>(t: seq<Entry<K>>, id: K -> I): (r: seq<Entry<I>>)
    ensures |r| == |t|
    ensures forall i | 0 <= i < |t| :: r[i] == See(t[i], id)
  {
    seq(|t|, i requires 0 <= i < |t| => See(t[i], id))
  }

  ghost function See<K, I>(e: Entry<K>, id: K -> I): Entry<I>
  {
    Entry(e.value, id(e.key))
  }

  /** The callbacks tell keys apart by `id`: hfn hashes the identity, and cfn recognises `key` among
      the stored keys. */
  ghost predicate Callbacks<K(!new),
                              I>(t: seq<Entry<K>>, hfn: K -> nat, cfn: (K, K) -> bool, key: K, id: K -> I, h: I -> nat)
  {
    && (forall x :: hfn(x) == h(id(x)))
    && (forall i | 0 <= i < |t| && !Vacant(t[i]) :: cfn(t[i].key, key) <==> id(t[i].key) == id(key))
  }

  class Rhhm<K(0, !new)> {
    var data: Data<K>

    /** rhhm_init */
    constructor (length: nat, hash: nat)
      ensures data == Packed(length, hash) && Capacity() == length && Hash() == hash
    {
      data := Packed(length, hash);
    }

    ghost predicate Valid<I>(id: K -> I, h: I -> nat)
      reads this, if data.Block? then {data.table} else {}
    {
      !data.Null? && PowerOfTwo(Capacity()) && (data.Block? ==> Good(View(data.table[..], id), h))
    }

    function Capacity(): nat
      requires !data.Null?
      reads this
    {
      if data.Packed? then data.cap else data.table.Length
    }

    /** rhhm_hash: the same before and after initialisation. */
    function Hash(): nat
      requires !data.Null?
      reads this
    {
      data.hash
    }

    /** The slots, once there are any. */
    ghost function Slots(): seq<Entry<K>>
      reads this, if data.Block? then {data.table} else {}
    {
      if data.Block? then data.table[..] else []
    }

    ghost function Map<I>(id: K -> I): map<I, Value>
      reads this, if data.Block? then {data.table} else {}
      requires data.Block? ==> Unique(View(data.table[..], id))
    {
      if data.Block? then Contents(View(data.table[..], id)) else map[]
    }

    /** rhhm_maybe_initialize; `memory` tells whether malloc finds any. When it does not, hash and capacity are lost. */
    method MaybeInitialize<I>(memory: bool, ghost id: K -> I, ghost h: I -> nat) returns (failed: bool)
      requires Valid(id, h)
      modifies this
      ensures failed <==> old(data.Packed?) && !memory
      ensures failed ==> data.Null?
      ensures !failed ==> Valid(id, h) && data.Block? && Capacity() == old(Capacity()) && Hash() == old(Hash())
      ensures old(data.Block?) ==> data == old(data)
      ensures old(data.Packed?) && !failed ==> fresh(data.table) && Fresh(data.table[..])
      ensures !failed ==> Map(id) == old(Map(id))
    {
      failed := false;
      if data.Block? { return; }
      if !memory {
        data := Null;
        return true;
      }
      var cap := data.cap;
      var table := new Entry<K>[cap];
      var j := cap;
      while j > 0
        invariant 0 <= j <= cap && data == old(data)
        invariant forall i | j <= i < cap :: Vacant(table[i])
      {
        j := j - 1;
        table[j] := table[j].(value := None);
      }
      data := Block(data.hash, table);
      FreshIsGood(View(table[..], id), h);
    }

    /** rhhm_set; nothing is written when there is no memory for the block. */
    method Set<I>(memory: bool, hfn: K -> nat, cfn: (K, K) -> bool, key: K, value: Value, ghost id: K -> I,
                  ghost h: I -> nat)
      requires Valid(id, h) && value != None
      requires Callbacks(Slots(), hfn, cfn, key, id, h)
      requires data.Block? ==> Searchable(View(data.table[..], id), id(key))
      modifies this, if data.Block? then {data.table} else {}
      ensures old(data.Packed?) && !memory ==> data.Null?
      ensures old(data.Block?) || memory ==>
                && Valid(id, h) && data.Block? && (if old(data.Block?) then data == old(data) else fresh(data.table))
                && Capacity() == old(Capacity()) && Hash() == old(Hash())
                && Map(id) == old(Map(id))[id(key) := value]
                && KeySet(Slots()) <= old(KeySet(Slots())) + {key}
      ensures old(data.Block?) ==>
                View(data.table[..], id) == RobinHood.Set(old(View(Slots(), id)), h, id(key), value)
    {
      var failed := MaybeInitialize(memory, id, h);
      if failed { return; }
      ghost var t := View(data.table[..], id);
      assert Searchable(t, id(key)) by {
        if old(data.Packed?) { assert Vacant(t[0]); }
      }
      SetIsUpdate(t, h, id(key), value);
      SetSlots(data.table, hfn, cfn, key, value, id, h);
    }

    /** rhhm_set past the lazy initialisation. */
    static method SetSlots<I>(table: array<Entry<K>>, hfn: K -> nat, cfn: (K, K) -> bool, key: K, value: Value,
                              ghost id: K -> I, ghost h: I -> nat)
      requires table.Length > 0 && value != None
      requires Good(View(table[..], id), h) && Searchable(View(table[..], id), id(key))
      requires Callbacks(table[..], hfn, cfn, key, id, h)
      modifies table
      ensures View(table[..], id) == RobinHood.Set(old(View(table[..], id)), h, id(key), value)
      ensures KeySet(table[..]) <= old(KeySet(table[..])) + {key}
    {
      var n := table.Length;
      ghost var t, k := View(table[..], id), id(key);
      ghost var slots := table[..];
      var entry := Entry(value, key);
      var hm := Home(n, hfn, entry.key);
      var i := hm;
      ghost var o := 0;
      while !Vacant(table[i]) && Dist(n, i, hm) <= Dist(n, i, Home(n, hfn, table[i].key))
        invariant o < n && i == Step(n, hm, o) && table[..] == slots
        invariant PassesBelow(t, h, k, o) && Probe(t, h, k, o) == Probe(t, h, k, 0)
        decreases n - o
      {
        if Home(n, hfn, table[i].key) == hm && cfn(table[i].key, key) {
          table[i] := table[i].(value := entry.value);
          assert View(table[..], id) == RobinHood.Set(t, h, k, value);
          return;
        }
        ProbeAhead(t, h, k, o);
        i, o := Next(n, i), o + 1;
      }
      var tmp := entry;
      entry := table[i];
      table[i] := tmp;
      ProbeMisses(t, h, k);
      SwapKeepsGood(t, h, Entry(value, k));
      assert View(table[..], id) == t[i := Entry(value, k)];
      Carry(table, hfn, entry, id, h, i, VacantSlot(t), KeySet(slots) + {key});
    }

    /** The second loop of rhhm_set. */
    static method Carry<I>(table: array<Entry<K>>, hfn: K -> nat, displaced: Entry<K>, ghost id: K -> I,
                           ghost h: I -> nat, ghost p: nat, ghost z: nat, ghost keys: set<K>)
      requires table.Length > 0 && forall x :: hfn(x) == h(id(x))
      requires Good(View(table[..], id), h) && p < table.Length
      requires Displaced(View(table[..], id), h, See(displaced, id), p)
      requires !Vacant(displaced) ==> z < table.Length && Vacant(table[z])
      requires KeySet(table[..]) <= keys && (!Vacant(displaced) ==> displaced.key in keys)
      modifies table
      ensures View(table[..], id) == Settle(old(View(table[..], id)), h, See(displaced, id), p, z)
      ensures KeySet(table[..]) <= keys
    {
      var n := table.Length;
      var entry := displaced;
      ghost var q: nat := p;
      ghost var settled := Settle(View(table[..], id), h, See(entry, id), q, z);
      while !Vacant(entry)
        invariant Good(View(table[..], id), h) && q < n
        invariant Displaced(View(table[..], id), h, See(entry, id), q)
        invariant !Vacant(entry) ==> z < n && Vacant(table[z])
        invariant Settle(View(table[..], id), h, See(entry, id), q, z) == settled
        invariant KeySet(table[..]) <= keys && (!Vacant(entry) ==> entry.key in keys)
        decreases if Vacant(entry) then 0 else 1 + Dist(n, z, q)
      {
        ghost var t, e := View(table[..], id), See(entry, id);
        assert Vacant(t[z]);
        var i := Stop(table, hfn, entry, id, h);
        SwapKeepsGood(t, h, e);
        SwapApproaches(t, h, e, q, z);
        var tmp := entry;
        entry := table[i];
        table[i] := tmp;
        assert View(table[..], id) == t[i := e];
        q := i;
      }
    }

    /** The probe of a displaced entry: from its home to the first slot it may take. */
    static method Stop<I>(table: array<Entry<K>>, hfn: K -> nat, entry: Entry<K>, ghost id: K -> I,
                          ghost h: I -> nat) returns (i: nat)
      requires table.Length > 0 && forall x :: hfn(x) == h(id(x))
      requires HasRoom(View(table[..], id)) && Absent(View(table[..], id), id(entry.key))
      ensures i < table.Length
      ensures var t := View(table[..], id);
              i == Step(|t|, Home(|t|, h, id(entry.key)), Probe(t, h, id(entry.key), 0))
    {
      var n := table.Length;
      ghost var t, k := View(table[..], id), id(entry.key);
      var hm := Home(n, hfn, entry.key);
      i := hm;
      ghost var o := 0;
      while !Vacant(table[i]) && Dist(n, i, hm) <= Dist(n, i, Home(n, hfn, table[i].key))
        invariant o < n && i == Step(n, hm, o)
        invariant PassesBelow(t, h, k, o) && Probe(t, h, k, o) == Probe(t, h, k, 0)
        decreases n - o
      {
        ProbeStops(t, h, k, o);
        i, o := Next(n, i), o + 1;
      }
    }

    /** rhhm_get */
    method Get<I>(hfn: K -> nat, cfn: (K, K) -> bool, key: K, ghost id: K -> I, ghost h: I -> nat) returns (v: Value)
      requires Valid(id, h) && Callbacks(Slots(), hfn, cfn, key, id, h)
      requires data.Block? ==> Searchable(View(data.table[..], id), id(key))
      ensures v == if data.Block? then RobinHood.Get(View(data.table[..], id), h, id(key)) else Nil
    {
      if data.Packed? { return Nil; }
      v := GetSlots(data.table, hfn, cfn, key, id, h);
    }

    /** rhhm_get on an initialised table. */
    static method GetSlots<I>(table: array<Entry<K>>, hfn: K -> nat, cfn: (K, K) -> bool, key: K, ghost id: K -> I,
                              ghost h: I -> nat) returns (v: Value)
      requires table.Length > 0 && Good(View(table[..], id), h) && Searchable(View(table[..], id), id(key))
      requires Callbacks(table[..], hfn, cfn, key, id, h)
      ensures v == RobinHood.Get(View(table[..], id), h, id(key))
    {
      var n := table.Length;
      ghost var t, k := View(table[..], id), id(key);
      var hm := Home(n, hfn, key);
      var i := hm;
      ghost var o := 0;
      assert hm == Home(|t|, h, k);
      while !Vacant(table[i])
        invariant o < n && i == Step(n, hm, o)
        invariant GetFrom(t, h, k, o) == RobinHood.Get(t, h, k)
        invariant PassesBelow(t, h, k, o)
        decreases n - o
      {
        assert t[i] == See(table[i], id);
        if table[i].value == Nil { return Nil; }
        if Dist(n, i, Home(n, hfn, table[i].key)) < Dist(n, i, hm) { return Nil; }
        if cfn(table[i].key, key) { return table[i].value; }
        ProbeAhead(t, h, k, o);
        i, o := Next(n, i), o + 1;
      }
      return Nil;
    }

    /** rhhm_remove */
    method Remove<I>(hfn: K -> nat, cfn: (K, K) -> bool, key: K, ghost id: K -> I, ghost h: I -> nat)
      requires Valid(id, h) && Callbacks(Slots(), hfn, cfn, key, id, h)
      requires data.Block? ==> HasRoom(View(data.table[..], id))
      modifies if data.Block? then {data.table} else {}
      ensures data.Block? ==> View(data.table[..], id) == Removal.Remove(old(View(Slots(), id)), h, id(key))
    {
      if data.Packed? { return; }
      hide Good, Shifted, Moved, PowerOfTwo;
      var table := data.table;
      var n := table.Length;
      ghost var t, k := View(table[..], id), id(key);
      var hm := Home(n, hfn, key);
      var i := hm;
      ghost var o := 0;
      while !Vacant(table[i])
        invariant o < n && i == Step(n, hm, o)
        invariant table[..] == old(Slots())
        invariant Hunt(t, h, k, o) == Hunt(t, h, k, 0)
        invariant o <= Dist(n, VacantSlot(t), hm)
        decreases n - o
      {
        if cfn(table[i].key, key) {
          Shift(table, hfn, i, id, h);
          return;
        }
        if Home(n, hfn, table[i].key) < hm { return; }
        RoomAhead(t, hm, o);
        i, o := Next(n, i), o + 1;
      }
    }

    /** The do-while loop of rhhm_remove: the next entry is copied back first, tested after. */
    method Shift<I>(table: array<Entry<K>>, hfn: K -> nat, p: nat, ghost id: K -> I, ghost h: I -> nat)
      requires PowerOfTwo(table.Length) && forall x :: hfn(x) == h(id(x))
      requires p < table.Length && HasRoom(View(table[..], id)) && !Vacant(table[p])
      modifies table
      ensures var t := old(View(table[..], id));
              View(table[..], id) == Shifted(t, p, Moved(t, h, p, 0))
    {
      var n := table.Length;
      ghost var t := View(table[..], id);
      var i, j := p, p;
      ghost var m := 0;
      var going := true;
      MovedRun(t, h, p, 0);
      hide Step, Next, Home, Shifted, Copied, HasRoom;
      while going
        invariant going ==> m < n && i == j == Step(n, p, m) && View(table[..], id) == Copied(t, p, m)
        invariant going ==> Moved(t, h, p, m) == Moved(t, h, p, 0)
        invariant !going ==> View(table[..], id) == Shifted(t, p, Moved(t, h, p, 0))
        decreases going, n - m
      {
        NextOfStep(n, p, m);
        CopiedStep(t, p, m);
        j := Next(n, j);
        ghost var v := View(table[..], id);
        table[i] := table[j];
        assert View(table[..], id) == v[i := v[j]];
        i := j;
        going := !Vacant(table[j]) && Dist(n, j, Home(n, hfn, table[j].key)) != 0;
        m := m + 1;
      }
    }
  }

  ghost function KeySet<K>(t: seq<Entry<K>>): set<K>
  {
    set i | 0 <= i < |t| && !Vacant(t[i]) :: t[i].key
  }

  /** A probe that has met only entries has not yet come to a hole. */
  lemma RoomAhead<K>(t: seq<Entry<K>>, i: nat, o: nat)
    requires i < |t| && o < |t| && HasRoom(t) && o <= Dist(|t|, VacantSlot(t), i)
    requires !Vacant(t[Step(|t|, i, o)])
    ensures o + 1 < |t| && o + 1 <= Dist(|t|, VacantSlot(t), i)
  {
    assert Step(|t|, i, Dist(|t|, VacantSlot(t), i)) == VacantSlot(t);
  }
}
