/** lua_intern of lapi.c: short strings packed into the value, long ones pooled in a table whose
    lookups use a differently represented key from the stored ones. */
module Interning {
  import opened Values
  import opened RobinHood
  import opened Rhhm

  /** A key of the intern pool: a string object, or, with the low bit set, the characters that
      hm_sb_get_str looks for. */
  datatype Key = Pooled(ptr: nat) | Probe(chars: seq<byte>)

  /** The characters a key stands for, given the string objects. */
  function Chars(strs: map<nat, seq<byte>>, k: Key): seq<byte>
  {
    match k
    case Pooled(p) => if p in strs then strs[p] else []
    case Probe(s) => s
  }

  /** djb2 on 32-bit words. */
  function Djb2(s: seq<byte>): (r: nat)
    ensures r < TWO_32
  {
    if s == [] then 5381 else (33 * Djb2(s[..|s| - 1]) + s[|s| - 1]) % TWO_32
  }

  /** hm_sb_hash: at most the first 32 characters count. */
  function PoolHash(s: seq<byte>): nat
  {
    Djb2(if |s| < 32 then s else s[..32])
  }

  function Pow33(n: nat): nat
  {
    if n == 0 then 1 else 33 * Pow33(n - 1)
  }

  /** The bytes as digits to base 33, the last one of weight 1. */
  function Weighted(s: seq<byte>): nat
  {
    if s == [] then 0 else s[0] * Pow33(|s| - 1) + Weighted(s[1..])
  }

  lemma {:induction false} WeightedLast(s: seq<byte>)
    requires s != []
    ensures Weighted(s) == 33 * Weighted(s[..|s| - 1]) + s[|s| - 1]
  {
    var n := |s| - 1;
    if n > 0 {
      WeightedLast(s[1..]);
      assert s[1..][..n - 1] == s[..n][1..];
      Times33(s[0], Pow33(n - 1));
    }
  }

  lemma Times33(x: nat, y: nat)
    ensures x * (33 * y) == 33 * (x * y)
  {
  }

  /** Wrapping round at every step of djb2 comes to the same as once at the end. */
  lemma {:induction false} Djb2IsWeighted(s: seq<byte>)
    ensures Djb2(s) == (5381 * Pow33(|s|) + Weighted(s)) % TWO_32
  {
    if s != [] {
      var t := s[..|s| - 1];
      Djb2IsWeighted(t);
      WeightedLast(s);
      WrapOnce(5381 * Pow33(|t|) + Weighted(t), s[|s| - 1]);
    }
  }

  lemma WrapOnce(x: nat, c: nat)
    ensures (33 * (x % TWO_32) + c) % TWO_32 == (33 * x + c) % TWO_32
  {
    var q, r := x / TWO_32, x % TWO_32;
    var y := 33 * r + c;
    assert 33 * x + c == (33 * q + y / TWO_32) * TWO_32 + y % TWO_32;
    ModUnique(33 * x + c, TWO_32, 33 * q + y / TWO_32, y % TWO_32);
  }

  /** The hash of a pooled string: that number for its first 32 characters, to 32 bits. */
  lemma PoolHashIs(s: seq<byte>)
    ensures var n := if |s| < 32 then |s| else 32; PoolHash(s) == (5381 * Pow33(n) + Weighted(s[..n])) % TWO_32
  {
    assert s[..|s|] == s;
    Djb2IsWeighted(if |s| < 32 then s else s[..32]);
  }

  /** hm_sb_cmp: string objects are compared by address, anything else by characters. */
  predicate SameKey(strs: map<nat, seq<byte>>, a: Key, b: Key)
  {
    if a.Pooled? && b.Pooled? then a.ptr == b.ptr else Chars(strs, a) == Chars(strs, b)
  }

  ghost function Reading(strs: map<nat, seq<byte>>): Key -> seq<byte>
  {
    (k: Key) => Chars(strs, k)
  }

  /** The callbacks of the pool. */
  function Hashing(strs: map<nat, seq<byte>>): Key -> nat
  {
    (k: Key) => PoolHash(Chars(strs, k))
  }

  function Comparing(strs: map<nat, seq<byte>>): (Key, Key) -> bool
  {
    (a: Key, b: Key) => SameKey(strs, a, b)
  }

  /** No two string objects hold the same characters, and their addresses fit a value. */
  ghost predicate Distinct(strs: map<nat, seq<byte>>)
  {
    && (forall p, q | p in strs && q in strs && strs[p] == strs[q] :: p == q)
    && (forall p | p in strs :: p < TWO_48 && |strs[p]| > SSTR_MAX_LENGTH)
  }

  /** Value v is the interned form of s. */
  ghost predicate Denotes(strs: map<nat, seq<byte>>, v: Value, s: seq<byte>)
  {
    if |s| <= SSTR_MAX_LENGTH then v == SStr(s) else v.Str? && v.ptr in strs && strs[v.ptr] == s
  }

  /** The word, taken apart: a short string is in it, its length in byte 0 and its characters from byte 1 on; the
      object a long one points at has the characters. */
  ghost predicate ReadsAs(strs: map<nat, seq<byte>>, u: nat, s: seq<byte>)
  {
    if |s| <= SSTR_MAX_LENGTH then
      Tag(u) == TAG_SSTR && ByteAt(u, 0) == |s| && forall j | 0 <= j < |s| :: ByteAt(u, j + 1) == s[j]
    else
      Tag(u) == TAG_STR && Payload(u) in strs && strs[Payload(u)] == s
  }

  lemma WordReads(base: nat, strs: map<nat, seq<byte>>, v: Value, s: seq<byte>)
    requires Distinct(strs) && Denotes(strs, v, s)
    ensures ReadsAs(strs, Encode(base, v), s)
  {
    hide ByteAt, Tag, Payload;
    EncodeFaithful(base, v, v);
    if |s| <= SSTR_MAX_LENGTH {
      assert v.SStr? && v.chars == s;
      SStrBytes(s);
      assert Encode(base, v) == MakeSStr(s);
    }
  }

  /** The string objects after interning s, with addr as the address of a new object. */
  function Grown(strs: map<nat, seq<byte>>, s: seq<byte>, addr: nat): map<nat, seq<byte>>
  {
    if |s| <= SSTR_MAX_LENGTH || s in strs.Values then strs else strs[addr := s]
  }

  lemma GrownKeeps(strs: map<nat, seq<byte>>, s: seq<byte>, addr: nat)
    requires Distinct(strs) && addr !in strs && addr < TWO_48
    ensures Distinct(Grown(strs, s, addr))
    ensures forall v, c | Denotes(strs, v, c) :: Denotes(Grown(strs, s, addr), v, c)
  {
  }

  /** Views under two readings of the keys that agree on the occupied slots. */
  lemma SameView<K, I>(t: seq<Entry<K>>, id: K -> I, jd: K -> I, h: I -> nat)
    requires Good(View(t, id), h)
    requires forall k | k in KeySet(t) :: id(k) == jd(k)
    ensures Good(View(t, jd), h) && Contents(View(t, jd)) == Contents(View(t, id))
  {
    var a, b := View(t, id), View(t, jd);
    forall i | 0 <= i < |t| && !Vacant(t[i])
      ensures a[i] == b[i]
    {
      assert t[i].key in KeySet(t);
    }
    forall i | 0 <= i < |t|
      ensures OrderedAt(b, h, i)
    {
      assert OrderedAt(a, h, i);
    }
  }

  /** The pool maps the characters of every string object to the value of that object, and its
      stored keys are string objects. */
  ghost predicate Pools(strs: map<nat, seq<byte>>, keys: set<Key>, m: map<seq<byte>, Value>)
  {
    && Distinct(strs) && m.Keys == strs.Values
    && (forall k | k in keys :: k.Pooled? && k.ptr in strs)
    && (forall p | p in strs :: m[strs[p]] == Str(p))
  }

  lemma PoolGrows(strs: map<nat, seq<byte>>, keys: set<Key>, m: map<seq<byte>, Value>, keys': set<Key>, s: seq<byte>,
                  addr: nat)
    requires Pools(strs, keys, m) && keys' <= keys + {Pooled(addr)}
    requires |s| > SSTR_MAX_LENGTH && s !in strs.Values && addr !in strs && addr < TWO_48
    ensures Pools(strs[addr := s], keys', m[s := Str(addr)])
  {
    var r := strs[addr := s];
    assert r.Values == strs.Values + {s} by {
      forall c | c in strs.Values
        ensures c in r.Values
      {
        var p :| p in strs && strs[p] == c;
        assert r[p] == c;
      }
      assert r[addr] == s;
    }
  }

  /** A new string object compares equal to no stored key. */
  lemma NewKeyCallbacks(t: seq<Entry<Key>>, strs: map<nat, seq<byte>>, s: seq<byte>, addr: nat)
    requires forall k | k in KeySet(t) :: k.Pooled? && k.ptr in strs
    requires s !in strs.Values && addr !in strs
    ensures var r := strs[addr := s];
            Callbacks(t, Hashing(r), Comparing(r), Pooled(addr), Reading(r), PoolHash)
  {
    forall i | 0 <= i < |t| && !Vacant(t[i])
      ensures t[i].key.Pooled? && t[i].key.ptr in strs
    {
      assert t[i].key in KeySet(t);
    }
  }

  lemma RereadingSlots(t: seq<Entry<Key>>, strs: map<nat, seq<byte>>, s: seq<byte>, addr: nat)
    requires Good(View(t, Reading(strs)), PoolHash) && Pools(strs, KeySet(t), Contents(View(t, Reading(strs))))
    requires |strs.Values| < |t| && addr !in strs
    ensures var v := View(t, Reading(strs[addr := s]));
            Good(v, PoolHash) && Contents(v) == Contents(View(t, Reading(strs))) && HasRoom(v)
  {
    var r := strs[addr := s];
    assert forall k | k in KeySet(t) :: Reading(strs)(k) == Reading(r)(k);
    SameView(t, Reading(strs), Reading(r), PoolHash);
    assert Contents(View(t, Reading(r))).Keys == strs.Values;
    hide Contents, KeySet, HasRoom, PoolHash, Reading;
    CountIsSize(View(t, Reading(r)));
  }

  /** The pool seen with the new string object, before its entry is made. */
  lemma Rereading(pool: Rhhm<Key>, strs: map<nat, seq<byte>>, s: seq<byte>, addr: nat)
    requires pool.Valid(Reading(strs), PoolHash) && Pools(strs, KeySet(pool.Slots()), pool.Map(Reading(strs)))
    requires |strs.Values| < pool.Capacity() && s !in strs.Values && addr !in strs
    ensures var r := strs[addr := s];
            && pool.Valid(Reading(r), PoolHash) && pool.Map(Reading(r)) == pool.Map(Reading(strs))
            && (pool.data.Block? ==> HasRoom(View(pool.data.table[..], Reading(r))))
            && Callbacks(pool.Slots(), Hashing(r), Comparing(r), Pooled(addr), Reading(r), PoolHash)
            && Reading(r)(Pooled(addr)) == s
  {
    NewKeyCallbacks(pool.Slots(), strs, s, addr);
    if pool.data.Block? { RereadingSlots(pool.data.table[..], strs, s, addr); }
    hide Good, KeySet, Contents, View, Callbacks, HasRoom, Hashing, Comparing, PoolHash;
  }

  class Interner {
    const pool: Rhhm<Key>
    var strs: map<nat, seq<byte>>

    ghost predicate Valid()
      reads this, pool, if pool.data.Block? then {pool.data.table} else {}
    {
      pool.Valid(Reading(strs), PoolHash) && Pools(strs, KeySet(pool.Slots()), pool.Map(Reading(strs)))
    }

    /** the part of lua_init for the pool; the hash of the pool itself is of no use */
    constructor (k: nat)
      ensures Valid() && strs == map[] && pool.Capacity() == Pow2(k) && fresh(pool)
    {
      pool := new Rhhm(Pow2(k), 0);
      strs := map[];
    }

    /** hm_sb_get_str */
    method Find(s: seq<byte>) returns (v: Value)
      requires Valid() && |strs.Values| < pool.Capacity()
      ensures if s in strs.Values then v.Str? && v.ptr in strs && strs[v.ptr] == s else v == Nil
    {
      ghost var t := View(pool.Slots(), Reading(strs));
      if pool.data.Block? {
        CountIsSize(t);
        GetExact(t, PoolHash, s);
        forall x | x in Contents(t)
          ensures Contents(t)[x] != Nil
        {
          var p :| p in strs && strs[p] == x;
        }
        NoNilNoBlock(t, PoolHash, s);
      }
      v := pool.Get(Hashing(strs), Comparing(strs), Probe(s), Reading(strs), PoolHash);
    }

    /** hm_sb_set of a string object under itself. */
    method SetPooled(addr: nat)
      requires pool.Valid(Reading(strs), PoolHash) && Reading(strs)(Pooled(addr)) == Chars(strs, Pooled(addr))
      requires Callbacks(pool.Slots(), Hashing(strs), Comparing(strs), Pooled(addr), Reading(strs), PoolHash)
      requires pool.data.Block? ==> HasRoom(View(pool.data.table[..], Reading(strs)))
      modifies pool, if pool.data.Block? then {pool.data.table} else {}
      ensures pool.Valid(Reading(strs), PoolHash) && pool.Capacity() == old(pool.Capacity())
      ensures pool.Map(Reading(strs)) == old(pool.Map(Reading(strs)))[Chars(strs, Pooled(addr)) := Str(addr)]
      ensures KeySet(pool.Slots()) <= old(KeySet(pool.Slots())) + {Pooled(addr)}
      ensures if old(pool.data.Block?) then pool.data == old(pool.data) else pool.data.Block? && fresh(pool.data.table)
    {
      hide *;
      pool.Set(true, Hashing(strs), Comparing(strs), Pooled(addr), Str(addr), Reading(strs), PoolHash);
    }

    /** str_new and hm_sb_set for a string not pooled so far. */
    method Add(s: seq<byte>, addr: nat)
      requires Valid() && |strs.Values| < pool.Capacity()
      requires |s| > SSTR_MAX_LENGTH && s !in strs.Values && addr !in strs && addr < TWO_48
      modifies this, pool, if pool.data.Block? then {pool.data.table} else {}
      ensures Valid() && strs == old(strs)[addr := s] && pool.Capacity() == old(pool.Capacity())
      ensures if old(pool.data.Block?) then pool.data == old(pool.data) else pool.data.Block? && fresh(pool.data.table)
    {
      hide Pools, Reading, Hashing, Comparing, Callbacks, KeySet, View, Contents, Ordered, Unique, HasRoom,
          PowerOfTwo, PoolHash, Distinct;
      ghost var was, keys, m := strs, KeySet(pool.Slots()), pool.Map(Reading(strs));
      Rereading(pool, strs, s, addr);
      assert Chars(strs[addr := s], Pooled(addr)) == s;
      strs := strs[addr := s];
      SetPooled(addr);
      PoolGrows(was, keys, m, KeySet(pool.Slots()), s, addr);
    }

    /** lua_intern; addr is the address that a new string object would get. */
    method Intern(s: seq<byte>, addr: nat) returns (v: Value)
      requires Valid() && (|s| > SSTR_MAX_LENGTH ==> |strs.Values| < pool.Capacity())
      requires addr !in strs && addr < TWO_48
      modifies this, pool, if pool.data.Block? then {pool.data.table} else {}
      ensures Valid() && pool.Capacity() == old(pool.Capacity())
      ensures strs == Grown(old(strs), s, addr) && Denotes(strs, v, s)
      ensures if old(pool.data.Block?) then pool.data == old(pool.data) else pool.data.Block? ==> fresh(pool.data.table)
    {
      if |s| > SSTR_MAX_LENGTH {
        v := Find(s);
        if v == Nil {
          Add(s, addr);
          v := Str(addr);
        }
      } else {
        v := SStr(s);
      }
    }
  }

  // --- sequences of interns -----------------------------------------------------------------

  /** One call in a history: the characters, the address of a new object, the value returned. */
  datatype Call = Call(s: seq<byte>, addr: nat, v: Value)

  ghost function After(strs: map<nat, seq<byte>>, calls: seq<Call>): map<nat, seq<byte>>
  {
    if calls == [] then strs
    else var c := calls[|calls| - 1]; Grown(After(strs, calls[..|calls| - 1]), c.s, c.addr)
  }

  /** What the contract of Intern says of every call of a history. */
  ghost predicate History(strs: map<nat, seq<byte>>, calls: seq<Call>)
  {
    calls != [] ==>
      var n := |calls| - 1;
      var c := calls[n];
      && History(strs, calls[..n])
      && c.addr !in After(strs, calls[..n]) && c.addr < TWO_48 && Denotes(After(strs, calls), c.v, c.s)
  }

  lemma {:induction false} AllDenote(strs: map<nat, seq<byte>>, calls: seq<Call>)
    requires Distinct(strs) && History(strs, calls)
    ensures Distinct(After(strs, calls))
    ensures forall i | 0 <= i < |calls| :: Denotes(After(strs, calls), calls[i].v, calls[i].s)
  {
    if calls != [] {
      var n := |calls| - 1;
      AllDenote(strs, calls[..n]);
      GrownKeeps(After(strs, calls[..n]), calls[n].s, calls[n].addr);
      forall i | 0 <= i < n
        ensures Denotes(After(strs, calls), calls[i].v, calls[i].s)
      {
        assert calls[i] == calls[..n][i];
      }
    }
  }

  /** Over every sequence of interns, two calls return the same word exactly when they were given
      the same characters. */
  lemma InternIsCanonical(base: nat, strs: map<nat, seq<byte>>, calls: seq<Call>, i: nat, j: nat)
    requires Distinct(strs) && History(strs, calls) && i < |calls| && j < |calls|
    ensures Encode(base, calls[i].v) == Encode(base, calls[j].v) <==> calls[i].s == calls[j].s
  {
    AllDenote(strs, calls);
    var all, a, b := After(strs, calls), calls[i], calls[j];
    assert Denotes(all, a.v, a.s) && Denotes(all, b.v, b.s);
    EncodeFaithful(base, a.v, b.v);
  }

  /** The long strings among ss, each of which takes a place in the pool. */
  function Long(ss: seq<seq<byte>>): (r: set<seq<byte>>)
    ensures forall s :: s in r <==> s in ss && |s| > SSTR_MAX_LENGTH
  {
    set s | s in ss && |s| > SSTR_MAX_LENGTH
  }

  lemma GrownValues(strs: map<nat, seq<byte>>, s: seq<byte>, addr: nat, all: set<seq<byte>>)
    requires addr !in strs && strs.Values <= all && (|s| > SSTR_MAX_LENGTH ==> s in all)
    ensures Grown(strs, s, addr).Values <= all
    ensures forall a | a in Grown(strs, s, addr) :: a in strs || a == addr
  {
  }

  lemma RoomLeft(pooled: set<seq<byte>>, all: set<seq<byte>>, capacity: nat)
    requires pooled <= all && |all| < capacity
    ensures |pooled| < capacity
  {
    assert all == pooled + (all - pooled);
  }

  lemma NextCall(strs: map<nat, seq<byte>>, calls: seq<Call>, c: Call, after: map<nat, seq<byte>>)
    requires History(strs, calls) && c.addr !in After(strs, calls) && c.addr < TWO_48
    requires after == Grown(After(strs, calls), c.s, c.addr) && Denotes(after, c.v, c.s)
    ensures History(strs, calls + [c]) && After(strs, calls + [c]) == after
  {
    assert (calls + [c])[..|calls|] == calls;
  }

  /** A run of lua_intern over the strings ss, `addrs` the addresses new string objects would get, in a
      pool with room for the long ones and one empty slot: equal words for equal strings and only for
      those. */
  method InternAll(p: Interner, ss: seq<seq<byte>>, addrs: seq<nat>, ghost base: nat) returns (vs: seq<Value>)
    requires p.Valid() && |p.strs.Values + Long(ss)| < p.pool.Capacity()
    requires |addrs| == |ss| && forall i | 0 <= i < |addrs| :: addrs[i] !in p.strs && addrs[i] < TWO_48
    requires forall i, j | 0 <= i < j < |addrs| :: addrs[i] != addrs[j]
    modifies p, p.pool, if p.pool.data.Block? then {p.pool.data.table} else {}
    ensures p.Valid() && |vs| == |ss| && forall i | 0 <= i < |ss| :: Denotes(p.strs, vs[i], ss[i])
    ensures forall i | 0 <= i < |ss| :: ReadsAs(p.strs, Encode(base, vs[i]), ss[i])
    ensures forall i, j | 0 <= i < |ss| && 0 <= j < |ss| :: Encode(base, vs[i]) == Encode(base, vs[j]) <==>
        ss[i] == ss[j]
  {
    hide Pools, Denotes, Grown, History, After, ReadsAs, Encode, Distinct, KeySet, Contents, View, Good, Reading;
    ghost var strs, all := p.strs, p.strs.Values + Long(ss);
    ghost var calls: seq<Call> := [];
    DistinctStrings(p);
    NoCalls(strs);
    vs := [];
    while |vs| < |ss|
      invariant |vs| == |calls| <= |ss| && p.Valid() && p.pool.Capacity() == old(p.pool.Capacity())
      invariant forall i | 0 <= i < |vs| :: calls[i] == Call(ss[i], addrs[i], vs[i])
      invariant History(strs, calls) && After(strs, calls) == p.strs && p.strs.Values <= all
      invariant forall i | |vs| <= i < |ss| :: addrs[i] !in p.strs
      invariant if old(p.pool.data.Block?) then p.pool.data == old(p.pool.data) else p.pool.data.Block? ==>
          fresh(p.pool.data.table)
    {
      var i := |vs|;
      ghost var was := p.strs;
      RoomLeft(p.strs.Values, all, p.pool.Capacity());
      GrownValues(was, ss[i], addrs[i], all);
      var v := p.Intern(ss[i], addrs[i]);
      NextCall(strs, calls, Call(ss[i], addrs[i], v), p.strs);
      calls := calls + [Call(ss[i], addrs[i], v)];
      vs := vs + [v];
    }
    WordsTell(base, strs, calls, ss, vs);
  }

  /** What the words of a history of calls tell. */
  lemma WordsTell(base: nat, strs: map<nat, seq<byte>>, calls: seq<Call>, ss: seq<seq<byte>>, vs: seq<Value>)
    requires Distinct(strs) && History(strs, calls) && |calls| == |ss| == |vs|
    requires forall i | 0 <= i < |ss| :: calls[i].s == ss[i] && calls[i].v == vs[i]
    ensures forall i | 0 <= i < |ss| ::
              Denotes(After(strs, calls), vs[i], ss[i]) && ReadsAs(After(strs, calls), Encode(base, vs[i]), ss[i])
    ensures forall i, j | 0 <= i < |ss| && 0 <= j < |ss| :: Encode(base, vs[i]) == Encode(base, vs[j]) <==>
        ss[i] == ss[j]
  {
    hide History, After, Denotes, ReadsAs, Encode, Distinct;
    AllDenote(strs, calls);
    forall i | 0 <= i < |ss|
      ensures Denotes(After(strs, calls), vs[i], ss[i]) && ReadsAs(After(strs, calls), Encode(base, vs[i]), ss[i])
    {
      assert Denotes(After(strs, calls), calls[i].v, calls[i].s);
      WordReads(base, After(strs, calls), vs[i], ss[i]);
    }
    forall i, j | 0 <= i < |ss| && 0 <= j < |ss|
      ensures Encode(base, vs[i]) == Encode(base, vs[j]) <==> ss[i] == ss[j]
    {
      InternIsCanonical(base, strs, calls, i, j);
    }
  }

  lemma DistinctStrings(p: Interner)
    requires p.Valid()
    ensures Distinct(p.strs)
  {
  }

  lemma NoCalls(strs: map<nat, seq<byte>>)
    ensures History(strs, []) && After(strs, []) == strs
  {
  }
}
