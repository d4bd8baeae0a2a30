/** `allocate` of cc.c: linear scan over live ranges in definition order, with re-spilling. */
module Allocate {
  import opened Counting
  import opened Registers

  /** A variable in definition order: its range, -1 as the end of one that is never used, and
      whether it came with a location of its own. */
  datatype Range = Range(start: nat, end: int, fixed: bool)

  datatype Loc = Reg(j: nat) | Slot(s: nat) | Unused | Fixed

  predicate Takes(rs: seq<Range>, p: nat)
    requires p < |rs|
  {
    !rs[p].fixed && rs[p].end != -1
  }

  ghost predicate Ordered(rs: seq<Range>)
  {
    && (forall p, q | 0 <= p <= q < |rs| :: rs[p].start <= rs[q].start)
    && (forall p | 0 <= p < |rs| && rs[p].end != -1 :: rs[p].start <= rs[p].end)
  }

  /** Variable p has a location of the right kind. */
  predicate LocOk(rs: seq<Range>, at: seq<Loc>, nregs: nat, spills: nat, p: nat)
    requires p < |at| <= |rs|
  {
    if rs[p].fixed then at[p] == Fixed
    else if rs[p].end == -1 then at[p] == Unused
    else match at[p]
      case Reg(j) => j < nregs
      case Slot(s) => 1 <= s <= spills
      case _ => false
  }

  /** Two variables share a location only if it is a register and the first range ends before the
      second starts. */
  predicate PairOk(rs: seq<Range>, at: seq<Loc>, p: nat, q: nat)
    requires p < q < |at| <= |rs|
  {
    Takes(rs, p) && Takes(rs, q) && at[p] == at[q] ==> at[p].Reg? && rs[p].end < rs[q].start
  }

  /** The variables before |at| are placed without conflict. */
  ghost predicate Placed(rs: seq<Range>, at: seq<Loc>, nregs: nat, spills: nat)
  {
    && |at| <= |rs|
    && (forall p | 0 <= p < |at| :: LocOk(rs, at, nregs, spills, p))
    && (forall p, q | 0 <= p < q < |at| :: PairOk(rs, at, p, q))
  }

  predicate CurOk(rs: seq<Range>, at: seq<Loc>, pos: seq<nat>, j: nat)
    requires j < |pos| && |at| <= |rs|
  {
    pos[j] < |at| && Takes(rs, pos[j]) && at[pos[j]] == Reg(j)
  }

  predicate LatestOk(rs: seq<Range>, at: seq<Loc>, pos: seq<nat>, p: nat)
    requires p < |at| <= |rs|
  {
    Takes(rs, p) && at[p].Reg? ==> at[p].j < |pos| && p <= pos[at[p].j]
  }

  /** pos[j] is the latest variable in register j. */
  ghost predicate Latest(rs: seq<Range>, at: seq<Loc>, pos: seq<nat>)
    requires |at| <= |rs|
  {
    && (forall j | 0 <= j < |pos| :: CurOk(rs, at, pos, j))
    && (forall p | 0 <= p < |at| :: LatestOk(rs, at, pos, p))
  }

  /** A register whose latest variable has ended can be taken. */
  lemma TakeFreed(rs: seq<Range>, at: seq<Loc>, nregs: nat, spills: nat, pos: seq<nat>, j: nat)
    requires Ordered(rs) && Placed(rs, at, nregs, spills) && Latest(rs, at, pos) && |at| < |rs| && Takes(rs, |at|)
    requires j < |pos| <= nregs && pos[j] < |at| && rs[pos[j]].end < rs[|at|].start
    ensures Placed(rs, at + [Reg(j)], nregs, spills) && Latest(rs, at + [Reg(j)], pos[j := |at|])
  {
    var n := |at|;
    var r, ps := at + [Reg(j)], pos[j := n];
    assert CurOk(rs, at, pos, j);
    forall p | 0 <= p < |r|
      ensures LocOk(rs, r, nregs, spills, p) && LatestOk(rs, r, ps, p)
    {
      if p < n { assert LocOk(rs, at, nregs, spills, p) && LatestOk(rs, at, pos, p); }
    }
    forall p, q | 0 <= p < q < |r|
      ensures PairOk(rs, r, p, q)
    {
      if q < n {
        assert PairOk(rs, at, p, q);
      } else {
        assert LatestOk(rs, at, pos, p) && CurOk(rs, at, pos, j);
        if p != pos[j] && p < pos[j] { assert PairOk(rs, at, p, pos[j]); }
      }
    }
    forall k | 0 <= k < |pos|
      ensures CurOk(rs, r, ps, k)
    {
      assert CurOk(rs, at, pos, k);
    }
  }

  /** A register not used so far can be taken. */
  lemma TakeNew(rs: seq<Range>, at: seq<Loc>, nregs: nat, spills: nat, pos: seq<nat>)
    requires Placed(rs, at, nregs, spills) && Latest(rs, at, pos) && |at| < |rs| && Takes(rs, |at|)
    requires |pos| < nregs
    ensures Placed(rs, at + [Reg(|pos|)], nregs, spills) && Latest(rs, at + [Reg(|pos|)], pos + [|at|])
  {
    var n := |at|;
    var r, ps := at + [Reg(|pos|)], pos + [n];
    forall p | 0 <= p < |r|
      ensures LocOk(rs, r, nregs, spills, p) && LatestOk(rs, r, ps, p)
    {
      if p < n { assert LocOk(rs, at, nregs, spills, p) && LatestOk(rs, at, pos, p); }
    }
    forall p, q | 0 <= p < q < |r|
      ensures PairOk(rs, r, p, q)
    {
      if q < n { assert PairOk(rs, at, p, q); } else { assert LatestOk(rs, at, pos, p); }
    }
    forall k | 0 <= k < |ps|
      ensures CurOk(rs, r, ps, k)
    {
      if k < |pos| { assert CurOk(rs, at, pos, k); }
    }
  }

  /** A fresh slot, no slot for an unused variable, or the location it came with. */
  lemma TakeOther(rs: seq<Range>, at: seq<Loc>, nregs: nat, spills: nat, pos: seq<nat>)
    requires Placed(rs, at, nregs, spills) && Latest(rs, at, pos) && |at| < |rs|
    ensures var l := if rs[|at|].fixed then Fixed else if rs[|at|].end == -1 then Unused else Slot(spills + 1);
            Placed(rs, at + [l], nregs, if l.Slot? then spills + 1 else spills) && Latest(rs, at + [l], pos)
  {
    var n := |at|;
    var l := if rs[n].fixed then Fixed else if rs[n].end == -1 then Unused else Slot(spills + 1);
    var r := at + [l];
    var slots := if l.Slot? then spills + 1 else spills;
    forall p | 0 <= p < |r|
      ensures LocOk(rs, r, nregs, slots, p) && LatestOk(rs, r, pos, p)
    {
      if p < n { assert LocOk(rs, at, nregs, spills, p) && LatestOk(rs, at, pos, p); }
    }
    forall p, q | 0 <= p < q < |r|
      ensures PairOk(rs, r, p, q)
    {
      assert LocOk(rs, at, nregs, spills, p);
      if q < n { assert PairOk(rs, at, p, q); }
    }
    forall k | 0 <= k < |pos|
      ensures CurOk(rs, r, pos, k)
    {
      assert CurOk(rs, at, pos, k);
    }
  }

  /** Moving the latest variable of register j to a fresh slot frees the register. */
  lemma TakeStolen(rs: seq<Range>, at: seq<Loc>, nregs: nat, spills: nat, pos: seq<nat>, j: nat)
    requires Ordered(rs) && Placed(rs, at, nregs, spills) && Latest(rs, at, pos) && |at| < |rs| && Takes(rs, |at|)
    requires j < |pos| <= nregs && pos[j] < |at|
    ensures var r := at[pos[j] := Slot(spills + 1)] + [Reg(j)];
            Placed(rs, r, nregs, spills + 1) && Latest(rs, r, pos[j := |at|])
  {
    var n, s, slots := |at|, pos[j], spills + 1;
    var r, ps := at[s := Slot(spills + 1)] + [Reg(j)], pos[j := n];
    assert CurOk(rs, at, pos, j);
    forall p | 0 <= p < |r|
      ensures LocOk(rs, r, nregs, slots, p)
    {
      if p < n { assert LocOk(rs, at, nregs, spills, p); }
    }
    forall p | 0 <= p < |r|
      ensures LatestOk(rs, r, ps, p)
    {
      if p < n { assert LatestOk(rs, at, pos, p); }
    }
    forall p, q | 0 <= p < q < |r|
      ensures PairOk(rs, r, p, q)
    {
      assert LocOk(rs, at, nregs, spills, p);
      if q < n {
        assert LocOk(rs, at, nregs, spills, q) && PairOk(rs, at, p, q);
      } else {
        assert LatestOk(rs, at, pos, p);
        if p < s { assert PairOk(rs, at, p, s) && rs[s].start <= rs[n].start; }
      }
    }
    forall k | 0 <= k < |pos|
      ensures CurOk(rs, r, ps, k)
    {
      assert CurOk(rs, at, pos, k);
    }
  }

  // --- register pressure --------------------------------------------------------------------

  /** The variables live at point t. */
  ghost function LiveAt(rs: seq<Range>, t: nat): set<nat>
  {
    set p: nat | p < |rs| && Takes(rs, p) && rs[p].start <= t <= rs[p].end
  }

  /** Without a spill, no more variables than registers are live at any point. */
  lemma NoSpillBound(rs: seq<Range>, at: seq<Loc>, nregs: nat, t: nat)
    requires Placed(rs, at, nregs, 0) && |at| == |rs|
    ensures |LiveAt(rs, t)| <= nregs
  {
    var s := LiveAt(rs, t);
    var f := (p: nat) => if p < |at| && at[p].Reg? then at[p].j else 0;
    forall p | p in s
      ensures p < |at| && at[p].Reg? && f(p) < nregs
    {
      assert LocOk(rs, at, nregs, 0, p);
    }
    forall p, q | p in s && q in s && p < q
      ensures f(p) != f(q)
    {
      assert PairOk(rs, at, p, q);
    }
    InjectiveBound(s, f, nregs);
  }

  /** Those of them that end no later than e. */
  ghost function LiveUntil(rs: seq<Range>, t: nat, e: int): set<nat>
  {
    set p | p in LiveAt(rs, t) && p < |rs| && rs[p].end <= e
  }

  /** At some point of p's range, more variables than there are registers are live, and none of
      them outlives p. */
  ghost predicate Pressed(rs: seq<Range>, nregs: nat, p: nat)
    requires p < |rs|
  {
    exists t :: p in LiveAt(rs, t) && |LiveUntil(rs, t, rs[p].end)| > nregs
  }

  lemma HeldDistinct(rs: seq<Range>, at: seq<Loc>, pos: seq<nat>)
    requires |at| < |rs| && Latest(rs, at, pos)
    ensures |Elements(pos + [|at|])| == |pos| + 1
  {
    var q := pos + [|at|];
    forall i, j | 0 <= i < j < |q|
      ensures q[i] != q[j]
    {
      assert CurOk(rs, at, pos, i);
      if j < |pos| { assert CurOk(rs, at, pos, j); }
    }
    DistinctSize(q);
  }

  /** When every register holds a variable that is still live, the next one makes one too many; p is
      the one that ends last. */
  lemma FullHouse(rs: seq<Range>, at: seq<Loc>, pos: seq<nat>, p: nat)
    requires Ordered(rs) && |at| < |rs| && Takes(rs, |at|) && Latest(rs, at, pos)
    requires p < |rs| && (p == |at| || p in pos)
    requires forall j | 0 <= j < |pos| :: pos[j] < |at| && rs[|at|].start <= rs[pos[j]].end <= rs[p].end
    requires rs[|at|].end <= rs[p].end
    ensures Pressed(rs, |pos|, p)
  {
    hide LiveAt, LiveUntil;
    var t := rs[|at|].start;
    var q := pos + [|at|];
    HeldDistinct(rs, at, pos);
    forall j | 0 <= j < |q|
      ensures q[j] in LiveUntil(rs, t, rs[p].end) && q[j] in LiveAt(rs, t)
    {
      if j < |pos| { assert CurOk(rs, at, pos, j); }
      Outlived(rs, t, rs[p].end, q[j]);
    }
    hide Latest, Ordered;
    Members(q, LiveUntil(rs, t, rs[p].end));
    SubsetSize(Elements(q), LiveUntil(rs, t, rs[p].end));
    assert p in q;
  }

  lemma Outlived(rs: seq<Range>, t: nat, e: int, p: nat)
    requires p < |rs| && Takes(rs, p) && rs[p].start <= t <= rs[p].end <= e
    ensures p in LiveAt(rs, t) && p in LiveUntil(rs, t, e)
  {
  }

  lemma {:induction false} Members(q: seq<nat>, s: set<nat>)
    requires forall j | 0 <= j < |q| :: q[j] in s
    ensures Elements(q) <= s
  {
    if q != [] { Members(q[..|q| - 1], s); }
  }

  lemma TooMany(rs: seq<Range>, nregs: nat, p: nat)
    requires p < |rs| && Pressed(rs, nregs, p)
    ensures exists t :: |LiveAt(rs, t)| > nregs
  {
    var t :| p in LiveAt(rs, t) && |LiveUntil(rs, t, rs[p].end)| > nregs;
    SubsetSize(LiveUntil(rs, t, rs[p].end), LiveAt(rs, t));
  }

  // --- the loop -----------------------------------------------------------------------------

  /** An entry of the sorted `ini` array, `start << 16 | name`. */
  datatype Live = Live(start: nat, name: nat)

  /** Each variable once, in definition order. */
  ghost predicate Input(order: seq<Live>, n: nat)
  {
    && (forall p | 0 <= p < |order| :: order[p].name < n)
    && (forall p, q | 0 <= p < q < |order| :: order[p].name != order[q].name)
  }

  function Ranges(order: seq<Live>, end: seq<int>, pre: seq<int>): (rs: seq<Range>)
    requires |end| == |pre| && forall p | 0 <= p < |order| :: order[p].name < |end|
    ensures |rs| == |order|
    ensures forall p | 0 <= p < |rs| :: rs[p] == Range(order[p].start, end[order[p].name], pre[order[p].name] != 0)
  {
    seq(|order|, p requires 0 <= p < |order| => Range(order[p].start, end[order[p].name], pre[order[p].name] != 0))
  }

  /** The number stored in `assignment` for a location. */
  function Code(regs: seq<int>, pre: int, l: Loc): int
  {
    match l
    case Reg(j) => if j < |regs| then regs[j] else RAX
    case Slot(s) => 0 - s
    case Unused => RAX
    case Fixed => pre
  }

  predicate CodeOk(order: seq<Live>, regs: seq<int>, pre: seq<int>, asg: seq<int>, at: seq<Loc>, p: nat)
    requires p < |at| <= |order| && order[p].name < |pre| == |asg|
  {
    asg[order[p].name] == Code(regs, pre[order[p].name], at[p])
  }

  /** asg stores the locations of the first |at| variables and nothing else changed. */
  ghost predicate Stored(order: seq<Live>, regs: seq<int>, pre: seq<int>, asg: seq<int>, at: seq<Loc>)
    requires Input(order, |pre|)
  {
    && |asg| == |pre| && |at| <= |order|
    && (forall p | 0 <= p < |at| :: CodeOk(order, regs, pre, asg, at, p))
    && (forall v | 0 <= v < |pre| && (forall p | 0 <= p < |at| :: order[p].name != v) :: asg[v] == pre[v])
  }

  lemma StoreNext(order: seq<Live>, regs: seq<int>, pre: seq<int>, asg: seq<int>, at: seq<Loc>, l: Loc)
    requires Input(order, |pre|) && Stored(order, regs, pre, asg, at) && |at| < |order|
    ensures Stored(order, regs, pre, asg[order[|at|].name := Code(regs, pre[order[|at|].name], l)], at + [l])
  {
    var n, v := |at|, order[|at|].name;
    var r, a := asg[v := Code(regs, pre[v], l)], at + [l];
    forall p | 0 <= p < |a|
      ensures CodeOk(order, regs, pre, r, a, p)
    {
      if p < n { assert CodeOk(order, regs, pre, asg, at, p); }
    }
    forall w | 0 <= w < |pre| && (forall p | 0 <= p < |a| :: order[p].name != w)
      ensures r[w] == pre[w]
    {
      assert order[n].name != w;
      assert forall p | 0 <= p < |at| :: order[p].name != w;
    }
  }

  lemma StoreAgain(order: seq<Live>, regs: seq<int>, pre: seq<int>, asg: seq<int>, at: seq<Loc>, p: nat, l: Loc)
    requires Input(order, |pre|) && Stored(order, regs, pre, asg, at) && p < |at|
    ensures Stored(order, regs, pre, asg[order[p].name := Code(regs, pre[order[p].name], l)], at[p := l])
  {
    var v := order[p].name;
    var r, a := asg[v := Code(regs, pre[v], l)], at[p := l];
    forall q | 0 <= q < |a|
      ensures CodeOk(order, regs, pre, r, a, q)
    {
      assert CodeOk(order, regs, pre, asg, at, q);
      assert q != p ==> order[q].name != v;
    }
  }

  /** The first register whose variable's range is over before `start`, or `used`. */
  method FindFree(current: array<nat>, used: nat, end: seq<int>, start: nat) returns (j: nat)
    requires used <= current.Length && forall k | 0 <= k < used :: current[k] < |end|
    ensures j <= used && (j < used ==> end[current[j]] < start)
    ensures j == used ==> forall k | 0 <= k < used :: end[current[k]] >= start
  {
    j := 0;
    while j < used && end[current[j]] >= start
      invariant 0 <= j <= used && forall k | 0 <= k < j :: end[current[k]] >= start
    {
      j := j + 1;
    }
  }

  /** The variable to spill, among v and those in registers: the one whose range ends last. */
  method FindVictim(current: array<nat>, used: nat, end: seq<int>, v: nat) returns (spilled: nat, idx: nat)
    requires used <= current.Length && v < |end| && forall k | 0 <= k < used :: current[k] < |end|
    ensures spilled == v || (idx < used && spilled == current[idx])
    ensures end[v] <= end[spilled] && forall k | 0 <= k < used :: end[current[k]] <= end[spilled]
  {
    spilled, idx := v, 0;
    var j := 0;
    while j < used
      invariant 0 <= j <= used && (spilled == v || (idx < used && spilled == current[idx]))
      invariant end[v] <= end[spilled] && forall k | 0 <= k < j :: end[current[k]] <= end[spilled]
    {
      if end[current[j]] > end[spilled] {
        idx, spilled := j, current[j];
      }
      j := j + 1;
    }
  }

  /** No slot is wasted. */
  ghost predicate AllSlots(at: seq<Loc>, spills: nat)
  {
    forall s | 1 <= s <= spills :: Slot(s) in at
  }

  lemma SlotAdded(at: seq<Loc>, spills: nat)
    requires AllSlots(at, spills)
    ensures forall l :: AllSlots(at + [l], spills)
    ensures AllSlots(at + [Slot(spills + 1)], spills + 1)
  {
  }

  lemma SlotStolen(at: seq<Loc>, spills: nat, p: nat, j: nat)
    requires AllSlots(at, spills) && p < |at| && at[p] == Reg(j)
    ensures AllSlots(at[p := Slot(spills + 1)] + [Reg(j)], spills + 1)
  {
    var r := at[p := Slot(spills + 1)] + [Reg(j)];
    forall s | 1 <= s <= spills + 1
      ensures Slot(s) in r
    {
      if s <= spills {
        var q :| 0 <= q < |at| && at[q] == Slot(s);
        assert r[q] == Slot(s);
      } else {
        assert r[p] == Slot(s);
      }
    }
  }

  /** What holds after the first |at| variables of the order have been handled. */
  ghost predicate Progress(order: seq<Live>, regs: seq<int>, end: seq<int>, pre: seq<int>, asg: seq<int>,
                           current: seq<nat>, at: seq<Loc>, pos: seq<nat>, spills: nat)
    requires Input(order, |pre|) && |end| == |pre|
  {
    var rs := Ranges(order, end, pre);
    && |at| <= |order| && |pos| <= |regs| <= |current|
    && Placed(rs, at, |regs|, spills) && Latest(rs, at, pos) && Stored(order, regs, pre, asg, at)
    && (forall j | 0 <= j < |pos| :: pos[j] < |at| && current[j] == order[pos[j]].name)
    && (forall p | 0 <= p < |at| && at[p].Slot? :: Pressed(rs, |regs|, p)) && AllSlots(at, spills)
    && (spills > 0 ==> exists t :: |LiveAt(rs, t)| > |regs|)
  }

  /** Every register holds a live variable, and none outlives the next variable: that one is spilled. */
  lemma SpillNext(order: seq<Live>, regs: seq<int>, end: seq<int>, pre: seq<int>, asg: seq<int>, current: seq<nat>,
                  at: seq<Loc>, pos: seq<nat>, spills: nat)
    requires Input(order, |pre|) && |end| == |pre| && |current| == |regs| == |pos| && |at| < |order|
    requires Ordered(Ranges(order, end, pre)) && Takes(Ranges(order, end, pre), |at|)
    requires Progress(order, regs, end, pre, asg, current, at, pos, spills)
    requires forall k | 0 <= k < |pos| :: order[|at|].start <= end[current[k]] <= end[order[|at|].name]
    ensures Progress(order, regs, end, pre, asg[order[|at|].name := 0 - (spills + 1)], current, at +
        [Slot(spills + 1)], pos, spills + 1)
  {
    hide Placed, Latest, Stored, LiveAt, Ordered, Pressed, AllSlots;
    var rs := Ranges(order, end, pre);
    FullHouse(rs, at, pos, |at|);
    TooMany(rs, |regs|, |at|);
    TakeOther(rs, at, |regs|, spills, pos);
    SlotAdded(at, spills);
    StoreNext(order, regs, pre, asg, at, Slot(spills + 1));
  }

  /** The variable in register idx ends last: it moves to a slot and its register is taken over. */
  lemma SpillHeld(order: seq<Live>, regs: seq<int>, end: seq<int>, pre: seq<int>, asg: seq<int>, current: seq<nat>,
                  at: seq<Loc>, pos: seq<nat>, spills: nat, idx: nat)
    requires Input(order, |pre|) && |end| == |pre| && |current| == |regs| == |pos| && idx < |pos| && |at| < |order|
    requires Ordered(Ranges(order, end, pre)) && Takes(Ranges(order, end, pre), |at|)
    requires Progress(order, regs, end, pre, asg, current, at, pos, spills)
    requires forall k | 0 <= k < |pos| :: order[|at|].start <= end[current[k]] <= end[current[idx]]
    requires end[order[|at|].name] <= end[current[idx]]
    ensures var v, s := order[|at|].name, Slot(spills + 1);
            Progress(order, regs, end, pre, asg[v := asg[current[idx]]][current[idx] := 0 - (spills + 1)],
                current[idx := v],
                     at[pos[idx] := s] + [Reg(idx)], pos[idx := |at|], spills + 1)
  {
    hide Placed, Latest, LiveAt, Ordered, Pressed, Stored, AllSlots;
    var rs, v, s := Ranges(order, end, pre), order[|at|].name, Slot(spills + 1);
    Peek(order, regs, end, pre, asg, current, at, pos, spills);
    FullHouse(rs, at, pos, pos[idx]);
    TooMany(rs, |regs|, pos[idx]);
    InRegister(order, regs, pre, asg, at, rs, pos, idx);
    TakeStolen(rs, at, |regs|, spills, pos, idx);
    SlotStolen(at, spills, pos[idx], idx);
    StoreAgain(order, regs, pre, asg, at, pos[idx], s);
    var asg' := asg[current[idx] := 0 - (spills + 1)];
    StoreNext(order, regs, pre, asg', at[pos[idx] := s], Reg(idx));
    assert v != current[idx];
    assert asg'[v := regs[idx]] == asg[v := asg[current[idx]]][current[idx] := 0 - (spills + 1)];
  }

  /** The tail of the loop, when every register holds a live variable: spill the range that ends
      last. */
  method Spill(order: seq<Live>, regs: seq<int>, end: seq<int>, assignment: array<int>, current: array<nat>, i: nat,
               spills: nat,
               ghost pre: seq<int>, ghost at: seq<Loc>, ghost pos: seq<nat>)
      returns (ghost at': seq<Loc>, ghost pos': seq<nat>)
    requires Input(order, |pre|) && |end| == |pre| == assignment.Length && current.Length == |regs| == |pos| &&
        i == |at| < |order|
    requires Ordered(Ranges(order, end, pre)) && Takes(Ranges(order, end, pre), |at|)
    requires Progress(order, regs, end, pre, assignment[..], current[..], at, pos, spills)
    requires forall k | 0 <= k < |pos| :: end[current[k]] >= order[|at|].start
    modifies assignment, current
    ensures |at'| == |at| + 1 && |pos'| == |pos|
    ensures Progress(order, regs, end, pre, assignment[..], current[..], at', pos', spills + 1)
  {
    ghost var asg, cur := assignment[..], current[..];
    var v := order[i].name;
    var spilled, idx := FindVictim(current, |regs|, end, v);
    if spilled == v {
      SpillNext(order, regs, end, pre, asg, cur, at, pos, spills);
      assignment[v] := 0 - (spills + 1);
      at', pos' := at + [Slot(spills + 1)], pos;
      assert assignment[..] == asg[v := 0 - (spills + 1)];
    } else {
      SpillHeld(order, regs, end, pre, asg, cur, at, pos, spills, idx);
      current[idx] := v;
      assignment[v] := assignment[spilled];
      assignment[spilled] := 0 - (spills + 1);
      at', pos' := at[pos[idx] := Slot(spills + 1)] + [Reg(idx)], pos[idx := i];
      assert assignment[..] == asg[v := asg[spilled]][spilled := 0 - (spills + 1)] && current[..] == cur[idx := v];
    }
    hide Progress;
  }

  /** What the loop can rely on before the next variable. */
  lemma Peek(order: seq<Live>, regs: seq<int>, end: seq<int>, pre: seq<int>, asg: seq<int>, current: seq<nat>,
             at: seq<Loc>,
             pos: seq<nat>, spills: nat)
    requires Input(order, |pre|) && |end| == |pre| &&
        Progress(order, regs, end, pre, asg, current, at, pos, spills) && |at| < |order|
    ensures |asg| == |pre| && |pos| <= |regs| <= |current| && asg[order[|at|].name] == pre[order[|at|].name]
    ensures forall k | 0 <= k < |pos| :: current[k] < |end| && asg[current[k]] == regs[k]
  {
    NotYet(order, regs, pre, asg, at);
    forall k | 0 <= k < |pos|
      ensures current[k] < |end| && asg[current[k]] == regs[k]
    {
      InRegister(order, regs, pre, asg, at, Ranges(order, end, pre), pos, k);
    }
  }

  /** A variable that came with a location keeps it, one without uses gets rax. */
  lemma NextOther(order: seq<Live>, regs: seq<int>, end: seq<int>, pre: seq<int>, asg: seq<int>, current: seq<nat>,
                  at: seq<Loc>,
                  pos: seq<nat>, spills: nat)
    requires Input(order, |pre|) && |end| == |pre| && |at| < |order| &&
        Progress(order, regs, end, pre, asg, current, at, pos, spills)
    requires !Takes(Ranges(order, end, pre), |at|)
    ensures var v := order[|at|].name;
            var l := if pre[v] != 0 then Fixed else Unused;
            Progress(order, regs, end, pre, asg[v := Code(regs, pre[v], l)], current, at + [l], pos, spills)
  {
    hide Placed, Latest, Stored, LiveAt, Pressed, AllSlots;
    TakeOther(Ranges(order, end, pre), at, |regs|, spills, pos);
    SlotAdded(at, spills);
    StoreNext(order, regs, pre, asg, at, if pre[order[|at|].name] != 0 then Fixed else Unused);
  }

  lemma NextFreed(order: seq<Live>, regs: seq<int>, end: seq<int>, pre: seq<int>, asg: seq<int>, current: seq<nat>,
                  at: seq<Loc>,
                  pos: seq<nat>, spills: nat, j: nat)
    requires Input(order, |pre|) && |end| == |pre| && |at| < |order| &&
        Progress(order, regs, end, pre, asg, current, at, pos, spills)
    requires Ordered(Ranges(order, end, pre)) && Takes(Ranges(order, end, pre), |at|)
    requires j < |pos| && end[current[j]] < order[|at|].start
    ensures var v := order[|at|].name;
            Progress(order, regs, end, pre, asg[v := regs[j]], current[j := v], at + [Reg(j)], pos[j := |at|], spills)
  {
    hide Placed, Latest, Stored, LiveAt, Pressed, AllSlots, Ordered;
    TakeFreed(Ranges(order, end, pre), at, |regs|, spills, pos, j);
    SlotAdded(at, spills);
    StoreNext(order, regs, pre, asg, at, Reg(j));
  }

  lemma NextNew(order: seq<Live>, regs: seq<int>, end: seq<int>, pre: seq<int>, asg: seq<int>, current: seq<nat>,
                at: seq<Loc>,
                pos: seq<nat>, spills: nat)
    requires Input(order, |pre|) && |end| == |pre| && |at| < |order| &&
        Progress(order, regs, end, pre, asg, current, at, pos, spills)
    requires Takes(Ranges(order, end, pre), |at|) && |pos| < |regs|
    ensures var n, v := |pos|, order[|at|].name;
            Progress(order, regs, end, pre, asg[v := regs[n]], current[n := v], at + [Reg(n)], pos + [|at|], spills)
  {
    hide Placed, Latest, Stored, LiveAt, Pressed, AllSlots;
    TakeNew(Ranges(order, end, pre), at, |regs|, spills, pos);
    SlotAdded(at, spills);
    StoreNext(order, regs, pre, asg, at, Reg(|pos|));
  }

  lemma ProgressStarts(order: seq<Live>, regs: seq<int>, end: seq<int>, pre: seq<int>, current: seq<nat>)
    requires Input(order, |pre|) && |end| == |pre| && |current| == |regs|
    ensures Progress(order, regs, end, pre, pre, current, [], [], 0)
  {
  }

  /** allocate. `at` is the placement behind the numbers written to assignment. */
  method Allocate(order: seq<Live>, regs: seq<int>, end: seq<int>, assignment: array<int>)
      returns (used: nat, spills: nat, ghost at: seq<Loc>)
    requires Input(order, assignment.Length) && |end| == assignment.Length
    requires Ordered(Ranges(order, end, assignment[..]))
    modifies assignment
    ensures used <= |regs| && |at| == |order|
    ensures Stored(order, regs, old(assignment[..]), assignment[..], at)
    ensures Placed(Ranges(order, end, old(assignment[..])), at, used, spills)
    ensures (forall j | 0 <= j < used :: Reg(j) in at) && (forall s | 1 <= s <= spills :: Slot(s) in at)
    ensures forall p | 0 <= p < |at| && at[p].Slot? :: Pressed(Ranges(order, end, old(assignment[..])), |regs|, p)
    ensures spills > 0 <==> exists t :: |LiveAt(Ranges(order, end, old(assignment[..])), t)| > |regs|
  {
    hide Placed, Latest, Stored, LiveAt, Ordered, Pressed, AllSlots, Progress;
    ghost var pre := assignment[..];
    ghost var rs := Ranges(order, end, pre);
    var current := new nat[|regs|];
    ghost var pos: seq<nat> := [];
    used, spills, at := 0, 0, [];
    var i := 0;
    ProgressStarts(order, regs, end, pre, current[..]);
    while i < |order|
      invariant 0 <= i <= |order| && |at| == i && used == |pos|
      invariant Progress(order, regs, end, pre, assignment[..], current[..], at, pos, spills)
    {
      var v, start := order[i].name, order[i].start;
      ghost var asg, cur := assignment[..], current[..];
      Peek(order, regs, end, pre, asg, cur, at, pos, spills);
      if assignment[v] != 0 {
        NextOther(order, regs, end, pre, asg, cur, at, pos, spills);
        assert asg[v := pre[v]] == asg;
        at := at + [Fixed];
      } else if end[v] == -1 {
        NextOther(order, regs, end, pre, asg, cur, at, pos, spills);
        assignment[v] := RAX;
        assert assignment[..] == asg[v := RAX];
        at := at + [Unused];
      } else {
        var j := FindFree(current, used, end, start);
        if j < used {
          NextFreed(order, regs, end, pre, asg, cur, at, pos, spills, j);
          assignment[v] := assignment[current[j]];
          current[j] := v;
          assert assignment[..] == asg[v := regs[j]] && current[..] == cur[j := v];
          at, pos := at + [Reg(j)], pos[j := i];
        } else if used < |regs| {
          NextNew(order, regs, end, pre, asg, cur, at, pos, spills);
          current[used] := v;
          assignment[v] := regs[used];
          assert assignment[..] == asg[v := regs[used]] && current[..] == cur[used := v];
          at, pos := at + [Reg(used)], pos + [i];
          used := used + 1;
        } else {
          at, pos := Spill(order, regs, end, assignment, current, i, spills, pre, at, pos);
          spills := spills + 1;
        }
      }
      i := i + 1;
    }
    Finish(order, regs, end, pre, assignment[..], current[..], at, pos, spills);
  }

  lemma Finish(order: seq<Live>, regs: seq<int>, end: seq<int>, pre: seq<int>, asg: seq<int>, current: seq<nat>,
               at: seq<Loc>,
               pos: seq<nat>, spills: nat)
    requires Input(order, |pre|) && |end| == |pre| &&
        Progress(order, regs, end, pre, asg, current, at, pos, spills) && |at| == |order|
    ensures var rs := Ranges(order, end, pre);
            && |pos| <= |regs| && Stored(order, regs, pre, asg, at) && Placed(rs, at, |pos|, spills)
            && (forall j | 0 <= j < |pos| :: Reg(j) in at) && (forall s | 1 <= s <= spills :: Slot(s) in at)
            && (forall p | 0 <= p < |at| && at[p].Slot? :: Pressed(rs, |regs|, p))
            && (spills > 0 <==> exists t :: |LiveAt(rs, t)| > |regs|)
  {
    hide Placed, Latest, Stored, LiveAt, Pressed;
    Conclude(Ranges(order, end, pre), at, |regs|, spills, pos);
  }

  /** Only registers that were handed out hold variables, and a spill is the sign of some point with
      more live variables than registers. */
  lemma Conclude(rs: seq<Range>, at: seq<Loc>, nregs: nat, spills: nat, pos: seq<nat>)
    requires |at| == |rs| && Placed(rs, at, nregs, spills) && Latest(rs, at, pos)
    ensures Placed(rs, at, |pos|, spills)
    ensures forall j | 0 <= j < |pos| :: Reg(j) in at
    ensures forall t | |LiveAt(rs, t)| > nregs :: spills > 0
  {
    forall p | 0 <= p < |at|
      ensures LocOk(rs, at, |pos|, spills, p)
    {
      assert LocOk(rs, at, nregs, spills, p) && LatestOk(rs, at, pos, p);
    }
    forall j | 0 <= j < |pos|
      ensures Reg(j) in at
    {
      assert CurOk(rs, at, pos, j);
    }
    if spills == 0 {
      forall t: nat
        ensures |LiveAt(rs, t)| <= nregs
      {
        NoSpillBound(rs, at, nregs, t);
      }
    }
  }

  /** The next variable still has the location it came with. */
  lemma NotYet(order: seq<Live>, regs: seq<int>, pre: seq<int>, asg: seq<int>, at: seq<Loc>)
    requires Input(order, |pre|) && Stored(order, regs, pre, asg, at) && |at| < |order|
    ensures asg[order[|at|].name] == pre[order[|at|].name]
  {
  }

  lemma InRegister(order: seq<Live>, regs: seq<int>, pre: seq<int>, asg: seq<int>, at: seq<Loc>, rs: seq<Range>,
                   pos: seq<nat>, j: nat)
    requires Input(order, |pre|) && Stored(order, regs, pre, asg, at)
    requires |at| <= |rs| && Latest(rs, at, pos) && j < |pos| <= |regs| && pos[j] < |at|
    ensures asg[order[pos[j]].name] == regs[j] && at[pos[j]] == Reg(j)
  {
    assert CurOk(rs, at, pos, j);
    assert CodeOk(order, regs, pre, asg, at, pos[j]);
  }
}
