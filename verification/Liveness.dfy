/** `liveness` of cc.c: definition points, last uses and their extension over loops. */
module Liveness {
  import opened Ir

  const UNUSED: int := -1
  const OP_MAX: nat := 0x1_0000

  /** Marked loop depth after operation i. */
  function Depth(ops: seq<Tac>, i: nat): int
    requires i < |ops|
  {
    (if i == 0 then 0 else Depth(ops, i - 1)) +
    (if ops[i].op == LoopBegin then 1 else if ops[i].op == LoopEnd then -1 else 0)
  }

  /** Every loop mark is closed, and the nesting fits the source's 8-bit counter. */
  ghost predicate Balanced(ops: seq<Tac>)
  {
    && (forall i | 0 <= i < |ops| :: 0 <= Depth(ops, i) < 0x100)
    && (ops != [] ==> Depth(ops, |ops| - 1) == 0)
  }

  ghost predicate LastUse(ops: seq<Tac>, v: int, i: int)
  {
    0 <= i < |ops| && Uses(ops[i], v) && forall j | i < j < |ops| :: !Uses(ops[j], v)
  }

  ghost predicate NeverUsed(ops: seq<Tac>, v: int)
  {
    forall j | 0 <= j < |ops| :: !Uses(ops[j], v)
  }

  /** e is where a range that starts at loop depth d and is last used at u ends: the first position from
      u on whose loop depth is no deeper. */
  ghost predicate EndsAt(ops: seq<Tac>, d: int, u: int, e: int)
    requires 0 <= u < |ops|
  {
    u <= e < |ops| && Depth(ops, e) <= d && forall j | u <= j < e :: Depth(ops, j) > d
  }

  /** The depth the range of v starts at. A variable without a definition, such as a parameter, has the
      sentinel as its start, which as an index lies past all operations, where the depths are 0. */
  function StartDepth(ops: seq<Tac>, ini: int): int
    requires ini < |ops|
  {
    if ini < 0 then 0 else Depth(ops, ini)
  }

  /** ini and end give the range of variable v. */
  ghost predicate LiveRange(ops: seq<Tac>, v: int, ini: int, end: int)
  {
    && DefFrom(ops, v, 0, ini)
    && (NeverUsed(ops, v) ==> end == UNUSED)
    && (!NeverUsed(ops, v) ==> exists u :: LastUse(ops, v, u) && EndsAt(ops, StartDepth(ops, ini), u, end))
  }

  /** x is the first definition of v from position i on, or `UNUSED` when there is none. */
  ghost predicate DefFrom(ops: seq<Tac>, v: int, i: int, x: int)
    requires 0 <= i <= |ops|
  {
    if x == UNUSED then forall j | i <= j < |ops| :: !Defines(ops[j], v)
    else i <= x < |ops| && Defines(ops[x], v) && forall j | i <= j < x :: !Defines(ops[j], v)
  }

  /** x is the last use of v before position i, or `UNUSED` when there is none. */
  ghost predicate UseBefore(ops: seq<Tac>, v: int, i: int, x: int)
    requires 0 <= i <= |ops|
  {
    if x == UNUSED then forall j | 0 <= j < i :: !Uses(ops[j], v)
    else 0 <= x < i && Uses(ops[x], v) && forall j | x < j < i :: !Uses(ops[j], v)
  }

  lemma UseStep(ops: seq<Tac>, v: int, i: nat, x: int)
    requires i < |ops| && UseBefore(ops, v, i, x)
    ensures UseBefore(ops, v, i + 1, if Uses(ops[i], v) then i else x)
  {
  }

  ghost predicate Defined(ops: seq<Tac>, v: int)
  {
    exists i :: 0 <= i < |ops| && Defines(ops[i], v)
  }

  /** Every variable the ops write or read has an entry in the arrays. */
  ghost predicate VarsBelow(ops: seq<Tac>, n: int)
  {
    forall i, v | 0 <= i < |ops| && (Defines(ops[i], v) || Uses(ops[i], v)) :: 0 <= v < n
  }

  /** First loop: backwards, so that the first definition is the one that stays. */
  method FindDefs(ops: seq<Tac>, ini: array<int>)
    requires VarsBelow(ops, ini.Length) && forall v | 0 <= v < ini.Length :: ini[v] == UNUSED
    modifies ini
    ensures forall v | 0 <= v < ini.Length :: DefFrom(ops, v, 0, ini[v])
  {
    var i := |ops|;
    while i > 0
      invariant 0 <= i <= |ops|
      invariant forall v | 0 <= v < ini.Length :: DefFrom(ops, v, i, ini[v])
    {
      i := i - 1;
      var t := ops[i];
      if Counts(t) && !IsJmp(t.op) && t.target != NO_TARGET {
        assert Defines(ops[i], t.target);
        ini[t.target] := i;
      }
    }
  }

  /** The operands of operation i are used there. */
  method Touch(ops: seq<Tac>, end: array<int>, i: nat)
    requires i < |ops| && VarsBelow(ops, end.Length)
    modifies end
    ensures forall v | 0 <= v < end.Length :: end[v] == if Uses(ops[i], v) then i else old(end[v])
  {
    var t := ops[i];
    if Counts(t) {
      if t.a >= 0 {
        assert Uses(ops[i], t.a);
        end[t.a] := i;
      }
      if t.b >= 0 && t.op != Call {
        assert Uses(ops[i], t.b);
        end[t.b] := i;
      }
    }
  }

  /** Depths and last uses over the first i operations. */
  ghost predicate Seen(ops: seq<Tac>, end: seq<int>, depth: seq<int>, i: nat)
  {
    && i <= |ops| <= |depth|
    && (forall j | 0 <= j < |depth| :: depth[j] == if j < i then Depth(ops, j) else 0)
    && (forall v | 0 <= v < |end| :: UseBefore(ops, v, i, end[v]))
  }

  lemma SeenNext(ops: seq<Tac>, end: seq<int>, depth: seq<int>, i: nat, end': seq<int>, d: int)
    requires Seen(ops, end, depth, i) && i < |ops| && d == Depth(ops, i) && |end'| == |end|
    requires forall v | 0 <= v < |end| :: end'[v] == if Uses(ops[i], v) then i else end[v]
    ensures Seen(ops, end', depth[i := d], i + 1)
  {
    hide UseBefore, Uses, Depth;
    forall v | 0 <= v < |end'|
      ensures UseBefore(ops, v, i + 1, end'[v])
    {
      UseStep(ops, v, i, end[v]);
    }
  }

  lemma SeenNone(ops: seq<Tac>, end: seq<int>, depth: seq<int>)
    requires |depth| >= |ops| && (forall j | 0 <= j < |depth| :: depth[j] == 0) && forall v | 0 <= v < |end| ::
        end[v] == UNUSED
    ensures Seen(ops, end, depth, 0)
  {
  }

  /** Second loop: loop depths, and last uses by overwriting. */
  method FindUses(ops: seq<Tac>, end: array<int>, depth: array<int>)
    requires Balanced(ops) && depth.Length >= |ops| && end != depth && forall i | 0 <= i < depth.Length :: depth[i] == 0
    requires VarsBelow(ops, end.Length) && forall v | 0 <= v < end.Length :: end[v] == UNUSED
    modifies end, depth
    ensures DepthsAre(ops, depth[..])
    ensures forall v | 0 <= v < end.Length :: UseBefore(ops, v, |ops|, end[v])
  {
    SeenNone(ops, end[..], depth[..]);
    hide Uses, VarsBelow, UseBefore, Balanced, Depth;
    var d := 0;
    var i := 0;
    while i < |ops|
      invariant 0 <= i <= |ops| && d == (if i == 0 then 0 else Depth(ops, i - 1)) && Seen(ops, end[..], depth[..], i)
    {
      d := Visit(ops, end, depth, i, d);
      i := i + 1;
    }
  }

  /** One round of the second loop. */
  method Visit(ops: seq<Tac>, end: array<int>, depth: array<int>, i: nat, before: int) returns (d: int)
    requires i < |ops| && end != depth && VarsBelow(ops, end.Length) && Seen(ops, end[..], depth[..], i)
    requires before == if i == 0 then 0 else Depth(ops, i - 1)
    modifies end, depth
    ensures d == Depth(ops, i) && Seen(ops, end[..], depth[..], i + 1)
  {
    hide Uses, VarsBelow, UseBefore, Depth;
    ghost var e, dp := end[..], depth[..];
    d := before;
    if ops[i].op == LoopBegin { d := d + 1; } else if ops[i].op == LoopEnd { d := d - 1; }
    DepthStep(ops, i);
    depth[i] := d;
    Touch(ops, end, i);
    assert depth[..] == dp[i := d];
    SeenNext(ops, e, dp, i, end[..], d);
  }

  lemma DepthStep(ops: seq<Tac>, i: nat)
    requires i < |ops|
    ensures Depth(ops, i) == (if i == 0 then 0 else Depth(ops, i - 1)) +
                             (if ops[i].op == LoopBegin then 1 else if ops[i].op == LoopEnd then -1 else 0)
  {
  }

  /** Third loop, for one variable: push the end out of loops opened after the definition. It stops
      inside the op list because every mark is closed. `depth` has an entry for every index an operation
      can have, zero past the last operation. */
  method Extend(ops: seq<Tac>, depth: array<int>, b: nat, u: nat, ghost ini: int) returns (e: nat)
    requires Balanced(ops) && |ops| < depth.Length == OP_MAX && DepthsAre(ops, depth[..])
    requires ini < |ops| && u < |ops| && b == if ini == UNUSED then OP_MAX - 1 else ini
    ensures EndsAt(ops, StartDepth(ops, ini), u, e)
  {
    e := u;
    while depth[e] > depth[b]
      invariant u <= e < |ops| && forall x | u <= x < e :: Depth(ops, x) > StartDepth(ops, ini)
      decreases |ops| - e
    {
      assert Depth(ops, |ops| - 1) == 0 <= StartDepth(ops, ini);
      e := e + 1;
    }
  }

  ghost predicate DepthsAre(ops: seq<Tac>, depth: seq<int>)
  {
    |ops| <= |depth| && forall i | 0 <= i < |depth| :: depth[i] == if i < |ops| then Depth(ops, i) else 0
  }

  /** Ranges of the variables 0 .. iv-1. Variables without a use are left alone by the third loop. */
  method Liveness(ops: seq<Tac>, iv: nat, ini: array<int>, end: array<int>)
    requires ini != end && ini.Length == end.Length && iv <= ini.Length
    requires |ops| < OP_MAX && Balanced(ops) && VarsBelow(ops, ini.Length)
    modifies ini, end
    ensures forall v | 0 <= v < iv :: LiveRange(ops, v, ini[v], end[v])
  {
    var depth := new int[OP_MAX](_ => 0);
    var i := 0;
    while i < ini.Length
      invariant 0 <= i <= ini.Length
      invariant forall j | 0 <= j < i :: ini[j] == end[j] == UNUSED
      invariant depth[..] == seq(OP_MAX, _ => 0)
    {
      ini[i], end[i] := UNUSED, UNUSED;
      i := i + 1;
    }
    assert forall j | 0 <= j < OP_MAX :: depth[j] == depth[..][j];
    FindDefs(ops, ini);
    FindUses(ops, end, depth);
    hide Balanced, Depth, VarsBelow, Uses, Defines, DepthsAre;
    ghost var first := ini[..];
    i := 0;
    while i < iv
      invariant 0 <= i <= iv && ini[..] == first && DepthsAre(ops, depth[..])
      invariant forall v | 0 <= v < iv :: DefFrom(ops, v, 0, ini[v])
      invariant forall v | 0 <= v < i :: LiveRange(ops, v, ini[v], end[v])
      invariant forall v | i <= v < iv :: UseBefore(ops, v, |ops|, end[v])
    {
      assert DefFrom(ops, i, 0, ini[i]);
      if end[i] != UNUSED {
        ghost var u := end[i];
        assert LastUse(ops, i, u);
        end[i] := Extend(ops, depth, if ini[i] == UNUSED then OP_MAX - 1 else ini[i], end[i], ini[i]);
        assert EndsAt(ops, StartDepth(ops, ini[i]), u, end[i]);
      }
      i := i + 1;
    }
  }

  /** A variable whose definition-enclosing loops all enclose its last use: its range never ends
      inside a loop opened after the definition. */
  lemma EndsOutsideLaterLoops(ops: seq<Tac>, d: nat, u: nat, e: nat, b: nat)
    requires d <= u < |ops| && EndsAt(ops, Depth(ops, d), u, e)
    requires forall j | d <= j <= u :: Depth(ops, j) >= Depth(ops, d)
    requires d < b <= e && ops[b].op == LoopBegin
    ensures exists j :: b < j <= e && Depth(ops, j) < Depth(ops, b)
  {
    assert Depth(ops, b - 1) >= Depth(ops, d);
    assert Depth(ops, e) < Depth(ops, b);
  }

  // --- loops --------------------------------------------------------------------------------

  /** Loops opened at or after b and still open in front of j. */
  function Opened(ops: seq<Tac>, b: nat, j: nat): int
    requires b <= j <= |ops|
    decreases j - b
  {
    if j == b then 0
    else if ops[j - 1].op == LoopBegin then Opened(ops, b, j - 1) + 1
    else if ops[j - 1].op == LoopEnd then Opened(ops, b, j - 1) - 1
    else Opened(ops, b, j - 1)
  }

  /** The marks at b and e belong together. */
  ghost predicate Loop(ops: seq<Tac>, b: nat, e: nat)
  {
    && b < e < |ops| && ops[b].op == LoopBegin && ops[e].op == LoopEnd && Opened(ops, b, e + 1) == 0
    && forall j | b < j <= e :: Opened(ops, b, j) > 0
  }

  function DepthBefore(ops: seq<Tac>, b: nat): int
    requires b <= |ops|
  {
    if b == 0 then 0 else Depth(ops, b - 1)
  }

  lemma {:induction false} DepthOpened(ops: seq<Tac>, b: nat, j: nat)
    requires b <= j < |ops|
    ensures Depth(ops, j) == DepthBefore(ops, b) + Opened(ops, b, j + 1)
    decreases j
  {
    if j > b { DepthOpened(ops, b, j - 1); }
  }

  /** What the extension is for: a variable that exists when a loop is entered, defined in no loop that has been left
      by then, and that is used in the loop, lives until the loop's end. */
  lemma LiveThroughLoop(ops: seq<Tac>, v: int, ini: int, end: int, b: nat, e: nat, i: nat)
    requires LiveRange(ops, v, ini, end) && Loop(ops, b, e) && b < i < e && Uses(ops[i], v) && ini < b
    requires StartDepth(ops, ini) <= DepthBefore(ops, b)
    ensures end >= e
  {
    hide DefFrom, Uses, StartDepth;
    var u :| LastUse(ops, v, u) && EndsAt(ops, StartDepth(ops, ini), u, end);
    if u < e {
      forall j | u <= j < e
        ensures Depth(ops, j) > StartDepth(ops, ini)
      {
        DepthOpened(ops, b, j);
      }
    }
  }
}
