/** What a phi frame means: which variables its block has assigned, with the value each had on entry
    and the ones it has now, over any history of insertions, across both branches of a conditional,
    and through merges. */
module Versions {
  import opened Ir
  import opened Phi

  /** An assignment made the new version `val` out of the version `was`. */
  datatype Assign = Assign(val: int, was: int)

  /** The frame f after a further history of ir_phi_ins calls. */
  function FrameFrom(f: seq<Entry>, h: seq<Assign>): seq<Entry>
  {
    if h == [] then f else Insert(FrameFrom(f, h[..|h| - 1]), h[|h| - 1].val, h[|h| - 1].was)
  }

  function FrameOf(h: seq<Assign>): seq<Entry> { FrameFrom([], h) }

  /** Each version is superseded at most once, and a new version is new. */
  ghost predicate Versioned(h: seq<Assign>)
  {
    && (forall i, j | 0 <= i < j < |h| :: h[i].was != h[j].was && h[i].val != h[j].val)
    && (forall i, j | 0 <= i <= j < |h| :: h[j].val != h[i].was)
  }

  /** x was superseded. */
  ghost predicate Assigned(h: seq<Assign>, x: int)
  {
    exists i :: 0 <= i < |h| && h[i].was == x
  }

  /** x was not made by the history. */
  ghost predicate Original(h: seq<Assign>, x: int)
  {
    forall i | 0 <= i < |h| :: h[i].val != x
  }

  /** What the history supersedes is in `entry`, the versions that exist when the block is entered, or
      was made by the history before. A version that some other block has made is neither. */
  ghost predicate Grounded(entry: set<int>, h: seq<Assign>)
  {
    && (forall i | 0 <= i < |h| :: h[i].val !in entry)
    && (forall i | 0 <= i < |h| :: h[i].was in entry || !Original(h[..i], h[i].was))
  }

  /** The histories of two branches: neither uses what the other makes. */
  ghost predicate Separate(g: seq<Assign>, h: seq<Assign>)
  {
    forall i, j | 0 <= i < |g| && 0 <= j < |h| :: g[i].val != h[j].was && h[j].val != g[i].was && g[i].val != h[j].val
  }

  /** The version that x has become. */
  function Latest(h: seq<Assign>, x: int): int
  {
    if h == [] then x
    else
      var y := Latest(h[..|h| - 1], x);
      if y == h[|h| - 1].was then h[|h| - 1].val else y
  }

  /** e.b is a version assigned in one of the branches, with its latest version in each. Outside an
      else branch g is empty, and e.target is e.b. */
  ghost predicate EntryTracks(g: seq<Assign>, h: seq<Assign>, e: Entry)
  {
    && e.target == Latest(g, e.b) && e.a == Latest(h, e.b)
    && Original(g, e.b) && Original(h, e.b) && (Assigned(g, e.b) || Assigned(h, e.b))
  }

  ghost predicate HasEntry(f: seq<Entry>, x: int)
  {
    exists i :: 0 <= i < |f| && f[i].b == x
  }

  /** The frame has exactly one entry for each version assigned. */
  ghost predicate Tracks(g: seq<Assign>, h: seq<Assign>, f: seq<Entry>)
  {
    && (forall i | 0 <= i < |f| :: EntryTracks(g, h, f[i]))
    && (forall i, j | 0 <= i < j < |f| :: f[i].b != f[j].b)
    && (forall x | Original(g, x) && Original(h, x) && (Assigned(g, x) || Assigned(h, x)) :: HasEntry(f, x))
  }

  lemma VersionedPrefix(h: seq<Assign>)
    requires Versioned(h) && h != []
    ensures Versioned(h[..|h| - 1])
  {
  }

  lemma PrefixFacts(h: seq<Assign>, x: int)
    requires h != []
    ensures Assigned(h, x) <==> Assigned(h[..|h| - 1], x) || h[|h| - 1].was == x
    ensures Original(h, x) <==> Original(h[..|h| - 1], x) && h[|h| - 1].val != x
  {
    var g := h[..|h| - 1];
    assert forall i | 0 <= i < |g| :: g[i] == h[i];
    if Assigned(g, x) {
      var i :| 0 <= i < |g| && g[i].was == x;
      assert h[i].was == x;
    }
  }

  lemma {:induction false} LatestUnassigned(h: seq<Assign>, x: int)
    requires !Assigned(h, x)
    ensures Latest(h, x) == x
  {
    if h != [] {
      PrefixFacts(h, x);
      LatestUnassigned(h[..|h| - 1], x);
    }
  }

  /** The latest version of x is x or a version made by the history. */
  lemma {:induction false} LatestIs(h: seq<Assign>, x: int)
    ensures Latest(h, x) == x || !Original(h, Latest(h, x))
  {
    if h != [] {
      LatestIs(h[..|h| - 1], x);
      PrefixFacts(h, Latest(h, x));
    }
  }

  /** Once superseded, never the same again. */
  lemma {:induction false} LatestMoves(h: seq<Assign>, x: int)
    requires Versioned(h) && Original(h, x) && Assigned(h, x)
    ensures Latest(h, x) != x
  {
    var n := |h| - 1;
    PrefixFacts(h, x);
    VersionedPrefix(h);
    if Assigned(h[..n], x) {
      LatestMoves(h[..n], x);
    } else {
      LatestUnassigned(h[..n], x);
    }
  }

  /** The latest version is not superseded. */
  lemma {:induction false} LatestStands(h: seq<Assign>, x: int)
    requires Versioned(h) && Original(h, x)
    ensures !Assigned(h, Latest(h, x))
  {
    if h != [] {
      var p, last := h[..|h| - 1], h[|h| - 1];
      VersionedPrefix(h);
      PrefixFacts(h, x);
      LatestStands(p, x);
      PrefixFacts(h, Latest(h, x));
      NotMadeBefore(h);
    }
  }

  /** What is made last was not superseded. */
  lemma NotMadeBefore(h: seq<Assign>)
    requires Versioned(h) && h != []
    ensures !Assigned(h, h[|h| - 1].val)
  {
  }

  /** Different entry versions never become the same. */
  lemma {:induction false} LatestInjective(h: seq<Assign>, x: int, y: int)
    requires Versioned(h) && Original(h, x) && Original(h, y) && Latest(h, x) == Latest(h, y)
    ensures x == y
  {
    if h != [] {
      var n := |h| - 1;
      var g := h[..n];
      VersionedPrefix(h);
      PrefixFacts(h, x);
      PrefixFacts(h, y);
      NewIsNew(h, x);
      NewIsNew(h, y);
      LatestInjective(g, x, y);
    }
  }

  /** The version made last was nobody's latest version before. */
  lemma NewIsNew(h: seq<Assign>, x: int)
    requires Versioned(h) && h != [] && Original(h, x)
    ensures Latest(h[..|h| - 1], x) != h[|h| - 1].val
  {
    var g, v := h[..|h| - 1], h[|h| - 1].val;
    LatestIs(g, x);
    assert Original(g, v);
  }

  /** A version made by the history and not superseded is the latest of some entry version. */
  lemma {:induction false} Rooted(h: seq<Assign>, v: int) returns (x: int)
    requires Versioned(h) && !Original(h, v) && !Assigned(h, v)
    ensures Original(h, x) && Assigned(h, x) && Latest(h, x) == v
  {
    var n := |h| - 1;
    var g, last := h[..n], h[n];
    VersionedPrefix(h);
    PrefixFacts(h, v);
    if v == last.val {
      NotBefore(h);
      PrefixFacts(h, last.was);
      if Original(g, last.was) {
        x := last.was;
        LatestUnassigned(g, x);
      } else {
        x := Rooted(g, last.was);
      }
    } else {
      x := Rooted(g, v);
    }
    PrefixFacts(h, x);
    NeverMade(h, x);
  }

  lemma NotBefore(h: seq<Assign>)
    requires Versioned(h) && h != []
    ensures !Assigned(h[..|h| - 1], h[|h| - 1].was)
  {
  }

  /** What was superseded by now is not made last. */
  lemma NeverMade(h: seq<Assign>, x: int)
    requires Versioned(h) && h != [] && Assigned(h, x)
    ensures h[|h| - 1].val != x
  {
  }

  /** The meaning of a frame: over every history that supersedes versions of the block's entry or its
      own, each once, it has exactly one entry for each of the former it assigned, between that
      version and the latest. */
  lemma {:induction false} FrameTracks(entry: set<int>, h: seq<Assign>)
    requires Versioned(h) && Grounded(entry, h)
    ensures Tracks([], h, FrameOf(h)) && forall e | e in FrameOf(h) :: e.b in entry
  {
    BranchTracks([], [], h);
    forall e | e in FrameOf(h)
      ensures e.b in entry
    {
      var i :| 0 <= i < |FrameOf(h)| && FrameOf(h)[i] == e;
      assert EntryTracks([], h, e);
      var j :| 0 <= j < |h| && h[j].was == e.b;
      assert Original(h[..j], h[j].was);
    }
  }

  /** The same from any frame that tracks a first branch. */
  lemma {:induction false} BranchTracks(g: seq<Assign>, f: seq<Entry>, h: seq<Assign>)
    requires Versioned(h) && Separate(g, h) && Tracks(g, [], f)
    ensures Tracks(g, h, FrameFrom(f, h))
  {
    if h != [] {
      var n := |h| - 1;
      VersionedPrefix(h);
      BranchTracks(g, f, h[..n]);
      InsertTracks(g, h, FrameFrom(f, h[..n]));
    }
  }

  /** The entry that the search finds is the one for the superseded version. */
  lemma FoundIs(g: seq<Assign>, h: seq<Assign>, f: seq<Entry>, i: nat)
    requires Versioned(h) && Separate(g, h) && h != [] && Tracks(g, h[..|h| - 1], f) && i < |f|
    ensures f[i].b == h[|h| - 1].was ==> f[i].a == f[i].b
    ensures Original(h, f[i].b) && f[i].a == Latest(h[..|h| - 1], f[i].b)
    ensures Latest(h, f[i].b) == if f[i].a == h[|h| - 1].was then h[|h| - 1].val else f[i].a
  {
    var p, last := h[..|h| - 1], h[|h| - 1];
    assert EntryTracks(g, p, f[i]);
    PrefixFacts(h, f[i].b);
    NotBefore(h);
    if Assigned(p, f[i].b) { NeverMade(h, f[i].b); }
    if f[i].b == last.was { LatestUnassigned(p, f[i].b); }
  }

  lemma InsertTracks(g: seq<Assign>, h: seq<Assign>, f: seq<Entry>)
    requires Versioned(h) && Separate(g, h) && h != [] && Tracks(g, h[..|h| - 1], f)
    ensures Tracks(g, h, Insert(f, h[|h| - 1].val, h[|h| - 1].was))
  {
    var i := Find(f, h[|h| - 1].was);
    if i < |f| {
      FoundIs(g, h, f, i);
      UpdateTracks(g, h, f, i);
    } else {
      GrowTracks(g, h, f);
    }
  }

  lemma UpdateTracks(g: seq<Assign>, h: seq<Assign>, f: seq<Entry>, i: nat)
    requires Versioned(h) && Separate(g, h) && h != [] && Tracks(g, h[..|h| - 1], f) && i < |f| &&
        f[i].a == h[|h| - 1].was
    ensures Tracks(g, h, f[i := f[i].(a := h[|h| - 1].val)])
  {
    var p, last := h[..|h| - 1], h[|h| - 1];
    var r := f[i := f[i].(a := last.val)];
    VersionedPrefix(h);
    forall j | 0 <= j < |r|
      ensures EntryTracks(g, h, r[j])
    {
      FoundIs(g, h, f, j);
      assert EntryTracks(g, p, f[j]) && EntryTracks(g, p, f[i]);
      PrefixFacts(h, f[j].b);
      if j != i && f[j].a == f[i].a { LatestInjective(p, f[j].b, f[i].b); }
      if j == i { Superseded(h, f[i].b); }
    }
    forall x | Original(g, x) && Original(h, x) && (Assigned(g, x) || Assigned(h, x))
      ensures HasEntry(r, x)
    {
      PrefixFacts(h, x);
      if !Assigned(g, x) && !Assigned(p, x) {
        assert EntryTracks(g, p, f[i]);
        LatestIs(p, f[i].b);
      }
      assert HasEntry(f, x);
      var j :| 0 <= j < |f| && f[j].b == x;
      assert r[j].b == x;
    }
  }

  /** An entry version whose latest version was superseded has been assigned. */
  lemma Superseded(h: seq<Assign>, x: int)
    requires Versioned(h) && h != [] && Latest(h[..|h| - 1], x) == h[|h| - 1].was
    ensures Assigned(h, x)
  {
    var p := h[..|h| - 1];
    PrefixFacts(h, x);
    if !Assigned(p, x) { LatestUnassigned(p, x); }
  }

  /** A version made and not superseded is the latest one of some entry. */
  lemma MadeIsHeld(g: seq<Assign>, h: seq<Assign>, f: seq<Entry>, v: int)
    requires Versioned(h) && Separate(g, h) && Tracks(g, h, f) && !Original(h, v) && !Assigned(h, v)
    ensures exists j :: 0 <= j < |f| && f[j].a == v
  {
    var x := Rooted(h, v);
    var i :| 0 <= i < |h| && h[i].was == x;
    assert Original(g, x);
    assert HasEntry(f, x);
    var j :| 0 <= j < |f| && f[j].b == x;
    assert EntryTracks(g, h, f[j]);
  }

  lemma SeparatePrefix(g: seq<Assign>, h: seq<Assign>)
    requires Separate(g, h) && h != []
    ensures Separate(g, h[..|h| - 1]) && Original(g, h[|h| - 1].was) && !Assigned(g, h[|h| - 1].val)
  {
  }

  lemma GrowTracks(g: seq<Assign>, h: seq<Assign>, f: seq<Entry>)
    requires Versioned(h) && Separate(g, h) && h != [] && Tracks(g, h[..|h| - 1], f)
    requires forall j | 0 <= j < |f| :: f[j].a != h[|h| - 1].was && f[j].b != h[|h| - 1].was
    ensures Tracks(g, h, [Entry(h[|h| - 1].val, h[|h| - 1].was, h[|h| - 1].was)] + f)
  {
    var p, last := h[..|h| - 1], h[|h| - 1];
    var r := [Entry(last.val, last.was, last.was)] + f;
    VersionedPrefix(h);
    SeparatePrefix(g, h);
    NotBefore(h);
    if !Original(p, last.was) { MadeIsHeld(g, p, f, last.was); }
    NewEntry(g, h, f);
    forall j | 0 <= j < |f|
      ensures EntryTracks(g, h, f[j])
    {
      FoundIs(g, h, f, j);
      assert EntryTracks(g, p, f[j]);
      PrefixFacts(h, f[j].b);
    }
    forall x | Original(g, x) && Original(h, x) && (Assigned(g, x) || Assigned(h, x))
      ensures HasEntry(r, x)
    {
      PrefixFacts(h, x);
      if x == last.was {
        assert r[0].b == x;
      } else {
        assert HasEntry(f, x);
        var j :| 0 <= j < |f| && f[j].b == x;
        assert r[j + 1].b == x;
      }
    }
  }

  lemma NewEntry(g: seq<Assign>, h: seq<Assign>, f: seq<Entry>)
    requires Versioned(h) && Separate(g, h) && h != [] && Tracks(g, h[..|h| - 1], f)
    requires Original(h[..|h| - 1], h[|h| - 1].was) && forall j | 0 <= j < |f| :: f[j].b != h[|h| - 1].was
    ensures EntryTracks(g, h, Entry(h[|h| - 1].val, h[|h| - 1].was, h[|h| - 1].was))
  {
    var p, w := h[..|h| - 1], h[|h| - 1].was;
    NotBefore(h);
    SeparatePrefix(g, h);
    LatestUnassigned(p, w);
    PrefixFacts(h, w);
    assert !HasEntry(f, w);
    LatestUnassigned(g, w);
  }

  // --- conditionals -------------------------------------------------------------------------

  /** parse_if before an else branch: the entry version becomes current again, the latest version of
      the first branch is kept in the target. */
  function Turned(f: seq<Entry>): (r: seq<Entry>)
    ensures |r| == |f| && forall i | 0 <= i < |r| :: r[i] == Entry(f[i].b, f[i].b, f[i].a)
  {
    seq(|f|, i requires 0 <= i < |f| => Entry(f[i].b, f[i].b, f[i].a))
  }

  /** parse_if after an else branch: the latest versions of both branches become the operands. */
  function Joined(f: seq<Entry>): (r: seq<Entry>)
    ensures |r| == |f| && forall i | 0 <= i < |r| :: r[i] == Entry(f[i].a, f[i].target, f[i].b)
  {
    seq(|f|, i requires 0 <= i < |f| => Entry(f[i].a, f[i].target, f[i].b))
  }

  lemma TurnTracks(g: seq<Assign>, f: seq<Entry>)
    requires Tracks([], g, f)
    ensures Tracks(g, [], Turned(f))
  {
    var r := Turned(f);
    forall i | 0 <= i < |r|
      ensures EntryTracks(g, [], r[i])
    {
      assert EntryTracks([], g, f[i]);
    }
    forall x | Original(g, x) && Original([], x) && (Assigned(g, x) || Assigned([], x))
      ensures HasEntry(r, x)
    {
      assert HasEntry(f, x);
      var i :| 0 <= i < |f| && f[i].b == x;
      assert r[i].b == x;
    }
  }

  /** A frame ready to be committed: exactly one entry for each version assigned in a branch, a phi of
      that version's latest versions in the two branches. */
  ghost predicate Joins(g: seq<Assign>, h: seq<Assign>, f: seq<Entry>)
  {
    && (forall i | 0 <= i < |f| :: EntryTracks(g, h, Entry(f[i].a, f[i].target, f[i].b)))
    && (forall i, j | 0 <= i < j < |f| :: f[i].target != f[j].target)
    && (forall x | Original(g, x) && Original(h, x) && (Assigned(g, x) || Assigned(h, x)) ::
          exists i :: 0 <= i < |f| && f[i].target == x)
  }

  /** The frame of a conditional joins its two branches; g is the first branch's history, h that of
      the else branch. */
  lemma ConditionalJoins(g: seq<Assign>, h: seq<Assign>)
    requires Versioned(g) && Versioned(h) && Separate(g, h)
    ensures Joins(g, h, Joined(FrameFrom(Turned(FrameOf(g)), h)))
  {
    BranchTracks([], [], g);
    TurnTracks(g, FrameOf(g));
    BranchTracks(g, Turned(FrameOf(g)), h);
    TracksJoins(g, h, FrameFrom(Turned(FrameOf(g)), h));
  }

  lemma TracksJoins(g: seq<Assign>, h: seq<Assign>, f: seq<Entry>)
    requires Tracks(g, h, f)
    ensures Joins(g, h, Joined(f))
    ensures g == [] ==> Joined(f) == f
  {
    var r := Joined(f);
    forall i | 0 <= i < |r|
      ensures EntryTracks(g, h, Entry(r[i].a, r[i].target, r[i].b)) && (g == [] ==> r[i] == f[i])
    {
      assert EntryTracks(g, h, f[i]);
    }
    forall x | Original(g, x) && Original(h, x) && (Assigned(g, x) || Assigned(h, x))
      ensures exists i :: 0 <= i < |r| && r[i].target == x
    {
      assert HasEntry(f, x);
      var i :| 0 <= i < |f| && f[i].b == x;
      assert r[i].target == x;
    }
  }

  // --- commits ------------------------------------------------------------------------------

  /** The assignments that committing entries |f|-1 down to k of frame f makes in the outer frame. */
  function Merged(f: seq<Entry>, iv: int, k: nat): (r: seq<Assign>)
    requires k <= |f|
    ensures |r| == |f| - k
    ensures forall i | 0 <= i < |r| :: r[i] == Assign(iv + i, f[|f| - 1 - i].target)
    decreases |f| - k
  {
    if k == |f| then [] else Merged(f, iv, k + 1) + [Assign(iv + (|f| - 1 - k), f[k].target)]
  }

  /** Committing an inner frame continues the outer frame's history. */
  lemma {:induction false} MergeContinues(rest: seq<seq<Entry>>, f: seq<Entry>, iv: int, k: nat, f0: seq<Entry>,
                                          h: seq<Assign>)
    requires rest != [] && rest[0] == FrameFrom(f0, h) && k <= |f|
    ensures Merge(rest, f, iv, k) == [FrameFrom(f0, h + Merged(f, iv, k))] + rest[1..]
    decreases |f| - k
  {
    hide Merge, Insert, Merged, FrameFrom;
    MergeStep(rest, f, iv, k);
    MergedStep(f, iv, k);
    if k == |f| {
      assert h + [] == h;
    } else {
      MergeContinues(rest, f, iv, k + 1, f0, h);
      var m := Merged(f, iv, k + 1);
      var p := Assign(iv + (|f| - 1 - k), f[k].target);
      FrameSnoc(f0, h + m, p);
      assert h + (m + [p]) == h + m + [p];
      var r := [FrameFrom(f0, h + m)] + rest[1..];
      assert r[0] == FrameFrom(f0, h + m) && r[1..] == rest[1..];
    }
  }

  lemma MergedStep(f: seq<Entry>, iv: int, k: nat)
    requires k <= |f|
    ensures k == |f| ==> Merged(f, iv, k) == []
    ensures k < |f| ==> Merged(f, iv, k) == Merged(f, iv, k + 1) + [Assign(iv + (|f| - 1 - k), f[k].target)]
  {
  }

  lemma FrameSnoc(f: seq<Entry>, h: seq<Assign>, p: Assign)
    ensures FrameFrom(f, h + [p]) == Insert(FrameFrom(f, h), p.val, p.was)
  {
    assert (h + [p])[..|h|] == h;
  }

  /** All versions of the history are below iv. */
  ghost predicate Below(h: seq<Assign>, iv: int)
  {
    forall i | 0 <= i < |h| :: h[i].val < iv && h[i].was < iv
  }

  /** Version x is a current one in the block with histories o and h: one it made and did not
      supersede, or one from its entry that it did not supersede. */
  ghost predicate Current(entry: set<int>, o: seq<Assign>, h: seq<Assign>, x: int)
  {
    !Assigned(h, x) && Original(o, x) && (x in entry || !Original(h, x))
  }

  /** The commit of an inner frame with branches g and k, whose entry versions are current in the
      outer block, under fresh variables from iv on: the outer frame tracks its own history followed
      by one assignment for each version that the inner block assigned, and that history is again
      one of new versions superseded once and grounded in the outer block's entry. */
  lemma CommitTracks(entry: set<int>, o: seq<Assign>, f0: seq<Entry>, h: seq<Assign>, rest: seq<seq<Entry>>,
                     g: seq<Assign>, k: seq<Assign>, f: seq<Entry>, iv: int)
    requires Tracks(o, [], f0) && rest != [] && rest[0] == FrameFrom(f0, h)
    requires Versioned(h) && Grounded(entry, h) && Separate(o, h) && Below(o, iv) && Below(h, iv)
    requires Joins(g, k, f) && forall e | e in f :: e.target < iv && Current(entry, o, h, e.target)
    requires forall x | x in entry :: x < iv
    ensures var all := h + Merged(f, iv, 0);
            && Versioned(all) && Grounded(entry, all) && Separate(o, all)
            && Merge(rest, f, iv, 0) == [FrameFrom(f0, all)] + rest[1..] && Tracks(o, all, FrameFrom(f0, all))
  {
    var m := Merged(f, iv, 0);
    MergeContinues(rest, f, iv, 0, f0, h);
    forall j | 0 <= j < |m|
      ensures Current(entry, o, h, m[j].was) && m[j].was < iv && m[j].val == iv + j && m[j].was == f[|f| - 1 - j].target
    {
      assert f[|f| - 1 - j] in f;
    }
    MergedVersioned(h, m, iv);
    MergedGrounded(entry, o, h, m, iv);
    BranchTracks(o, f0, h + m);
  }

  lemma MergedGrounded(entry: set<int>, o: seq<Assign>, h: seq<Assign>, m: seq<Assign>, iv: int)
    requires Grounded(entry, h) && Separate(o, h) && Below(o, iv) && forall x | x in entry :: x < iv
    requires forall j | 0 <= j < |m| :: Current(entry, o, h, m[j].was) && m[j].val == iv + j
    ensures Grounded(entry, h + m) && Separate(o, h + m)
  {
    var all := h + m;
    forall i | 0 <= i < |all|
      ensures all[i].was in entry || !Original(all[..i], all[i].was)
    {
      if i < |h| {
        assert all[..i] == h[..i];
      } else {
        var w := m[i - |h|].was;
        assert Current(entry, o, h, w);
        if w !in entry {
          var q :| 0 <= q < |h| && h[q].val == w;
          assert all[..i][q].val == w;
        }
      }
    }
    forall i, j | 0 <= i < |o| && 0 <= j < |all|
      ensures o[i].val != all[j].was && all[j].val != o[i].was && o[i].val != all[j].val
    {
      if j >= |h| { assert Current(entry, o, h, m[j - |h|].was); }
    }
  }

  lemma MergedVersioned(h: seq<Assign>, m: seq<Assign>, iv: int)
    requires Versioned(h) && Below(h, iv)
    requires forall j | 0 <= j < |m| :: !Assigned(h, m[j].was) && m[j].was < iv && m[j].val == iv + j
    requires forall i, j | 0 <= i < j < |m| :: m[i].was != m[j].was
    ensures Versioned(h + m)
  {
    var all := h + m;
    forall i, j | 0 <= i < j < |all|
      ensures all[i].was != all[j].was && all[i].val != all[j].val
    {
      if i < |h| <= j { assert !Assigned(h, m[j - |h|].was) && all[i] == h[i]; }
    }
    forall i, j | 0 <= i <= j < |all|
      ensures all[j].val != all[i].was
    {
    }
  }
}
