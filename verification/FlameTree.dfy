/**
 * The weighted prefix tree that tools/aggregate-time-profile.py builds from profiler samples, as
 * nodes linked through dictionaries, and the chains its rendering collapses.
 */
module FlameTree {
  import opened Bytes

  type Path = seq<string>

  datatype Frame = Frame(binary: string, name: string)

  /** One row: a weight and a backtrace, leaf first; a row may have none. */
  datatype Sample = Sample(weight: int, backtrace: Option<seq<Frame>>)

  /** What a row means for the tree: its weight and its stack, root first. */
  datatype Hit = Hit(weight: int, stack: Path)

  /** The stack from root to leaf, each name shortened. */
  function Rooted(short: string -> string, frames: seq<Frame>): (p: Path)
    ensures |p| == |frames|
  {
    if frames == [] then [] else Rooted(short, frames[1..]) + [short(frames[0].name)]
  }

  lemma {:induction false} RootedAt(short: string -> string, frames: seq<Frame>, i: nat)
    requires i < |frames|
    ensures Rooted(short, frames)[i] == short(frames[|frames| - 1 - i].name)
  {
    if i < |frames| - 1 {
      RootedAt(short, frames[1..], i);
    }
  }

  // ---- weights of a list of hits -------------------------------------------------------

  /** The weight of the hits whose stack starts with `p`. */
  function Through(hits: seq<Hit>, p: Path): int
  {
    if hits == [] then 0
    else Through(hits[..|hits| - 1], p) + if p <= hits[|hits| - 1].stack then hits[|hits| - 1].weight else 0
  }

  /** The weight of the hits whose stack is `p`. */
  function Ending(hits: seq<Hit>, p: Path): int
  {
    if hits == [] then 0
    else Ending(hits[..|hits| - 1], p) + if p == hits[|hits| - 1].stack then hits[|hits| - 1].weight else 0
  }

  predicate Reached(hits: seq<Hit>, p: Path)
  {
    exists i :: 0 <= i < |hits| && p <= hits[i].stack
  }

  lemma {:induction false} UnreachedIsWeightless(hits: seq<Hit>, p: Path)
    requires !Reached(hits, p)
    ensures Through(hits, p) == 0 && Ending(hits, p) == 0
  {
    if hits != [] {
      var init := hits[..|hits| - 1];
      assert !(p <= hits[|hits| - 1].stack);
      assert forall i :: 0 <= i < |init| ==> init[i] == hits[i];
      UnreachedIsWeightless(init, p);
    }
  }

  lemma OneMoreHit(hits: seq<Hit>, h: Hit, p: Path)
    ensures Through(hits + [h], p) == Through(hits, p) + if p <= h.stack then h.weight else 0
    ensures Ending(hits + [h], p) == Ending(hits, p) + if p == h.stack then h.weight else 0
    ensures Reached(hits + [h], p) <==> Reached(hits, p) || p <= h.stack
  {
    var all := hits + [h];
    assert all[..|all| - 1] == hits;
    if Reached(hits, p) {
      var i :| 0 <= i < |hits| && p <= hits[i].stack;
      assert p <= all[i].stack;
    }
    if p <= h.stack {
      assert p <= all[|hits|].stack;
    }
  }

  predicate Distinct<T(==)>(ks: seq<T>)
  {
    forall i, j :: 0 <= i < j < |ks| ==> ks[i] != ks[j]
  }

  /** The weight through the extensions of `p` by `ks`. */
  function ThroughEach(hits: seq<Hit>, p: Path, ks: seq<string>): int
  {
    if ks == [] then 0 else ThroughEach(hits, p, ks[..|ks| - 1]) + Through(hits, p + [ks[|ks| - 1]])
  }

  predicate Enters(h: Hit, p: Path, ks: seq<string>)
  {
    p < h.stack && h.stack[|p|] in ks
  }

  lemma EntersOnce(h: Hit, p: Path, ks: seq<string>)
    requires Distinct(ks) && ks != []
    ensures var init, k := ks[..|ks| - 1], ks[|ks| - 1];
      && Distinct(init)
      && !(Enters(h, p, init) && p + [k] <= h.stack)
      && (Enters(h, p, ks) <==> Enters(h, p, init) || p + [k] <= h.stack)
  {
    var init, k := ks[..|ks| - 1], ks[|ks| - 1];
    assert ks == init + [k];
    Extends(h.stack, p, k);
  }

  lemma {:induction false} OneMoreHitForEach(hits: seq<Hit>, h: Hit, p: Path, ks: seq<string>)
    requires Distinct(ks)
    ensures ThroughEach(hits + [h], p, ks) == ThroughEach(hits, p, ks) + if Enters(h, p, ks) then h.weight else 0
  {
    hide Through, Enters, Distinct;
    if ks != [] {
      EntersOnce(h, p, ks);
      OneMoreHitForEach(hits, h, p, ks[..|ks| - 1]);
      OneMoreHit(hits, h, p + [ks[|ks| - 1]]);
    } else {
      assert !Enters(h, p, []) by { EntersNothing(h, p); }
    }
  }

  lemma EntersNothing(h: Hit, p: Path)
    ensures !Enters(h, p, [])
  {
  }

  lemma Extends(s: Path, p: Path, k: string)
    ensures p + [k] <= s <==> p < s && s[|p|] == k
  {
    if p + [k] <= s {
      assert (p + [k])[..|p|] == p && s[..|p|] == p;
    }
    if p < s && s[|p|] == k {
      assert s[..|p| + 1] == p + [k];
    }
  }

  /** Conservation: what passes a path ends there or goes on through exactly one extension. */
  lemma {:induction false} WeightSplits(hits: seq<Hit>, p: Path, ks: seq<string>)
    requires Distinct(ks) && forall k :: Reached(hits, p + [k]) ==> k in ks
    ensures Through(hits, p) == Ending(hits, p) + ThroughEach(hits, p, ks)
  {
    if hits == [] {
      NothingForEach(p, ks);
    } else {
      var init, h := hits[..|hits| - 1], hits[|hits| - 1];
      assert hits == init + [h];
      forall k | Reached(init, p + [k]) ensures k in ks {
        OneMoreHit(init, h, p + [k]);
      }
      WeightSplits(init, p, ks);
      OneMoreHit(init, h, p);
      OneMoreHitForEach(init, h, p, ks);
      if p < h.stack {
        Extends(h.stack, p, h.stack[|p|]);
        OneMoreHit(init, h, p + [h.stack[|p|]]);
      }
    }
  }

  lemma {:induction false} NothingForEach(p: Path, ks: seq<string>)
    ensures ThroughEach([], p, ks) == 0
  {
    if ks != [] {
      NothingForEach(p, ks[..|ks| - 1]);
    }
  }

  // ---- the tree ------------------------------------------------------------------------

  /** A dictionary of the source's: {"w": 0, "self": 0, "kids": {}}. */
  class Node {
    var w: int
    var self: int
    var kids: map<string, Node>

    constructor ()
      ensures w == 0 && self == 0 && kids == map[]
    {
      w, self, kids := 0, 0, map[];
    }
  }

  lemma LastIsUnique(p: Path, j: string, q: Path, k: string)
    ensures p + [j] == q + [k] <==> p == q && j == k
  {
    if p + [j] == q + [k] {
      assert (p + [j])[..|p|] == p && (q + [k])[..|q|] == q;
      assert (p + [j])[|p|] == j && (q + [k])[|q|] == k;
    }
  }

  class Tree {
    const short: string -> string
    const root: Node
    /** The nodes by their paths. */
    ghost var nodes: map<Path, Node>
    /** The rows counted so far. */
    ghost var hits: seq<Hit>

    /** The dictionaries are the tree of the paths: a child is where its parent says, and nowhere else. */
    ghost predicate Linked(p: Path, k: string)
      reads this, nodes.Values
    {
      if p in nodes then
        (k in nodes[p].kids <==> p + [k] in nodes) && (k in nodes[p].kids ==> nodes[p].kids[k] == nodes[p + [k]])
      else
        p + [k] !in nodes
    }

    ghost predicate Shaped()
      reads this, nodes.Values
    {
      && [] in nodes && nodes[[]] == root
      && (forall p, k :: Linked(p, k))
      && (forall p, q :: p in nodes && q in nodes && p != q ==> nodes[p] != nodes[q])
    }

    /** The nodes are the prefixes of the stacks counted, and of what is done of the current one. */
    ghost predicate Member(p: Path, done: Path)
      reads this
    {
      p in nodes <==> p == [] || Reached(hits, p) || p <= done
    }

    /** A node's weights are those of the hits counted, and `more` if the current one has passed it. */
    ghost predicate Weighs(p: Path, more: int, done: Path)
      reads this, nodes.Values
    {
      p in nodes ==>
        if p == [] then nodes[p].w == 0 && nodes[p].self == 0
        else nodes[p].w == Through(hits, p) + (if p <= done then more else 0) && nodes[p].self == Ending(hits, p)
    }

    ghost predicate Counted(more: int, done: Path)
      reads this, nodes.Values
    {
      (forall p :: Member(p, done)) && (forall p :: Weighs(p, more, done))
    }

    ghost predicate Valid()
      reads this, nodes.Values
    {
      Shaped() && Counted(0, [])
    }

    constructor (shorten: string -> string)
      ensures Valid() && short == shorten && hits == [] && fresh(nodes.Values)
    {
      short := shorten;
      root := new Node();
      hits := [];
      new;
      nodes := map[[] := root];
      forall p, k: string ensures Linked(p, k) {
        assert p + [k] != [];
      }
    }

    /** kids.setdefault. */
    method SetDefault(node: Node, ghost p: Path, k: string) returns (child: Node)
      requires Shaped() && p in nodes && nodes[p] == node
      modifies this`nodes, node`kids
      ensures Shaped()
      ensures p + [k] in nodes && nodes[p + [k]] == child
      ensures nodes == old(nodes)[p + [k] := child]
      ensures p + [k] in old(nodes) ==> child == old(nodes[p + [k]])
      ensures p + [k] !in old(nodes) ==> fresh(child) && child.w == 0 && child.self == 0
    {
      assert Linked(p, k);
      if k in node.kids {
        return node.kids[k];
      }
      child := new Node();
      node.kids := node.kids[k := child];
      nodes := nodes[p + [k] := child];
      forall q, j ensures Linked(q, j) {
        assert old(Linked(q, j));
        LastIsUnique(q, j, p, k);
        assert old(Linked(p + [k], j));
      }
    }

    method AddWeight(node: Node, weight: int)
      requires Shaped()
      modifies node`w
      ensures Shaped() && node.w == old(node.w) + weight
    {
      node.w := node.w + weight;
      forall p, j ensures Linked(p, j) {
        assert old(Linked(p, j));
      }
    }

    /** One step of the descent: into the child named `k`, which counts the weight. */
    method Enter(node: Node, ghost done: Path, k: string, weight: int) returns (child: Node)
      requires Shaped() && Counted(weight, done) && done in nodes && nodes[done] == node
      modifies this`nodes, nodes.Values
      ensures Shaped() && Counted(weight, done + [k])
      ensures done + [k] in nodes && nodes[done + [k]] == child
      ensures fresh(nodes.Values - old(nodes.Values))
    {
      hide Linked, Through, Ending, Reached;
      ghost var here := done + [k];
      assert Member(here, done) && Weighs(here, weight, done);
      OneLonger(here, done, k);
      if here !in nodes {
        UnreachedIsWeightless(hits, here);
      }
      child := SetDefault(node, done, k);
      AddWeight(child, weight);
      forall p ensures Member(p, here) {
        assert old(Member(p, done));
        OneLonger(p, done, k);
      }
      forall p ensures Weighs(p, weight, here) {
        assert old(Weighs(p, weight, done));
        OneLonger(p, done, k);
      }
    }

    /** A backtrace, leaf first, counted from its last frame to its first. */
    method AddFrames(weight: int, frames: seq<Frame>)
      requires Valid() && frames != []
      modifies this`nodes, this`hits, nodes.Values
      ensures Valid() && hits == old(hits) + [Hit(weight, Rooted(short, frames))]
      ensures fresh(nodes.Values - old(nodes.Values))
    {
      hide Member, Weighs, Linked, Reached, Through, Ending;
      ghost var stack := Rooted(short, frames);
      ghost var done: Path := [];
      StartHit(weight);
      var node, i := root, |frames|;
      while i > 0
        invariant 0 <= i <= |frames| && done == stack[..|frames| - i]
        invariant Shaped() && Counted(weight, done)
        invariant done in nodes && nodes[done] == node
        invariant hits == old(hits) && fresh(nodes.Values - old(nodes.Values))
      {
        i := i - 1;
        RootedAt(short, frames, |frames| - 1 - i);
        node := Enter(node, done, short(frames[i].name), weight);
        done := done + [short(frames[i].name)];
      }
      assert done == stack;
      EndHit(node, stack, weight);
    }

    lemma StartHit(weight: int)
      requires Counted(0, [])
      ensures Counted(weight, [])
    {
      forall p ensures Member(p, []) {
        assert Member(p, []);
      }
      forall p ensures Weighs(p, weight, []) {
        assert Weighs(p, 0, []);
      }
    }

    /** The leaf takes the weight for itself, and the hit is counted. */
    method EndHit(node: Node, ghost stack: Path, weight: int)
      requires Shaped() && Counted(weight, stack) && stack != [] && stack in nodes && nodes[stack] == node
      modifies node`self, this`hits
      ensures Valid() && hits == old(hits) + [Hit(weight, stack)]
    {
      hide Through, Ending, Reached;
      node.self := node.self + weight;
      hits := hits + [Hit(weight, stack)];
      forall p, k ensures Linked(p, k) {
        assert old(Linked(p, k));
      }
      forall p ensures Member(p, []) && Weighs(p, 0, []) {
        assert old(Member(p, stack)) && old(Weighs(p, weight, stack));
        OneMoreHit(old(hits), Hit(weight, stack), p);
      }
    }

    lemma NodesAreReached(p: Path)
      requires Valid() && p != []
      ensures p in nodes <==> Reached(hits, p)
    {
      hide Reached;
      assert Member(p, []);
    }

    /** What every node's weights are: the hits through its path, and the hits that end there. */
    lemma WeighsItsPrefix(p: Path)
      requires Valid() && p in nodes && p != []
      ensures nodes[p].w == Through(hits, p) && nodes[p].self == Ending(hits, p)
    {
      assert Weighs(p, 0, []);
    }

    /** The weight of the children of a node, in any order of its dictionary. */
    ghost function KidsWeight(p: Path, ks: seq<string>): int
      requires p in nodes && forall k :: k in ks ==> k in nodes[p].kids
      reads this, nodes.Values, if p in nodes then nodes[p].kids.Values else {}
    {
      if ks == [] then 0 else KidsWeight(p, ks[..|ks| - 1]) + nodes[p].kids[ks[|ks| - 1]].w
    }

    lemma {:induction false} KidsWeighTheirPaths(p: Path, ks: seq<string>)
      requires Valid() && p in nodes && forall k :: k in ks ==> k in nodes[p].kids
      ensures KidsWeight(p, ks) == ThroughEach(hits, p, ks)
    {
      hide Through;
      if ks != [] {
        var k := ks[|ks| - 1];
        KidsWeighTheirPaths(p, ks[..|ks| - 1]);
        assert Linked(p, k);
        WeighsItsPrefix(p + [k]);
      }
    }

    /**
     * Conservation at every node: its weight is its own and its children's; and under the root the
     * children hold the weight of every hit that has a stack.
     */
    lemma WeightIsConserved(p: Path, ks: seq<string>)
      requires Valid() && p in nodes && Distinct(ks) && (forall k :: k in ks <==> k in nodes[p].kids)
      ensures p != [] ==> nodes[p].w == nodes[p].self + KidsWeight(p, ks)
      ensures p == [] ==> KidsWeight(p, ks) == Stacked(hits)
    {
      hide Through, Ending, ThroughEach, Reached;
      forall k | Reached(hits, p + [k]) ensures k in ks {
        assert Member(p + [k], []) && Linked(p, k);
      }
      WeightSplits(hits, p, ks);
      KidsWeighTheirPaths(p, ks);
      if p != [] {
        WeighsItsPrefix(p);
      } else {
        StackedIsTheRest(hits);
      }
    }

    /**
     * render's collapse of a run of single children, from a node other than the root: the names
     * gathered, and the node it stops at. No weight is unaccounted for on the way, and it stops only
     * at a node that branches, ends, or keeps a share of its own: the break on the weight lost is
     * never taken.
     */
    method Collapse(start: Node, name: string, total: int, ghost p: Path)
      returns (chain: seq<string>, end: Node, ghost last: Path)
      requires Valid() && p in nodes && p != [] && nodes[p] == start && total != 0
      ensures last in nodes && nodes[last] == end && chain != [] && chain[0] == name && last == p + chain[1..]
      ensures start.w == end.w + Collapsed(hits, |p|, last)
      ensures forall i :: |p| <= i < |last| ==> Thin(last[..i], total)
      ensures !Thin(last, total)
    {
      hide Through, Ending, Shaped, Counted;
      chain, end, last := [name], start, p;
      while |end.kids| == 1 && end.self as real / total as real < PRUNE
        invariant last in nodes && nodes[last] == end && |last| >= |p|
        invariant chain != [] && chain[0] == name && last == p + chain[1..]
        invariant start.w == end.w + Collapsed(hits, |p|, last)
        invariant forall i :: |p| <= i < |last| ==> Thin(last[..i], total)
        decreases Below(last)
      {
        assert Thin(last, total);
        var key :| key in end.kids;
        var only := end.kids[key];
        OnlyChild(last, key);
        if (end.w - only.w) as real / total as real > PRUNE {
          assert false;
          break;
        }
        ghost var longer := last + [key];
        BelowShrinks(last, key);
        assert longer[..|last|] == last;
        assert forall i :: |p| <= i < |last| ==> longer[..i] == last[..i];
        chain, end, last := chain + [key], only, longer;
      }
    }

    /** A node with one child and hardly a weight of its own. */
    ghost predicate Thin(p: Path, total: int)
      requires total != 0
      reads this, nodes.Values
    {
      p in nodes && |nodes[p].kids| == 1 && nodes[p].self as real / total as real < PRUNE
    }

    ghost function Below(p: Path): set<Path>
      reads this
    {
      set q | q in nodes && p <= q
    }

    lemma BelowShrinks(p: Path, k: string)
      requires p in nodes
      ensures Below(p + [k]) < Below(p)
    {
      assert p in Below(p) && p !in Below(p + [k]);
      forall q | q in Below(p + [k]) ensures q in Below(p) {
        Extends(q, p, k);
      }
    }

    lemma OnlyChild(p: Path, k: string)
      requires Valid() && p in nodes && p != [] && |nodes[p].kids| == 1 && k in nodes[p].kids
      ensures p + [k] in nodes && nodes[p].kids[k] == nodes[p + [k]]
      ensures nodes[p].w == nodes[p].self + nodes[p].kids[k].w
      ensures nodes[p].self == Ending(hits, p)
    {
      assert Linked(p, k);
      var keys := nodes[p].kids.Keys;
      assert |keys - {k}| == 0;
      assert forall j :: j in [k] <==> j in keys;
      WeightIsConserved(p, [k]);
      assert KidsWeight(p, []) == 0 && [k][..0] == [];
      WeighsItsPrefix(p);
    }
  }

  const PRUNE := 0.015

  /** The weight of the hits that end at a proper prefix of `p` no shorter than `from`. */
  function Collapsed(hits: seq<Hit>, from: nat, p: Path): int
    decreases |p|
  {
    if |p| <= from then 0
    else Collapsed(hits, from, p[..|p| - 1]) + Ending(hits, p[..|p| - 1])
  }

  /** The weight of the hits with a stack. */
  function Stacked(hits: seq<Hit>): int
  {
    if hits == [] then 0
    else Stacked(hits[..|hits| - 1]) + if hits[|hits| - 1].stack != [] then hits[|hits| - 1].weight else 0
  }

  lemma {:induction false} StackedIsTheRest(hits: seq<Hit>)
    ensures Stacked(hits) == Through(hits, []) - Ending(hits, [])
  {
    if hits != [] {
      StackedIsTheRest(hits[..|hits| - 1]);
    }
  }

  lemma OneLonger(p: Path, q: Path, k: string)
    ensures p <= q + [k] <==> p <= q || p == q + [k]
    ensures !(q + [k] <= q)
  {
    if p <= q + [k] && |p| <= |q| {
      assert p == (q + [k])[..|p|] == q[..|p|];
    }
  }

  // ---- the rows of a profile -----------------------------------------------------------

  const NO_BACKTRACE := ("", "<no backtrace>")

  /** The function a row's weight is charged to: its leaf, or a name for rows without a backtrace. */
  function Leaf(s: Sample): Option<(string, string)>
  {
    match s.backtrace
    case None => Some(NO_BACKTRACE)
    case Some(frames) => if frames == [] then None else Some((frames[0].binary, frames[0].name))
  }

  function Charged(rows: seq<Sample>, f: (string, string)): int
  {
    if rows == [] then 0
    else Charged(rows[..|rows| - 1], f) + if Leaf(rows[|rows| - 1]) == Some(f) then rows[|rows| - 1].weight else 0
  }

  function Total(rows: seq<Sample>): int
  {
    if rows == [] then 0 else Total(rows[..|rows| - 1]) + rows[|rows| - 1].weight
  }

  /** The weight of the rows whose backtrace has no frame: it is charged to nobody. */
  function Leafless(rows: seq<Sample>): int
  {
    if rows == [] then 0
    else Leafless(rows[..|rows| - 1]) + if rows[|rows| - 1].backtrace == Some([]) then rows[|rows| - 1].weight else 0
  }

  function ChargedEach(rows: seq<Sample>, fs: seq<(string, string)>): int
  {
    if fs == [] then 0 else ChargedEach(rows, fs[..|fs| - 1]) + Charged(rows, fs[|fs| - 1])
  }

  /** Only a backtrace without frames is charged to nobody; a row without a backtrace has a name of its own. */
  lemma LeafOfRow(s: Sample)
    ensures Leaf(s).None? <==> s.backtrace == Some([])
    ensures s.backtrace.None? ==> Leaf(s) == Some(("", "<no backtrace>"))
  {
  }

  lemma {:induction false} OneMoreRowForEach(rows: seq<Sample>, s: Sample, fs: seq<(string, string)>)
    requires Distinct(fs)
    ensures ChargedEach(rows + [s], fs)
         == ChargedEach(rows, fs) + if Leaf(s).Some? && Leaf(s).value in fs then s.weight else 0
  {
    hide Leaf;
    if fs != [] {
      var init, f := fs[..|fs| - 1], fs[|fs| - 1];
      assert fs == init + [f];
      OneMoreRowForEach(rows, s, init);
      assert (rows + [s])[..|rows|] == rows;
    }
  }

  lemma {:induction false} NobodyIsCharged(fs: seq<(string, string)>)
    ensures ChargedEach([], fs) == 0
  {
    if fs != [] {
      NobodyIsCharged(fs[..|fs| - 1]);
    }
  }

  /** Every row is charged once: the self weights of all leaves add up to the total, but for rows without one. */
  lemma {:induction false} ChargesAddUp(rows: seq<Sample>, fs: seq<(string, string)>)
    requires Distinct(fs) && forall i :: 0 <= i < |rows| && Leaf(rows[i]).Some? ==> Leaf(rows[i]).value in fs
    ensures ChargedEach(rows, fs) == Total(rows) - Leafless(rows)
  {
    hide Leaf, Distinct;
    if rows == [] {
      NobodyIsCharged(fs);
    } else {
      var init, s := rows[..|rows| - 1], rows[|rows| - 1];
      assert rows == init + [s];
      ChargesAddUp(init, fs);
      OneMoreRowForEach(init, s, fs);
      LeafOfRow(s);
    }
  }

  predicate HasStack(s: Sample)
  {
    s.backtrace.Some? && s.backtrace.value != []
  }

  /** The rows that have a stack, as the tree counts them. */
  function HitsOf(short: string -> string, rows: seq<Sample>): seq<Hit>
  {
    if rows == [] then []
    else
      var s := rows[|rows| - 1];
      HitsOf(short, rows[..|rows| - 1]) + if HasStack(s) then [Hit(s.weight, Rooted(short, s.backtrace.value))] else []
  }

  // ---- the tree, in terms of the rows --------------------------------------------------

  /** The row's backtrace, read from its last frame and shortened, starts with `p`. */
  predicate Passes(short: string -> string, s: Sample, p: Path)
  {
    && HasStack(s) && |p| <= |s.backtrace.value|
    && forall k :: 0 <= k < |p| ==> p[k] == short(s.backtrace.value[|s.backtrace.value| - 1 - k].name)
  }

  /** ... and is `p`. */
  predicate Ends(short: string -> string, s: Sample, p: Path)
  {
    Passes(short, s, p) && |p| == |s.backtrace.value|
  }

  function WeightThrough(short: string -> string, rows: seq<Sample>, p: Path): int
  {
    if rows == [] then 0
    else
      var s := rows[|rows| - 1];
      WeightThrough(short, rows[..|rows| - 1], p) + if Passes(short, s, p) then s.weight else 0
  }

  function WeightEnding(short: string -> string, rows: seq<Sample>, p: Path): int
  {
    if rows == [] then 0
    else
      var s := rows[|rows| - 1];
      WeightEnding(short, rows[..|rows| - 1], p) + if Ends(short, s, p) then s.weight else 0
  }

  /** The weight of the rows without a frame. */
  function Frameless(rows: seq<Sample>): int
  {
    if rows == [] then 0
    else Frameless(rows[..|rows| - 1]) + if HasStack(rows[|rows| - 1]) then 0 else rows[|rows| - 1].weight
  }

  lemma PassesIsPrefix(short: string -> string, s: Sample, p: Path)
    requires HasStack(s)
    ensures Passes(short, s, p) <==> p <= Rooted(short, s.backtrace.value)
    ensures Ends(short, s, p) <==> p == Rooted(short, s.backtrace.value)
  {
    var frames := s.backtrace.value;
    var stack := Rooted(short, frames);
    forall k | 0 <= k < |stack| ensures stack[k] == short(frames[|frames| - 1 - k].name) {
      RootedAt(short, frames, k);
    }
    if Passes(short, s, p) {
      assert p == stack[..|p|];
    }
  }

  lemma {:induction false} HitsAreRows(short: string -> string, rows: seq<Sample>, p: Path)
    ensures Through(HitsOf(short, rows), p) == WeightThrough(short, rows, p)
    ensures Ending(HitsOf(short, rows), p) == WeightEnding(short, rows, p)
    ensures Reached(HitsOf(short, rows), p) <==> exists i :: 0 <= i < |rows| && Passes(short, rows[i], p)
  {
    hide Passes, Ends, Through, Ending, Reached;
    if rows == [] {
      NoHits(p);
    } else {
      var init, s := rows[..|rows| - 1], rows[|rows| - 1];
      HitsAreRows(short, init, p);
      assert rows == init + [s];
      assert (exists i :: 0 <= i < |rows| && Passes(short, rows[i], p))
        <==> (exists i :: 0 <= i < |init| && Passes(short, init[i], p)) || Passes(short, s, p) by {
        if i :| 0 <= i < |init| && Passes(short, init[i], p) {
          assert rows[i] == init[i];
        }
        if Passes(short, s, p) {
          assert rows[|init|] == s;
        }
        if i :| 0 <= i < |rows| && Passes(short, rows[i], p) {
          assert i < |init| ==> init[i] == rows[i];
        }
      }
      if HasStack(s) {
        PassesIsPrefix(short, s, p);
        OneMoreHit(HitsOf(short, init), Hit(s.weight, Rooted(short, s.backtrace.value)), p);
      } else {
        NoStackNoPath(short, s, p);
        assert HitsOf(short, rows) == HitsOf(short, init);
      }
    }
  }

  lemma NoHits(p: Path)
    ensures Through([], p) == 0 && Ending([], p) == 0 && !Reached([], p)
  {
  }

  lemma NoStackNoPath(short: string -> string, s: Sample, p: Path)
    requires !HasStack(s)
    ensures !Passes(short, s, p) && !Ends(short, s, p)
  {
  }

  lemma {:induction false} StackedRows(short: string -> string, rows: seq<Sample>)
    ensures Stacked(HitsOf(short, rows)) == Total(rows) - Frameless(rows)
  {
    if rows != [] {
      StackedRows(short, rows[..|rows| - 1]);
      var hits := HitsOf(short, rows);
      if HasStack(rows[|rows| - 1]) {
        assert hits[..|hits| - 1] == HitsOf(short, rows[..|rows| - 1]);
      } else {
        assert hits == HitsOf(short, rows[..|rows| - 1]);
      }
    }
  }

  /** The frame charged is the one the stack ends with. */
  lemma LeafEndsTheStack(short: string -> string, s: Sample)
    requires HasStack(s)
    ensures var stack := Rooted(short, s.backtrace.value);
      Leaf(s).Some? && stack[|stack| - 1] == short(Leaf(s).value.1) && Leaf(s).value.0 == s.backtrace.value[0].binary
  {
    RootedAt(short, s.backtrace.value, |s.backtrace.value| - 1);
  }

  class Profile {
    const tree: Tree
    var totalWeight: int
    var selfWeight: map<(string, string), int>
    var rowCount: nat
    ghost var rows: seq<Sample>

    ghost predicate Valid()
      reads this, tree, tree.nodes.Values
    {
      && tree.Valid() && tree.hits == HitsOf(tree.short, rows)
      && totalWeight == Total(rows) && rowCount == |rows|
      && (forall f :: SelfOf(f) == Charged(rows, f))
      && forall i :: 0 <= i < |rows| && Leaf(rows[i]).Some? ==> Leaf(rows[i]).value in selfWeight
    }

    /** A defaultdict(int) lookup. */
    function SelfOf(f: (string, string)): int
      reads this
    {
      if f in selfWeight then selfWeight[f] else 0
    }

    constructor (short: string -> string)
      ensures Valid() && rows == [] && tree.short == short && fresh(tree) && fresh(tree.nodes.Values)
    {
      tree := new Tree(short);
      totalWeight, selfWeight, rowCount, rows := 0, map[], 0, [];
    }

    method Charge(f: (string, string), weight: int)
      modifies this`selfWeight
      ensures selfWeight == old(selfWeight)[f := old(SelfOf(f)) + weight]
    {
      selfWeight := selfWeight[f := SelfOf(f) + weight];
    }

    ghost function SelfEach(fs: seq<(string, string)>): int
      reads this
    {
      if fs == [] then 0 else SelfEach(fs[..|fs| - 1]) + SelfOf(fs[|fs| - 1])
    }

    /**
     * What the tree says of the rows read: there is a node for each path some row passes, and its w is
     * the weight of the rows that pass it, its self that of those that end there.
     */
    lemma NodeWeighsItsRows(p: Path)
      requires Valid() && p != []
      ensures p in tree.nodes <==> exists i :: 0 <= i < |rows| && Passes(tree.short, rows[i], p)
      ensures p in tree.nodes ==>
        && tree.nodes[p].w == WeightThrough(tree.short, rows, p)
        && tree.nodes[p].self == WeightEnding(tree.short, rows, p)
    {
      hide Passes, Ends;
      HitsAreRows(tree.short, rows, p);
      tree.NodesAreReached(p);
      if p in tree.nodes {
        tree.WeighsItsPrefix(p);
      }
    }

    /** The root's children, in any order, hold the total but for the rows without a frame. */
    lemma RootHoldsTheRest(ks: seq<string>)
      requires Valid() && Distinct(ks) && forall k :: k in ks <==> k in tree.root.kids
      ensures tree.KidsWeight([], ks) == totalWeight - Frameless(rows)
    {
      tree.WeightIsConserved([], ks);
      StackedRows(tree.short, rows);
    }

    /** The self weights, over the dictionary in any order, add up to the total but for rows without a leaf. */
    lemma SelfWeightsAddUp(fs: seq<(string, string)>)
      requires Valid() && Distinct(fs) && forall f :: f in fs <==> f in selfWeight
      ensures SelfEach(fs) == totalWeight - Leafless(rows)
    {
      ChargesAddUp(rows, fs);
      SelfEachIsChargedEach(fs);
    }

    lemma {:induction false} SelfEachIsChargedEach(fs: seq<(string, string)>)
      requires forall f :: SelfOf(f) == Charged(rows, f)
      ensures SelfEach(fs) == ChargedEach(rows, fs)
    {
      if fs != [] {
        SelfEachIsChargedEach(fs[..|fs| - 1]);
      }
    }

    /** One row of the loop. */
    method AddRow(s: Sample)
      requires Valid()
      modifies this, tree, tree.nodes.Values
      ensures Valid() && rows == old(rows) + [s]
      ensures fresh(tree.nodes.Values - old(tree.nodes.Values))
    {
      rowCount := rowCount + 1;
      totalWeight := totalWeight + s.weight;
      match s.backtrace {
        case None =>
          Charge(NO_BACKTRACE, s.weight);
        case Some(frames) =>
          if frames != [] {
            Charge((frames[0].binary, frames[0].name), s.weight);
            tree.AddFrames(s.weight, frames);
          }
      }
      rows := rows + [s];
      assert rows[..|rows| - 1] == old(rows);
    }
  }

  /** The whole of the loop over the rows, into an empty profile. */
  method ReadProfile(short: string -> string, rows: seq<Sample>) returns (p: Profile)
    ensures p.Valid() && p.rows == rows && p.tree.short == short
  {
    p := new Profile(short);
    for i := 0 to |rows|
      invariant p.Valid() && p.rows == rows[..i] && p.tree.short == short
      invariant fresh(p) && fresh(p.tree) && fresh(p.tree.nodes.Values)
    {
      p.AddRow(rows[i]);
      assert rows[..i + 1] == rows[..i] + [rows[i]];
    }
    assert rows[..|rows|] == rows;
  }
}
