/** core/dag/stats.go: the shape a DAG reports. */
module DagStat {
  import opened Common
  import opened Carry
  import opened Wire
  import opened DagBuild
  import opened DagResolve

  /** `depthOnly`: node levels from `m` to its deepest leaf; None when a block or link cannot be read. */
  function Depth(env: Env, bs: map<Mid, Bytes>, m: Mid, bound: nat): Option<nat>
    decreases bound, 0, 0
  {
    if bound == 0 || m !in bs then None
    else
      match IsInternalNode(bs[m])
      case None => Some(1)
      case Some(links) =>
        match MaxDepth(env, bs, links, bound - 1)
        case None => None
        case Some(d) => Some(d + 1)
  }

  function MaxDepth(env: Env, bs: map<Mid, Bytes>, links: seq<Bytes>, bound: nat): Option<nat>
    decreases bound, 1, |links|
  {
    if links == [] then Some(0)
    else
      match env.parse(links[|links| - 1])
      case None => None
      case Some(child) =>
        match (MaxDepth(env, bs, links[..|links| - 1], bound), Depth(env, bs, child, bound))
        case (Some(a), Some(b)) => Some(Max(a, b))
        case _ => None
  }

  function Sizes(bs: map<Mid, Bytes>, order: seq<Mid>): nat {
    if order == [] then 0
    else Sizes(bs, order[..|order| - 1]) + (if order[|order| - 1] in bs then |bs[order[|order| - 1]]| else 0)
  }

  /** Number of links a block has as an internal node; 0 for a leaf. */
  function Fan(bs: map<Mid, Bytes>, m: Mid): nat {
    if m !in bs then 0 else match IsInternalNode(bs[m]) case Some(links) => |links| case None => 0
  }

  ghost function LeafSet(bs: map<Mid, Bytes>, s: set<Mid>): set<Mid> {
    set m | m in s && m in bs && IsInternalNode(bs[m]) == None
  }

  ghost predicate Widest(bs: map<Mid, Bytes>, s: set<Mid>, w: nat) {
    (forall m :: m in s ==> Fan(bs, m) <= w) && (w == 0 || exists m :: m in s && Fan(bs, m) == w)
  }

  // --------------------------------------------------- what is counted

  /** The block of `x` is there and all its links parse and lead into `s`. */
  ghost predicate LinksIn(env: Env, bs: map<Mid, Bytes>, x: Mid, s: set<Mid>) {
    x in bs &&
    match IsInternalNode(bs[x])
    case None => true
    case Some(links) => AllIn(env, links, |links|, s)
  }

  ghost predicate AllIn(env: Env, links: seq<Bytes>, n: nat, s: set<Mid>) {
    n <= |links| && forall i :: 0 <= i < n ==> env.parse(links[i]).Some? && env.parse(links[i]).value in s
  }

  ghost predicate Closed(env: Env, bs: map<Mid, Bytes>, s: set<Mid>) {
    forall x :: x in s ==> LinksIn(env, bs, x, s)
  }

  /** `s` is the DAG below `root`: the least set with the root that all links stay within. */
  ghost predicate Spans(env: Env, bs: map<Mid, Bytes>, root: Mid, s: set<Mid>) {
    root in s && Closed(env, bs, s) && Least(env, bs, {root}, s)
  }

  ghost predicate Least(env: Env, bs: map<Mid, Bytes>, from: set<Mid>, s: set<Mid>) {
    forall t: set<Mid> {:trigger Closed(env, bs, t)} :: from <= t && Closed(env, bs, t) ==> s <= t
  }

  /** What a (sub)walk from `m` did: everything new has its links inside, and nothing unnecessary was counted. */
  ghost predicate Covered(env: Env, bs: map<Mid, Bytes>, m: Mid, before: set<Mid>, after: set<Mid>) {
    && before <= after && m in after
    && (forall x :: x in after && x !in before ==> LinksIn(env, bs, x, after))
    && Least(env, bs, before + {m}, after)
  }

  /** The same in the middle of the loop over the first `n` links of `m`. */
  ghost predicate Covering(env: Env, bs: map<Mid, Bytes>, m: Mid, links: seq<Bytes>, n: nat, before: set<Mid>, after: set<Mid>) {
    && before <= after && m in after && AllIn(env, links, n, after)
    && (forall x :: x in after && x !in before && x != m ==> LinksIn(env, bs, x, after))
    && Least(env, bs, before + {m}, after)
  }

  lemma LinksInGrows(env: Env, bs: map<Mid, Bytes>, x: Mid, s: set<Mid>, t: set<Mid>)
    requires LinksIn(env, bs, x, s) && s <= t
    ensures LinksIn(env, bs, x, t)
  {
  }

  lemma CoveringChild(env: Env, bs: map<Mid, Bytes>, m: Mid, links: seq<Bytes>, n: nat,
                      before: set<Mid>, seen: set<Mid>, after: set<Mid>)
    requires m in bs && IsInternalNode(bs[m]) == Some(links) && n < |links| && env.parse(links[n]).Some?
    requires Covering(env, bs, m, links, n, before, seen) && Covered(env, bs, env.parse(links[n]).value, seen, after)
    ensures Covering(env, bs, m, links, n + 1, before, after)
  {
    hide IsInternalNode;
    var child := env.parse(links[n]).value;
    forall x | x in after && x !in before && x != m ensures LinksIn(env, bs, x, after) {
      if x in seen {
        LinksInGrows(env, bs, x, seen, after);
      }
    }
    forall t: set<Mid> | before + {m} <= t && Closed(env, bs, t) ensures after <= t {
      assert seen <= t;
      assert LinksIn(env, bs, m, t) && AllIn(env, links, |links|, t);
      assert seen + {child} <= t;
    }
  }

  lemma CoveringDone(env: Env, bs: map<Mid, Bytes>, m: Mid, links: seq<Bytes>, before: set<Mid>, after: set<Mid>)
    requires m in bs && IsInternalNode(bs[m]) == Some(links) && Covering(env, bs, m, links, |links|, before, after)
    ensures Covered(env, bs, m, before, after)
  {
    hide IsInternalNode;
    assert LinksIn(env, bs, m, after);
  }

  datatype Report = Report(nodes: nat, leaves: nat, internals: nat, depth: nat, width: nat, bytes: nat)

  /** Every distinct MID was counted once, as a leaf or as an internal node, with its own size. */
  ghost predicate Tallied(bs: map<Mid, Bytes>, order: seq<Mid>, seen: set<Mid>,
                          nodes: nat, leaves: nat, internals: nat, width: nat, bytes: nat) {
    && seen == Elems(order) && Distinct(order)
    && nodes == |seen| && leaves == |LeafSet(bs, seen)| && internals == nodes - leaves
    && Widest(bs, seen, width)
    && bytes == Sizes(bs, order)
  }

  lemma TalliedStep(bs: map<Mid, Bytes>, order: seq<Mid>, seen: set<Mid>,
                    nodes: nat, leaves: nat, internals: nat, width: nat, bytes: nat, m: Mid)
    requires Tallied(bs, order, seen, nodes, leaves, internals, width, bytes) && m in bs && m !in seen
    ensures
      var leaf := IsInternalNode(bs[m]) == None;
      Tallied(bs, order + [m], seen + {m}, nodes + 1, if leaf then leaves + 1 else leaves,
              if leaf then internals else internals + 1, Max(width, Fan(bs, m)), bytes + |bs[m]|)
  {
    assert m !in order by { assert seen == Elems(order); }
    hide IsInternalNode, Widest, Distinct, Elems, LeafSet, Sizes, Fan;
    DistinctSnoc(order, m);
    SizesSnoc(bs, order, m);
    LeafSetStep(bs, seen, m);
    WidestStep(bs, seen, m, width);
  }

  /** The running totals of Stat. `order` lists the counted MIDs. */
  class Stats {
    var seen: set<Mid>
    var nodes: nat
    var leaves: nat
    var internals: nat
    var width: nat
    var bytes: nat
    ghost var order: seq<Mid>

    ghost predicate Consistent(bs: map<Mid, Bytes>)
      reads this
    {
      Tallied(bs, order, seen, nodes, leaves, internals, width, bytes)
    }

    constructor ()
      ensures seen == {} && nodes == 0 && leaves == 0 && internals == 0 && width == 0 && bytes == 0 && order == []
    {
      seen, nodes, leaves, internals, width, bytes, order := {}, 0, 0, 0, 0, 0, [];
    }

    method Count(bs: map<Mid, Bytes>, m: Mid)
      requires Consistent(bs) && m in bs && m !in seen
      modifies this
      ensures Consistent(bs) && seen == old(seen) + {m}
    {
      hide IsInternalNode, Tallied;
      TalliedStep(bs, order, seen, nodes, leaves, internals, width, bytes, m);
      seen, order := seen + {m}, order + [m];
      nodes, bytes := nodes + 1, bytes + |bs[m]|;
      match IsInternalNode(bs[m]) {
        case None =>
          leaves := leaves + 1;
        case Some(links) =>
          internals := internals + 1;
          if |links| > width {
            width := |links|;
          }
      }
    }

    /** Whenever the counting walk ends, it reports the depth of the subtree, already counted parts included, and has
        counted exactly what lies below; and it ends whenever the resolver could read the subtree. */
    method Walk(env: Env, bs: map<Mid, Bytes>, m: Mid, bound: nat) returns (r: Option<nat>)
      requires Consistent(bs)
      modifies this
      ensures r.Some? ==> Consistent(bs) && Covered(env, bs, m, old(seen), seen) && r == Depth(env, bs, m, bound)
      ensures Stream(env, bs, m, bound).status == Done ==> r.Some?
      decreases bound
    {
      hide IsInternalNode, Consistent, LinksIn, Closed;
      ResolvableHasDepth(env, bs, m, bound);
      if m in seen {
        return Depth(env, bs, m, bound);
      }
      if bound == 0 || m !in bs || env.digest(bs[m]) != m.hash {
        return None;
      }
      ghost var before := seen;
      var node := IsInternalNode(bs[m]);
      Count(bs, m);
      if node.None? {
        LeafCovered(env, bs, m, before);
        return Some(1);
      }
      hide Covered, Covering;
      var links, maxChild, i := node.value, 0, 0;
      CoveringStart(env, bs, m, links, before);
      while i < |links|
        invariant 0 <= i <= |links|
        invariant Consistent(bs) && Covering(env, bs, m, links, i, before, seen)
        invariant MaxDepth(env, bs, links[..i], bound - 1) == Some(maxChild)
      {
        assert links[..i + 1][..i] == links[..i] && links[..i + 1][i] == links[i];
        LinksResolvable(env, bs, links, bound - 1, i);
        var child := env.parse(links[i]);
        if child.None? {
          return None;
        }
        ghost var counted := seen;
        var d := Walk(env, bs, child.value, bound - 1);
        if d.None? {
          return None;
        }
        CoveringChild(env, bs, m, links, i, before, counted, seen);
        maxChild := Max(maxChild, d.value);
        i := i + 1;
      }
      assert links[..i] == links;
      CoveringDone(env, bs, m, links, before, seen);
      return Some(maxChild + 1);
    }
  }

  lemma CoveringStart(env: Env, bs: map<Mid, Bytes>, m: Mid, links: seq<Bytes>, before: set<Mid>)
    ensures Covering(env, bs, m, links, 0, before, before + {m})
  {
  }

  lemma LeafCovered(env: Env, bs: map<Mid, Bytes>, m: Mid, before: set<Mid>)
    requires m in bs && IsInternalNode(bs[m]) == None
    ensures Covered(env, bs, m, before, before + {m})
  {
    hide IsInternalNode;
  }

  lemma DistinctSnoc(order: seq<Mid>, m: Mid)
    requires Distinct(order) && m !in order
    ensures Distinct(order + [m]) && Elems(order + [m]) == Elems(order) + {m}
  {
    var o := order + [m];
    forall i, j | 0 <= i < j < |o| ensures o[i] != o[j] {
      assert order[i] in order;
    }
  }

  lemma SizesSnoc(bs: map<Mid, Bytes>, order: seq<Mid>, m: Mid)
    requires m in bs
    ensures Sizes(bs, order + [m]) == Sizes(bs, order) + |bs[m]|
  {
    assert (order + [m])[..|order|] == order;
  }

  lemma LeafSetStep(bs: map<Mid, Bytes>, s: set<Mid>, m: Mid)
    requires m in bs && m !in s
    ensures LeafSet(bs, s + {m}) == LeafSet(bs, s) + (if IsInternalNode(bs[m]) == None then {m} else {})
    ensures m !in LeafSet(bs, s)
  {
    hide IsInternalNode;
  }

  lemma WidestStep(bs: map<Mid, Bytes>, s: set<Mid>, m: Mid, w: nat)
    requires Widest(bs, s, w)
    ensures Widest(bs, s + {m}, Max(w, Fan(bs, m)))
  {
    hide Fan;
    if Fan(bs, m) > w {
      assert m in s + {m};
    } else if w > 0 {
      var x :| x in s && Fan(bs, x) == w;
      assert x in s + {m};
    }
  }

  /** Stat, when it succeeds, reports on exactly the DAG below the root: its distinct blocks, how many of them are
      leaves, the widest node, the total size and the depth. It succeeds whenever the resolver reads the DAG. */
  method Stat(env: Env, bs: map<Mid, Bytes>, root: Mid, bound: nat) returns (r: Option<Report>, ghost order: seq<Mid>)
    ensures root.IsZero() ==> r == None
    ensures !root.IsZero() && Stream(env, bs, root, bound).status == Done ==> r.Some?
    ensures r.Some? ==>
      var s, x := Elems(order), r.value;
      && Distinct(order) && Spans(env, bs, root, s)
      && x.nodes == |s| && x.leaves == |LeafSet(bs, s)| && x.internals == |s| - |LeafSet(bs, s)|
      && Some(x.depth) == Depth(env, bs, root, bound) && Widest(bs, s, x.width) && x.bytes == Sizes(bs, order)
  {
    hide IsInternalNode, LinksIn, Least;
    order := [];
    if root.IsZero() {
      return None, order;
    }
    var st := new Stats();
    assert Elems(st.order) == {} && LeafSet(bs, {}) == {};
    var depth := st.Walk(env, bs, root, bound);
    if depth.None? {
      return None, order;
    }
    order := st.order;
    assert {} + {root} == {root};
    return Some(Report(st.nodes, st.leaves, st.internals, depth.value, st.width, st.bytes)), order;
  }

  /** A clean walk over links is a clean walk over each of them. */
  lemma {:induction false} LinksResolvable(env: Env, bs: map<Mid, Bytes>, links: seq<Bytes>, bound: nat, i: nat)
    requires i < |links|
    ensures StreamLinks(env, bs, links, bound).status == Done ==>
              env.parse(links[i]).Some? && Stream(env, bs, env.parse(links[i]).value, bound).status == Done
  {
    hide Stream;
    if i > 0 && StreamLinks(env, bs, links, bound).status == Done {
      LinksResolvable(env, bs, links[1..], bound, i - 1);
    }
  }

  lemma {:induction false} ResolvableHasDepth(env: Env, bs: map<Mid, Bytes>, m: Mid, bound: nat)
    ensures Stream(env, bs, m, bound).status == Done ==> Depth(env, bs, m, bound).Some?
    decreases bound, 0
  {
    hide IsInternalNode;
    if Stream(env, bs, m, bound).status == Done && IsInternalNode(bs[m]).Some? {
      var links := IsInternalNode(bs[m]).value;
      forall i | 0 <= i < |links|
        ensures env.parse(links[i]).Some? && Depth(env, bs, env.parse(links[i]).value, bound - 1).Some?
      {
        LinksResolvable(env, bs, links, bound - 1, i);
        ResolvableHasDepth(env, bs, env.parse(links[i]).value, bound - 1);
      }
      MaxDepthDefined(env, bs, links, bound - 1);
    }
  }

  lemma {:induction false} MaxDepthDefined(env: Env, bs: map<Mid, Bytes>, links: seq<Bytes>, bound: nat)
    requires forall i :: 0 <= i < |links| ==>
               env.parse(links[i]).Some? && Depth(env, bs, env.parse(links[i]).value, bound).Some?
    ensures MaxDepth(env, bs, links, bound).Some?
  {
    hide Depth;
    if links != [] {
      MaxDepthDefined(env, bs, links[..|links| - 1], bound);
    }
  }

  // ----------------------------------------------- depth of a built DAG

  /** A link of `x` leads to `y`. */
  ghost predicate Leads(env: Env, bs: map<Mid, Bytes>, x: Mid, y: Mid) {
    x in bs && IsInternalNode(bs[x]).Some?
    && exists i :: 0 <= i < |IsInternalNode(bs[x]).value| && env.parse(IsInternalNode(bs[x]).value[i]) == Some(y)
  }

  /** A way down from `p[0]` to a leaf. */
  ghost predicate Descent(env: Env, bs: map<Mid, Bytes>, p: seq<Mid>) {
    && p != [] && p[|p| - 1] in bs && IsInternalNode(bs[p[|p| - 1]]) == None
    && forall i :: 0 <= i < |p| - 1 ==> Leads(env, bs, p[i], p[i + 1])
  }

  lemma {:induction false} MaxDepthIs(env: Env, bs: map<Mid, Bytes>, links: seq<Bytes>, bound: nat)
    requires MaxDepth(env, bs, links, bound).Some?
    ensures forall i :: 0 <= i < |links| ==>
      env.parse(links[i]).Some? && Depth(env, bs, env.parse(links[i]).value, bound).Some?
      && Depth(env, bs, env.parse(links[i]).value, bound).value <= MaxDepth(env, bs, links, bound).value
    ensures links != [] ==>
      exists i :: 0 <= i < |links| && env.parse(links[i]).Some? && Depth(env, bs, env.parse(links[i]).value, bound) == MaxDepth(env, bs, links, bound)
  {
    hide Depth;
    if links != [] {
      var n := |links| - 1;
      var front := links[..n];
      MaxDepthIs(env, bs, front, bound);
      if front != [] {
        var i :| 0 <= i < n && env.parse(front[i]).Some? && Depth(env, bs, env.parse(front[i]).value, bound) == MaxDepth(env, bs, front, bound);
        assert links[i] == front[i];
      }
      forall i | 0 <= i < n ensures links[i] == front[i] { }
    }
  }

  /** The depth is the number of nodes on a longest way down: one of that length there is... */
  lemma {:induction false} LongestDescent(env: Env, bs: map<Mid, Bytes>, m: Mid, bound: nat) returns (p: seq<Mid>)
    requires Depth(env, bs, m, bound).Some?
    ensures Descent(env, bs, p) && p[0] == m && |p| == Depth(env, bs, m, bound).value
    decreases bound
  {
    hide IsInternalNode;
    match IsInternalNode(bs[m]) {
      case None => p := [m];
      case Some(links) =>
        NodeHasLinks(bs[m]);
        MaxDepthIs(env, bs, links, bound - 1);
        var i :| 0 <= i < |links| && env.parse(links[i]).Some?
          && Depth(env, bs, env.parse(links[i]).value, bound - 1) == MaxDepth(env, bs, links, bound - 1);
        var rest := LongestDescent(env, bs, env.parse(links[i]).value, bound - 1);
        p := [m] + rest;
        assert Leads(env, bs, m, rest[0]);
    }
  }

  lemma NodeHasLinks(data: Bytes)
    ensures IsInternalNode(data).Some? ==> IsInternalNode(data).value != []
  {
    hide Unmarshal, MarshalLinks, AllUtf8;
  }

  /** ...and none is longer. */
  lemma {:induction false} NoLongerDescent(env: Env, bs: map<Mid, Bytes>, m: Mid, bound: nat, p: seq<Mid>)
    requires Depth(env, bs, m, bound).Some? && Descent(env, bs, p) && p[0] == m
    ensures |p| <= Depth(env, bs, m, bound).value
    decreases bound
  {
    hide IsInternalNode;
    if |p| > 1 {
      assert Leads(env, bs, p[0], p[1]);
      var links := IsInternalNode(bs[m]).value;
      MaxDepthIs(env, bs, links, bound - 1);
      var i :| 0 <= i < |links| && env.parse(links[i]) == Some(p[1]);
      forall j | 0 <= j < |p| - 2 ensures Leads(env, bs, p[1..][j], p[1..][j + 1]) {
        assert Leads(env, bs, p[j + 1], p[j + 2]);
      }
      NoLongerDescent(env, bs, p[1], bound - 1, p[1..]);
    } else {
      DepthPositive(env, bs, m, bound);
    }
  }

  lemma DepthPositive(env: Env, bs: map<Mid, Bytes>, m: Mid, bound: nat)
    requires Depth(env, bs, m, bound).Some?
    ensures Depth(env, bs, m, bound).value >= 1
  {
    hide IsInternalNode;
  }

  /** All leaves below `m` sit at the same depth `d`. */
  ghost predicate Uniform(env: Env, bs: map<Mid, Bytes>, m: Mid, d: nat)
    decreases d
  {
    && d > 0 && m in bs
    && match IsInternalNode(bs[m])
       case None => d == 1
       case Some(links) =>
         d > 1 && forall i :: 0 <= i < |links| ==>
           env.parse(links[i]).Some? && Uniform(env, bs, env.parse(links[i]).value, d - 1)
  }

  /** Then that is the depth reported, at every recursion bound that reaches it. */
  lemma {:induction false} UniformDepth(env: Env, bs: map<Mid, Bytes>, m: Mid, d: nat, bound: nat)
    requires Uniform(env, bs, m, d) && bound >= d
    ensures Depth(env, bs, m, bound) == Some(d)
    decreases d
  {
    hide IsInternalNode;
    if IsInternalNode(bs[m]).Some? {
      var links := IsInternalNode(bs[m]).value;
      LinksNotEmpty(bs[m]);
      forall i | 0 <= i < |links| ensures Depth(env, bs, env.parse(links[i]).value, bound - 1) == Some(d - 1) {
        UniformDepth(env, bs, env.parse(links[i]).value, d - 1, bound - 1);
      }
      SameDepth(env, bs, links, bound - 1, d - 1);
    }
  }

  lemma LinksNotEmpty(data: Bytes)
    requires IsInternalNode(data).Some?
    ensures IsInternalNode(data).value != []
  {
  }

  lemma {:induction false} SameDepth(env: Env, bs: map<Mid, Bytes>, links: seq<Bytes>, bound: nat, d: nat)
    requires forall i :: 0 <= i < |links| ==>
               env.parse(links[i]).Some? && Depth(env, bs, env.parse(links[i]).value, bound) == Some(d)
    ensures MaxDepth(env, bs, links, bound) == Some(if links == [] then 0 else d)
  {
    hide Depth;
    if links != [] {
      SameDepth(env, bs, links[..|links| - 1], bound, d);
    }
  }

  ghost predicate AllUniform(env: Env, bs: map<Mid, Bytes>, s: seq<Mid>, d: nat) {
    forall i :: 0 <= i < |s| ==> env.Proper(s[i]) && Uniform(env, bs, s[i], d)
  }

  lemma UniformNode(env: Env, bs: map<Mid, Bytes>, g: seq<Mid>, d: nat)
    requires env.Sound() && PlainText(env) && g != [] && d > 0 && AllUniform(env, bs, g, d)
    requires NodeBlock(env, g).mid in bs && bs[NodeBlock(env, g).mid] == NodeBlock(env, g).data
    ensures Uniform(env, bs, NodeBlock(env, g).mid, d + 1) && env.Proper(NodeBlock(env, g).mid)
  {
    hide IsInternalNode;
    NodeRecognised(env, g);
    forall i | 0 <= i < |g| ensures env.parse(Texts(env, g)[i]) == Some(g[i]) && Uniform(env, bs, g[i], d) {
      assert Texts(env, g)[i] == env.text(g[i]);
    }
  }

  lemma UniformLevel(env: Env, bs: map<Mid, Bytes>, level: nat, s: seq<Mid>, d: nat)
    requires env.Sound() && PlainText(env) && d > 0 && AllUniform(env, bs, s, d)
    requires Stores(bs, LevelBlocks(DagTree(env), level, s, Groups(|s|)))
    ensures AllUniform(env, bs, AllParents(DagTree(env), level, s), d + 1)
  {
    hide Uniform, NodeBlock, Env.Sound;
    var t := DagTree(env);
    forall k | 0 <= k < Groups(|s|)
      ensures Uniform(env, bs, t.parent(level, Group(s, k)), d + 1)
      ensures env.Proper(t.parent(level, Group(s, k)))
    {
      var g := Group(s, k);
      assert t.block(level, g) in LevelBlocks(t, level, s, Groups(|s|));
      assert AllUniform(env, bs, g, d) by {
        forall i | 0 <= i < |g| ensures env.Proper(g[i]) && Uniform(env, bs, g[i], d) {
          assert g[i] == s[k * FANOUT + i];
        }
      }
      UniformNode(env, bs, g, d);
    }
  }

  lemma {:induction false} UniformBatch(env: Env, bs: map<Mid, Bytes>, level: nat, s: seq<Mid>, d: nat)
    requires env.Sound() && PlainText(env) && s != [] && d > 0 && AllUniform(env, bs, s, d)
    requires Stores(bs, BatchBlocks(DagTree(env), level, s))
    ensures Uniform(env, bs, BatchRoot(DagTree(env), level, s), d + Height(|s|))
    decreases |s|
  {
    hide Uniform, DagTree, LevelBlocks, Env.Sound;
    if |s| > 1 {
      var t := DagTree(env);
      assert Stores(bs, LevelBlocks(t, level, s, Groups(|s|)));
      UniformLevel(env, bs, level, s, d);
      UniformBatch(env, bs, level + 1, AllParents(t, level, s), d + 1);
    }
  }

  /** In the finished DAG over N chunks every leaf sits at the same depth d, with FANOUT^(d-2) < N <= FANOUT^(d-1)
      for N >= 2, and d is what the depth walk reports. */
  lemma DepthOfBuiltDag(env: Env, bs: map<Mid, Bytes>, input: seq<Chunk>, bound: nat)
    requires env.Sound() && PlainText(env)
    requires input != [] && AllGood(env, input)
    requires Stores(bs, LeafBlocks(input) + BatchBlocks(DagTree(env), 0, Leaves(input)))
    requires forall i :: 0 <= i < |input| ==> IsInternalNode(Payloads(input)[i]) == None
    requires bound > Height(|input|)
    ensures
      var d := Height(|input|) + 1;
      && Uniform(env, bs, BatchRoot(DagTree(env), 0, Leaves(input)), d)
      && Depth(env, bs, BatchRoot(DagTree(env), 0, Leaves(input)), bound) == Some(d)
      && (|input| >= 2 ==> d >= 2 && Pow(d - 2) < |input| <= Pow(d - 1))
  {
    hide IsInternalNode, DagTree, BatchBlocks, BatchRoot, Env.Sound;
    forall i | 0 <= i < |input|
      ensures env.Proper(Leaves(input)[i]) && Uniform(env, bs, Leaves(input)[i], 1)
    {
      assert Fault(env, input[i]) == None;
      assert ChunkBlock(input[i]) in LeafBlocks(input);
      assert Payloads(input)[i] == ChunkBlock(input[i]).data;
      env.DigestProper(Payloads(input)[i]);
    }
    UniformBatch(env, bs, 0, Leaves(input), 1);
    UniformDepth(env, bs, BatchRoot(DagTree(env), 0, Leaves(input)), Height(|input|) + 1, bound);
    if |input| >= 2 {
      HeightBounds(|input|);
    }
  }
}
