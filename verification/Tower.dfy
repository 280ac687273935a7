/** core/store/walk.go over the trees of core/dag and core/memfs: how far the walk from a built root gets, and what a failed
    walk leaves out. A tower lists the levels of such a tree, entries first, root last. */
module Tower {
  import opened Common
  import opened Carry
  import opened StoreWalk

  /** Every entry of `ps` is present, and its children are one group of `s`. */
  ghost predicate Floor(dec: Decoders, view: BlockMap, s: seq<Mid>, ps: seq<Mid>) {
    |ps| == Groups(|s|) && forall k :: 0 <= k < |ps| ==> ps[k].hash in view && Children(dec, view, ps[k]) == Group(s, k)
  }

  ghost predicate IsTower(dec: Decoders, view: BlockMap, t: seq<seq<Mid>>) {
    && t != [] && t[0] != []
    && if |t| == 1 then |t[0]| == 1 else Floor(dec, view, t[0], t[1]) && IsTower(dec, view, t[1..])
  }

  ghost function Root(t: seq<seq<Mid>>): Mid
    requires t != []
  {
    if |t| > 1 then Root(t[1..]) else if t[0] == [] then Mid(0, []) else t[0][0]
  }

  /** Present at any level. */
  ghost predicate InTower(t: seq<seq<Mid>>, x: Mid) {
    exists j :: 0 <= j < |t| && x in t[j]
  }

  // -------------------------------------------------- complete subtrees

  ghost predicate EachComplete(dec: Decoders, view: BlockMap, s: seq<Mid>) {
    forall i :: 0 <= i < |s| ==> Complete(dec, view, s[i])
  }

  /** All entries but the last. */
  function Earlier(s: seq<Mid>): seq<Mid> { if s == [] then [] else s[..|s| - 1] }

  lemma ParentComplete(dec: Decoders, view: BlockMap, p: Mid, g: seq<Mid>)
    requires p.hash in view && Children(dec, view, p) == g
    ensures Complete(dec, view, p) <==> EachComplete(dec, view, g)
  {
    hide Children, Complete;
    CompleteUnfold(dec, view, p);
    if EachComplete(dec, view, g) {
      forall c | c in g ensures Complete(dec, view, c) {
        var i :| 0 <= i < |g| && g[i] == c;
      }
    }
  }

  lemma FloorComplete(dec: Decoders, view: BlockMap, s: seq<Mid>, ps: seq<Mid>)
    requires Floor(dec, view, s, ps)
    ensures EachComplete(dec, view, ps) <==> EachComplete(dec, view, s)
    ensures EachComplete(dec, view, Earlier(s)) ==> EachComplete(dec, view, Earlier(ps))
  {
    hide Children, Complete;
    forall k | 0 <= k < |ps| ensures Complete(dec, view, ps[k]) <==> EachComplete(dec, view, Group(s, k)) {
      ParentComplete(dec, view, ps[k], Group(s, k));
    }
    if EachComplete(dec, view, ps) {
      forall i | 0 <= i < |s| ensures Complete(dec, view, s[i]) {
        var k := i / FANOUT;
        assert Complete(dec, view, ps[k]);
        assert Group(s, k)[i - k * FANOUT] == s[i];
      }
    }
    if EachComplete(dec, view, s) {
      forall k | 0 <= k < |ps| ensures Complete(dec, view, ps[k]) {
        forall i | 0 <= i < |Group(s, k)| ensures Complete(dec, view, Group(s, k)[i]) {
          assert s[k * FANOUT + i] == Group(s, k)[i];
        }
      }
    }
    if EachComplete(dec, view, Earlier(s)) {
      forall k | 0 <= k < |ps| - 1 ensures Complete(dec, view, ps[k]) {
        forall i | 0 <= i < |Group(s, k)| ensures Complete(dec, view, Group(s, k)[i]) {
          assert Earlier(s)[k * FANOUT + i] == Group(s, k)[i];
        }
      }
    }
  }

  /** The root is complete exactly when every entry is. */
  lemma {:induction false} TowerComplete(dec: Decoders, view: BlockMap, t: seq<seq<Mid>>)
    requires IsTower(dec, view, t)
    ensures Complete(dec, view, Root(t)) <==> EachComplete(dec, view, t[0])
  {
    hide Floor, Complete;
    if |t| > 1 {
      FloorComplete(dec, view, t[0], t[1]);
      TowerComplete(dec, view, t[1..]);
    }
  }

  // --------------------------------------------- all but the last complete

  /** A visited parent whose children are complete but for the last has them all visited. */
  lemma GroupVisited(dec: Decoders, view: BlockMap, p: Mid, g: seq<Mid>, visited: set<Mid>)
    requires p.hash in view && Children(dec, view, p) == g && Progressed(dec, view, p, visited)
    requires EachComplete(dec, view, Earlier(g))
    ensures forall i :: 0 <= i < |g| ==> g[i] in visited
  {
    hide Children, MissingBelow, Complete;
    var n: nat :| ProgressedTo(dec, view, p, visited, n);
    EarlierIs(dec, view, g);
    if n < |g| {
      NotComplete(dec, view, g[n - 1]);
    }
  }

  lemma NotComplete(dec: Decoders, view: BlockMap, x: Mid)
    ensures MissingBelow(dec, view, x) <==> !Complete(dec, view, x)
  {
    hide Reach;
  }

  lemma FloorVisited(dec: Decoders, view: BlockMap, s: seq<Mid>, ps: seq<Mid>, visited: set<Mid>)
    requires Floor(dec, view, s, ps) && AllProgressed(dec, view, {}, visited)
    requires EachComplete(dec, view, Earlier(s)) && forall k :: 0 <= k < |ps| ==> ps[k] in visited
    ensures forall i :: 0 <= i < |s| ==> s[i] in visited
  {
    hide Children, Complete, Progressed;
    forall i | 0 <= i < |s| ensures s[i] in visited {
      var k := i / FANOUT;
      var g := Group(s, k);
      assert ps[k] in visited;
      forall j | 0 <= j < |g| - 1 ensures Complete(dec, view, Earlier(g)[j]) {
        assert Earlier(s)[k * FANOUT + j] == g[j];
      }
      GroupVisited(dec, view, ps[k], g, visited);
      assert g[i - k * FANOUT] == s[i];
    }
  }

  /** If all entries but the last are complete, the walk from the root visits the whole tower, even if it fails. */
  lemma {:induction false} TowerVisited(dec: Decoders, view: BlockMap, t: seq<seq<Mid>>, visited: set<Mid>)
    requires IsTower(dec, view, t) && Root(t) in visited && AllProgressed(dec, view, {}, visited)
    requires EachComplete(dec, view, Earlier(t[0]))
    ensures forall x :: InTower(t, x) ==> x in visited
  {
    hide Floor, Complete, Progressed, AllProgressed;
    if |t| > 1 {
      FloorComplete(dec, view, t[0], t[1]);
      TowerVisited(dec, view, t[1..], visited);
      forall x | InTower(t[1..], x) || x in t[1] ensures x in visited {
        if x in t[1] {
          assert t[1..][0] == t[1];
          assert InTower(t[1..], x);
        }
      }
      FloorVisited(dec, view, t[0], t[1], visited);
      forall x | InTower(t, x) ensures x in visited {
        var j :| 0 <= j < |t| && x in t[j];
        if j > 0 {
          assert t[1..][j - 1] == t[j];
          assert InTower(t[1..], x);
        }
      }
    }
  }

  lemma WalkVisitsTower(dec: Decoders, view: BlockMap, t: seq<seq<Mid>>)
    requires IsTower(dec, view, t) && EachComplete(dec, view, Earlier(t[0]))
    ensures forall x :: InTower(t, x) ==> x in WalkFrom(dec, view, Root(t)).visited
  {
    var root := Root(t);
    hide Dfs, IsTower, EachComplete, AllProgressed, Universe;
    UniverseClosed(dec, view, root);
    NothingTracked(dec, view);
    DfsProgresses(dec, view, false, Universe(dec, view, root), root, {}, []);
    RootVisited(dec, view, root);
    TowerVisited(dec, view, t, WalkFrom(dec, view, root).visited);
  }

  lemma RootVisited(dec: Decoders, view: BlockMap, root: Mid)
    ensures root in WalkFrom(dec, view, root).visited
  {
    hide Universe, Classify;
    UniverseClosed(dec, view, root);
  }

  // ------------------------------------------- an earlier entry incomplete

  function LastChild(dec: Decoders, view: BlockMap, x: Mid): Mid {
    var children := Children(dec, view, x);
    if children == [] then x else children[|children| - 1]
  }

  function Down(dec: Decoders, view: BlockMap, x: Mid, n: nat): Mid
    decreases n
  {
    if n == 0 then x else Down(dec, view, LastChild(dec, view, x), n - 1)
  }

  /** Following last children from `x` meets the key of `last` first after `n` steps, at `last`. */
  ghost predicate Above(dec: Decoders, view: BlockMap, x: Mid, n: nat, last: Mid) {
    Down(dec, view, x, n) == last && forall k :: 0 <= k < n ==> Down(dec, view, x, k).hash != last.hash
  }

  lemma AboveUnique(dec: Decoders, view: BlockMap, x: Mid, m: nat, n: nat, last: Mid)
    requires Above(dec, view, x, m, last) && Above(dec, view, x, n, last)
    ensures m == n
  {
    hide Down;
  }

  lemma AboveParent(dec: Decoders, view: BlockMap, p: Mid, g: seq<Mid>, n: nat, last: Mid)
    requires Children(dec, view, p) == g && g != [] && p.hash != last.hash && Above(dec, view, g[|g| - 1], n, last)
    ensures Above(dec, view, p, n + 1, last)
  {
    hide Children;
    assert LastChild(dec, view, p) == g[|g| - 1];
    forall k | 0 <= k < n + 1 ensures Down(dec, view, p, k).hash != last.hash {
      if k > 0 {
        assert Down(dec, view, p, k) == Down(dec, view, g[|g| - 1], k - 1);
      }
    }
  }

  lemma {:induction false} DownReaches(dec: Decoders, view: BlockMap, x: Mid, n: nat)
    ensures Reach(dec, view, x, Down(dec, view, x, n))
    decreases n
  {
    hide Reach, Children;
    if n == 0 {
      ReachSelf(dec, view, x);
    } else {
      DownReaches(dec, view, LastChild(dec, view, x), n - 1);
      if Children(dec, view, x) != [] {
        ReachHead(dec, view, x, LastChild(dec, view, x), Down(dec, view, x, n));
      }
    }
  }

  /** Nothing below `x` has the key of `last`. */
  ghost predicate Apart(dec: Decoders, view: BlockMap, x: Mid, last: Mid) {
    forall y :: Reach(dec, view, x, y) ==> y.hash != last.hash
  }

  lemma ApartBelow(dec: Decoders, view: BlockMap, x: Mid, y: Mid, last: Mid)
    requires Apart(dec, view, x, last) && Reach(dec, view, x, y)
    ensures Apart(dec, view, y, last) && y.hash != last.hash
  {
    hide Reach;
    forall z | Reach(dec, view, y, z) ensures z.hash != last.hash {
      ReachTrans(dec, view, x, y, z);
    }
  }

  lemma ReachTrans(dec: Decoders, view: BlockMap, a: Mid, b: Mid, c: Mid)
    requires Reach(dec, view, a, b) && Reach(dec, view, b, c)
    ensures Reach(dec, view, a, c)
  {
    hide Children;
    var p :| IsPath(dec, view, p) && p[0] == a && p[|p| - 1] == b;
    var q :| IsPath(dec, view, q) && q[0] == b && q[|q| - 1] == c;
    var r := p + q[1..];
    assert IsPath(dec, view, r) by {
      forall i | 0 <= i < |r| - 1 ensures r[i + 1] in Children(dec, view, r[i]) {
        if i < |p| - 1 {
          assert p[i + 1] in Children(dec, view, p[i]);
        } else {
          assert r[i] == q[i - |p| + 1] && r[i + 1] == q[i - |p| + 2];
        }
      }
    }
    assert r[0] == a && r[|r| - 1] == c;
  }

  /** Apart children make an apart parent. */
  lemma ApartParent(dec: Decoders, view: BlockMap, p: Mid, last: Mid)
    requires p.hash != last.hash && forall c :: c in Children(dec, view, p) ==> Apart(dec, view, c, last)
    ensures Apart(dec, view, p, last)
  {
    hide Reach, Children;
    forall y | Reach(dec, view, p, y) ensures y.hash != last.hash {
      if y != p {
        ReachUnfold(dec, view, p, y);
      }
    }
  }

  lemma NotApart(dec: Decoders, view: BlockMap, x: Mid, n: nat, last: Mid)
    requires Above(dec, view, x, n, last)
    ensures !Apart(dec, view, x, last)
  {
    hide Reach, Down;
    DownReaches(dec, view, x, n);
  }

  /** The walk from the root comes to `p`, `n` levels above `last`, in this state; the open blocks are those above `p`. If it
      fails from there on, that is how it ends. */
  ghost predicate Arrives(dec: Decoders, view: BlockMap, root: Mid, p: Mid, n: nat, last: Mid,
                          visited: set<Mid>, order: seq<Visit>, open: set<Mid>) {
    && Passing(dec, view, root, n, last, visited, order, open) && p in Universe(dec, view, root) && p !in visited
    && EndsAs(dec, view, root, p, visited, order)
  }

  ghost predicate EndsAs(dec: Decoders, view: BlockMap, root: Mid, p: Mid, visited: set<Mid>, order: seq<Visit>)
    requires p in Universe(dec, view, root) && visited <= Universe(dec, view, root)
  {
    UniverseClosed(dec, view, root);
    var r := Dfs(dec, view, false, Universe(dec, view, root), p, visited, order);
    !r.ok ==> WalkFrom(dec, view, root) == r
  }

  ghost predicate Passing(dec: Decoders, view: BlockMap, root: Mid, n: nat, last: Mid,
                          visited: set<Mid>, order: seq<Visit>, open: set<Mid>) {
    && visited <= Universe(dec, view, root) && Tracks(dec, view, order, visited) && Clean(dec, view, visited, open)
    && (forall y :: y in visited && y !in open ==> Apart(dec, view, y, last))
    && (forall a :: a in open ==> IsAbove(dec, view, a, n, last))
  }

  ghost predicate IsAbove(dec: Decoders, view: BlockMap, x: Mid, n: nat, last: Mid) {
    exists m :: m > n && Above(dec, view, x, m, last)
  }

  lemma PassedHashes(dec: Decoders, view: BlockMap, root: Mid, n: nat, last: Mid, visited: set<Mid>, order: seq<Visit>, open: set<Mid>)
    requires Passing(dec, view, root, n, last, visited, order, open)
    ensures forall y :: y in visited ==> y.hash != last.hash
  {
    hide Clean, Tracks, Apart, Universe;
    forall y | y in visited ensures y.hash != last.hash {
      if y in open {
        var m :| m > n && Above(dec, view, y, m, last);
        assert Down(dec, view, y, 0) == y;
      } else {
        ApartSelf(dec, view, y, last);
      }
    }
  }

  lemma ApartSelf(dec: Decoders, view: BlockMap, x: Mid, last: Mid)
    requires Apart(dec, view, x, last)
    ensures x.hash != last.hash
  {
    hide Reach;
    ReachSelf(dec, view, x);
  }

  /** Nothing at the level of `p` or below it has been visited on the way. */
  lemma NotPassed(dec: Decoders, view: BlockMap, root: Mid, n: nat, last: Mid, visited: set<Mid>, order: seq<Visit>, open: set<Mid>, p: Mid)
    requires Passing(dec, view, root, n, last, visited, order, open) && Above(dec, view, p, n, last)
    ensures p !in visited
  {
    hide Clean, Tracks, Apart, Universe, Above;
    NotApart(dec, view, p, n, last);
    if p in open {
      var m :| m > n && Above(dec, view, p, m, last);
      AboveUnique(dec, view, p, m, n, last);
    }
  }

  /** From `p`, walking its first `i` children, all complete and apart from `last`. */
  lemma Descend(dec: Decoders, view: BlockMap, root: Mid, p: Mid, n: nat, last: Mid, visited: set<Mid>, order: seq<Visit>, open: set<Mid>,
                g: seq<Mid>, i: nat) returns (v: set<Mid>, o: seq<Visit>)
    requires Arrives(dec, view, root, p, n + 1, last, visited, order, open) && Above(dec, view, p, n + 1, last)
    requires p.hash in view && Children(dec, view, p) == g && i < |g|
    requires forall k :: 0 <= k < i ==> Complete(dec, view, g[k]) && Apart(dec, view, g[k], last)
    ensures Passing(dec, view, root, n, last, v, o, open + {p})
    ensures g[i] in Universe(dec, view, root) && EndsAs(dec, view, root, g[i], v, o)
  {
    hide Reach, Classify, Tracks, Clean, Complete, Apart, Above, Universe;
    UniverseClosed(dec, view, root);
    var u := Universe(dec, view, root);
    assert forall c :: c in g ==> c in u;
    assert Classify(dec, p.codec, view[p.hash]) == Internal(g);
    var v0, o0 := visited + {p}, order + [Visit(p, false)];
    TracksCall(dec, view, order, visited, p, false);
    CleanOpens(dec, view, visited, open, p);
    v, o := AllWalkOn(dec, view, u, g, i, v0, o0, open + {p});
    assert Dfs(dec, view, false, u, p, visited, order) == DfsAll(dec, view, false, u, g, v0, o0);
    var rest := g[i..];
    assert rest[0] == g[i];
    var r := Dfs(dec, view, false, u, g[i], v, o);
    assert !r.ok ==> DfsAll(dec, view, false, u, rest, v, o) == r;
    forall y | y in v && y !in open + {p} ensures Apart(dec, view, y, last) {
      if y !in v0 {
        var k :| 0 <= k < i && Reach(dec, view, g[k], y);
        ApartBelow(dec, view, g[k], y, last);
      }
    }
    forall a | a in open + {p} ensures IsAbove(dec, view, a, n, last) {
      if a in open {
        var m :| m > n + 1 && Above(dec, view, a, m, last);
        assert m > n;
      }
    }
  }

  lemma CleanOpens(dec: Decoders, view: BlockMap, visited: set<Mid>, open: set<Mid>, p: Mid)
    requires Clean(dec, view, visited, open)
    ensures Clean(dec, view, visited + {p}, open + {p})
  {
    hide Children;
  }

  /** The first incomplete child, if it is not the last one, ends the walk before `last` is visited. */
  lemma StopsBefore(dec: Decoders, view: BlockMap, root: Mid, p: Mid, n: nat, last: Mid, visited: set<Mid>, order: seq<Visit>,
                    open: set<Mid>, g: seq<Mid>, i: nat)
    requires Arrives(dec, view, root, p, n + 1, last, visited, order, open) && Above(dec, view, p, n + 1, last)
    requires p.hash in view && Children(dec, view, p) == g && i < |g|
    requires forall k :: 0 <= k < i ==> Complete(dec, view, g[k])
    requires forall k :: 0 <= k <= i ==> Apart(dec, view, g[k], last)
    requires !Complete(dec, view, g[i])
    ensures forall x :: x in WalkFrom(dec, view, root).visited ==> x.hash != last.hash
  {
    hide Reach, Children, Tracks, Clean, Complete, Apart, Above, Universe, Dfs;
    var v, o := Descend(dec, view, root, p, n, last, visited, order, open, g, i);
    UniverseClosed(dec, view, root);
    var u := Universe(dec, view, root);
    forall a | a in open + {p} ensures !Reach(dec, view, g[i], a) {
      var m :| m > n && Above(dec, view, a, m, last);
      NotApart(dec, view, a, m, last);
      if Reach(dec, view, g[i], a) {
        ApartBelow(dec, view, g[i], a, last);
      }
    }
    ReachSelf(dec, view, g[i]);
    IncompleteFails(dec, view, u, g[i], v, o, open + {p});
    DfsSound(dec, view, false, u, g[i], v, o);
    PassedHashes(dec, view, root, n, last, v, o, open + {p});
    forall x | x in WalkFrom(dec, view, root).visited ensures x.hash != last.hash {
      if x !in v {
        ApartBelow(dec, view, g[i], x, last);
      }
    }
  }

  /** With all children but the last complete, the walk comes to the last one. */
  lemma GoesOn(dec: Decoders, view: BlockMap, root: Mid, p: Mid, n: nat, last: Mid, visited: set<Mid>, order: seq<Visit>,
               open: set<Mid>, g: seq<Mid>) returns (v: set<Mid>, o: seq<Visit>)
    requires Arrives(dec, view, root, p, n + 1, last, visited, order, open) && Above(dec, view, p, n + 1, last)
    requires p.hash in view && Children(dec, view, p) == g && g != [] && Above(dec, view, g[|g| - 1], n, last)
    requires forall k :: 0 <= k < |g| - 1 ==> Complete(dec, view, g[k]) && Apart(dec, view, g[k], last)
    ensures Arrives(dec, view, root, g[|g| - 1], n, last, v, o, open + {p})
  {
    hide Reach, Children, Tracks, Clean, Complete, Apart, Above, Universe, Dfs, Passing;
    v, o := Descend(dec, view, root, p, n, last, visited, order, open, g, |g| - 1);
    NotPassed(dec, view, root, n, last, v, o, open + {p}, g[|g| - 1]);
  }

  lemma FirstIncomplete(dec: Decoders, view: BlockMap, g: seq<Mid>) returns (i: nat)
    requires !EachComplete(dec, view, g)
    ensures i < |g| && !Complete(dec, view, g[i]) && forall k :: 0 <= k < i ==> Complete(dec, view, g[k])
  {
    hide Complete;
    i := 0;
    while Complete(dec, view, g[i])
      invariant i < |g| && forall k :: 0 <= k < i ==> Complete(dec, view, g[k])
      decreases |g| - i
    {
      assert i + 1 < |g|;
      i := i + 1;
    }
  }

  /** Entries of the lowest level but the last, and everything above that level, stay clear of the key of `last`. */
  ghost predicate Clear(dec: Decoders, view: BlockMap, t: seq<seq<Mid>>, last: Mid)
    requires t != []
  {
    && (forall i :: 0 <= i < |t[0]| - 1 ==> Apart(dec, view, t[0][i], last))
    && (forall j, k :: 0 < j < |t| && 0 <= k < |t[j]| ==> t[j][k].hash != last.hash)
  }

  lemma ClearAbove(dec: Decoders, view: BlockMap, t: seq<seq<Mid>>, last: Mid, n: nat)
    requires IsTower(dec, view, t) && |t| > 1 && Clear(dec, view, t, last)
    requires Above(dec, view, t[0][|t[0]| - 1], n, last)
    ensures 0 < |t[1]| == Groups(|t[0]|)
    ensures Clear(dec, view, t[1..], last) && Above(dec, view, t[1][|t[1]| - 1], n + 1, last)
    ensures
      var s, g := t[0], Group(t[0], |t[1]| - 1);
      && g[|g| - 1] == s[|s| - 1] && (forall k :: 0 <= k < |g| - 1 ==> Apart(dec, view, g[k], last))
  {
    hide Children, Apart, Above;
    var s, ps := t[0], t[1];
    var g := Group(s, |ps| - 1);
    forall k | 0 <= k < |g| - 1 ensures Apart(dec, view, g[k], last) {
      assert g[k] == s[(|ps| - 1) * FANOUT + k];
    }
    AboveParent(dec, view, ps[|ps| - 1], g, n, last);
    forall k | 0 <= k < |ps| - 1 ensures Apart(dec, view, ps[k], last) {
      forall c | c in Group(s, k) ensures Apart(dec, view, c, last) {
        var i :| 0 <= i < |Group(s, k)| && Group(s, k)[i] == c;
        assert s[k * FANOUT + i] == c;
      }
      assert ps[k].hash != last.hash;
      ApartParent(dec, view, ps[k], last);
    }
  }

  /** Either some entry before the last is incomplete and nothing with the key of `last` is ever visited, or all are
      complete and the walk comes to the last one. */
  lemma {:induction false} LastPath(dec: Decoders, view: BlockMap, t: seq<seq<Mid>>, n: nat, last: Mid)
      returns (lost: bool, v: set<Mid>, o: seq<Visit>, open: set<Mid>)
    requires IsTower(dec, view, t) && Clear(dec, view, t, last) && Above(dec, view, t[0][|t[0]| - 1], n, last)
    ensures lost ==> !EachComplete(dec, view, Earlier(t[0]))
    ensures lost ==> forall x :: x in WalkFrom(dec, view, Root(t)).visited ==> x.hash != last.hash
    ensures !lost ==> EachComplete(dec, view, Earlier(t[0]))
    ensures !lost ==> Arrives(dec, view, Root(t), t[0][|t[0]| - 1], n, last, v, o, open)
    decreases |t|
  {
    hide Floor, Clear, Complete, Above, Arrives, WalkFrom, EachComplete, Apart;
    var root := Root(t);
    lost := false;
    if |t| == 1 {
      v, o, open := {}, [], {};
      StartsHere(dec, view, root, n, last);
      NothingEarlier(dec, view, t[0]);
    } else {
      ClearAbove(dec, view, t, last, n);
      lost, v, o, open := LastPath(dec, view, t[1..], n + 1, last);
      FloorComplete(dec, view, t[0], t[1]);
      if !lost {
        var p, g := t[1][|t[1]| - 1], Group(t[0], |t[1]| - 1);
        LastOfFloor(dec, view, t[0], t[1]);
        if EachComplete(dec, view, Earlier(g)) {
          EarlierIs(dec, view, g);
          v, o := GoesOn(dec, view, root, p, n, last, v, o, open, g);
          open := open + {p};
        } else {
          var i := FirstIncomplete(dec, view, Earlier(g));
          ForallEarlier(g, i);
          StopsBefore(dec, view, root, p, n, last, v, o, open, g, i);
          lost := true;
        }
      }
    }
  }

  lemma StartsHere(dec: Decoders, view: BlockMap, root: Mid, n: nat, last: Mid)
    ensures Arrives(dec, view, root, root, n, last, {}, [], {})
  {
    hide Dfs;
    UniverseClosed(dec, view, root);
    NothingTracked(dec, view);
  }

  lemma NothingEarlier(dec: Decoders, view: BlockMap, s: seq<Mid>)
    requires |s| == 1
    ensures EachComplete(dec, view, Earlier(s))
  {
  }

  lemma EarlierIs(dec: Decoders, view: BlockMap, g: seq<Mid>)
    requires EachComplete(dec, view, Earlier(g))
    ensures forall k :: 0 <= k < |g| - 1 ==> Complete(dec, view, g[k])
  {
    hide Complete;
    forall k | 0 <= k < |g| - 1 ensures Complete(dec, view, g[k]) {
      assert Earlier(g)[k] == g[k];
    }
  }

  lemma ForallEarlier(g: seq<Mid>, i: nat)
    requires i < |Earlier(g)|
    ensures i < |g| - 1 && forall k :: 0 <= k <= i ==> Earlier(g)[k] == g[k]
  {
  }

  /** Given complete earlier parents, the earlier entries are complete exactly when those of the last group are. */
  lemma LastOfFloor(dec: Decoders, view: BlockMap, s: seq<Mid>, ps: seq<Mid>)
    requires Floor(dec, view, s, ps) && s != [] && EachComplete(dec, view, Earlier(ps))
    ensures
      var p, g := ps[|ps| - 1], Group(s, |ps| - 1);
      && p.hash in view && Children(dec, view, p) == g
      && (EachComplete(dec, view, Earlier(g)) <==> EachComplete(dec, view, Earlier(s)))
  {
    hide Children, Complete;
    var base := (|ps| - 1) * FANOUT;
    var g := Group(s, |ps| - 1);
    if EachComplete(dec, view, Earlier(g)) {
      forall i | 0 <= i < |s| - 1 ensures Complete(dec, view, Earlier(s)[i]) {
        var k := i / FANOUT;
        if k < |ps| - 1 {
          assert Complete(dec, view, Earlier(ps)[k]);
          ParentComplete(dec, view, ps[k], Group(s, k));
          assert Group(s, k)[i - k * FANOUT] == s[i];
        } else {
          assert Earlier(g)[i - base] == s[i];
        }
      }
    }
    if EachComplete(dec, view, Earlier(s)) {
      forall i | 0 <= i < |g| - 1 ensures Complete(dec, view, Earlier(g)[i]) {
        assert Earlier(s)[base + i] == g[i];
      }
    }
  }

  /** The walk from the root comes to something with the key of the last entry exactly when all entries before it are
      complete, provided neither they nor the levels above have anything to do with that key. */
  lemma LastEntryVisitedIff(dec: Decoders, view: BlockMap, t: seq<seq<Mid>>)
    requires IsTower(dec, view, t) && Clear(dec, view, t, t[0][|t[0]| - 1])
    ensures
      (exists x :: x in WalkFrom(dec, view, Root(t)).visited && x.hash == t[0][|t[0]| - 1].hash)
        <==> EachComplete(dec, view, Earlier(t[0]))
  {
    hide WalkFrom, Clear, Complete;
    var last := t[0][|t[0]| - 1];
    assert Above(dec, view, last, 0, last);
    var lost, v, o, open := LastPath(dec, view, t, 0, last);
    if !lost {
      WalkVisitsTower(dec, view, t);
      assert last in t[0];
      assert InTower(t, last);
    }
  }
}
