/** core/shard/hashring.go:4-13 promises minimum disruption; this proves it for the domain-aware assignment. */
module ShardStability {
  import opened Common
  import opened Shard

  // --------------------------------------------- removal on ranked lists

  /** How the preference lists change when item `k` leaves the ranking. */
  datatype Shape =
    | Deferred(c: seq<Scored>, d: seq<Scored>)
    | Alone(a: seq<Scored>, b: seq<Scored>)
    | Promotes(a: seq<Scored>, mid: seq<Scored>, b: seq<Scored>, c: seq<Scored>, d: seq<Scored>, heir: Scored)

  ghost predicate Fits(shape: Shape, q: Scored, f: seq<Scored>, r: seq<Scored>, f': seq<Scored>, r': seq<Scored>) {
    match shape
    case Deferred(c, d) => f' == f && r == c + [q] + d && r' == c + d
    case Alone(a, b) => f == a + [q] + b && f' == a + b && r' == r
    case Promotes(a, mid, b, c, d, heir) =>
      && f == a + [q] + mid + b && f' == a + mid + [heir] + b
      && r == c + [heir] + d && r' == c + d
  }

  /** Freeing a domain promotes its best deferred peer, or nobody. */
  datatype Promotion = Nobody | Heir(mid: seq<Scored>, b: seq<Scored>, c: seq<Scored>, d: seq<Scored>, heir: Scored)

  /** `f`, `r`: the lists while the domain is taken; `f'`, `r'`: once it is free. */
  ghost predicate Frees(p: Promotion, f: seq<Scored>, r: seq<Scored>, f': seq<Scored>, r': seq<Scored>) {
    match p
    case Nobody => f == f' && r == r'
    case Heir(mid, b, c, d, heir) => f == mid + b && f' == mid + [heir] + b && r == c + [heir] + d && r' == c + d
  }

  lemma FreesDeferred(p: Promotion, x: Scored, f: seq<Scored>, r: seq<Scored>, f': seq<Scored>, r': seq<Scored>)
      returns (p': Promotion)
    requires Frees(p, f, r, f', r')
    ensures Frees(p', f, [x] + r, f', [x] + r')
  {
    p' := if p.Nobody? then p else p.(c := [x] + p.c);
    if p.Heir? {
      assert [x] + (p.c + [p.heir] + p.d) == p'.c + [p.heir] + p.d;
      assert [x] + (p.c + p.d) == p'.c + p.d;
    }
  }

  lemma FreesTaken(p: Promotion, x: Scored, f: seq<Scored>, r: seq<Scored>, f': seq<Scored>, r': seq<Scored>)
      returns (p': Promotion)
    requires Frees(p, f, r, f', r')
    ensures Frees(p', [x] + f, r, [x] + f', r')
  {
    p' := if p.Nobody? then p else p.(mid := [x] + p.mid);
    if p.Heir? {
      assert [x] + (p.mid + p.b) == p'.mid + p.b;
      assert [x] + (p.mid + [p.heir] + p.b) == p'.mid + [p.heir] + p.b;
    }
  }

  lemma {:induction false} FreeDomain(t: seq<Scored>, used: set<string>, domain: string) returns (p: Promotion)
    requires domain != "" && domain !in used
    ensures Frees(p, Firsts(t, used + {domain}), Rests(t, used + {domain}), Firsts(t, used), Rests(t, used))
  {
    if t == [] {
      return Nobody;
    }
    var x, rest, taken := t[0], t[1..], used + {domain};
    if x.domain == domain {
      assert Use(x, used) == taken;
      return Heir([], Firsts(rest, taken), [], Rests(rest, taken), x);
    }
    hide Frees;
    if Blocked(x, used) {
      p := FreeDomain(rest, used, domain);
      p := FreesDeferred(p, x, Firsts(rest, taken), Rests(rest, taken), Firsts(rest, used), Rests(rest, used));
    } else {
      var u := Use(x, used);
      assert Use(x, taken) == u + {domain};
      p := FreeDomain(rest, u, domain);
      p := FreesTaken(p, x, Firsts(rest, u + {domain}), Rests(rest, u + {domain}), Firsts(rest, u), Rests(rest, u));
    }
  }

  lemma FreesFits(p: Promotion, q: Scored, f: seq<Scored>, r: seq<Scored>, f': seq<Scored>, r': seq<Scored>)
      returns (shape: Shape)
    requires Frees(p, f, r, f', r')
    ensures Fits(shape, q, [q] + f, r, f', r')
  {
    match p {
      case Nobody =>
        shape := Alone([], f);
      case Heir(mid, b, c, d, heir) =>
        shape := Promotes([], mid, b, c, d, heir);
        assert [q] + (mid + b) == [] + [q] + mid + b;
        assert mid + [heir] + b == [] + mid + [heir] + b;
    }
  }

  lemma DropHead(s: seq<Scored>, used: set<string>) returns (shape: Shape)
    requires s != []
    ensures Fits(shape, s[0], Firsts(s, used), Rests(s, used), Firsts(s[1..], used), Rests(s[1..], used))
  {
    var q, t := s[0], s[1..];
    if Blocked(q, used) {
      shape := Deferred([], Rests(t, used));
    } else if q.domain == "" {
      shape := Alone([], Firsts(t, used));
    } else {
      hide Fits, Frees;
      var u := used + {q.domain};
      var p := FreeDomain(t, used, q.domain);
      shape := FreesFits(p, q, Firsts(t, u), Rests(t, u), Firsts(t, used), Rests(t, used));
    }
  }

  function Prepend(shape: Shape, x: Scored, deferred: bool): Shape {
    match shape
    case Deferred(c, d) => if deferred then Deferred([x] + c, d) else shape
    case Alone(a, b) => if deferred then shape else Alone([x] + a, b)
    case Promotes(a, mid, b, c, d, heir) =>
      if deferred then Promotes(a, mid, b, [x] + c, d, heir) else Promotes([x] + a, mid, b, c, d, heir)
  }

  lemma PrependFits(shape: Shape, x: Scored, deferred: bool, q: Scored,
                    f: seq<Scored>, r: seq<Scored>, f': seq<Scored>, r': seq<Scored>)
    requires Fits(shape, q, f, r, f', r')
    ensures deferred ==> Fits(Prepend(shape, x, deferred), q, f, [x] + r, f', [x] + r')
    ensures !deferred ==> Fits(Prepend(shape, x, deferred), q, [x] + f, r, [x] + f', r')
  {
  }

  lemma {:induction false} DropFits(s: seq<Scored>, k: nat, used: set<string>) returns (shape: Shape)
    requires k < |s|
    ensures Fits(shape, s[k], Firsts(s, used), Rests(s, used), Firsts(Drop(s, k), used), Rests(Drop(s, k), used))
    decreases k
  {
    hide Fits;
    if k == 0 {
      assert Drop(s, 0) == s[1..];
      shape := DropHead(s, used);
    } else {
      var x, u := s[0], if Blocked(s[0], used) then used else Use(s[0], used);
      var t, t' := s[1..], Drop(s[1..], k - 1);
      assert Drop(s, k)[0] == x && Drop(s, k)[1..] == t';
      shape := DropFits(t, k - 1, u);
      PrependFits(shape, x, Blocked(x, used), s[k], Firsts(t, u), Rests(t, u), Firsts(t', u), Rests(t', u));
      shape := Prepend(shape, x, Blocked(x, used));
    }
  }

  /** Item `k` is gone, nothing before it moved, and no survivor moved back. */
  ghost predicate Stable(o: seq<Scored>, o': seq<Scored>, k: nat) {
    && |o'| + 1 == |o| && k < |o|
    && o'[..k] == o[..k]
    && (forall j :: 0 <= j < |o| && j != k ==> NotLater(o', o[j], j))
  }

  ghost predicate NotLater(o: seq<Scored>, x: Scored, j: nat) {
    exists i :: 0 <= i <= j && i < |o| && o[i] == x
  }

  lemma DeletionStable(a: seq<Scored>, q: Scored, b: seq<Scored>)
    ensures Stable(a + [q] + b, a + b, |a|)
  {
    var o, o' := a + [q] + b, a + b;
    forall j | 0 <= j < |o| && j != |a| ensures NotLater(o', o[j], j) {
      assert o'[if j < |a| then j else j - 1] == o[j];
    }
  }

  /** `q` leaves and `h` moves forward, to a place not before `q`'s. */
  lemma PromotionStable(a: seq<Scored>, q: Scored, m: seq<Scored>, b: seq<Scored>, h: Scored, d: seq<Scored>)
    ensures Stable(a + [q] + m + b + [h] + d, a + m + [h] + b + d, |a|)
  {
    var o, o' := a + [q] + m + b + [h] + d, a + m + [h] + b + d;
    var n1, n2, n3 := |a|, |a| + 1 + |m|, |a| + 1 + |m| + |b|;
    forall j | 0 <= j < |o| && j != |a| ensures NotLater(o', o[j], j) {
      var j' := if j < n1 then j else if j < n2 then j - 1 else if j == n3 then n2 - 1 else if j < n3 then j else j - 1;
      assert o'[j'] == o[j];
    }
  }

  lemma FitsStable(shape: Shape, q: Scored, f: seq<Scored>, r: seq<Scored>, f': seq<Scored>, r': seq<Scored>) returns (k: nat)
    requires Fits(shape, q, f, r, f', r')
    ensures Stable(f + r, f' + r', k) && (f + r)[k] == q
  {
    match shape {
      case Deferred(c, d) =>
        k := |f + c|;
        assert f + r == (f + c) + [q] + d && f' + r' == (f + c) + d;
        DeletionStable(f + c, q, d);
      case Alone(a, b) =>
        k := |a|;
        assert f + r == a + [q] + (b + r) && f' + r' == a + (b + r);
        DeletionStable(a, q, b + r);
      case Promotes(a, mid, b, c, d, heir) =>
        k := |a|;
        assert f + r == a + [q] + mid + (b + c) + [heir] + d;
        assert f' + r' == a + mid + [heir] + (b + c) + d;
        PromotionStable(a, q, mid, b + c, heir, d);
    }
  }

  // ------------------------------------------------ removal from the ring

  /** The ranking without `q` is the old ranking with `q` cut out. */
  lemma RankingWithout(score: Score, m: Mid, peers: seq<string>, domains: map<string, string>, q: string) returns (k: nat)
    requires ValidRing(peers, domains) && q in peers
    ensures
      var s := Ranking(score, m, peers, domains);
      && k < |s| && s[k].peer == q
      && Ranking(score, m, Without(peers, q), domains - {q}) == Drop(s, k)
  {
    hide Sort, Items;
    var s := Ranking(score, m, peers, domains);
    var peers', domains' := Without(peers, q), domains - {q};
    WithoutElems(peers, q);
    RankingFacts(score, m, peers, domains);
    RankingFacts(score, m, peers', domains');
    var item := Item(score, m, domains, q);
    ItemsMember(score, m, peers, domains, item);
    assert item in Elems(s);
    k :| 0 <= k < |s| && s[k] == item;
    ItemsWithout(score, m, peers, domains, q);
    DropRanked(s, k);
    RankedUnique(Ranking(score, m, peers', domains'), Drop(s, k));
  }

  lemma DropRanked(s: seq<Scored>, k: nat)
    requires Ranked(s) && DistinctPeers(s) && k < |s|
    ensures Ranked(Drop(s, k)) && Elems(Drop(s, k)) == Elems(s) - {s[k]}
  {
    var d := Drop(s, k);
    forall x | x in d ensures x in Elems(s) - {s[k]} {
      var i :| 0 <= i < |d| && d[i] == x;
      assert x == s[if i < k then i else i + 1];
    }
    forall x | x in Elems(s) - {s[k]} ensures x in d {
      var i :| 0 <= i < |s| && s[i] == x;
      assert x == d[if i < k then i else i - 1];
    }
  }

  function Item(score: Score, m: Mid, domains: map<string, string>, p: string): Scored {
    Scored(p, DomainOf(domains, p), score(p, m))
  }

  lemma ItemsMember(score: Score, m: Mid, peers: seq<string>, domains: map<string, string>, x: Scored)
    ensures x in Items(score, m, peers, domains) <==> x.peer in peers && x == Item(score, m, domains, x.peer)
  {
    var items := Items(score, m, peers, domains);
    if x.peer in peers && x == Item(score, m, domains, x.peer) {
      var i :| 0 <= i < |peers| && peers[i] == x.peer;
      assert items[i] == x;
    }
  }

  lemma ItemsWithout(score: Score, m: Mid, peers: seq<string>, domains: map<string, string>, q: string)
    requires Distinct(peers)
    ensures Elems(Items(score, m, Without(peers, q), domains - {q}))
         == Elems(Items(score, m, peers, domains)) - {Item(score, m, domains, q)}
  {
    hide Items;
    var peers' := Without(peers, q);
    WithoutElems(peers, q);
    forall x: Scored
      ensures x in Items(score, m, peers', domains - {q})
         <==> x in Items(score, m, peers, domains) && x != Item(score, m, domains, q)
    {
      ItemsMember(score, m, peers, domains, x);
      ItemsMember(score, m, peers', domains - {q}, x);
      assert x.peer in peers' <==> x.peer in Elems(peers) - {q};
    }
  }

  // ------------------------------------------------ what is assigned

  lemma {:induction false} DistinctCard<T>(s: seq<T>)
    ensures |Elems(s)| <= |s|
    ensures |Elems(s)| == |s| <==> forall i, j :: 0 <= i < j < |s| ==> s[i] != s[j]
  {
    if s == [] {
      assert Elems(s) == {};
    } else {
      var n := |s| - 1;
      var p := s[..n];
      DistinctCard(p);
      assert Elems(s) == Elems(p) + {s[n]};
      if s[n] in Elems(p) {
        assert Elems(s) == Elems(p);
        var i :| 0 <= i < n && s[i] == s[n];
      } else {
        assert |Elems(s)| == |Elems(p)| + 1;
        forall i | 0 <= i < n ensures s[i] != s[n] { assert s[i] in Elems(p); }
        assert forall i :: 0 <= i < n ==> p[i] == s[i];
      }
    }
  }

  /** The preference order of a ring lists every peer once. */
  lemma PreferenceDistinct(s: seq<Scored>)
    requires DistinctPeers(s)
    ensures |Preference(s)| == |s| && DistinctPeers(Preference(s))
    ensures forall x :: x in Preference(s) <==> x in s
  {
    hide Firsts, Rests;
    var o := Preference(s);
    PreferenceElems(s, {});
    assert Elems(o) == Elems(Firsts(s, {})) + Elems(Rests(s, {}));
    DistinctCard(s);
    DistinctCard(o);
    forall x ensures x in o <==> x in s { assert x in o <==> x in Elems(o); assert x in s <==> x in Elems(s); }
    forall i, j | 0 <= i < j < |o| ensures o[i].peer != o[j].peer {
      assert o[i] in s && o[j] in s;
    }
  }

  /** Assign returns min(replicas, n) distinct peers of the ring. */
  lemma AssignIsSelection(score: Score, m: Mid, peers: seq<string>, domains: map<string, string>, replicas: int)
    requires ValidRing(peers, domains)
    ensures Assignment(score, m, peers, domains, replicas).Ok? <==> m.hash != [] && 1 <= replicas <= 64 && peers != []
    ensures
      var a := Assignment(score, m, peers, domains, replicas);
      a.Ok? ==> |a.value| == Min(replicas, |peers|) && Distinct(a.value) && Elems(a.value) <= Elems(peers)
  {
    hide Preference, Sort, Items;
    if Assignment(score, m, peers, domains, replicas).Err? {
      return;
    }
    var s := Ranking(score, m, peers, domains);
    RankingFacts(score, m, peers, domains);
    PreferenceDistinct(s);
    var a := Assignment(score, m, peers, domains, replicas).value;
    forall p | p in a ensures p in Elems(peers) {
      var i :| 0 <= i < |a| && a[i] == p;
      var x := Preference(s)[i];
      assert x in Elems(s);
      ItemsMember(score, m, peers, domains, x);
    }
  }

  lemma {:induction false} FirstsSpread(s: seq<Scored>, used: set<string>)
    ensures forall i :: 0 <= i < |Firsts(s, used)| ==> !Blocked(Firsts(s, used)[i], used)
    ensures forall i, j :: 0 <= i < j < |Firsts(s, used)| ==>
      Firsts(s, used)[i].domain == "" || Firsts(s, used)[i].domain != Firsts(s, used)[j].domain
  {
    if s != [] {
      var u := if Blocked(s[0], used) then used else Use(s[0], used);
      FirstsSpread(s[1..], u);
    }
  }

  ghost predicate Represented(f: seq<Scored>, domain: string) {
    exists i :: 0 <= i < |f| && f[i].domain == domain
  }

  lemma {:induction false} FirstsCover(s: seq<Scored>, used: set<string>, x: Scored)
    requires x in s
    ensures x.domain == "" ==> x in Firsts(s, used)
    ensures x.domain != "" ==> x.domain in used || Represented(Firsts(s, used), x.domain)
  {
    var blocked := Blocked(s[0], used);
    var u := if blocked then used else Use(s[0], used);
    var f, f' := Firsts(s, used), Firsts(s[1..], u);
    if x != s[0] {
      FirstsCover(s[1..], u, x);
      if Represented(f', x.domain) {
        var i :| 0 <= i < |f'| && f'[i].domain == x.domain;
        assert f[if blocked then i else i + 1].domain == x.domain;
      } else if x.domain in u && x.domain !in used {
        assert f[0].domain == x.domain;
      }
    } else if !blocked {
      assert f[0] == x;
    }
  }

  /** A named domain repeats only if every named domain is represented and every undomained peer is chosen. */
  lemma DomainRepeatsLast(s: seq<Scored>, n: nat, i: nat, j: nat)
    requires n <= |Preference(s)| && i < j < n
    requires Preference(s)[i].domain == Preference(s)[j].domain != ""
    ensures forall x :: x in s && x.domain == "" ==> x in Preference(s)[..n]
    ensures forall x :: x in s && x.domain != "" ==> Represented(Preference(s)[..n], x.domain)
  {
    hide Rests;
    var f, taken := Firsts(s, {}), Preference(s)[..n];
    FirstsSpread(s, {});
    assert j >= |f|;
    assert forall k :: 0 <= k < |f| ==> taken[k] == f[k];
    forall x | x in s
      ensures x.domain == "" ==> x in taken
      ensures x.domain != "" ==> Represented(taken, x.domain)
    {
      FirstsCover(s, {}, x);
      if x.domain == "" {
        var k :| 0 <= k < |f| && f[k] == x;
        assert taken[k] == x;
      } else {
        var k :| 0 <= k < |f| && f[k].domain == x.domain;
        assert taken[k].domain == x.domain;
      }
    }
  }

  /** Some assigned peer lies in this domain. */
  ghost predicate Hosted(a: seq<string>, domains: map<string, string>, domain: string) {
    exists p :: p in a && p in domains && domains[p] == domain
  }

  /** The assignment is a prefix of the preference order, domains included. */
  lemma AssignedPrefix(score: Score, m: Mid, peers: seq<string>, domains: map<string, string>, replicas: int)
    requires ValidRing(peers, domains) && Assignment(score, m, peers, domains, replicas).Ok?
    ensures
      var a, o := Assignment(score, m, peers, domains, replicas).value, Preference(Ranking(score, m, peers, domains));
      |a| <= |o| && forall k :: 0 <= k < |a| ==> o[k] == Item(score, m, domains, a[k])
    ensures forall p :: p in peers ==> Item(score, m, domains, p) in Ranking(score, m, peers, domains)
  {
    hide Preference, Sort, Items;
    var a, s := Assignment(score, m, peers, domains, replicas).value, Ranking(score, m, peers, domains);
    RankingFacts(score, m, peers, domains);
    PreferenceDistinct(s);
    forall k | 0 <= k < |a| ensures Preference(s)[k] == Item(score, m, domains, a[k]) {
      assert Preference(s)[k] in s && Preference(s)[k] in Elems(s);
      ItemsMember(score, m, peers, domains, Preference(s)[k]);
    }
    forall p | p in peers ensures Item(score, m, domains, p) in s {
      ItemsMember(score, m, peers, domains, Item(score, m, domains, p));
      assert Item(score, m, domains, p) in Elems(Items(score, m, peers, domains)) && Item(score, m, domains, p) in Elems(s);
    }
  }

  /** On a ring: two assigned peers share a named domain only if every named domain of the ring hosts an assigned peer and
      every peer without a domain is assigned. */
  lemma AssignmentRepeatsLast(score: Score, m: Mid, peers: seq<string>, domains: map<string, string>, replicas: int, i: nat, j: nat)
    requires ValidRing(peers, domains) && Assignment(score, m, peers, domains, replicas).Ok?
    requires i < j < |Assignment(score, m, peers, domains, replicas).value|
    requires
      var a := Assignment(score, m, peers, domains, replicas).value;
      a[i] in domains && a[j] in domains && domains[a[i]] == domains[a[j]] != ""
    ensures
      var a := Assignment(score, m, peers, domains, replicas).value;
      forall p :: p in peers ==> p in domains && if domains[p] == "" then p in a else Hosted(a, domains, domains[p])
  {
    hide Preference, Ranking, Assignment;
    var a, s := Assignment(score, m, peers, domains, replicas).value, Ranking(score, m, peers, domains);
    AssignedPrefix(score, m, peers, domains, replicas);
    var o, n := Preference(s), |a|;
    DomainRepeatsLast(s, n, i, j);
    forall p | p in peers
      ensures p in domains && if domains[p] == "" then p in a else Hosted(a, domains, domains[p])
    {
      assert p in Elems(peers);
      var x := Item(score, m, domains, p);
      if x.domain == "" {
        var k :| 0 <= k < n && o[..n][k] == x;
        assert a[k] == p;
      } else {
        var k :| 0 <= k < n && o[..n][k].domain == x.domain;
        assert a[k] in a && DomainOf(domains, a[k]) == domains[p];
      }
    }
  }

  // ------------------------------------------------------ main theorems

  ghost predicate Undisturbed(before: seq<string>, after: seq<string>, q: string) {
    && (forall p :: p in before && p != q ==> p in after)
    && |Elems(after) - Elems(before)| <= 1
    && (q !in before ==> after == before)
  }

  lemma StablePrefix(o: seq<Scored>, o': seq<Scored>, k: nat, replicas: nat)
    requires Stable(o, o', k) && DistinctPeers(o)
    ensures Undisturbed(PeersOf(o[..Min(replicas, |o|)]), PeersOf(o'[..Min(replicas, |o'|)]), o[k].peer)
  {
    var n, n' := Min(replicas, |o|), Min(replicas, |o'|);
    var before, after, q := PeersOf(o[..n]), PeersOf(o'[..n']), o[k].peer;
    forall p | p in before && p != q ensures p in after {
      var j :| 0 <= j < n && before[j] == p;
      assert NotLater(o', o[j], j);
      var i :| 0 <= i <= j && i < |o'| && o'[i] == o[j];
      assert after[i] == p;
    }
    if k < n {
      assert before[k] == q;
    } else {
      assert n <= k;
      assert o'[..n] == o'[..k][..n] && o[..n] == o[..k][..n];
    }
    AtMostOneNew(before, after, q);
  }

  lemma AtMostOneNew(before: seq<string>, after: seq<string>, q: string)
    requires Distinct(before) && |after| <= |before|
    requires forall p :: p in before && p != q ==> p in after
    ensures |Elems(after) - Elems(before)| <= 1 || q !in before
    ensures q !in before && before == after ==> Elems(after) - Elems(before) == {}
  {
    DistinctCard(before);
    DistinctCard(after);
    var kept := Elems(before) - {q};
    assert kept <= Elems(after);
    CardMinus(Elems(after), kept);
    CardSubset(Elems(after) - Elems(before), Elems(after) - kept);
  }

  lemma CardMinus(a: set<string>, b: set<string>)
    requires b <= a
    ensures |a - b| == |a| - |b|
  {
  }

  lemma CardSubset(a: set<string>, b: set<string>)
    requires a <= b
    ensures |a| <= |b|
  {
    CardMinus(b, a);
  }

  lemma PreferenceStable(s: seq<Scored>, k: nat) returns (at: nat)
    requires k < |s|
    ensures Stable(Preference(s), Preference(Drop(s, k)), at) && Preference(s)[at] == s[k]
  {
    hide Stable, Firsts, Rests, Fits;
    var d := Drop(s, k);
    var shape := DropFits(s, k, {});
    at := FitsStable(shape, s[k], Firsts(s, {}), Rests(s, {}), Firsts(d, {}), Rests(d, {}));
  }

  /** Minimum disruption with failure domains: after removing `q`, every other assigned peer stays assigned, at most
      one new peer is brought in, and if `q` was not assigned the returned list is the same. Assign fails afterwards
      only where it failed before or where `q` was the whole ring. */
  lemma MinimumDisruption(score: Score, m: Mid, peers: seq<string>, domains: map<string, string>, replicas: int, q: string)
    requires ValidRing(peers, domains)
    ensures
      var before := Assignment(score, m, peers, domains, replicas);
      var after := Assignment(score, m, Without(peers, q), domains - {q}, replicas);
      && (before.Err? ==> after.Err?)
      && (before.Ok? && after.Err? ==> peers == [q])
      && (before.Ok? && after.Ok? ==> Undisturbed(before.value, after.value, q))
  {
    hide Preference, Sort, Items, Undisturbed, Without;
    if q !in peers {
      WithoutAbsent(peers, q);
      assert domains - {q} == domains by { assert q !in Elems(peers); }
      var before := Assignment(score, m, peers, domains, replicas);
      if before.Ok? {
        Unchanged(before.value, q);
      }
    } else {
      var i :| 0 <= i < |peers| && peers[i] == q;
      WithoutAt(peers, i);
      if Assignment(score, m, peers, domains, replicas).Ok? {
        var s := Ranking(score, m, peers, domains);
        var k := RankingWithout(score, m, peers, domains, q);
        RankingFacts(score, m, peers, domains);
        PreferenceDistinct(s);
        var at := PreferenceStable(s, k);
        PreferenceElems(Drop(s, k), {});
        StablePrefix(Preference(s), Preference(Drop(s, k)), at, replicas);
      }
    }
  }

  /** The same for a peer that joins: nobody but the newcomer is brought in, at most one assigned peer makes room for it,
      and if it is not assigned the returned list is the same. */
  lemma JoinDisruption(score: Score, m: Mid, peers: seq<string>, domains: map<string, string>, replicas: int, q: string, domain: string)
    requires ValidRing(peers, domains) && q != "" && q !in peers
    ensures
      var before := Assignment(score, m, peers, domains, replicas);
      var after := Assignment(score, m, peers + [q], domains[q := domain], replicas);
      && (before.Ok? ==> after.Ok?)
      && (before.Ok? ==> Undisturbed(after.value, before.value, q))
  {
    hide Assignment, Undisturbed;
    var peers', domains' := peers + [q], domains[q := domain];
    assert q !in domains by { assert q !in Elems(peers); }
    assert Elems(peers') == Elems(peers) + {q} && domains'.Keys == domains.Keys + {q};
    assert domains' - {q} == domains;
    assert peers' == peers + [q] && peers'[..|peers|] + peers'[|peers| + 1..] == peers;
    WithoutAt(peers', |peers|);
    MinimumDisruption(score, m, peers', domains', replicas, q);
  }

  lemma Unchanged(a: seq<string>, q: string)
    ensures Undisturbed(a, a, q)
  {
    assert Elems(a) - Elems(a) == {};
  }

  // ----------------------------------------------------------- migration

  /** The MIDs that `p` owns in ring `next` but not in ring `prev`, in input order. */
  ghost function Newly(prev: HashRing?, next: HashRing?, p: string, mids: seq<Mid>, replicas: int): seq<Mid>
    reads prev, next
  {
    if mids == [] then []
    else
      var n := |mids| - 1;
      var m := mids[n];
      Newly(prev, next, p, mids[..n], replicas)
        + (if !OwnsIn(prev, m, replicas, p) && OwnsIn(next, m, replicas, p) then [m] else [])
  }

  /** ComputeMigration over any two rings reports exactly the MIDs whose ownership by `local` changes. */
  method ComputeMigration(prev: HashRing?, next: HashRing?, local: string, mids: seq<Mid>, replicas: int)
      returns (gained: seq<Mid>, lost: seq<Mid>)
    ensures local == "" || next == null ==> gained == [] && lost == []
    ensures local != "" && next != null ==>
      gained == Newly(prev, next, local, mids, replicas) && lost == Newly(next, prev, local, mids, replicas)
  {
    hide Owns, Newly;
    gained, lost := [], [];
    if local == "" || next == null {
      return;
    }
    NewlyNothing(prev, next, local, mids, replicas);
    NewlyNothing(next, prev, local, mids, replicas);
    var i := 0;
    while i < |mids|
      invariant 0 <= i <= |mids|
      invariant gained == Newly(prev, next, local, mids[..i], replicas)
      invariant lost == Newly(next, prev, local, mids[..i], replicas)
    {
      NewlyStep(prev, next, local, mids, replicas, i);
      NewlyStep(next, prev, local, mids, replicas, i);
      var wasOwner := false;
      if prev != null {
        wasOwner := prev.IsOwner(local, mids[i], replicas);
      }
      var isOwner := next.IsOwner(local, mids[i], replicas);
      if !wasOwner && isOwner {
        gained := gained + [mids[i]];
      } else if wasOwner && !isOwner {
        lost := lost + [mids[i]];
      }
      i := i + 1;
    }
    assert mids[..i] == mids;
  }

  lemma NewlyNothing(prev: HashRing?, next: HashRing?, p: string, mids: seq<Mid>, replicas: int)
    ensures Newly(prev, next, p, mids[..0], replicas) == []
  {
  }

  lemma NewlyStep(prev: HashRing?, next: HashRing?, p: string, mids: seq<Mid>, replicas: int, i: nat)
    requires i < |mids|
    ensures Newly(prev, next, p, mids[..i + 1], replicas)
         == Newly(prev, next, p, mids[..i], replicas)
          + (if !OwnsIn(prev, mids[i], replicas, p) && OwnsIn(next, mids[i], replicas, p) then [mids[i]] else [])
  {
    hide OwnsIn;
    assert mids[..i + 1][..i] == mids[..i];
  }

  ghost predicate OwnsIn(ring: HashRing?, m: Mid, replicas: int, p: string)
    reads ring
  {
    ring != null && Owns(ring.score, m, ring.peers, ring.domains, replicas, p)
  }

  /** After another peer leaves, a peer loses nothing and gains only MIDs the departed peer owned. */
  lemma RemovalMigration(score: Score, m: Mid, peers: seq<string>, domains: map<string, string>, replicas: int, q: string, p: string)
    requires ValidRing(peers, domains) && p != q
    ensures Owns(score, m, peers, domains, replicas, p) ==> Owns(score, m, Without(peers, q), domains - {q}, replicas, p)
    ensures Owns(score, m, Without(peers, q), domains - {q}, replicas, p) ==>
      Owns(score, m, peers, domains, replicas, p) || Owns(score, m, peers, domains, replicas, q)
  {
    hide Assignment;
    MinimumDisruption(score, m, peers, domains, replicas, q);
    var before := Assignment(score, m, peers, domains, replicas);
    if before.Ok? {
      AssignIsSelection(score, m, peers, domains, replicas);
      forall x | x in before.value ensures x in peers {
        assert x in Elems(before.value);
      }
      if q in before.value {
        assert q != "";
      }
    }
  }
}
