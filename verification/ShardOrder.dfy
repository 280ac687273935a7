/** core/shard/hashring.go: who is chosen, and in which order, in terms of the scores themselves. */
module ShardOrder {
  import opened Common
  import opened Shard
  import opened ShardStability

  // ------------------------------------------------- the preference order

  /** Both passes keep the order of the ranking. */
  lemma {:induction false} PassesRanked(s: seq<Scored>, used: set<string>)
    requires Ranked(s)
    ensures Ranked(Firsts(s, used)) && Ranked(Rests(s, used))
    ensures forall x :: x in Firsts(s, used) || x in Rests(s, used) ==> x in s
    ensures forall y :: y in Rests(s, used) ==> y.domain != ""
  {
    hide Before;
    if s != [] {
      var u := if Blocked(s[0], used) then used else Use(s[0], used);
      PassesRanked(s[1..], u);
      assert s == [s[0]] + s[1..];
      HeadRanked(s[0], s[1..], Firsts(s[1..], u));
      HeadRanked(s[0], s[1..], Rests(s[1..], u));
    }
  }

  lemma HeadRanked(x: Scored, t: seq<Scored>, part: seq<Scored>)
    requires Ranked([x] + t) && Ranked(part) && forall y :: y in part ==> y in t
    ensures Ranked([x] + part)
  {
    hide Before;
    forall y | y in t ensures Before(x, y) {
      var k :| 0 <= k < |t| && t[k] == y;
      assert Before(([x] + t)[0], ([x] + t)[k + 1]);
    }
  }

  /** What the first pass takes from a domain outranks what it defers from it. */
  lemma {:induction false} FirstBeatsRest(s: seq<Scored>, used: set<string>, x: Scored, y: Scored)
    requires Ranked(s) && x in Firsts(s, used) && y in Rests(s, used) && x.domain == y.domain
    ensures Before(x, y)
  {
    hide Before;
    var blocked := Blocked(s[0], used);
    var u := if blocked then used else Use(s[0], used);
    PassesRanked(s, used);
    PassesRanked(s[1..], u);
    if blocked && y == s[0] {
      FirstsSpread(s, used);
    } else if blocked || x != s[0] {
      FirstBeatsRest(s[1..], u, x, y);
    }
  }

  /** The preference order is the ranking, except that peers in a domain seen before go behind all others. */
  lemma PreferenceOrder(s: seq<Scored>, i: nat, j: nat)
    requires Ranked(s) && i < j < |Preference(s)|
    requires
      var o := Preference(s);
      || o[j].domain == "" || o[j].domain == o[i].domain || !Represented(o[..j], o[j].domain)
      || (o[i].domain != "" && Represented(o[..i], o[i].domain))
    ensures Before(Preference(s)[i], Preference(s)[j])
  {
    hide Before, Firsts, Rests;
    var o, f, r := Preference(s), Firsts(s, {}), Rests(s, {});
    PassesRanked(s, {});
    PassBounds(s, i);
    PassBounds(s, j);
    if i < |f| && j >= |f| {
      if o[j].domain == o[i].domain {
        assert o[i] in f && o[j] in r;
        FirstBeatsRest(s, {}, o[i], o[j]);
      }
    } else if i < |f| {
      assert o[i] == f[i] && o[j] == f[j];
    } else {
      assert o[i] == r[i - |f|] && o[j] == r[j - |f|];
    }
  }

  /** The second pass begins exactly where named domains begin to repeat. */
  lemma PassBounds(s: seq<Scored>, i: nat)
    requires Ranked(s) && i < |Preference(s)|
    ensures i >= |Firsts(s, {})| <==> Preference(s)[i].domain != "" && Represented(Preference(s)[..i], Preference(s)[i].domain)
  {
    hide Before, Firsts, Rests;
    var o, f, r := Preference(s), Firsts(s, {}), Rests(s, {});
    PassesRanked(s, {});
    FirstsSpread(s, {});
    if i < |f| {
      assert forall k :: 0 <= k < i ==> o[..i][k] == f[k];
    } else {
      assert o[i] in r;
      FirstsCover(s, {}, o[i]);
      RepresentedMore(f, o, i, o[i].domain);
    }
  }

  lemma RepresentedMore(f: seq<Scored>, o: seq<Scored>, n: nat, domain: string)
    requires f <= o && |f| <= n <= |o| && Represented(f, domain)
    ensures Represented(o[..n], domain)
  {
    var k :| 0 <= k < |f| && f[k].domain == domain;
    assert o[..n][k].domain == domain;
  }

  /** What a prefix of the preference order takes outranks what it leaves: of the same domain, of none, or of a domain that
      gets nothing. */
  lemma TakenOutranksLeft(s: seq<Scored>, n: nat, i: nat, y: Scored)
    requires Ranked(s) && DistinctPeers(s) && i < n <= |Preference(s)| && y in s && y !in Preference(s)[..n]
    requires
      var o := Preference(s);
      y.domain == "" || y.domain == o[i].domain || !Represented(o[..n], y.domain)
    ensures Before(Preference(s)[i], y)
  {
    hide Before, Preference;
    PreferenceDistinct(s);
    var o := Preference(s);
    var j :| 0 <= j < |o| && o[j] == y;
    InPrefix(o, n, j);
    var first := FirstOf(o, j);
    if y.domain != "" && y.domain != o[i].domain {
      InPrefix(o, n, first);
      PreferenceOrder(s, i, first);
      if first < j {
        PreferenceOrder(s, first, j);
        BeforeTrans(o[i], o[first], o[j]);
      }
    } else {
      PreferenceOrder(s, i, j);
    }
  }

  lemma InPrefix(o: seq<Scored>, n: nat, j: nat)
    requires n <= |o| && j < |o|
    ensures j < n ==> o[j] in o[..n] && Represented(o[..n], o[j].domain)
  {
    if j < n {
      assert o[..n][j] == o[j];
    }
  }

  /** The first entry of the same domain. */
  lemma FirstOf(o: seq<Scored>, j: nat) returns (first: nat)
    requires j < |o|
    ensures first <= j && o[first].domain == o[j].domain && !Represented(o[..first], o[first].domain)
  {
    first := 0;
    while o[first].domain != o[j].domain
      invariant first <= j && !Represented(o[..first], o[j].domain)
      decreases j - first
    {
      assert forall k :: 0 <= k < first ==> o[..first + 1][k] == o[..first][k];
      first := first + 1;
    }
  }

  // ------------------------------------------------------ the assignment

  ghost predicate Better(score: Score, m: Mid, p: string, q: string) { Outranks(score(p, m), p, score(q, m), q) }

  /** An assigned peer in a named domain that an earlier one lies in. */
  ghost predicate Repeats(a: seq<string>, domains: map<string, string>, i: nat)
    requires i < |a|
  {
    a[i] in domains && domains[a[i]] != "" && Hosted(a[..i], domains, domains[a[i]])
  }

  lemma HostedIs(score: Score, m: Mid, domains: map<string, string>, a: seq<string>, o: seq<Scored>, n: nat, domain: string)
    requires n <= |a| && n <= |o| && forall k :: 0 <= k < n ==> o[k] == Item(score, m, domains, a[k]) && a[k] in domains
    ensures Hosted(a[..n], domains, domain) <==> Represented(o[..n], domain)
  {
    if Hosted(a[..n], domains, domain) {
      var k :| 0 <= k < n && domains[a[..n][k]] == domain;
      assert o[..n][k].domain == domain;
    }
    if Represented(o[..n], domain) {
      var k :| 0 <= k < n && o[..n][k].domain == domain;
      assert a[..n][k] in a[..n] && domains[a[..n][k]] == domain;
    }
  }

  lemma AssignedTagged(score: Score, m: Mid, peers: seq<string>, domains: map<string, string>, replicas: int)
    requires ValidRing(peers, domains) && Assignment(score, m, peers, domains, replicas).Ok?
    ensures forall p :: p in Assignment(score, m, peers, domains, replicas).value ==> p in domains
  {
    hide Assignment;
    AssignIsSelection(score, m, peers, domains, replicas);
    forall p | p in Assignment(score, m, peers, domains, replicas).value ensures p in domains {
      assert p in Elems(Assignment(score, m, peers, domains, replicas).value);
    }
  }

  lemma BeforeIsBetter(score: Score, m: Mid, domains: map<string, string>, p: string, q: string)
    requires Before(Item(score, m, domains, p), Item(score, m, domains, q))
    ensures Better(score, m, p, q)
  {
    LessIff(p, q);
  }

  /** The assigned peers come in falling order of score, equal scores in order of ID; only a peer that repeats the domain of an
      earlier one may come after a worse one. */
  lemma AssignmentOrder(score: Score, m: Mid, peers: seq<string>, domains: map<string, string>, replicas: int, i: nat, j: nat)
    requires ValidRing(peers, domains) && Assignment(score, m, peers, domains, replicas).Ok?
    requires
      var a := Assignment(score, m, peers, domains, replicas).value;
      && i < j < |a|
      && (|| !Repeats(a, domains, j) || Repeats(a, domains, i)
          || (a[i] in domains && a[j] in domains && domains[a[i]] == domains[a[j]]))
    ensures
      var a := Assignment(score, m, peers, domains, replicas).value;
      Better(score, m, a[i], a[j])
  {
    hide Preference, Ranking, Assignment, Hosted, Represented, Before, Better;
    var a, s := Assignment(score, m, peers, domains, replicas).value, Ranking(score, m, peers, domains);
    AssignedPrefix(score, m, peers, domains, replicas);
    RankingFacts(score, m, peers, domains);
    var o := Preference(s);
    AssignedTagged(score, m, peers, domains, replicas);
    HostedIs(score, m, domains, a, o, i, o[i].domain);
    HostedIs(score, m, domains, a, o, j, o[j].domain);
    PreferenceOrder(s, i, j);
    BeforeIsBetter(score, m, domains, a[i], a[j]);
  }

  /** An assigned peer outranks every peer that is not, unless that one lies in another domain which has its share: peers
      of its own domain, peers of none, and peers of domains left out. */
  lemma AssignedOutranks(score: Score, m: Mid, peers: seq<string>, domains: map<string, string>, replicas: int, p: string, q: string)
    requires ValidRing(peers, domains) && Assignment(score, m, peers, domains, replicas).Ok?
    requires
      var a := Assignment(score, m, peers, domains, replicas).value;
      && p in a && q in peers && q !in a && p in domains && q in domains
      && (domains[q] == "" || domains[q] == domains[p] || !Hosted(a, domains, domains[q]))
    ensures Better(score, m, p, q)
  {
    hide Preference, Ranking, Assignment, Hosted, Represented, Before, Better;
    var a, s := Assignment(score, m, peers, domains, replicas).value, Ranking(score, m, peers, domains);
    AssignedPrefix(score, m, peers, domains, replicas);
    RankingFacts(score, m, peers, domains);
    var o, n, y := Preference(s), |a|, Item(score, m, domains, q);
    var i :| 0 <= i < n && a[i] == p;
    AssignedTagged(score, m, peers, domains, replicas);
    HostedIs(score, m, domains, a, o, n, y.domain);
    assert a[..n] == a;
    assert forall k :: 0 <= k < n ==> o[..n][k].peer == a[k];
    TakenOutranksLeft(s, n, i, y);
    BeforeIsBetter(score, m, domains, p, q);
  }

  /** The first assigned peer has the highest score of all, and among equals the smallest ID. */
  lemma BestPeerFirst(score: Score, m: Mid, peers: seq<string>, domains: map<string, string>, replicas: int, q: string)
    requires ValidRing(peers, domains) && Assignment(score, m, peers, domains, replicas).Ok? && q in peers
    ensures
      var a := Assignment(score, m, peers, domains, replicas).value;
      a != [] && score(a[0], m) >= score(q, m) && (q != a[0] && score(q, m) == score(a[0], m) ==> Precedes(a[0], q))
  {
    hide Precedes, Before;
    var s, y := Ranking(score, m, peers, domains), Item(score, m, domains, q);
    AssignedPrefix(score, m, peers, domains, replicas);
    AssignIsSelection(score, m, peers, domains, replicas);
    RankingFacts(score, m, peers, domains);
    assert Preference(s)[0] == s[0];
    HeadIsLeast(s, y);
    if y != s[0] {
      BeforeIsBetter(score, m, domains, s[0].peer, q);
    }
  }

  /** Without named domains the list is simply the best peers in falling order. */
  lemma UndomainedOrder(score: Score, m: Mid, peers: seq<string>, domains: map<string, string>, replicas: int)
    requires ValidRing(peers, domains) && Assignment(score, m, peers, domains, replicas).Ok?
    requires forall p :: p in domains ==> domains[p] == ""
    ensures
      var a := Assignment(score, m, peers, domains, replicas).value;
      && (forall i, j :: 0 <= i < j < |a| ==> score(a[i], m) >= score(a[j], m))
      && (forall p, q :: p in a && q in peers && q !in a ==> score(p, m) >= score(q, m))
  {
    hide Assignment, Hosted, Precedes;
    var a := Assignment(score, m, peers, domains, replicas).value;
    AssignIsSelection(score, m, peers, domains, replicas);
    AssignedTagged(score, m, peers, domains, replicas);
    forall i, j | 0 <= i < j < |a| ensures score(a[i], m) >= score(a[j], m) {
      assert a[j] in Elems(a) && a[j] in peers;
      AssignmentOrder(score, m, peers, domains, replicas, i, j);
    }
    forall p, q | p in a && q in peers && q !in a ensures score(p, m) >= score(q, m) {
      assert q in Elems(peers);
      AssignedOutranks(score, m, peers, domains, replicas, p, q);
    }
  }
}
