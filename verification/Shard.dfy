/** core/shard/hashring.go: rendezvous hashing with failure domains. */
module Shard {
  import opened Common

  const MIN_REPLICAS := 1
  const MAX_REPLICAS := 64

  datatype AssignError = ZeroMid | BelowMinimum | AboveMaximum | NoPeers

  /** The 64-bit HRW score is SHA-256 based; it enters as a parameter. */
  type Score = (string, Mid) -> nat

  datatype Scored = Scored(peer: string, domain: string, score: nat)

  // ---------------------------------------------------------- ranking

  /** Byte-wise string order. */
  predicate Less(a: string, b: string) {
    if b == [] then false
    else if a == [] then true
    else a[0] < b[0] || (a[0] == b[0] && Less(a[1..], b[1..]))
  }

  lemma {:induction false} LessTrans(a: string, b: string, c: string)
    requires Less(a, b) && Less(b, c)
    ensures Less(a, c)
  {
    if a != [] && a[0] == b[0] && b[0] == c[0] {
      LessTrans(a[1..], b[1..], c[1..]);
    }
  }

  lemma {:induction false} LessTotal(a: string, b: string)
    ensures Less(a, b) || Less(b, a) || a == b
    ensures !(Less(a, b) && Less(b, a)) && !Less(a, a)
  {
    if a != [] && b != [] {
      LessTotal(a[1..], b[1..]);
      if a[0] == b[0] && a[1..] == b[1..] {
        assert a == [a[0]] + a[1..] && b == [b[0]] + b[1..];
      }
      if a != b && a[0] == b[0] {
        assert a[1..] != b[1..];
      }
    }
    if a != [] {
      LessTotal(a[1..], a[1..]);
    }
  }

  /** The same order, said directly: at the first difference the byte is smaller or the string is over. */
  ghost predicate Precedes(a: string, b: string) {
    exists k :: 0 <= k < |b| && k <= |a| && a[..k] == b[..k] && (k == |a| || a[k] < b[k])
  }

  lemma {:induction false} LessIff(a: string, b: string)
    ensures Less(a, b) <==> Precedes(a, b)
  {
    if a != [] && b != [] && a[0] == b[0] {
      LessIff(a[1..], b[1..]);
      if Precedes(a[1..], b[1..]) {
        var k :| 0 <= k < |b[1..]| && k <= |a[1..]| && a[1..][..k] == b[1..][..k] && (k == |a[1..]| || a[1..][k] < b[1..][k]);
        assert a[..k + 1] == [a[0]] + a[1..][..k] && b[..k + 1] == [b[0]] + b[1..][..k];
        assert a[..k + 1] == b[..k + 1];
      }
      if Precedes(a, b) {
        var k :| 0 <= k < |b| && k <= |a| && a[..k] == b[..k] && (k == |a| || a[k] < b[k]);
        assert a[1..][..k - 1] == a[..k][1..] == b[..k][1..] == b[1..][..k - 1];
      }
    } else if b != [] {
      assert a[..0] == b[..0];
      forall k | 0 <= k < |b| && k <= |a| && a[..k] == b[..k] ensures k == 0 {
        HeadsAgree(a, b, k);
      }
    }
  }

  lemma HeadsAgree(a: string, b: string, k: nat)
    requires k <= |a| && k <= |b| && a[..k] == b[..k]
    ensures k > 0 ==> a[0] == b[0]
  {
    assert k > 0 ==> a[..k][0] == a[0] && b[..k][0] == b[0];
  }

  /** Higher score first, ties by peer ID. */
  predicate Before(a: Scored, b: Scored) {
    a.score > b.score || (a.score == b.score && Less(a.peer, b.peer))
  }

  lemma BeforeTrans(a: Scored, b: Scored, c: Scored)
    requires Before(a, b) && Before(b, c)
    ensures Before(a, c)
  {
    if a.score == b.score && b.score == c.score {
      LessTrans(a.peer, b.peer, c.peer);
    }
  }

  lemma BeforeTotal(a: Scored, b: Scored)
    ensures Before(a, b) || Before(b, a) || a.peer == b.peer
    ensures !(Before(a, b) && Before(b, a)) && !Before(a, a)
  {
    LessTotal(a.peer, b.peer);
    LessTotal(a.peer, a.peer);
  }

  ghost predicate Ranked(s: seq<Scored>) {
    forall i, j :: 0 <= i < j < |s| ==> Before(s[i], s[j])
  }

  ghost predicate DistinctPeers(s: seq<Scored>) {
    forall i, j :: 0 <= i < j < |s| ==> s[i].peer != s[j].peer
  }

  function Insert(x: Scored, s: seq<Scored>): (r: seq<Scored>)
    ensures |r| == |s| + 1
  {
    if s == [] || Before(x, s[0]) then [x] + s else [s[0]] + Insert(x, s[1..])
  }

  /** `sort.Slice` with the ranking comparison. */
  function Sort(s: seq<Scored>): (r: seq<Scored>)
    ensures |r| == |s|
  {
    if s == [] then [] else Insert(s[0], Sort(s[1..]))
  }

  lemma {:induction false} InsertElems(x: Scored, s: seq<Scored>)
    ensures Elems(Insert(x, s)) == {x} + Elems(s)
  {
    if s != [] && !Before(x, s[0]) {
      InsertElems(x, s[1..]);
      assert Elems(s) == {s[0]} + Elems(s[1..]);
      assert Elems([s[0]] + Insert(x, s[1..])) == {s[0]} + Elems(Insert(x, s[1..]));
    } else {
      assert Elems([x] + s) == {x} + Elems(s);
    }
  }

  lemma {:induction false} InsertRanked(x: Scored, s: seq<Scored>)
    requires Ranked(s) && forall y :: y in s ==> y.peer != x.peer
    ensures Ranked(Insert(x, s))
  {
    if s == [] {
    } else if Before(x, s[0]) {
      forall j | 0 <= j < |s| ensures Before(x, s[j]) {
        if j > 0 { BeforeTrans(x, s[0], s[j]); }
      }
    } else {
      BeforeTotal(x, s[0]);
      InsertRanked(x, s[1..]);
      InsertElems(x, s[1..]);
      var r := Insert(x, s[1..]);
      forall j | 0 <= j < |r| ensures Before(s[0], r[j]) {
        assert r[j] in Elems(r);
        if r[j] != x {
          assert r[j] in s[1..];
        }
      }
    }
  }

  lemma {:induction false} SortRanks(s: seq<Scored>)
    requires DistinctPeers(s)
    ensures Ranked(Sort(s)) && Elems(Sort(s)) == Elems(s)
    ensures forall i, j :: 0 <= i < j < |s| ==> Outranks(Sort(s)[i].score, Sort(s)[i].peer, Sort(s)[j].score, Sort(s)[j].peer)
  {
    if s != [] {
      SortRanks(s[1..]);
      InsertElems(s[0], Sort(s[1..]));
      assert Elems(s) == {s[0]} + Elems(s[1..]);
      forall y | y in Sort(s[1..]) ensures y.peer != s[0].peer {
        assert y in Elems(s[1..]);
      }
      InsertRanked(s[0], Sort(s[1..]));
    }
    RankedOutranks(Sort(s));
  }

  /** The ranking the source promises: the higher score, and between equal scores the smaller ID. */
  ghost predicate Outranks(s: nat, p: string, t: nat, q: string) { s > t || (s == t && Precedes(p, q)) }

  lemma RankedOutranks(s: seq<Scored>)
    requires Ranked(s)
    ensures forall i, j :: 0 <= i < j < |s| ==> Outranks(s[i].score, s[i].peer, s[j].score, s[j].peer)
  {
    forall i, j | 0 <= i < j < |s| ensures Outranks(s[i].score, s[i].peer, s[j].score, s[j].peer) {
      assert Before(s[i], s[j]);
      LessIff(s[i].peer, s[j].peer);
    }
  }

  /** A ranked list is determined by its elements, so the order in which peers were added cannot matter. */
  lemma {:induction false} RankedUnique(a: seq<Scored>, b: seq<Scored>)
    requires Ranked(a) && Ranked(b) && Elems(a) == Elems(b)
    ensures a == b
  {
    EmptyElems(a);
    EmptyElems(b);
    if a != [] && b != [] {
      assert a[0] in Elems(b) && b[0] in Elems(a);
      HeadIsLeast(a, b[0]);
      HeadIsLeast(b, a[0]);
      BeforeTotal(a[0], b[0]);
      TailElems(a);
      TailElems(b);
      RankedUnique(a[1..], b[1..]);
    }
  }

  lemma EmptyElems(a: seq<Scored>)
    ensures Elems(a) == {} <==> a == []
  {
    if a != [] {
      assert a[0] in Elems(a);
    }
  }

  lemma HeadIsLeast(a: seq<Scored>, x: Scored)
    requires Ranked(a) && x in a
    ensures x == a[0] || Before(a[0], x)
  {
  }

  lemma TailElems(a: seq<Scored>)
    requires Ranked(a) && a != []
    ensures Elems(a[1..]) == Elems(a) - {a[0]}
  {
    BeforeTotal(a[0], a[0]);
    assert Elems(a) == {a[0]} + Elems(a[1..]);
    assert a[0] !in a[1..];
  }

  // ---------------------------------------------- domain-aware selection

  predicate Blocked(x: Scored, used: set<string>) { x.domain != "" && x.domain in used }

  function Use(x: Scored, used: set<string>): set<string> {
    if x.domain == "" then used else used + {x.domain}
  }

  /** The peers the first pass takes when nothing stops it: undomained ones and the best of each named domain. */
  function Firsts(s: seq<Scored>, used: set<string>): seq<Scored> {
    if s == [] then []
    else if Blocked(s[0], used) then Firsts(s[1..], used)
    else [s[0]] + Firsts(s[1..], Use(s[0], used))
  }

  /** The peers the first pass defers. */
  function Rests(s: seq<Scored>, used: set<string>): seq<Scored> {
    if s == [] then []
    else if Blocked(s[0], used) then [s[0]] + Rests(s[1..], used)
    else Rests(s[1..], Use(s[0], used))
  }

  function Preference(s: seq<Scored>): seq<Scored> { Firsts(s, {}) + Rests(s, {}) }

  function PeersOf(s: seq<Scored>): (r: seq<string>)
    ensures |r| == |s|
  {
    seq(|s|, i requires 0 <= i < |s| => s[i].peer)
  }

  lemma {:induction false} PreferenceElems(s: seq<Scored>, used: set<string>)
    ensures |Firsts(s, used)| + |Rests(s, used)| == |s|
    ensures Elems(Firsts(s, used)) + Elems(Rests(s, used)) == Elems(s)
  {
    if s != [] {
      var u := if Blocked(s[0], used) then used else Use(s[0], used);
      PreferenceElems(s[1..], u);
      var f, r := Firsts(s[1..], u), Rests(s[1..], u);
      assert Elems(s) == {s[0]} + Elems(s[1..]);
      assert Elems([s[0]] + f) == {s[0]} + Elems(f) && Elems([s[0]] + r) == {s[0]} + Elems(r);
    }
  }

  lemma PeersOfSnoc(s: seq<Scored>, x: Scored)
    ensures PeersOf(s + [x]) == PeersOf(s) + [x.peer]
  {
  }

  lemma FirstPassStart(s: seq<Scored>)
    ensures FirstPass(s, 0, {}, [], [])
    ensures PeersOf([]) == []
  {
    assert s[0..] == s;
  }

  /** First pass before item `i`: what it took and deferred, plus what it would still take and defer. */
  ghost predicate FirstPass(s: seq<Scored>, i: nat, used: set<string>, taken: seq<Scored>, deferred: seq<Scored>) {
    && i <= |s|
    && Firsts(s, {}) == taken + Firsts(s[i..], used)
    && Rests(s, {}) == deferred + Rests(s[i..], used)
  }

  lemma FirstPassStep(s: seq<Scored>, i: nat, used: set<string>, taken: seq<Scored>, deferred: seq<Scored>)
    requires FirstPass(s, i, used, taken, deferred) && i < |s|
    ensures Blocked(s[i], used) ==> FirstPass(s, i + 1, used, taken, deferred + [s[i]])
    ensures !Blocked(s[i], used) ==> FirstPass(s, i + 1, Use(s[i], used), taken + [s[i]], deferred)
  {
    assert s[i..][0] == s[i] && s[i..][1..] == s[i + 1..];
    if Blocked(s[i], used) {
      assert deferred + ([s[i]] + Rests(s[i + 1..], used)) == deferred + [s[i]] + Rests(s[i + 1..], used);
    } else {
      var u := Use(s[i], used);
      assert taken + ([s[i]] + Firsts(s[i + 1..], u)) == taken + [s[i]] + Firsts(s[i + 1..], u);
    }
  }

  lemma FirstPassEnd(s: seq<Scored>, i: nat, used: set<string>, taken: seq<Scored>, deferred: seq<Scored>)
    requires FirstPass(s, i, used, taken, deferred)
    ensures taken <= Preference(s)
    ensures i == |s| ==> SecondPass(s, 0, taken, deferred)
  {
    if i == |s| {
      assert s[i..] == [];
      assert deferred[0..] == deferred;
    }
  }

  /** Second pass before deferred item `i`. */
  ghost predicate SecondPass(s: seq<Scored>, i: nat, taken: seq<Scored>, deferred: seq<Scored>) {
    i <= |deferred| && taken + deferred[i..] == Preference(s)
  }

  lemma SecondPassStep(s: seq<Scored>, i: nat, taken: seq<Scored>, deferred: seq<Scored>)
    requires SecondPass(s, i, taken, deferred)
    ensures taken <= Preference(s)
    ensures i == |deferred| ==> |taken| == |s|
    ensures i < |deferred| ==> SecondPass(s, i + 1, taken + [deferred[i]], deferred)
  {
    PreferenceElems(s, {});
    if i < |deferred| {
      assert deferred[i..] == [deferred[i]] + deferred[i + 1..];
      assert taken + ([deferred[i]] + deferred[i + 1..]) == taken + [deferred[i]] + deferred[i + 1..];
    }
  }

  /** The two passes of Assign over a ranked list: together they take a prefix of the preference order. */
  method Select(s: seq<Scored>, replicas: nat) returns (selected: seq<string>)
    requires replicas <= |s|
    ensures replicas <= |Preference(s)| && selected == PeersOf(Preference(s)[..replicas])
  {
    hide PeersOf, Preference, FirstPass, SecondPass;
    ghost var taken: seq<Scored> := [];
    var used: set<string> := {};
    var deferred: seq<Scored> := [];
    selected := [];
    var i := 0;
    FirstPassStart(s);
    while i < |s| && |selected| < replicas
      invariant 0 <= i <= |s| && |selected| <= replicas
      invariant selected == PeersOf(taken)
      invariant FirstPass(s, i, used, taken, deferred)
    {
      FirstPassStep(s, i, used, taken, deferred);
      if s[i].domain != "" && s[i].domain in used {
        deferred := deferred + [s[i]];
      } else {
        PeersOfSnoc(taken, s[i]);
        selected, taken := selected + [s[i].peer], taken + [s[i]];
        if s[i].domain != "" {
          used := used + {s[i].domain};
        }
      }
      i := i + 1;
    }
    FirstPassEnd(s, i, used, taken, deferred);
    i := 0;
    while i < |deferred| && |selected| < replicas
      invariant 0 <= i <= |deferred| && |selected| <= replicas
      invariant selected == PeersOf(taken) && taken <= Preference(s)
      invariant |selected| < replicas ==> SecondPass(s, i, taken, deferred)
    {
      SecondPassStep(s, i, taken, deferred);
      PeersOfSnoc(taken, deferred[i]);
      selected, taken := selected + [deferred[i].peer], taken + [deferred[i]];
      i := i + 1;
      SecondPassStep(s, i, taken, deferred);
    }
    if |selected| < replicas {
      SecondPassStep(s, i, taken, deferred);
    }
    assert |taken| == replicas;
    assert taken == Preference(s)[..replicas];
  }

  // ------------------------------------------------------------ the ring

  function DomainOf(domains: map<string, string>, p: string): string {
    if p in domains then domains[p] else ""
  }

  function Items(score: Score, m: Mid, peers: seq<string>, domains: map<string, string>): (r: seq<Scored>)
    ensures |r| == |peers|
  {
    seq(|peers|, i requires 0 <= i < |peers| => Scored(peers[i], DomainOf(domains, peers[i]), score(peers[i], m)))
  }

  function Ranking(score: Score, m: Mid, peers: seq<string>, domains: map<string, string>): (r: seq<Scored>)
    ensures |r| == |peers|
  {
    Sort(Items(score, m, peers, domains))
  }

  ghost predicate ValidRing(peers: seq<string>, domains: map<string, string>) {
    Distinct(peers) && Elems(peers) == domains.Keys && "" !in peers
  }

  /** Reference for Assign: a prefix of the preference order of the ranking. */
  function Assignment(score: Score, m: Mid, peers: seq<string>, domains: map<string, string>, replicas: int)
      : Result<seq<string>, AssignError>
  {
    if m.IsZero() then Err(ZeroMid)
    else if replicas < MIN_REPLICAS then Err(BelowMinimum)
    else if replicas > MAX_REPLICAS then Err(AboveMaximum)
    else if peers == [] then Err(NoPeers)
    else
      var s := Ranking(score, m, peers, domains);
      PreferenceElems(s, {});
      Ok(PeersOf(Preference(s)[..Min(replicas, |peers|)]))
  }

  predicate Owns(score: Score, m: Mid, peers: seq<string>, domains: map<string, string>, replicas: int, p: string) {
    p != "" && var a := Assignment(score, m, peers, domains, replicas); a.Ok? && p in a.value
  }

  class HashRing {
    const score: Score
    var peers: seq<string>
    var domains: map<string, string>

    ghost predicate Valid()
      reads this
    {
      ValidRing(peers, domains)
    }

    constructor (score: Score)
      ensures Valid() && this.score == score && peers == [] && domains == map[]
    {
      this.score := score;
      peers, domains := [], map[];
    }

    method AddPeerWithDomain(p: string, domain: string)
      requires Valid()
      modifies this
      ensures Valid()
      ensures p == "" ==> peers == old(peers) && domains == old(domains)
      ensures p != "" ==> domains == old(domains)[p := domain]
      ensures p != "" ==> peers == if p in old(peers) then old(peers) else old(peers) + [p]
    {
      if p == "" {
        return;
      }
      domains := domains[p := domain];
      var i := 0;
      while i < |peers|
        invariant 0 <= i <= |peers| && p !in peers[..i]
      {
        if peers[i] == p {
          assert Elems(peers) == domains.Keys;
          return;
        }
        i := i + 1;
      }
      assert peers[..i] == peers;
      peers := peers + [p];
      assert Elems(peers) == Elems(old(peers)) + {p};
      assert domains.Keys == old(domains).Keys + {p};
    }

    /** Drops the peer wherever it stands, keeping the order of the others. */
    method RemovePeer(p: string)
      requires Valid()
      modifies this
      ensures Valid()
      ensures domains == old(domains) - {p} && peers == Without(old(peers), p)
    {
      domains := domains - {p};
      assert domains.Keys == old(domains).Keys - {p};
      var i := 0;
      while i < |peers|
        invariant 0 <= i <= |peers| && p !in peers[..i]
      {
        if peers[i] == p {
          WithoutAt(peers, i);
          peers := peers[..i] + peers[i + 1..];
          WithoutElems(old(peers), p);
          return;
        }
        i := i + 1;
      }
      assert peers[..i] == peers;
      WithoutAbsent(peers, p);
      assert Elems(peers) == domains.Keys;
    }

    /** Assign, with its error cases, computes the reference assignment. */
    method Assign(m: Mid, replicas: int) returns (r: Result<seq<string>, AssignError>)
      ensures r == Assignment(score, m, peers, domains, replicas)
    {
      if m.IsZero() {
        return Err(ZeroMid);
      }
      if replicas < MIN_REPLICAS {
        return Err(BelowMinimum);
      }
      if replicas > MAX_REPLICAS {
        return Err(AboveMaximum);
      }
      if |peers| == 0 {
        return Err(NoPeers);
      }
      var scores := Sort(Items(score, m, peers, domains));
      var count := if replicas > |scores| then |scores| else replicas;
      var selected := Select(scores, count);
      return Ok(selected);
    }

    method IsOwner(p: string, m: Mid, replicas: int) returns (owner: bool)
      ensures owner == Owns(score, m, peers, domains, replicas, p)
    {
      if p == "" || m.IsZero() {
        return false;
      }
      var a := Assign(m, replicas);
      if a.Err? {
        return false;
      }
      return p in a.value;
    }
  }

  lemma {:induction false} WithoutAbsent(s: seq<string>, p: string)
    requires p !in s
    ensures Without(s, p) == s
  {
    if s != [] {
      WithoutAbsent(s[1..], p);
    }
  }

  lemma {:induction false} WithoutAt(s: seq<string>, i: nat)
    requires Distinct(s) && i < |s|
    ensures Without(s, s[i]) == s[..i] + s[i + 1..]
  {
    if i == 0 {
      WithoutAbsent(s[1..], s[0]);
    } else {
      WithoutAt(s[1..], i - 1);
      assert s[1..][..i - 1] == s[1..i] && s[1..][i..] == s[i + 1..];
      assert s[..i] == [s[0]] + s[1..i];
    }
  }

  // ------------------------------------------------- what Assign promises

  lemma RankingFacts(score: Score, m: Mid, peers: seq<string>, domains: map<string, string>)
    requires Distinct(peers)
    ensures Ranked(Ranking(score, m, peers, domains)) && DistinctPeers(Ranking(score, m, peers, domains))
    ensures Elems(Ranking(score, m, peers, domains)) == Elems(Items(score, m, peers, domains))
  {
    var items := Items(score, m, peers, domains);
    SortRanks(items);
    var s := Sort(items);
    forall i, j | 0 <= i < j < |s| ensures s[i].peer != s[j].peer {
      assert s[i] in Elems(s) && s[j] in Elems(s);
      BeforeTotal(s[i], s[j]);
      BeforeTotal(s[i], s[i]);
    }
  }

  /** The assignment depends on the peer set and the domain tags only, not on the order of insertion. */
  lemma AssignOrderIndependent(score: Score, m: Mid, a: seq<string>, b: seq<string>, domains: map<string, string>, replicas: int)
    requires Distinct(a) && Distinct(b) && Elems(a) == Elems(b)
    ensures Assignment(score, m, a, domains, replicas) == Assignment(score, m, b, domains, replicas)
  {
    hide Preference, Sort;
    RankingFacts(score, m, a, domains);
    RankingFacts(score, m, b, domains);
    var ia, ib := Items(score, m, a, domains), Items(score, m, b, domains);
    forall x | x in ia ensures x in ib {
      var i :| 0 <= i < |ia| && ia[i] == x;
      assert a[i] in Elems(b);
      var j :| 0 <= j < |b| && b[j] == a[i];
      assert ib[j] == x;
    }
    forall x | x in ib ensures x in ia {
      var i :| 0 <= i < |ib| && ib[i] == x;
      assert b[i] in Elems(a);
      var j :| 0 <= j < |a| && a[j] == b[i];
      assert ia[j] == x;
    }
    assert Elems(ia) == Elems(ib);
    RankedUnique(Ranking(score, m, a, domains), Ranking(score, m, b, domains));
  }
}
