/** anchor/quota.go: LRU eviction with operator pins. */
module Quota {
  import opened Common

  datatype Tier = AutoDiscovered | Operator

  datatype Item = Item(tier: Tier, size: nat)

  /** The store as the eviction loop sees it: which deletes succeed, and the answers of successive Size calls. */
  datatype Backend = Backend(deletable: set<Mid>, sizes: seq<Option<nat>>)

  datatype Outcome = Evicted(count: nat) | AllPinned | SizeFailed

  /** Everything in `s` that is not in `gone`, in order. */
  function Survivors(s: seq<Mid>, gone: set<Mid>): seq<Mid> {
    if s == [] then [] else if s[0] in gone then Survivors(s[1..], gone) else [s[0]] + Survivors(s[1..], gone)
  }

  lemma {:induction false} SurvivorsStep(s: seq<Mid>, gone: set<Mid>, m: Mid)
    ensures Without(Survivors(s, gone), m) == Survivors(s, gone + {m})
    ensures Survivors(s, {}) == s
  {
    if s != [] {
      SurvivorsStep(s[1..], gone, m);
      var r := Survivors(s[1..], gone);
      if s[0] !in gone {
        assert ([s[0]] + r)[1..] == r;
      }
    }
  }

  lemma {:induction false} SurvivorsFacts(s: seq<Mid>, gone: set<Mid>)
    requires Distinct(s)
    ensures Distinct(Survivors(s, gone)) && Elems(Survivors(s, gone)) == Elems(s) - gone
  {
    if s == [] {
      assert Elems(s) == {};
    } else {
      SurvivorsFacts(s[1..], gone);
      assert Elems(s) == {s[0]} + Elems(s[1..]);
      var r := Survivors(s[1..], gone);
      assert Elems([s[0]] + r) == {s[0]} + Elems(r);
      forall i | 0 <= i < |r| ensures r[i] != s[0] {
        assert r[i] in Elems(r);
      }
    }
  }

  // ------------------------------------------------------- eviction order

  predicate Eligible(items: map<Mid, Item>, store: Backend, m: Mid) {
    m in items && items[m].tier == AutoDiscovered && m in store.deletable
  }

  /** The unpinned items whose delete succeeds, least recently touched first. */
  function Candidates(items: map<Mid, Item>, store: Backend, lru: seq<Mid>): seq<Mid> {
    if lru == [] then []
    else
      var n := |lru| - 1;
      (if Eligible(items, store, lru[n]) then [lru[n]] else []) + Candidates(items, store, lru[..n])
  }

  function Answer(store: Backend, call: nat): Option<nat> {
    if call < |store.sizes| then store.sizes[call] else None
  }

  /** The running size estimate: `calls` counts the Size calls made, `broken` that one of them failed. */
  datatype Estimate = Estimate(size: nat, calls: nat, broken: bool) {
    function After(freed: nat, store: Backend): Estimate {
      if size > freed then this.(size := size - freed)
      else
        match Answer(store, calls)
        case Some(s) => Estimate(s, calls + 1, false)
        case None => Estimate(size, calls + 1, true)
    }
  }

  /** The estimate after these evictions. */
  function Running(items: map<Mid, Item>, victims: seq<Mid>, start: Estimate, store: Backend): Estimate
    requires forall i :: 0 <= i < |victims| ==> victims[i] in items
  {
    if victims == [] then start
    else
      var n := |victims| - 1;
      Running(items, victims[..n], start, store).After(items[victims[n]].size, store)
  }

  /** Evictions happen only while the estimate is over the limit and every Size call answered. */
  ghost predicate Needed(items: map<Mid, Item>, victims: seq<Mid>, start: Estimate, store: Backend, max: nat) {
    && (forall i :: 0 <= i < |victims| ==> victims[i] in items)
    && forall k :: 0 <= k < |victims| ==>
         var e := Running(items, victims[..k], start, store); e.size > max && !e.broken
  }

  /** A pass that has looked at the list down to position `i`. */
  ghost predicate Passed(items: map<Mid, Item>, lru: seq<Mid>, store: Backend, max: nat, start: Estimate,
                         victims: seq<Mid>, i: nat, e: Estimate) {
    && i <= |lru|
    && Candidates(items, store, lru) == victims + Candidates(items, store, lru[..i])
    && Needed(items, victims, start, store, max)
    && e == Running(items, victims, start, store)
  }

  lemma PassedStep(items: map<Mid, Item>, lru: seq<Mid>, store: Backend, max: nat, start: Estimate,
                   victims: seq<Mid>, i: nat, e: Estimate)
    requires Passed(items, lru, store, max, start, victims, i, e) && i > 0 && e.size > max && !e.broken
    ensures !Eligible(items, store, lru[i - 1]) ==> Passed(items, lru, store, max, start, victims, i - 1, e)
    ensures Eligible(items, store, lru[i - 1]) ==>
      Passed(items, lru, store, max, start, victims + [lru[i - 1]], i - 1, e.After(items[lru[i - 1]].size, store))
  {
    var m := lru[i - 1];
    assert lru[..i][..i - 1] == lru[..i - 1] && lru[..i][i - 1] == m;
    if Eligible(items, store, m) {
      var vs := victims + [m];
      assert victims + ([m] + Candidates(items, store, lru[..i - 1])) == vs + Candidates(items, store, lru[..i - 1]);
      assert vs[..|victims|] == victims;
      forall k | 0 <= k < |vs|
        ensures Running(items, vs[..k], start, store).size > max && !Running(items, vs[..k], start, store).broken
      {
        assert vs[..k] == victims[..k];
        assert k == |victims| ==> victims[..k] == victims;
      }
    } else {
      assert [] + Candidates(items, store, lru[..i - 1]) == Candidates(items, store, lru[..i - 1]);
    }
  }

  lemma PassedStart(items: map<Mid, Item>, lru: seq<Mid>, store: Backend, max: nat, start: Estimate)
    ensures Passed(items, lru, store, max, start, [], |lru|, start)
  {
    assert lru[..|lru|] == lru;
    assert [] + Candidates(items, store, lru) == Candidates(items, store, lru);
  }

  // -------------------------------------------- the pass in plain numbers

  function TotalOf(items: map<Mid, Item>, victims: seq<Mid>): nat
    requires forall i :: 0 <= i < |victims| ==> victims[i] in items
  {
    if victims == [] then 0 else TotalOf(items, victims[..|victims| - 1]) + items[victims[|victims| - 1]].size
  }

  /** The sizes the pass believes in and the Size calls made, before each eviction and at the end: an eviction takes its size
      off the estimate, unless it reaches it; then the next Size answer replaces the estimate, or ends the pass if there is
      none. */
  ghost predicate Ledger(items: map<Mid, Item>, victims: seq<Mid>, store: Backend, sizes: seq<nat>, calls: seq<nat>) {
    && |sizes| == |calls| == |victims| + 1 && calls[0] == 1
    && |store.sizes| > 0 && store.sizes[0] == Some(sizes[0])
    && forall k :: 0 <= k < |victims| ==>
         && victims[k] in items
         && (sizes[k] > items[victims[k]].size ==>
               sizes[k + 1] == sizes[k] - items[victims[k]].size && calls[k + 1] == calls[k])
         && (sizes[k] <= items[victims[k]].size ==>
               && calls[k + 1] == calls[k] + 1
               && if calls[k] < |store.sizes| && store.sizes[calls[k]].Some? then store.sizes[calls[k]] == Some(sizes[k + 1])
                  else k == |victims| - 1)
  }

  /** Every eviction was needed; and the pass went on until the limit was met, a Size call failed, or no candidate was left. */
  ghost predicate Sufficient(items: map<Mid, Item>, victims: seq<Mid>, store: Backend, max: nat, sizes: seq<nat>, calls: seq<nat>,
                             candidates: seq<Mid>) {
    && Ledger(items, victims, store, sizes, calls)
    && (forall k :: 0 <= k < |victims| ==> sizes[k] > max)
    && (|| sizes[|victims|] <= max || victims == candidates
        || calls[|victims|] > |store.sizes| || (calls[|victims|] > 0 && store.sizes[calls[|victims|] - 1] == None))
  }

  function Start(first: nat): Estimate { Estimate(first, 1, false) }

  lemma {:induction false} CallsGrow(items: map<Mid, Item>, victims: seq<Mid>, first: nat, store: Backend)
    requires forall i :: 0 <= i < |victims| ==> victims[i] in items
    requires |store.sizes| > 0 && store.sizes[0] == Some(first)
    ensures
      var e := Running(items, victims, Start(first), store);
      && e.calls >= 1
      && (e.broken ==> e.calls - 1 >= |store.sizes| || store.sizes[e.calls - 1] == None)
  {
    if victims != [] {
      CallsGrow(items, victims[..|victims| - 1], first, store);
    }
  }

  lemma RunningSnoc(items: map<Mid, Item>, victims: seq<Mid>, start: Estimate, store: Backend, k: nat)
    requires k < |victims| && forall i :: 0 <= i < |victims| ==> victims[i] in items
    ensures Running(items, victims[..k + 1], start, store) == Running(items, victims[..k], start, store).After(items[victims[k]].size, store)
  {
    assert victims[..k + 1][..k] == victims[..k];
  }

  lemma AfterIs(e: Estimate, freed: nat, store: Backend)
    ensures e.size > freed ==> e.After(freed, store) == Estimate(e.size - freed, e.calls, e.broken)
    ensures e.size <= freed && e.calls < |store.sizes| && store.sizes[e.calls].Some? ==>
      e.After(freed, store) == Estimate(store.sizes[e.calls].value, e.calls + 1, false)
    ensures e.size <= freed && !(e.calls < |store.sizes| && store.sizes[e.calls].Some?) ==>
      e.After(freed, store) == Estimate(e.size, e.calls + 1, true)
  {
  }

  /** A pass has a ledger. */
  lemma PassHasLedger(items: map<Mid, Item>, victims: seq<Mid>, first: nat, store: Backend, max: nat, candidates: seq<Mid>)
      returns (sizes: seq<nat>, calls: seq<nat>)
    requires Needed(items, victims, Start(first), store, max) && |store.sizes| > 0 && store.sizes[0] == Some(first)
    requires
      var e := Running(items, victims, Start(first), store);
      e.size <= max || e.broken || victims == candidates
    ensures Sufficient(items, victims, store, max, sizes, calls, candidates)
  {
    hide Running, Estimate.After;
    var n, start := |victims|, Start(first);
    sizes := seq(n + 1, k requires 0 <= k <= n => Running(items, victims[..k], start, store).size);
    calls := seq(n + 1, k requires 0 <= k <= n => Running(items, victims[..k], start, store).calls);
    RunningNothing(items, victims[..0], start, store);
    assert victims[..n] == victims;
    CallsGrow(items, victims, first, store);
    forall k | 0 <= k < n
      ensures
        var freed := items[victims[k]].size;
        && (sizes[k] > freed ==> sizes[k + 1] == sizes[k] - freed && calls[k + 1] == calls[k])
        && (sizes[k] <= freed ==>
              && calls[k + 1] == calls[k] + 1
              && if calls[k] < |store.sizes| && store.sizes[calls[k]].Some? then store.sizes[calls[k]] == Some(sizes[k + 1])
                 else k == n - 1)
    {
      var e := Running(items, victims[..k], start, store);
      RunningSnoc(items, victims, start, store, k);
      AfterIs(e, items[victims[k]].size, store);
      if k < n - 1 {
        assert !Running(items, victims[..k + 1], start, store).broken;
      }
    }
  }

  lemma RunningNothing(items: map<Mid, Item>, victims: seq<Mid>, start: Estimate, store: Backend)
    requires victims == []
    ensures Running(items, victims, start, store) == start
  {
  }

  /** As long as the first answer exceeds what the victims free, the estimates are that answer less a plain sum. */
  lemma {:induction false} LedgerIsSum(items: map<Mid, Item>, victims: seq<Mid>, store: Backend, sizes: seq<nat>, calls: seq<nat>, k: nat)
    requires Ledger(items, victims, store, sizes, calls) && k <= |victims|
    requires sizes[0] > TotalOf(items, victims[..k])
    ensures sizes[k] == sizes[0] - TotalOf(items, victims[..k])
  {
    if k > 0 {
      assert victims[..k][..k - 1] == victims[..k - 1];
      LedgerIsSum(items, victims, store, sizes, calls, k - 1);
    } else {
      assert victims[..0] == [];
    }
  }

  lemma {:induction false} TotalGrows(items: map<Mid, Item>, victims: seq<Mid>, k: nat)
    requires k <= |victims| && forall i :: 0 <= i < |victims| ==> victims[i] in items
    ensures TotalOf(items, victims[..k]) <= TotalOf(items, victims)
  {
    if k < |victims| {
      assert victims[..|victims| - 1][..k] == victims[..k];
      TotalGrows(items, victims[..|victims| - 1], k);
    } else {
      assert victims[..k] == victims;
    }
  }

  /** If the first answer exceeds what the victims free: before each eviction what was freed so far was not enough, and in the
      end it is, or nothing else could be evicted. */
  lemma PlainPass(items: map<Mid, Item>, victims: seq<Mid>, store: Backend, max: nat, sizes: seq<nat>, calls: seq<nat>, candidates: seq<Mid>)
    requires Sufficient(items, victims, store, max, sizes, calls, candidates)
    requires sizes[0] > TotalOf(items, victims)
    ensures forall k :: 0 <= k < |victims| ==> sizes[0] - TotalOf(items, victims[..k]) > max
    ensures sizes[0] - TotalOf(items, victims) <= max || victims == candidates
  {
    forall k | 0 <= k <= |victims| ensures sizes[k] == sizes[0] - TotalOf(items, victims[..k]) && calls[k] == 1 {
      TotalGrows(items, victims, k);
      LedgerIsSum(items, victims, store, sizes, calls, k);
      OneCall(items, victims, store, sizes, calls, k);
    }
    assert victims[..|victims|] == victims;
  }

  ghost predicate SumSuffices(items: map<Mid, Item>, victims: seq<Mid>, first: nat, max: nat, candidates: seq<Mid>) {
    && (forall i :: 0 <= i < |victims| ==> victims[i] in items)
    && (first > TotalOf(items, victims) ==>
          && (forall k :: 0 <= k < |victims| ==> first - TotalOf(items, victims[..k]) > max)
          && (first - TotalOf(items, victims) <= max || victims == candidates))
  }

  lemma PassSuffices(items: map<Mid, Item>, victims: seq<Mid>, first: nat, store: Backend, max: nat, candidates: seq<Mid>)
    requires Needed(items, victims, Start(first), store, max) && |store.sizes| > 0 && store.sizes[0] == Some(first)
    requires
      var e := Running(items, victims, Start(first), store);
      e.size <= max || e.broken || victims == candidates
    ensures exists sizes, calls :: Sufficient(items, victims, store, max, sizes, calls, candidates)
    ensures SumSuffices(items, victims, first, max, candidates)
  {
    hide Running;
    var sizes, calls := PassHasLedger(items, victims, first, store, max, candidates);
    if first > TotalOf(items, victims) {
      PlainPass(items, victims, store, max, sizes, calls, candidates);
    }
  }

  lemma {:induction false} OneCall(items: map<Mid, Item>, victims: seq<Mid>, store: Backend, sizes: seq<nat>, calls: seq<nat>, k: nat)
    requires Ledger(items, victims, store, sizes, calls) && k <= |victims|
    requires sizes[0] > TotalOf(items, victims[..k])
    ensures calls[k] == 1
  {
    if k > 0 {
      assert victims[..k][..k - 1] == victims[..k - 1];
      LedgerIsSum(items, victims, store, sizes, calls, k - 1);
      OneCall(items, victims, store, sizes, calls, k - 1);
    }
  }

  ghost predicate PinsKept(before: map<Mid, Item>, after: map<Mid, Item>) {
    forall x :: x in before && before[x].tier == Operator ==> x in after && after[x].tier == Operator
  }

  lemma {:induction false} CandidatesEligible(items: map<Mid, Item>, store: Backend, lru: seq<Mid>, m: Mid)
    ensures m in Candidates(items, store, lru) <==> m in lru && Eligible(items, store, m)
  {
    if lru != [] {
      var n := |lru| - 1;
      CandidatesEligible(items, store, lru[..n], m);
      assert lru == lru[..n] + [lru[n]];
    }
  }

  class QuotaManager {
    var maxBytes: nat
    var items: map<Mid, Item>
    var lru: seq<Mid>          // front: most recently touched

    /** The list and the map hold the same MIDs, each once. */
    ghost predicate Valid()
      reads this
    {
      Distinct(lru) && Elems(lru) == items.Keys
    }

    constructor (maxBytes: nat)
      ensures Valid() && this.maxBytes == maxBytes && items == map[] && lru == []
    {
      this.maxBytes := maxBytes;
      items, lru := map[], [];
    }

    method SetMaxBytes(max: nat)
      requires Valid()
      modifies this
      ensures Valid() && maxBytes == max && items == old(items) && lru == old(lru)
    {
      maxBytes := max;
    }

    /** The touched MID moves to the front; a pin is never taken back; a zero size keeps the known size. */
    method Touch(m: Mid, size: nat, tier: Tier)
      requires Valid()
      modifies this
      ensures Valid() && maxBytes == old(maxBytes)
      ensures lru == [m] + Without(old(lru), m)
      ensures items == old(items)[m :=
        if m in old(items) then
          Item(if tier == Operator then Operator else old(items)[m].tier, if size > 0 then size else old(items)[m].size)
        else Item(tier, size)]
      ensures PinsKept(old(items), items)
    {
      WithoutElems(lru, m);
      assert Elems([m] + Without(lru, m)) == {m} + Elems(Without(lru, m));
      assert m !in Without(lru, m) by { assert m !in Elems(Without(lru, m)); }
      if m in items {
        var item := items[m];
        if size > 0 {
          item := item.(size := size);
        }
        if tier == Operator {
          item := item.(tier := Operator);
        }
        items := items[m := item];
      } else {
        items := items[m := Item(tier, size)];
      }
      lru := [m] + Without(lru, m);
      assert items.Keys == old(items).Keys + {m};
    }

    method Pin(m: Mid)
      requires Valid()
      modifies this
      ensures Valid() && maxBytes == old(maxBytes) && m in items && items[m].tier == Operator
      ensures lru == [m] + Without(old(lru), m)
      ensures forall x :: x in old(items) && x != m ==> x in items && items[x] == old(items)[x]
      ensures m in old(items) ==> items[m].size == old(items)[m].size
      ensures PinsKept(old(items), items)
    {
      Touch(m, 0, Operator);
    }

    /** Victims are the least recently touched candidates, as many as needed: before each eviction the estimate was over
        the limit, and the pass ends when it no longer is, when a Size call fails, or when no candidate is left. Exactly
        the victims leave list and map, so no pinned item ever does. */
    method EnforceQuota(store: Backend) returns (r: Outcome, victims: seq<Mid>)
      requires Valid()
      modifies this
      ensures Valid() && maxBytes == old(maxBytes) && PinsKept(old(items), items)
      ensures items == old(items) - Elems(victims) && lru == Survivors(old(lru), Elems(victims))
      ensures victims <= Candidates(old(items), store, old(lru))
      ensures
        var first := Answer(store, 0);
        if maxBytes == 0 || (first.Some? && first.value <= maxBytes) then r == Evicted(0) && victims == []
        else if first.None? then r == SizeFailed && victims == []
        else
          var start := Start(first.value);
          && Needed(old(items), victims, start, store, maxBytes)
          && (var e := Running(old(items), victims, start, store);
              e.size <= maxBytes || e.broken || victims == Candidates(old(items), store, old(lru)))
          && r == if victims == [] then AllPinned else Evicted(|victims|)
      ensures r == SizeFailed <==> maxBytes > 0 && (store.sizes == [] || store.sizes[0] == None)
      ensures maxBytes > 0 && store.sizes != [] && store.sizes[0].Some? && store.sizes[0].value > maxBytes ==>
        exists sizes, calls :: Sufficient(old(items), victims, store, maxBytes, sizes, calls, Candidates(old(items), store, old(lru)))
      ensures maxBytes > 0 && store.sizes != [] && store.sizes[0].Some? && store.sizes[0].value > maxBytes ==>
        SumSuffices(old(items), victims, store.sizes[0].value, maxBytes, Candidates(old(items), store, old(lru)))
    {
      hide Candidates, Running, Needed, Survivors, Passed;
      victims := [];
      SurvivorsStep(lru, {}, Mid(0, []));
      assert Elems(victims) == {} && items - {} == items;
      if maxBytes == 0 {
        return Evicted(0), victims;
      }
      var current := Answer(store, 0);
      if current.None? {
        return SizeFailed, victims;
      }
      if current.value <= maxBytes {
        return Evicted(0), victims;
      }
      ghost var items0, lru0 := items, lru;
      r, victims := Evict(store, Estimate(current.value, 1, false));
      PassSuffices(items0, victims, current.value, store, maxBytes, Candidates(items0, store, lru0));
    }

    method Evict(store: Backend, start: Estimate) returns (r: Outcome, victims: seq<Mid>)
      requires Valid() && start.size > maxBytes && !start.broken
      modifies this
      ensures Valid() && maxBytes == old(maxBytes) && PinsKept(old(items), items)
      ensures items == old(items) - Elems(victims) && lru == Survivors(old(lru), Elems(victims))
      ensures victims <= Candidates(old(items), store, old(lru))
      ensures Needed(old(items), victims, start, store, maxBytes)
      ensures
        var e := Running(old(items), victims, start, store);
        e.size <= maxBytes || e.broken || victims == Candidates(old(items), store, old(lru))
      ensures r == if victims == [] then AllPinned else Evicted(|victims|)
    {
      hide Candidates, Running, Needed, Survivors, Passed, PinsKept, Evicting;
      victims := [];
      var list, e, i := lru, start, |lru|;
      ghost var items0 := items;
      EvictingStart(items, lru);
      PassedStart(items, lru, store, maxBytes, start);
      while i > 0 && e.size > maxBytes && !e.broken
        invariant 0 <= i <= |list| && maxBytes == old(maxBytes)
        invariant Passed(items0, list, store, maxBytes, start, victims, i, e)
        invariant Evicting(items0, list, items, lru, victims, i)
        invariant victims == [] ==> e == start
      {
        PassedStep(items0, list, store, maxBytes, start, victims, i, e);
        EvictingStep(items0, list, items, lru, victims, i);
        i := i - 1;
        var m := list[i];
        if items[m].tier == AutoDiscovered && m in store.deletable {
          e := e.After(items[m].size, store);
          items, lru := items - {m}, Without(lru, m);
          victims := victims + [m];
        }
      }
      PassedEnd(items0, list, store, maxBytes, start, victims, i, e);
      EvictingEnd(items0, list, items, lru, victims, i);
      return if victims == [] then AllPinned else Evicted(|victims|), victims;
    }
  }

  /** The pass down to position `i`: exactly the victims are gone from map and list, and none of them lies below `i`. */
  ghost predicate Evicting(items0: map<Mid, Item>, list: seq<Mid>, items: map<Mid, Item>, lru: seq<Mid>, victims: seq<Mid>, i: nat) {
    && i <= |list| && Distinct(list) && Elems(list) == items0.Keys
    && items == items0 - Elems(victims) && lru == Survivors(list, Elems(victims))
    && Elems(victims) !! Elems(list[..i])
  }

  lemma EvictingStart(items: map<Mid, Item>, lru: seq<Mid>)
    requires Distinct(lru) && Elems(lru) == items.Keys
    ensures Evicting(items, lru, items, lru, [], |lru|)
  {
    SurvivorsStep(lru, {}, Mid(0, []));
    assert Elems<Mid>([]) == {} && items - {} == items;
  }

  lemma EvictingStep(items0: map<Mid, Item>, list: seq<Mid>, items: map<Mid, Item>, lru: seq<Mid>, victims: seq<Mid>, i: nat)
    requires Evicting(items0, list, items, lru, victims, i) && i > 0
    ensures
      var m := list[i - 1];
      && m in items && m in items0 && items[m] == items0[m]
      && Evicting(items0, list, items, lru, victims, i - 1)
      && Evicting(items0, list, items - {m}, Without(lru, m), victims + [m], i - 1)
  {
    hide Survivors;
    var m := list[i - 1];
    assert list[..i] == list[..i - 1] + [m];
    assert m in Elems(list[..i]) && m in Elems(list);
    SurvivorsStep(list, Elems(victims), m);
    assert Elems(victims + [m]) == Elems(victims) + {m};
    assert items0 - Elems(victims) - {m} == items0 - (Elems(victims) + {m});
    assert m !in Elems(list[..i - 1]);
    assert Elems(list[..i - 1]) <= Elems(list[..i]);
  }

  lemma EvictingEnd(items0: map<Mid, Item>, list: seq<Mid>, items: map<Mid, Item>, lru: seq<Mid>, victims: seq<Mid>, i: nat)
    requires Evicting(items0, list, items, lru, victims, i)
    requires forall m :: m in victims ==> m in items0 && items0[m].tier == AutoDiscovered
    ensures Distinct(lru) && Elems(lru) == items.Keys && PinsKept(items0, items)
    ensures items == items0 - Elems(victims) && lru == Survivors(list, Elems(victims))
  {
    SurvivorsFacts(list, Elems(victims));
  }

  lemma PassedEnd(items: map<Mid, Item>, lru: seq<Mid>, store: Backend, max: nat, start: Estimate,
                  victims: seq<Mid>, i: nat, e: Estimate)
    requires Passed(items, lru, store, max, start, victims, i, e)
    ensures victims <= Candidates(items, store, lru) && Needed(items, victims, start, store, max)
    ensures e == Running(items, victims, start, store)
    ensures i == 0 ==> victims == Candidates(items, store, lru)
    ensures forall m :: m in victims ==> m in items && items[m].tier == AutoDiscovered
  {
    forall m | m in victims ensures m in items && items[m].tier == AutoDiscovered {
      assert m in Candidates(items, store, lru);
      CandidatesEligible(items, store, lru, m);
    }
  }

  // ------------------------------------------------------------- runs

  datatype Op = Touched(m: Mid, size: nat, tier: Tier) | Pinned(m: Mid) | Enforced(store: Backend) | Resized(max: nat)

  /** What an operator pinned in the course of a run. */
  ghost predicate Pins(op: Op, m: Mid) {
    (op.Pinned? && op.m == m) || (op.Touched? && op.m == m && op.tier == Operator)
  }

  ghost predicate IsPinned(items: map<Mid, Item>, m: Mid) { m in items && items[m].tier == Operator }

  /** Over every run of operations the list and the map hold the same MIDs once each, nothing pinned before or during the
      run is ever evicted or downgraded, and nothing pinned is ever among the victims. */
  method RunAll(q: QuotaManager, ops: seq<Op>) returns (evicted: seq<seq<Mid>>)
    requires q.Valid()
    modifies q
    ensures q.Valid() && PinsKept(old(q.items), q.items)
    ensures forall i, m :: 0 <= i < |ops| && Pins(ops[i], m) ==> IsPinned(q.items, m)
    ensures |evicted| == |ops|
    ensures forall i, j, m :: 0 <= i < j < |ops| && Pins(ops[i], m) ==> m !in evicted[j]
    ensures forall j, m :: 0 <= j < |ops| && IsPinned(old(q.items), m) ==> m !in evicted[j]
  {
    hide PinsKept, Pins, IsPinned;
    evicted := [];
    ghost var start := q.items;
    PinsStay(start, start);
    var i := 0;
    while i < |ops|
      invariant 0 <= i <= |ops| && q.Valid() && |evicted| == i
      invariant PinsKept(start, q.items)
      invariant forall k, m :: 0 <= k < i && Pins(ops[k], m) ==> IsPinned(q.items, m)
      invariant forall k, j, m :: 0 <= k < j < i && Pins(ops[k], m) ==> m !in evicted[j]
      invariant forall j, m :: 0 <= j < i && IsPinned(start, m) ==> m !in evicted[j]
    {
      ghost var before := q.items;
      var gone := RunOne(q, ops[i]);
      PinsChain(start, before, q.items);
      forall m | IsPinned(before, m) ensures IsPinned(q.items, m) { StaysPinned(before, q.items, m); }
      forall m | IsPinned(start, m) ensures IsPinned(before, m) { StaysPinned(start, before, m); }
      evicted := evicted + [gone];
      i := i + 1;
    }
  }

  method RunOne(q: QuotaManager, op: Op) returns (gone: seq<Mid>)
    requires q.Valid()
    modifies q
    ensures q.Valid() && PinsKept(old(q.items), q.items)
    ensures forall m :: Pins(op, m) ==> IsPinned(q.items, m)
    ensures forall m :: IsPinned(old(q.items), m) ==> m !in gone
  {
    hide Needed, Candidates, Running, Survivors;
    gone := [];
    match op {
      case Touched(m, size, tier) => q.Touch(m, size, tier);
      case Pinned(m) => q.Pin(m);
      case Resized(max) => q.SetMaxBytes(max);
      case Enforced(store) =>
        var r;
        r, gone := q.EnforceQuota(store);
        forall m | IsPinned(old(q.items), m) ensures m !in gone {
          assert m in q.items;
        }
    }
  }

  lemma PinsStay(a: map<Mid, Item>, b: map<Mid, Item>)
    requires a == b
    ensures PinsKept(a, b)
  {
  }

  lemma PinsChain(a: map<Mid, Item>, b: map<Mid, Item>, c: map<Mid, Item>)
    requires PinsKept(a, b) && PinsKept(b, c)
    ensures PinsKept(a, c)
  {
  }

  lemma StaysPinned(a: map<Mid, Item>, b: map<Mid, Item>, m: Mid)
    requires PinsKept(a, b) && IsPinned(a, m)
    ensures IsPinned(b, m)
  {
  }
}
