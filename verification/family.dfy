/**
 * Family-competition survivor selection (`family_competition_selection_fn`):
 * each offspring competes with its own parents, the winners form a candidate
 * pool and the losers a substitute pool, and the survivors are the candidates
 * by fitness followed by the substitutes by fitness, cut to the parent count.
 */
module FamilyCompetition {
  import opened Wrappers
  import opened Numeric
  import opened Sorting
  import opened Population

  /** `{ind.id: ind for ind in inds}`: on equal ids the later individual wins. */
  function IdMap(inds: seq<Individual>): (m: map<Id, Individual>)
    ensures IdMapOf(inds, m)
  {
    if inds == [] then map[]
    else
      var last := inds[|inds| - 1];
      var init := inds[..|inds| - 1];
      var m := IdMap(init);
      IdMapStep(inds, m);
      m[last.id := last]
  }

  /**
   * `m` is the id map of `inds`: every key maps to an individual with that id
   * taken from `inds`, every id of `inds` is a key, and an individual with no
   * later namesake is the one its id maps to (the last one wins).
   */
  predicate IdMapOf(inds: seq<Individual>, m: map<Id, Individual>) {
    && (forall k :: k in m ==> m[k].id == k)
    && (forall i :: 0 <= i < |inds| ==> inds[i].id in m)
    && KeysFromList(inds, m)
    && LastWins(inds, m)
  }

  predicate KeysFromList(inds: seq<Individual>, m: map<Id, Individual>) {
    forall k :: k in m ==> exists i :: 0 <= i < |inds| && inds[i].id == k
  }

  /** No individual after position `i` has the id of the one at `i`. */
  predicate NoLaterNamesake(inds: seq<Individual>, i: nat)
    requires i < |inds|
  {
    forall j :: i < j < |inds| ==> inds[j].id != inds[i].id
  }

  predicate LastWins(inds: seq<Individual>, m: map<Id, Individual>) {
    forall i :: 0 <= i < |inds| && NoLaterNamesake(inds, i) ==> inds[i].id in m && m[inds[i].id] == inds[i]
  }

  /** Adding one more individual to the end of the list overwrites its id's entry. */
  lemma {:induction false} IdMapStep(inds: seq<Individual>, m: map<Id, Individual>)
    requires inds != [] && IdMapOf(inds[..|inds| - 1], m)
    ensures IdMapOf(inds, m[inds[|inds| - 1].id := inds[|inds| - 1]])
  {
    var init := inds[..|inds| - 1];
    assert forall i :: 0 <= i < |init| ==> inds[i] == init[i];
    KeysFromListStep(inds, m);
    LastWinsStep(inds, m);
  }

  lemma {:induction false} KeysFromListStep(inds: seq<Individual>, m: map<Id, Individual>)
    requires inds != [] && KeysFromList(inds[..|inds| - 1], m)
    ensures KeysFromList(inds, m[inds[|inds| - 1].id := inds[|inds| - 1]])
  {
    var init := inds[..|inds| - 1];
    var last := inds[|inds| - 1];
    var m' := m[last.id := last];
    forall k | k in m' ensures exists i :: 0 <= i < |inds| && inds[i].id == k {
      if k == last.id {
        assert inds[|init|].id == k;
      } else {
        var i :| 0 <= i < |init| && init[i].id == k;
        assert inds[i] == init[i];
      }
    }
  }

  lemma {:induction false} LastWinsStep(inds: seq<Individual>, m: map<Id, Individual>)
    requires inds != [] && LastWins(inds[..|inds| - 1], m)
    ensures LastWins(inds, m[inds[|inds| - 1].id := inds[|inds| - 1]])
  {
    var init := inds[..|inds| - 1];
    var last := inds[|inds| - 1];
    var m' := m[last.id := last];
    forall i | 0 <= i < |inds| && NoLaterNamesake(inds, i)
      ensures inds[i].id in m' && m'[inds[i].id] == inds[i]
    {
      if i < |init| {
        var x := inds[i];
        assert x == init[i];
        assert last.id != x.id by {
          assert inds[|init|] == last;
        }
        assert NoLaterNamesake(init, i) by {
          forall j | i < j < |init| ensures init[j].id != init[i].id {
            assert inds[j] == init[j];
          }
        }
      }
    }
  }

  /** An individual's fitness looked up by id (0 for an id that does not resolve, which callers exclude). */
  function Fit(m: map<Id, Individual>, x: Id): real {
    if x in m && m[x].fitness.Some? then m[x].fitness.value else 0.0
  }

  /** The sort key of the source: `lambda x: all_ind_map[x].fitness`. */
  function FitKey(m: map<Id, Individual>): Id -> real {
    x => Fit(m, x)
  }

  predicate Evaluated(inds: seq<Individual>) {
    forall i :: 0 <= i < |inds| ==> inds[i].fitness.Some?
  }

  /** Every parent id of every offspring names an individual of the map. */
  predicate ParentsKnown(gen: seq<Individual>, m: map<Id, Individual>) {
    forall i, p :: 0 <= i < |gen| && p in gen[i].parentIds ==> p in m
  }

  /** Position of the first occurrence of `x` (Python's `list.index`). */
  function IndexOf(s: seq<Id>, x: Id): (k: nat)
    requires x in s
    ensures k < |s| && s[k] == x && x !in s[..k]
  {
    if s[0] == x then 0 else 1 + IndexOf(s[1..], x)
  }

  /**
   * `_family_selection`: the offspring with no parents is selected alone; a
   * family with more parents than the threshold is selected whole; otherwise
   * the family is sorted by fitness (`key`), highest first and stable, and
   * split just after the offspring.
   */
  function FamilySelection(child: Individual, key: Id -> real, threshold: int): (r: (seq<Id>, seq<Id>))
    ensures child.id in r.0
    ensures |child.parentIds| == 0 ==> r == ([child.id], [])
    ensures 0 < |child.parentIds| && |child.parentIds| > threshold ==> r == ([child.id] + child.parentIds, [])
  {
    if |child.parentIds| == 0 then ([child.id], [])
    else if |child.parentIds| > threshold then ([child.id] + child.parentIds, [])
    else
      var sorted := SortByKeyDesc([child.id] + child.parentIds, key);
      SortByKeyPerm([child.id] + child.parentIds, key);
      assert child.id in multiset(sorted);
      var k := IndexOf(sorted, child.id);
      (sorted[..k + 1], sorted[k + 1..])
  }

  lemma {:induction false} IndexOfSplit(a: seq<Id>, x: Id, b: seq<Id>)
    requires x !in a
    ensures IndexOf(a + [x] + b, x) == |a|
  {
    if a != [] {
      assert (a + [x] + b)[1..] == a[1..] + [x] + b;
      IndexOfSplit(a[1..], x, b);
    }
  }

  /** A contested family splits the parents, sorted alone, at the offspring's insertion point. */
  lemma {:induction false} ContestedSplit(child: Individual, key: Id -> real, threshold: int)
    requires 0 < |child.parentIds| <= threshold
    ensures var t := SortByKeyDesc(child.parentIds, key);
      var p := Above(child.id, t, key);
      && SortByKeyDesc([child.id] + child.parentIds, key) == t[..p] + [child.id] + t[p..]
      && FamilySelection(child, key, threshold) == (t[..p] + [child.id], t[p..])
  {
    var fam := [child.id] + child.parentIds;
    var t := SortByKeyDesc(child.parentIds, key);
    assert fam[1..] == child.parentIds;
    assert SortByKeyDesc(fam, key) == InsertByKey(child.id, t, key);
    InsertByKeySplit(child.id, t, key);
    var p := Above(child.id, t, key);
    assert child.id !in t[..p] by {
      forall i | 0 <= i < p ensures t[..p][i] != child.id {
        assert key(t[i]) > key(child.id);
      }
    }
    IndexOfSplit(t[..p], child.id, t[p..]);
  }

  /**
   * In a contested family (1 to threshold parents) the selected list is the
   * parents strictly fitter than the offspring, in stable fitness order,
   * followed by the offspring; the unselected list is every remaining parent,
   * each no fitter than the offspring; the two lists together are the whole
   * family sorted by fitness, highest first.
   */
  lemma {:induction false} FamilySelectionSpec(child: Individual, key: Id -> real, threshold: int)
    requires 0 < |child.parentIds| <= threshold
    ensures var r := FamilySelection(child, key, threshold);
      && r.0 + r.1 == SortByKeyDesc([child.id] + child.parentIds, key)
      && multiset(r.0 + r.1) == multiset([child.id] + child.parentIds)
      && SortedDesc(r.0 + r.1, key)
      && |r.0| > 0 && r.0[|r.0| - 1] == child.id
      && (forall i :: 0 <= i < |r.0| - 1 ==> key(r.0[i]) > key(child.id))
      && (forall x :: x in r.1 ==> key(x) <= key(child.id))
  {
    var fam := [child.id] + child.parentIds;
    var t := SortByKeyDesc(child.parentIds, key);
    ContestedSplit(child, key, threshold);
    InsertByKeySplit(child.id, t, key);
    SortByKeySorted(child.parentIds, key);
    BelowInsertPoint(child.id, t, key);
    SortByKeyPerm(fam, key);
    SortByKeySorted(fam, key);
    var p := Above(child.id, t, key);
    assert t[..p] + [child.id] + t[p..] == (t[..p] + [child.id]) + t[p..];
  }

  /** An offspring fitter than every parent keeps only itself selected. */
  lemma {:induction false} StrongChildAloneSelected(child: Individual, key: Id -> real, threshold: int)
    requires 0 < |child.parentIds| <= threshold
    requires forall p :: p in child.parentIds ==> key(p) < key(child.id)
    ensures FamilySelection(child, key, threshold).0 == [child.id]
    ensures multiset(FamilySelection(child, key, threshold).1) == multiset(child.parentIds)
  {
    var t := SortByKeyDesc(child.parentIds, key);
    var p := Above(child.id, t, key);
    ContestedSplit(child, key, threshold);
    InsertByKeySplit(child.id, t, key);
    SortByKeyPerm(child.parentIds, key);
    assert t != [] ==> t[0] in multiset(child.parentIds) by {
      if t != [] {
        assert t[0] in multiset(t);
      }
    }
    assert p == 0;
    assert t[p..] == t;
  }

  /**
   * An offspring weaker than every parent is still selected, after all of
   * them: the offspring is never substituted out of its own family.
   */
  lemma {:induction false} WeakChildStillSelected(child: Individual, key: Id -> real, threshold: int)
    requires 0 < |child.parentIds| <= threshold
    requires forall p :: p in child.parentIds ==> key(p) > key(child.id)
    ensures FamilySelection(child, key, threshold).1 == []
    ensures multiset(FamilySelection(child, key, threshold).0) == multiset([child.id] + child.parentIds)
  {
    var t := SortByKeyDesc(child.parentIds, key);
    var p := Above(child.id, t, key);
    ContestedSplit(child, key, threshold);
    SortByKeyPerm(child.parentIds, key);
    WeakSplit(child.id, t, child.parentIds, key);
  }

  /** When every parent outranks the offspring, it is inserted after all of them. */
  lemma {:induction false} WeakSplit(x: Id, t: seq<Id>, parents: seq<Id>, key: Id -> real)
    requires multiset(t) == multiset(parents)
    requires forall p :: p in parents ==> key(p) > key(x)
    ensures t[..Above(x, t, key)] + [x] == t + [x] && t[Above(x, t, key)..] == []
    ensures multiset(t + [x]) == multiset([x] + parents)
  {
    forall y | y in t ensures key(y) > key(x) {
      assert y in multiset(t);
    }
    AllAbove(x, t, key);
    assert t[..|t|] == t;
  }

  function ToSet(s: seq<Id>): set<Id> {
    set x | x in s
  }

  lemma {:induction false} AllAbove(x: Id, t: seq<Id>, key: Id -> real)
    requires forall y :: y in t ==> key(y) > key(x)
    ensures Above(x, t, key) == |t|
  {
    if t != [] {
      assert t[0] in t;
      forall y | y in t[1..] ensures key(y) > key(x) {
        assert y in t;
      }
      AllAbove(x, t[1..], key);
    }
  }

  /** Union of the selected lists of the offspring. */
  function SelectedIds(gen: seq<Individual>, key: Id -> real, threshold: int): set<Id> {
    if gen == [] then {}
    else SelectedIds(gen[..|gen| - 1], key, threshold) + ToSet(FamilySelection(gen[|gen| - 1], key, threshold).0)
  }

  /** Union of the unselected lists of the offspring. */
  function UnselectedIds(gen: seq<Individual>, key: Id -> real, threshold: int): set<Id> {
    if gen == [] then {}
    else UnselectedIds(gen[..|gen| - 1], key, threshold) + ToSet(FamilySelection(gen[|gen| - 1], key, threshold).1)
  }

  /** Ids of the previous population that no family substituted out. */
  function KeptFromPopulation(pop: seq<Individual>, subs: set<Id>): set<Id> {
    set i | 0 <= i < |pop| && pop[i].id !in subs :: pop[i].id
  }

  /** Conflict resolution: aggressive mode drops the overlap from the candidates, conservative mode from the substitutes. */
  function Resolve(cands: set<Id>, subs: set<Id>, aggressive: bool): (set<Id>, set<Id>) {
    if aggressive then (cands - subs, subs) else (cands, subs - cands)
  }

  /** The candidate and substitute pools after conflict resolution. */
  function Pools(gen: seq<Individual>, pop: seq<Individual>, key: Id -> real, threshold: int, aggressive: bool): (set<Id>, set<Id>)
  {
    var subs := UnselectedIds(gen, key, threshold);
    Resolve(SelectedIds(gen, key, threshold) + KeptFromPopulation(pop, subs), subs, aggressive)
  }

  /**
   * Every offspring is a candidate before conflict resolution, every
   * previous-population individual that was not substituted is a candidate,
   * and after resolution the pools are disjoint: aggressive mode takes the
   * overlap out of the candidates, conservative mode out of the substitutes.
   */
  lemma {:induction false} PoolsSpec(gen: seq<Individual>, pop: seq<Individual>, key: Id -> real, threshold: int, aggressive: bool)
    ensures var subs := UnselectedIds(gen, key, threshold);
      var cands := SelectedIds(gen, key, threshold) + KeptFromPopulation(pop, subs);
      var r := Pools(gen, pop, key, threshold, aggressive);
      && (forall i :: 0 <= i < |gen| ==> gen[i].id in cands)
      && (forall i :: 0 <= i < |pop| && pop[i].id !in subs ==> pop[i].id in cands)
      && r.0 !! r.1
      && (aggressive ==> r.0 == cands - subs && r.1 == subs)
      && (!aggressive ==> r.0 == cands && r.1 == subs - cands)
  {
    forall i | 0 <= i < |gen| ensures gen[i].id in SelectedIds(gen, key, threshold) {
      ChildSelected(gen, key, threshold, i);
    }
  }

  lemma {:induction false} ChildSelected(gen: seq<Individual>, key: Id -> real, threshold: int, i: nat)
    requires i < |gen|
    ensures gen[i].id in SelectedIds(gen, key, threshold)
    decreases |gen|
  {
    if i < |gen| - 1 {
      ChildSelected(gen[..|gen| - 1], key, threshold, i);
      assert gen[..|gen| - 1][i] == gen[i];
    }
  }

  predicate Distinct(s: seq<Id>) {
    forall i, j :: 0 <= i < j < |s| ==> s[i] != s[j]
  }

  function Ids(inds: seq<Individual>): (r: seq<Id>)
    ensures |r| == |inds| && forall i :: 0 <= i < |inds| ==> r[i] == inds[i].id
  {
    seq(|inds|, i requires 0 <= i < |inds| => inds[i].id)
  }

  /** At most `n` distinct ids, drawn from the two pools. */
  predicate PrefixShape(ids: seq<Id>, c: set<Id>, s: set<Id>, n: nat) {
    && |ids| == MinInt(n, |c| + |s|)
    && Distinct(ids)
    && (forall i :: 0 <= i < |ids| ==> ids[i] in c + s)
  }

  /** Candidates come before substitutes, and each part is by key, highest first. */
  ghost predicate PoolOrder(ids: seq<Id>, c: set<Id>, key: Id -> real) {
    && (forall i, j :: 0 <= i < j < |ids| && ids[j] in c ==> ids[i] in c)
    && (forall i, j :: 0 <= i < j < |ids| && (ids[i] in c <==> ids[j] in c) ==> key(ids[i]) >= key(ids[j]))
  }

  /** A pool member left out of `ids` ranks no higher than anything kept. */
  ghost predicate LeftOutRanksLower(ids: seq<Id>, c: set<Id>, s: set<Id>, key: Id -> real) {
    && (forall x :: x in c && x !in ids ==> forall i :: 0 <= i < |ids| ==> ids[i] in c && key(ids[i]) >= key(x))
    && (forall x :: x in s && x !in ids ==> forall i :: 0 <= i < |ids| ==> ids[i] in c || key(ids[i]) >= key(x))
  }

  /**
   * `ids` is the top of the two pools: at most `n` distinct ids, all
   * candidates before all substitutes, each part by fitness highest first,
   * and whatever was left out of the result ranks no higher than all of it.
   */
  ghost predicate RankedPrefix(ids: seq<Id>, c: set<Id>, s: set<Id>, key: Id -> real, n: nat) {
    PrefixShape(ids, c, s, n) && PoolOrder(ids, c, key) && LeftOutRanksLower(ids, c, s, key)
  }

  /** Lists a set's members once each, in the (unspecified) order a Python set iterates. */
  method Enumerate(s: set<Id>) returns (r: seq<Id>)
    ensures Distinct(r) && ToSet(r) == s && |r| == |s|
  {
    r := [];
    var rest := s;
    while rest != {}
      invariant Distinct(r) && ToSet(r) !! rest && ToSet(r) + rest == s
      invariant |r| + |rest| == |s|
      decreases |rest|
    {
      var x :| x in rest;
      r := r + [x];
      rest := rest - {x};
    }
  }

  /**
   * `_family_competition_selection_fn`: builds the candidate and substitute
   * pools from the families of the last generation and the previous
   * population, resolves their overlap, and returns the candidates by fitness
   * then the substitutes by fitness, cut to `nParent` individuals. Every
   * parent id must resolve and every individual must have been evaluated
   * (otherwise the source's lookups or comparisons raise).
   */
  method FamilyCompetitionSelection(gen: seq<Individual>, pop: seq<Individual>, nParent: nat,
                                    aggressive: bool, threshold: int)
    returns (result: seq<Individual>)
    requires Evaluated(gen + pop) && ParentsKnown(gen, IdMap(gen + pop))
    ensures var m := IdMap(gen + pop);
      && RankedPrefix(Ids(result), Pools(gen, pop, FitKey(m), threshold, aggressive).0,
                      Pools(gen, pop, FitKey(m), threshold, aggressive).1, FitKey(m), nParent)
      && (forall i :: 0 <= i < |result| ==> result[i].id in m && result[i] == m[result[i].id])
  {
    var m := IdMap(gen + pop);
    var key := FitKey(m);
    var cand, subs := GatherPools(gen, pop, key, threshold, aggressive);
    PoolsSpec(gen, pop, key, threshold, aggressive);
    PoolsResolve(gen, pop, key, threshold, aggressive, m);
    var kept := RankPools(cand, subs, key, nParent);
    assert forall i :: 0 <= i < |kept| ==> kept[i] in m by {
      forall i | 0 <= i < |kept| ensures kept[i] in m {
        assert kept[i] in cand + subs;
      }
    }
    result := Lookup(m, kept);
  }

  /** The two loops that fill the candidate and substitute sets, then the overlap removal. */
  method GatherPools(gen: seq<Individual>, pop: seq<Individual>, key: Id -> real, threshold: int, aggressive: bool)
    returns (cand: set<Id>, subs: set<Id>)
    ensures (cand, subs) == Pools(gen, pop, key, threshold, aggressive)
  {
    cand, subs := CollectFamilies(gen, key, threshold);
    ghost var subs0 := subs;
    cand := KeepFromPopulation(pop, subs, cand);
    ghost var cands0 := cand;
    var intersection := cand * subs;
    if |intersection| > 0 {
      if aggressive {
        cand := cand - intersection;
      } else {
        subs := subs - intersection;
      }
    }
    OverlapRemoval(cands0, subs0, aggressive, cand, subs);
  }

  /** The loop over the new generation: each family's selected and unselected ids. */
  method CollectFamilies(gen: seq<Individual>, key: Id -> real, threshold: int) returns (cand: set<Id>, subs: set<Id>)
    ensures cand == SelectedIds(gen, key, threshold) && subs == UnselectedIds(gen, key, threshold)
  {
    cand, subs := {}, {};
    for k := 0 to |gen|
      invariant cand == SelectedIds(gen[..k], key, threshold)
      invariant subs == UnselectedIds(gen[..k], key, threshold)
    {
      var r := FamilySelection(gen[k], key, threshold);
      cand := cand + ToSet(r.0);
      subs := subs + ToSet(r.1);
      FamilyStep(gen, k, key, threshold);
    }
    assert gen[..|gen|] == gen;
  }

  /** The loop over the previous population: every id not substituted becomes a candidate. */
  method KeepFromPopulation(pop: seq<Individual>, subs: set<Id>, cand0: set<Id>) returns (cand: set<Id>)
    ensures cand == cand0 + KeptFromPopulation(pop, subs)
  {
    cand := cand0;
    for k := 0 to |pop|
      invariant cand == cand0 + KeptFromPopulation(pop[..k], subs)
    {
      if pop[k].id !in subs {
        cand := cand + {pop[k].id};
      }
      KeptStep(pop, k, subs);
    }
    assert pop[..|pop|] == pop;
  }

  /** Removing the overlap only when it is non-empty is the same as `Resolve`. */
  lemma {:induction false} OverlapRemoval(c0: set<Id>, s0: set<Id>, aggressive: bool, c: set<Id>, s: set<Id>)
    requires |c0 * s0| > 0 ==> (aggressive ==> c == c0 - c0 * s0 && s == s0)
    requires |c0 * s0| > 0 ==> (!aggressive ==> c == c0 && s == s0 - c0 * s0)
    requires |c0 * s0| == 0 ==> c == c0 && s == s0
    ensures (c, s) == Resolve(c0, s0, aggressive)
  {
    if |c0 * s0| == 0 {
      assert c0 * s0 == {};
      assert forall x :: x in c0 * s0 <==> x in c0 && x in s0;
      assert c0 - s0 == c0;
      assert s0 - c0 == s0;
    } else if aggressive {
      assert c0 - c0 * s0 == c0 - s0;
    } else {
      assert s0 - c0 * s0 == s0 - c0;
    }
  }

  lemma {:induction false} FamilyStep(gen: seq<Individual>, k: nat, key: Id -> real, threshold: int)
    requires k < |gen|
    ensures var r := FamilySelection(gen[k], key, threshold);
      && SelectedIds(gen[..k + 1], key, threshold) == SelectedIds(gen[..k], key, threshold) + ToSet(r.0)
      && UnselectedIds(gen[..k + 1], key, threshold) == UnselectedIds(gen[..k], key, threshold) + ToSet(r.1)
  {
    assert gen[..k + 1][..k] == gen[..k];
    assert gen[..k + 1][k] == gen[k];
  }

  /**
   * Lists both pools, sorts each by key, highest first, puts the candidates
   * before the substitutes and keeps the first `n`.
   */
  method RankPools(cand: set<Id>, subs: set<Id>, key: Id -> real, n: nat) returns (kept: seq<Id>)
    requires cand !! subs
    ensures RankedPrefix(kept, cand, subs, key, n)
  {
    var candList := Enumerate(cand);
    var subsList := Enumerate(subs);
    var ids := SortByKeyDesc(candList, key) + SortByKeyDesc(subsList, key);
    SortedPools(candList, subsList, cand, subs, key, n);
    kept := ids[..MinInt(n, |ids|)];
  }

  /** `[all_ind_map[x] for x in ids]`. */
  function Lookup(m: map<Id, Individual>, ids: seq<Id>): (r: seq<Individual>)
    requires forall k :: k in m ==> m[k].id == k
    requires forall i :: 0 <= i < |ids| ==> ids[i] in m
    ensures Ids(r) == ids
    ensures forall i :: 0 <= i < |r| ==> r[i].id in m && r[i] == m[r[i].id]
  {
    var r := seq(|ids|, i requires 0 <= i < |ids| => m[ids[i]]);
    assert Ids(r) == ids;
    r
  }

  lemma {:induction false} KeptStep(pop: seq<Individual>, k: nat, subs: set<Id>)
    requires k < |pop|
    ensures KeptFromPopulation(pop[..k + 1], subs) ==
      KeptFromPopulation(pop[..k], subs) + (if pop[k].id !in subs then {pop[k].id} else {})
  {
    assert forall i :: 0 <= i < k ==> pop[..k + 1][i] == pop[..k][i];
    assert pop[..k + 1][k] == pop[k];
  }

  /** Every id in either pool names an individual of the map. */
  lemma {:induction false} PoolsResolve(gen: seq<Individual>, pop: seq<Individual>, key: Id -> real, threshold: int, aggressive: bool,
                     m: map<Id, Individual>)
    requires m == IdMap(gen + pop) && ParentsKnown(gen, m)
    ensures var r := Pools(gen, pop, key, threshold, aggressive);
      forall x :: x in r.0 + r.1 ==> x in m
  {
    forall i | 0 <= i < |gen| ensures gen[i].id in m {
      assert gen[i] == (gen + pop)[i];
    }
    forall x | x in SelectedIds(gen, key, threshold) + UnselectedIds(gen, key, threshold) ensures x in m {
      FamilyIdsKnown(gen, m, key, threshold, x);
    }
    forall i | 0 <= i < |pop| ensures pop[i].id in m {
      assert pop[i] == (gen + pop)[|gen| + i];
    }
  }

  /** The ids a family puts in either list are the offspring's and its parents'. */
  lemma {:induction false} FamilyMembers(child: Individual, key: Id -> real, threshold: int, x: Id)
    requires x in FamilySelection(child, key, threshold).0 || x in FamilySelection(child, key, threshold).1
    ensures x == child.id || x in child.parentIds
  {
    if 0 < |child.parentIds| <= threshold {
      FamilySelectionSpec(child, key, threshold);
      var r := FamilySelection(child, key, threshold);
      assert x in multiset(r.0 + r.1);
    }
  }

  lemma {:induction false} FamilyIdsKnown(gen: seq<Individual>, m: map<Id, Individual>, key: Id -> real, threshold: int, x: Id)
    requires (forall i :: 0 <= i < |gen| ==> gen[i].id in m) && ParentsKnown(gen, m)
    requires x in SelectedIds(gen, key, threshold) + UnselectedIds(gen, key, threshold)
    ensures x in m
    decreases |gen|
  {
    var last := gen[|gen| - 1];
    var front := gen[..|gen| - 1];
    if x in SelectedIds(front, key, threshold) + UnselectedIds(front, key, threshold) {
      assert forall i :: 0 <= i < |front| ==> front[i] == gen[i];
      FamilyIdsKnown(front, m, key, threshold, x);
    } else {
      FamilyMembers(last, key, threshold, x);
    }
  }

  lemma {:induction false} DistinctCount(s: seq<Id>)
    ensures Distinct(s) <==> forall x :: multiset(s)[x] <= 1
  {
    if s != [] {
      DistinctCount(s[1..]);
      assert s == [s[0]] + s[1..];
      assert multiset(s) == multiset{s[0]} + multiset(s[1..]);
      if Distinct(s) {
        assert s[0] !in s[1..];
        assert Distinct(s[1..]) by {
          forall i, j | 0 <= i < j < |s| - 1 ensures s[1..][i] != s[1..][j] {
            assert s[i + 1] != s[j + 1];
          }
        }
      }
      if forall x :: multiset(s)[x] <= 1 {
        assert multiset(s)[s[0]] == 1 + multiset(s[1..])[s[0]];
        assert multiset(s[1..])[s[0]] == 0;
        assert forall x :: multiset(s[1..])[x] <= 1 by {
          forall x ensures multiset(s[1..])[x] <= 1 {
            assert multiset(s[1..])[x] <= multiset(s)[x];
          }
        }
        forall i, j | 0 <= i < j < |s| ensures s[i] != s[j] {
          if i == 0 {
            assert s[j] == s[1..][j - 1];
          } else {
            assert s[i] == s[1..][i - 1] && s[j] == s[1..][j - 1];
          }
        }
      }
    }
  }

  /** Sorting a duplicate-free listing of a pool gives a duplicate-free listing of the same pool. */
  lemma {:induction false} SortedListing(l: seq<Id>, pool: set<Id>, key: Id -> real)
    requires Distinct(l) && ToSet(l) == pool && |l| == |pool|
    ensures var r := SortByKeyDesc(l, key);
      Distinct(r) && ToSet(r) == pool && |r| == |pool| && SortedDesc(r, key)
  {
    var r := SortByKeyDesc(l, key);
    SortByKeyPerm(l, key);
    SortByKeySorted(l, key);
    DistinctCount(l);
    DistinctCount(r);
    forall x ensures x in r <==> x in l {
      assert x in r <==> x in multiset(r);
      assert x in l <==> x in multiset(l);
    }
  }

  /** The sorted candidates and substitutes, laid end to end: which index holds what. */
  ghost predicate Layout(ids: seq<Id>, sc: seq<Id>, ss: seq<Id>, c: set<Id>, s: set<Id>, key: Id -> real) {
    && ids == sc + ss
    && Distinct(sc) && ToSet(sc) == c && |sc| == |c| && SortedDesc(sc, key)
    && Distinct(ss) && ToSet(ss) == s && |ss| == |s| && SortedDesc(ss, key)
    && c !! s
  }

  lemma {:induction false} LayoutIndex(ids: seq<Id>, sc: seq<Id>, ss: seq<Id>, c: set<Id>, s: set<Id>, key: Id -> real)
    requires Layout(ids, sc, ss, c, s, key)
    ensures forall i :: 0 <= i < |sc| ==> ids[i] == sc[i] && ids[i] in c
    ensures forall i :: |sc| <= i < |ids| ==> ids[i] == ss[i - |sc|] && ids[i] in s && ids[i] !in c
  {
    forall i | |sc| <= i < |ids| ensures ids[i] == ss[i - |sc|] && ids[i] in s {
      assert ss[i - |sc|] in ToSet(ss);
    }
    forall i | 0 <= i < |sc| ensures ids[i] in c {
      assert sc[i] in ToSet(sc);
    }
  }

  lemma {:induction false} LayoutShape(ids: seq<Id>, sc: seq<Id>, ss: seq<Id>, c: set<Id>, s: set<Id>, key: Id -> real, n: nat)
    requires Layout(ids, sc, ss, c, s, key)
    ensures PrefixShape(ids[..MinInt(n, |ids|)], c, s, n)
  {
    LayoutIndex(ids, sc, ss, c, s, key);
    var p := ids[..MinInt(n, |ids|)];
    forall i, j | 0 <= i < j < |p| ensures p[i] != p[j] {
      if j < |sc| {
        assert sc[i] != sc[j];
      } else if |sc| <= i {
        assert ss[i - |sc|] != ss[j - |sc|];
      }
    }
  }

  lemma {:induction false} LayoutOrder(ids: seq<Id>, sc: seq<Id>, ss: seq<Id>, c: set<Id>, s: set<Id>, key: Id -> real, n: nat)
    requires Layout(ids, sc, ss, c, s, key)
    ensures PoolOrder(ids[..MinInt(n, |ids|)], c, key)
  {
    LayoutIndex(ids, sc, ss, c, s, key);
    var p := ids[..MinInt(n, |ids|)];
    forall i, j | 0 <= i < j < |p| && (p[i] in c <==> p[j] in c) ensures key(p[i]) >= key(p[j]) {
      if j < |sc| {
        assert key(sc[i]) >= key(sc[j]);
      } else {
        assert key(ss[i - |sc|]) >= key(ss[j - |sc|]);
      }
    }
  }

  lemma {:induction false} LayoutLeftOut(ids: seq<Id>, sc: seq<Id>, ss: seq<Id>, c: set<Id>, s: set<Id>, key: Id -> real, n: nat)
    requires Layout(ids, sc, ss, c, s, key)
    ensures LeftOutRanksLower(ids[..MinInt(n, |ids|)], c, s, key)
  {
    LayoutIndex(ids, sc, ss, c, s, key);
    var k := MinInt(n, |ids|);
    var p := ids[..k];
    forall x | x in c && x !in p ensures forall i :: 0 <= i < |p| ==> p[i] in c && key(p[i]) >= key(x) {
      assert x in ToSet(sc);
      var q :| 0 <= q < |sc| && sc[q] == x;
      forall i | 0 <= i < |p| ensures p[i] in c && key(p[i]) >= key(x) {
        assert key(sc[i]) >= key(sc[q]);
      }
    }
    forall x | x in s && x !in p ensures forall i :: 0 <= i < |p| ==> p[i] in c || key(p[i]) >= key(x) {
      assert x in ToSet(ss);
      var q :| 0 <= q < |ss| && ss[q] == x;
      assert ids[|sc| + q] == x;
      assert forall i :: 0 <= i < k ==> p[i] == ids[i];
      forall i | 0 <= i < |p| && |sc| <= i ensures key(p[i]) >= key(x) {
        assert key(ss[i - |sc|]) >= key(ss[q]);
      }
    }
  }

  /** The sorted candidates followed by the sorted substitutes, cut to `n`, rank as `RankedPrefix` says. */
  lemma {:induction false} SortedPools(cl: seq<Id>, sl: seq<Id>, c: set<Id>, s: set<Id>, key: Id -> real, n: nat)
    requires Distinct(cl) && ToSet(cl) == c && |cl| == |c|
    requires Distinct(sl) && ToSet(sl) == s && |sl| == |s|
    requires c !! s
    ensures var ids := SortByKeyDesc(cl, key) + SortByKeyDesc(sl, key);
      RankedPrefix(ids[..MinInt(n, |ids|)], c, s, key, n)
  {
    var sc := SortByKeyDesc(cl, key);
    var ss := SortByKeyDesc(sl, key);
    SortedListing(cl, c, key);
    SortedListing(sl, s, key);
    var ids := sc + ss;
    LayoutShape(ids, sc, ss, c, s, key, n);
    LayoutOrder(ids, sc, ss, c, s, key, n);
    LayoutLeftOut(ids, sc, ss, c, s, key, n);
  }
}
