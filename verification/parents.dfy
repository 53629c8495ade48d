/**
 * Parent pairing by description diversity (`max_divese_desc_get_parent_fn`):
 * the individuals least similar to the rest become seeds, each seed is
 * grouped with the first combination of its least similar co-parents whose
 * index set is new, and every group becomes a query for one offspring.
 */
module ParentPairing {
  import opened Wrappers
  import opened Numeric
  import opened Sorting
  import opened Population

  /** `itertools.combinations(s, k)`: the k-element selections of `s`, kept in order, in lexicographic order of positions. */
  function Combinations(s: seq<nat>, k: nat): (r: seq<seq<nat>>)
    decreases |s|
  {
    if k == 0 then [[]]
    else if |s| < k then []
    else
      var withHead := Combinations(s[1..], k - 1);
      seq(|withHead|, i requires 0 <= i < |withHead| => [s[0]] + withHead[i]) + Combinations(s[1..], k)
  }

  /**
   * Every combination has `k` elements, each taken from `s`; the combinations
   * are exactly the `k`-element subsequences of `s`, and there are `|s|`
   * choose `k` of them.
   */
  lemma {:induction false} CombinationsSpec(s: seq<nat>, k: nat)
    ensures forall c :: c in Combinations(s, k) ==> |c| == k && forall x :: x in c ==> x in s
    ensures forall c :: c in Combinations(s, k) <==> |c| == k && IsSubseq(c, s)
    ensures |Combinations(s, k)| == Binomial(|s|, k)
  {
    CombinationElements(s, k);
    CombinationsExact(s, k);
    CombinationsCount(s, k);
  }

  /** Every combination has `k` elements, each taken from `s`. */
  lemma {:induction false} CombinationElements(s: seq<nat>, k: nat)
    ensures forall c :: c in Combinations(s, k) ==> |c| == k && forall x :: x in c ==> x in s
    decreases |s|
  {
    if k > 0 && |s| >= k {
      CombinationElements(s[1..], k - 1);
      CombinationElements(s[1..], k);
      var withHead := Combinations(s[1..], k - 1);
      var front := seq(|withHead|, i requires 0 <= i < |withHead| => [s[0]] + withHead[i]);
      forall c | c in Combinations(s, k) ensures |c| == k && forall x :: x in c ==> x in s {
        if c in front {
          var i :| 0 <= i < |front| && front[i] == c;
          assert withHead[i] in withHead;
        }
      }
    }
  }

  /** `c` is `s` with some elements deleted, the rest kept in order. */
  predicate IsSubseq(c: seq<nat>, s: seq<nat>)
    decreases |s|
  {
    if c == [] then true
    else if s == [] then false
    else (c[0] == s[0] && IsSubseq(c[1..], s[1..])) || IsSubseq(c, s[1..])
  }

  /** The binomial coefficient `n` choose `k`, by Pascal's rule. */
  function Binomial(n: nat, k: nat): nat {
    if k == 0 then 1
    else if n < k then 0
    else Binomial(n - 1, k - 1) + Binomial(n - 1, k)
  }

  lemma {:induction false} SubseqShorter(c: seq<nat>, s: seq<nat>)
    requires IsSubseq(c, s)
    ensures |c| <= |s|
    decreases |s|
  {
    if c != [] {
      if c[0] == s[0] && IsSubseq(c[1..], s[1..]) {
        SubseqShorter(c[1..], s[1..]);
      } else {
        SubseqShorter(c, s[1..]);
      }
    }
  }

  /** The combinations are exactly the `k`-element subsequences of `s`. */
  lemma {:induction false} CombinationsExact(s: seq<nat>, k: nat)
    ensures forall c :: c in Combinations(s, k) <==> |c| == k && IsSubseq(c, s)
  {
    forall c ensures c in Combinations(s, k) <==> |c| == k && IsSubseq(c, s) {
      if c in Combinations(s, k) {
        CombinationSound(s, k, c);
      }
      if |c| == k && IsSubseq(c, s) {
        CombinationComplete(s, k, c);
      }
    }
  }

  /** The combinations of `s` split into those that take its head and those that skip it. */
  lemma CombinationsUnfold(s: seq<nat>, k: nat)
    requires 0 < k <= |s|
    ensures var withHead := Combinations(s[1..], k - 1);
      && Combinations(s, k) == seq(|withHead|, i requires 0 <= i < |withHead| => [s[0]] + withHead[i]) + Combinations(s[1..], k)
  {
  }

  lemma {:induction false} CombinationSound(s: seq<nat>, k: nat, c: seq<nat>)
    requires c in Combinations(s, k)
    ensures |c| == k && IsSubseq(c, s)
    decreases |s|
  {
    if k > 0 {
      var withHead := Combinations(s[1..], k - 1);
      var front := seq(|withHead|, i requires 0 <= i < |withHead| => [s[0]] + withHead[i]);
      CombinationsUnfold(s, k);
      if c in front {
        var i :| 0 <= i < |front| && front[i] == c;
        CombinationSound(s[1..], k - 1, withHead[i]);
        assert c[0] == s[0] && c[1..] == withHead[i];
      } else {
        assert c in Combinations(s[1..], k);
        CombinationSound(s[1..], k, c);
      }
    }
  }

  lemma {:induction false} CombinationComplete(s: seq<nat>, k: nat, c: seq<nat>)
    requires |c| == k && IsSubseq(c, s)
    ensures c in Combinations(s, k)
    decreases |s|
  {
    if k > 0 {
      SubseqShorter(c, s);
      var withHead := Combinations(s[1..], k - 1);
      var front := seq(|withHead|, i requires 0 <= i < |withHead| => [s[0]] + withHead[i]);
      CombinationsUnfold(s, k);
      if c[0] == s[0] && IsSubseq(c[1..], s[1..]) {
        CombinationComplete(s[1..], k - 1, c[1..]);
        var i :| 0 <= i < |withHead| && withHead[i] == c[1..];
        assert front[i] == c;
      } else {
        CombinationComplete(s[1..], k, c);
      }
    }
  }

  /** There are `|s|` choose `k` combinations. */
  lemma {:induction false} CombinationsCount(s: seq<nat>, k: nat)
    ensures |Combinations(s, k)| == Binomial(|s|, k)
    decreases |s|
  {
    if k > 0 && |s| >= k {
      CombinationsCount(s[1..], k - 1);
      CombinationsCount(s[1..], k);
    }
  }

  /** `frozenset([seed] + other)`. */
  function GroupOf(seed: nat, other: seq<nat>): (g: set<nat>)
    ensures seed in g && forall x :: x in other ==> x in g
  {
    {seed} + set x | x in other
  }

  /** The first combination whose group has not been used yet, as a group. */
  function FirstNew(seed: nat, combos: seq<seq<nat>>, used: seq<set<nat>>): (r: Option<set<nat>>)
    ensures r.Some? ==> r.value !in used && exists c :: c in combos && r.value == GroupOf(seed, c)
    ensures r.Some? ==> exists j :: 0 <= j < |combos| && r.value == GroupOf(seed, combos[j]) && AllUsedBefore(seed, combos, used, j)
    ensures r.None? ==> forall c :: c in combos ==> GroupOf(seed, c) in used
  {
    if combos == [] then None
    else if GroupOf(seed, combos[0]) !in used then
      assert AllUsedBefore(seed, combos, used, 0);
      Some(GroupOf(seed, combos[0]))
    else
      var r := FirstNew(seed, combos[1..], used);
      FirstNewStep(seed, combos, used, r);
      r
  }

  /** The groups of the combinations before position `j` are all used already. */
  predicate AllUsedBefore(seed: nat, combos: seq<seq<nat>>, used: seq<set<nat>>, j: nat)
    requires j <= |combos|
  {
    forall i :: 0 <= i < j ==> GroupOf(seed, combos[i]) in used
  }

  /** Skipping a used first combination moves the position of the first new one by one. */
  lemma {:induction false} FirstNewStep(seed: nat, combos: seq<seq<nat>>, used: seq<set<nat>>, r: Option<set<nat>>)
    requires combos != [] && GroupOf(seed, combos[0]) in used
    requires r.Some? ==> exists j :: 0 <= j < |combos[1..]| && r.value == GroupOf(seed, combos[1..][j]) && AllUsedBefore(seed, combos[1..], used, j)
    ensures r.Some? ==> exists j :: 0 <= j < |combos| && r.value == GroupOf(seed, combos[j]) && AllUsedBefore(seed, combos, used, j)
  {
    if r.Some? {
      var j :| 0 <= j < |combos[1..]| && r.value == GroupOf(seed, combos[1..][j]) && AllUsedBefore(seed, combos[1..], used, j);
      assert combos[1..][j] == combos[j + 1];
      forall i | 0 <= i < j + 1 ensures GroupOf(seed, combos[i]) in used {
        if i > 0 {
          assert combos[1..][i - 1] == combos[i];
        }
      }
      assert AllUsedBefore(seed, combos, used, j + 1);
    }
  }

  /** The seeds: the `nOffspring` individuals of lowest mean similarity, least similar first. */
  function Seeds(meanSim: seq<real>, nOffspring: nat): (r: seq<nat>)
    ensures |r| == MinInt(nOffspring, |meanSim|)
    ensures forall i :: 0 <= i < |r| ==> r[i] < |meanSim|
    ensures forall i, j :: 0 <= i < j < |r| ==> r[i] != r[j]
  {
    var order := ArgSort(meanSim);
    ArgSortSpec(meanSim);
    PermutationDistinct(order, |meanSim|);
    order[..if nOffspring < |order| then nOffspring else |order|]
  }

  /**
   * The seeds come in ascending mean similarity, and every individual that is
   * not a seed is at least as similar to the rest as every seed.
   */
  lemma {:induction false} SeedsSpec(meanSim: seq<real>, nOffspring: nat)
    ensures var seeds := Seeds(meanSim, nOffspring);
      && |seeds| == MinInt(nOffspring, |meanSim|)
      && (forall i, j :: 0 <= i < j < |seeds| ==> meanSim[seeds[i]] <= meanSim[seeds[j]])
      && (forall x :: 0 <= x < |meanSim| && x !in seeds ==>
            forall i :: 0 <= i < |seeds| ==> meanSim[seeds[i]] <= meanSim[x])
  {
    var order := ArgSort(meanSim);
    var seeds := Seeds(meanSim, nOffspring);
    ArgSortSpec(meanSim);
    assert seeds == order[..|seeds|];
    LowestPrefix(meanSim, order, |seeds|);
    forall x | 0 <= x < |meanSim| && x !in seeds ensures forall i :: 0 <= i < |seeds| ==> order[i] != x {
      forall i | 0 <= i < |seeds| ensures order[i] != x {
        assert seeds[i] == order[i];
      }
    }
  }

  /** A prefix of the indices sorted by ascending value holds values no larger than any index outside it. */
  lemma LowestPrefix(v: seq<real>, order: seq<nat>, n: nat)
    requires multiset(order) == multiset(Range(|v|)) && n <= |order|
    requires forall i :: 0 <= i < |order| ==> order[i] < |v|
    requires forall i, j :: 0 <= i < j < |order| ==> v[order[i]] <= v[order[j]]
    ensures forall x :: 0 <= x < |v| && (forall i :: 0 <= i < n ==> order[i] != x) ==>
      forall i :: 0 <= i < n ==> v[order[i]] <= v[x]
  {
    forall x | 0 <= x < |v| && (forall i :: 0 <= i < n ==> order[i] != x)
      ensures forall i :: 0 <= i < n ==> v[order[i]] <= v[x]
    {
      RangeMember(order, |v|, x);
      var p :| 0 <= p < |order| && order[p] == x;
      assert p >= n;
      forall i | 0 <= i < n ensures v[order[i]] <= v[x] {
        assert i < p;
      }
    }
  }

  lemma RangeMember(order: seq<nat>, n: nat, x: nat)
    requires multiset(order) == multiset(Range(n)) && x < n
    ensures x in order
  {
    assert Range(n)[x] == x;
    assert x in multiset(Range(n));
  }

  /** Co-parent candidates of a seed: everyone by similarity to the seed, ascending, minus the most similar. */
  function Others(row: seq<real>): (r: seq<nat>)
    ensures |row| == 0 ==> r == []
    ensures |row| > 0 ==> |r| == |row| - 1
    ensures forall x :: x in r ==> x < |row|
    ensures forall i :: 0 <= i < |r| ==> r[i] < |row|
    ensures forall i, j :: 0 <= i < j < |r| ==> r[i] != r[j] && row[r[i]] <= row[r[j]]
    ensures forall x :: 0 <= x < |row| && x !in r ==> forall y :: y in r ==> row[y] <= row[x]
  {
    var order := ArgSort(row);
    ArgSortSpec(row);
    PermutationDistinct(order, |row|);
    if |order| == 0 then [] else
      var r := order[..|order| - 1];
      OthersDropLargest(row, order, r);
      r
  }

  /** Dropping the last index of the ascending order drops one of largest value. */
  lemma {:induction false} OthersDropLargest(row: seq<real>, order: seq<nat>, r: seq<nat>)
    requires |order| == |row| > 0 && r == order[..|order| - 1]
    requires multiset(order) == multiset(Range(|row|))
    requires forall i :: 0 <= i < |order| ==> order[i] < |row|
    requires forall i, j :: 0 <= i < j < |order| ==> row[order[i]] <= row[order[j]]
    ensures forall x :: 0 <= x < |row| && x !in r ==> forall y :: y in r ==> row[y] <= row[x]
  {
    LowestPrefix(row, order, |r|);
    forall x | 0 <= x < |row| && x !in r ensures forall y :: y in r ==> row[y] <= row[x] {
      assert forall i :: 0 <= i < |r| ==> order[i] != x by {
        forall i | 0 <= i < |r| ensures order[i] != x {
          assert r[i] == order[i];
        }
      }
      forall y | y in r ensures row[y] <= row[x] {
        var i :| 0 <= i < |r| && r[i] == y;
        assert order[i] == y;
      }
    }
  }

  /** A parent group and the seed it was formed for. */
  datatype Group = Group(seed: nat, members: set<nat>)

  function MembersOf(groups: seq<Group>): (r: seq<set<nat>>)
    ensures |r| == |groups| && forall i :: 0 <= i < |r| ==> r[i] == groups[i].members
  {
    seq(|groups|, i requires 0 <= i < |groups| => groups[i].members)
  }

  predicate SquareMatrix(sim: seq<seq<real>>, n: nat) {
    |sim| == n && forall i :: 0 <= i < n ==> |sim[i]| == n
  }

  /** `parent_set` after the first `count` seeds were processed, in the order the groups were added. */
  function Groups(seeds: seq<nat>, sim: seq<seq<real>>, nParent: nat, count: nat): seq<Group>
    requires 1 <= nParent && count <= |seeds| && SquareMatrix(sim, |sim|)
    requires forall i :: 0 <= i < |seeds| ==> seeds[i] < |sim|
  {
    if count == 0 then []
    else
      var before := Groups(seeds, sim, nParent, count - 1);
      var seed := seeds[count - 1];
      var found := NextGroup(seed, sim, nParent, MembersOf(before));
      if found.Some? then before + [Group(seed, found.value)] else before
  }

  /**
   * The group a seed adds to `used`: the first of its combinations with
   * `nParent - 1` co-parents whose set is new. A group found is new, holds
   * the seed and at most `nParent` members, all indices of the matrix; none
   * is found only when every combination's group is already used.
   */
  function NextGroup(seed: nat, sim: seq<seq<real>>, nParent: nat, used: seq<set<nat>>): (found: Option<set<nat>>)
    requires 1 <= nParent && SquareMatrix(sim, |sim|) && seed < |sim|
    ensures found.Some? ==>
      && found.value !in used && seed in found.value && |found.value| <= nParent
      && forall x :: x in found.value ==> x < |sim|
    ensures found.None? ==> forall c :: c in Combinations(Others(sim[seed]), nParent - 1) ==> GroupOf(seed, c) in used
  {
    var row := sim[seed];
    assert |row| == |sim|;
    FirstNewGroup(seed, Others(row), nParent - 1, used, |sim|)
  }

  /** `FirstNew` over the `k`-combinations of `others`, with what `FoundGroup` proves about it. */
  function FirstNewGroup(seed: nat, others: seq<nat>, k: nat, used: seq<set<nat>>, n: nat): (found: Option<set<nat>>)
    requires seed < n && forall x :: x in others ==> x < n
    ensures found == FirstNew(seed, Combinations(others, k), used)
    ensures found.Some? ==>
      && found.value !in used && seed in found.value && |found.value| <= k + 1
      && forall x :: x in found.value ==> x < n
    ensures found.None? ==> forall c :: c in Combinations(others, k) ==> GroupOf(seed, c) in used
  {
    FoundGroup(seed, others, k, used, n);
    FirstNew(seed, Combinations(others, k), used)
  }

  /** The group `FirstNew` finds among the `k`-combinations of `others` is new, holds the seed and at most `k` others, all below `n`. */
  lemma {:induction false} FoundGroup(seed: nat, others: seq<nat>, k: nat, used: seq<set<nat>>, n: nat)
    requires seed < n && forall x :: x in others ==> x < n
    ensures var found := FirstNew(seed, Combinations(others, k), used);
      found.Some? ==>
        && found.value !in used && seed in found.value && |found.value| <= k + 1
        && forall x :: x in found.value ==> x < n
  {
    var combos := Combinations(others, k);
    var found := FirstNew(seed, combos, used);
    if found.Some? {
      var c :| c in combos && found.value == GroupOf(seed, c);
      CombinationElements(others, k);
      assert |c| == k && forall x :: x in c ==> x in others;
      GroupBounds(seed, c, n);
    }
  }

  /** A group built from a seed and `|c|` co-parents, all below `n`, has at most `|c| + 1` members, all below `n`. */
  lemma {:induction false} GroupBounds(seed: nat, c: seq<nat>, n: nat)
    requires seed < n && forall x :: x in c ==> x < n
    ensures |GroupOf(seed, c)| <= |c| + 1
    ensures forall x :: x in GroupOf(seed, c) ==> x < n
  {
    GroupSize(seed, c);
    forall x | x in GroupOf(seed, c) ensures x < n {
      if x != seed {
        assert x in c;
      }
    }
  }

  /**
   * At most one group per processed seed; groups are pairwise different as
   * index sets; each group holds its seed, which is one of the first `count`
   * seeds, plus at most `nParent - 1` co-parents, all of them below `n`.
   */
  ghost predicate GroupsOk(gs: seq<Group>, seeds: seq<nat>, count: nat, nParent: nat, n: nat)
    requires count <= |seeds|
  {
    && |gs| <= count
    && (forall i, j :: 0 <= i < j < |gs| ==> gs[i].members != gs[j].members)
    && (forall i :: 0 <= i < |gs| ==> gs[i].seed in gs[i].members && gs[i].seed in seeds[..count])
    && (forall i :: 0 <= i < |gs| ==> |gs[i].members| <= nParent)
    && (forall i, x :: 0 <= i < |gs| && x in gs[i].members ==> x < n)
  }

  /** The groups formed for the seeds satisfy `GroupsOk`. */
  lemma {:induction false} GroupsSpec(seeds: seq<nat>, sim: seq<seq<real>>, nParent: nat, count: nat)
    requires 1 <= nParent && count <= |seeds|
    requires SquareMatrix(sim, |sim|)
    requires forall i :: 0 <= i < |seeds| ==> seeds[i] < |sim|
    ensures GroupsOk(Groups(seeds, sim, nParent, count), seeds, count, nParent, |sim|)
  {
    if count > 0 {
      GroupsSpec(seeds, sim, nParent, count - 1);
      var before := Groups(seeds, sim, nParent, count - 1);
      var seed := seeds[count - 1];
      var found := NextGroup(seed, sim, nParent, MembersOf(before));
      if found.Some? {
        AddGroupOk(before, seed, found.value, seeds, count, nParent, |sim|);
      } else {
        KeepGroupsOk(before, seeds, count, nParent, |sim|);
      }
    }
  }

  /** Adding a new group for the next seed keeps `GroupsOk`. */
  lemma {:induction false} AddGroupOk(before: seq<Group>, seed: nat, m: set<nat>, seeds: seq<nat>, count: nat, nParent: nat, n: nat)
    requires 0 < count <= |seeds| && seed == seeds[count - 1]
    requires GroupsOk(before, seeds, count - 1, nParent, n)
    requires m !in MembersOf(before) && seed in m && |m| <= nParent && forall x :: x in m ==> x < n
    ensures GroupsOk(before + [Group(seed, m)], seeds, count, nParent, n)
  {
    var gs := before + [Group(seed, m)];
    assert forall i :: 0 <= i < count - 1 ==> seeds[..count - 1][i] == seeds[..count][i];
    assert seeds[..count][count - 1] == seed;
    forall i, j | 0 <= i < j < |gs| ensures gs[i].members != gs[j].members {
      if j == |gs| - 1 {
        assert gs[i].members == MembersOf(before)[i];
      } else {
        assert gs[i] == before[i] && gs[j] == before[j];
      }
    }
    forall i | 0 <= i < |gs| ensures gs[i].seed in seeds[..count] {
      if i < |before| {
        assert gs[i] == before[i];
      }
    }
  }

  /** Processing a seed without adding a group keeps `GroupsOk`. */
  lemma {:induction false} KeepGroupsOk(before: seq<Group>, seeds: seq<nat>, count: nat, nParent: nat, n: nat)
    requires 0 < count <= |seeds|
    requires GroupsOk(before, seeds, count - 1, nParent, n)
    ensures GroupsOk(before, seeds, count, nParent, n)
  {
    assert forall i :: 0 <= i < count - 1 ==> seeds[..count - 1][i] == seeds[..count][i];
  }

  lemma {:induction false} GroupSize(seed: nat, other: seq<nat>)
    ensures |GroupOf(seed, other)| <= 1 + |other|
  {
    if other != [] {
      GroupSize(seed, other[1..]);
      assert GroupOf(seed, other) == GroupOf(seed, other[1..]) + {other[0]};
    } else {
      assert GroupOf(seed, other) == {seed};
    }
  }

  /** `[individuals[i] for i in parent_id]`, listing the group's indices in ascending order. */
  function Members(inds: seq<Individual>, g: set<nat>, upTo: nat): (r: seq<Individual>)
    requires upTo <= |inds|
  {
    if upTo == 0 then []
    else Members(inds, g, upTo - 1) + (if upTo - 1 in g then [inds[upTo - 1]] else [])
  }

  /** The indices of `g` below `upTo`, ascending. */
  function IndexList(g: set<nat>, upTo: nat): seq<nat> {
    if upTo == 0 then []
    else IndexList(g, upTo - 1) + (if upTo - 1 in g then [upTo - 1] else [])
  }

  /** Exactly the indices of `g` below `upTo`, each once, ascending. */
  lemma {:induction false} IndexListSpec(g: set<nat>, upTo: nat)
    ensures var l := IndexList(g, upTo);
      && (forall i :: i in l <==> i in g && i < upTo)
      && (forall k :: 0 <= k < |l| ==> l[k] < upTo)
      && (forall a, b :: 0 <= a < b < |l| ==> l[a] < l[b])
  {
    if upTo > 0 {
      IndexListSpec(g, upTo - 1);
      var before := IndexList(g, upTo - 1);
      assert forall k :: 0 <= k < |before| ==> before[k] in before;
    }
  }

  /**
   * The listed parents are the individuals at the group's indices, taken in
   * ascending index order and each index once.
   */
  lemma {:induction false} MembersSpec(inds: seq<Individual>, g: set<nat>, upTo: nat)
    requires upTo <= |inds|
    ensures var l := IndexList(g, upTo);
      && (forall i :: i in l <==> i in g && i < upTo)
      && (forall k :: 0 <= k < |l| ==> l[k] < upTo)
      && (forall a, b :: 0 <= a < b < |l| ==> l[a] < l[b])
      && |Members(inds, g, upTo)| == |l|
      && forall k :: 0 <= k < |l| ==> Members(inds, g, upTo)[k] == inds[l[k]]
  {
    IndexListSpec(g, upTo);
    if upTo > 0 {
      MembersSpec(inds, g, upTo - 1);
    }
  }

  /** The query built for one parent group: qid 0 and a fresh offspring. */
  function QueryFor(inds: seq<Individual>, g: Group, freshId: Id): (q: QueryItem)
    ensures q.qid == 0.0 && q.offspring == Some(NewIndividual(freshId))
    ensures q.generation == None && q.kind == None && !q.isInitialized
    ensures q.parent == Members(inds, g.members, |inds|)
  {
    NewQueryItem(Some(0.0), 0.0, Members(inds, g.members, |inds|), Some(NewIndividual(freshId)))
  }

  /**
   * `max_divese_desc_get_parent_fn(individuals, n_parent, n_offspring)`.
   * `meanSim` and `sim` are the mean and pairwise description similarities
   * (computed outside the model); `freshIds` are the random ids the new
   * offspring receive.
   */
  method MaxDiverseGetParents(inds: seq<Individual>, nParent: nat, nOffspring: nat,
                              meanSim: seq<real>, sim: seq<seq<real>>, freshIds: seq<Id>)
    returns (items: seq<QueryItem>)
    requires 1 <= nParent
    requires |meanSim| == |inds| && SquareMatrix(sim, |inds|)
    requires |freshIds| >= nOffspring
    ensures var seeds := Seeds(meanSim, nOffspring);
      var gs := Groups(seeds, sim, nParent, |seeds|);
      && |items| == |gs| <= nOffspring
      && forall k :: 0 <= k < |items| ==> items[k] == QueryFor(inds, gs[k], freshIds[k])
  {
    var seeds := Seeds(meanSim, nOffspring);
    var parentSet := CollectGroups(seeds, sim, nParent);
    GroupsSpec(seeds, sim, nParent, |seeds|);
    items := BuildItems(inds, parentSet, freshIds);
  }

  /** The outer loop over the seeds, filling `parent_set`. */
  method CollectGroups(seeds: seq<nat>, sim: seq<seq<real>>, nParent: nat) returns (parentSet: seq<Group>)
    requires 1 <= nParent && SquareMatrix(sim, |sim|)
    requires forall i :: 0 <= i < |seeds| ==> seeds[i] < |sim|
    ensures parentSet == Groups(seeds, sim, nParent, |seeds|)
  {
    parentSet := [];
    for s := 0 to |seeds|
      invariant parentSet == Groups(seeds, sim, nParent, s)
    {
      var seed := seeds[s];
      var others := Others(sim[seed]);
      var combos := Combinations(others, nParent - 1);
      parentSet := AddFirstNew(seed, combos, parentSet);
    }
  }

  /** The loop that turns each group into a query item for a fresh offspring. */
  method BuildItems(inds: seq<Individual>, parentSet: seq<Group>, freshIds: seq<Id>) returns (items: seq<QueryItem>)
    requires |freshIds| >= |parentSet|
    ensures |items| == |parentSet|
    ensures forall k :: 0 <= k < |items| ==> items[k] == QueryFor(inds, parentSet[k], freshIds[k])
  {
    items := [];
    for k := 0 to |parentSet|
      invariant |items| == k
      invariant forall i :: 0 <= i < k ==> items[i] == QueryFor(inds, parentSet[i], freshIds[i])
    {
      var parent := ParentsOf(inds, parentSet[k].members);
      var item := NewQueryItem(None, 0.0, parent, Some(NewIndividual(freshIds[k])));
      item := item.(qid := 0.0);
      assert item == QueryFor(inds, parentSet[k], freshIds[k]);
      items := items + [item];
    }
  }

  /** The inner loop: add the group of the first combination whose set is new, then stop. */
  method AddFirstNew(seed: nat, combos: seq<seq<nat>>, parentSet: seq<Group>) returns (r: seq<Group>)
    ensures var found := FirstNew(seed, combos, MembersOf(parentSet));
      r == if found.Some? then parentSet + [Group(seed, found.value)] else parentSet
  {
    r := parentSet;
    var j := 0;
    while j < |combos|
      invariant j <= |combos|
      invariant FirstNew(seed, combos, MembersOf(parentSet)) == FirstNew(seed, combos[j..], MembersOf(parentSet))
    {
      var checkSet := GroupOf(seed, combos[j]);
      if checkSet !in MembersOf(parentSet) {
        r := parentSet + [Group(seed, checkSet)];
        return;
      }
      assert combos[j..][1..] == combos[j + 1..];
      j := j + 1;
    }
  }

  /** The loop that lists a group's individuals. */
  method ParentsOf(inds: seq<Individual>, g: set<nat>) returns (parent: seq<Individual>)
    ensures parent == Members(inds, g, |inds|)
  {
    parent := [];
    for i := 0 to |inds|
      invariant parent == Members(inds, g, i)
    {
      if i in g {
        parent := parent + [inds[i]];
      }
    }
  }
}
