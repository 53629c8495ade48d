/**
 * The individual log store (`IndividualLogger`): every logged individual by
 * id, in the order first logged, plus the logged experiments, with filters
 * for successful and failed individuals, metadata-key renaming and merging.
 */
module IndividualLog {
  import opened Wrappers
  import opened Text
  import opened Population

  /** A stored entry: an individual, or a dictionary left over from an older log format. */
  datatype Entry = Record(ind: Individual) | Legacy

  /** `{"id": exp_id, "name": name, "id_list": id_list}`. */
  datatype Experiment = Experiment(id: string, name: string, idList: seq<Id>)

  const DeprecatedKey: string := "deprecated"
  const ErrorTypeKey: string := "error_type"

  predicate Distinct<T(==)>(s: seq<T>) {
    forall i, j :: 0 <= i < j < |s| ==> s[i] != s[j]
  }

  /** The keys in insertion order are exactly the map's keys, each once. */
  ghost predicate Ordered<V>(order: seq<Id>, m: map<Id, V>) {
    Distinct(order) && forall k :: k in m <==> k in order
  }

  // ------------------------------------------------------------ filters

  predicate Eligible(e: Entry) {
    e.Record? && DeprecatedKey !in e.ind.metadata
  }

  predicate Succeeded(e: Entry) {
    Eligible(e) && e.ind.error.None?
  }

  predicate Failed(e: Entry) {
    Eligible(e) && e.ind.error.Some?
  }

  /** The individuals, in map order, whose entry passes `p`. */
  function Select(keys: seq<Id>, m: map<Id, Entry>, p: Entry -> bool): (r: seq<Individual>)
    requires forall k :: k in keys ==> k in m
    ensures |r| <= |keys|
  {
    if keys == [] then []
    else
      var last := keys[|keys| - 1];
      Select(keys[..|keys| - 1], m, p) + (if m[last].Record? && p(m[last]) then [m[last].ind] else [])
  }

  function SuccessfulOf(keys: seq<Id>, m: map<Id, Entry>): seq<Individual>
    requires forall k :: k in keys ==> k in m
  {
    Select(keys, m, Succeeded)
  }

  function FailedOf(keys: seq<Id>, m: map<Id, Entry>): seq<Individual>
    requires forall k :: k in keys ==> k in m
  {
    Select(keys, m, Failed)
  }

  function EligibleOf(keys: seq<Id>, m: map<Id, Entry>): seq<Individual>
    requires forall k :: k in keys ==> k in m
  {
    Select(keys, m, Eligible)
  }

  /** Whatever `p` guarantees of an entry holds for every individual selected by `p`. */
  lemma {:induction false} SelectHolds(keys: seq<Id>, m: map<Id, Entry>, p: Entry -> bool, q: Individual -> bool)
    requires forall k :: k in keys ==> k in m
    requires forall k :: k in keys && m[k].Record? && p(m[k]) ==> q(m[k].ind)
    ensures forall x :: x in Select(keys, m, p) ==> q(x)
  {
    if keys != [] {
      var front := keys[..|keys| - 1];
      assert forall k :: k in front ==> k in keys;
      SelectHolds(front, m, p, q);
    }
  }

  /** Selecting by a stronger condition selects a sub-multiset. */
  lemma {:induction false} SelectMonotone(keys: seq<Id>, m: map<Id, Entry>, p: Entry -> bool, q: Entry -> bool)
    requires forall k :: k in keys ==> k in m
    requires forall k :: k in keys && q(m[k]) ==> p(m[k])
    ensures multiset(Select(keys, m, q)) <= multiset(Select(keys, m, p))
  {
    if keys != [] {
      var front := keys[..|keys| - 1];
      assert forall k :: k in front ==> k in keys;
      SelectMonotone(front, m, p, q);
    }
  }

  /**
   * Every eligible record (a current-format, non-deprecated individual) is
   * either successful or failed and not both: together the two filters give
   * the eligible individuals, each exactly as often.
   */
  lemma {:induction false} SuccessfulFailedPartition(keys: seq<Id>, m: map<Id, Entry>)
    requires forall k :: k in keys ==> k in m
    ensures multiset(SuccessfulOf(keys, m)) + multiset(FailedOf(keys, m)) == multiset(EligibleOf(keys, m))
  {
    if keys != [] {
      var front := keys[..|keys| - 1];
      assert forall k :: k in front ==> k in keys;
      SuccessfulFailedPartition(front, m);
      SelectLast(keys, m, Succeeded);
      SelectLast(keys, m, Failed);
      SelectLast(keys, m, Eligible);
      var e := m[keys[|keys| - 1]];
      PickedSplit(e);
      AddParts(SuccessfulOf(front, m), FailedOf(front, m), EligibleOf(front, m),
               Picked(e, Succeeded), Picked(e, Failed), Picked(e, Eligible));
    }
  }

  /** The individual of an entry, once, when the entry passes `p`. */
  function Picked(e: Entry, p: Entry -> bool): multiset<Individual> {
    if e.Record? && p(e) then multiset{e.ind} else multiset{}
  }

  lemma PickedSplit(e: Entry)
    ensures Picked(e, Succeeded) + Picked(e, Failed) == Picked(e, Eligible)
  {
  }

  /** Adding the two parts of a split to the two parts of a split gives the two wholes summed. */
  lemma AddParts(s: seq<Individual>, f: seq<Individual>, g: seq<Individual>,
                 a: multiset<Individual>, b: multiset<Individual>, c: multiset<Individual>)
    requires multiset(s) + multiset(f) == multiset(g) && a + b == c
    ensures (multiset(s) + a) + (multiset(f) + b) == multiset(g) + c
  {
  }

  /** The multiset of a selection grows by the last key's individual exactly when that key passes. */
  lemma SelectLast(keys: seq<Id>, m: map<Id, Entry>, p: Entry -> bool)
    requires keys != [] && forall k :: k in keys ==> k in m
    ensures multiset(Select(keys, m, p)) == multiset(Select(keys[..|keys| - 1], m, p)) + Picked(m[keys[|keys| - 1]], p)
  {
  }

  /** Successful individuals have no error, failed ones have one, and neither is deprecated. */
  lemma {:induction false} FilterMembers(keys: seq<Id>, m: map<Id, Entry>)
    requires forall k :: k in keys ==> k in m
    ensures forall x :: x in SuccessfulOf(keys, m) ==> x.error.None? && DeprecatedKey !in x.metadata
    ensures forall x :: x in FailedOf(keys, m) ==> x.error.Some? && DeprecatedKey !in x.metadata
  {
    SelectHolds(keys, m, Succeeded, (x: Individual) => x.error.None? && DeprecatedKey !in x.metadata);
    SelectHolds(keys, m, Failed, (x: Individual) => x.error.Some? && DeprecatedKey !in x.metadata);
  }

  /**
   * `get_failed_individuals(error_type)`: the failed individuals, restricted
   * to those whose "error_type" metadata equals `errorType` when one is
   * given. None stands for the KeyError raised when a failed individual has
   * no "error_type" entry.
   */
  function FailedWithType(keys: seq<Id>, m: map<Id, Entry>, errorType: Option<string>): (r: Option<seq<Individual>>)
    requires forall k :: k in keys ==> k in m
  {
    if keys == [] then Some([])
    else
      var last := keys[|keys| - 1];
      var before := FailedWithType(keys[..|keys| - 1], m, errorType);
      if before.None? then None
      else if !Failed(m[last]) then before
      else if errorType.None? then Some(before.value + [m[last].ind])
      else if ErrorTypeKey !in m[last].ind.metadata then None
      else if m[last].ind.metadata[ErrorTypeKey] == Str(errorType.value) then Some(before.value + [m[last].ind])
      else before
  }

  /** A failed entry whose "error_type" is `t`. */
  function FailedOfType(t: string): Entry -> bool {
    e => Failed(e) && ErrorTypeKey in e.ind.metadata && e.ind.metadata[ErrorTypeKey] == Str(t)
  }

  /** Without a type the result is all failed individuals. */
  lemma {:induction false} FailedWithoutType(keys: seq<Id>, m: map<Id, Entry>)
    requires forall k :: k in keys ==> k in m
    ensures FailedWithType(keys, m, None) == Some(FailedOf(keys, m))
  {
    if keys != [] {
      var front := keys[..|keys| - 1];
      assert forall k :: k in front ==> k in keys;
      FailedWithoutType(front, m);
      var e := m[keys[|keys| - 1]];
      assert FailedOf(keys, m) == FailedOf(front, m) + (if e.Record? && Failed(e) then [e.ind] else []);
      if Failed(e) {
        assert FailedWithType(keys, m, None) == Some(FailedOf(front, m) + [e.ind]);
      } else {
        assert FailedOf(keys, m) == FailedOf(front, m) + [];
        assert FailedOf(front, m) + [] == FailedOf(front, m);
      }
    }
  }

  /**
   * With a type the result is an error exactly when some failed individual
   * lacks "error_type", and otherwise the failed individuals of that type: a
   * sub-multiset of all failed ones.
   */
  lemma {:induction false} FailedWithTypeSpec(keys: seq<Id>, m: map<Id, Entry>, t: string)
    requires forall k :: k in keys ==> k in m
    ensures FailedWithType(keys, m, Some(t)).None? <==>
      exists k :: k in keys && Failed(m[k]) && ErrorTypeKey !in m[k].ind.metadata
    ensures FailedWithType(keys, m, Some(t)).Some? ==>
      FailedWithType(keys, m, Some(t)).value == Select(keys, m, FailedOfType(t))
  {
    if keys != [] {
      var front := keys[..|keys| - 1];
      var last := keys[|keys| - 1];
      assert forall k :: k in front ==> k in keys;
      FailedWithTypeSpec(front, m, t);
      var missing := exists k :: k in front && Failed(m[k]) && ErrorTypeKey !in m[k].ind.metadata;
      if !missing && Failed(m[last]) && ErrorTypeKey !in m[last].ind.metadata {
        assert last in keys;
      }
      if (exists k :: k in keys && Failed(m[k]) && ErrorTypeKey !in m[k].ind.metadata) && !missing {
        var k :| k in keys && Failed(m[k]) && ErrorTypeKey !in m[k].ind.metadata;
        assert k !in front;
        assert k == last;
      }
    }
  }

  /** The typed failures are among all failures. */
  lemma {:induction false} FailedOfTypeIncluded(keys: seq<Id>, m: map<Id, Entry>, t: string)
    requires forall k :: k in keys ==> k in m
    ensures multiset(Select(keys, m, FailedOfType(t))) <= multiset(FailedOf(keys, m))
  {
    SelectMonotone(keys, m, Failed, FailedOfType(t));
  }

  // ------------------------------------------------------- metadata keys

  /** One individual's metadata after `replace_metadata_key(old, new)`. */
  function Rekey(md: map<string, Meta>, oldKey: string, newKey: string): map<string, Meta> {
    if oldKey in md then md[newKey := md[oldKey]] - {oldKey} else md
  }

  /**
   * With two different keys, the value under the old key moves to the new
   * key, the old key disappears and every other entry stays; metadata
   * without the old key is untouched.
   */
  lemma RekeySpec(md: map<string, Meta>, oldKey: string, newKey: string)
    requires oldKey != newKey
    ensures var r := Rekey(md, oldKey, newKey);
      && (oldKey in md ==> newKey in r && r[newKey] == md[oldKey] && oldKey !in r)
      && (oldKey in md ==> r.Keys == md.Keys - {oldKey} + {newKey})
      && (forall k :: k in md && k != oldKey && k != newKey ==> k in r && r[k] == md[k])
      && (oldKey !in md ==> r == md)
  {
  }

  /** Renaming a key to itself deletes it: the copy is made before the deletion. */
  lemma RekeySameKeyDeletes(md: map<string, Meta>, key: string)
    requires key in md
    ensures Rekey(md, key, key) == md - {key}
  {
  }

  function RekeyEntry(e: Entry, oldKey: string, newKey: string): Entry
    requires e.Record?
  {
    Record(e.ind.(metadata := Rekey(e.ind.metadata, oldKey, newKey)))
  }

  // ---------------------------------------------------------------- merge

  /** The content of one loaded log. */
  datatype LogData = LogData(order: seq<Id>, individuals: map<Id, Entry>, experiments: map<string, Experiment>)

  /** `dict.update` on the key order: new keys are appended in the other map's order. */
  function AppendNew(order: seq<Id>, other: seq<Id>, present: set<Id>): (r: seq<Id>)
    ensures forall k :: k in r <==> k in order || (k in other && k !in present)
  {
    if other == [] then order
    else
      var last := other[|other| - 1];
      var r := AppendNew(order, other[..|other| - 1], present);
      assert forall k :: k in other[..|other| - 1] ==> k in other;
      if last in present || last in r then r else r + [last]
  }

  lemma {:induction false} AppendNewDistinct(order: seq<Id>, other: seq<Id>, present: set<Id>)
    requires Distinct(order)
    ensures Distinct(AppendNew(order, other, present))
  {
    if other != [] {
      AppendNewDistinct(order, other[..|other| - 1], present);
    }
  }

  /** The maps of a sequence of logs, merged left to right: a later log overrides an earlier one. */
  function MergedIndividuals(logs: seq<LogData>): map<Id, Entry> {
    if logs == [] then map[] else MergedIndividuals(logs[..|logs| - 1]) + logs[|logs| - 1].individuals
  }

  function MergedExperiments(logs: seq<LogData>): map<string, Experiment> {
    if logs == [] then map[] else MergedExperiments(logs[..|logs| - 1]) + logs[|logs| - 1].experiments
  }

  function MergedOrder(logs: seq<LogData>): seq<Id> {
    if logs == [] then []
    else
      var before := logs[..|logs| - 1];
      AppendNew(MergedOrder(before), logs[|logs| - 1].order, MergedIndividuals(before).Keys)
  }

  /** The merged map holds exactly the keys of all logs. */
  lemma {:induction false} MergedKeys(logs: seq<LogData>, k: Id)
    ensures k in MergedIndividuals(logs) <==> exists i :: 0 <= i < |logs| && k in logs[i].individuals
  {
    if logs != [] {
      var before := logs[..|logs| - 1];
      MergedKeys(before, k);
      if exists i :: 0 <= i < |logs| && k in logs[i].individuals {
        var i :| 0 <= i < |logs| && k in logs[i].individuals;
        if i < |logs| - 1 {
          assert before[i] == logs[i];
        }
      }
      if exists i :: 0 <= i < |before| && k in before[i].individuals {
        var i :| 0 <= i < |before| && k in before[i].individuals;
        assert before[i] == logs[i];
      }
    }
  }

  /** A key maps to its entry in the last log that has it. */
  lemma {:induction false} MergedLastWins(logs: seq<LogData>, k: Id, i: nat)
    requires i < |logs| && k in logs[i].individuals
    requires forall j :: i < j < |logs| ==> k !in logs[j].individuals
    ensures k in MergedIndividuals(logs) && MergedIndividuals(logs)[k] == logs[i].individuals[k]
  {
    if i < |logs| - 1 {
      var before := logs[..|logs| - 1];
      assert before[i] == logs[i];
      MergedLastWins(before, k, i);
    }
  }

  lemma {:induction false} MergedOrderSpec(logs: seq<LogData>)
    requires forall i :: 0 <= i < |logs| ==> Ordered(logs[i].order, logs[i].individuals)
    ensures Ordered(MergedOrder(logs), MergedIndividuals(logs))
  {
    if logs != [] {
      var before := logs[..|logs| - 1];
      assert forall i :: 0 <= i < |before| ==> before[i] == logs[i];
      MergedOrderSpec(before);
      AppendNewDistinct(MergedOrder(before), logs[|logs| - 1].order, MergedIndividuals(before).Keys);
    }
  }

  // --------------------------------------------------------------- logger

  class IndividualLogger {
    var order: seq<Id>
    var individuals: map<Id, Entry>
    var experiments: map<string, Experiment>
    var fileName: Option<string>
    var dirname: string

    ghost predicate Valid()
      reads this
    {
      Ordered(order, individuals)
    }

    constructor()
      ensures Valid()
      ensures order == [] && individuals == map[] && experiments == map[]
      ensures fileName == Some("individual_set") && dirname == "logs"
    {
      order := [];
      individuals := map[];
      experiments := map[];
      fileName := Some("individual_set");
      dirname := "logs";
    }

    /** The `file_name` setter: None stays None, a name is made safe for the file system. */
    method SetFileName(value: Option<string>)
      modifies this`fileName
      ensures value.None? ==> fileName.None?
      ensures value.Some? ==> fileName == Some(SafeName(value.value))
    {
      var newValue := value;
      if value.Some? {
        var v := ReplaceAll(value.value, " ", "");
        v := ReplaceAll(v, ":", "_");
        v := ReplaceAll(v, "/", "_");
        newValue := Some(v);
      }
      fileName := newValue;
    }

    /** `log_individual`: stores (or replaces) the individual under its id. */
    method LogIndividual(ind: Individual)
      requires Valid()
      modifies this`order, this`individuals
      ensures Valid()
      ensures individuals == old(individuals)[ind.id := Record(ind)]
      ensures order == old(order) + (if ind.id in old(individuals) then [] else [ind.id])
      ensures GetIndividual(ind.id) == Some(Record(ind))
    {
      if ind.id !in individuals {
        order := order + [ind.id];
      }
      individuals := individuals[ind.id := Record(ind)];
    }

    /** `get_individual`: the stored entry, or None for an unknown id. */
    function GetIndividual(id: Id): (r: Option<Entry>)
      reads this
      ensures r.None? <==> id !in individuals
      ensures r.Some? ==> r.value == individuals[id]
    {
      if id in individuals then Some(individuals[id]) else None
    }

    /** `log_experiment`: records the experiment under a fresh id (`expId`, random in the source). */
    method LogExperiment(name: string, idList: seq<Id>, expId: string)
      modifies this`experiments
      ensures experiments == old(experiments)[expId := Experiment(expId, name, idList)]
      ensures GetExperiment(expId) == Some(Experiment(expId, name, idList))
    {
      experiments := experiments[expId := Experiment(expId, name, idList)];
    }

    function GetExperiment(expId: string): (r: Option<Experiment>)
      reads this
      ensures r.None? <==> expId !in experiments
      ensures r.Some? ==> r.value == experiments[expId]
    {
      if expId in experiments then Some(experiments[expId]) else None
    }

    /** `get_successful_individuals`: current-format, non-deprecated individuals without an error, in map order. */
    method GetSuccessfulIndividuals() returns (r: seq<Individual>)
      requires Valid()
      ensures r == SuccessfulOf(order, individuals)
    {
      r := [];
      for i := 0 to |order|
        invariant r == SuccessfulOf(order[..i], individuals)
      {
        var e := individuals[order[i]];
        if e.Record? && e.ind.error.None? && DeprecatedKey !in e.ind.metadata {
          r := r + [e.ind];
        }
        assert order[..i + 1][..i] == order[..i];
      }
      assert order[..|order|] == order;
    }

    /** `get_failed_individuals(error_type)`; None is the KeyError of a failed individual without "error_type". */
    method GetFailedIndividuals(errorType: Option<string>) returns (r: Option<seq<Individual>>)
      requires Valid()
      ensures r == FailedWithType(order, individuals, errorType)
    {
      var failed: seq<Individual> := [];
      for i := 0 to |order|
        invariant FailedWithType(order[..i], individuals, errorType) == Some(failed)
      {
        assert order[..i + 1][..i] == order[..i];
        var e := individuals[order[i]];
        if e.Legacy? {
          continue;
        }
        if e.ind.error.None? || DeprecatedKey in e.ind.metadata {
          continue;
        }
        if errorType.Some? && ErrorTypeKey !in e.ind.metadata {
          assert FailedWithType(order[..i + 1], individuals, errorType).None?;
          NoneStaysNone(order, individuals, errorType, i + 1);
          assert order[..|order|] == order;
          return None;
        }
        if errorType.None? || e.ind.metadata[ErrorTypeKey] == Str(errorType.value) {
          failed := failed + [e.ind];
        }
      }
      assert order[..|order|] == order;
      r := Some(failed);
    }

    /** `replace_metadata_key`: renames a metadata key in every stored individual, in place. */
    method ReplaceMetadataKey(oldKey: string, newKey: string)
      requires Valid()
      requires forall k :: k in individuals ==> individuals[k].Record?
      modifies this`individuals
      ensures Valid()
      ensures individuals.Keys == old(individuals).Keys
      ensures forall k :: k in individuals ==> individuals[k] == RekeyEntry(old(individuals)[k], oldKey, newKey)
    {
      ghost var before := individuals;
      for i := 0 to |order|
        invariant individuals.Keys == before.Keys
        invariant forall j :: 0 <= j < i ==> individuals[order[j]] == RekeyEntry(before[order[j]], oldKey, newKey)
        invariant forall j :: i <= j < |order| ==> individuals[order[j]] == before[order[j]]
      {
        var e := individuals[order[i]];
        assert e == before[order[i]];
        if oldKey in e.ind.metadata {
          var md := e.ind.metadata[newKey := e.ind.metadata[oldKey]];
          md := md - {oldKey};
          individuals := individuals[order[i] := Record(e.ind.(metadata := md))];
        }
        assert individuals[order[i]] == RekeyEntry(before[order[i]], oldKey, newKey);
        assert forall j :: 0 <= j < |order| && j != i ==> order[j] != order[i];
      }
      forall k | k in individuals ensures individuals[k] == RekeyEntry(before[k], oldKey, newKey) {
        var j :| 0 <= j < |order| && order[j] == k;
      }
    }

    /** The update step of `merge_logs`: every loaded log, in turn, updates this logger's maps. */
    method MergeLogs(logs: seq<LogData>)
      requires order == [] && individuals == map[] && experiments == map[]
      requires forall i :: 0 <= i < |logs| ==> Ordered(logs[i].order, logs[i].individuals)
      modifies this`order, this`individuals, this`experiments
      ensures Valid()
      ensures individuals == MergedIndividuals(logs)
      ensures experiments == MergedExperiments(logs)
      ensures order == MergedOrder(logs)
    {
      for i := 0 to |logs|
        invariant individuals == MergedIndividuals(logs[..i])
        invariant experiments == MergedExperiments(logs[..i])
        invariant order == MergedOrder(logs[..i])
      {
        assert logs[..i + 1][..i] == logs[..i];
        assert logs[..i + 1][i] == logs[i];
        order := AppendNew(order, logs[i].order, individuals.Keys);
        individuals := individuals + logs[i].individuals;
        experiments := experiments + logs[i].experiments;
      }
      assert logs[..|logs|] == logs;
      MergedOrderSpec(logs);
    }
  }

  /** Once the filter has failed on a prefix it fails on every longer prefix. */
  lemma {:induction false} NoneStaysNone(keys: seq<Id>, m: map<Id, Entry>, errorType: Option<string>, n: nat)
    requires forall k :: k in keys ==> k in m
    requires n <= |keys| && FailedWithType(keys[..n], m, errorType).None?
    ensures FailedWithType(keys, m, errorType).None?
    decreases |keys| - n
  {
    if n < |keys| {
      assert keys[..n + 1][..n] == keys[..n];
      NoneStaysNone(keys, m, errorType, n + 1);
    } else {
      assert keys[..n] == keys;
    }
  }
}
