/** `CoronaData` and `CoronaData.CoronaEntry`: per-region case counts keyed by
    region name, and the totals and region counts derived from them. */
module Corona {
  import opened Wrappers

  datatype EntryType = Country | Other

  /** One region's row of the statistics table. */
  datatype CoronaEntry = CoronaEntry(entryType: EntryType, name: string,
                                     cases: int, deaths: int, recovered: int, serious: int)

  /** `CoronaEntry.Active`: cases neither fatal nor recovered. */
  function Active(e: CoronaEntry): int
  {
    e.cases - e.deaths - e.recovered
  }

  /** The integer properties shared by an entry and the aggregate (`ICoronaEntry`). */
  datatype Field = Cases | Deaths | Recovered | Serious | ActiveCases

  function FieldOf(e: CoronaEntry, f: Field): int
  {
    match f
    case Cases => e.cases
    case Deaths => e.deaths
    case Recovered => e.recovered
    case Serious => e.serious
    case ActiveCases => Active(e)
  }

  /** `CoronaData.Entries`, a dictionary keyed by region name. */
  datatype CoronaData = CoronaData(entries: map<string, CoronaEntry>)

  /** The sum of one field over every entry of the dictionary, each key once. */
  ghost function Total(entries: map<string, CoronaEntry>, f: Field): int
    decreases |entries|
  {
    if entries == map[] then 0
    else
      var k :| k in entries;
      assert (entries - {k}).Keys == entries.Keys - {k};
      FieldOf(entries[k], f) + Total(entries - {k}, f)
  }

  /** The sum does not depend on which key it takes first. */
  lemma {:induction false} TotalRemove(entries: map<string, CoronaEntry>, k: string, f: Field)
    requires k in entries
    ensures Total(entries, f) == FieldOf(entries[k], f) + Total(entries - {k}, f)
    decreases |entries|
  {
    var j :| j in entries && Total(entries, f) == FieldOf(entries[j], f) + Total(entries - {j}, f);
    if j != k {
      assert (entries - {j}).Keys == entries.Keys - {j};
      assert (entries - {k}).Keys == entries.Keys - {k};
      TotalRemove(entries - {j}, k, f);
      TotalRemove(entries - {k}, j, f);
      assert entries - {j} - {k} == entries - {k} - {j};
    }
  }

  /** A region under a new name adds exactly its own value to a total. */
  lemma TotalInsert(entries: map<string, CoronaEntry>, name: string, e: CoronaEntry, f: Field)
    requires name !in entries
    ensures Total(entries[name := e], f) == Total(entries, f) + FieldOf(e, f)
  {
    TotalRemove(entries[name := e], name, f);
    assert entries[name := e] - {name} == entries;
  }

  /** A total as LINQ's `Sum` computes it: the field summed over the regions in
      the dictionary's enumeration order. */
  function SumInOrder(entries: map<string, CoronaEntry>, order: seq<string>, f: Field): int
    requires forall i :: 0 <= i < |order| ==> order[i] in entries
  {
    if |order| == 0 then 0 else FieldOf(entries[order[0]], f) + SumInOrder(entries, order[1..], f)
  }

  /** `order` enumerates the keys of `entries`, each exactly once. */
  ghost predicate Enumerates(order: seq<string>, entries: map<string, CoronaEntry>)
  {
    && (forall i, j :: 0 <= i < j < |order| ==> order[i] != order[j])
    && (forall k :: k in entries <==> k in order)
  }

  lemma {:induction false} SumInOrderRestrict(entries: map<string, CoronaEntry>, k: string, order: seq<string>, f: Field)
    requires k !in order
    requires forall i :: 0 <= i < |order| ==> order[i] in entries
    ensures forall i :: 0 <= i < |order| ==> order[i] in entries - {k}
    ensures SumInOrder(entries - {k}, order, f) == SumInOrder(entries, order, f)
  {
    if |order| > 0 {
      SumInOrderRestrict(entries, k, order[1..], f);
    }
  }

  /** Whatever order the dictionary enumerates its values in, their sum is the total. */
  lemma {:induction false} SumInOrderIsTotal(entries: map<string, CoronaEntry>, order: seq<string>, f: Field)
    requires Enumerates(order, entries)
    ensures forall i :: 0 <= i < |order| ==> order[i] in entries
    ensures SumInOrder(entries, order, f) == Total(entries, f)
    decreases |order|
  {
    if |order| == 0 {
      assert entries.Keys == {};
    } else {
      var k := order[0];
      var rest := order[1..];
      assert k !in rest;
      assert forall i :: 0 <= i < |order| ==> order[i] in order;
      SumInOrderRestrict(entries, k, rest, f);
      forall x
        ensures x in entries - {k} <==> x in rest
      {
        if x in order && x != k {
          var i :| 0 <= i < |order| && order[i] == x;
          assert i > 0 && rest[i - 1] == x;
        }
      }
      SumInOrderIsTotal(entries - {k}, rest, f);
      TotalRemove(entries, k, f);
    }
  }

  /** The aggregate properties `Cases`, `Deaths`, `Recovered`, `Serious` and `Active`. */
  ghost function TotalOf(d: CoronaData, f: Field): int
  {
    Total(d.entries, f)
  }

  /** `CoronaData.Mild`: active cases that are not serious. */
  ghost function Mild(d: CoronaData): int
  {
    TotalOf(d, ActiveCases) - TotalOf(d, Serious)
  }

  /** Summing each entry's `Active` is the same as combining the summed totals:
      aggregate Active = Cases - Deaths - Recovered. */
  lemma {:induction false} ActiveTotalIsLinear(entries: map<string, CoronaEntry>)
    ensures Total(entries, ActiveCases) ==
              Total(entries, Cases) - Total(entries, Deaths) - Total(entries, Recovered)
    decreases |entries|
  {
    if entries != map[] {
      var k :| k in entries;
      assert (entries - {k}).Keys == entries.Keys - {k};
      TotalRemove(entries, k, ActiveCases);
      TotalRemove(entries, k, Cases);
      TotalRemove(entries, k, Deaths);
      TotalRemove(entries, k, Recovered);
      ActiveTotalIsLinear(entries - {k});
    }
  }

  /** Mild = Cases - Deaths - Recovered - Serious over the whole table. */
  lemma MildIsUnaccountedCases(d: CoronaData)
    ensures Mild(d) == TotalOf(d, Cases) - TotalOf(d, Deaths) - TotalOf(d, Recovered) - TotalOf(d, Serious)
  {
    ActiveTotalIsLinear(d.entries);
  }

  /** Where a region stands: cases still active, none active, or more deaths
      and recoveries recorded than cases. */
  datatype Standing = StillActive | NoneActive | Overcounted

  function StandingOf(e: CoronaEntry): Standing
  {
    if Active(e) > 0 then StillActive else if Active(e) == 0 then NoneActive else Overcounted
  }

  /** The names of the regions with the given standing. */
  function RegionsIn(d: CoronaData, s: Standing): set<string>
  {
    set k | k in d.entries && StandingOf(d.entries[k]) == s
  }

  /** `CoronaData.RegionsActive`: the number of regions with `Active > 0`. */
  function RegionsActive(d: CoronaData): (n: nat)
    ensures n <= |d.entries|
  {
    SubsetSize(RegionsIn(d, StillActive), d.entries.Keys);
    |RegionsIn(d, StillActive)|
  }

  /** `CoronaData.RegionsRecovered`: the number of regions with `Active == 0`. */
  function RegionsRecovered(d: CoronaData): (n: nat)
    ensures n <= |d.entries|
  {
    SubsetSize(RegionsIn(d, NoneActive), d.entries.Keys);
    |RegionsIn(d, NoneActive)|
  }

  lemma SubsetSize<T>(a: set<T>, b: set<T>)
    requires a <= b
    ensures |a| <= |b|
  {
    assert b == a + (b - a);
  }

  /** Every region is active, recovered or negative, and exactly one of them:
      the two counts together never exceed the number of regions, and fall
      short of it by the number of regions with negative `Active`. */
  lemma RegionCountsPartition(d: CoronaData)
    ensures RegionsActive(d) + RegionsRecovered(d) + |RegionsIn(d, Overcounted)| == |d.entries|
    ensures RegionsActive(d) + RegionsRecovered(d) <= |d.entries|
  {
    var pos, zero, neg := RegionsIn(d, StillActive), RegionsIn(d, NoneActive), RegionsIn(d, Overcounted);
    assert d.entries.Keys == pos + zero + neg;
    assert pos * zero == {} && (pos + zero) * neg == {};
  }

  /** The error `Dictionary.Add` throws for a key already present. */
  datatype AddError = DuplicateRegion(name: string)

  /** `Entries.Add(entry.Name, entry)`: a new region raises every total by exactly
      its own value and the matching region count by one; a name already
      present is refused and the table is left as it was. */
  function AddEntry(d: CoronaData, e: CoronaEntry): (r: Result<CoronaData, AddError>)
    ensures r.Failure? <==> e.name in d.entries
    ensures r.Failure? ==> r.error == DuplicateRegion(e.name)
    ensures r.Success? ==> r.value.entries.Keys == d.entries.Keys + {e.name}
    ensures r.Success? ==> r.value.entries[e.name] == e
    ensures r.Success? ==> forall k :: k in d.entries ==> r.value.entries[k] == d.entries[k]
    ensures r.Success? ==> forall f :: TotalOf(r.value, f) == TotalOf(d, f) + FieldOf(e, f)
    ensures r.Success? ==> RegionsActive(r.value) == RegionsActive(d) + (if Active(e) > 0 then 1 else 0)
    ensures r.Success? ==> RegionsRecovered(r.value) == RegionsRecovered(d) + (if Active(e) == 0 then 1 else 0)
  {
    if e.name in d.entries then Failure(DuplicateRegion(e.name))
    else
      var d' := CoronaData(d.entries[e.name := e]);
      AddEntryTotals(d, e);
      Success(d')
  }

  lemma AddEntryTotals(d: CoronaData, e: CoronaEntry)
    requires e.name !in d.entries
    ensures forall f :: TotalOf(CoronaData(d.entries[e.name := e]), f) == TotalOf(d, f) + FieldOf(e, f)
    ensures RegionsActive(CoronaData(d.entries[e.name := e])) == RegionsActive(d) + (if Active(e) > 0 then 1 else 0)
    ensures RegionsRecovered(CoronaData(d.entries[e.name := e])) == RegionsRecovered(d) + (if Active(e) == 0 then 1 else 0)
  {
    forall f {
      TotalInsert(d.entries, e.name, e, f);
    }
    RegionsInsert(d, e, StillActive);
    RegionsInsert(d, e, NoneActive);
  }

  /** A new region joins exactly the set of its own standing. */
  lemma RegionsInsert(d: CoronaData, e: CoronaEntry, s: Standing)
    requires e.name !in d.entries
    ensures |RegionsIn(CoronaData(d.entries[e.name := e]), s)| ==
              |RegionsIn(d, s)| + (if StandingOf(e) == s then 1 else 0)
  {
    var before, after := RegionsIn(d, s), RegionsIn(CoronaData(d.entries[e.name := e]), s);
    if StandingOf(e) == s {
      assert after == before + {e.name};
    } else {
      assert after == before;
    }
  }

  /** A table with no entries has every total, `Mild` and both region counts at zero. */
  lemma EmptyTableIsZero(d: CoronaData)
    requires d.entries == map[]
    ensures forall f :: TotalOf(d, f) == 0
    ensures Mild(d) == 0 && RegionsActive(d) == 0 && RegionsRecovered(d) == 0
  {
    assert RegionsIn(d, StillActive) == {} && RegionsIn(d, NoneActive) == {};
  }
}
