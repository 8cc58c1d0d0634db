/** The data processor: merges the attribute payloads of records that collapse
    onto one (reference paddock, year, namespace) group, then pivots the groups
    into one row per (reference paddock, year) with one column per namespace. */
module DataProcessing {
  import opened FarmRecords
  import opened Aggregation

  /** namespace -> attribute key -> rule name. */
  type RuleTable = map<string, map<string, string>>

  /** The rule table the configuration installs when none is given. */
  const DefaultRules: RuleTable := map[
    "livestock" := map["animal_count" := SumRule, "stocking_rate" := MeanRule, "animal_type" := FirstRule],
    "production" := map["total_yield" := SumRule, "yield_per_ha" := MeanRule, "crop_type" := FirstRule]
  ]

  /** The rule for one key: the namespace's table (empty when absent), defaulting to "first". */
  function RuleFor(rules: RuleTable, namespace: string, key: string): (rule: string)
    ensures namespace in rules && key in rules[namespace] ==> rule == rules[namespace][key]
    ensures !(namespace in rules && key in rules[namespace]) ==> rule == FirstRule
  {
    var table := if namespace in rules then rules[namespace] else map[];
    if key in table then table[key] else FirstRule
  }

  // ---------------------------------------------------------------------------
  // Combining one group
  // ---------------------------------------------------------------------------

  /** The keys of the payloads that are dicts, over the whole group. */
  function AllKeys(group: seq<Record>): set<string>
  {
    if group == [] then {}
    else
      var last := group[|group| - 1];
      AllKeys(group[..|group| - 1]) + (if last.data.Fields? then last.data.fields.Keys else {})
  }

  /** The values the key takes in the rows that have it, in row order. */
  function ValuesFor(group: seq<Record>, key: string): seq<Value>
  {
    if group == [] then []
    else
      var last := group[|group| - 1];
      ValuesFor(group[..|group| - 1], key) + (if HasKey(last, key) then [last.data.fields[key]] else [])
  }

  /** The combined value of one key: its collected values under the key's rule. */
  function Reduced(group: seq<Record>, namespace: string, paddockCount: int, rules: RuleTable, key: string): Value
  {
    ApplyRule(ValuesFor(group, key), RuleFor(rules, namespace, key), paddockCount)
  }

  /** What combine_namespace_data returns for a group. */
  function Combined(group: seq<Record>, namespace: string, paddockCount: int, rules: RuleTable): Payload
  {
    if |group| == 1 then group[0].data
    else Fields(ReducedFields(group, namespace, paddockCount, rules))
  }

  /** Every key of the group's dicts, mapped to its reduced value. */
  function ReducedFields(group: seq<Record>, namespace: string, paddockCount: int, rules: RuleTable): map<string, Value>
  {
    map key | key in AllKeys(group) :: Reduced(group, namespace, paddockCount, rules, key)
  }

  /** The first loop of combine_namespace_data: the union of the keys of the rows' dicts. */
  method CollectKeys(group: seq<Record>) returns (allKeys: set<string>)
    ensures allKeys == AllKeys(group)
  {
    allKeys := {};
    var i := 0;
    while i < |group|
      invariant 0 <= i <= |group|
      invariant allKeys == AllKeys(group[..i])
    {
      if group[i].data.Fields? {
        allKeys := allKeys + group[i].data.fields.Keys;
      }
      assert group[..i + 1][..i] == group[..i];
      i := i + 1;
    }
    assert group[..|group|] == group;
  }

  /** The inner loop of combine_namespace_data: the key's values in row order. */
  method CollectValues(group: seq<Record>, key: string) returns (values: seq<Value>)
    ensures values == ValuesFor(group, key)
  {
    values := [];
    var j := 0;
    while j < |group|
      invariant 0 <= j <= |group|
      invariant values == ValuesFor(group[..j], key)
    {
      if group[j].data.Fields? && key in group[j].data.fields {
        values := values + [group[j].data.fields[key]];
      }
      assert group[..j + 1][..j] == group[..j];
      j := j + 1;
    }
    assert group[..|group|] == group;
  }

  /** A one-row group passes its data through; otherwise every key of the group's
      dicts is reduced by its namespace's rule. */
  method CombineNamespaceData(group: seq<Record>, namespace: string, paddockCount: int, rules: RuleTable)
    returns (combined: Payload)
    ensures |group| == 1 ==> combined == group[0].data
    ensures |group| != 1 ==> combined.Fields? && combined.fields.Keys == AllKeys(group)
    ensures |group| != 1 ==> forall key :: key in combined.fields ==>
      combined.fields[key] == Reduced(group, namespace, paddockCount, rules, key)
    ensures combined == Combined(group, namespace, paddockCount, rules)
  {
    if |group| == 1 {
      return group[0].data;
    }
    var allKeys := CollectKeys(group);
    var combinedData: map<string, Value> := map[];
    var pending := allKeys;
    while pending != {}
      invariant pending <= allKeys
      invariant combinedData.Keys == allKeys - pending
      invariant forall key :: key in combinedData ==>
        combinedData[key] == Reduced(group, namespace, paddockCount, rules, key)
      decreases pending
    {
      var key :| key in pending;
      var values := CollectValues(group, key);
      if values == [] {
        combinedData := combinedData[key := Null];
      } else {
        combinedData := combinedData[key := ApplyRule(values, RuleFor(rules, namespace, key), paddockCount)];
      }
      pending := pending - {key};
    }
    combined := Fields(combinedData);
    CombinedDeterminedByKeys(group, namespace, paddockCount, rules, combined);
  }

  /** A payload with the group's keys, each reduced by its rule, is the combined payload. */
  lemma CombinedDeterminedByKeys(group: seq<Record>, namespace: string, paddockCount: int, rules: RuleTable, p: Payload)
    requires |group| != 1 && p.Fields? && p.fields.Keys == AllKeys(group)
    requires forall key :: key in p.fields ==>
      p.fields[key] == Reduced(group, namespace, paddockCount, rules, key)
    ensures p == Combined(group, namespace, paddockCount, rules)
  {
    var m := ReducedFields(group, namespace, paddockCount, rules);
    assert m.Keys == AllKeys(group);
    forall key | key in m
      ensures p.fields[key] == m[key]
    {
    }
    MapsAgree(p.fields, m);
  }

  lemma MapsAgree(a: map<string, Value>, b: map<string, Value>)
    requires a.Keys == b.Keys
    requires forall k :: k in a ==> a[k] == b[k]
    ensures a == b
  {
  }

  /** A key belongs to the group's key set exactly when some row's dict has it. */
  lemma {:induction false} AllKeysAreRowKeys(group: seq<Record>, key: string)
    ensures key in AllKeys(group) <==> exists i :: 0 <= i < |group| && HasKey(group[i], key)
  {
    if group != [] {
      var init := group[..|group| - 1];
      AllKeysAreRowKeys(init, key);
      if key in AllKeys(init) {
        var i :| 0 <= i < |init| && HasKey(init[i], key);
        assert group[i] == init[i];
      }
      if exists i :: 0 <= i < |group| && HasKey(group[i], key) {
        var i :| 0 <= i < |group| && HasKey(group[i], key);
        if i < |init| {
          assert HasKey(init[i], key);
        }
      }
    }
  }

  /** Values are collected in row order: the values of two consecutive runs of rows
      are the values of the first run followed by those of the second. */
  lemma {:induction false} ValuesForAppend(a: seq<Record>, b: seq<Record>, key: string)
    ensures ValuesFor(a + b, key) == ValuesFor(a, key) + ValuesFor(b, key)
    decreases |b|
  {
    if b == [] {
      assert a + b == a;
    } else {
      var binit := b[..|b| - 1];
      ValuesForAppend(a, binit, key);
      assert (a + b)[..|a + b| - 1] == a + binit;
    }
  }

  /** A single row contributes its value for the key, or nothing when it lacks the key,
      even when its dict would hold None there. */
  lemma ValuesForOneRow(r: Record, key: string)
    ensures ValuesFor([r], key) == if HasKey(r, key) then [r.data.fields[key]] else []
  {
  }

  /** Every key of the combined dict has at least one collected value. */
  lemma {:induction false} KeyedValuesNonEmpty(group: seq<Record>, key: string)
    requires key in AllKeys(group)
    ensures ValuesFor(group, key) != []
  {
    AllKeysAreRowKeys(group, key);
    var i :| 0 <= i < |group| && HasKey(group[i], key);
    assert group == group[..i] + [group[i]] + group[i + 1..];
    ValuesForAppend(group[..i] + [group[i]], group[i + 1..], key);
    ValuesForAppend(group[..i], [group[i]], key);
    ValuesForOneRow(group[i], key);
  }

  /** Two livestock records of one group, as the default table's example. */
  function LivestockPair(g: Polygon): seq<Record>
  {
    [Record(2023, "livestock", Fields(map["animal_count" := Int(10), "stocking_rate" := Real(2.0), "animal_type" := Str("cattle")]), "P1", g),
     Record(2023, "livestock", Fields(map["animal_count" := Int(15), "stocking_rate" := Real(3.0), "animal_type" := Str("sheep")]), "P2", g)]
  }

  /** Each key of the pair collects both records' values, in order. */
  lemma LivestockPairValues(g: Polygon, key: string)
    requires key in {"animal_count", "stocking_rate", "animal_type"}
    ensures var group := LivestockPair(g);
      ValuesFor(group, key) == [group[0].data.fields[key], group[1].data.fields[key]]
  {
    var group := LivestockPair(g);
    assert group == [group[0]] + [group[1]];
    ValuesForAppend([group[0]], [group[1]], key);
    ValuesForOneRow(group[0], key);
    ValuesForOneRow(group[1], key);
  }

  /** Under the default table, merged head counts add up ("sum"). */
  lemma DefaultRulesSumAnimalCount(g: Polygon)
    ensures Reduced(LivestockPair(g), "livestock", 2, DefaultRules, "animal_count") == Real(25.0)
  {
    LivestockPairValues(g, "animal_count");
    assert Clean([Int(10), Int(15)]) == [Int(10), Int(15)];
  }

  /** Under the default table, merged stocking rates are averaged ("mean"). */
  lemma DefaultRulesAverageStockingRate(g: Polygon)
    ensures Reduced(LivestockPair(g), "livestock", 2, DefaultRules, "stocking_rate") == Real(2.5)
  {
    LivestockPairValues(g, "stocking_rate");
    assert Clean([Real(2.0), Real(3.0)]) == [Real(2.0), Real(3.0)];
  }

  /** Under the default table, the first record's animal type is kept ("first"). */
  lemma DefaultRulesKeepFirstAnimalType(g: Polygon)
    ensures Reduced(LivestockPair(g), "livestock", 2, DefaultRules, "animal_type") == Str("cattle")
  {
    LivestockPairValues(g, "animal_type");
    assert Clean([Str("cattle"), Str("sheep")]) == [Str("cattle"), Str("sheep")];
  }

  // ---------------------------------------------------------------------------
  // Grouping and pivoting a farm
  // ---------------------------------------------------------------------------

  datatype GroupKey = GroupKey(paddockId: string, year: int, namespace: string)
  datatype RowKey = RowKey(paddockId: string, year: int)

  /** A serialised cell: the combined payload, or None when it is falsy. It is a
      dict, except for a one-row group whose data is another JSON value. */
  type Cell = Option<Payload>

  /** One entry of result_data. */
  datatype GroupRow = GroupRow(key: GroupKey, data: Cell, originalPaddockCount: nat)

  /** The pivoted table: (paddock, year) -> namespace -> combined payload.  A namespace
      missing from a row is a None cell. */
  type Table = map<RowKey, map<string, Payload>>

  predicate IsMapped(r: Record, mapping: map<string, string>)
  {
    r.paddockId in mapping
  }

  function KeyOf(r: Record, mapping: map<string, string>): GroupKey
    requires IsMapped(r, mapping)
  {
    GroupKey(mapping[r.paddockId], r.year, r.namespace)
  }

  /** The groups of the mapped rows; rows whose id has no mapping fall out of groupby. */
  function GroupKeys(rows: seq<Record>, mapping: map<string, string>): set<GroupKey>
  {
    set r | r in rows && IsMapped(r, mapping) :: KeyOf(r, mapping)
  }

  /** The rows of one group, in input order. */
  function GroupRows(rows: seq<Record>, mapping: map<string, string>, key: GroupKey): seq<Record>
  {
    if rows == [] then []
    else
      var last := rows[|rows| - 1];
      GroupRows(rows[..|rows| - 1], mapping, key) + (if IsMapped(last, mapping) && KeyOf(last, mapping) == key then [last] else [])
  }

  /** The number of distinct original paddock ids in a group. */
  function OriginalPaddockCount(group: seq<Record>): nat
  {
    |set r | r in group :: r.paddockId|
  }

  /** json.dumps(combined) if combined else None: None, an empty dict and a falsy
      JSON value give None; anything else is serialised as it is. */
  function CellOf(p: Payload): (c: Cell)
    ensures c.Some? <==> PayloadTruthy(p)
    ensures c.Some? ==> c.value == p
  {
    if PayloadTruthy(p) then Some(p) else None
  }

  /** The result_data entry for one group. */
  function ExpectedGroupRow(rows: seq<Record>, mapping: map<string, string>, rules: RuleTable, key: GroupKey): GroupRow
  {
    var group := GroupRows(rows, mapping, key);
    var count := OriginalPaddockCount(group);
    GroupRow(key, CellOf(Combined(group, key.namespace, count, rules)), count)
  }

  /** A group holds exactly the mapped rows whose rewritten key is its key. */
  lemma {:induction false} GroupRowsAreThoseWithKey(rows: seq<Record>, mapping: map<string, string>, key: GroupKey)
    ensures forall r :: r in GroupRows(rows, mapping, key) <==> r in rows && IsMapped(r, mapping) && KeyOf(r, mapping) == key
  {
    if rows != [] {
      var init := rows[..|rows| - 1];
      GroupRowsAreThoseWithKey(init, mapping, key);
      assert rows == init + [rows[|rows| - 1]];
    }
  }

  /** Grouping keeps the input order and every duplicate: the group of two runs of
      rows is the group of the first run followed by that of the second. */
  lemma {:induction false} GroupRowsAppend(a: seq<Record>, b: seq<Record>, mapping: map<string, string>, key: GroupKey)
    ensures GroupRows(a + b, mapping, key) == GroupRows(a, mapping, key) + GroupRows(b, mapping, key)
    decreases |b|
  {
    if b == [] {
      assert a + b == a;
    } else {
      var binit := b[..|b| - 1];
      GroupRowsAppend(a, binit, mapping, key);
      assert (a + b)[..|a + b| - 1] == a + binit;
    }
  }

  /** A group of one row has that row's data as its cell when the data is truthy,
      whatever JSON value it holds, and None otherwise. */
  lemma SingleRowGroupCell(rows: seq<Record>, mapping: map<string, string>, rules: RuleTable, key: GroupKey)
    requires |GroupRows(rows, mapping, key)| == 1
    ensures var d := GroupRows(rows, mapping, key)[0].data;
      ExpectedGroupRow(rows, mapping, rules, key).data == if PayloadTruthy(d) then Some(d) else None
    ensures ExpectedGroupRow(rows, mapping, rules, key).originalPaddockCount == 1
  {
    var group := GroupRows(rows, mapping, key);
    assert (set r | r in group :: r.paddockId) == {group[0].paddockId};
  }

  /** Every group has at least one row, and its paddock count is at least one. */
  lemma GroupsAreNonEmpty(rows: seq<Record>, mapping: map<string, string>, key: GroupKey)
    requires key in GroupKeys(rows, mapping)
    ensures GroupRows(rows, mapping, key) != []
    ensures OriginalPaddockCount(GroupRows(rows, mapping, key)) >= 1
  {
    var r :| r in rows && IsMapped(r, mapping) && KeyOf(r, mapping) == key;
    GroupRowsAreThoseWithKey(rows, mapping, key);
    var ids := set x | x in GroupRows(rows, mapping, key) :: x.paddockId;
    assert r.paddockId in ids;
    assert |ids| >= 1;
  }

  /** original_paddock_count is the number of distinct original ids among the mapped
      rows rewritten onto the group's key. */
  lemma GroupPaddockCount(rows: seq<Record>, mapping: map<string, string>, rules: RuleTable, key: GroupKey)
    ensures ExpectedGroupRow(rows, mapping, rules, key).originalPaddockCount ==
      |set r | r in rows && IsMapped(r, mapping) && KeyOf(r, mapping) == key :: r.paddockId|
  {
    GroupRowsAreThoseWithKey(rows, mapping, key);
    var group := GroupRows(rows, mapping, key);
    assert (set r | r in group :: r.paddockId) ==
      set r | r in rows && IsMapped(r, mapping) && KeyOf(r, mapping) == key :: r.paddockId;
  }

  /** The group keys that have an entry. */
  function KeysOf(result: seq<GroupRow>): set<GroupKey>
  {
    set i | 0 <= i < |result| :: result[i].key
  }

  /** The loop of normalize_farm_data over the groups: one entry per group. */
  method AggregateGroups(rows: seq<Record>, mapping: map<string, string>, rules: RuleTable)
    returns (resultData: seq<GroupRow>)
    ensures Distinct(resultData)
    ensures KeysOf(resultData) == GroupKeys(rows, mapping)
    ensures forall i :: 0 <= i < |resultData| ==> resultData[i] == ExpectedGroupRow(rows, mapping, rules, resultData[i].key)
  {
    var keys := GroupKeys(rows, mapping);
    var pending := keys;
    resultData := [];
    while pending != {}
      invariant pending <= keys
      invariant Distinct(resultData)
      invariant KeysOf(resultData) == keys - pending
      invariant forall i :: 0 <= i < |resultData| ==> resultData[i] == ExpectedGroupRow(rows, mapping, rules, resultData[i].key)
      decreases pending
    {
      var key :| key in pending;
      var group := GroupRows(rows, mapping, key);
      var count := |set r | r in group :: r.paddockId|;
      var combined := CombineNamespaceData(group, key.namespace, count, rules);
      var entry := GroupRow(key, CellOf(combined), count);
      assert entry == ExpectedGroupRow(rows, mapping, rules, key);
      forall i | 0 <= i < |resultData| ensures resultData[i].key != key {
        assert resultData[i].key in KeysOf(resultData);
      }
      KeysOfAppend(resultData, entry);
      resultData := resultData + [entry];
      pending := pending - {key};
    }
  }

  lemma KeysOfAppend(result: seq<GroupRow>, entry: GroupRow)
    ensures KeysOf(result + [entry]) == KeysOf(result) + {entry.key}
  {
    var r := result + [entry];
    forall k | k in KeysOf(r) ensures k in KeysOf(result) + {entry.key} {
      var i :| 0 <= i < |r| && r[i].key == k;
      if i < |result| {
        assert result[i].key == k;
      }
    }
    forall k | k in KeysOf(result) + {entry.key} ensures k in KeysOf(r) {
      if k == entry.key {
        assert r[|result|].key == k;
      } else {
        var i :| 0 <= i < |result| && result[i].key == k;
        assert r[i].key == k;
      }
    }
  }

  /** pivot_table(aggfunc='first'): a None cell is dropped; a (paddock, year) row
      appears once it has a cell; the first cell of a namespace wins. */
  function Place(table: Table, g: GroupRow): Table
  {
    match g.data
    case None => table
    case Some(d) =>
      var rk := RowKey(g.key.paddockId, g.key.year);
      var row := if rk in table then table[rk] else map[];
      if g.key.namespace in row then table else table[rk := row[g.key.namespace := d]]
  }

  function Pivot(result: seq<GroupRow>): Table
  {
    if result == [] then map[] else Place(Pivot(result[..|result| - 1]), result[|result| - 1])
  }

  predicate Distinct(result: seq<GroupRow>)
  {
    forall i, j :: 0 <= i < j < |result| ==> result[i].key != result[j].key
  }

  /** The cell of a (paddock, year) row under a namespace column; None when absent. */
  function CellAt(table: Table, rk: RowKey, namespace: string): Cell
  {
    if rk in table && namespace in table[rk] then Some(table[rk][namespace]) else None
  }

  /** The first cell that is not None among the entries of a group key. */
  function CellIn(result: seq<GroupRow>, key: GroupKey): Cell
  {
    if result == [] then None
    else
      var earlier := CellIn(result[..|result| - 1], key);
      var last := result[|result| - 1];
      if earlier.Some? then earlier else if last.key == key then last.data else None
  }

  /** What the normalised table holds for a group key: that group's cell, None when
      the key is not a group. */
  function GroupCell(rows: seq<Record>, mapping: map<string, string>, rules: RuleTable, key: GroupKey): Cell
  {
    if key in GroupKeys(rows, mapping) then ExpectedGroupRow(rows, mapping, rules, key).data else None
  }

  lemma PlaceCell(table: Table, g: GroupRow, rk: RowKey, namespace: string)
    ensures CellAt(Place(table, g), rk, namespace) ==
      if CellAt(table, rk, namespace).Some? then CellAt(table, rk, namespace)
      else if g.key == GroupKey(rk.paddockId, rk.year, namespace) then g.data
      else None
  {
  }

  /** Each pivoted cell is the first non-None cell of its group key, and a row exists
      only while some namespace has a cell. */
  lemma {:induction false} PivotLookup(result: seq<GroupRow>)
    ensures forall rk, ns :: CellAt(Pivot(result), rk, ns) == CellIn(result, GroupKey(rk.paddockId, rk.year, ns))
    ensures forall rk :: rk in Pivot(result) ==> Pivot(result)[rk] != map[]
  {
    if result != [] {
      var init := result[..|result| - 1];
      var g := result[|result| - 1];
      PivotLookup(init);
      forall rk, ns ensures CellAt(Pivot(result), rk, ns) == CellIn(result, GroupKey(rk.paddockId, rk.year, ns)) {
        PlaceCell(Pivot(init), g, rk, ns);
      }
    }
  }

  /** With distinct keys, the cell of a key is its entry's cell, or None without an entry. */
  lemma {:induction false} CellInDistinct(result: seq<GroupRow>, key: GroupKey)
    requires Distinct(result)
    ensures forall i :: 0 <= i < |result| && result[i].key == key ==> CellIn(result, key) == result[i].data
    ensures (forall i :: 0 <= i < |result| ==> result[i].key != key) ==> CellIn(result, key) == None
  {
    if result != [] {
      var init := result[..|result| - 1];
      assert Distinct(init);
      CellInDistinct(init, key);
      assert forall i :: 0 <= i < |init| ==> init[i] == result[i];
    }
  }

  /** normalize_farm_data: rewrite ids through the mapping, group, combine, pivot.
      Every cell of the table is its group's combined dict; a (paddock, year) row
      exists only when at least one of its namespaces has a cell. */
  method NormalizeFarmData(rows: seq<Record>, mapping: map<string, string>, rules: RuleTable)
    returns (table: Table)
    ensures forall rk, ns :: CellAt(table, rk, ns) == GroupCell(rows, mapping, rules, GroupKey(rk.paddockId, rk.year, ns))
    ensures forall rk :: rk in table ==> table[rk] != map[]
    ensures GroupKeys(rows, mapping) == {} ==> table == map[]
  {
    var resultData := AggregateGroups(rows, mapping, rules);
    if |resultData| == 0 {
      return map[];
    }
    table := Pivot(resultData);
    PivotLookup(resultData);
    forall rk, ns ensures CellAt(table, rk, ns) == GroupCell(rows, mapping, rules, GroupKey(rk.paddockId, rk.year, ns)) {
      CellInDistinct(resultData, GroupKey(rk.paddockId, rk.year, ns));
    }
  }
}
