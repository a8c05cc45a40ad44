/**
 * Table metadata as the explorer lists it (aws/dynamodb.go:45-78 and
 * 310-359): each listed table is described, its key schema and the key
 * schemas of its global secondary indexes are folded into one `TableInfo`,
 * tables that cannot be described are skipped, and the list is ordered by
 * item count, largest first. ListTables and DescribeTable are parameters.
 */
module TableCatalog {
  import opened Wrappers

  datatype KeySchemaElement = KeySchemaElement(attributeName: Option<string>, keyType: string)

  datatype GlobalSecondaryIndex = GlobalSecondaryIndex(keySchema: seq<KeySchemaElement>)

  /** The part of a DescribeTable answer the explorer reads. */
  datatype TableDescription = TableDescription(
    status: string,
    itemCount: int,
    sizeBytes: int,
    keySchema: seq<KeySchemaElement>,
    globalSecondaryIndexes: seq<GlobalSecondaryIndex>)

  datatype TableInfo = TableInfo(
    name: string,
    status: string,
    itemCount: int,
    sizeBytes: int,
    partitionKey: string,
    sortKey: string,
    schemaFields: seq<string>)

  datatype BackendError = BackendError(message: string)

  /** The name of the last named element of the given key type, or "" when there is none. */
  function LastKeyOfType(schema: seq<KeySchemaElement>, keyType: string): string
  {
    if schema == [] then ""
    else
      var last := schema[|schema| - 1];
      if last.attributeName.Some? && last.keyType == keyType then last.attributeName.value
      else LastKeyOfType(schema[..|schema| - 1], keyType)
  }

  /** The attribute names a key schema mentions. */
  function NamedAttributes(schema: seq<KeySchemaElement>): set<string>
  {
    set e | e in schema && e.attributeName.Some? :: e.attributeName.value
  }

  /** Every attribute that is a key of the table or of one of its global secondary indexes. */
  function SchemaFieldSet(d: TableDescription): set<string>
  {
    NamedAttributes(d.keySchema)
    + set i, e | 0 <= i < |d.globalSecondaryIndexes| && e in d.globalSecondaryIndexes[i].keySchema && e.attributeName.Some?
        :: e.attributeName.value
  }

  /** `info` is what `getTableInfo` builds for table `name` from description `d`, up to the order of its schema fields. */
  predicate IsTableInfoFor(name: string, d: TableDescription, info: TableInfo)
  {
    && info.name == name && info.status == d.status
    && info.itemCount == d.itemCount && info.sizeBytes == d.sizeBytes
    && info.partitionKey == LastKeyOfType(d.keySchema, "HASH")
    && info.sortKey == LastKeyOfType(d.keySchema, "RANGE")
    && (forall i, j :: 0 <= i < j < |info.schemaFields| ==> info.schemaFields[i] != info.schemaFields[j])
    && (set f | f in info.schemaFields) == SchemaFieldSet(d)
  }

  lemma {:induction false} LastKeyIsNamed(schema: seq<KeySchemaElement>, keyType: string)
    ensures LastKeyOfType(schema, keyType) == "" || LastKeyOfType(schema, keyType) in NamedAttributes(schema)
  {
    if schema != [] {
      var init := schema[..|schema| - 1];
      LastKeyIsNamed(init, keyType);
      assert NamedAttributes(init) <= NamedAttributes(schema) by {
        forall e | e in init ensures e in schema { }
      }
    }
  }

  /** The partition key and the sort key, when present, are among the schema fields. */
  lemma {:induction false} KeysAreSchemaFields(name: string, d: TableDescription, info: TableInfo)
    requires IsTableInfoFor(name, d, info)
    ensures info.partitionKey != "" ==> info.partitionKey in info.schemaFields
    ensures info.sortKey != "" ==> info.sortKey in info.schemaFields
  {
    LastKeyIsNamed(d.keySchema, "HASH");
    LastKeyIsNamed(d.keySchema, "RANGE");
    assert info.partitionKey != "" ==> info.partitionKey in (set f | f in info.schemaFields);
    assert info.sortKey != "" ==> info.sortKey in (set f | f in info.schemaFields);
  }

  /** The first loop of `getTableInfo`: the last HASH and RANGE names, and every name, of the table's key schema. */
  method ReadKeySchema(schema: seq<KeySchemaElement>) returns (partitionKey: string, sortKey: string, names: set<string>)
    ensures partitionKey == LastKeyOfType(schema, "HASH") && sortKey == LastKeyOfType(schema, "RANGE")
    ensures names == NamedAttributes(schema)
  {
    partitionKey, sortKey, names := "", "", {};
    for i := 0 to |schema|
      invariant partitionKey == LastKeyOfType(schema[..i], "HASH")
      invariant sortKey == LastKeyOfType(schema[..i], "RANGE")
      invariant names == NamedAttributes(schema[..i])
    {
      var ks := schema[i];
      assert schema[..i + 1][..i] == schema[..i];
      assert NamedAttributes(schema[..i + 1]) ==
        NamedAttributes(schema[..i]) + (if ks.attributeName.Some? then {ks.attributeName.value} else {}) by {
        assert schema[..i + 1] == schema[..i] + [ks];
      }
      if ks.attributeName.Some? {
        names := names + {ks.attributeName.value};
        if ks.keyType == "HASH" {
          partitionKey := ks.attributeName.value;
        } else if ks.keyType == "RANGE" {
          sortKey := ks.attributeName.value;
        }
      }
    }
    assert schema[..|schema|] == schema;
  }

  /** The key names of the first `n` global secondary indexes. */
  function IndexKeyNames(gsis: seq<GlobalSecondaryIndex>, n: int): set<string>
  {
    set i, e | 0 <= i < n && 0 <= i < |gsis| && e in gsis[i].keySchema && e.attributeName.Some? :: e.attributeName.value
  }

  /** The nested loops of `getTableInfo` over the global secondary indexes. */
  method AddIndexKeys(names: set<string>, gsis: seq<GlobalSecondaryIndex>) returns (all: set<string>)
    ensures all == names + IndexKeyNames(gsis, |gsis|)
  {
    all := names;
    for g := 0 to |gsis|
      invariant all == names + IndexKeyNames(gsis, g)
    {
      var schema := gsis[g].keySchema;
      assert IndexKeyNames(gsis, g + 1) == IndexKeyNames(gsis, g) + NamedAttributes(schema);
      for k := 0 to |schema|
        invariant all == names + IndexKeyNames(gsis, g) + NamedAttributes(schema[..k])
      {
        assert schema[..k + 1] == schema[..k] + [schema[k]];
        if schema[k].attributeName.Some? {
          all := all + {schema[k].attributeName.value};
        }
      }
      assert schema[..|schema|] == schema;
    }
  }

  /** The loop that turns the field set into a slice, in the set's (unspecified) iteration order. */
  method SetToFields(fieldSet: set<string>) returns (fields: seq<string>)
    ensures (set f | f in fields) == fieldSet
    ensures forall i, j :: 0 <= i < j < |fields| ==> fields[i] != fields[j]
  {
    fields := [];
    var rest := fieldSet;
    while rest != {}
      invariant rest <= fieldSet
      invariant (set f | f in fields) + rest == fieldSet
      invariant forall f :: f in fields ==> f !in rest
      invariant forall i, j :: 0 <= i < j < |fields| ==> fields[i] != fields[j]
      decreases rest
    {
      var f :| f in rest;
      fields := fields + [f];
      rest := rest - {f};
    }
  }

  /** `getTableInfo` after a successful DescribeTable. */
  method GetTableInfo(name: string, d: TableDescription) returns (info: TableInfo)
    ensures IsTableInfoFor(name, d, info)
  {
    var partitionKey, sortKey, names := ReadKeySchema(d.keySchema);
    var fieldSet := AddIndexKeys(names, d.globalSecondaryIndexes);
    assert fieldSet == SchemaFieldSet(d);
    var fields := SetToFields(fieldSet);
    info := TableInfo(name, d.status, d.itemCount, d.sizeBytes, partitionKey, sortKey, fields);
  }

  /** The listed names whose description succeeds, in listing order. */
  function DescribableNames(names: seq<string>, describe: string -> Result<TableDescription, BackendError>): (r: seq<string>)
    ensures |r| <= |names|
    ensures forall x :: x in r <==> x in names && describe(x).Success?
  {
    if names == [] then []
    else
      var init := DescribableNames(names[..|names| - 1], describe);
      assert names == names[..|names| - 1] + [names[|names| - 1]];
      if describe(names[|names| - 1]).Success? then init + [names[|names| - 1]] else init
  }

  predicate SortedByItemCount(tables: seq<TableInfo>)
  {
    forall i, j :: 0 <= i < j < |tables| ==> tables[i].itemCount >= tables[j].itemCount
  }

  method SwapWithPrevious(a: array<TableInfo>, j: int)
    requires 0 < j < a.Length
    modifies a
    ensures a[j - 1] == old(a[j]) && a[j] == old(a[j - 1])
    ensures forall m :: 0 <= m < a.Length && m != j - 1 && m != j ==> a[m] == old(a[m])
    ensures multiset(a[..]) == multiset(old(a[..]))
  {
    a[j - 1], a[j] := a[j], a[j - 1];
  }

  /** `sort.Slice` with `ItemCount` descending; the order among equal counts is not specified. */
  method SortByItemCount(a: array<TableInfo>)
    modifies a
    ensures SortedByItemCount(a[..])
    ensures multiset(a[..]) == multiset(old(a[..]))
  {
    for i := 0 to a.Length
      invariant forall p, q :: 0 <= p < q < i ==> a[p].itemCount >= a[q].itemCount
      invariant multiset(a[..]) == multiset(old(a[..]))
    {
      var j := i;
      while j > 0 && a[j - 1].itemCount < a[j].itemCount
        invariant 0 <= j <= i
        invariant multiset(a[..]) == multiset(old(a[..]))
        invariant forall p, q :: 0 <= p < q <= i && q != j ==> a[p].itemCount >= a[q].itemCount
        invariant 0 < j < i ==> a[j - 1].itemCount >= a[j + 1].itemCount
      {
        SwapWithPrevious(a, j);
        j := j - 1;
      }
    }
  }

  /**
   * `Client.ListTables`: a failed listing is the error; otherwise every
   * listed table that can be described, each exactly once, ordered by item
   * count, largest first.
   */
  method ListTables(listed: Result<seq<string>, BackendError>, describe: string -> Result<TableDescription, BackendError>)
    returns (r: Result<seq<TableInfo>, BackendError>, ghost kept: seq<TableInfo>)
    ensures r.Failure? <==> listed.Failure?
    ensures listed.Failure? ==> r.error == listed.error
    ensures r.Success? ==>
      && |kept| == |DescribableNames(listed.value, describe)|
      && (forall i :: 0 <= i < |kept| ==>
            var name := DescribableNames(listed.value, describe)[i];
            kept[i].name == name && describe(name).Success? && IsTableInfoFor(name, describe(name).value, kept[i]))
      && multiset(r.value) == multiset(kept)
      && SortedByItemCount(r.value)
  {
    kept := [];
    if listed.Failure? {
      return Failure(listed.error), kept;
    }
    var names := listed.value;
    var tables: seq<TableInfo> := [];
    for n := 0 to |names|
      invariant |tables| == |DescribableNames(names[..n], describe)|
      invariant forall i :: 0 <= i < |tables| ==>
        var name := DescribableNames(names[..n], describe)[i];
        tables[i].name == name && describe(name).Success? && IsTableInfoFor(name, describe(name).value, tables[i])
    {
      assert names[..n + 1][..n] == names[..n];
      var description := describe(names[n]);
      if description.Success? {
        var info := GetTableInfo(names[n], description.value);
        tables := tables + [info];
      }
    }
    assert names[..|names|] == names;
    kept := tables;
    var a := new TableInfo[|tables|](i requires 0 <= i < |tables| => tables[i]);
    assert a[..] == tables;
    SortByItemCount(a);
    r := Success(a[..]);
  }
}
