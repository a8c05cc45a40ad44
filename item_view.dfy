/**
 * How the results table and the item detail view present items
 * (main.go:398-458 and 608-770, with the Scan twins at 811-873 and 1024-1186): the preview
 * columns picked from the first item, the cells of each row, the order of
 * the detail rows, which fields open the JSON view, and the file name an
 * item is exported under.
 */
module ItemView {
  import opened Wrappers
  import opened GoText
  import opened AttributeCodec
  import opened DynamoClient

  // ---------------------------------------------------------------------------
  // Preview columns

  /** Field names tried, in this order, as extra columns. */
  const PreviewCandidates: seq<string> :=
    ["title", "Title", "name", "Name", "displayName", "description", "Description", "email", "Email"]

  /** How many extra columns are shown at most. */
  const MaxPreviewFields: int := 2

  /** The candidates present in the item that are not key attributes, in candidate order. */
  function Eligible(candidates: seq<string>, item: DisplayItem, partitionKey: string, sortKey: string): (r: seq<string>)
    ensures forall f :: f in r <==> f in candidates && f in item && f != partitionKey && f != sortKey
    ensures |r| <= |candidates|
  {
    if candidates == [] then []
    else
      var init := Eligible(candidates[..|candidates| - 1], item, partitionKey, sortKey);
      var c := candidates[|candidates| - 1];
      assert forall f :: f in candidates <==> f in candidates[..|candidates| - 1] || f == c;
      if c in item && c != partitionKey && c != sortKey then init + [c] else init
  }

  /** At most the first two of `fields`. */
  function Capped(fields: seq<string>): seq<string>
  {
    if |fields| <= MaxPreviewFields then fields else fields[..MaxPreviewFields]
  }

  /** At most the first two eligible candidates. */
  function PreviewFields(firstItem: DisplayItem, partitionKey: string, sortKey: string): seq<string>
  {
    Capped(Eligible(PreviewCandidates, firstItem, partitionKey, sortKey))
  }

  predicate Distinct(s: seq<string>)
  {
    forall i, j :: 0 <= i < j < |s| ==> s[i] != s[j]
  }

  lemma {:induction false} EligibleDistinct(candidates: seq<string>, item: DisplayItem, partitionKey: string, sortKey: string)
    requires Distinct(candidates)
    ensures Distinct(Eligible(candidates, item, partitionKey, sortKey))
  {
    if candidates != [] {
      var init := candidates[..|candidates| - 1];
      var c := candidates[|candidates| - 1];
      assert Distinct(init) by {
        forall i, j | 0 <= i < j < |init| ensures init[i] != init[j] {
          assert init[i] == candidates[i] && init[j] == candidates[j];
        }
      }
      EligibleDistinct(init, item, partitionKey, sortKey);
      var e := Eligible(init, item, partitionKey, sortKey);
      assert c !in init by {
        forall i | 0 <= i < |init| ensures init[i] != c {
          assert init[i] == candidates[i];
        }
      }
      assert c !in e;
      var r := Eligible(candidates, item, partitionKey, sortKey);
      if r != e {
        assert r == e + [c];
        forall i, j | 0 <= i < j < |r| ensures r[i] != r[j] {
          if j < |e| {
            assert r[i] == e[i] && r[j] == e[j];
          } else {
            assert r[j] == c;
            assert r[i] == e[i] && e[i] in e;
          }
        }
      }
    }
  }

  /**
   * The extra columns: at most two distinct fields, each a candidate present
   * in the first item and not a key; fewer than two only when no other
   * candidate qualifies.
   */
  lemma PreviewFieldsFacts(firstItem: DisplayItem, partitionKey: string, sortKey: string)
    ensures var r := PreviewFields(firstItem, partitionKey, sortKey);
      && |r| <= MaxPreviewFields
      && Distinct(r)
      && (forall f :: f in r ==> f in PreviewCandidates && f in firstItem && f != partitionKey && f != sortKey)
      && (|r| < MaxPreviewFields ==>
            forall f :: f in PreviewCandidates && f in firstItem && f != partitionKey && f != sortKey ==> f in r)
  {
    assert Distinct(PreviewCandidates);
    EligibleDistinct(PreviewCandidates, firstItem, partitionKey, sortKey);
    var e := Eligible(PreviewCandidates, firstItem, partitionKey, sortKey);
    var r := PreviewFields(firstItem, partitionKey, sortKey);
    if |e| > MaxPreviewFields {
      assert r == e[..MaxPreviewFields];
      forall i, j | 0 <= i < j < |r| ensures r[i] != r[j] {
        assert r[i] == e[i] && r[j] == e[j];
      }
      forall f | f in r ensures f in e {
        var i :| 0 <= i < |r| && r[i] == f;
        assert e[i] == f;
      }
    }
  }

  /** The candidate loop, with its early `break` once two fields are found. */
  method PickPreviewFields(candidates: seq<string>, firstItem: DisplayItem, partitionKey: string, sortKey: string) returns (fields: seq<string>)
    ensures fields == Capped(Eligible(candidates, firstItem, partitionKey, sortKey))
  {
    fields := [];
    var i := 0;
    while i < |candidates|
      invariant 0 <= i <= |candidates|
      invariant fields == Eligible(candidates[..i], firstItem, partitionKey, sortKey)
      invariant |fields| < MaxPreviewFields
    {
      var field := candidates[i];
      EligibleStep(candidates, i, firstItem, partitionKey, sortKey);
      if field in firstItem && field != partitionKey && field != sortKey {
        fields := fields + [field];
        if |fields| >= MaxPreviewFields {
          EligiblePrefix(candidates, i + 1, firstItem, partitionKey, sortKey);
          return;
        }
      }
      i := i + 1;
    }
    assert candidates[..i] == candidates;
  }

  /** The extra columns of a results page; no items means no extra columns. */
  method DetectPreviewFields(items: seq<DisplayItem>, partitionKey: string, sortKey: string) returns (fields: seq<string>)
    ensures items == [] ==> fields == []
    ensures items != [] ==> fields == PreviewFields(items[0], partitionKey, sortKey)
  {
    fields := [];
    if |items| > 0 {
      fields := PickPreviewFields(PreviewCandidates, items[0], partitionKey, sortKey);
    }
  }

  lemma EligibleStep(candidates: seq<string>, i: nat, item: DisplayItem, partitionKey: string, sortKey: string)
    requires i < |candidates|
    ensures var c := candidates[i];
      Eligible(candidates[..i + 1], item, partitionKey, sortKey)
      == Eligible(candidates[..i], item, partitionKey, sortKey) + (if c in item && c != partitionKey && c != sortKey then [c] else [])
  {
    assert candidates[..i + 1][..i] == candidates[..i];
  }

  lemma {:induction false} EligiblePrefix(candidates: seq<string>, n: nat, item: DisplayItem, partitionKey: string, sortKey: string)
    requires n <= |candidates|
    ensures var e := Eligible(candidates, item, partitionKey, sortKey);
      var p := Eligible(candidates[..n], item, partitionKey, sortKey);
      |p| <= |e| && e[..|p|] == p
    decreases |candidates|
  {
    if n < |candidates| {
      var init := candidates[..|candidates| - 1];
      assert init[..n] == candidates[..n];
      EligiblePrefix(init, n, item, partitionKey, sortKey);
    } else {
      assert candidates[..n] == candidates;
    }
  }

  // ---------------------------------------------------------------------------
  // Row cells

  /** Cells longer than 50 bytes keep their first 47 and end in "...". */
  function TruncateCell(value: string): (r: string)
    ensures |r| <= 50
    ensures |value| <= 50 ==> r == value
    ensures |value| > 50 ==> |r| == 50 && r[..47] == value[..47] && r[47..] == "..."
  {
    if |value| > 50 then value[..47] + "..." else value
  }

  lemma TruncateIdempotent(value: string)
    ensures TruncateCell(TruncateCell(value)) == TruncateCell(value)
  {
  }

  /** `fmt.Sprintf("%v", item[key])`: a missing key prints as "<nil>". */
  function KeyCell(item: DisplayItem, key: string): (r: string)
    ensures key in item ==> r == item[key]
    ensures key !in item ==> r == "<nil>"
  {
    if key in item then item[key] else "<nil>"
  }

  /** A preview cell is empty when the item lacks the field. */
  function PreviewCell(item: DisplayItem, field: string): string
  {
    if field in item then TruncateCell(item[field]) else ""
  }

  function Headers(partitionKey: string, sortKey: string, fields: seq<string>): seq<string>
  {
    [partitionKey] + (if sortKey != "" then [sortKey] else []) + fields
  }

  function RowCells(item: DisplayItem, partitionKey: string, sortKey: string, fields: seq<string>): seq<string>
  {
    [KeyCell(item, partitionKey)]
    + (if sortKey != "" then [KeyCell(item, sortKey)] else [])
    + seq(|fields|, i requires 0 <= i < |fields| => PreviewCell(item, fields[i]))
  }

  /** Every row has one cell per header, and each cell shows the header's attribute of that item. */
  lemma RowMatchesHeaders(item: DisplayItem, partitionKey: string, sortKey: string, fields: seq<string>)
    ensures var h := Headers(partitionKey, sortKey, fields);
      var r := RowCells(item, partitionKey, sortKey, fields);
      && |r| == |h|
      && r[0] == KeyCell(item, h[0])
      && (sortKey != "" ==> r[1] == KeyCell(item, h[1]))
      && var k := if sortKey != "" then 2 else 1;
         forall i :: k <= i < |h| ==> r[i] == PreviewCell(item, h[i])
  {
  }

  // ---------------------------------------------------------------------------
  // Detail view

  /** `rows` lists the entries of `m`: each row is an entry, and each key has a row. */
  predicate Lists(rows: seq<(string, string)>, m: DisplayItem)
  {
    && (forall i :: 0 <= i < |rows| ==> rows[i].0 in m && rows[i].1 == m[rows[i].0])
    && (forall k :: k in m ==> exists i :: 0 <= i < |rows| && rows[i].0 == k)
  }

  /** No field name appears on two rows. */
  predicate DistinctNames(rows: seq<(string, string)>)
  {
    forall i, j :: 0 <= i < j < |rows| ==> rows[i].0 != rows[j].0
  }

  /** The fields of `item` named in `fields`. */
  function Restrict(item: DisplayItem, fields: seq<string>): DisplayItem
  {
    map k | k in item && k in fields :: item[k]
  }

  /** Where `x` first occurs in `s`; `|s|` when it does not occur. */
  function FirstIndex(s: seq<string>, x: string): (k: nat)
    ensures k <= |s|
    ensures k < |s| ==> s[k] == x
    ensures forall j :: 0 <= j < k ==> s[j] != x
  {
    if s == [] then 0 else if s[0] == x then 0 else 1 + FirstIndex(s[1..], x)
  }

  /** Every row names one of `fields`, and the rows follow the fields' first occurrences. */
  predicate InFieldOrder(rows: seq<(string, string)>, fields: seq<string>)
  {
    && (forall i :: 0 <= i < |rows| ==> rows[i].0 in fields)
    && (forall i, j :: 0 <= i < j < |rows| ==> FirstIndex(fields, rows[i].0) < FirstIndex(fields, rows[j].0))
  }

  /** A row for the first field, placed before rows in the order of the other fields, keeps the order. */
  lemma PrependKeepsOrder(fields: seq<string>, head: seq<(string, string)>, rest: seq<(string, string)>)
    requires fields != []
    requires head == [] || (|head| == 1 && head[0].0 == fields[0])
    requires InFieldOrder(rest, fields[1..])
    requires forall i :: 0 <= i < |rest| ==> rest[i].0 != fields[0]
    ensures InFieldOrder(head + rest, fields)
  {
    var rows := head + rest;
    forall i | 0 <= i < |rows| ensures rows[i].0 in fields && (i >= |head| ==> FirstIndex(fields, rows[i].0) == 1 + FirstIndex(fields[1..], rest[i - |head|].0)) {
      if i >= |head| {
        assert rows[i] == rest[i - |head|];
        assert rest[i - |head|].0 in fields[1..];
      }
    }
  }

  /**
   * The schema-field rows, in schema order: each field present in what is
   * left of the item, which the loop then deletes, so a repeated field is
   * listed once.
   */
  function SchemaRows(item: DisplayItem, schemaFields: seq<string>): (r: (seq<(string, string)>, DisplayItem))
    ensures r.1 == item - (set f | f in schemaFields)
    ensures Lists(r.0, Restrict(item, schemaFields)) && DistinctNames(r.0)
    ensures InFieldOrder(r.0, schemaFields)
  {
    if schemaFields == [] then ([], item)
    else
      var sf := schemaFields[0];
      if sf in item then
        var rest := SchemaRows(item - {sf}, schemaFields[1..]);
        PrependSchemaRow(item, schemaFields, rest.0);
        PrependKeepsOrder(schemaFields, [(sf, item[sf])], rest.0);
        var rows := [(sf, item[sf])] + rest.0;
        (rows, rest.1)
      else
        var rest := SchemaRows(item, schemaFields[1..]);
        assert Restrict(item, schemaFields) == Restrict(item, schemaFields[1..]);
        PrependKeepsOrder(schemaFields, [], rest.0);
        assert [] + rest.0 == rest.0;
        rest
  }

  lemma PrependSchemaRow(item: DisplayItem, schemaFields: seq<string>, rest: seq<(string, string)>)
    requires schemaFields != [] && schemaFields[0] in item
    requires Lists(rest, Restrict(item - {schemaFields[0]}, schemaFields[1..])) && DistinctNames(rest)
    ensures var rows := [(schemaFields[0], item[schemaFields[0]])] + rest;
      Lists(rows, Restrict(item, schemaFields)) && DistinctNames(rows)
    ensures (item - {schemaFields[0]}) - (set f | f in schemaFields[1..]) == item - (set f | f in schemaFields)
  {
    var sf := schemaFields[0];
    var rows := [(sf, item[sf])] + rest;
    PrependRowCovers(item, schemaFields, rest);
    forall i | 0 <= i < |rows| ensures rows[i].0 in Restrict(item, schemaFields) && rows[i].1 == Restrict(item, schemaFields)[rows[i].0] {
      if i > 0 {
        assert rows[i] == rest[i - 1];
      }
    }
    PrependRowDistinct(item, sf, rest);
  }

  lemma PrependRowCovers(item: DisplayItem, schemaFields: seq<string>, rest: seq<(string, string)>)
    requires schemaFields != [] && schemaFields[0] in item
    requires Lists(rest, Restrict(item - {schemaFields[0]}, schemaFields[1..]))
    ensures var rows := [(schemaFields[0], item[schemaFields[0]])] + rest;
      forall f :: f in Restrict(item, schemaFields) ==> exists i :: 0 <= i < |rows| && rows[i].0 == f
  {
    var sf := schemaFields[0];
    var rows := [(sf, item[sf])] + rest;
    forall f | f in Restrict(item, schemaFields) ensures exists i :: 0 <= i < |rows| && rows[i].0 == f {
      if f == sf {
        assert rows[0].0 == f;
      } else {
        assert f in Restrict(item - {sf}, schemaFields[1..]);
        var i :| 0 <= i < |rest| && rest[i].0 == f;
        assert rows[i + 1].0 == f;
      }
    }
  }

  lemma PrependRowDistinct(item: DisplayItem, sf: string, rest: seq<(string, string)>)
    requires sf in item
    requires forall i :: 0 <= i < |rest| ==> rest[i].0 in item - {sf}
    requires DistinctNames(rest)
    ensures DistinctNames([(sf, item[sf])] + rest)
  {
    var rows := [(sf, item[sf])] + rest;
    forall i, j | 0 <= i < j < |rows| ensures rows[i].0 != rows[j].0 {
      assert rows[j] == rest[j - 1];
      if i > 0 {
        assert rows[i] == rest[i - 1];
      }
    }
  }

  /** The first loop of the detail view: schema rows, deleting each listed field from the item. */
  method TakeSchemaRows(item: DisplayItem, schemaFields: seq<string>) returns (rows: seq<(string, string)>, remaining: DisplayItem)
    ensures (rows, remaining) == SchemaRows(item, schemaFields)
  {
    rows, remaining := [], item;
    assert schemaFields[0..] == schemaFields;
    for n := 0 to |schemaFields|
      invariant SchemaRows(item, schemaFields).0 == rows + SchemaRows(remaining, schemaFields[n..]).0
      invariant SchemaRows(item, schemaFields).1 == SchemaRows(remaining, schemaFields[n..]).1
    {
      var sf := schemaFields[n];
      assert schemaFields[n..][1..] == schemaFields[n + 1..];
      if sf in remaining {
        rows := rows + [(sf, remaining[sf])];
        remaining := remaining - {sf};
      }
    }
    assert schemaFields[|schemaFields|..] == [];
    assert SchemaRows(remaining, []) == ([], remaining);
    assert rows + [] == rows;
  }

  /** The second loop of the detail view: one row per remaining field, in map order. */
  method ListRemaining(remaining: DisplayItem) returns (rows: seq<(string, string)>)
    ensures Lists(rows, remaining) && DistinctNames(rows)
  {
    rows := [];
    var others := remaining.Keys;
    while others != {}
      invariant others <= remaining.Keys
      invariant forall i :: 0 <= i < |rows| ==> rows[i].0 in remaining && rows[i].0 !in others && rows[i].1 == remaining[rows[i].0]
      invariant forall k :: k in remaining && k !in others ==> exists i :: 0 <= i < |rows| && rows[i].0 == k
      invariant DistinctNames(rows)
      decreases others
    {
      var k :| k in others;
      ghost var before := rows;
      rows := rows + [(k, remaining[k])];
      others := others - {k};
      forall k' | k' in remaining && k' !in others ensures exists i :: 0 <= i < |rows| && rows[i].0 == k' {
        if k' == k {
          assert rows[|rows| - 1].0 == k';
        } else {
          var i :| 0 <= i < |before| && before[i].0 == k';
          assert rows[i] == before[i];
        }
      }
    }
  }

  lemma ListsDisjointUnion(a: seq<(string, string)>, b: seq<(string, string)>, m1: DisplayItem, m2: DisplayItem)
    requires Lists(a, m1) && DistinctNames(a) && Lists(b, m2) && DistinctNames(b)
    requires m1.Keys !! m2.Keys
    ensures Lists(a + b, m1 + m2) && DistinctNames(a + b)
  {
    var r := a + b;
    forall i, j | 0 <= i < j < |r| ensures r[i].0 != r[j].0 {
      if j < |a| {
        assert r[i] == a[i] && r[j] == a[j];
      } else if i >= |a| {
        assert r[i] == b[i - |a|] && r[j] == b[j - |a|];
      } else {
        assert r[i] == a[i] && r[j] == b[j - |a|];
        assert r[i].0 in m1 && r[j].0 in m2;
      }
    }
    forall k | k in m1 + m2 ensures exists i :: 0 <= i < |r| && r[i].0 == k {
      if k in m2 {
        var i :| 0 <= i < |b| && b[i].0 == k;
        assert r[|a| + i] == b[i];
      } else {
        var i :| 0 <= i < |a| && a[i].0 == k;
        assert r[i] == a[i];
      }
    }
    forall i | 0 <= i < |r| ensures r[i].0 in m1 + m2 && r[i].1 == (m1 + m2)[r[i].0] {
      if i < |a| {
        assert r[i] == a[i];
      } else {
        assert r[i] == b[i - |a|];
      }
    }
  }

  lemma RestrictSplits(item: DisplayItem, fields: seq<string>)
    ensures Restrict(item, fields).Keys !! (item - (set f | f in fields)).Keys
    ensures Restrict(item, fields) + (item - (set f | f in fields)) == item
  {
  }

  /**
   * The detail table of an item: the schema rows come first, in schema order,
   * then the other fields; every field of the item is on exactly one row,
   * showing its value, and the fields left after the first loop are those not
   * in the schema.
   */
  method DetailRows(item: DisplayItem, schemaFields: seq<string>) returns (rows: seq<(string, string)>, remaining: DisplayItem)
    ensures remaining == item - (set f | f in schemaFields)
    ensures |SchemaRows(item, schemaFields).0| <= |rows|
    ensures rows[..|SchemaRows(item, schemaFields).0|] == SchemaRows(item, schemaFields).0
    ensures Lists(rows, item) && DistinctNames(rows)
  {
    var schemaRows;
    schemaRows, remaining := TakeSchemaRows(item, schemaFields);
    var otherRows := ListRemaining(remaining);
    rows := schemaRows + otherRows;
    RestrictSplits(item, schemaFields);
    ListsDisjointUnion(schemaRows, otherRows, Restrict(item, schemaFields), remaining);
    assert rows[..|schemaRows|] == schemaRows;
  }

  /**
   * Enter on a detail row opens the JSON view only for a field whose raw
   * value is a list or a map; the field's value is what is shown.
   */
  function JsonViewValue(rawItem: RawItem, fieldName: string): (r: Option<Native>)
    ensures r.Some? <==> fieldName in rawItem && (rawItem[fieldName].NList? || rawItem[fieldName].NMap?)
    ensures r.Some? ==> r.value == rawItem[fieldName]
  {
    if fieldName in rawItem && (rawItem[fieldName].NList? || rawItem[fieldName].NMap?) then Some(rawItem[fieldName]) else None
  }

  /** For a converted item, the JSON view opens exactly for L and M attributes, never for string, number or binary sets. */
  lemma JsonViewOnlyForListsAndMaps(item: map<string, AttributeValue>, fieldName: string, parsesAsFloat: string -> bool)
    ensures JsonViewValue(RawItemOf(item, parsesAsFloat), fieldName).Some? <==>
      fieldName in item && (item[fieldName].L? || item[fieldName].M?)
  {
    if fieldName in item {
      var v := item[fieldName];
      assert RawItemOf(item, parsesAsFloat)[fieldName] == ToNative(v, parsesAsFloat);
      if v.N? {
        var n := NativeNumber(v.n, parsesAsFloat);
      }
    }
  }

  // ---------------------------------------------------------------------------
  // Export file name

  /**
   * `fmt.Sprintf("%v", v)` of a raw value; a missing key is the nil
   * interface. Floats, lists and maps are printed by `fmt` in ways this
   * model leaves to the parameter `otherText`.
   */
  function ValueText(v: Option<Native>, otherText: Native -> string): string
  {
    match v
    case None => "<nil>"
    case Some(n) =>
      match n
      case NString(s) => s
      case NInt(i) => FormatInt(i)
      case NBool(b) => if b then "true" else "false"
      case NNull => "<nil>"
      case NStrings(strs) => "[" + Join(strs, " ") + "]"
      case _ => otherText(n)
  }

  function Lookup(rawItem: RawItem, key: string): Option<Native>
  {
    if key in rawItem then Some(rawItem[key]) else None
  }

  /** Slash, space and colon each become an underscore. */
  function CleanName(s: string): (r: string)
    ensures |r| == |s|
    ensures '/' !in r && ' ' !in r && ':' !in r
    ensures forall i :: 0 <= i < |s| ==> r[i] == (if s[i] in {'/', ' ', ':'} then '_' else s[i])
  {
    ReplaceChar(ReplaceChar(ReplaceChar(s, '/', '_'), ' ', '_'), ':', '_')
  }

  /** Cleaning works character by character, so it distributes over concatenation. */
  lemma CleanNameAppend(a: string, b: string)
    ensures CleanName(a + b) == CleanName(a) + CleanName(b)
  {
    var l, r := CleanName(a + b), CleanName(a) + CleanName(b);
    forall i | 0 <= i < |a + b| ensures l[i] == r[i] {
      if i >= |a| { assert (a + b)[i] == b[i - |a|]; }
    }
  }

  /** The "_" between the key values survives cleaning. */
  lemma CleanNameAroundSeparator(pk: string, sk: string)
    ensures CleanName(pk + "_" + sk) == CleanName(pk) + "_" + CleanName(sk)
  {
    CleanNameAppend(pk + "_", sk);
    CleanNameAppend(pk, "_");
    assert CleanName("_") == "_";
  }

  /**
   * The name `saveItemAsJSON` writes to: the cleaned partition value, then
   * "_" and the cleaned sort value when the table has a sort key, then
   * ".json". A missing key attribute contributes "<nil>".
   */
  function ExportFileName(rawItem: RawItem, partitionKey: string, sortKey: string, otherText: Native -> string): (r: string)
    ensures var pkText := ValueText(Lookup(rawItem, partitionKey), otherText);
      var skText := ValueText(Lookup(rawItem, sortKey), otherText);
      r == CleanName(pkText) + (if sortKey != "" then "_" + CleanName(skText) else "") + ".json"
    ensures |r| >= 5 && r[|r| - 5..] == ".json"
    ensures forall i :: 0 <= i < |r| - 5 ==> r[i] != '/' && r[i] != ' ' && r[i] != ':'
  {
    var pk := ValueText(Lookup(rawItem, partitionKey), otherText);
    var sk := ValueText(Lookup(rawItem, sortKey), otherText);
    var stem := if sortKey != "" then pk + "_" + sk else pk;
    var r := CleanName(stem) + ".json";
    assert r[..|r| - 5] == CleanName(stem);
    CleanNameAroundSeparator(pk, sk);
    r
  }

  /** Two different items can be exported under the same name: the cleaning is not injective. */
  lemma ExportFileNamesCollide(otherText: Native -> string)
    ensures ExportFileName(map["pk" := NString("a b")], "pk", "", otherText)
         == ExportFileName(map["pk" := NString("a/b")], "pk", "", otherText)
  {
    assert CleanName("a b") == CleanName("a/b");
  }

  lemma CleanNameKeeps(s: string)
    requires '/' !in s && ' ' !in s && ':' !in s
    ensures CleanName(s) == s
  {
  }

  /** An item keyed by a number alone is exported under that number's decimal text. */
  lemma NumericKeyFileName(partitionKey: string, n: int, otherText: Native -> string)
    ensures ExportFileName(map[partitionKey := NInt(n)], partitionKey, "", otherText) == FormatInt(n) + ".json"
  {
    var t := FormatInt(n);
    assert forall i :: 0 <= i < |t| ==> t[i] == '-' || IsDigit(t[i]);
    CleanNameKeeps(t);
  }
}
