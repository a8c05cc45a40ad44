# ddb-explorer core in Dafny

ddb-explorer is a terminal browser for DynamoDB tables. It lists the tables of an
account, sorted by item count. It opens a table on a Query tab (partition key,
optional sort-key condition) or a Scan tab. It pages through the results 15 items
at a time, and opens one item in a detail view, from which a field can be shown
as JSON or the item exported to a file.

This project models the logic behind those screens:

- **`AttributeCodec`** (`codec.dfy`): the attribute-value union and its two
  conversions. One is the display string; the other is the native value tree
  that is later written as JSON.
- **`DynamoClient`** (`client.dfy`): the shaping of Query and Scan requests
  and responses.
  - The key-condition expression and its placeholder tables.
  - The continuation token in both directions.
  - The paired display/raw projections of every returned item.
  - The backend itself is a function parameter.
- **`TableCatalog`** (`table_info.dfy`): `getTableInfo` and `ListTables`.
  - Key schema extraction.
  - Tables whose describe fails are skipped.
  - The list is sorted by item count.
- **`Formatting`** (`numbers.dfy`): `formatWithCommas` and the unit choice of
  `formatBytes`.
- **`ItemView`** (`item_view.dfy`): what the results table and the detail view show.
  - Preview columns and cell truncation.
  - Detail-row order.
  - Which fields open the JSON view.
  - The export file name.
- **`Paging`** (`paging.dfy`): the results view's paging state machine, on
  values.
  - It tracks `currentPage`, `pageHistory`, the shown result and the Next button.
  - It records whether the shown items are the very maps stored in the history.
    Go maps are references, and opening an item deletes from its map.
- **`ResultsPage`** (`results_view.dfy`): a class whose fields are the
  variables the results-view closures capture. Each handler is proved to
  perform the matching `Paging` transition.
- **`TableListScreen`** and **`TableAction`** (`table_list.dfy`,
  `table_action.dfy`): the start screen with its row selection, and the action
  page with its tab switching and Query form.
- **`GoText`** and **`Wrappers`**: the `strconv`/`strings` pieces the code
  relies on, and `Option`/`Result`.

Parameters stand in for what is not modelled:

- **The backend calls:** `ListTables`, `DescribeTable`, `Query` and `Scan`.
- **`parsesAsFloat`:** whether `strconv.ParseFloat` accepts a text.
- **`fixed2`:** the `%.2f` rendering of a quotient.
- **`otherText`:** `%v` of a float, list or map.

Go strings are sequences of characters, one per byte.

Some behaviours of the code are easy to miss:

- **Next always re-fetches.** "Next" always asks the backend again, even when
  the next page is already in the history.
- **`between` has one bound.** The `between` condition binds no value for
  `:sk2`.
- **Switching tabs clears the form.** It rebuilds the form, so values typed
  before are lost.
- **Arrow keys are passed on.** Left and Right go on to the form after
  flipping the tab. Ctrl+Q and Ctrl+S are swallowed.

## Model

| member | source | states |
|---|---|---|
| GoText.FormatInt | main.go:115 | `strconv.FormatInt(n, 10)` is non-empty, starts with `-` exactly for negative n, and is otherwise all digits |
| GoText.ParseInt64 | aws/dynamodb.go:96 | a successful `strconv.ParseInt(_, 10, 64)` yields an int64, and the text starts with a digit or a sign |
| GoText.DecimalValue | main.go:115 | reading the decimal digits of n back as a number gives n |
| GoText.ParseFormatInt64 | aws/dynamodb.go:96-97 | parsing the base-10 text of any int64 gives the same int64 back |
| GoText.ReplaceChar | main.go:639-641 | `strings.ReplaceAll` of one character keeps the length and every other character, replaces each occurrence, and leaves none behind |
| AttributeCodec.BinaryPlaceholders | aws/dynamodb.go:149-154 | one `<binary: n bytes>` text per blob, n being that blob's length |
| AttributeCodec.Format | aws/dynamodb.go:137-174 | lists and sets display inside `[` `]`, maps inside `{` `}`; the text of every variant is stated by the display lemmas below (scalars, sets, any list, maps) |
| AttributeCodec.NativeNumber | aws/dynamodb.go:94-102 | an N value becomes an int64 exactly when its text parses as one, else a float exactly when it parses as a float (same text), else the text itself |
| AttributeCodec.ToNative | aws/dynamodb.go:90-134 | the native value has the matching Go type: a slice exactly for L, a map exactly for M, a bool exactly for BOOL, nil exactly for NULL, a string slice exactly for SS, NS and BS, and a number only for N |
| AttributeCodec.NativeFieldsKeys | aws/dynamodb.go:113-118 | the native map of an M value has exactly the M's attribute names as keys |
| AttributeCodec.NativeFieldsAt | aws/dynamodb.go:113-118 | each key of the native map holds the native conversion of that attribute's value |
| AttributeCodec.ToNativePreservesShape | aws/dynamodb.go:90-134 | the native tree has the value's shape: L and BS keep their length, M keeps its key set, SS/NS pass through, nested values recursively |
| AttributeCodec.ScalarNativeMatchesDisplay | aws/dynamodb.go:90-173 | each scalar's native value carries its display text: S, B and unknown values become that string, an integer N parses back from it, a float N keeps it, BOOL is true exactly when it shows `true`, NULL is nil and shows `null` |
| AttributeCodec.EmptyCollectionDisplay | aws/dynamodb.go:145-166 | empty L, SS, NS and BS display as `[]`, an empty M as `{}` |
| AttributeCodec.DisplayEmptyOnlyForEmptyText | aws/dynamodb.go:137-173 | the display is empty exactly for an empty S or N |
| AttributeCodec.StringListDisplaysLikeSet | aws/dynamodb.go:145-160 | a list of strings, a string set and a number set with the same texts display identically |
| AttributeCodec.ListDisplaysLikeSetOfElementTexts | aws/dynamodb.go:155-160 | any list displays like the string set of its element texts: those texts joined by `, ` in brackets |
| AttributeCodec.BinarySetDisplaysLikeList | aws/dynamodb.go:143-160 | a binary set displays like the list of its blobs |
| AttributeCodec.MapDisplaysLikePairList | aws/dynamodb.go:145-166 | an M displays like the list of its `name: value` pair texts, with braces instead of brackets |
| AttributeCodec.BinaryNativeMatchesDisplay | aws/dynamodb.go:123-130 | B and every BS element convert to the same `<binary: n bytes>` text the display uses |
| AttributeCodec.SetDisplayJoinsNativeMembers | aws/dynamodb.go:119-160 | the display of an SS, NS or BS is its native string slice joined by `, ` in brackets; SS and NS keep their own members |
| AttributeCodec.NumberFidelity | aws/dynamodb.go:94-102 | `42` and `-7` become integers, `3.14` a float when it parses, `abc` stays text |
| AttributeCodec.IntegerNumberRoundTrip | aws/dynamodb.go:94-97 | the base-10 text of any int64, stored as N, converts back to that int64 |
| DynamoClient.KeyConditionFor | aws/dynamodb.go:181-227 | the key condition of a query; what it binds and references is stated by DynamoClient.KeyConditionBindings and DynamoClient.KeyConditionReferences |
| DynamoClient.ComparisonExpression | aws/dynamodb.go:208-219 | each comparison clause references exactly `#pk`, `:pk`, `#sk`, `:sk` |
| DynamoClient.BeginsWithExpression | aws/dynamodb.go:210-211 | the begins_with clause references exactly `#pk`, `:pk`, `#sk`, `:sk` |
| DynamoClient.BetweenExpression | aws/dynamodb.go:220-223 | the between clause references `#pk`, `:pk`, `#sk`, `:sk` and `:sk2` |
| DynamoClient.ExpressionPlaceholders | aws/dynamodb.go:205-224 | the placeholders of the expression for every condition: five for between, four for a known operator, only the partition pair otherwise |
| DynamoClient.ExpressionStartsWithPartitionClause | aws/dynamodb.go:181-222 | every expression starts with `#pk = :pk` |
| DynamoClient.KeyConditionBindings | aws/dynamodb.go:181-227 | `#pk` and `:pk` are always bound to the partition key and S(value); `#sk`/`:sk` are bound exactly when sort key and sort value are both non-empty, to those; nothing else is bound |
| DynamoClient.SortClauseReferences | aws/dynamodb.go:205-226 | with a sort clause, only `:sk2` of between is referenced but unbound, and an unrecognised operator leaves `#sk`/`:sk` bound but unreferenced |
| DynamoClient.BoundKeys | aws/dynamodb.go:182-226 | the bound placeholders are the partition pair, plus the sort pair exactly when a sort clause applies |
| DynamoClient.PartitionOnlyReferences | aws/dynamodb.go:181-186 | the partition-only expression references exactly what it binds |
| DynamoClient.KeyConditionReferences | aws/dynamodb.go:181-227 | referenced minus bound is `{:sk2}` for between and empty otherwise; bound minus referenced is `{#sk, :sk}` for an unrecognised operator and empty otherwise |
| DynamoClient.StartKeyOf | aws/dynamodb.go:190-203 | the start key has exactly the token's string and int64 entries; other types are dropped |
| DynamoClient.TokenOf | aws/dynamodb.go:246-253 | the token has exactly the LastEvaluatedKey's names, every value a string, and an S value keeps its own text |
| DynamoClient.TokenRoundTrip | aws/dynamodb.go:190-253 | a LastEvaluatedKey turned into a token and back becomes S of each value's display text |
| DynamoClient.StringTokenRoundTrips | aws/dynamodb.go:190-253 | a LastEvaluatedKey of S values only comes back exactly |
| DynamoClient.NumberKeyComesBackAsString | aws/dynamodb.go:190-253 | an N key comes back as S of the same text, so the key differs from the original |
| DynamoClient.ExclusiveStartKey | aws/dynamodb.go:190-203 | the loop builds StartKeyOf(token): string to S, int64 to N of its decimal text |
| DynamoClient.LastKey | aws/dynamodb.go:246-253 | the loop builds the token of display strings |
| DynamoClient.ResultProjectionsPaired | aws/dynamodb.go:234-255 | Items and RawItems have the page's length, each pair has the item's key set, and each value is the display/native conversion of the same attribute; a token exactly when the page has one |
| DynamoClient.ConvertItem | aws/dynamodb.go:238-243 | the inner loop builds the display and raw maps of one item |
| DynamoClient.ConvertPage | aws/dynamodb.go:234-255 | the conversion loops build the paired result of a page |
| DynamoClient.QueryOf | aws/dynamodb.go:176-256 | the query fails exactly when the backend fails, with the backend's error; a success is paired, has one item per returned item, and has a token exactly when the page has a LastEvaluatedKey |
| DynamoClient.ScanOf | aws/dynamodb.go:259-308 | the scan fails exactly when the backend fails, with the backend's error; a success is paired, has one item per returned item, and has a token exactly when the page has a LastEvaluatedKey |
| DynamoClient.Query | aws/dynamodb.go:176-256 | Query with the key condition, limit 15 and the start key; the backend error is returned as is |
| DynamoClient.Scan | aws/dynamodb.go:259-308 | Scan with limit 15 and the start key; the backend error is returned as is |
| TableCatalog.LastKeyIsNamed | aws/dynamodb.go:323-333 | the chosen HASH/RANGE key is empty or one of the key schema's names |
| TableCatalog.KeysAreSchemaFields | aws/dynamodb.go:310-359 | a non-empty partition or sort key is among the schema fields |
| TableCatalog.ReadKeySchema | aws/dynamodb.go:323-333 | the partition key is the last HASH name, the sort key the last RANGE name, and every non-nil name is collected |
| TableCatalog.AddIndexKeys | aws/dynamodb.go:336-342 | every non-nil key name of every GSI is added |
| TableCatalog.SetToFields | aws/dynamodb.go:345-348 | the slice is duplicate-free and holds exactly the set's names |
| TableCatalog.GetTableInfo | aws/dynamodb.go:310-359 | the info carries the description's status, count and size, the HASH/RANGE keys, and the duplicate-free union of table and GSI key names |
| TableCatalog.DescribableNames | aws/dynamodb.go:63-70 | a name is kept exactly when it is listed and its describe succeeds; no more names than listed |
| TableCatalog.SortByItemCount | aws/dynamodb.go:72-75 | the slice ends sorted by item count, non-increasing, and is a permutation of the input |
| TableCatalog.ListTables | aws/dynamodb.go:56-78 | a listing error is returned; otherwise exactly the describable tables, in a permutation sorted by item count |
| Formatting.CommaGrouped | main.go:114-125 | the grouping the loop produces; stated by Formatting.CommaGroupedIsGrouped and Formatting.CommaGroupedRoundTrip |
| Formatting.FormatWithCommas | main.go:114-125 | the loop returns the three-digit grouping of the decimal text |
| Formatting.CommaGroupedRoundTrip | main.go:114-125 | removing the commas gives the grouped text back |
| Formatting.CommaGroupedIsGrouped | main.go:114-125 | a digit string is grouped with a comma exactly at every fourth position from the right, and its length grows by one per extra group |
| Formatting.NonNegativeCountGrouping | main.go:114-125 | for n >= 0 the output is grouped by thousands and its digits are n's decimal digits |
| Formatting.NegativeSignGrouping | main.go:114-125 | the sign counts as a character: -123 is shown as `-,123`, -1234 as `-1,234` |
| Formatting.UnitFor | main.go:135-144 | GB from 1 GiB up, MB from 1 MiB, KB from 1 KiB, B below |
| Formatting.UnitScales | main.go:129-144 | the chosen unit fits at least once, and below GB less than 1024 times |
| Formatting.FormatBytes | main.go:128-145 | `formatBytes`; its cases are stated by Formatting.FormatBytesCases |
| Formatting.FormatBytesCases | main.go:128-145 | below 1 KiB the exact byte count plus ` B`, which parses back; above, the quotient by 1024, 1024² or 1024³ plus the unit |
| ItemView.Eligible | main.go:403-413 | a candidate is kept exactly when the item has it and it is neither key; at most as many as the candidates |
| ItemView.EligibleDistinct | main.go:402-413 | distinct candidates give distinct eligible fields |
| ItemView.PreviewFields | main.go:398-414 | the preview columns; stated by ItemView.PreviewFieldsFacts and ItemView.PickPreviewFields |
| ItemView.PreviewFieldsFacts | main.go:398-414 | at most 2 preview fields, distinct, all from the candidate list, present in the first item and not a key; fewer than 2 only when no other candidate qualifies |
| ItemView.PickPreviewFields | main.go:403-413 | the loop with its `break` returns the first two eligible candidates in list order |
| ItemView.DetectPreviewFields | main.go:398-414 | no preview fields without items; otherwise those of the first item |
| ItemView.TruncateCell | main.go:450-453 | a cell is at most 50 long; up to 50 it is unchanged; longer, it is its first 47 characters and `...` |
| ItemView.TruncateIdempotent | main.go:450-453 | truncating twice is truncating once |
| ItemView.KeyCell | main.go:437-442 | a key cell shows the item's value, or `<nil>` when the item lacks the key |
| ItemView.RowCells | main.go:428-458 | the cells of one results row; stated by ItemView.RowMatchesHeaders |
| ItemView.RowMatchesHeaders | main.go:416-458 | a row has one cell per header: key cells under the key headers, truncated preview cells under the rest |
| ItemView.SchemaRows | main.go:685-697 | the schema rows list exactly the item's schema fields, once each, in the order the fields first occur in the schema list; what remains is the item minus the schema fields |
| ItemView.TakeSchemaRows | main.go:685-697 | the loop with its `delete` produces the schema rows and the reduced item |
| ItemView.ListRemaining | main.go:699-708 | the remaining fields are listed once each |
| ItemView.DetailRows | main.go:682-708 | the detail rows list every field of the item exactly once, schema fields first in schema order; the item ends without its schema fields |
| ItemView.JsonViewValue | main.go:726-729 | the JSON view opens exactly for a field whose native value is a list or a map, and shows that value |
| ItemView.JsonViewOnlyForListsAndMaps | main.go:726-729 | the JSON view opens exactly for attributes of type L or M |
| ItemView.ValueText | main.go:632-636 | `%v` of a key value, `<nil>` for a missing key; stated by ItemView.ExportFileName and ItemView.NumericKeyFileName |
| ItemView.CleanName | main.go:639-641 | every `/`, space and `:` becomes `_`, nothing else changes |
| ItemView.ExportFileName | main.go:630-642 | the name is the cleaned partition value, then `_` and the cleaned sort value when the table has a sort key, then `.json`; before `.json` there is no `/`, space or `:` |
| ItemView.ExportFileNamesCollide | main.go:639-641 | keys `a b` and `a/b` are exported under the same name |
| ItemView.CleanNameKeeps | main.go:639-641 | a name without those characters is unchanged |
| ItemView.NumericKeyFileName | main.go:632-642 | an integer partition key is exported as its decimal text plus `.json` |
| Paging.Start | main.go:471-478 | the first-page state; stated by Paging.StartValid |
| Paging.Previous | main.go:543-549 | the Previous transition; stated by Paging.PreviousSteps and Paging.BackLandsOn |
| Paging.Advance | main.go:561-568 | showing a fetched page; stated through Paging.CtrlNSteps and Paging.NextButtonSteps |
| Paging.CtrlN | main.go:590-607 | the Ctrl+N transition; stated by Paging.CtrlNSteps |
| Paging.NextButton | main.go:553-577 | the Next button transition; stated by Paging.NextButtonIsCtrlN and Paging.NextButtonSteps |
| Paging.Back | main.go:583-589 | k presses of Previous; stated by Paging.BackLandsOn and Paging.BackAtFirstPage |
| Paging.OpenItem | main.go:608-708 | Enter on a results row; stated by Paging.OpenItemValid, Paging.QueryRowAfterPreviousPanics and Paging.ReopeningLosesSchemaFields |
| Paging.StartValid | main.go:471-478 | the first page opens at page 1 with a one-entry history recording the first result, and the state is valid |
| Paging.PreviousSteps | main.go:583-589 | at page 1 nothing changes; otherwise the page decreases by one and the items and token stored for it are shown; the history is unchanged |
| Paging.CtrlNSteps | main.go:590-607 | without a token or on a fetch error nothing changes; otherwise the page increases by one, the fetched result is shown, and a page is appended exactly when the new page is beyond the history |
| Paging.NextButtonIsCtrlN | main.go:553-577 | while the Next button is on screen it does what Ctrl+N does |
| Paging.NextButtonSteps | main.go:553-577 | the button keeps the state valid and the history extended, and once removed it never comes back |
| Paging.BackThenForwardRefetches | main.go:590-601 | back then forward returns to the same page with the same history, but shows a fresh fetch, not the stored maps |
| Paging.BackThenForwardWithSteadyBackend | main.go:590-603 | if the backend returns the same page again, what is shown matches the history entry |
| Paging.BackLandsOn | main.go:583-589 | k steps back land on max(page-k, 1) with the history untouched, showing the stored entry |
| Paging.BackAtFirstPage | main.go:583-589 | at page 1, going back changes nothing |
| Paging.OpenItemValid | main.go:608-697 | opening an item keeps the state valid, the page and the history length |
| Paging.QueryRowAfterPreviousPanics | main.go:608-612 | in the Query view, Enter on a row after going back indexes missing raw items |
| Paging.RowsOpenWhenRawItemsKept | main.go:1024-1028 | when the history keeps raw items, every drawn row opens |
| Paging.ReopeningLosesSchemaFields | main.go:685-697 | opening the same item again shows no schema rows, and the page's stored key cell shows `<nil>` |
| Paging.NoSchemaRowsWithoutSchemaFields | main.go:685-697 | an item without schema fields yields no schema rows |
| Paging.OpenItemCopy | main.go:682-708 | opening an item leaves the view state unchanged |
| Paging.OpenItemCopyRepeatable | main.go:682-708 | opening an item is repeatable, lists its schema fields first and keeps every field |
| ResultsPage.SourcesAreAligned | main.go:590-592 | Query and Scan sources return raw items aligned with the items |
| ResultsPage.ResultsView.constructor | main.go:471-478 | the view starts in the first-page state, valid, keeping raw items only for Scan |
| ResultsPage.ResultsView.Fetch | main.go:590-592 | the next page comes from the view's Query or Scan with the shown token |
| ResultsPage.ResultsView.Previous | main.go:543-549 | the Previous button performs the Previous transition and keeps the state valid |
| ResultsPage.ResultsView.ShowNext | main.go:561-568 | a fetched page is shown by the Advance transition |
| ResultsPage.ResultsView.CtrlN | main.go:590-607 | Ctrl+N performs the CtrlN transition and keeps the state valid |
| ResultsPage.ResultsView.PressNext | main.go:555-574 | the Next button performs its transition and keeps the state valid |
| ResultsPage.ResultsView.Enter | main.go:608-708 | Enter ignores rows out of range, crashes where raw items are missing, and otherwise lists every field once, schema fields first, deleting them from the shown map |
| TableListScreen.ListRows | main.go:241-263 | a header row, then `Error: <message>` for a failed listing, `No tables found.` for an empty one, or one row per table in order |
| TableListScreen.SelectTable | main.go:273-279 | a table is selected exactly for rows 1..n, and it is the one drawn on that row |
| TableListScreen.TableList.constructor | main.go:19 | nothing is listed before the tables load |
| TableListScreen.TableList.Load | main.go:233-265 | the screen shows the rows of the listing; the remembered tables change only on a non-empty listing |
| TableListScreen.TableList.Enter | main.go:273-279 | Enter selects as SelectTable does |
| TableListScreen.TableRow | main.go:258-262 | the cells of one table row; stated by TableListScreen.TableRowCells |
| TableListScreen.TableRowCells | main.go:258-262 | four cells: name, status, and a count whose digits are the item count |
| TableListScreen.SelectionMatchesDrawnRow | main.go:256-279 | the selectable rows are exactly the drawn table rows, and the selection is the table on the row |
| TableListScreen.NothingSelectableWithoutTables | main.go:250-279 | with no tables remembered, Enter selects nothing |
| TableAction.FormFor | main.go:343-352 | the Scan tab has no inputs and a `Scan <table>` button; the Query tab has one input per key attribute plus the condition drop-down for a sort key; every input starts empty and the drop-down starts on `=` |
| TableAction.KeyEffectOf | main.go:1207-1248 | the effect of a key press; stated by TableAction.KeyEffects |
| TableAction.ReadQueryForm | main.go:353-379 | what the Query button reads; stated by TableAction.QueryFormReadable and TableAction.QueryFormWithoutPartitionKey |
| TableAction.KeyEffects | main.go:1207-1248 | Ctrl+Q/Ctrl+S select their tab and are swallowed; Left/Right flip the tab and pass on; the form is rebuilt exactly when the tab changes; Esc leaves |
| TableAction.SelectingCurrentTabKeepsForm | main.go:1210-1231 | selecting the tab already shown does not rebuild the form |
| TableAction.QueryFormReadable | main.go:353-379 | a Query form of a table with a partition key reads to the table, key and typed value; a sort clause exactly when the table has a sort key and a sort value was typed, with the chosen condition |
| TableAction.QueryFormWithoutPartitionKey | main.go:356-361 | for a table with a sort key but no partition key, item 0 of the form is the sort-key input and item 1 the drop-down, so the input-field type assertion on item 1 panics and the form cannot be read |
| TableAction.TableActionPage.constructor | main.go:1202-1206 | the page opens on the Query tab with its fresh form |
| TableAction.TableActionPage.HandleKey | main.go:1207-1248 | a key sets the tab, rebuilds the form or keeps it, leaves the page on Esc, and passes on every key except Ctrl+Q/Ctrl+S |
| TableAction.TableActionPage.Type | main.go:347-350 | typing changes only that input field's text |
| TableAction.TableActionPage.PressQuery | main.go:353-379 | pressing Query reads the form as ReadQueryForm does |
| TableAction.FlippingTwiceClearsForm | main.go:1232-1234 | flipping away and back returns to the tab, with every input empty |

## Left out

- The AWS SDK client is a parameter: `NewClient`, `TestConnection` and the
  network calls.
- tview/tcell widgets are not modelled: colours, help text, page headers
  ("Page n") and the "No items found." placeholder row.
- The goroutines and `QueueUpdateDraw` are not modelled. Their bodies are
  taken as sequential steps.
- `json.MarshalIndent` and `os.WriteFile` are not modelled, for both export and
  the JSON viewer. Only the file name and the choice of fields that open the
  viewer are modelled.
- JSON viewer scrolling is not modelled, because it depends on widget geometry.
- Esc and `q` on the table list stop the application; process exit and flag
  parsing are not part of this model.
- Formatting.FormatBytes: the `%.2f` text is the parameter `fixed2`, so only
  the unit choice and the divisor are proved.
- AttributeCodec.NativeNumber: `strconv.ParseFloat` is the parameter
  `parsesAsFloat`. A float is kept as its text.
- ItemView.ExportFileName: `%v` of a float, list or map key is the parameter
  `otherText`.
- Go map iteration order is unspecified. The model's loops pick the next key
  arbitrarily, and M values are entry sequences in visiting order:
  - TableCatalog.SetToFields: the order of `SchemaFields` is not stated.
  - ItemView.ListRemaining: the order of the non-schema detail rows is not
    stated.
- TableCatalog.SortByItemCount: an insertion sort stands for `sort.Slice`.
  The order among equal item counts is not specified by the source, and it is
  not stated.
- ItemView.TruncateCell: lengths count characters, one per byte. A multi-byte
  UTF-8 character is not modelled, so a cut inside one is not captured.
- TableCatalog.GetTableInfo: `ItemCount` and `TableSizeBytes` are taken to be
  present in every DescribeTable response, as DynamoDB returns them. The nil
  dereference at aws/dynamodb.go:353-354, which would panic inside the listing
  goroutine rather than skip the table, is not modelled.
- Item counts and sizes are unbounded integers. The int64 range is modelled
  only where text is parsed (`ParseInt64`).
- TableAction.QueryFormWithoutPartitionKey: a table without a HASH key does
  not exist in DynamoDB. The panic it shows is noted, not treated as a finding.
- ResultsPage.ResultsView.Fetch: the view's backend is one pure function for
  the view's whole life, so two fetches with the same token return the same
  page. A table that changes between Next presses is not expressed at the
  class level; the Paging lemmas take the fetch function per step and do cover
  it (Paging.BackThenForwardRefetches).
- Formatting.NegativeSignGrouping: the `-,123` grouping of a negative number
  is shown, not corrected. Item counts are never negative.

## Findings

| source | as written | input that shows it | evidently intended | confidence | as-written member | corrected member |
|---|---|---|---|---|---|---|
| main.go:474-478 | the Query view's history entry stores no raw items, so a page restored by Previous has none, and Enter indexes `RawItems[row-1]` of an empty slice | a Query with a continuation token: Next, then Previous, then Enter on row 1 | the history keeps raw items, as the Scan view does (main.go:888-893), so every drawn row opens | not executed | Paging.QueryRowAfterPreviousPanics | Paging.RowsOpenWhenRawItemsKept |
| main.go:694 | the detail view deletes schema fields from the item map itself, which is shared with `result.Items` and the page history | open an item with a schema field, close it, open it again | the detail view lists from a copy, so reopening shows the same rows and the results table keeps its key cells | not executed | Paging.ReopeningLosesSchemaFields | Paging.OpenItemCopy |
