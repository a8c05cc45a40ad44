/**
 * Paging through Query and Scan results (main.go:466-606, with the Scan
 * twin at 884-1023). The backend only moves forward, from one continuation
 * token to the next. The results view adds a page number and a history of
 * the pages seen, so that "previous" can go back without asking the
 * backend again.
 *
 * The functions here are the transitions of that state machine on values;
 * the class in results_view.dfy performs them in place. Go maps are shared
 * by reference: `sharesHistory` records when the shown items are the very
 * maps stored in the history, which matters because opening an item
 * deletes fields from its map.
 */
module Paging {
  import opened Wrappers
  import opened DynamoClient
  import opened ItemView

  /** One `pageState` entry; the Query variant does not store raw items. */
  datatype PageState = PageState(items: seq<DisplayItem>, rawItems: seq<RawItem>, lastEvaluatedKey: Option<Token>)

  /**
   * The variables captured by the results-view closures: `currentPage`,
   * `pageHistory`, `result`, whether `result.Items` is the slice stored in
   * `pageHistory[currentPage-1]`, and whether the Next button is on screen.
   */
  datatype Pager = Pager(
    keepsRawItems: bool,
    currentPage: int,
    history: seq<PageState>,
    shown: QueryResult,
    sharesHistory: bool,
    nextButton: bool)

  /** What a history entry records of a fetched result. */
  function Remember(r: QueryResult, keepsRawItems: bool): PageState
  {
    PageState(r.items, if keepsRawItems then r.rawItems else [], r.lastEvaluatedKey)
  }

  /** The result rebuilt from a history entry by "previous". */
  function Restore(s: PageState): QueryResult
  {
    QueryResult(s.items, s.rawItems, s.lastEvaluatedKey)
  }

  /** Page 1 of a first result; the Next button exists only if that result has a token. */
  function Start(initial: QueryResult, keepsRawItems: bool): Pager
  {
    Pager(keepsRawItems, 1, [Remember(initial, keepsRawItems)], initial, true, initial.lastEvaluatedKey.Some?)
  }

  predicate WellFormedEntry(s: PageState, keepsRawItems: bool)
  {
    if keepsRawItems then |s.rawItems| == |s.items| else s.rawItems == []
  }

  /**
   * The invariant of the results view: the page number points into the
   * history, the shared page agrees with its entry, raw items are either
   * aligned with the items or (Query variant) absent, and the Next button is
   * on screen only while every page seen has a token.
   */
  predicate Valid(p: Pager)
  {
    && 1 <= p.currentPage <= |p.history|
    && (forall i :: 0 <= i < |p.history| ==> WellFormedEntry(p.history[i], p.keepsRawItems))
    && (p.sharesHistory ==>
          p.shown.items == p.history[p.currentPage - 1].items
          && p.shown.lastEvaluatedKey == p.history[p.currentPage - 1].lastEvaluatedKey
          && (p.keepsRawItems ==> p.shown.rawItems == p.history[p.currentPage - 1].rawItems))
    && (|p.shown.rawItems| == |p.shown.items| || (!p.keepsRawItems && p.shown.rawItems == []))
    && (p.nextButton ==>
          p.shown.lastEvaluatedKey.Some?
          && forall i :: 0 <= i < |p.history| ==> p.history[i].lastEvaluatedKey.Some?)
  }

  /** A backend whose successful results always have one raw item per item. */
  ghost predicate AlignedFetch(fetch: Option<Token> -> Result<QueryResult, BackendError>)
  {
    forall t :: fetch(t).Success? ==> |fetch(t).value.rawItems| == |fetch(t).value.items|
  }

  /** Ctrl+B and the Previous button. */
  function Previous(p: Pager): Pager
    requires 1 <= p.currentPage <= |p.history|
  {
    if p.currentPage > 1 then
      p.(currentPage := p.currentPage - 1,
         shown := Restore(p.history[p.currentPage - 2]),
         sharesHistory := true)
    else p
  }

  /**
   * A fetched page arrives: on error nothing changes; otherwise the page
   * number goes up, the page is appended only when it is beyond the end of
   * the history, it becomes the shown result, and the Next button goes away
   * if it has no token.
   */
  function Advance(p: Pager, outcome: Result<QueryResult, BackendError>): Pager
  {
    if outcome.Failure? then p
    else
      var r := outcome.value;
      var page := p.currentPage + 1;
      var appended := page > |p.history|;
      p.(currentPage := page,
         history := if appended then p.history + [Remember(r, p.keepsRawItems)] else p.history,
         shown := r,
         sharesHistory := appended,
         nextButton := p.nextButton && r.lastEvaluatedKey.Some?)
  }

  /** Ctrl+N: acted on only when the shown result has a token, and always asks the backend. */
  function CtrlN(p: Pager, fetch: Option<Token> -> Result<QueryResult, BackendError>): Pager
  {
    if p.shown.lastEvaluatedKey.None? then p else Advance(p, fetch(p.shown.lastEvaluatedKey))
  }

  /** The Next button: its handler does not look at the token itself. */
  function NextButton(p: Pager, fetch: Option<Token> -> Result<QueryResult, BackendError>): Pager
  {
    if !p.nextButton then p else Advance(p, fetch(p.shown.lastEvaluatedKey))
  }

  // ---------------------------------------------------------------------------
  // Invariant and history

  lemma StartValid(initial: QueryResult, keepsRawItems: bool)
    requires |initial.rawItems| == |initial.items|
    ensures Valid(Start(initial, keepsRawItems))
    ensures Start(initial, keepsRawItems).history[0] == Remember(initial, keepsRawItems)
  {
  }

  /** The history is kept as it was: same length, same entries. */
  predicate HistoryKept(p: Pager, q: Pager)
  {
    q.history == p.history
  }

  /** The history only grows at its end, by at most one page. */
  predicate HistoryExtended(p: Pager, q: Pager)
  {
    |p.history| <= |q.history| <= |p.history| + 1 && q.history[..|p.history|] == p.history
  }

  /**
   * Previous at page 1 does nothing; otherwise it steps back one page and
   * shows exactly the items and token stored for it, leaving the history
   * alone.
   */
  lemma PreviousSteps(p: Pager)
    requires Valid(p)
    ensures var q := Previous(p);
      && Valid(q) && HistoryKept(p, q)
      && (p.currentPage == 1 ==> q == p)
      && (p.currentPage > 1 ==>
            q.currentPage == p.currentPage - 1
            && q.shown.items == p.history[q.currentPage - 1].items
            && q.shown.lastEvaluatedKey == p.history[q.currentPage - 1].lastEvaluatedKey)
  {
  }

  /**
   * Ctrl+N changes nothing when the shown result has no token or the fetch
   * fails; otherwise the page number goes up by one, the fetched result is
   * shown, and a page is appended exactly when the new page number exceeds
   * the history's length.
   */
  lemma CtrlNSteps(p: Pager, fetch: Option<Token> -> Result<QueryResult, BackendError>)
    requires Valid(p) && AlignedFetch(fetch)
    ensures var q := CtrlN(p, fetch);
      && Valid(q) && HistoryExtended(p, q)
      && (p.shown.lastEvaluatedKey.None? ==> q == p)
      && (fetch(p.shown.lastEvaluatedKey).Failure? ==> q == p)
      && (p.shown.lastEvaluatedKey.Some? && fetch(p.shown.lastEvaluatedKey).Success? ==>
            q.currentPage == p.currentPage + 1
            && q.shown == fetch(p.shown.lastEvaluatedKey).value
            && (|q.history| == |p.history| + 1 <==> p.currentPage == |p.history|)
            && (|q.history| == |p.history| + 1 ==>
                  q.history[p.currentPage] == Remember(q.shown, p.keepsRawItems)))
  {
    if p.shown.lastEvaluatedKey.Some? && fetch(p.shown.lastEvaluatedKey).Success? {
      var q := CtrlN(p, fetch);
      assert |q.shown.rawItems| == |q.shown.items|;
      if q.sharesHistory {
        assert q.history == p.history + [Remember(q.shown, p.keepsRawItems)];
      }
    }
  }

  /** While the Next button is on screen, pressing it does exactly what Ctrl+N does. */
  lemma NextButtonIsCtrlN(p: Pager, fetch: Option<Token> -> Result<QueryResult, BackendError>)
    requires Valid(p) && p.nextButton
    ensures NextButton(p, fetch) == CtrlN(p, fetch)
  {
  }

  /** Once the Next button is gone it never comes back, and while it is there it keeps the invariant. */
  lemma NextButtonSteps(p: Pager, fetch: Option<Token> -> Result<QueryResult, BackendError>)
    requires Valid(p) && AlignedFetch(fetch)
    ensures Valid(NextButton(p, fetch)) && HistoryExtended(p, NextButton(p, fetch))
    ensures !p.nextButton ==> !NextButton(p, fetch).nextButton && !CtrlN(p, fetch).nextButton && !Previous(p).nextButton
  {
    if p.nextButton {
      NextButtonIsCtrlN(p, fetch);
      CtrlNSteps(p, fetch);
    }
  }

  /**
   * Going back and then forward again asks the backend for the page after
   * the restored one, rather than showing the stored page: the page number
   * and the history come back to where they were, and the shown result is
   * whatever the backend returns now, not tied to the history.
   */
  lemma BackThenForwardRefetches(p: Pager, fetch: Option<Token> -> Result<QueryResult, BackendError>)
    requires Valid(p) && p.currentPage > 1
    requires p.history[p.currentPage - 2].lastEvaluatedKey.Some?
    requires fetch(p.history[p.currentPage - 2].lastEvaluatedKey).Success?
    ensures var q := CtrlN(Previous(p), fetch);
      && q.currentPage == p.currentPage
      && q.history == p.history
      && q.shown == fetch(p.history[p.currentPage - 2].lastEvaluatedKey).value
      && !q.sharesHistory
  {
  }

  /** With a backend that answers every token as it did the first time, coming back shows the stored page again. */
  lemma BackThenForwardWithSteadyBackend(p: Pager, fetch: Option<Token> -> Result<QueryResult, BackendError>)
    requires Valid(p) && p.currentPage > 1
    requires p.history[p.currentPage - 2].lastEvaluatedKey.Some?
    requires fetch(p.history[p.currentPage - 2].lastEvaluatedKey).Success?
    requires Remember(fetch(p.history[p.currentPage - 2].lastEvaluatedKey).value, p.keepsRawItems) == p.history[p.currentPage - 1]
    ensures var q := CtrlN(Previous(p), fetch);
      Remember(q.shown, q.keepsRawItems) == q.history[q.currentPage - 1]
  {
    BackThenForwardRefetches(p, fetch);
  }

  /** Stepping back `k` times from page `c` lands on page max(1, c - k) and never touches the history. */
  function Back(p: Pager, k: nat): Pager
    requires 1 <= p.currentPage <= |p.history|
    decreases k
  {
    if k == 0 then p
    else
      var q := Previous(p);
      Back(q, k - 1)
  }

  lemma {:induction false} BackLandsOn(p: Pager, k: nat)
    requires Valid(p)
    ensures var q := Back(p, k);
      && Valid(q) && q.history == p.history
      && q.currentPage == (if p.currentPage - k >= 1 then p.currentPage - k else 1)
      && (k > 0 && p.currentPage > 1 ==>
            q.shown == Restore(p.history[q.currentPage - 1]) && q.sharesHistory)
    decreases k
  {
    if k > 0 {
      PreviousSteps(p);
      var q := Previous(p);
      BackLandsOn(q, k - 1);
      if p.currentPage > 1 && q.currentPage == 1 {
        assert Back(q, k - 1) == q by { BackAtFirstPage(q, k - 1); }
      }
    }
  }

  lemma {:induction false} BackAtFirstPage(p: Pager, k: nat)
    requires 1 == p.currentPage <= |p.history|
    ensures Back(p, k) == p
    decreases k
  {
    if k > 0 {
      BackAtFirstPage(Previous(p), k - 1);
    }
  }

  // ---------------------------------------------------------------------------
  // Opening an item

  datatype Opening =
    | Ignored
    | Panicked
    | Opened(schemaRows: seq<(string, string)>, otherFields: DisplayItem, rawItem: RawItem, after: Pager)

  /**
   * Enter on results row `row` (the header is row 0), as written: the row
   * must hold an item; `result.RawItems[row-1]` panics when the raw items
   * are missing; the detail view then deletes the schema fields from the
   * item's map, which is also the map in the history when the shown page is
   * shared with it.
   */
  function OpenItem(p: Pager, row: int, schemaFields: seq<string>): Opening
    requires 1 <= p.currentPage <= |p.history|
    requires p.sharesHistory ==> p.shown.items == p.history[p.currentPage - 1].items
  {
    if !(0 < row <= |p.shown.items|) then Ignored
    else if row > |p.shown.rawItems| then Panicked
    else
      var item := p.shown.items[row - 1];
      var split := SchemaRows(item, schemaFields);
      var entry := p.history[p.currentPage - 1];
      Opened(split.0, split.1, p.shown.rawItems[row - 1],
        p.(shown := p.shown.(items := p.shown.items[row - 1 := split.1]),
           history := if p.sharesHistory then p.history[p.currentPage - 1 := entry.(items := entry.items[row - 1 := split.1])] else p.history))
  }

  /** Opening an item keeps the paging invariant and the page number. */
  lemma OpenItemValid(p: Pager, row: int, schemaFields: seq<string>)
    requires Valid(p)
    ensures var o := OpenItem(p, row, schemaFields);
      o.Opened? ==> Valid(o.after) && o.after.currentPage == p.currentPage && |o.after.history| == |p.history|
  {
  }

  /**
   * As written, the Query view cannot open an item once "previous" has been
   * used: the restored result has no raw items, so any row with an item
   * panics.
   */
  lemma QueryRowAfterPreviousPanics(p: Pager, row: int, schemaFields: seq<string>)
    requires Valid(p) && !p.keepsRawItems && p.currentPage > 1
    requires 0 < row <= |p.history[p.currentPage - 2].items|
    ensures OpenItem(Previous(p), row, schemaFields) == Panicked
  {
  }

  /** Keeping raw items in the history, as the Scan view does, every row with an item opens. */
  lemma RowsOpenWhenRawItemsKept(p: Pager, row: int, schemaFields: seq<string>)
    requires Valid(p) && p.keepsRawItems
    requires 0 < row <= |p.shown.items|
    ensures OpenItem(p, row, schemaFields).Opened?
  {
  }

  /**
   * As written, opening an item deletes its schema fields: opened a second
   * time it has no schema rows and none of its schema fields appears at
   * all; when the page is shared with the history, the stored page is
   * changed too, so that page's key cell later prints "<nil>".
   */
  lemma ReopeningLosesSchemaFields(p: Pager, row: int, schemaFields: seq<string>, partitionKey: string)
    requires Valid(p)
    requires OpenItem(p, row, schemaFields).Opened?
    ensures var after := OpenItem(p, row, schemaFields).after;
      var again := OpenItem(after, row, schemaFields);
      && again.Opened?
      && again.schemaRows == []
      && (forall f :: f in schemaFields ==> f !in again.otherFields)
      && (p.sharesHistory && partitionKey in schemaFields ==>
            KeyCell(after.history[p.currentPage - 1].items[row - 1], partitionKey) == "<nil>")
  {
    var o := OpenItem(p, row, schemaFields);
    OpenItemValid(p, row, schemaFields);
    var item := o.after.shown.items[row - 1];
    NoSchemaRowsWithoutSchemaFields(item, schemaFields);
  }

  lemma {:induction false} NoSchemaRowsWithoutSchemaFields(item: DisplayItem, schemaFields: seq<string>)
    requires forall f :: f in schemaFields ==> f !in item
    ensures SchemaRows(item, schemaFields).0 == []
    decreases |schemaFields|
  {
    if schemaFields != [] {
      NoSchemaRowsWithoutSchemaFields(item, schemaFields[1..]);
    }
  }

  /**
   * The intended behaviour: the detail view works on a copy of the item, so
   * nothing the results view holds changes, and opening the same row again
   * lists the same schema rows and the same other fields.
   */
  function OpenItemCopy(p: Pager, row: int, schemaFields: seq<string>): (o: Opening)
    requires 1 <= p.currentPage <= |p.history|
    requires p.sharesHistory ==> p.shown.items == p.history[p.currentPage - 1].items
    ensures o.Opened? ==> o.after == p
  {
    if !(0 < row <= |p.shown.items|) then Ignored
    else if row > |p.shown.rawItems| then Panicked
    else
      var split := SchemaRows(p.shown.items[row - 1], schemaFields);
      Opened(split.0, split.1, p.shown.rawItems[row - 1], p)
  }

  /** Opening from a copy lists every field of the item once, schema fields first, however often it is repeated. */
  lemma OpenItemCopyRepeatable(p: Pager, row: int, schemaFields: seq<string>)
    requires Valid(p)
    ensures var o := OpenItemCopy(p, row, schemaFields);
      o.Opened? ==>
        && OpenItemCopy(o.after, row, schemaFields) == o
        && Lists(o.schemaRows, Restrict(p.shown.items[row - 1], schemaFields))
        && o.otherFields == p.shown.items[row - 1] - (set f | f in schemaFields)
        && o.otherFields.Keys + (set i | 0 <= i < |o.schemaRows| :: o.schemaRows[i].0) == p.shown.items[row - 1].Keys
  {
    var o := OpenItemCopy(p, row, schemaFields);
    if o.Opened? {
      var item := p.shown.items[row - 1];
      RestrictSplits(item, schemaFields);
      var names := set i | 0 <= i < |o.schemaRows| :: o.schemaRows[i].0;
      assert names == Restrict(item, schemaFields).Keys by {
        forall k | k in Restrict(item, schemaFields) ensures k in names {
          var i :| 0 <= i < |o.schemaRows| && o.schemaRows[i].0 == k;
        }
      }
    }
  }
}
