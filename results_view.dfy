/**
 * The results view as the closures in main.go run it: the captured
 * variables `currentPage`, `pageHistory` and `result` become fields that the
 * key and button handlers update in place. Every handler is proved to
 * perform the corresponding transition of the Paging state machine.
 */
module ResultsPage {
  import opened Wrappers
  import opened DynamoClient
  import opened ItemView
  import opened Paging

  /** Where further pages come from: the Query the view was opened with, or a Scan of the table. */
  datatype Source =
    | QuerySource(querySvc: QueryInput -> Result<Page, BackendError>, queryFloats: string -> bool, params: QueryParams)
    | ScanSource(scanSvc: ScanInput -> Result<Page, BackendError>, scanFloats: string -> bool, tableName: string)

  /** The page that follows a token, as the view's source returns it. */
  function FetchOf(source: Source, token: Option<Token>): Result<QueryResult, BackendError>
  {
    match source
    case QuerySource(svc, parsesAsFloat, params) => QueryOf(svc, parsesAsFloat, params, token)
    case ScanSource(svc, parsesAsFloat, tableName) => ScanOf(svc, parsesAsFloat, tableName, token)
  }

  function Fetcher(source: Source): Option<Token> -> Result<QueryResult, BackendError>
  {
    t => FetchOf(source, t)
  }

  /** Both sources return raw items aligned with the items. */
  lemma SourcesAreAligned(source: Source)
    ensures AlignedFetch(Fetcher(source))
  {
    forall t | Fetcher(source)(t).Success?
      ensures |Fetcher(source)(t).value.rawItems| == |Fetcher(source)(t).value.items|
    {
      var r := Fetcher(source)(t);
      assert r == FetchOf(source, t);
      assert Paired(r.value);
    }
  }

  /** What Enter on a results row leads to. */
  datatype DetailView = NoDetail | Crash | Detail(rows: seq<(string, string)>, rawItem: RawItem)

  class ResultsView {
    /** The Scan view keeps raw items in its history; the Query view does not. */
    const source: Source
    var currentPage: int
    var pageHistory: seq<PageState>
    var result: QueryResult
    var sharesHistory: bool
    var nextButton: bool

    function State(): Pager
      reads this
    {
      Pager(source.ScanSource?, currentPage, pageHistory, result, sharesHistory, nextButton)
    }

    /** The view opened on the first page of results. */
    constructor(source: Source, initial: QueryResult)
      requires |initial.rawItems| == |initial.items|
      ensures State() == Start(initial, source.ScanSource?)
      ensures Valid(State())
    {
      this.source := source;
      currentPage := 1;
      pageHistory := [Remember(initial, source.ScanSource?)];
      result := initial;
      sharesHistory := true;
      nextButton := initial.lastEvaluatedKey.Some?;
    }

    /** `client.Query(..., token)` or `client.Scan(..., token)`. */
    method Fetch(token: Option<Token>) returns (outcome: Result<QueryResult, BackendError>)
      ensures outcome == FetchOf(source, token)
    {
      match source
      case QuerySource(svc, parsesAsFloat, params) =>
        outcome := Query(svc, parsesAsFloat, params, token);
      case ScanSource(svc, parsesAsFloat, tableName) =>
        outcome := Scan(svc, parsesAsFloat, tableName, token);
    }

    /** Ctrl+B and the Previous button. */
    method Previous()
      requires Valid(State())
      modifies this
      ensures State() == Paging.Previous(old(State()))
      ensures Valid(State())
    {
      PreviousSteps(State());
      if currentPage > 1 {
        currentPage := currentPage - 1;
        var prevState := pageHistory[currentPage - 1];
        result := Restore(prevState);
        sharesHistory := true;
      }
    }

    /** The shared tail of both Next handlers: count the page, record it if new, show it. */
    method ShowNext(nextResult: QueryResult)
      modifies this
      ensures State() == Advance(old(State()), Success(nextResult))
    {
      currentPage := currentPage + 1;
      if currentPage > |pageHistory| {
        pageHistory := pageHistory + [Remember(nextResult, source.ScanSource?)];
        sharesHistory := true;
      } else {
        sharesHistory := false;
      }
      result := nextResult;
      if nextResult.lastEvaluatedKey.None? && nextButton {
        nextButton := false;
      }
    }

    /** Ctrl+N. */
    method CtrlN()
      requires Valid(State())
      modifies this
      ensures State() == Paging.CtrlN(old(State()), Fetcher(source))
      ensures Valid(State())
    {
      SourcesAreAligned(source);
      CtrlNSteps(State(), Fetcher(source));
      if result.lastEvaluatedKey.None? {
        return;
      }
      var nextResult := Fetch(result.lastEvaluatedKey);
      if nextResult.Failure? {
        return;
      }
      ShowNext(nextResult.value);
    }

    /** The Next button, which exists only while `nextButton` holds. */
    method PressNext()
      requires Valid(State())
      modifies this
      ensures State() == Paging.NextButton(old(State()), Fetcher(source))
      ensures Valid(State())
    {
      SourcesAreAligned(source);
      NextButtonSteps(State(), Fetcher(source));
      if !nextButton {
        return;
      }
      var nextResult := Fetch(result.lastEvaluatedKey);
      if nextResult.Failure? {
        return;
      }
      ShowNext(nextResult.value);
    }

    /**
     * Enter on results row `row`: the detail rows of the item, listing every
     * field once with the schema fields first; as written, the item's map
     * loses its schema fields, in the history as well when it is shared.
     */
    method Enter(row: int, schemaFields: seq<string>) returns (view: DetailView)
      requires Valid(State())
      modifies this
      ensures var o := OpenItem(old(State()), row, schemaFields);
        && (o.Ignored? ==> view == NoDetail && State() == old(State()))
        && (o.Panicked? ==> view == Crash && State() == old(State()))
        && (o.Opened? ==>
              && view.Detail?
              && view.rawItem == o.rawItem
              && |o.schemaRows| <= |view.rows| && view.rows[..|o.schemaRows|] == o.schemaRows
              && Lists(view.rows, old(result.items[row - 1])) && DistinctNames(view.rows)
              && State() == o.after)
      ensures Valid(State())
    {
      OpenItemValid(State(), row, schemaFields);
      if !(0 < row <= |result.items|) {
        return NoDetail;
      }
      if row > |result.rawItems| {
        return Crash;
      }
      var item := result.items[row - 1];
      var rawItem := result.rawItems[row - 1];
      var rows, remaining := DetailRows(item, schemaFields);
      result := result.(items := result.items[row - 1 := remaining]);
      if sharesHistory {
        var entry := pageHistory[currentPage - 1];
        pageHistory := pageHistory[currentPage - 1 := entry.(items := entry.items[row - 1 := remaining])];
      }
      view := Detail(rows, rawItem);
    }
  }
}
