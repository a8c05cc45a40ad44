/**
 * The action page of one table (main.go:294-379 and 1202-1248): a Query
 * tab whose form holds the key inputs and the condition drop-down, and a
 * Scan tab with a single button. Switching tabs clears the form and builds
 * the new tab's form afresh, so values typed before are gone.
 */
module TableAction {
  import opened Wrappers
  import opened DynamoClient
  import opened TableCatalog

  datatype Tab = QueryTab | ScanTab

  datatype Key = Esc | CtrlQ | CtrlS | Left | Right | OtherKey

  datatype FormItem =
    | InputField(caption: string, text: string)
    | DropDown(caption: string, options: seq<string>, selected: int)

  datatype Form = Form(items: seq<FormItem>, button: string)

  /** The Condition drop-down's options; the first is selected initially. */
  const Conditions: seq<string> := ["=", "begins_with", "<", "<=", ">", ">=", "between"]

  /** `updateForm(tab)`: the fields of the Query form depend on which key attributes the table has. */
  function FormFor(tab: Tab, info: TableInfo): (r: Form)
    ensures tab == ScanTab ==> r.items == [] && r.button == "Scan " + info.name
    ensures tab == QueryTab ==> r.button == "Query"
    ensures tab == QueryTab ==>
      |r.items| == (if info.partitionKey != "" then 1 else 0) + (if info.sortKey != "" then 2 else 0)
    ensures forall i :: 0 <= i < |r.items| && r.items[i].InputField? ==> r.items[i].text == ""
    ensures forall i :: 0 <= i < |r.items| && r.items[i].DropDown? ==>
      r.items[i].options == Conditions && r.items[i].selected == 0
  {
    match tab
    case QueryTab =>
      Form(
        (if info.partitionKey != "" then [InputField("Partition Key (" + info.partitionKey + ")", "")] else [])
        + (if info.sortKey != "" then [InputField("Sort Key (" + info.sortKey + ")", ""), DropDown("Condition", Conditions, 0)] else []),
        "Query")
    case ScanTab => Form([], "Scan " + info.name)
  }

  /** What a key press does to the page: the new tab, whether the form is rebuilt, whether the page is left, whether the key is swallowed. */
  datatype KeyEffect = KeyEffect(tab: Tab, rebuild: bool, leave: bool, consumed: bool)

  function Other(tab: Tab): Tab
  {
    if tab == QueryTab then ScanTab else QueryTab
  }

  function KeyEffectOf(tab: Tab, key: Key): KeyEffect
  {
    match key
    case Esc => KeyEffect(tab, false, true, false)
    case CtrlQ => KeyEffect(QueryTab, tab != QueryTab, false, true)
    case CtrlS => KeyEffect(ScanTab, tab != ScanTab, false, true)
    case Left => KeyEffect(Other(tab), true, false, false)
    case Right => KeyEffect(Other(tab), true, false, false)
    case OtherKey => KeyEffect(tab, false, false, false)
  }

  /**
   * Ctrl+Q and Ctrl+S select their tab and rebuild the form only when the
   * tab changes; Left and Right always flip the tab and rebuild; the form is
   * rebuilt exactly when the tab changes.
   */
  lemma KeyEffects(tab: Tab, key: Key)
    ensures var e := KeyEffectOf(tab, key);
      && (key == CtrlQ ==> e.tab == QueryTab && e.consumed)
      && (key == CtrlS ==> e.tab == ScanTab && e.consumed)
      && (key == Left || key == Right ==> e.tab != tab && !e.consumed)
      && (e.rebuild <==> e.tab != tab)
      && (e.leave <==> key == Esc)
  {
  }

  /** Selecting the current tab again keeps the form, and with it what was typed. */
  lemma SelectingCurrentTabKeepsForm(tab: Tab)
    ensures !KeyEffectOf(tab, if tab == QueryTab then CtrlQ else CtrlS).rebuild
  {
  }

  /** The same form shape with whatever the user typed or selected. */
  predicate Edited(built: Form, current: Form)
  {
    && |current.items| == |built.items| && current.button == built.button
    && forall i :: 0 <= i < |built.items| ==>
         match built.items[i]
         case InputField(caption, _) => current.items[i].InputField? && current.items[i].caption == caption
         case DropDown(caption, options, _) =>
           && current.items[i].DropDown? && current.items[i].caption == caption
           && current.items[i].options == options && 0 <= current.items[i].selected < |options|
  }

  /**
   * The Query button: reads form item 0 as the partition-key input, items 1
   * and 2 as the sort-key input and the drop-down. A failed type assertion
   * (or a missing item) panics, which is None here. The sort key, value and
   * operator are passed on only when a sort-key value was typed.
   */
  function ReadQueryForm(info: TableInfo, form: Form): Option<QueryParams>
  {
    var items := form.items;
    if info.partitionKey != "" && !(|items| > 0 && items[0].InputField?) then None
    else if info.sortKey != "" && !(|items| > 2 && items[1].InputField? && items[2].DropDown?) then None
    else
      var pkValue := if info.partitionKey != "" then items[0].text else "";
      var skValue := if info.sortKey != "" then items[1].text else "";
      var condition :=
        if info.sortKey != "" then
          var d := items[2];
          if 0 <= d.selected < |d.options| then d.options[d.selected] else ""
        else "";
      if skValue != "" then Some(QueryParams(info.name, info.partitionKey, pkValue, info.sortKey, skValue, condition))
      else Some(QueryParams(info.name, info.partitionKey, pkValue, "", "", ""))
  }

  /**
   * For a table with a partition key the Query form can always be read: the
   * partition value is what was typed in the first input, and a sort clause
   * is requested exactly when the table has a sort key and a sort value was
   * typed, with the operator chosen in the drop-down.
   */
  lemma QueryFormReadable(info: TableInfo, form: Form)
    requires info.partitionKey != ""
    requires Edited(FormFor(QueryTab, info), form)
    ensures var r := ReadQueryForm(info, form);
      && r.Some?
      && r.value.tableName == info.name && r.value.partitionKey == info.partitionKey
      && r.value.partitionValue == form.items[0].text
      && (HasSortClause(r.value.sortKey, r.value.sortValue) <==> info.sortKey != "" && form.items[1].text != "")
      && (HasSortClause(r.value.sortKey, r.value.sortValue) ==>
            r.value.sortKey == info.sortKey && r.value.sortValue == form.items[1].text
            && r.value.condition in Conditions && r.value.condition == Conditions[form.items[2].selected])
  {
    var built := FormFor(QueryTab, info);
    assert built.items[0].InputField?;
    if info.sortKey != "" {
      assert built.items[1].InputField? && built.items[2].DropDown?;
      assert built.items[2].options == Conditions;
    }
  }

  /**
   * A table whose description names no partition key but a sort key gets a
   * form whose item 1 is the drop-down, so the Query button's type
   * assertion panics. DynamoDB tables always have a HASH key, so this form
   * does not arise from a real table.
   */
  lemma QueryFormWithoutPartitionKey(info: TableInfo, form: Form)
    requires info.partitionKey == "" && info.sortKey != ""
    requires Edited(FormFor(QueryTab, info), form)
    ensures ReadQueryForm(info, form) == None
  {
  }

  class TableActionPage {
    const info: TableInfo
    var currentTab: Tab
    var form: Form
    /** Set once Esc has switched back to the table list. */
    var onTableList: bool

    /** The page opens on the Query tab with an empty form. */
    constructor(info: TableInfo)
      ensures this.info == info && currentTab == QueryTab && form == FormFor(QueryTab, info) && !onTableList
    {
      this.info := info;
      currentTab := QueryTab;
      form := FormFor(QueryTab, info);
      onTableList := false;
    }

    /** The page's input capture; the result is false when the key is swallowed. */
    method HandleKey(key: Key) returns (passOn: bool)
      modifies this
      ensures var e := KeyEffectOf(old(currentTab), key);
        && currentTab == e.tab
        && form == (if e.rebuild then FormFor(e.tab, info) else old(form))
        && onTableList == (old(onTableList) || e.leave)
        && passOn == !e.consumed
    {
      passOn := true;
      match key
      case Esc =>
        onTableList := true;
      case CtrlQ =>
        if currentTab != QueryTab {
          currentTab := QueryTab;
          form := FormFor(currentTab, info);
        }
        passOn := false;
      case CtrlS =>
        if currentTab != ScanTab {
          currentTab := ScanTab;
          form := FormFor(currentTab, info);
        }
        passOn := false;
      case Left =>
        currentTab := Other(currentTab);
        form := FormFor(currentTab, info);
      case Right =>
        currentTab := Other(currentTab);
        form := FormFor(currentTab, info);
      case OtherKey =>
    }

    /** Typing into input field `i`. */
    method Type(i: int, text: string)
      requires 0 <= i < |form.items| && form.items[i].InputField?
      modifies this
      ensures form == old(form).(items := old(form).items[i := InputField(old(form).items[i].caption, text)])
      ensures currentTab == old(currentTab) && onTableList == old(onTableList)
    {
      form := form.(items := form.items[i := InputField(form.items[i].caption, text)]);
    }

    /** The Query button. */
    method PressQuery() returns (params: Option<QueryParams>)
      ensures params == ReadQueryForm(info, form)
    {
      var items := form.items;
      var pkValue, skValue, condition := "", "", "";
      if info.partitionKey != "" {
        if !(|items| > 0 && items[0].InputField?) {
          return None;
        }
        pkValue := items[0].text;
      }
      if info.sortKey != "" {
        if !(|items| > 2 && items[1].InputField? && items[2].DropDown?) {
          return None;
        }
        skValue := items[1].text;
        var d := items[2];
        if 0 <= d.selected < |d.options| {
          condition := d.options[d.selected];
        }
      }
      var sortKey, sortValue, cond := "", "", "";
      if skValue != "" {
        sortKey, sortValue, cond := info.sortKey, skValue, condition;
      }
      params := Some(QueryParams(info.name, info.partitionKey, pkValue, sortKey, sortValue, cond));
    }
  }

  /**
   * Left then Right (or Right then Left) comes back to the same tab, but
   * with a freshly built form: every input is empty again.
   */
  lemma FlippingTwiceClearsForm(tab: Tab, info: TableInfo)
    ensures var e1 := KeyEffectOf(tab, Right);
      var e2 := KeyEffectOf(e1.tab, Left);
      && e2.tab == tab && e1.rebuild && e2.rebuild
      && forall i :: 0 <= i < |FormFor(tab, info).items| && FormFor(tab, info).items[i].InputField? ==>
           FormFor(tab, info).items[i].text == ""
  {
  }
}
