/** The state machine behind the Korean vocabulary page
    (src/pages/KoreanPage.js): the hook state is the fields of `KoreanPage`,
    each event handler is a method, and the word API is split into the request
    a handler issues (appended to the ghost log `requests`) and the outcome
    that is later applied (`ReceiveList`, `ReceiveCounts`). */
module KoreanPageState {
  import opened WordList

  class KoreanPage {
    var dataSource: seq<Row>
    var metadata: Metadata
    var selectedRowKeys: seq<int>
    var open: bool
    var page: int
    var currentCategory: string
    var showOnlyMissingEnglish: bool
    var count: map<string, int>

    /** Every call made to the word API, oldest first. */
    ghost var requests: seq<Request>
    /** The counts reported by each "deleted" success message, oldest first. */
    ghost var deletedNotices: seq<nat>

    /** Rows are always keyed by id, and `count` is either the initial map or
        one whose "all" is the sum of the three categories. */
    ghost predicate Valid()
      reads this
    {
      KeyedRows(dataSource) && (count == InitialCount || SummedCounts(count))
    }

    /** The three dependencies of the fetch effect. */
    function Query(): QueryState
      reads this
    {
      QueryState(page, currentCategory, showOnlyMissingEnglish)
    }

    /** The table and pagination contents. */
    function View(): ListView
      reads this
    {
      ListView(dataSource, metadata)
    }

    /** Whether the delete button is enabled: exactly when something is selected. */
    function DeleteEnabled(): (enabled: bool)
      reads this
      ensures enabled <==> |selectedRowKeys| > 0
      ensures !enabled ==> selectedRowKeys == []
    {
      !(|selectedRowKeys| == 0)
    }

    /** Mounting: the initial hook values, then the two mount effects in
        declaration order: the list fetch for page 1 of "all", then the counts
        fetch. */
    constructor ()
      ensures Valid()
      ensures View() == InitialView && count == InitialCount
      ensures Query() == QueryState(1, AllCategory, false)
      ensures selectedRowKeys == [] && !open
      ensures requests == [ListCall(BuildListRequest(false, 1, AllCategory)), CountsCall]
      ensures deletedNotices == []
    {
      dataSource := [];
      selectedRowKeys := [];
      open := false;
      page := 1;
      metadata := Metadata(0, 1);
      currentCategory := AllCategory;
      showOnlyMissingEnglish := false;
      count := InitialCount;
      requests := [];
      deletedNotices := [];
      new;
      GetList(page, currentCategory);
      GetCounts();
    }

    method ShowModal()
      requires Valid()
      modifies this`open
      ensures Valid()
      ensures open
    {
      open := true;
    }

    method HideModal()
      requires Valid()
      modifies this`open
      ensures Valid()
      ensures !open
    {
      open := false;
    }

    /** The request half of `getList`: the endpoint follows the switch, the
        category "all" is sent as no type. */
    method GetList(newPage: int := 1, newCategory: string := AllCategory)
      modifies this`requests
      ensures requests == old(requests) + [ListCall(BuildListRequest(showOnlyMissingEnglish, newPage, newCategory))]
    {
      requests := requests + [ListCall(BuildListRequest(showOnlyMissingEnglish, newPage, newCategory))];
    }

    /** The response half of `getList`. The outcome is applied whatever query
        is current: nothing discards a response to an older request. */
    method ReceiveList(outcome: ListOutcome)
      requires Valid()
      modifies this`dataSource, this`metadata
      ensures Valid()
      ensures View() == ApplyListOutcome(old(View()), outcome)
    {
      ApplyKeepsKeys(View(), outcome);
      var v := ApplyListOutcome(View(), outcome);
      dataSource := v.rows;
      metadata := v.metadata;
    }

    /** The request half of `getCounts`. */
    method GetCounts()
      modifies this`requests
      ensures requests == old(requests) + [CountsCall]
    {
      requests := requests + [CountsCall];
    }

    /** The response half of `getCounts`. */
    method ReceiveCounts(outcome: CountsOutcome)
      requires Valid()
      modifies this`count
      ensures Valid()
      ensures count == ApplyCountsOutcome(old(count), outcome)
    {
      count := ApplyCountsOutcome(count, outcome);
    }

    /** The fetch effect, run once after a handler's state updates: it issues
        `getList(page, currentCategory)` when one of its dependencies differs
        from `before`. */
    method RunFetchEffect(before: QueryState)
      modifies this`requests
      ensures requests == old(requests) + (if before == Query() then [] else [ListCall(EffectRequest(before, Query()).value)])
    {
      if before != Query() {
        GetList(page, currentCategory);
      }
    }

    /** The category radio: picking the active category changes nothing;
        picking another sets it, returns to page 1 and reloads. */
    method OnChangeCategory(value: string)
      requires Valid()
      modifies this`page, this`currentCategory, this`requests
      ensures Valid()
      ensures value == old(currentCategory) ==> unchanged(this)
      ensures value != old(currentCategory) ==>
        currentCategory == value && page == 1 &&
        requests == old(requests) + [ListCall(BuildListRequest(showOnlyMissingEnglish, 1, value))]
    {
      if currentCategory == value {
        return;
      }
      var before := Query();
      page := 1;
      currentCategory := value;
      RunFetchEffect(before);
    }

    /** The missing-English switch: sets the flag and returns to page 1; the
        effect reloads unless both were already so. */
    method HandleMissingEnglishSwitch(checked: bool)
      requires Valid()
      modifies this`showOnlyMissingEnglish, this`page, this`requests
      ensures Valid()
      ensures showOnlyMissingEnglish == checked && page == 1
      ensures checked == old(showOnlyMissingEnglish) && old(page) == 1 ==> requests == old(requests)
      ensures checked != old(showOnlyMissingEnglish) || old(page) != 1 ==>
        requests == old(requests) + [ListCall(BuildListRequest(checked, 1, currentCategory))]
    {
      var before := Query();
      showOnlyMissingEnglish := checked;
      page := 1;
      RunFetchEffect(before);
    }

    /** The pagination control: the page becomes the chosen one, without any
        check against `metadata.totalPage`. */
    method OnChangePage(newPage: int)
      requires Valid()
      modifies this`page, this`requests
      ensures Valid()
      ensures page == newPage
      ensures newPage == old(page) ==> requests == old(requests)
      ensures newPage != old(page) ==>
        requests == old(requests) + [ListCall(BuildListRequest(showOnlyMissingEnglish, newPage, currentCategory))]
    {
      var before := Query();
      page := newPage;
      RunFetchEffect(before);
    }

    /** The table's row-selection callback; page and filter changes never
        touch the selection. */
    method OnSelectChange(newSelectedRowKeys: seq<int>)
      requires Valid()
      modifies this`selectedRowKeys
      ensures Valid()
      ensures selectedRowKeys == newSelectedRowKeys
    {
      selectedRowKeys := newSelectedRowKeys;
    }

    /** `refresh`: on page 1 a direct `getList(1)` (category "all"), otherwise
        a return to page 1 that the effect reloads in the current category. */
    method Refresh()
      requires Valid()
      modifies this`page, this`requests
      ensures Valid()
      ensures page == 1
      ensures requests == old(requests) + [ListCall(RefreshRequest(old(Query())))]
    {
      if page == 1 {
        GetList(1);
      } else {
        var before := Query();
        page := 1;
        RunFetchEffect(before);
      }
    }

    /** The confirmed delete: one `deleteWord` per selected key, in selection
        order. `anyRejected` is whether one of those calls rejects; the join
        fails only then, so an empty batch always succeeds. If it fails,
        nothing after the join runs; otherwise the success notice reports the
        selection size, the selection is emptied, the dialog closes and the
        list is refreshed. */
    method OnDelete(anyRejected: bool)
      requires Valid()
      modifies this`requests, this`deletedNotices, this`selectedRowKeys, this`open, this`page
      ensures Valid()
      ensures anyRejected && old(selectedRowKeys) != [] ==>
        requests == old(requests) + DeleteCalls(old(selectedRowKeys)) &&
        selectedRowKeys == old(selectedRowKeys) && open == old(open) && page == old(page) &&
        deletedNotices == old(deletedNotices)
      ensures !anyRejected || old(selectedRowKeys) == [] ==>
        requests == old(requests) + DeleteCalls(old(selectedRowKeys)) + [ListCall(RefreshRequest(old(Query())))] &&
        deletedNotices == old(deletedNotices) + [|old(selectedRowKeys)|] &&
        selectedRowKeys == [] && !open && page == 1
    {
      var methods := BuildDeleteBatch(selectedRowKeys);
      requests := requests + methods;
      if anyRejected && methods != [] {
        return;
      }
      deletedNotices := deletedNotices + [|selectedRowKeys|];
      selectedRowKeys := [];
      open := false;
      Refresh();
    }
  }

  /** Two quick category changes whose responses arrive out of order: the
      response to the earlier request is applied last, so the table shows
      "basic" words while the radio shows "topik_word". */
  method StaleResponseScenario(basicWords: seq<Word>, topikWords: seq<Word>)
  {
    var p := new KoreanPage();
    p.OnChangeCategory("basic");
    p.OnChangeCategory("topik_word");
    assert p.requests[2].list.typeParam == Some("basic");
    assert p.requests[3].list.typeParam == Some("topik_word");
    p.ReceiveList(ListResponse(200, 2, 1, topikWords));
    p.ReceiveList(ListResponse(200, 3, 1, basicWords));
    assert p.currentCategory == "topik_word";
    assert WordsOf(p.dataSource) == basicWords;
  }
}
