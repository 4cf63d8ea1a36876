/** The value-level rules of the Korean vocabulary page (src/pages/KoreanPage.js):
    which endpoint and parameters a list request carries, how a list response
    becomes table rows, how a counts response becomes the badge counts, which
    request the fetch effect and `refresh` issue, and how the delete batch is
    built. Everything here is a pure function except the batch builder, which
    keeps the page's accumulating `forEach` loop (src/pages/KoreanPage.js:99-102). */
module WordList {

  datatype Option<+T> = None | Some(value: T)

  /** Page size sent with every list request. */
  const PageSize: int := 10
  /** The category value that means "no filter". */
  const AllCategory: string := "all"

  // ---------------------------------------------------------------------------
  // Requests
  // ---------------------------------------------------------------------------

  /** The two list endpoints of the word API. */
  datatype Endpoint = GetWords | GetWordsOnlyEN

  /** A list request: endpoint plus the `{page, limit, type}` argument;
      `typeParam` (the `type` field) is None where the source passes `undefined`. */
  datatype ListRequest = ListRequest(endpoint: Endpoint, page: int, limit: int, typeParam: Option<string>)

  /** Every call the page makes to the word API, in the order it makes them. */
  datatype Request =
    | ListCall(list: ListRequest)
    | CountsCall
    | DeleteCall(id: int)

  /** The three hook values the fetch effect depends on. */
  datatype QueryState = QueryState(page: int, category: string, onlyMissingEnglish: bool)

  /** The request `getList(newPage, newCategory)` sends while the missing-English
      switch is `onlyMissingEnglish`. */
  function BuildListRequest(onlyMissingEnglish: bool, newPage: int, newCategory: string): (r: ListRequest)
    ensures r.page == newPage && r.limit == PageSize
    ensures r.endpoint == GetWordsOnlyEN <==> onlyMissingEnglish
    ensures r.endpoint == GetWords <==> !onlyMissingEnglish
    ensures r.typeParam == None <==> newCategory == AllCategory
    ensures r.typeParam.Some? ==> r.typeParam.value == newCategory
  {
    var typeParam := if newCategory == AllCategory then None else Some(newCategory);
    if onlyMissingEnglish then ListRequest(GetWordsOnlyEN, newPage, PageSize, typeParam)
    else ListRequest(GetWords, newPage, PageSize, typeParam)
  }

  /** Reads back the switch, page and category a list request was built from. */
  function RequestedQuery(r: ListRequest): (q: QueryState)
    ensures q.page == r.page
  {
    QueryState(r.page, if r.typeParam.Some? then r.typeParam.value else AllCategory, r.endpoint == GetWordsOnlyEN)
  }

  /** A list request loses nothing of the query it was built from: distinct
      queries give distinct requests. */
  lemma RequestRoundTrip(q: QueryState)
    ensures RequestedQuery(BuildListRequest(q.onlyMissingEnglish, q.page, q.category)) == q
  {
  }

  /** What the fetch effect issues when the page re-renders with `after` after
      having rendered with `before`: one request for the new values exactly when
      one of its three dependencies changed, none otherwise. */
  function EffectRequest(before: QueryState, after: QueryState): (r: Option<ListRequest>)
    ensures r.None? <==> before == after
    ensures r.Some? ==> RequestedQuery(r.value) == after && r.value.limit == PageSize
    ensures r.Some? ==> (r.value.endpoint == GetWordsOnlyEN <==> after.onlyMissingEnglish)
    ensures r.Some? ==> (r.value.typeParam == None <==> after.category == AllCategory)
  {
    if before == after then None
    else
      RequestRoundTrip(after);
      Some(BuildListRequest(after.onlyMissingEnglish, after.page, after.category))
  }

  /** The one list request `refresh` leads to from query state `q`: a direct
      `getList(1)` on page 1, which falls back to the default category "all";
      otherwise the effect's reload of page 1 in the current category. */
  function RefreshRequest(q: QueryState): (r: ListRequest)
    ensures r.page == 1 && r.limit == PageSize
    ensures r.endpoint == GetWordsOnlyEN <==> q.onlyMissingEnglish
    ensures r.typeParam == None <==> q.page == 1 || q.category == AllCategory
    ensures q.page != 1 ==> RequestedQuery(r) == q.(page := 1)
  {
    if q.page == 1 then BuildListRequest(q.onlyMissingEnglish, 1, AllCategory)
    else
      RequestRoundTrip(q.(page := 1));
      BuildListRequest(q.onlyMissingEnglish, 1, q.category)
  }

  /** On page 1 under a category filter, `refresh` reloads the unfiltered list,
      not the list the category radio shows. */
  lemma RefreshOnFirstPageDropsCategory(q: QueryState)
    requires q.page == 1 && q.category != AllCategory
    ensures RequestedQuery(RefreshRequest(q)).category == AllCategory
    ensures RequestedQuery(RefreshRequest(q)) != q
  {
  }

  // ---------------------------------------------------------------------------
  // List responses
  // ---------------------------------------------------------------------------

  /** A word record as the API returns it: its id and its other columns. */
  datatype Word = Word(id: int, columns: map<string, string>)

  /** A table row: the record spread out with `key` set to its id. */
  datatype Row = Row(word: Word, key: int)

  /** Pagination metadata kept beside the rows. */
  datatype Metadata = Metadata(totalCount: int, totalPage: int)

  /** The rows and metadata the table shows. */
  datatype ListView = ListView(rows: seq<Row>, metadata: Metadata)

  /** The page's initial list state. */
  const InitialView: ListView := ListView([], Metadata(0, 1))

  /** How one list call ends: it throws (transport failure), or it answers with
      a status and `{totalCount, totalPage, words}`. */
  datatype ListOutcome =
    | ListThrew
    | ListResponse(status: int, totalCount: int, totalPage: int, words: seq<Word>)

  /** The `words.map(item => ({...item, key: item.id}))` step. */
  function WithKeys(words: seq<Word>): (rows: seq<Row>)
    ensures |rows| == |words|
  {
    if words == [] then [] else [Row(words[0], words[0].id)] + WithKeys(words[1..])
  }

  /** The records behind a sequence of rows. */
  function WordsOf(rows: seq<Row>): (words: seq<Word>)
    ensures |words| == |rows|
  {
    if rows == [] then [] else [rows[0].word] + WordsOf(rows[1..])
  }

  /** Every row's key is its record's id. */
  ghost predicate KeyedRows(rows: seq<Row>)
  {
    forall i :: 0 <= i < |rows| ==> rows[i].key == rows[i].word.id
  }

  /** Row i of `WithKeys(words)` is record i with its id as key. */
  lemma {:induction false} WithKeysAt(words: seq<Word>, i: int)
    requires 0 <= i < |words|
    ensures WithKeys(words)[i] == Row(words[i], words[i].id)
  {
    if i > 0 {
      WithKeysAt(words[1..], i - 1);
    }
  }

  /** Adding keys keeps the records, their order and their number, and keys
      every row by its id. */
  lemma WithKeysKeeps(words: seq<Word>)
    ensures WordsOf(WithKeys(words)) == words
    ensures forall i :: 0 <= i < |words| ==> WithKeys(words)[i] == Row(words[i], words[i].id)
    ensures KeyedRows(WithKeys(words))
  {
    WordsOfWithKeys(words);
    forall i | 0 <= i < |words| ensures WithKeys(words)[i] == Row(words[i], words[i].id) {
      WithKeysAt(words, i);
    }
  }

  lemma {:induction false} WordsOfWithKeys(words: seq<Word>)
    ensures WordsOf(WithKeys(words)) == words
  {
    if words != [] {
      WordsOfWithKeys(words[1..]);
      assert WithKeys(words)[1..] == WithKeys(words[1..]);
    }
  }

  /** Whether a list outcome is the one `getList` applies: status 200. */
  predicate Succeeded(outcome: ListOutcome)
  {
    outcome.ListResponse? && outcome.status == 200
  }

  /** How `getList` updates `dataSource` and `metadata` from one outcome: a 200
      replaces both at once, anything else (another status, a throw) leaves
      them as they were. */
  function ApplyListOutcome(view: ListView, outcome: ListOutcome): (r: ListView)
    ensures !Succeeded(outcome) ==> r == view
    ensures Succeeded(outcome) ==>
      r.metadata == Metadata(outcome.totalCount, outcome.totalPage) &&
      |r.rows| == |outcome.words| &&
      WordsOf(r.rows) == outcome.words &&
      forall i :: 0 <= i < |r.rows| ==> r.rows[i] == Row(outcome.words[i], outcome.words[i].id)
  {
    if Succeeded(outcome) then
      WithKeysKeeps(outcome.words);
      ListView(WithKeys(outcome.words), Metadata(outcome.totalCount, outcome.totalPage))
    else view
  }

  /** Applying a list outcome keeps rows keyed by id. */
  lemma ApplyKeepsKeys(view: ListView, outcome: ListOutcome)
    requires KeyedRows(view.rows)
    ensures KeyedRows(ApplyListOutcome(view, outcome).rows)
  {
  }

  /** The view after list outcomes are applied in the order they arrive. */
  function ApplyInOrder(view: ListView, outcomes: seq<ListOutcome>): ListView
  {
    if outcomes == [] then view
    else ApplyListOutcome(ApplyInOrder(view, outcomes[..|outcomes| - 1]), outcomes[|outcomes| - 1])
  }

  /** No response is checked against the request it answers: the last
      successful one to arrive decides the view, whichever query it was for. */
  lemma {:induction false} LastSuccessWins(view: ListView, outcomes: seq<ListOutcome>, j: int)
    requires 0 <= j < |outcomes| && Succeeded(outcomes[j])
    requires forall k :: j < k < |outcomes| ==> !Succeeded(outcomes[k])
    ensures ApplyInOrder(view, outcomes) == ApplyListOutcome(view, outcomes[j])
  {
    var n := |outcomes|;
    if j < n - 1 {
      var front := outcomes[..n - 1];
      assert front[j] == outcomes[j];
      LastSuccessWins(view, front, j);
    }
  }

  /** When no outcome succeeds, the view is the one before the first request. */
  lemma {:induction false} NoSuccessKeepsView(view: ListView, outcomes: seq<ListOutcome>)
    requires forall k :: 0 <= k < |outcomes| ==> !Succeeded(outcomes[k])
    ensures ApplyInOrder(view, outcomes) == view
  {
    if outcomes != [] {
      NoSuccessKeepsView(view, outcomes[..|outcomes| - 1]);
    }
  }

  // ---------------------------------------------------------------------------
  // Category counts
  // ---------------------------------------------------------------------------

  /** The initial `count` state: note its total sits under "total", not "all". */
  const InitialCount: map<string, int> :=
    map["total" := 0, "basic" := 0, "daily_conversation" := 0, "topik_word" := 0]

  /** How the counts call ends: a throw, or a status with the three counts. */
  datatype CountsOutcome =
    | CountsThrew
    | CountsResponse(status: int, basic: int, dailyConversation: int, topikWord: int)

  /** A counts map as a successful `getCounts` leaves it: exactly the three
      categories and "all", which is their sum. */
  ghost predicate SummedCounts(count: map<string, int>)
  {
    count.Keys == {"basic", "daily_conversation", "topik_word", "all"} &&
    count["all"] == count["basic"] + count["daily_conversation"] + count["topik_word"]
  }

  /** How `getCounts` updates `count`: a 200 replaces it by the three counts
      and their sum under "all"; anything else leaves it unchanged. */
  function ApplyCountsOutcome(count: map<string, int>, outcome: CountsOutcome): (r: map<string, int>)
    ensures outcome.CountsResponse? && outcome.status == 200 ==>
      SummedCounts(r) &&
      r["basic"] == outcome.basic &&
      r["daily_conversation"] == outcome.dailyConversation &&
      r["topik_word"] == outcome.topikWord
    ensures !(outcome.CountsResponse? && outcome.status == 200) ==> r == count
  {
    if outcome.CountsResponse? && outcome.status == 200 then
      map["basic" := outcome.basic,
          "daily_conversation" := outcome.dailyConversation,
          "topik_word" := outcome.topikWord,
          "all" := outcome.basic + outcome.dailyConversation + outcome.topikWord]
    else count
  }

  // ---------------------------------------------------------------------------
  // Delete batch
  // ---------------------------------------------------------------------------

  /** One `deleteWord` call per key, in the order of the keys. */
  function DeleteCalls(keys: seq<int>): (calls: seq<Request>)
  {
    seq(|keys|, i requires 0 <= i < |keys| => DeleteCall(keys[i]))
  }

  /** The `methods` array `onDelete` fills by walking the selection. */
  method BuildDeleteBatch(keys: seq<int>) returns (methods: seq<Request>)
    ensures |methods| == |keys|
    ensures forall i :: 0 <= i < |keys| ==> methods[i] == DeleteCall(keys[i])
    ensures methods == DeleteCalls(keys)
  {
    methods := [];
    var i := 0;
    while i < |keys|
      invariant 0 <= i <= |keys|
      invariant |methods| == i
      invariant forall k :: 0 <= k < i ==> methods[k] == DeleteCall(keys[k])
    {
      methods := methods + [DeleteCall(keys[i])];
      i := i + 1;
    }
  }
}
