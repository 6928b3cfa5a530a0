/** The pure parts of the Wikidata label pipeline: collecting the Q-ids of
    the elements' `wikidata` tags, cutting the id list into query pages,
    writing a page as the `VALUES` list of the SPARQL query, and turning
    the query's result bindings into label rows. The query itself runs on a
    remote server and is a parameter here. */
module Wikidata {
  import opened Wrappers
  import opened Strings
  import opened Tags

  const WikidataKey: string := "wikidata"

  /** Ids per SPARQL query. */
  const PageSize: nat := 300

  /** What the result bindings put before a Q-id. */
  const EntityPrefix: string := "http://www.wikidata.org/entity/"

  /** What the query puts before a Q-id. */
  const QueryIdPrefix: string := "wd:"

  /** The id matches `^Q\d+$` under `re.match`: `Q`, one or more digits,
      and (as Python's `$` allows) possibly one final newline. */
  predicate IsQId(s: string) {
    && |s| >= 2
    && s[0] == 'Q'
    && var digits := if s[|s| - 1] == '\n' then s[1..|s| - 1] else s[1..];
       |digits| > 0 && AllDigits(digits)
  }

  /** A valid id holds only `Q`, digits and a final newline. */
  lemma QIdCharacters(s: string)
    requires IsQId(s)
    ensures forall i :: 0 <= i < |s| ==> s[i] == 'Q' || IsDigit(s[i]) || s[i] == '\n'
  {
    var digits := if s[|s| - 1] == '\n' then s[1..|s| - 1] else s[1..];
    forall i | 0 <= i < |s|
      ensures s[i] == 'Q' || IsDigit(s[i]) || s[i] == '\n'
    {
      if 0 < i < |s| - 1 || (i == |s| - 1 && s[i] != '\n') {
        assert s[i] == digits[i - 1];
      }
    }
  }

  /** `Q` followed by the decimal text of a number is a valid id, with or
      without a final newline. */
  lemma NumberedQIdIsValid(n: nat)
    ensures IsQId("Q" + NatToDecimal(n))
    ensures IsQId("Q" + NatToDecimal(n) + "\n")
  {
    var d := NatToDecimal(n);
    assert ("Q" + d)[1..] == d;
    assert ("Q" + d + "\n")[1..|"Q" + d + "\n"| - 1] == d;
  }

  /** The id `check` takes from an element's tags, if it is valid: the
      text of the `wikidata` tag before its first `;`. */
  function ElementQId(tags: TagMap): Option<string>
  {
    if WikidataKey in tags && IsQId(BeforeFirst(tags[WikidataKey], ';'))
    then Some(BeforeFirst(tags[WikidataKey], ';'))
    else None
  }

  /** The state of `WikidataIdHandler`: the ids found and the number of
      elements seen. */
  datatype IdHandler = IdHandler(wdIds: set<string>, count: nat)

  /** `WikidataIdHandler.check` on one element's tags. */
  function Check(h: IdHandler, tags: TagMap): (r: IdHandler)
    ensures r.count == h.count + 1
    ensures h.wdIds <= r.wdIds
    ensures forall q :: q in r.wdIds && q !in h.wdIds ==>
              WikidataKey in tags && q == BeforeFirst(tags[WikidataKey], ';') && IsQId(q)
    ensures WikidataKey in tags && IsQId(BeforeFirst(tags[WikidataKey], ';')) ==>
              BeforeFirst(tags[WikidataKey], ';') in r.wdIds
    ensures WikidataKey !in tags ==> r.wdIds == h.wdIds
  {
    var seen := h.(count := h.count + 1);
    if WikidataKey in tags then
      var qid := BeforeFirst(tags[WikidataKey], ';');
      if IsQId(qid) then seen.(wdIds := h.wdIds + {qid}) else seen
    else seen
  }

  /** The id handler run over the tags of every element of a file. */
  method CollectIds(elements: seq<TagMap>) returns (h: IdHandler)
    ensures h.count == |elements|
    ensures forall q :: q in h.wdIds ==> IsQId(q) && ';' !in q
    ensures forall q :: q in h.wdIds <==>
              exists i :: 0 <= i < |elements| && ElementQId(elements[i]) == Some(q)
  {
    h := IdHandler({}, 0);
    var i := 0;
    while i < |elements|
      invariant 0 <= i <= |elements|
      invariant h.count == i
      invariant forall q :: q in h.wdIds <==>
                  exists j :: 0 <= j < i && ElementQId(elements[j]) == Some(q)
    {
      h := Check(h, elements[i]);
      i := i + 1;
    }
  }

  /** The pages concatenated in order. */
  function Flatten(pages: seq<seq<string>>): seq<string>
    decreases |pages|
  {
    if |pages| == 0 then [] else pages[0] + Flatten(pages[1..])
  }

  function Min(a: int, b: int): int {
    if a < b then a else b
  }

  /** The paging loop `for i in range(0, len(ids), 300): ids[i:i+300]`:
      pages of exactly 300 ids, the last one possibly shorter, never empty. */
  function Pages(ids: seq<string>): (pages: seq<seq<string>>)
    ensures |pages| == (|ids| + PageSize - 1) / PageSize
    ensures forall i :: 0 <= i < |pages| ==> 0 < |pages[i]| <= PageSize
    ensures forall i :: 0 <= i < |pages| - 1 ==> |pages[i]| == PageSize
    decreases |ids|
  {
    if |ids| == 0 then []
    else if |ids| <= PageSize then [ids]
    else [ids[..PageSize]] + Pages(ids[PageSize..])
  }

  /** Every id is queried once, in order: the pages put together give back
      the id list. */
  lemma {:induction false} PagesCoverIds(ids: seq<string>)
    ensures Flatten(Pages(ids)) == ids
    decreases |ids|
  {
    if |ids| > PageSize {
      PagesCoverIds(ids[PageSize..]);
      var pages := Pages(ids);
      assert pages[1..] == Pages(ids[PageSize..]);
      assert ids == ids[..PageSize] + ids[PageSize..];
    } else if |ids| > 0 {
      assert Pages(ids)[1..] == [];
    }
  }

  /** Page `i` is the slice `ids[300 * i : 300 * i + 300]` of the loop,
      clipped to the list as Python clips a slice. */
  lemma {:induction false} PagesAreSlices(ids: seq<string>, i: nat)
    requires i < |Pages(ids)|
    ensures i * PageSize < |ids|
    ensures Pages(ids)[i] == ids[i * PageSize .. Min(i * PageSize + PageSize, |ids|)]
    decreases |ids|
  {
    if i > 0 {
      assert |ids| > PageSize;
      var rest := ids[PageSize..];
      assert Pages(ids)[i] == Pages(rest)[i - 1];
      PagesAreSlices(rest, i - 1);
      var lo := (i - 1) * PageSize;
      var hi := Min(lo + PageSize, |rest|);
      assert lo + PageSize == i * PageSize;
      assert hi + PageSize == Min(i * PageSize + PageSize, |ids|);
      assert rest[lo..hi] == ids[lo + PageSize .. hi + PageSize];
    }
  }

  /** Each id of a page with the query's `wd:` prefix, in page order. */
  function QueryEntries(page: seq<string>): (entries: seq<string>)
    ensures |entries| == |page|
  {
    seq(|page|, i requires 0 <= i < |page| => QueryIdPrefix + page[i])
  }

  /** The ids of a page written as the query's `VALUES` list: the prefixed
      ids separated by single spaces. For a page of valid ids the list reads
      back: splitting it at spaces gives the prefixed ids again, in order. */
  function QueryIds(page: seq<string>): (s: string)
    ensures |page| > 0 && (forall i :: 0 <= i < |page| ==> IsQId(page[i])) ==>
              Split(s, ' ') == QueryEntries(page)
  {
    EntriesReadBack(page);
    Join(QueryEntries(page), " ")
  }

  /** The prefixed ids of valid ids hold no space, so their space-separated
      list splits back into them. */
  lemma EntriesReadBack(page: seq<string>)
    ensures |page| > 0 && (forall i :: 0 <= i < |page| ==> IsQId(page[i])) ==>
              Split(Join(QueryEntries(page), " "), ' ') == QueryEntries(page)
  {
    if |page| > 0 && forall i :: 0 <= i < |page| ==> IsQId(page[i]) {
      var entries := QueryEntries(page);
      forall i | 0 <= i < |page|
        ensures ' ' !in entries[i]
      {
        QIdCharacters(page[i]);
        assert entries[i] == QueryIdPrefix + page[i];
      }
      SplitJoin(entries, ' ');
    }
  }

  /** The `VALUES` list can be read back: splitting at spaces gives one
      `wd:`-prefixed entry per id, in order, for any page of valid ids. */
  lemma QueryIdsReadBack(page: seq<string>)
    requires |page| > 0
    requires forall i :: 0 <= i < |page| ==> IsQId(page[i])
    ensures var entries := Split(QueryIds(page), ' ');
      && |entries| == |page|
      && forall i :: 0 <= i < |page| ==>
           |entries[i]| >= |QueryIdPrefix| &&
           entries[i][..|QueryIdPrefix|] == QueryIdPrefix && entries[i][|QueryIdPrefix|..] == page[i]
  {
    var entries := QueryEntries(page);
    forall i | 0 <= i < |page|
      ensures entries[i] == QueryIdPrefix + page[i]
    {
    }
  }

  /** One result binding of the label query: entity URI, language and
      label text. */
  datatype Binding = Binding(uri: string, lang: string, text: string)

  /** One row of the label table. */
  datatype LabelRow = LabelRow(id: string, lang: string, text: string, key: string)

  /** A binding as a label row: the id is the URI with every occurrence of
      the entity prefix removed, the key is `name:` followed by the
      language. */
  function LabelRowOf(b: Binding): (row: LabelRow)
    ensures row.lang == b.lang && row.text == b.text
    ensures |row.key| == |b.lang| + 5
    ensures row.key[..5] == "name:" && row.key[5..] == b.lang
  {
    LabelRow(RemoveAll(b.uri, EntityPrefix), b.lang, b.text, "name:" + b.lang)
  }

  /** The URI of a valid id gives back the id. */
  lemma EntityUriGivesQId(q: string, lang: string, text: string)
    requires IsQId(q)
    ensures LabelRowOf(Binding(EntityPrefix + q, lang, text)).id == q
  {
    QIdCharacters(q);
    assert EntityPrefix[0] == 'h';
    RemovePrefix(EntityPrefix, q);
  }

  /** The rows of one page's bindings, in result order. */
  function RowsOf(bindings: seq<Binding>): (rows: seq<LabelRow>)
    ensures |rows| == |bindings|
    ensures forall i :: 0 <= i < |bindings| ==>
              rows[i].lang == bindings[i].lang && rows[i].text == bindings[i].text
    ensures forall i :: 0 <= i < |rows| ==> rows[i].key == "name:" + rows[i].lang
  {
    seq(|bindings|, i requires 0 <= i < |bindings| => LabelRowOf(bindings[i]))
  }

  /** A binding for the entity URI of a valid id gives a row with that id,
      wherever it stands in the page. */
  lemma RowsOfIds(bindings: seq<Binding>, i: nat, q: string)
    requires i < |bindings| && IsQId(q) && bindings[i].uri == EntityPrefix + q
    ensures RowsOf(bindings)[i].id == q
  {
    EntityUriGivesQId(q, bindings[i].lang, bindings[i].text);
    assert bindings[i] == Binding(EntityPrefix + q, bindings[i].lang, bindings[i].text);
  }

  /** Converting two runs of bindings one after the other gives the rows of
      both, in order: extending the label list page by page keeps the result
      order. */
  lemma RowsOfConcat(a: seq<Binding>, b: seq<Binding>)
    ensures RowsOf(a + b) == RowsOf(a) + RowsOf(b)
  {
    var ab := a + b;
    forall i | 0 <= i < |ab|
      ensures RowsOf(ab)[i] == (RowsOf(a) + RowsOf(b))[i]
    {
      if i >= |a| {
        assert ab[i] == b[i - |a|];
      }
    }
  }

  /** Total number of bindings the query returns for the pages. */
  function BindingCount(pages: seq<seq<string>>, query: string -> seq<Binding>): nat
    decreases |pages|
  {
    if |pages| == 0 then 0 else |query(QueryIds(pages[0]))| + BindingCount(pages[1..], query)
  }

  /** The bindings the query returns for the pages, page after page and in
      result order within a page. */
  function AllBindings(pages: seq<seq<string>>, query: string -> seq<Binding>): seq<Binding>
    decreases |pages|
  {
    if |pages| == 0 then [] else query(QueryIds(pages[0])) + AllBindings(pages[1..], query)
  }

  /** The rows of all pages, page by page: the rows of all the pages'
      bindings taken in order. */
  function RowsOfPages(pages: seq<seq<string>>, query: string -> seq<Binding>): (rows: seq<LabelRow>)
    ensures |rows| == BindingCount(pages, query)
    ensures forall i :: 0 <= i < |rows| ==> rows[i].key == "name:" + rows[i].lang
    ensures rows == RowsOf(AllBindings(pages, query))
    decreases |pages|
  {
    if |pages| == 0 then []
    else
      RowsOfConcat(query(QueryIds(pages[0])), AllBindings(pages[1..], query));
      RowsOf(query(QueryIds(pages[0]))) + RowsOfPages(pages[1..], query)
  }

  /** `fetch_wikidata_labels_df` over the id list `ids` (the id set in the
      order `list` gives it); `query` stands for the remote query, given the
      `VALUES` list of a page. */
  function FetchLabels(ids: seq<string>, query: string -> seq<Binding>): (rows: seq<LabelRow>)
    ensures |rows| == BindingCount(Pages(ids), query)
    ensures forall i :: 0 <= i < |rows| ==> rows[i].key == "name:" + rows[i].lang
    ensures rows == RowsOf(AllBindings(Pages(ids), query))
  {
    RowsOfPages(Pages(ids), query)
  }
}
