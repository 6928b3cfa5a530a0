/** `add_wikidata_label`: an element whose `wikidata` tag names an entity
    with labels receives those labels as `name:<lang>` tags, except for
    languages it already had a tag for before the transform and labels that
    repeat its name. */
module WikidataLabels {
  import opened Wrappers
  import opened Strings
  import opened Tags
  import opened Wikidata

  /** `tags.get(key)`. */
  function ValueOf(tags: TagMap, key: string): (v: Option<string>)
    ensures v.Some? <==> key in tags
    ensures v.Some? ==> v.value == tags[key]
  {
    if key in tags then Some(tags[key]) else None
  }

  /** The row filter: the row's id is the element's `wikidata` value, its
      key is not among `keys` (the keys the element had before the rewrite
      step), and, when the current tags hold a `name`, its label differs
      from that name ignoring case. */
  predicate Keeps(row: LabelRow, value: Option<string>, keys: set<string>, tags: TagMap) {
    && value == Some(row.id)
    && row.key !in keys
    && ("name" in tags ==> Lower(row.text) != Lower(tags["name"]))
  }

  /** The rows that pass the filter, in table order. */
  function Kept(rows: seq<LabelRow>, value: Option<string>, keys: set<string>, tags: TagMap): (kept: seq<LabelRow>)
    ensures |kept| <= |rows|
    ensures forall row :: row in kept <==> row in rows && Keeps(row, value, keys, tags)
    decreases |rows|
  {
    if |rows| == 0 then []
    else
      var rest := Kept(rows[1..], value, keys, tags);
      assert forall row :: row in rows <==> row == rows[0] || row in rows[1..];
      if Keeps(rows[0], value, keys, tags) then [rows[0]] + rest else rest
  }

  /** The filter keeps table order: filtering two tables one after the other
      is filtering their concatenation. */
  lemma {:induction false} KeptConcat(a: seq<LabelRow>, b: seq<LabelRow>, value: Option<string>, keys: set<string>, tags: TagMap)
    ensures Kept(a + b, value, keys, tags) == Kept(a, value, keys, tags) + Kept(b, value, keys, tags)
    decreases |a|
  {
    if |a| > 0 {
      assert (a + b)[1..] == a[1..] + b;
      KeptConcat(a[1..], b, value, keys, tags);
    } else {
      assert a + b == b;
    }
  }

  /** The label writes `ret.update({key: label})`, one per kept row. */
  function LabelWrites(kept: seq<LabelRow>): seq<Write>
  {
    seq(|kept|, i requires 0 <= i < |kept| => Write(kept[i].key, kept[i].text))
  }

  function Langs(kept: seq<LabelRow>): seq<string>
  {
    seq(|kept|, i requires 0 <= i < |kept| => kept[i].lang)
  }

  /** Some row would add a label: the precondition under which
      `add_wikidata_label` builds a new dictionary. */
  predicate LabelsApply(rows: seq<LabelRow>, keys: set<string>, tags: TagMap) {
    && |tags| > 0
    && WikidataKey in keys
    && exists i :: 0 <= i < |rows| && Keeps(rows[i], ValueOf(tags, WikidataKey), keys, tags)
  }

  /** `add_wikidata_label(type, id, keys, tags)` over the label table
      `rows`, with `keys` the element's original key set and `tags` what
      the rewrite step returned. */
  function AddWikidataLabel(rows: seq<LabelRow>, et: ElementType, id: int, keys: set<string>, tags: TagMap): (r: Update)
    ensures r.ref == Same <==> !LabelsApply(rows, keys, tags)
    ensures r.ref == Same ==> r.actions == []
  {
    if |tags| == 0 || WikidataKey !in keys then Update(Same, [])
    else
      var value := ValueOf(tags, WikidataKey);
      var kept := Kept(rows, value, keys, tags);
      if |kept| == 0 then
        assert forall i :: 0 <= i < |rows| ==> rows[i] in rows;
        Update(Same, [])
      else
        assert kept[0] in kept;
        Update(Fresh(Overlay(tags, LabelWrites(kept))),
               [Action(et, id, WikidataKey, value.value, WikidataLabelAdded, Join(Langs(kept), ","))])
  }

  /** No kept row after position `i` has the key of row `i`. */
  predicate LastLabelOf(kept: seq<LabelRow>, i: nat)
    requires i < |kept|
  {
    forall j :: i < j < |kept| ==> kept[j].key != kept[i].key
  }

  /** When the step adds labels it logs one record for the element's
      `wikidata` tag, keeps every tag it was given, leaves the tags of the
      original keys as they were, holds a tag for every row that passed the
      filter, and under each key holds the label of the last kept row with
      that key. */
  lemma LabelOutcome(rows: seq<LabelRow>, et: ElementType, id: int, keys: set<string>, tags: TagMap)
    ensures var r := AddWikidataLabel(rows, et, id, keys, tags);
      r.ref.Fresh? ==>
        && WikidataKey in tags
        && |r.actions| == 1
        && r.actions[0] == Action(et, id, WikidataKey, tags[WikidataKey], WikidataLabelAdded, r.actions[0].detail)
    ensures var r := AddWikidataLabel(rows, et, id, keys, tags);
      r.ref.Fresh? ==> tags.Keys <= r.ref.tags.Keys
    ensures var r := AddWikidataLabel(rows, et, id, keys, tags);
      r.ref.Fresh? ==> forall k :: k in keys && k in tags ==> r.ref.tags[k] == tags[k]
    ensures var r := AddWikidataLabel(rows, et, id, keys, tags);
      r.ref.Fresh? ==>
        forall row :: row in rows && Keeps(row, ValueOf(tags, WikidataKey), keys, tags) ==> row.key in r.ref.tags
    ensures var r := AddWikidataLabel(rows, et, id, keys, tags);
      var kept := Kept(rows, ValueOf(tags, WikidataKey), keys, tags);
      r.ref.Fresh? ==>
        forall i :: 0 <= i < |kept| && LastLabelOf(kept, i) ==>
          kept[i].key in r.ref.tags && r.ref.tags[kept[i].key] == kept[i].text
  {
    var r := AddWikidataLabel(rows, et, id, keys, tags);
    if r.ref.Fresh? {
      var value := ValueOf(tags, WikidataKey);
      var kept := Kept(rows, value, keys, tags);
      var writes := LabelWrites(kept);
      assert r.ref.tags == Overlay(tags, writes);
      LabelWriteKeys(rows, value, keys, tags);
      forall i | 0 <= i < |kept| && LastLabelOf(kept, i)
        ensures kept[i].key in r.ref.tags && r.ref.tags[kept[i].key] == kept[i].text
      {
        assert kept[i] in kept;
        assert writes[i] == Write(kept[i].key, kept[i].text);
        assert LastWriteOf(writes, i);
      }
    }
  }

  /** The label writes assign the keys of the kept rows, none of which is
      among `keys`. */
  lemma LabelWriteKeys(rows: seq<LabelRow>, value: Option<string>, keys: set<string>, tags: TagMap)
    ensures var kept := Kept(rows, value, keys, tags);
      forall k :: k in WrittenKeys(LabelWrites(kept)) ==> k !in keys
    ensures var kept := Kept(rows, value, keys, tags);
      forall row :: row in kept ==> row.key in WrittenKeys(LabelWrites(kept))
  {
    var kept := Kept(rows, value, keys, tags);
    var writes := LabelWrites(kept);
    forall k | k in WrittenKeys(writes)
      ensures k !in keys
    {
      var i :| 0 <= i < |writes| && writes[i].key == k;
      assert kept[i] in kept;
    }
    forall row | row in kept
      ensures row.key in WrittenKeys(writes)
    {
      var i :| 0 <= i < |kept| && kept[i] == row;
      assert writes[i].key == row.key;
    }
  }

  /** A row that passed the filter and wrote `key` with value `v`. */
  predicate LabelFrom(rows: seq<LabelRow>, keys: set<string>, tags: TagMap, key: string, v: string) {
    exists i :: 0 <= i < |rows| &&
      Keeps(rows[i], ValueOf(tags, WikidataKey), keys, tags) && rows[i].key == key && rows[i].text == v
  }

  /** Every tag the step adds or changes carries the label of a row that
      passed the filter: for the element's entity, in a language the element
      had no tag for, and different from its name ignoring case. */
  lemma ChangedTagsAreLabels(rows: seq<LabelRow>, et: ElementType, id: int, keys: set<string>, tags: TagMap, k: string)
    requires AddWikidataLabel(rows, et, id, keys, tags).ref.Fresh?
    requires k in AddWikidataLabel(rows, et, id, keys, tags).ref.tags
    requires k !in tags || AddWikidataLabel(rows, et, id, keys, tags).ref.tags[k] != tags[k]
    ensures LabelFrom(rows, keys, tags, k, AddWikidataLabel(rows, et, id, keys, tags).ref.tags[k])
  {
    var value := ValueOf(tags, WikidataKey);
    var kept := Kept(rows, value, keys, tags);
    var writes := LabelWrites(kept);
    var out := AddWikidataLabel(rows, et, id, keys, tags).ref.tags;
    assert out == Overlay(tags, writes);
    OverlayValueOrigin(tags, writes, k);
    var i :| 0 <= i < |writes| && writes[i] == Write(k, out[k]);
    assert kept[i] in kept;
    var j :| 0 <= j < |rows| && rows[j] == kept[i];
  }

  /** The detail of the audit record lists the languages of the added
      labels, comma-separated, in table order. */
  lemma DetailListsLanguages(rows: seq<LabelRow>, et: ElementType, id: int, keys: set<string>, tags: TagMap)
    requires forall i :: 0 <= i < |rows| ==> ',' !in rows[i].lang
    requires AddWikidataLabel(rows, et, id, keys, tags).ref.Fresh?
    ensures var kept := Kept(rows, ValueOf(tags, WikidataKey), keys, tags);
      var actions := AddWikidataLabel(rows, et, id, keys, tags).actions;
      |actions| == 1 && Split(actions[0].detail, ',') == seq(|kept|, i requires 0 <= i < |kept| => kept[i].lang)
  {
    LabelOutcome(rows, et, id, keys, tags);
    var kept := Kept(rows, ValueOf(tags, WikidataKey), keys, tags);
    forall i | 0 <= i < |kept|
      ensures ',' !in kept[i].lang
    {
      assert kept[i] in kept;
    }
    SplitJoin(Langs(kept), ',');
  }

  /** The key test uses the keys the element had before the rewrite, so a
      label can replace a `name:<lang>` tag that the rewrite step has just
      written. */
  lemma LabelMayReplaceRewrittenTag()
    ensures var keys := {"old_name_de", WikidataKey};
      var rewritten := map["name:de" := "Alt", WikidataKey := "Q1"];
      var rows := [LabelRow("Q1", "de", "Neu", "name:de")];
      AddWikidataLabel(rows, Node, 1, keys, rewritten).ref ==
        Fresh(map["name:de" := "Neu", WikidataKey := "Q1"])
  {
    var keys := {"old_name_de", WikidataKey};
    var rewritten := map["name:de" := "Alt", WikidataKey := "Q1"];
    var rows := [LabelRow("Q1", "de", "Neu", "name:de")];
    assert Keeps(rows[0], ValueOf(rewritten, WikidataKey), keys, rewritten);
    assert Kept(rows, Some("Q1"), keys, rewritten) == rows;
    var writes := [Write("name:de", "Neu")];
    assert LabelWrites(rows) == writes;
    assert writes[..0] == [];
    assert Overlay(rewritten, writes) == rewritten["name:de" := "Neu"];
    assert rewritten["name:de" := "Neu"] == map["name:de" := "Neu", WikidataKey := "Q1"];
  }

  /** A label equal to the name up to case is not added, and the tags come
      back untouched. */
  lemma LabelEqualToNameIsSkipped()
    ensures var tags := map[WikidataKey := "Q42", "name" := "Douglas Adams"];
      var rows := [LabelRow("Q42", "en", "DOUGLAS ADAMS", "name:en")];
      AddWikidataLabel(rows, Way, 7, tags.Keys, tags) == Update(Same, [])
  {
    var tags := map[WikidataKey := "Q42", "name" := "Douglas Adams"];
    var rows := [LabelRow("Q42", "en", "DOUGLAS ADAMS", "name:en")];
    assert Lower(rows[0].text) == Lower(tags["name"]);
  }
}
