# opinionated-planet: deprecated-tag migration and Wikidata labels

This project is a Dafny model of the per-element tag transform in
opinionated-planet. The transform runs on every node, way and relation of an
OpenStreetMap extract:

1. **Deprecated-tag rewrite** (`update_deprecated_tags`). The element's keys
   are intersected with the old keys of the rule table. For every key in the
   intersection, the first table row is chosen that names the key and
   either carries the `__CARRY__` marker as its old value or names exactly
   the tag's value. The recipe for the row's kind (fixed, fixed+fixed, `=yes`,
   fixed+carry, carry) is then applied to a fresh copy of the element's
   original tags, and one audit record is appended.
2. **Wikidata label merge** (`add_wikidata_label`). When the element had a
   `wikidata` tag, every label row for that entity is kept when both hold:
   - its `name:<lang>` key was not among the element's original keys;
   - its label differs from the element's `name`, ignoring case.

   The kept rows are written as tags, and one audit record lists their
   languages.
3. **`transform`** counts the element. It reports "unchanged" exactly when
   neither step built a new dictionary. The `node`/`way`/`relation`
   callbacks then write the element as it came or with the new tags.

The model also covers the steps that supply these inputs:

- The rule table. The five row builders turn capture tuples of the wiki
  template's regular expressions into nine-field rows. The rows are
  concatenated pattern by pattern.
- The Wikidata side:
  - Q-id collection from `wikidata` tags;
  - paging of the ids into queries of 300;
  - the `VALUES` id list of the query;
  - the conversion of result bindings into label rows.
- The `url` column of the audit table.

The modules follow the source files:

| module | file | covers |
|---|---|---|
| `Wrappers` | `wrappers.dfy` | `Option` |
| `Strings` | `strings.dfy` | join/split, `partition`, ASCII lower-casing, decimal text of integers, `str.replace` |
| `Tags` | `tags.dfy` | tag maps; `TagRef` (the same object, or a new dictionary); audit records; ordered writes |
| `DeprecatedFeatures` | `deprecated_features.dfy` | the rule kinds, the row builders and the table |
| `DeprecatedTagUpdate` | `deprecated_tag_update.dfy` | `update_deprecated_tags` |
| `Wikidata` | `wikidata.dfy` | id collection, paging, query id list, label rows |
| `WikidataLabels` | `wikidata_labels.dfy` | `add_wikidata_label` |
| `PbfElaboration` | `pbf_elaboration.dfy` | `transform`, the element callbacks, the audit URL, worked examples |

Two choices shape the model:

- **Object identity.** Python's `ret is tags` test becomes the datatype
  `TagRef = Same | Fresh(tags)`.
- **Iteration order.** The iteration order of the deprecated key set is a
  Python set order. It is a parameter `order`, required to list the set's
  keys exactly once each.

The rewrite loop is written as three pieces:

- `RewriteKey` is one iteration: `FirstMatch` picks the row, then `ApplyRow` applies it (`pbf_elaboration.py:46-80`).
- `Outcomes` lists the result of `RewriteKey` for each key of `order`.
- `ProcessKeys` folds that list with `Accumulate` (`pbf_elaboration.py:45-80`).

These three are only compositions, so they have no rows of their own. Their
behaviour is stated by the contracts of `FirstMatch`, `ApplyRow` and
`Accumulate`, and by the lemmas about the whole loop (`KeyLevelFacts`,
`LastKeyDecides`, `OneRecordPerHandledKey` and the record lemmas).

Behaviour the model keeps as the code has it:

- **Several matched deprecated keys.** Every loop iteration starts again from
  `dict(tags)` (`pbf_elaboration.py:52`). With several matched keys, every
  rewrite is logged but only the rewrite made last survives. Which key comes
  last depends on the set's iteration order.
  - `LastRewriteSurvives` states this for any two matched keys.
  - `IterationOrderMatters` gives an instance where the two orders give
    different tags.
- **`dkey_dvalue_square_yes`.** Such a row matches, but the kind has no
  branch. The element comes back as a new dictionary equal to its tags, and
  no record is made (`SquareYesCopiesTags`).
- **Two different key sets in the label merge.** The key test of the label
  merge uses the keys from before the rewrite (`pbf_elaboration.py:90`,
  `:107`). So a label can overwrite a `name:<lang>` tag that the rewrite has
  just written (`LabelMayReplaceRewrittenTag`). The name test uses the
  rewritten tags.
- **An absent second suggestion.** The second suggestion is optional in the
  fixed+fixed and the fixed+carry patterns (`deprecated_features.py:24`,
  `:45`). When an entry lacks it, `re.findall` gives `""` for its groups, and
  the builders store that text as the second pair. The rewrite then writes a
  tag with the empty key: `""=""` for fixed+fixed, `""=<old value>` for
  fixed+carry, and the detail ends in ` + =` or ` + =<old value>`
  (`MissingSecondPairWritesEmptyKey`). This holds when the table is built
  from the wiki text. A table read back from the cached CSV has NaN in those
  cells instead, and that cache is not modelled.
- **A compound `wikidata` value.** The id collection takes the text before
  the first `;` (`wikidata.py:25-28`). The label step compares the whole tag
  value with the row id (`pbf_elaboration.py:90`). So an element tagged
  `wikidata=Q42;Q43` has `Q42` queried but receives no label
  (`CompoundWikidataGetsNoLabel`).
- **The `DEPRECATED_*` names.** They are imported by `pbf_elaboration.py:4-19`
  but not defined in `deprecated_features.py`.
  - The kind names are taken from the row builders' string literals.
  - `dkey_dvalue_fixed` is kept as a sixth kind, because the rewrite has a
    branch for it even though no builder emits it.
  - The carry marker is `CARRY_VALUE` (`deprecated_features.py:18`). No
    proof depends on its text.

## Model

| member | source | states |
|---|---|---|
| DeprecatedFeatures.BuildRow | deprecated_features.py:21-49 | every builder fills the date, old key and id from the captures and sets the kind of its pattern; the value-specific builders copy the old value and the carry builders store the carry marker; the `=yes` builders set `yes` and leave no second pair; fixed+carry carries into its second value; the rows are well formed for the recipes |
| DeprecatedFeatures.BuildRowLiteral | deprecated_features.py:21-49 | the kind each builder sets has as its literal the builder's own `regex_type` string (`dkey_dvalue_fixed_fixed`, `dkey_dvalue_yes`, `dkey_dvalue_square_yes`, `dkey_fixed_carry`, `dkey_carry`) |
| DeprecatedFeatures.BuildRowKeepsCaptures | deprecated_features.py:21-49 | no capture is lost: the tuple can be read back from the row each builder makes |
| DeprecatedFeatures.BuildRows | deprecated_features.py:62 | one row per match, in match order, each the builder applied to its tuple |
| DeprecatedFeatures.Concatenate | deprecated_features.py:58-63 | the table has one row per match over all patterns, and every row is well formed |
| DeprecatedFeatures.RowPosition | deprecated_features.py:58-63 | the j-th match of the i-th pattern is the row at the i-th offset plus j: patterns keep their order, and matches keep theirs within a pattern |
| DeprecatedFeatures.RowKinds | deprecated_features.py:58-63 | every row has the kind of one of the patterns' builders |
| DeprecatedFeatures.ConvertDeprecatedWikiToTable | deprecated_features.py:57-67 | the table for the five patterns has as many rows as matches, is well formed, and has no row of the kind no builder emits |
| DeprecatedFeatures.ValueRowsPrecedeCarryRows | deprecated_features.py:20-63 | every value-specific row comes before every carry row, so the first-match rule prefers a row naming the value over a carry row |
| DeprecatedTagUpdate.FirstMatch | pbf_elaboration.py:47-49 | the chosen row qualifies (same key, and carry marker or equal value), no earlier row qualifies, and no row is chosen exactly when none qualifies |
| DeprecatedTagUpdate.ApplyRow | pbf_elaboration.py:52-80 | a kind with a branch deletes the key, performs its writes in order on the rest (a carry writes the deleted value) and logs `update_deprecated_tag` with the key, its value and the writes as `k=v` joined by ` + `; `dkey_dvalue_square_yes` returns the copy unchanged with no record |
| DeprecatedTagUpdate.Accumulate | pbf_elaboration.py:42-52 | the loop returns the same object exactly when no key matched, and then logs nothing; otherwise it returns the tags of the last matched key's rewrite; there are never more records than keys |
| DeprecatedTagUpdate.AccumulatedActions | pbf_elaboration.py:45-80 | every record of the loop comes from one key's rewrite, and every rewrite's record is in the ledger |
| DeprecatedTagUpdate.AccumulatedInOrder | pbf_elaboration.py:45-80 | the loop's ledger is the keys' records read first to last: earlier keys' records come first, none is dropped or repeated, and unmatched or `square_yes` keys leave none |
| DeprecatedTagUpdate.UpdateDeprecatedTags | pbf_elaboration.py:38-44 | empty tags come back as the same object with no record; the result is the same object exactly when no deprecated key of the element is matched by a row, and then nothing is logged |
| DeprecatedTagUpdate.UpdateOutcome | pbf_elaboration.py:38-81 | new tags are the rewrite of the last matched deprecated key in visiting order, no later key being matched; there is exactly one record per handled deprecated key; every record is such a key's record; every such key's record is logged |
| DeprecatedTagUpdate.LastKeyDecides | pbf_elaboration.py:45-52 | because every iteration starts again from `dict(tags)`, the loop's new tags are the rewrite of the key it matched last, and no key visited after it is matched |
| DeprecatedTagUpdate.KeyLevelFacts | pbf_elaboration.py:42-81 | the loop facts restated per key of the deprecated key set: the same object iff no key matched, no record then, and otherwise some matched key's rewrite |
| DeprecatedTagUpdate.OneRecordPerHandledKey | pbf_elaboration.py:45-80 | visiting each key of a set once leaves as many records as the set has handled keys |
| DeprecatedTagUpdate.RecordsComeFromHandledKeys | pbf_elaboration.py:45-80 | every record is the record of a handled deprecated key |
| DeprecatedTagUpdate.HandledKeysLeaveRecords | pbf_elaboration.py:45-80 | the record of every handled deprecated key is in the ledger |
| DeprecatedTagUpdate.HandledIffRecord | pbf_elaboration.py:53-80 | a key leaves a record exactly when a row matches it and that row's kind has a branch |
| DeprecatedTagUpdate.ActionNamesKey | pbf_elaboration.py:57-80 | a rewrite's record names the element type and id, the deprecated key, its original value and the `update_deprecated_tag` action |
| DeprecatedTagUpdate.OnlyMatchedKeyDecides | pbf_elaboration.py:45-52 | when a single deprecated key is matched, the iteration order is irrelevant and the result is that key's rewrite |
| Tags.Overlay | pbf_elaboration.py:62-64 | after a sequence of assignments the keys are the old keys plus the assigned ones, untouched keys keep their values, and the last assignment to a key wins |
| Tags.OverlayValueOrigin | pbf_elaboration.py:96-98 | every value after the assignments is either an untouched original value or one of the assigned values |
| WikidataLabels.Kept | pbf_elaboration.py:90-96 | a row is kept exactly when its id is the element's `wikidata` value, its key is not among the original keys, and its label differs from the name ignoring case; table order is kept |
| WikidataLabels.KeptConcat | pbf_elaboration.py:96 | the filter keeps table order: filtering a concatenation is concatenating the filtered parts |
| WikidataLabels.AddWikidataLabel | pbf_elaboration.py:83-100 | the tags come back as the same object, with no record, exactly when the tags are empty, the element had no original `wikidata` key, or no label row passes the filter |
| WikidataLabels.LabelOutcome | pbf_elaboration.py:95-99 | when labels are added: one `add_wikidata_label` record for the element's `wikidata` tag and value; every tag is kept; tags of original keys keep their values; every kept row's key is present and holds the label of the last kept row with that key |
| WikidataLabels.LabelWriteKeys | pbf_elaboration.py:90-98 | the label writes assign exactly the kept rows' keys, none of which is an original key |
| WikidataLabels.ChangedTagsAreLabels | pbf_elaboration.py:88-98 | every tag the merge adds or changes holds the label of a row that passed the filter |
| WikidataLabels.DetailListsLanguages | pbf_elaboration.py:99 | splitting the record's detail at commas gives the kept rows' languages in table order |
| WikidataLabels.LabelMayReplaceRewrittenTag | pbf_elaboration.py:107-111 | a label can overwrite a `name:<lang>` tag the rewrite has just written, because the key test uses the keys from before the rewrite |
| WikidataLabels.LabelEqualToNameIsSkipped | pbf_elaboration.py:91-93 | a label equal to the name up to case is not added, and the tags come back as the same object |
| PbfElaboration.Transform | pbf_elaboration.py:102-113 | the count rises by one, the tables are unchanged, and the ledger only grows at its end |
| PbfElaboration.TransformUnchangedIff | pbf_elaboration.py:107-113 | `True` is returned exactly when no deprecated key is matched and no label passes the filter |
| PbfElaboration.TransformLeavesUntouchable | pbf_elaboration.py:39-44 | an element with no tags, or with no key the table names and no `wikidata` tag, is unchanged; only the count moves |
| PbfElaboration.TransformRecordsNameElement | pbf_elaboration.py:102-111 | every record appended by `transform` names the element it was given |
| PbfElaboration.UpdateRecordsNameElement | pbf_elaboration.py:57-80 | every record of the rewrite step names the element it was made for |
| PbfElaboration.TransformWithoutLabels | pbf_elaboration.py:102-113 | without label rows, `transform` logs and returns exactly what the rewrite step does |
| PbfElaboration.Visit | pbf_elaboration.py:115-140 | the callback keeps the element's type and id; it writes the element as it came when `transform` says unchanged, and with the new tags otherwise; an element no rule or label can touch is written as it came and leaves the ledger alone |
| PbfElaboration.AuditUrl | pbf_elaboration.py:159 | the URL starts with the OpenStreetMap base address |
| PbfElaboration.AuditUrlNamesElement | pbf_elaboration.py:159 | after the base, the URL has exactly two path segments: the element type and a number that reads back as the element id |
| PbfElaboration.SingleKeyUpdate | pbf_elaboration.py:45-81 | with one deprecated key that a row matches, the result is that key's rewrite and its record |
| PbfElaboration.FordIsRewritten | pbf_elaboration.py:53-57 | a fixed row turns `highway=ford` into `ford=yes` and logs `ford=yes` |
| PbfElaboration.MissingSecondPairWritesEmptyKey | pbf_elaboration.py:58-65 | a fixed+fixed row built from an entry without a second suggestion writes `""=""` next to `ford=yes` and logs `ford=yes + =` |
| PbfElaboration.CreatedByIsCarried | pbf_elaboration.py:77-80 | a carry row moves the value of `created_by` to `source` and keeps the other tags |
| PbfElaboration.SquareYesCopiesTags | pbf_elaboration.py:48-52 | a matched `dkey_dvalue_square_yes` row yields a new dictionary equal to the tags, with no record |
| PbfElaboration.LabelsRepeatingNameLeaveElement | pbf_elaboration.py:91-95 | labels equal to the name up to case are all skipped: the element is unchanged and nothing is logged |
| PbfElaboration.CompoundWikidataGetsNoLabel | pbf_elaboration.py:88-95 | for `wikidata=Q42;Q43` the id handler collects `Q42`, yet a `Q42` label row is not applied and the element comes back unchanged |
| PbfElaboration.DifferentLabelIsAdded | pbf_elaboration.py:88-99 | a label that differs from the name is added under its key, with one record whose detail is its language |
| PbfElaboration.TwoKeyUpdate | pbf_elaboration.py:45-80 | with two matched keys, the result is the second key's rewrite, and the records are both keys' records in visiting order |
| PbfElaboration.LastRewriteSurvives | pbf_elaboration.py:45-52 | with two matched keys, only the rewrite of the key visited last survives, in either order |
| PbfElaboration.IterationOrderMatters | pbf_elaboration.py:45-52 | for two carry rows, the two visiting orders give different tags |
| PbfElaboration.RewriteSettles | pbf_elaboration.py:43-48 | once rewritten, `ford=yes` is left unchanged by a second pass |
| Wikidata.Check | wikidata.py:20-30 | the count rises by one; ids are only added; an added id is the valid text before the first `;` of the `wikidata` tag, and such a valid id is always added; without a `wikidata` tag the ids are unchanged |
| Wikidata.CollectIds | wikidata.py:14-39 | after all elements, the count is their number, and the ids are exactly the valid ids of their `wikidata` tags, none holding `;` |
| Strings.BeforeFirst | wikidata.py:26 | the part before the first separator is a prefix without the separator, followed by the separator unless it is the whole text |
| Wikidata.QIdCharacters | wikidata.py:11 | a valid id holds only `Q`, digits and at most a final newline |
| Wikidata.NumberedQIdIsValid | wikidata.py:11 | `Q` followed by a number's digits is valid, with or without a final newline |
| Wikidata.Pages | wikidata.py:75-76 | there are ceil(n/300) pages; every page is non-empty with at most 300 ids, and every page but the last has exactly 300 |
| Wikidata.PagesCoverIds | wikidata.py:75-76 | the pages put together give back the id list, in order |
| Wikidata.PagesAreSlices | wikidata.py:75-76 | page i is the slice from 300·i to 300·i+300, clipped to the list |
| Wikidata.QueryIds | wikidata.py:58 | the `VALUES` list of a page of valid ids splits at spaces back into the page's ids, each with the `wd:` prefix, in page order |
| Wikidata.QueryIdsReadBack | wikidata.py:58 | splitting the id list at spaces gives one `wd:`-prefixed entry per id, in page order |
| Wikidata.LabelRowOf | wikidata.py:80-88 | a row keeps the binding's language and label, and its key is `name:` followed by the language |
| Wikidata.EntityUriGivesQId | wikidata.py:81 | removing the entity prefix from the URI of a valid id gives back the id |
| Wikidata.RowsOf | wikidata.py:80-88 | one row per binding, in result order; each row keeps its binding's language and label, and its key is `name:` followed by its language |
| Wikidata.RowsOfIds | wikidata.py:81 | a binding whose URI is the entity prefix followed by a valid id gives a row with that id, at the binding's position |
| Wikidata.RowsOfConcat | wikidata.py:80-84 | converting two runs of bindings in turn gives the rows of the first and then those of the second, so extending the list page by page keeps result order |
| Wikidata.RowsOfPages | wikidata.py:75-88 | one row per binding over all pages, each keyed `name:<lang>`; the rows are those of the pages' bindings taken page after page and in result order within a page |
| Wikidata.FetchLabels | wikidata.py:70-89 | one row per binding the queries of the pages return, each keyed `name:<lang>`; row i is the row of the i-th binding, counting page after page in the order of `Pages(ids)` |

## Left out

- Reading and writing PBF files is left out: `apply_file`, `SimpleWriter.add_*` and `n.replace(tags=...)`. `Visit` covers one callback. The loop over a whole file is not modelled.
- `transform` never returns `False`, so the `tags is False` branch of the callbacks (`pbf_elaboration.py:117`) is not modelled.
- Regular-expression search is left out, together with downloading and caching the wiki template. The capture tuples of each pattern are an input.
- The SPARQL query itself and the network are left out. `FetchLabels` takes the query as a function parameter. The server-side title-casing and the `STRLEN(?lang) < 3` filter are not modelled.
- pandas is not modelled. Frames are sequences of records, and masks are filters.
- CSV, wiki and id cache files, `remove` on failure, and `to_csv`/`read_csv` are left out, as file I/O.
- Progress prints, including the every-million count print, the "Skipping bad Q-ID" print and `describe`, are left out.
- `pbf_download.py` and `opinionated_planet.py` (downloading and script wiring) are not part of this model.
- `WIKIDATA_Q_IDS_REGEX` (`wikidata.py:12`) is not modelled; the code never uses it.
- The order of an osmium tag list is not modelled; tags are a map. This matches `dict(tags)` for distinct keys.
- WikidataLabels.Kept: lower-casing is modelled on ASCII letters only. Python's `str.lower` also folds non-ASCII letters, so for such names the model may keep a label the code would skip.
- Wikidata.QIdCharacters: `\d` is modelled as the ASCII digits, while Python's `re` also accepts other Unicode decimal digits.
- The set-to-list conversion before paging (`wikidata.py:72`) has an unspecified order. `FetchLabels` takes any list of the ids.
- Elements are counted with unbounded integers; there is no overflow in the source either.
