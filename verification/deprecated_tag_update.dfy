/** `PbfElaborationHandler.update_deprecated_tags`: for every key of an
    element that some rule row names as deprecated, the first row in table
    order that matches the tag is applied to a fresh copy of the ORIGINAL
    tags, and one audit record is kept per applied recipe. Because every
    iteration starts again from the original tags, only the rewrite of the
    last matched key survives. The iteration order is the arbitrary order of
    a Python set, given here as the parameter `order`. */
module DeprecatedTagUpdate {
  import opened Wrappers
  import opened Strings
  import opened DeprecatedFeatures
  import opened Tags

  /** The row qualifies for the tag `key=value`: it names the key and
      either carries any value or names exactly this one. */
  predicate RowMatches(row: Rule, key: string, value: string) {
    row.oldKey == key && (row.oldValue == CarryValue || row.oldValue == value)
  }

  /** Position of the first qualifying row, as `df[mask].iloc[0]`. */
  function FirstMatch(table: seq<Rule>, key: string, value: string): (r: Option<nat>)
    ensures r.Some? ==> r.value < |table| && RowMatches(table[r.value], key, value)
    ensures r.Some? ==> forall j :: 0 <= j < r.value ==> !RowMatches(table[j], key, value)
    ensures r.None? <==> forall j :: 0 <= j < |table| ==> !RowMatches(table[j], key, value)
    decreases |table|
  {
    if |table| == 0 then None
    else if RowMatches(table[0], key, value) then Some(0)
    else
      match FirstMatch(table[1..], key, value)
      case None => None
      case Some(i) => Some(i + 1)
  }

  /** `full_deprecated_key_set`: every old key of the table. */
  function FullKeySet(table: seq<Rule>): set<string>
  {
    set i | 0 <= i < |table| :: table[i].oldKey
  }

  /** `keys & full_deprecated_key_set` with `keys` the element's keys. */
  function DeprecatedKeySet(table: seq<Rule>, tags: TagMap): (s: set<string>)
    ensures s <= tags.Keys
  {
    tags.Keys * FullKeySet(table)
  }

  /** `order` lists every element of `s` exactly once. */
  predicate Enumerates(order: seq<string>, s: set<string>) {
    && (forall i, j :: 0 <= i < j < |order| ==> order[i] != order[j])
    && (forall i :: 0 <= i < |order| ==> order[i] in s)
    && (forall k :: k in s ==> k in order)
  }

  /** The assignments the recipe of `row` makes after deleting the
      deprecated key, `carried` being that key's value. */
  function Writes(row: Rule, carried: string): seq<Write>
    requires WellFormed(row)
  {
    match row.kind
    case DkeyDvalueFixed => [Write(row.newKey1, row.newValue1)]
    case DkeyDvalueFixedFixed =>
      [Write(row.newKey1, row.newValue1), Write(row.newKey2.value, row.newValue2.value)]
    case DkeyDvalueYes => [Write(row.newKey1, "yes")]
    case DkeyDvalueSquareYes => []
    case DkeyFixedCarry => [Write(row.newKey1, row.newValue1), Write(row.newKey2.value, carried)]
    case DkeyCarry => [Write(row.newKey1, carried)]
  }

  /** The outcome of one matched row: the new dictionary and the audit
      record, if the kind has a recipe. */
  datatype Applied = Applied(tags: TagMap, action: Option<Action>)

  /** One branch of the `regex_type` dispatch, applied to `dict(tags)`. A kind
      without a branch leaves the copy as it is and records nothing. */
  function ApplyRow(row: Rule, et: ElementType, id: int, tags: TagMap, key: string): (r: Applied)
    requires key in tags && WellFormed(row)
    ensures r.action.None? <==> row.kind == DkeyDvalueSquareYes
    ensures r.action.None? ==> r.tags == tags
    ensures r.action.Some? ==> r.tags == Overlay(tags - {key}, Writes(row, tags[key]))
    ensures r.action.Some? ==>
              r.action.value == Action(et, id, key, tags[key], DeprecatedTagUpdated,
                                       RenderAll(Writes(row, tags[key]), " + "))
  {
    var value := tags[key];
    var rest := tags - {key};
    var ws := Writes(row, value);
    match row.kind
    case DkeyDvalueFixed =>
      OverlayOne(rest, ws[0]);
      RenderOne(ws[0]);
      Applied(rest[row.newKey1 := row.newValue1],
              Some(Action(et, id, key, value, DeprecatedTagUpdated,
                          row.newKey1 + "=" + row.newValue1)))
    case DkeyDvalueFixedFixed =>
      var key2, value2 := row.newKey2.value, row.newValue2.value;
      OverlayTwo(rest, ws[0], ws[1]);
      RenderTwo(ws[0], ws[1]);
      Applied(rest[row.newKey1 := row.newValue1][key2 := value2],
              Some(Action(et, id, key, value, DeprecatedTagUpdated,
                          row.newKey1 + "=" + row.newValue1 + " + " + key2 + "=" + value2)))
    case DkeyDvalueYes =>
      OverlayOne(rest, ws[0]);
      RenderOne(ws[0]);
      Applied(rest[row.newKey1 := "yes"],
              Some(Action(et, id, key, value, DeprecatedTagUpdated, row.newKey1 + "=yes")))
    case DkeyDvalueSquareYes =>
      Applied(tags, None)
    case DkeyFixedCarry =>
      var key2 := row.newKey2.value;
      OverlayTwo(rest, ws[0], ws[1]);
      RenderTwo(ws[0], ws[1]);
      Applied(rest[row.newKey1 := row.newValue1][key2 := value],
              Some(Action(et, id, key, value, DeprecatedTagUpdated,
                          row.newKey1 + "=" + row.newValue1 + " + " + key2 + "=" + value)))
    case DkeyCarry =>
      OverlayOne(rest, ws[0]);
      RenderOne(ws[0]);
      Applied(rest[row.newKey1 := value],
              Some(Action(et, id, key, value, DeprecatedTagUpdated, row.newKey1 + "=" + value)))
  }

  lemma OverlayOne(m: TagMap, w: Write)
    ensures Overlay(m, [w]) == m[w.key := w.value]
  {
    assert [w][..0] == [];
  }

  lemma OverlayTwo(m: TagMap, w1: Write, w2: Write)
    ensures Overlay(m, [w1, w2]) == m[w1.key := w1.value][w2.key := w2.value]
  {
    assert [w1, w2][..1] == [w1];
    OverlayOne(m, w1);
  }

  lemma RenderOne(w: Write)
    ensures RenderAll([w], " + ") == w.key + "=" + w.value
  {
    assert seq(1, i requires 0 <= i < 1 => Render([w][i])) == [Render(w)];
  }

  lemma RenderTwo(w1: Write, w2: Write)
    ensures RenderAll([w1, w2], " + ") == w1.key + "=" + w1.value + " + " + w2.key + "=" + w2.value
  {
    var parts := seq(2, i requires 0 <= i < 2 => Render([w1, w2][i]));
    assert parts == [Render(w1), Render(w2)];
    assert parts[1..] == [Render(w2)];
    assert Join(parts, " + ") == Render(w1) + " + " + Render(w2);
  }

  /** What happens to the tag `key`: nothing when no row matches, otherwise
      the matched row applied to a copy of the original tags. */
  function RewriteKey(table: seq<Rule>, et: ElementType, id: int, tags: TagMap, key: string): Option<Applied>
    requires TableWellFormed(table) && key in tags
  {
    match FirstMatch(table, key, tags[key])
    case None => None
    case Some(i) => Some(ApplyRow(table[i], et, id, tags, key))
  }

  /** The position `i` holds an outcome and no later position does. */
  predicate LastApplied(os: seq<Option<Applied>>, i: nat)
    requires i < |os|
  {
    os[i].Some? && forall j :: i < j < |os| ==> os[j].None?
  }

  /** `tags` are the tags of the last outcome that holds one. */
  predicate LastTags(os: seq<Option<Applied>>, tags: TagMap) {
    exists i :: 0 <= i < |os| && LastApplied(os, i) && tags == os[i].value.tags
  }

  /** The body of the loop run over the per-key outcomes in order: a
      matched key replaces the result by its own copy of the original tags
      and appends its record, an unmatched key changes nothing. */
  function Accumulate(os: seq<Option<Applied>>): (r: Update)
    ensures r.ref == Same <==> forall i :: 0 <= i < |os| ==> os[i].None?
    ensures r.ref == Same ==> r.actions == []
    ensures r.ref.Fresh? ==> LastTags(os, r.ref.tags)
    ensures |r.actions| <= |os|
    decreases |os|
  {
    if |os| == 0 then Update(Same, [])
    else
      var n := |os| - 1;
      var prev := Accumulate(os[..n]);
      assert forall i :: 0 <= i < n ==> os[..n][i] == os[i];
      match os[n]
      case None =>
        if prev.ref.Fresh? then
          UnmatchedLastKeepsTags(os, prev.ref.tags);
          prev
        else prev
      case Some(a) =>
        assert LastApplied(os, n);
        Update(Fresh(a.tags), prev.actions + a.action.ToSeq())
  }

  /** An outcome without a match after the last applied one leaves it the
      last. */
  lemma UnmatchedLastKeepsTags(os: seq<Option<Applied>>, tags: TagMap)
    requires |os| > 0 && os[|os| - 1].None?
    requires LastTags(os[..|os| - 1], tags)
    ensures LastTags(os, tags)
  {
    var n := |os| - 1;
    var i :| 0 <= i < n && LastApplied(os[..n], i) && tags == os[..n][i].value.tags;
    assert forall j :: i < j < n ==> os[..n][j] == os[j];
    assert LastApplied(os, i);
  }

  /** The audit record `a` was produced by some outcome. */
  predicate FromSomeOutcome(os: seq<Option<Applied>>, a: Action) {
    exists i :: 0 <= i < |os| && os[i].Some? && os[i].value.action == Some(a)
  }

  /** Every record of the fold comes from an outcome, and every outcome's
      record is in the fold. */
  lemma {:induction false} AccumulatedActions(os: seq<Option<Applied>>)
    ensures forall a :: 0 <= a < |Accumulate(os).actions| ==>
              FromSomeOutcome(os, Accumulate(os).actions[a])
    ensures forall i :: 0 <= i < |os| && os[i].Some? && os[i].value.action.Some? ==>
              os[i].value.action.value in Accumulate(os).actions
    decreases |os|
  {
    if |os| > 0 {
      var n := |os| - 1;
      var front := os[..n];
      AccumulatedActions(front);
      assert forall i :: 0 <= i < n ==> front[i] == os[i];
      var prev := Accumulate(front);
      var r := Accumulate(os);
      forall a | 0 <= a < |r.actions|
        ensures FromSomeOutcome(os, r.actions[a])
      {
        if a < |prev.actions| {
          assert r.actions[a] == prev.actions[a];
          assert FromSomeOutcome(front, prev.actions[a]);
          var i :| 0 <= i < n && front[i].Some? && front[i].value.action == Some(prev.actions[a]);
          assert os[i] == front[i];
        } else {
          assert os[n].Some? && os[n].value.action == Some(r.actions[a]);
        }
      }
    }
  }

  /** The record an outcome leaves, if any. */
  function Logged(o: Option<Applied>): seq<Action> {
    match o
    case None => []
    case Some(a) => a.action.ToSeq()
  }

  /** The outcomes' records read first to last: the reference order of the
      ledger. */
  function OutcomeRecords(os: seq<Option<Applied>>): seq<Action>
    decreases |os|
  {
    if |os| == 0 then [] else Logged(os[0]) + OutcomeRecords(os[1..])
  }

  /** Reading the records first to last, the last outcome's record comes
      at the end. */
  lemma {:induction false} OutcomeRecordsSnoc(os: seq<Option<Applied>>)
    requires |os| > 0
    ensures OutcomeRecords(os) == OutcomeRecords(os[..|os| - 1]) + Logged(os[|os| - 1])
    decreases |os|
  {
    var n := |os| - 1;
    if n == 0 {
      assert os[..0] == [];
      assert OutcomeRecords(os[1..]) == [];
    } else {
      var rest := os[1..];
      OutcomeRecordsSnoc(rest);
      assert rest[..|rest| - 1] == os[..n][1..];
      assert rest[|rest| - 1] == os[n];
      assert os[..n][0] == os[0];
    }
  }

  /** The fold's ledger is the outcomes' records in visiting order: the
      records of earlier keys come first, and none is dropped or repeated. */
  lemma {:induction false} AccumulatedInOrder(os: seq<Option<Applied>>)
    ensures Accumulate(os).actions == OutcomeRecords(os)
    decreases |os|
  {
    if |os| > 0 {
      var n := |os| - 1;
      AccumulatedInOrder(os[..n]);
      OutcomeRecordsSnoc(os);
    }
  }

  /** The `a`-th record of the fold is the record of some outcome. */
  lemma ActionFromOutcome(os: seq<Option<Applied>>, a: nat)
    requires a < |Accumulate(os).actions|
    ensures FromSomeOutcome(os, Accumulate(os).actions[a])
  {
    AccumulatedActions(os);
  }

  /** The outcome of every key of `order`, in order. */
  function Outcomes(table: seq<Rule>, et: ElementType, id: int, tags: TagMap, order: seq<string>): (os: seq<Option<Applied>>)
    requires TableWellFormed(table)
    requires forall i :: 0 <= i < |order| ==> order[i] in tags
    ensures |os| == |order|
    ensures forall i :: 0 <= i < |order| ==> os[i] == RewriteKey(table, et, id, tags, order[i])
  {
    seq(|order|, i requires 0 <= i < |order| => RewriteKey(table, et, id, tags, order[i]))
  }

  /** The `for key in deprecated_key_set` loop over the keys in `order`. */
  function ProcessKeys(table: seq<Rule>, et: ElementType, id: int, tags: TagMap, order: seq<string>): Update
    requires TableWellFormed(table)
    requires forall i :: 0 <= i < |order| ==> order[i] in tags
  {
    Accumulate(Outcomes(table, et, id, tags, order))
  }

  /** Some row of the table qualifies for the element's tag `key`. */
  predicate KeyMatched(table: seq<Rule>, tags: TagMap, key: string)
    requires key in tags
  {
    FirstMatch(table, key, tags[key]).Some?
  }

  /** The tag `key` is matched by a row whose kind has a recipe, so its
      rewrite leaves an audit record. */
  predicate Handled(table: seq<Rule>, tags: TagMap, key: string)
    requires TableWellFormed(table) && key in tags
  {
    match FirstMatch(table, key, tags[key])
    case None => false
    case Some(i) => table[i].kind != DkeyDvalueSquareYes
  }

  /** The audit record the rewrite of a handled key leaves. */
  function RecordOf(table: seq<Rule>, et: ElementType, id: int, tags: TagMap, key: string): Action
    requires TableWellFormed(table) && key in tags && Handled(table, tags, key)
  {
    RewriteKey(table, et, id, tags, key).value.action.value
  }

  /** The handled keys among `s`. */
  function HandledKeys(table: seq<Rule>, tags: TagMap, s: set<string>): set<string>
    requires TableWellFormed(table) && s <= tags.Keys
  {
    set k | k in s && Handled(table, tags, k)
  }

  /** `update_deprecated_tags(type, id, set(dict(tags)), tags)`. The tags
      come back as the very same object exactly when no deprecated key of
      the element is matched by a row. */
  function UpdateDeprecatedTags(table: seq<Rule>, et: ElementType, id: int, tags: TagMap, order: seq<string>): (r: Update)
    requires TableWellFormed(table)
    requires Enumerates(order, DeprecatedKeySet(table, tags))
    ensures |tags| == 0 ==> r == Update(Same, [])
    ensures r.ref == Same <==>
              forall k :: k in DeprecatedKeySet(table, tags) ==> !KeyMatched(table, tags, k)
    ensures r.ref == Same ==> r.actions == []
  {
    if |tags| == 0 then Update(Same, [])
    else
      KeyLevelFacts(table, et, id, tags, order);
      ProcessKeys(table, et, id, tags, order)
  }

  /** `order[i]` is matched, and no key after it in `order` is. */
  predicate LastMatchedKey(table: seq<Rule>, tags: TagMap, order: seq<string>, i: nat)
    requires i < |order|
    requires forall j :: 0 <= j < |order| ==> order[j] in tags
  {
    KeyMatched(table, tags, order[i]) &&
    forall j :: i < j < |order| ==> !KeyMatched(table, tags, order[j])
  }

  /** The loop's new tags are the rewrite of the last matched key in
      visiting order. */
  lemma LastKeyDecides(table: seq<Rule>, et: ElementType, id: int, tags: TagMap, order: seq<string>)
    requires TableWellFormed(table)
    requires forall j :: 0 <= j < |order| ==> order[j] in tags
    ensures var r := ProcessKeys(table, et, id, tags, order);
      r.ref.Fresh? ==>
        exists i :: 0 <= i < |order| && LastMatchedKey(table, tags, order, i) &&
                    r.ref.tags == RewriteKey(table, et, id, tags, order[i]).value.tags
  {
    var os := Outcomes(table, et, id, tags, order);
    var r := Accumulate(os);
    if r.ref.Fresh? {
      var i :| 0 <= i < |os| && LastApplied(os, i) && r.ref.tags == os[i].value.tags;
      forall j | i < j < |order|
        ensures !KeyMatched(table, tags, order[j])
      {
        assert os[j].None?;
      }
      assert LastMatchedKey(table, tags, order, i);
    }
  }

  /** What `update_deprecated_tags` returns and records: new tags are the
      rewrite of the last matched deprecated key in visiting order, and the
      records are exactly one per handled deprecated key. */
  lemma UpdateOutcome(table: seq<Rule>, et: ElementType, id: int, tags: TagMap, order: seq<string>)
    requires TableWellFormed(table)
    requires Enumerates(order, DeprecatedKeySet(table, tags))
    ensures var r := UpdateDeprecatedTags(table, et, id, tags, order);
      r.ref.Fresh? ==>
        exists k :: k in DeprecatedKeySet(table, tags) && KeyMatched(table, tags, k) &&
                    r.ref.tags == RewriteKey(table, et, id, tags, k).value.tags
    ensures var r := UpdateDeprecatedTags(table, et, id, tags, order);
      r.ref.Fresh? ==>
        exists i :: 0 <= i < |order| && LastMatchedKey(table, tags, order, i) &&
                    r.ref.tags == RewriteKey(table, et, id, tags, order[i]).value.tags
    ensures var r := UpdateDeprecatedTags(table, et, id, tags, order);
      |r.actions| == |HandledKeys(table, tags, DeprecatedKeySet(table, tags))|
    ensures var r := UpdateDeprecatedTags(table, et, id, tags, order);
      forall a :: 0 <= a < |r.actions| ==>
        exists k :: k in DeprecatedKeySet(table, tags) && Handled(table, tags, k) &&
                    r.actions[a] == RecordOf(table, et, id, tags, k)
    ensures var r := UpdateDeprecatedTags(table, et, id, tags, order);
      forall k :: k in DeprecatedKeySet(table, tags) && Handled(table, tags, k) ==>
        RecordOf(table, et, id, tags, k) in r.actions
  {
    if |tags| > 0 {
      KeyLevelFacts(table, et, id, tags, order);
      LastKeyDecides(table, et, id, tags, order);
      OneRecordPerHandledKey(table, et, id, tags, order, DeprecatedKeySet(table, tags));
      RecordsComeFromHandledKeys(table, et, id, tags, order);
      HandledKeysLeaveRecords(table, et, id, tags, order);
    } else {
      assert DeprecatedKeySet(table, tags) == {};
      assert HandledKeys(table, tags, {}) == {};
    }
  }

  /** The facts about the loop over `order` restated per key of the
      deprecated key set, which `order` enumerates. */
  lemma KeyLevelFacts(table: seq<Rule>, et: ElementType, id: int, tags: TagMap, order: seq<string>)
    requires TableWellFormed(table)
    requires Enumerates(order, DeprecatedKeySet(table, tags))
    ensures var r := ProcessKeys(table, et, id, tags, order);
      && (r.ref == Same <==>
            forall k :: k in DeprecatedKeySet(table, tags) ==> !KeyMatched(table, tags, k))
      && (r.ref == Same ==> r.actions == [])
      && (r.ref.Fresh? ==>
            exists k :: k in DeprecatedKeySet(table, tags) && KeyMatched(table, tags, k) &&
                        r.ref.tags == RewriteKey(table, et, id, tags, k).value.tags)
  {
    var os := Outcomes(table, et, id, tags, order);
    var r := Accumulate(os);
    if r.ref.Fresh? {
      var i :| 0 <= i < |os| && LastApplied(os, i) && r.ref.tags == os[i].value.tags;
      assert order[i] in DeprecatedKeySet(table, tags);
      assert KeyMatched(table, tags, order[i]);
    }
    if forall i :: 0 <= i < |os| ==> os[i].None? {
      forall k | k in DeprecatedKeySet(table, tags)
        ensures !KeyMatched(table, tags, k)
      {
        var i :| 0 <= i < |order| && order[i] == k;
        assert os[i].None?;
      }
    } else {
      var i :| 0 <= i < |os| && os[i].Some?;
      assert order[i] in DeprecatedKeySet(table, tags) && KeyMatched(table, tags, order[i]);
    }
  }

  /** Rewriting the keys of `order`, which lists `s` without repetition,
      leaves one audit record per handled key of `s`. */
  lemma {:induction false} OneRecordPerHandledKey(table: seq<Rule>, et: ElementType, id: int, tags: TagMap, order: seq<string>, s: set<string>)
    requires TableWellFormed(table) && s <= tags.Keys
    requires Enumerates(order, s)
    ensures |ProcessKeys(table, et, id, tags, order).actions| == |HandledKeys(table, tags, s)|
    decreases |order|
  {
    if |order| == 0 {
      assert HandledKeys(table, tags, s) == {};
    } else {
      var n := |order| - 1;
      var last := order[n];
      var rest := s - {last};
      var o := RewriteKey(table, et, id, tags, last);
      var step := if o.Some? && o.value.action.Some? then 1 else 0;
      calc {
        |ProcessKeys(table, et, id, tags, order).actions|;
        { ProcessKeysStep(table, et, id, tags, order); }
        |ProcessKeys(table, et, id, tags, order[..n]).actions| + step;
        { EnumeratesFront(order, s);
          OneRecordPerHandledKey(table, et, id, tags, order[..n], rest); }
        |HandledKeys(table, tags, rest)| + step;
        { HandledIffRecord(table, et, id, tags, last);
          HandledKeysAdd(table, tags, rest, last); }
        |HandledKeys(table, tags, rest + {last})|;
        { assert s == rest + {last}; }
        |HandledKeys(table, tags, s)|;
      }
    }
  }

  /** One more key adds its record, if its rewrite leaves one. */
  lemma ProcessKeysStep(table: seq<Rule>, et: ElementType, id: int, tags: TagMap, order: seq<string>)
    requires TableWellFormed(table) && |order| > 0
    requires forall i :: 0 <= i < |order| ==> order[i] in tags
    ensures var n := |order| - 1;
      var o := RewriteKey(table, et, id, tags, order[n]);
      |ProcessKeys(table, et, id, tags, order).actions| ==
      |ProcessKeys(table, et, id, tags, order[..n]).actions| + (if o.Some? && o.value.action.Some? then 1 else 0)
  {
    var n := |order| - 1;
    var os := Outcomes(table, et, id, tags, order);
    OutcomesPrefix(table, et, id, tags, order);
    AccumulateStep(os);
  }

  /** One more key adds itself to the handled keys exactly when handled. */
  lemma HandledKeysAdd(table: seq<Rule>, tags: TagMap, rest: set<string>, last: string)
    requires TableWellFormed(table) && rest <= tags.Keys && last in tags && last !in rest
    ensures |HandledKeys(table, tags, rest + {last})| ==
            |HandledKeys(table, tags, rest)| + (if Handled(table, tags, last) then 1 else 0)
  {
    if Handled(table, tags, last) {
      assert HandledKeys(table, tags, rest + {last}) == HandledKeys(table, tags, rest) + {last};
    } else {
      assert HandledKeys(table, tags, rest + {last}) == HandledKeys(table, tags, rest);
    }
  }

  /** The outcomes of a prefix of `order` are a prefix of its outcomes. */
  lemma OutcomesPrefix(table: seq<Rule>, et: ElementType, id: int, tags: TagMap, order: seq<string>)
    requires TableWellFormed(table) && |order| > 0
    requires forall i :: 0 <= i < |order| ==> order[i] in tags
    ensures var n := |order| - 1;
      Outcomes(table, et, id, tags, order)[..n] == Outcomes(table, et, id, tags, order[..n]) &&
      Outcomes(table, et, id, tags, order)[n] == RewriteKey(table, et, id, tags, order[n])
  {
  }

  /** One more outcome adds its record, if it has one. */
  lemma AccumulateStep(os: seq<Option<Applied>>)
    requires |os| > 0
    ensures var n := |os| - 1;
      |Accumulate(os).actions| ==
      |Accumulate(os[..n]).actions| + (if os[n].Some? && os[n].value.action.Some? then 1 else 0)
  {
  }

  /** A key leaves a record exactly when it is handled. */
  lemma HandledIffRecord(table: seq<Rule>, et: ElementType, id: int, tags: TagMap, key: string)
    requires TableWellFormed(table) && key in tags
    ensures (RewriteKey(table, et, id, tags, key).Some? &&
             RewriteKey(table, et, id, tags, key).value.action.Some?) <==> Handled(table, tags, key)
  {
  }

  /** Dropping the last key of an enumeration enumerates the rest. */
  lemma EnumeratesFront(order: seq<string>, s: set<string>)
    requires Enumerates(order, s) && |order| > 0
    ensures Enumerates(order[..|order| - 1], s - {order[|order| - 1]})
  {
    var n := |order| - 1;
    var front := order[..n];
    forall k | k in s - {order[n]}
      ensures k in front
    {
      var i :| 0 <= i < |order| && order[i] == k;
      assert i < n && front[i] == k;
    }
  }

  /** Every record of the loop is the record of a handled key of the
      deprecated key set. */
  lemma RecordsComeFromHandledKeys(table: seq<Rule>, et: ElementType, id: int, tags: TagMap, order: seq<string>)
    requires TableWellFormed(table)
    requires Enumerates(order, DeprecatedKeySet(table, tags))
    ensures forall a :: 0 <= a < |ProcessKeys(table, et, id, tags, order).actions| ==>
              exists k :: k in DeprecatedKeySet(table, tags) && Handled(table, tags, k) &&
                          ProcessKeys(table, et, id, tags, order).actions[a] == RecordOf(table, et, id, tags, k)
  {
    var actions := ProcessKeys(table, et, id, tags, order).actions;
    forall a | 0 <= a < |actions|
      ensures exists k :: k in DeprecatedKeySet(table, tags) && Handled(table, tags, k) &&
                          actions[a] == RecordOf(table, et, id, tags, k)
    {
      LoopRecordFromHandledKey(table, et, id, tags, order, a);
    }
  }

  /** The `a`-th record of the loop is the record of a handled key of the
      deprecated key set. */
  lemma LoopRecordFromHandledKey(table: seq<Rule>, et: ElementType, id: int, tags: TagMap, order: seq<string>, a: nat)
    requires TableWellFormed(table)
    requires Enumerates(order, DeprecatedKeySet(table, tags))
    requires a < |ProcessKeys(table, et, id, tags, order).actions|
    ensures exists k :: k in DeprecatedKeySet(table, tags) && Handled(table, tags, k) &&
                        ProcessKeys(table, et, id, tags, order).actions[a] == RecordOf(table, et, id, tags, k)
  {
    var os := Outcomes(table, et, id, tags, order);
    var record := Accumulate(os).actions[a];
    ActionFromOutcome(os, a);
    var i :| 0 <= i < |os| && os[i].Some? && os[i].value.action == Some(record);
    OutcomeFromHandledKey(table, et, id, tags, order[i], record);
  }

  /** A record produced by the rewrite of a deprecated key is the record of
      a handled deprecated key. */
  lemma OutcomeFromHandledKey(table: seq<Rule>, et: ElementType, id: int, tags: TagMap, key: string, a: Action)
    requires TableWellFormed(table) && key in DeprecatedKeySet(table, tags)
    requires RewriteKey(table, et, id, tags, key).Some?
    requires RewriteKey(table, et, id, tags, key).value.action == Some(a)
    ensures exists k :: k in DeprecatedKeySet(table, tags) && Handled(table, tags, k) &&
                        a == RecordOf(table, et, id, tags, k)
  {
    OutcomeRecord(table, et, id, tags, key, a);
  }

  /** A record produced by the rewrite of a key is that key's record. */
  lemma OutcomeRecord(table: seq<Rule>, et: ElementType, id: int, tags: TagMap, key: string, a: Action)
    requires TableWellFormed(table) && key in tags
    requires RewriteKey(table, et, id, tags, key).Some?
    requires RewriteKey(table, et, id, tags, key).value.action == Some(a)
    ensures Handled(table, tags, key) && a == RecordOf(table, et, id, tags, key)
  {
    HandledIffRecord(table, et, id, tags, key);
  }

  /** The record of every handled key of the deprecated key set is among
      the records of the loop. */
  lemma HandledKeysLeaveRecords(table: seq<Rule>, et: ElementType, id: int, tags: TagMap, order: seq<string>)
    requires TableWellFormed(table)
    requires Enumerates(order, DeprecatedKeySet(table, tags))
    ensures forall k :: k in DeprecatedKeySet(table, tags) && Handled(table, tags, k) ==>
              RecordOf(table, et, id, tags, k) in ProcessKeys(table, et, id, tags, order).actions
  {
    var os := Outcomes(table, et, id, tags, order);
    AccumulatedActions(os);
    forall k | k in DeprecatedKeySet(table, tags) && Handled(table, tags, k)
      ensures RecordOf(table, et, id, tags, k) in Accumulate(os).actions
    {
      var i :| 0 <= i < |order| && order[i] == k;
      HandledIffRecord(table, et, id, tags, k);
      assert os[i].Some? && os[i].value.action.Some?;
    }
  }

  /** A sequence without repeated elements is no longer than the set of
      its elements. */
  lemma {:induction false} DistinctLength(order: seq<string>, s: set<string>)
    requires Enumerates(order, s)
    ensures |order| == |s|
    decreases |order|
  {
    if |order| > 0 {
      var n := |order| - 1;
      var front := order[..n];
      assert Enumerates(front, s - {order[n]}) by {
        forall k
          ensures k in front <==> k in s - {order[n]}
        {
          if k in front {
            var i :| 0 <= i < n && front[i] == k;
            assert order[i] == k;
          }
          if k in s - {order[n]} {
            var i :| 0 <= i < |order| && order[i] == k;
            assert i < n && front[i] == k;
          }
        }
      }
      DistinctLength(front, s - {order[n]});
    }
  }

  /** The record an applied rule produces names the element and the
      deprecated key, so
      distinct keys give distinct records and each rewritten key is logged
      once. */
  lemma ActionNamesKey(table: seq<Rule>, et: ElementType, id: int, tags: TagMap, key: string)
    requires TableWellFormed(table) && key in tags
    requires RewriteKey(table, et, id, tags, key).Some?
    requires RewriteKey(table, et, id, tags, key).value.action.Some?
    ensures var a := RewriteKey(table, et, id, tags, key).value.action.value;
      && a.elementType == et && a.elementId == id
      && a.key == key && a.value == tags[key] && a.kind == DeprecatedTagUpdated
  {
  }

  /** When exactly one key of the element is matched, the iteration order
      does not matter: the result is that key's rewrite. */
  lemma OnlyMatchedKeyDecides(table: seq<Rule>, et: ElementType, id: int, tags: TagMap, order: seq<string>, key: string)
    requires TableWellFormed(table)
    requires Enumerates(order, DeprecatedKeySet(table, tags))
    requires key in DeprecatedKeySet(table, tags) && KeyMatched(table, tags, key)
    requires forall k :: k in DeprecatedKeySet(table, tags) && k != key ==> !KeyMatched(table, tags, k)
    ensures UpdateDeprecatedTags(table, et, id, tags, order).ref ==
            Fresh(RewriteKey(table, et, id, tags, key).value.tags)
  {
    UpdateOutcome(table, et, id, tags, order);
  }
}
