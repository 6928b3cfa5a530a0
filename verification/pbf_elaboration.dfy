/** `PbfElaborationHandler`: every node, way and relation of the input
    file goes through `transform`, which runs the deprecated-tag rewrite and
    then the Wikidata label merge, and is written to the output file either
    as it came or with its tags replaced. The handler keeps an element
    counter and the audit ledger. */
module PbfElaboration {
  import opened Wrappers
  import opened Strings
  import opened DeprecatedFeatures
  import opened Tags
  import opened DeprecatedTagUpdate
  import opened Wikidata
  import opened WikidataLabels

  /** The handler's state: rule table and label table, fixed for the run,
      the audit ledger and the number of elements seen. */
  datatype Handler = Handler(table: seq<Rule>, labels: seq<LabelRow>, actions: seq<Action>, count: nat)

  /** What `transform` returns: `True` when the tag object came back
      unchanged, or the dictionary to write instead. */
  datatype Outcome = Unchanged | Replace(tags: TagMap)

  datatype Transformed = Transformed(handler: Handler, outcome: Outcome)

  /** The element has no key any rule names and no `wikidata` tag. */
  predicate Untouchable(table: seq<Rule>, tags: TagMap) {
    && (forall k :: k in tags ==> k !in FullKeySet(table))
    && WikidataKey !in tags
  }

  /** `transform(type, id, tags)`: the key set is taken once from the
      incoming tags; the rewrite runs on the tags, the label merge on what
      the rewrite returned; the result is `Unchanged` exactly when neither
      step built a new dictionary. Both steps append to the ledger. */
  function Transform(h: Handler, et: ElementType, id: int, tags: TagMap, order: seq<string>): (r: Transformed)
    requires TableWellFormed(h.table)
    requires Enumerates(order, DeprecatedKeySet(h.table, tags))
    ensures r.handler.count == h.count + 1
    ensures r.handler.table == h.table && r.handler.labels == h.labels
    ensures |h.actions| <= |r.handler.actions| && r.handler.actions[..|h.actions|] == h.actions
  {
    var update := UpdateDeprecatedTags(h.table, et, id, tags, order);
    var working := update.ref.Resolve(tags);
    var labels := AddWikidataLabel(h.labels, et, id, tags.Keys, working);
    var actions := h.actions + update.actions + labels.actions;
    assert actions[..|h.actions|] == h.actions;
    var outcome := if update.ref == Same && labels.ref == Same then Unchanged
                   else Replace(labels.ref.Resolve(working));
    Transformed(h.(actions := actions, count := h.count + 1), outcome)
  }

  /** All records of `s` name the element `et`/`id`. */
  predicate AllName(s: seq<Action>, et: ElementType, id: int) {
    forall i :: 0 <= i < |s| ==> s[i].elementType == et && s[i].elementId == id
  }

  lemma AppendedRecordsName(ledger: seq<Action>, a: seq<Action>, b: seq<Action>, et: ElementType, id: int)
    requires AllName(a, et, id) && AllName(b, et, id)
    ensures forall i :: |ledger| <= i < |ledger + a + b| ==>
              (ledger + a + b)[i].elementType == et && (ledger + a + b)[i].elementId == id
  {
    forall i | |ledger| <= i < |ledger + a + b|
      ensures (ledger + a + b)[i].elementType == et && (ledger + a + b)[i].elementId == id
    {
      if i < |ledger| + |a| {
        assert (ledger + a + b)[i] == a[i - |ledger|];
      } else {
        assert (ledger + a + b)[i] == b[i - |ledger| - |a|];
      }
    }
  }

  /** The records `transform` appends all name the element it was given. */
  lemma TransformRecordsNameElement(h: Handler, et: ElementType, id: int, tags: TagMap, order: seq<string>)
    requires TableWellFormed(h.table)
    requires Enumerates(order, DeprecatedKeySet(h.table, tags))
    ensures var actions := Transform(h, et, id, tags, order).handler.actions;
      forall i :: |h.actions| <= i < |actions| ==>
        actions[i].elementType == et && actions[i].elementId == id
  {
    var update := UpdateDeprecatedTags(h.table, et, id, tags, order);
    var working := update.ref.Resolve(tags);
    var labels := AddWikidataLabel(h.labels, et, id, tags.Keys, working);
    UpdateRecordsNameElement(h.table, et, id, tags, order);
    LabelOutcome(h.labels, et, id, tags.Keys, working);
    assert AllName(labels.actions, et, id);
    AppendedRecordsName(h.actions, update.actions, labels.actions, et, id);
  }

  /** The element's tag object comes back unchanged exactly when no rule
      matches any of its deprecated keys and no label passes the filter. */
  lemma TransformUnchangedIff(h: Handler, et: ElementType, id: int, tags: TagMap, order: seq<string>)
    requires TableWellFormed(h.table)
    requires Enumerates(order, DeprecatedKeySet(h.table, tags))
    ensures Transform(h, et, id, tags, order).outcome == Unchanged <==>
              && (forall k :: k in DeprecatedKeySet(h.table, tags) ==> !KeyMatched(h.table, tags, k))
              && !LabelsApply(h.labels, tags.Keys, tags)
  {
    var update := UpdateDeprecatedTags(h.table, et, id, tags, order);
    if update.ref == Same {
      assert update.ref.Resolve(tags) == tags;
    }
  }

  /** An element with no key the table names and no `wikidata` tag, or
      with no tags at all, is left alone: no record, only the count moves. */
  lemma TransformLeavesUntouchable(h: Handler, et: ElementType, id: int, tags: TagMap, order: seq<string>)
    requires TableWellFormed(h.table)
    requires Enumerates(order, DeprecatedKeySet(h.table, tags))
    requires Untouchable(h.table, tags) || |tags| == 0
    ensures Transform(h, et, id, tags, order) == Transformed(h.(count := h.count + 1), Unchanged)
  {
    UntouchedKeySet(h.table, tags);
    var update := UpdateDeprecatedTags(h.table, et, id, tags, order);
    assert update.ref == Same;
    var labels := AddWikidataLabel(h.labels, et, id, tags.Keys, tags);
    assert !LabelsApply(h.labels, tags.Keys, tags);
    var t := Transform(h, et, id, tags, order);
    assert t.handler.actions == h.actions + update.actions + labels.actions;
    assert h.actions + [] + [] == h.actions;
  }

  /** An element with no key the table names has no deprecated key. */
  lemma UntouchedKeySet(table: seq<Rule>, tags: TagMap)
    ensures Untouchable(table, tags) ==> DeprecatedKeySet(table, tags) == {}
  {
  }

  /** The rewrite's records all name the element they were made for. */
  lemma UpdateRecordsNameElement(table: seq<Rule>, et: ElementType, id: int, tags: TagMap, order: seq<string>)
    requires TableWellFormed(table)
    requires Enumerates(order, DeprecatedKeySet(table, tags))
    ensures AllName(UpdateDeprecatedTags(table, et, id, tags, order).actions, et, id)
  {
    if |tags| > 0 {
      LoopRecordsNameElement(table, et, id, tags, order);
    }
  }

  lemma LoopRecordsNameElement(table: seq<Rule>, et: ElementType, id: int, tags: TagMap, order: seq<string>)
    requires TableWellFormed(table)
    requires Enumerates(order, DeprecatedKeySet(table, tags))
    ensures AllName(ProcessKeys(table, et, id, tags, order).actions, et, id)
  {
    var actions := ProcessKeys(table, et, id, tags, order).actions;
    RecordsComeFromHandledKeys(table, et, id, tags, order);
    forall a | 0 <= a < |actions|
      ensures actions[a].elementType == et && actions[a].elementId == id
    {
      var k :| k in DeprecatedKeySet(table, tags) && Handled(table, tags, k) &&
               actions[a] == RecordOf(table, et, id, tags, k);
      ActionNamesKey(table, et, id, tags, k);
    }
  }

  /** One element as the reader delivers it. */
  datatype Element = Element(et: ElementType, id: int, tags: TagMap)

  /** The `node`, `way` and `relation` callbacks: the element's tags go
      through `transform` and the element is written as it came, or as a
      copy with the new tags. */
  method Visit(h: Handler, e: Element, order: seq<string>) returns (next: Handler, w: Element)
    requires TableWellFormed(h.table)
    requires Enumerates(order, DeprecatedKeySet(h.table, e.tags))
    ensures next == Transform(h, e.et, e.id, e.tags, order).handler
    ensures w.et == e.et && w.id == e.id
    ensures Transform(h, e.et, e.id, e.tags, order).outcome == Unchanged ==> w == e
    ensures Transform(h, e.et, e.id, e.tags, order).outcome.Replace? ==>
              w.tags == Transform(h, e.et, e.id, e.tags, order).outcome.tags
    ensures Untouchable(h.table, e.tags) ==> w == e && next.actions == h.actions
  {
    if Untouchable(h.table, e.tags) {
      TransformLeavesUntouchable(h, e.et, e.id, e.tags, order);
    }
    var t := Transform(h, e.et, e.id, e.tags, order);
    next := t.handler;
    match t.outcome
    case Unchanged => w := e;
    case Replace(m) => w := e.(tags := m);
  }

  const OsmBaseUrl: string := "https://www.openstreetmap.org/"

  /** The `url` column of the audit table: the element's page on the
      OpenStreetMap website. */
  function AuditUrl(a: Action): (url: string)
    ensures |url| > |OsmBaseUrl|
    ensures url[..|OsmBaseUrl|] == OsmBaseUrl
  {
    OsmBaseUrl + a.elementType.Name() + "/" + IntToDecimal(a.elementId)
  }

  /** `str(i)` holds digits and a minus sign only. */
  lemma DecimalHasNoSlash(i: int)
    ensures '/' !in IntToDecimal(i)
  {
    var s := IntToDecimal(i);
    if i < 0 {
      assert forall j :: 1 <= j < |s| ==> s[j] == NatToDecimal(-i)[j - 1];
    }
  }

  /** The URL names the element: after the base, its two path segments are
      the element type and a number that reads back as the element id. */
  lemma AuditUrlNamesElement(a: Action)
    ensures var segments := Split(AuditUrl(a)[|OsmBaseUrl|..], '/');
      && |segments| == 2
      && segments[0] == a.elementType.Name()
      && IsIntText(segments[1])
      && IntValue(segments[1]) == a.elementId
  {
    var name, number := a.elementType.Name(), IntToDecimal(a.elementId);
    assert AuditUrl(a)[|OsmBaseUrl|..] == name + "/" + number;
    DecimalHasNoSlash(a.elementId);
    assert Join([name, number], "/") == name + "/" + number;
    SplitJoin([name, number], '/');
    IntRoundTrip(a.elementId);
  }

  /** A rule row without second pair. */
  function SimpleRule(oldKey: string, oldValue: string, newKey: string, newValue: string, kind: RuleKind): Rule
  {
    Rule("", oldKey, oldValue, newKey, newValue, None, None, "", kind)
  }

  /** The table of one row names only that row's old key. */
  lemma OneRowKeySet(row: Rule)
    ensures FullKeySet([row]) == {row.oldKey}
  {
    assert [row][0].oldKey in FullKeySet([row]);
  }

  /** Without label rows, `transform` logs what the rewrite step logs. */
  lemma TransformWithoutLabelsLogs(h: Handler, et: ElementType, id: int, tags: TagMap, order: seq<string>)
    requires TableWellFormed(h.table) && h.labels == []
    requires Enumerates(order, DeprecatedKeySet(h.table, tags))
    ensures Transform(h, et, id, tags, order).handler ==
              h.(actions := h.actions + UpdateDeprecatedTags(h.table, et, id, tags, order).actions, count := h.count + 1)
  {
    var u := UpdateDeprecatedTags(h.table, et, id, tags, order);
    assert AddWikidataLabel([], et, id, tags.Keys, u.ref.Resolve(tags)) == Update(Same, []);
    assert h.actions + u.actions + [] == h.actions + u.actions;
  }

  /** Without label rows, `transform` returns what the rewrite step
      returns. */
  lemma TransformWithoutLabelsReturns(h: Handler, et: ElementType, id: int, tags: TagMap, order: seq<string>)
    requires TableWellFormed(h.table) && h.labels == []
    requires Enumerates(order, DeprecatedKeySet(h.table, tags))
    ensures var u := UpdateDeprecatedTags(h.table, et, id, tags, order);
      Transform(h, et, id, tags, order).outcome == if u.ref == Same then Unchanged else Replace(u.ref.tags)
  {
    var u := UpdateDeprecatedTags(h.table, et, id, tags, order);
    assert AddWikidataLabel([], et, id, tags.Keys, u.ref.Resolve(tags)) == Update(Same, []);
  }

  /** Without label rows, `transform` is the rewrite step alone. */
  lemma TransformWithoutLabels(h: Handler, et: ElementType, id: int, tags: TagMap, order: seq<string>)
    requires TableWellFormed(h.table) && h.labels == []
    requires Enumerates(order, DeprecatedKeySet(h.table, tags))
    ensures var u := UpdateDeprecatedTags(h.table, et, id, tags, order);
      Transform(h, et, id, tags, order) ==
        Transformed(h.(actions := h.actions + u.actions, count := h.count + 1),
                    if u.ref == Same then Unchanged else Replace(u.ref.tags))
  {
    TransformWithoutLabelsLogs(h, et, id, tags, order);
    TransformWithoutLabelsReturns(h, et, id, tags, order);
  }

  const FordRule: Rule := SimpleRule("highway", "ford", "ford", "yes", DkeyDvalueFixed)

  /** A set of one key is enumerated by that key alone. */
  lemma SingletonOrder(order: seq<string>, k: string)
    requires Enumerates(order, {k})
    ensures order == [k]
  {
    DistinctLength(order, {k});
  }

  /** The rewrite step on a single deprecated key that a rule matches. */
  lemma SingleKeyUpdate(table: seq<Rule>, et: ElementType, id: int, tags: TagMap, order: seq<string>, k: string)
    requires TableWellFormed(table)
    requires Enumerates(order, DeprecatedKeySet(table, tags))
    requires DeprecatedKeySet(table, tags) == {k}
    requires RewriteKey(table, et, id, tags, k).Some?
    ensures var a := RewriteKey(table, et, id, tags, k).value;
      UpdateDeprecatedTags(table, et, id, tags, order) == Update(Fresh(a.tags), a.action.ToSeq())
  {
    SingletonOrder(order, k);
    var os := Outcomes(table, et, id, tags, order);
    assert os == [RewriteKey(table, et, id, tags, k)];
    assert os[..0] == [];
  }

  /** The `highway=ford` row applied to the tag `highway=ford`. */
  lemma FordRowApplied()
    ensures RewriteKey([FordRule], Node, 1, map["highway" := "ford"], "highway") ==
              Some(Applied(map["ford" := "yes"],
                           Some(Action(Node, 1, "highway", "ford", DeprecatedTagUpdated, "ford=yes"))))
  {
    var tags := map["highway" := "ford"];
    assert FirstMatch([FordRule], "highway", "ford") == Some(0);
    assert (tags - {"highway"})["ford" := "yes"] == map["ford" := "yes"];
    assert FordRule.newKey1 + "=" + FordRule.newValue1 == "ford=yes";
  }

  /** The `highway=ford` row turns the tag into `ford=yes` and logs
      `ford=yes`. */
  lemma FordIsRewritten(order: seq<string>)
    requires Enumerates(order, DeprecatedKeySet([FordRule], map["highway" := "ford"]))
    ensures var h := Handler([FordRule], [], [], 0);
      Transform(h, Node, 1, map["highway" := "ford"], order) ==
        Transformed(h.(count := 1, actions := [Action(Node, 1, "highway", "ford", DeprecatedTagUpdated, "ford=yes")]),
                    Replace(map["ford" := "yes"]))
  {
    var table := [FordRule];
    var tags := map["highway" := "ford"];
    OneRowKeySet(FordRule);
    assert DeprecatedKeySet(table, tags) == {"highway"};
    FordRowApplied();
    SingleKeyUpdate(table, Node, 1, tags, order, "highway");
    TransformWithoutLabels(Handler(table, [], [], 0), Node, 1, tags, order);
  }

  /** The capture tuple of a fixed+fixed template entry whose optional
      second suggestion is absent: `re.findall` gives `""` for the two
      groups that did not take part. */
  const OnePairCaptures: seq<string> := ["2012-05-01", "highway", "ford", "ford", "yes", "", "", "7"]

  /** Such an entry's row writes its empty second pair: `highway=ford`
      becomes `ford=yes` plus a tag with the empty key and the empty value,
      and the detail ends in ` + =`. */
  lemma MissingSecondPairWritesEmptyKey(order: seq<string>)
    requires Enumerates(order, DeprecatedKeySet([BuildRow(FixedFixedPattern, OnePairCaptures)], map["highway" := "ford"]))
    ensures var h := Handler([BuildRow(FixedFixedPattern, OnePairCaptures)], [], [], 0);
      Transform(h, Node, 1, map["highway" := "ford"], order) ==
        Transformed(h.(count := 1, actions := [Action(Node, 1, "highway", "ford", DeprecatedTagUpdated, "ford=yes + =")]),
                    Replace(map["ford" := "yes", "" := ""]))
  {
    var row := BuildRow(FixedFixedPattern, OnePairCaptures);
    assert row == Rule("2012-05-01", "highway", "ford", "ford", "yes", Some(""), Some(""), "7", DkeyDvalueFixedFixed);
    var table := [row];
    var tags := map["highway" := "ford"];
    OneRowKeySet(row);
    assert DeprecatedKeySet(table, tags) == {"highway"};
    assert FirstMatch(table, "highway", "ford") == Some(0);
    assert (tags - {"highway"})["ford" := "yes"]["" := ""] == map["ford" := "yes", "" := ""];
    assert "ford" + "=" + "yes" + " + " + "" + "=" + "" == "ford=yes + =";
    SingleKeyUpdate(table, Node, 1, tags, order, "highway");
    TransformWithoutLabels(Handler(table, [], [], 0), Node, 1, tags, order);
  }

  const CarryRule: Rule := SimpleRule("created_by", CarryValue, "source", CarryValue, DkeyCarry)

  /** A carry row moves the value of `created_by` to `source` and keeps the
      other tags. */
  lemma CreatedByIsCarried(order: seq<string>)
    requires Enumerates(order, DeprecatedKeySet([CarryRule], map["created_by" := "JOSM", "name" := "X"]))
    ensures Transform(Handler([CarryRule], [], [], 0), Way, 2, map["created_by" := "JOSM", "name" := "X"], order).outcome ==
              Replace(map["source" := "JOSM", "name" := "X"])
  {
    var table := [CarryRule];
    var tags := map["created_by" := "JOSM", "name" := "X"];
    OneRowKeySet(CarryRule);
    assert DeprecatedKeySet(table, tags) == {"created_by"};
    assert FirstMatch(table, "created_by", "JOSM") == Some(0);
    assert RewriteKey(table, Way, 2, tags, "created_by").value.tags == map["source" := "JOSM", "name" := "X"] by {
      assert (tags - {"created_by"})["source" := "JOSM"] == map["source" := "JOSM", "name" := "X"];
    }
    SingleKeyUpdate(table, Way, 2, tags, order, "created_by");
    TransformWithoutLabels(Handler(table, [], [], 0), Way, 2, tags, order);
  }

  /** Labels equal to the name up to case are all skipped, and the element
      comes back unchanged with no record. */
  lemma LabelsRepeatingNameLeaveElement()
    ensures var rows := [LabelRow("Q42", "en", "Douglas Adams", "name:en"),
                         LabelRow("Q42", "fr", "Douglas Adams", "name:fr")];
      var h := Handler([], rows, [], 0);
      Transform(h, Node, 3, map[WikidataKey := "Q42", "name" := "Douglas Adams"], []) ==
        Transformed(h.(count := 1), Unchanged)
  {
    var rows := [LabelRow("Q42", "en", "Douglas Adams", "name:en"),
                 LabelRow("Q42", "fr", "Douglas Adams", "name:fr")];
    var tags := map[WikidataKey := "Q42", "name" := "Douglas Adams"];
    assert FullKeySet([]) == {};
    assert forall i :: 0 <= i < |rows| ==> rows[i].text == tags["name"];
  }

  /** A compound `wikidata` value: the id handler collects the id before
      the `;`, so labels are fetched for it, but the label step compares the
      whole value with the row id, so the element receives none. */
  lemma CompoundWikidataGetsNoLabel()
    ensures Check(IdHandler({}, 0), map[WikidataKey := "Q42;Q43"]).wdIds == {"Q42"}
    ensures var rows := [LabelRow("Q42", "en", "Douglas Adams", "name:en")];
      var h := Handler([], rows, [], 0);
      Transform(h, Node, 3, map[WikidataKey := "Q42;Q43"], []) ==
        Transformed(h.(count := 1), Unchanged)
  {
    CompoundIdPart();
    assert FullKeySet([]) == {};
  }

  /** The text of `Q42;Q43` before the `;` is the valid id `Q42`. */
  lemma CompoundIdPart()
    ensures BeforeFirst("Q42;Q43", ';') == "Q42"
    ensures IsQId("Q42")
  {
    var v := "Q42;Q43";
    assert v[1..][1..][1..][0] == ';';
    assert AllDigits("Q42"[1..]);
  }

  /** A label that differs from the name is added under `name:de`, with one
      record whose detail is the language. */
  lemma DifferentLabelIsAdded()
    ensures var rows := [LabelRow("Q42", "de", "Douglas Noel Adams", "name:de")];
      var h := Handler([], rows, [], 0);
      var tags := map[WikidataKey := "Q42", "name" := "Douglas Adams"];
      Transform(h, Node, 3, tags, []) ==
        Transformed(h.(count := 1, actions := [Action(Node, 3, WikidataKey, "Q42", WikidataLabelAdded, "de")]),
                    Replace(tags["name:de" := "Douglas Noel Adams"]))
  {
    var rows := [LabelRow("Q42", "de", "Douglas Noel Adams", "name:de")];
    var tags := map[WikidataKey := "Q42", "name" := "Douglas Adams"];
    assert FullKeySet([]) == {};
    assert Lower(rows[0].text) != Lower(tags["name"]) by {
      assert |Lower(rows[0].text)| == 18 && |Lower(tags["name"])| == 13;
    }
    assert Keeps(rows[0], Some("Q42"), tags.Keys, tags);
    var kept := Kept(rows, Some("Q42"), tags.Keys, tags);
    assert kept == rows;
    assert Overlay(tags, LabelWrites(kept)) == tags["name:de" := "Douglas Noel Adams"] by {
      assert LabelWrites(kept) == [Write("name:de", "Douglas Noel Adams")];
      assert LabelWrites(kept)[..0] == [];
    }
    assert Join(Langs(kept), ",") == "de" by {
      assert Langs(kept) == ["de"];
    }
  }

  /** The rewrite step on two matched deprecated keys visited in the order
      `k1`, `k2`: the tags are those of `k2`, the records those of both
      keys in visiting order. */
  lemma TwoKeyUpdate(table: seq<Rule>, et: ElementType, id: int, tags: TagMap, k1: string, k2: string)
    requires TableWellFormed(table) && k1 in tags && k2 in tags
    requires Enumerates([k1, k2], DeprecatedKeySet(table, tags))
    requires RewriteKey(table, et, id, tags, k1).Some? && RewriteKey(table, et, id, tags, k2).Some?
    ensures var first := RewriteKey(table, et, id, tags, k1).value;
      var second := RewriteKey(table, et, id, tags, k2).value;
      UpdateDeprecatedTags(table, et, id, tags, [k1, k2]) ==
        Update(Fresh(second.tags), first.action.ToSeq() + second.action.ToSeq())
  {
    var order := [k1, k2];
    var os := Outcomes(table, et, id, tags, order);
    var first := RewriteKey(table, et, id, tags, k1).value;
    var second := RewriteKey(table, et, id, tags, k2).value;
    assert os == [Some(first), Some(second)];
    assert os[..1] == [Some(first)];
    assert os[..1][..0] == [];
    assert Accumulate(os[..1]) == Update(Fresh(first.tags), first.action.ToSeq());
    assert Accumulate(os) == Update(Fresh(second.tags), first.action.ToSeq() + second.action.ToSeq());
    assert UpdateDeprecatedTags(table, et, id, tags, order) == ProcessKeys(table, et, id, tags, order);
  }

  /** Two distinct keys in either order enumerate the set of both. */
  lemma PairEnumerates(k1: string, k2: string)
    requires k1 != k2
    ensures Enumerates([k1, k2], {k1, k2})
  {
  }

  /** Two carry rows for the keys `a` and `b`. */
  const TwoCarryRules: seq<Rule> :=
    [SimpleRule("a", CarryValue, "x", CarryValue, DkeyCarry),
     SimpleRule("b", CarryValue, "y", CarryValue, DkeyCarry)]

  const TwoKeyTags: TagMap := map["a" := "1", "b" := "2"]

  lemma TwoCarryKeySet()
    ensures DeprecatedKeySet(TwoCarryRules, TwoKeyTags) == {"a", "b"}
  {
    assert TwoCarryRules[0].oldKey in FullKeySet(TwoCarryRules);
    assert TwoCarryRules[1].oldKey in FullKeySet(TwoCarryRules);
  }

  /** The key `a` is matched by the first carry row. */
  lemma FirstCarryRowApplies()
    ensures RewriteKey(TwoCarryRules, Node, 4, TwoKeyTags, "a") ==
              Some(Applied(map["x" := "1", "b" := "2"], Some(Action(Node, 4, "a", "1", DeprecatedTagUpdated, "x=1"))))
  {
    assert FirstMatch(TwoCarryRules, "a", "1") == Some(0);
    assert (TwoKeyTags - {"a"})["x" := "1"] == map["x" := "1", "b" := "2"];
    assert "x" + "=" + "1" == "x=1";
  }

  /** The key `b` is matched by the second carry row. */
  lemma SecondCarryRowApplies()
    ensures RewriteKey(TwoCarryRules, Node, 4, TwoKeyTags, "b") ==
              Some(Applied(map["a" := "1", "y" := "2"], Some(Action(Node, 4, "b", "2", DeprecatedTagUpdated, "y=2"))))
  {
    assert FirstMatch(TwoCarryRules[1..], "b", "2") == Some(0);
    assert FirstMatch(TwoCarryRules, "b", "2") == Some(1);
    assert (TwoKeyTags - {"b"})["y" := "2"] == map["a" := "1", "y" := "2"];
    assert "y" + "=" + "2" == "y=2";
  }

  /** Both orders of the two carry keys enumerate the element's deprecated
      keys. */
  lemma CarryOrders()
    ensures Enumerates(["a", "b"], DeprecatedKeySet(TwoCarryRules, TwoKeyTags))
    ensures Enumerates(["b", "a"], DeprecatedKeySet(TwoCarryRules, TwoKeyTags))
  {
    TwoCarryKeySet();
    PairEnumerates("a", "b");
    PairEnumerates("b", "a");
  }

  /** With two matched deprecated keys, both rewrites are logged, but only
      the one made last survives: visiting the keys in the other order
      gives the other key's rewrite. */
  lemma LastRewriteSurvives(table: seq<Rule>, et: ElementType, id: int, tags: TagMap, k1: string, k2: string)
    requires TableWellFormed(table) && k1 in tags && k2 in tags
    requires Enumerates([k1, k2], DeprecatedKeySet(table, tags))
    requires RewriteKey(table, et, id, tags, k1).Some? && RewriteKey(table, et, id, tags, k2).Some?
    ensures Enumerates([k2, k1], DeprecatedKeySet(table, tags))
    ensures UpdateDeprecatedTags(table, et, id, tags, [k1, k2]).ref == Fresh(RewriteKey(table, et, id, tags, k2).value.tags)
    ensures UpdateDeprecatedTags(table, et, id, tags, [k2, k1]).ref == Fresh(RewriteKey(table, et, id, tags, k1).value.tags)
  {
    assert [k2, k1][0] == [k1, k2][1] && [k2, k1][1] == [k1, k2][0];
    TwoKeyUpdate(table, et, id, tags, k1, k2);
    TwoKeyUpdate(table, et, id, tags, k2, k1);
  }

  /** The result depends on the iteration order of the key set: for the
      two carry rows, visiting `a` last keeps `x=1` and drops `y`, visiting
      `b` last keeps `y=2` and drops `x`. */
  lemma IterationOrderMatters()
    ensures Enumerates(["a", "b"], DeprecatedKeySet(TwoCarryRules, TwoKeyTags))
    ensures Enumerates(["b", "a"], DeprecatedKeySet(TwoCarryRules, TwoKeyTags))
    ensures UpdateDeprecatedTags(TwoCarryRules, Node, 4, TwoKeyTags, ["a", "b"]).ref == Fresh(map["a" := "1", "y" := "2"])
    ensures UpdateDeprecatedTags(TwoCarryRules, Node, 4, TwoKeyTags, ["b", "a"]).ref == Fresh(map["x" := "1", "b" := "2"])
  {
    CarryOrders();
    FirstCarryRowApplies();
    SecondCarryRowApplies();
    LastRewriteSurvives(TwoCarryRules, Node, 4, TwoKeyTags, "a", "b");
  }

  const SquareYesRule: Rule := SimpleRule("k", "v", "k2", "yes", DkeyDvalueSquareYes)

  /** A `[[key=value]] + yes` row matches but has no recipe: the element
      comes back as a new dictionary equal to its tags, with no record. */
  lemma SquareYesCopiesTags(order: seq<string>)
    requires Enumerates(order, DeprecatedKeySet([SquareYesRule], map["k" := "v"]))
    ensures var h := Handler([SquareYesRule], [], [], 0);
      Transform(h, Relation, 5, map["k" := "v"], order) == Transformed(h.(count := 1), Replace(map["k" := "v"]))
  {
    var table := [SquareYesRule];
    var tags := map["k" := "v"];
    OneRowKeySet(SquareYesRule);
    assert DeprecatedKeySet(table, tags) == {"k"};
    assert FirstMatch(table, "k", "v") == Some(0);
    SingleKeyUpdate(table, Relation, 5, tags, order, "k");
    TransformWithoutLabels(Handler(table, [], [], 0), Relation, 5, tags, order);
  }

  /** Once `highway=ford` has become `ford=yes`, a second pass finds
      nothing to do. */
  lemma RewriteSettles()
    ensures Transform(Handler([FordRule], [], [], 0), Node, 1, map["ford" := "yes"], []).outcome == Unchanged
  {
    OneRowKeySet(FordRule);
    assert DeprecatedKeySet([FordRule], map["ford" := "yes"]) == {};
  }
}
