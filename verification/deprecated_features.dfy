/** The rule table of deprecated OpenStreetMap tags: the five row builders
    that turn one regular-expression match of the wiki's "Deprecated
    features" template into a nine-field rule row, and the concatenation of
    their rows, pattern by pattern, into the table the engine searches in
    order. The regular-expression search itself is an input: for every
    pattern, the sequence of capture tuples it found. */
module DeprecatedFeatures {
  import opened Wrappers

  /** The marker a rule row stores in place of a value that is carried over
      from the deprecated tag. */
  const CarryValue: string := "__CARRY__"

  /** The rule kind stored in a row's `regex_type` column. The five kinds a
      row builder emits are named after their string literals;
      `DkeyDvalueFixed` is a kind the tag rewriter has a recipe for although
      no builder emits it. */
  datatype RuleKind =
    | DkeyDvalueFixed
    | DkeyDvalueFixedFixed
    | DkeyDvalueYes
    | DkeyDvalueSquareYes
    | DkeyFixedCarry
    | DkeyCarry
  {
    function Literal(): string {
      match this
      case DkeyDvalueFixed => "dkey_dvalue_fixed"
      case DkeyDvalueFixedFixed => "dkey_dvalue_fixed_fixed"
      case DkeyDvalueYes => "dkey_dvalue_yes"
      case DkeyDvalueSquareYes => "dkey_dvalue_square_yes"
      case DkeyFixedCarry => "dkey_fixed_carry"
      case DkeyCarry => "dkey_carry"
    }

    /** Kinds whose rows match the deprecated key whatever its value. */
    predicate IsCarry() {
      this == DkeyFixedCarry || this == DkeyCarry
    }
  }

  /** One row of the rule table, columns in table order:
      date, old_key, old_value, new_key_1, new_value_1, new_key_2,
      new_value_2, id, regex_type. The two second-pair cells hold `None` in
      rows that have no second pair. */
  datatype Rule = Rule(
    date: string,
    oldKey: string,
    oldValue: string,
    newKey1: string,
    newValue1: string,
    newKey2: Option<string>,
    newValue2: Option<string>,
    id: string,
    kind: RuleKind)

  /** The cells a row's recipe reads are present. */
  predicate WellFormed(r: Rule) {
    && (r.kind == DkeyDvalueFixedFixed ==> r.newKey2.Some? && r.newValue2.Some?)
    && (r.kind == DkeyFixedCarry ==> r.newKey2.Some?)
  }

  predicate TableWellFormed(table: seq<Rule>) {
    forall i :: 0 <= i < |table| ==> WellFormed(table[i])
  }

  /** The five regular expressions of the template, in table order. */
  datatype Pattern =
    | FixedFixedPattern
    | YesPattern
    | SquareYesPattern
    | FixedCarryPattern
    | CarryPattern
  {
    /** Number of capture groups, hence the length of every tuple a match
        of this pattern yields. */
    function GroupCount(): nat {
      match this
      case FixedFixedPattern => 8
      case YesPattern => 5
      case SquareYesPattern => 5
      case FixedCarryPattern => 6
      case CarryPattern => 4
    }

    function Kind(): RuleKind {
      match this
      case FixedFixedPattern => DkeyDvalueFixedFixed
      case YesPattern => DkeyDvalueYes
      case SquareYesPattern => DkeyDvalueSquareYes
      case FixedCarryPattern => DkeyFixedCarry
      case CarryPattern => DkeyCarry
    }
  }

  const Patterns: seq<Pattern> :=
    [FixedFixedPattern, YesPattern, SquareYesPattern, FixedCarryPattern, CarryPattern]

  /** The row builder of pattern `p` applied to one capture tuple `x`. */
  function BuildRow(p: Pattern, x: seq<string>): (r: Rule)
    requires |x| >= p.GroupCount()
    ensures WellFormed(r)
    ensures r.kind == p.Kind()
    ensures r.date == x[0] && r.oldKey == x[1]
    ensures r.id == x[p.GroupCount() - 1]
    ensures r.kind.IsCarry() ==> r.oldValue == CarryValue
    ensures !r.kind.IsCarry() ==> r.oldValue == x[2]
    ensures (p == YesPattern || p == SquareYesPattern) ==>
              r.newValue1 == "yes" && r.newKey2 == None && r.newValue2 == None
    ensures p == FixedCarryPattern ==>
              r.newValue2 == Some(CarryValue) && r.newKey2 == Some(x[4])
    ensures p == CarryPattern ==>
              r.newValue1 == CarryValue && r.newKey2 == None && r.newValue2 == None
  {
    match p
    case FixedFixedPattern =>
      Rule(x[0], x[1], x[2], x[3], x[4], Some(x[5]), Some(x[6]), x[7], DkeyDvalueFixedFixed)
    case YesPattern =>
      Rule(x[0], x[1], x[2], x[3], "yes", None, None, x[4], DkeyDvalueYes)
    case SquareYesPattern =>
      Rule(x[0], x[1], x[2], x[3], "yes", None, None, x[4], DkeyDvalueSquareYes)
    case FixedCarryPattern =>
      Rule(x[0], x[1], CarryValue, x[2], x[3], Some(x[4]), Some(CarryValue), x[5], DkeyFixedCarry)
    case CarryPattern =>
      Rule(x[0], x[1], CarryValue, x[2], CarryValue, None, None, x[3], DkeyCarry)
  }

  /** Every builder writes the `regex_type` literal of its own pattern. */
  lemma BuildRowLiteral(p: Pattern, x: seq<string>)
    requires |x| >= p.GroupCount()
    ensures BuildRow(p, x).kind.Literal() ==
              match p
              case FixedFixedPattern => "dkey_dvalue_fixed_fixed"
              case YesPattern => "dkey_dvalue_yes"
              case SquareYesPattern => "dkey_dvalue_square_yes"
              case FixedCarryPattern => "dkey_fixed_carry"
              case CarryPattern => "dkey_carry"
  {
  }

  /** The capture tuple a row of pattern `p` was built from, read back from
      the row's cells. */
  function Captures(p: Pattern, r: Rule): seq<string>
  {
    match p
    case FixedFixedPattern =>
      [r.date, r.oldKey, r.oldValue, r.newKey1, r.newValue1,
       r.newKey2.GetOr(""), r.newValue2.GetOr(""), r.id]
    case YesPattern => [r.date, r.oldKey, r.oldValue, r.newKey1, r.id]
    case SquareYesPattern => [r.date, r.oldKey, r.oldValue, r.newKey1, r.id]
    case FixedCarryPattern => [r.date, r.oldKey, r.newKey1, r.newValue1, r.newKey2.GetOr(""), r.id]
    case CarryPattern => [r.date, r.oldKey, r.newKey1, r.id]
  }

  /** No capture is lost: every row builder keeps each capture of its tuple
      in some cell, so the tuple can be recovered from the row. */
  lemma BuildRowKeepsCaptures(p: Pattern, x: seq<string>)
    requires |x| == p.GroupCount()
    ensures Captures(p, BuildRow(p, x)) == x
  {
  }

  /** The rows of one pattern, in match order. */
  function BuildRows(p: Pattern, matches: seq<seq<string>>): (rows: seq<Rule>)
    requires forall j :: 0 <= j < |matches| ==> |matches[j]| >= p.GroupCount()
    ensures |rows| == |matches|
    ensures forall j :: 0 <= j < |matches| ==> rows[j] == BuildRow(p, matches[j])
    decreases |matches|
  {
    if |matches| == 0 then []
    else [BuildRow(p, matches[0])] + BuildRows(p, matches[1..])
  }

  /** The capture tuples `re.findall` returned for one pattern. */
  datatype PatternMatches = PatternMatches(pattern: Pattern, tuples: seq<seq<string>>)

  /** Every tuple is long enough for the pattern's row builder. */
  predicate Fits(g: PatternMatches) {
    forall j :: 0 <= j < |g.tuples| ==> |g.tuples[j]| >= g.pattern.GroupCount()
  }

  predicate AllFit(groups: seq<PatternMatches>) {
    forall i :: 0 <= i < |groups| ==> Fits(groups[i])
  }

  /** Number of rows the groups before the `i`-th contribute. */
  function Offset(groups: seq<PatternMatches>, i: nat): nat
    requires i <= |groups|
    decreases i
  {
    if i == 0 then 0 else Offset(groups, i - 1) + |groups[i - 1].tuples|
  }

  /** Total number of matches over all groups. */
  function TotalMatches(groups: seq<PatternMatches>): nat
  {
    Offset(groups, |groups|)
  }

  /** All rows of the first group, then all rows of the next, and so on. */
  function Concatenate(groups: seq<PatternMatches>): (table: seq<Rule>)
    requires AllFit(groups)
    ensures |table| == TotalMatches(groups)
    ensures TableWellFormed(table)
    decreases |groups|
  {
    if |groups| == 0 then []
    else
      var last := groups[|groups| - 1];
      assert Fits(last);
      OffsetPrefix(groups, |groups| - 1, |groups| - 1);
      Concatenate(groups[..|groups| - 1]) + BuildRows(last.pattern, last.tuples)
  }

  /** The `j`-th match of the `i`-th group becomes the row at position
      `Offset(groups, i) + j`: groups keep their order, and matches keep
      theirs within a group. */
  lemma RowPosition(groups: seq<PatternMatches>, i: nat, j: nat)
    requires AllFit(groups)
    requires i < |groups| && j < |groups[i].tuples|
    ensures Offset(groups, i) + j < |Concatenate(groups)|
    ensures Concatenate(groups)[Offset(groups, i) + j] ==
            BuildRow(groups[i].pattern, groups[i].tuples[j])
  {
    var parts := GroupRows(groups);
    ConcatenateIsFlat(groups);
    OffsetIsPartOffset(groups, i);
    FlatPosition(parts, i, j);
    assert parts[i] == BuildRows(groups[i].pattern, groups[i].tuples);
  }

  /** The rows of each group, group by group. */
  function GroupRows(groups: seq<PatternMatches>): (parts: seq<seq<Rule>>)
    requires AllFit(groups)
  {
    seq(|groups|, k requires 0 <= k < |groups| => BuildRows(groups[k].pattern, groups[k].tuples))
  }

  /** Parts concatenated in order, the last part last. */
  function Flat<T>(parts: seq<seq<T>>): seq<T>
    decreases |parts|
  {
    if |parts| == 0 then [] else Flat(parts[..|parts| - 1]) + parts[|parts| - 1]
  }

  /** Number of elements the parts before the `i`-th hold. */
  function PartOffset<T>(parts: seq<seq<T>>, i: nat): nat
    requires i <= |parts|
    decreases i
  {
    if i == 0 then 0 else PartOffset(parts, i - 1) + |parts[i - 1]|
  }

  /** The `j`-th element of the `i`-th part sits after the elements of the
      parts before it. */
  lemma {:induction false} FlatPosition<T>(parts: seq<seq<T>>, i: nat, j: nat)
    requires i < |parts| && j < |parts[i]|
    ensures PartOffset(parts, i) + j < |Flat(parts)|
    ensures Flat(parts)[PartOffset(parts, i) + j] == parts[i][j]
    decreases |parts|
  {
    var n := |parts| - 1;
    var front := parts[..n];
    FlatLength(front);
    if i < n {
      FlatPosition(front, i, j);
      PartOffsetPrefix(parts, n, i);
      assert front[i] == parts[i];
    } else {
      PartOffsetPrefix(parts, n, n);
    }
  }

  lemma {:induction false} FlatLength<T>(parts: seq<seq<T>>)
    ensures |Flat(parts)| == PartOffset(parts, |parts|)
    decreases |parts|
  {
    if |parts| > 0 {
      var n := |parts| - 1;
      FlatLength(parts[..n]);
      PartOffsetPrefix(parts, n, n);
    }
  }

  lemma {:induction false} PartOffsetPrefix<T>(parts: seq<seq<T>>, n: nat, i: nat)
    requires i <= n <= |parts|
    ensures PartOffset(parts[..n], i) == PartOffset(parts, i)
    decreases i
  {
    if i > 0 {
      PartOffsetPrefix(parts, n, i - 1);
    }
  }

  /** The table is the groups' rows concatenated in order. */
  lemma {:induction false} ConcatenateIsFlat(groups: seq<PatternMatches>)
    requires AllFit(groups)
    ensures Concatenate(groups) == Flat(GroupRows(groups))
    decreases |groups|
  {
    if |groups| > 0 {
      var n := |groups| - 1;
      assert AllFit(groups[..n]);
      ConcatenateIsFlat(groups[..n]);
      assert GroupRows(groups)[..n] == GroupRows(groups[..n]);
    }
  }

  /** A group's offset counts the rows of the groups before it. */
  lemma {:induction false} OffsetIsPartOffset(groups: seq<PatternMatches>, i: nat)
    requires AllFit(groups) && i <= |groups|
    ensures Offset(groups, i) == PartOffset(GroupRows(groups), i)
    decreases i
  {
    if i > 0 {
      OffsetIsPartOffset(groups, i - 1);
    }
  }

  lemma {:induction false} OffsetPrefix(groups: seq<PatternMatches>, n: nat, i: nat)
    requires i <= n <= |groups|
    ensures Offset(groups[..n], i) == Offset(groups, i)
    decreases i
  {
    if i > 0 {
      OffsetPrefix(groups, n, i - 1);
    }
  }

  /** `kind` is the kind of the pattern of one of the groups. */
  predicate KindOfSomeGroup(groups: seq<PatternMatches>, kind: RuleKind) {
    exists i :: 0 <= i < |groups| && groups[i].pattern.Kind() == kind
  }

  /** Every row of a concatenation has the kind of one of the groups'
      patterns. */
  lemma {:induction false} RowKinds(groups: seq<PatternMatches>)
    requires AllFit(groups)
    ensures forall k :: 0 <= k < |Concatenate(groups)| ==>
              KindOfSomeGroup(groups, Concatenate(groups)[k].kind)
    decreases |groups|
  {
    if |groups| > 0 {
      var n := |groups| - 1;
      var front := groups[..n];
      assert AllFit(front);
      RowKinds(front);
      assert Fits(groups[n]);
      var table := Concatenate(groups);
      var head := Concatenate(front);
      assert table == head + BuildRows(groups[n].pattern, groups[n].tuples);
      forall k | 0 <= k < |table|
        ensures KindOfSomeGroup(groups, table[k].kind)
      {
        if k < |head| {
          assert KindOfSomeGroup(front, head[k].kind);
          var i :| 0 <= i < |front| && front[i].pattern.Kind() == head[k].kind;
          assert groups[i] == front[i];
        } else {
          assert groups[n].pattern.Kind() == table[k].kind;
        }
      }
    }
  }

  /** The groups follow the template order of the five patterns. */
  predicate InTemplateOrder(groups: seq<PatternMatches>) {
    && |groups| == |Patterns|
    && forall i :: 0 <= i < |groups| ==> groups[i].pattern == Patterns[i]
  }

  /** `convert_deprecated_wiki_to_df`: one row per match, pattern by pattern
      in template order, matches of one pattern in the order they were
      found. */
  function ConvertDeprecatedWikiToTable(groups: seq<PatternMatches>): (table: seq<Rule>)
    requires InTemplateOrder(groups) && AllFit(groups)
    ensures |table| == TotalMatches(groups)
    ensures TableWellFormed(table)
    ensures forall k :: 0 <= k < |table| ==> table[k].kind != DkeyDvalueFixed
  {
    RowKinds(groups);
    Concatenate(groups)
  }

  /** The table splits into the rows of the three value-specific patterns
      followed by the rows of the two carry patterns. */
  lemma SplitAtCarryPatterns(groups: seq<PatternMatches>)
    requires |groups| == 5 && AllFit(groups)
    ensures AllFit(groups[..3]) && Fits(groups[3]) && Fits(groups[4])
    ensures Concatenate(groups) ==
            Concatenate(groups[..3])
            + BuildRows(groups[3].pattern, groups[3].tuples)
            + BuildRows(groups[4].pattern, groups[4].tuples)
  {
    assert AllFit(groups[..3]) && AllFit(groups[..4]);
    assert Fits(groups[3]) && Fits(groups[4]);
    assert groups[..4][..3] == groups[..3] && groups[..4][3] == groups[3];
  }

  /** Every row of a value-specific kind comes before every row of a carry
      kind, because the three value-specific patterns precede the two carry
      patterns in the template list. */
  lemma ValueRowsPrecedeCarryRows(groups: seq<PatternMatches>)
    requires InTemplateOrder(groups) && AllFit(groups)
    ensures var table := ConvertDeprecatedWikiToTable(groups);
      forall i, j ::
        (0 <= i < |table| && 0 <= j < |table| &&
         !table[i].kind.IsCarry() && table[j].kind.IsCarry()) ==> i < j
  {
    var n := |Concatenate(groups[..3])|;
    ValueRowsFirst(groups);
    CarryRowsLast(groups);
    KindsSplitAt(ConvertDeprecatedWikiToTable(groups), n);
  }

  /** A table whose first `n` rows have value-specific kinds and whose
      other rows have carry kinds lists every value-specific row first. */
  lemma KindsSplitAt(table: seq<Rule>, n: nat)
    requires n <= |table|
    requires forall k :: 0 <= k < n ==> !table[k].kind.IsCarry()
    requires forall k :: n <= k < |table| ==> table[k].kind.IsCarry()
    ensures forall i, j ::
              (0 <= i < |table| && 0 <= j < |table| &&
               !table[i].kind.IsCarry() && table[j].kind.IsCarry()) ==> i < j
  {
  }

  /** The rows of the three value-specific groups open the table. */
  lemma ValueRowsFirst(groups: seq<PatternMatches>)
    requires InTemplateOrder(groups) && AllFit(groups)
    ensures AllFit(groups[..3])
    ensures |Concatenate(groups[..3])| <= |Concatenate(groups)|
    ensures forall k :: 0 <= k < |Concatenate(groups[..3])| ==> !Concatenate(groups)[k].kind.IsCarry()
  {
    SplitAtCarryPatterns(groups);
    var valueRows := Concatenate(groups[..3]);
    ValueGroupsGiveValueRows(groups[..3]);
    forall k | 0 <= k < |valueRows|
      ensures !Concatenate(groups)[k].kind.IsCarry()
    {
      assert Concatenate(groups)[k] == valueRows[k];
    }
  }

  /** The rows after those of the value-specific groups come from the two
      carry groups. */
  lemma CarryRowsLast(groups: seq<PatternMatches>)
    requires InTemplateOrder(groups) && AllFit(groups)
    ensures AllFit(groups[..3])
    ensures forall k :: |Concatenate(groups[..3])| <= k < |Concatenate(groups)| ==>
              Concatenate(groups)[k].kind.IsCarry()
  {
    SplitAtCarryPatterns(groups);
    assert groups[3].pattern.Kind().IsCarry() && groups[4].pattern.Kind().IsCarry();
    CarryPatternRows(groups[3].pattern, groups[3].tuples);
    CarryPatternRows(groups[4].pattern, groups[4].tuples);
    TailKinds(Concatenate(groups[..3]),
              BuildRows(groups[3].pattern, groups[3].tuples),
              BuildRows(groups[4].pattern, groups[4].tuples));
  }

  /** Every row a carry pattern builds has a carry kind. */
  lemma CarryPatternRows(p: Pattern, tuples: seq<seq<string>>)
    requires p.Kind().IsCarry()
    requires forall j :: 0 <= j < |tuples| ==> |tuples[j]| >= p.GroupCount()
    ensures forall k :: 0 <= k < |BuildRows(p, tuples)| ==> BuildRows(p, tuples)[k].kind.IsCarry()
  {
  }

  /** Rows appended after `head` keep their carry kinds. */
  lemma TailKinds(head: seq<Rule>, a: seq<Rule>, b: seq<Rule>)
    requires forall k :: 0 <= k < |a| ==> a[k].kind.IsCarry()
    requires forall k :: 0 <= k < |b| ==> b[k].kind.IsCarry()
    ensures forall k :: |head| <= k < |head + a + b| ==> (head + a + b)[k].kind.IsCarry()
  {
    forall k | |head| <= k < |head + a + b|
      ensures (head + a + b)[k].kind.IsCarry()
    {
      if k < |head| + |a| {
        assert (head + a + b)[k] == a[k - |head|];
      } else {
        assert (head + a + b)[k] == b[k - |head| - |a|];
      }
    }
  }

  /** The rows of the three value-specific patterns have no carry kind. */
  lemma ValueGroupsGiveValueRows(front: seq<PatternMatches>)
    requires |front| == 3 && AllFit(front)
    requires forall i :: 0 <= i < 3 ==> front[i].pattern == Patterns[i]
    ensures forall k :: 0 <= k < |Concatenate(front)| ==> !Concatenate(front)[k].kind.IsCarry()
  {
    var valueRows := Concatenate(front);
    RowKinds(front);
    forall k | 0 <= k < |valueRows|
      ensures !valueRows[k].kind.IsCarry()
    {
      assert KindOfSomeGroup(front, valueRows[k].kind);
      var i :| 0 <= i < |front| && front[i].pattern.Kind() == valueRows[k].kind;
      assert front[i].pattern == Patterns[i];
    }
  }
}
