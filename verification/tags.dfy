/** Values shared by the tag rewriter, the label enricher and the element
    transform: tag maps, the "same object or a new one" result of each step,
    audit records, and ordered tag writes. */
module Tags {
  import opened Strings

  /** An element's tags. The order of an osmium tag list is not modelled. */
  type TagMap = map<string, string>

  /** What a step returns: the very tag object it was given (`Same`, Python's
      `ret is tags`) or a newly built dictionary. */
  datatype TagRef = Same | Fresh(tags: TagMap) {
    /** The tags the reference denotes, given the object passed in. */
    function Resolve(input: TagMap): TagMap {
      match this
      case Same => input
      case Fresh(m) => m
    }
  }

  datatype ElementType = Node | Way | Relation {
    function Name(): string {
      match this
      case Node => "node"
      case Way => "way"
      case Relation => "relation"
    }
  }

  datatype ActionKind = DeprecatedTagUpdated | WikidataLabelAdded {
    function Name(): string {
      match this
      case DeprecatedTagUpdated => "update_deprecated_tag"
      case WikidataLabelAdded => "add_wikidata_label"
    }
  }

  /** One audit record: element type and id, the tag that triggered the
      change, what was done and a human-readable detail. */
  datatype Action = Action(
    elementType: ElementType,
    elementId: int,
    key: string,
    value: string,
    kind: ActionKind,
    detail: string)

  /** What one step of the transform yields: the returned tags and the
      audit records it appended. */
  datatype Update = Update(ref: TagRef, actions: seq<Action>)

  /** One assignment `tags[key] = value`. */
  datatype Write = Write(key: string, value: string)

  /** The keys a sequence of writes assigns. */
  function WrittenKeys(ws: seq<Write>): set<string>
  {
    set i | 0 <= i < |ws| :: ws[i].key
  }

  /** No write after position `i` assigns the key written at `i`. */
  predicate LastWriteOf(ws: seq<Write>, i: nat)
    requires i < |ws|
  {
    forall j :: i < j < |ws| ==> ws[j].key != ws[i].key
  }

  /** The writes performed in order on `m`. */
  function Overlay(m: TagMap, ws: seq<Write>): (r: TagMap)
    ensures r.Keys == m.Keys + WrittenKeys(ws)
    ensures forall k :: k in m && k !in WrittenKeys(ws) ==> r[k] == m[k]
    ensures forall i :: 0 <= i < |ws| && LastWriteOf(ws, i) ==> r[ws[i].key] == ws[i].value
    decreases |ws|
  {
    if |ws| == 0 then m
    else
      var n := |ws| - 1;
      var prev := Overlay(m, ws[..n]);
      WrittenKeysSnoc(ws);
      LastWriteBeforeEnd(ws, ws[..n], prev);
      prev[ws[n].key := ws[n].value]
  }

  lemma WrittenKeysSnoc(ws: seq<Write>)
    requires |ws| > 0
    ensures WrittenKeys(ws) == WrittenKeys(ws[..|ws| - 1]) + {ws[|ws| - 1].key}
  {
    assert forall i :: 0 <= i < |ws| - 1 ==> ws[..|ws| - 1][i] == ws[i];
  }

  /** If every last write of `front` holds in `prev`, every last write of
      `front` followed by one more write holds once that write is performed
      on `prev`. */
  lemma LastWriteBeforeEnd(ws: seq<Write>, front: seq<Write>, prev: TagMap)
    requires |ws| > 0 && front == ws[..|ws| - 1]
    requires forall i :: 0 <= i < |front| && LastWriteOf(front, i) ==>
               front[i].key in prev && prev[front[i].key] == front[i].value
    ensures forall i :: 0 <= i < |ws| && LastWriteOf(ws, i) ==>
              ws[i].key in prev[ws[|ws| - 1].key := ws[|ws| - 1].value] &&
              prev[ws[|ws| - 1].key := ws[|ws| - 1].value][ws[i].key] == ws[i].value
  {
    var n := |ws| - 1;
    forall i | 0 <= i < |ws| && LastWriteOf(ws, i)
      ensures ws[i].key in prev[ws[n].key := ws[n].value]
      ensures prev[ws[n].key := ws[n].value][ws[i].key] == ws[i].value
    {
      if i < n {
        assert LastWriteOf(front, i);
        assert front[i] == ws[i];
      }
    }
  }

  /** Some write assigns value `v` to key `k`. */
  predicate WrittenWith(ws: seq<Write>, k: string, v: string) {
    exists i :: 0 <= i < |ws| && ws[i] == Write(k, v)
  }

  /** Every value of an overlay comes either from the original map, for a
      key no write touches, or from one of the writes. */
  lemma {:induction false} OverlayValueOrigin(m: TagMap, ws: seq<Write>, k: string)
    requires k in Overlay(m, ws)
    ensures || (k !in WrittenKeys(ws) && k in m && Overlay(m, ws)[k] == m[k])
            || WrittenWith(ws, k, Overlay(m, ws)[k])
    decreases |ws|
  {
    if |ws| > 0 {
      var n := |ws| - 1;
      var front := ws[..n];
      var before := Overlay(m, front);
      assert Overlay(m, ws) == before[ws[n].key := ws[n].value];
      if ws[n].key == k {
        assert ws[n] == Write(k, Overlay(m, ws)[k]);
      } else {
        assert Overlay(m, ws)[k] == before[k];
        OverlayValueOrigin(m, front, k);
        WrittenKeysSnoc(ws);
        if WrittenWith(front, k, before[k]) {
          var i :| 0 <= i < n && front[i] == Write(k, before[k]);
          assert ws[i] == front[i];
        }
      }
    }
  }

  /** `key=value`, the form a write takes in an audit detail. */
  function Render(w: Write): string {
    w.key + "=" + w.value
  }

  /** The writes rendered and joined with `sep`. */
  function RenderAll(ws: seq<Write>, sep: string): string
  {
    Join(seq(|ws|, i requires 0 <= i < |ws| => Render(ws[i])), sep)
  }
}
