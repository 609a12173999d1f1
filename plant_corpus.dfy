/**
 * The plant corpus preparation (conv.py): for each plant record, the text
 * that is embedded (eight labelled segments in a fixed order, a missing
 * field giving an empty value), the record itself as metadata, and the
 * ids "0" .. "n-1".
 */
module PlantCorpus {
  import opened Records
  import opened Decimal

  /** The eight descriptive fields, in the order the embedded text lists them. */
  const TextFields: seq<string> := [
    "Plant Name", "Scientific Name", "Healing Properties", "Uses",
    "Description", "Preparation Method", "Side Effects", "Geographic Availability"
  ]

  /** One f-string segment: `f"{field}: {value}{end}"`. */
  function Labelled(field: string, value: string, end: string): string
  {
    field + ": " + value + end
  }

  /** The combined text: eight adjacent f-string segments, one per field. */
  function CombinedText(plant: Record): string
  {
    Labelled("Plant Name", Get(plant, "Plant Name", ""), ". ")
    + Labelled("Scientific Name", Get(plant, "Scientific Name", ""), ". ")
    + Labelled("Healing Properties", Get(plant, "Healing Properties", ""), ". ")
    + Labelled("Uses", Get(plant, "Uses", ""), ". ")
    + Labelled("Description", Get(plant, "Description", ""), ". ")
    + Labelled("Preparation Method", Get(plant, "Preparation Method", ""), ". ")
    + Labelled("Side Effects", Get(plant, "Side Effects", ""), ". ")
    + Labelled("Geographic Availability", Get(plant, "Geographic Availability", ""), ".")
  }

  // ---------------------------------------------------------------------
  // Reference definition: the text as a sequence of labelled segments.
  // ---------------------------------------------------------------------

  /** Segment k: "<label>: <value>. ", the last one ending in "." alone. */
  function Segment(k: nat, value: string): string
    requires k < |TextFields|
  {
    Labelled(TextFields[k], value, if k == |TextFields| - 1 then "." else ". ")
  }

  /** Segments lo .. hi-1 of the eight values, concatenated. */
  function Segments(values: seq<string>, lo: nat, hi: nat): string
    requires lo <= hi <= |TextFields| == |values|
    decreases hi - lo
  {
    if lo == hi then "" else Segments(values, lo, hi - 1) + Segment(hi - 1, values[hi - 1])
  }

  /** The labelled text of eight field values. */
  function Render(values: seq<string>): string
    requires |values| == |TextFields|
  {
    Segments(values, 0, |TextFields|)
  }

  /** The values a plant record supplies for the eight fields, "" where absent. */
  function FieldValues(plant: Record): (vs: seq<string>)
    ensures |vs| == |TextFields|
    ensures forall k :: 0 <= k < |TextFields| ==> vs[k] == (if TextFields[k] in plant then plant[TextFields[k]] else "")
  {
    seq(|TextFields|, k requires 0 <= k < |TextFields| => Get(plant, TextFields[k], ""))
  }

  /** The combined text is the eight labelled segments, in the fixed order. */
  lemma CombinedTextIsRender(plant: Record)
    ensures CombinedText(plant) == Render(FieldValues(plant))
  {
    var vs := FieldValues(plant);
    assert Segments(vs, 0, 1) == Segment(0, vs[0]);
    assert Segments(vs, 0, 2) == Segments(vs, 0, 1) + Segment(1, vs[1]);
    assert Segments(vs, 0, 3) == Segments(vs, 0, 2) + Segment(2, vs[2]);
    assert Segments(vs, 0, 4) == Segments(vs, 0, 3) + Segment(3, vs[3]);
    assert Segments(vs, 0, 5) == Segments(vs, 0, 4) + Segment(4, vs[4]);
    assert Segments(vs, 0, 6) == Segments(vs, 0, 5) + Segment(5, vs[5]);
    assert Segments(vs, 0, 7) == Segments(vs, 0, 6) + Segment(6, vs[6]);
    assert Segments(vs, 0, 8) == Segments(vs, 0, 7) + Segment(7, vs[7]);
  }

  lemma {:induction false} SegmentsSplit(values: seq<string>, lo: nat, mid: nat, hi: nat)
    requires lo <= mid <= hi <= |TextFields| == |values|
    ensures Segments(values, lo, hi) == Segments(values, lo, mid) + Segments(values, mid, hi)
    decreases hi - mid
  {
    if mid < hi {
      SegmentsSplit(values, lo, mid, hi - 1);
    }
  }

  /**
   * A field the plant lacks still has its segment, with an empty value:
   * the labelled text (the combined text, by CombinedTextIsRender) is the
   * segments before k, then "<label>: . " (or "<label>: ." for the last
   * field), then the segments after k.
   */
  lemma MissingFieldSegment(plant: Record, k: nat)
    requires k < |TextFields| && TextFields[k] !in plant
    ensures FieldValues(plant)[k] == ""
    ensures Render(FieldValues(plant))
            == Segments(FieldValues(plant), 0, k)
               + Labelled(TextFields[k], "", if k == |TextFields| - 1 then "." else ". ")
               + Segments(FieldValues(plant), k + 1, |TextFields|)
  {
    var vs := FieldValues(plant);
    SegmentsSplit(vs, 0, k + 1, |TextFields|);
    assert Segments(vs, 0, k + 1) == Segments(vs, 0, k) + Segment(k, vs[k]);
  }

  // ---------------------------------------------------------------------
  // The ids and the preparation loop.
  // ---------------------------------------------------------------------

  /** `[str(i) for i in range(n)]` */
  function CorpusIds(n: nat): (ids: seq<string>)
    ensures |ids| == n
    ensures forall k :: 0 <= k < n ==> ids[k] == NatToString(k)
    ensures forall k :: 0 <= k < n ==> ParseDecimal(ids[k]) == Some(k)
  {
    AllIdsParse(n);
    seq(n, i requires 0 <= i < n => NatToString(i))
  }

  lemma AllIdsParse(n: nat)
    ensures forall k :: 0 <= k < n ==> ParseDecimal(NatToString(k)) == Some(k)
  {
    forall k | 0 <= k < n ensures ParseDecimal(NatToString(k)) == Some(k) {
      ParseNatToString(k);
    }
  }

  /** The n ids are pairwise distinct. */
  lemma CorpusIdsDistinct(n: nat)
    ensures forall i, j :: 0 <= i < j < n ==> CorpusIds(n)[i] != CorpusIds(n)[j]
  {
    var ids := CorpusIds(n);
    forall i, j | 0 <= i < j < n ensures ids[i] != ids[j] {
      assert ParseDecimal(ids[i]) == Some(i) && ParseDecimal(ids[j]) == Some(j);
    }
  }

  /**
   * The `for idx, plant in enumerate(plants_data)` loop appending to
   * `texts` and `metadatas`, followed by the ids handed to the collection.
   */
  method PrepareCorpus(plants: seq<Record>) returns (texts: seq<string>, metadatas: seq<Record>, ids: seq<string>)
    ensures |texts| == |plants|
    ensures forall k :: 0 <= k < |plants| ==> texts[k] == Render(FieldValues(plants[k]))
    ensures metadatas == plants
    ensures ids == CorpusIds(|plants|)
    ensures |ids| == |plants|
    ensures forall k :: 0 <= k < |plants| ==> ParseDecimal(ids[k]) == Some(k)
    ensures forall i, j :: 0 <= i < j < |ids| ==> ids[i] != ids[j]
  {
    texts := [];
    metadatas := [];
    var idx := 0;
    while idx < |plants|
      invariant 0 <= idx <= |plants|
      invariant |texts| == idx
      invariant forall k :: 0 <= k < idx ==> texts[k] == Render(FieldValues(plants[k]))
      invariant metadatas == plants[..idx]
    {
      var plant := plants[idx];
      var combinedText := CombinedText(plant);
      CombinedTextIsRender(plant);
      texts := texts + [combinedText];
      metadatas := metadatas + [plant];
      idx := idx + 1;
    }
    assert plants[..idx] == plants;
    ids := CorpusIds(|texts|);
    CorpusIdsDistinct(|texts|);
  }
}
