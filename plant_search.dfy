/**
 * The plant search handlers of api.py: the result normaliser of
 * `search_in_plants` (field defaults and the image URL rule) and the
 * distinct names of `get_plant_names`.
 *
 * The nearest-neighbour query is an oracle: its documents and metadata
 * records, nearest first, are inputs.
 */
module PlantSearch {
  import opened Records
  import opened PlantCorpus

  const BaseImageUrl := "https://mrag27.onrender.com/images/"
  const ImagesPrefix := "images/"
  const ImageKey := "Image"
  const PlantNameKey := "Plant Name"

  /** One normalised search result; `image` is None where the source returns null. */
  datatype PlantResult = PlantResult(
    plantName: string,
    scientificName: string,
    healingProperties: string,
    uses: string,
    description: string,
    preparationMethod: string,
    sideEffects: string,
    geographicAvailability: string,
    image: Option<string>,
    imageMissing: bool)

  /** The eight text fields of a result, in the order of TextFields. */
  function TextValues(r: PlantResult): seq<string>
  {
    [r.plantName, r.scientificName, r.healingProperties, r.uses,
     r.description, r.preparationMethod, r.sideEffects, r.geographicAvailability]
  }

  /**
   * The image rule: a leading "images/" is replaced by the public base URL,
   * any other non-empty name is appended to it, and an empty name has no URL.
   */
  function ImageUrl(filename: string): (url: Option<string>)
    ensures url.None? <==> filename == ""
    ensures url.Some? ==> StartsWith(url.value, BaseImageUrl)
  {
    if StartsWith(filename, ImagesPrefix) then Some(BaseImageUrl + filename[|ImagesPrefix|..])
    else if filename != "" then Some(BaseImageUrl + filename)
    else None
  }

  /**
   * The stored name can be read back from the URL: the part after the base
   * URL is the name itself, or the name without its "images/" prefix.
   */
  lemma ImageUrlRecoversName(filename: string)
    requires filename != ""
    ensures ImageUrl(filename).Some?
    ensures var rest := ImageUrl(filename).value[|BaseImageUrl|..];
            if StartsWith(filename, ImagesPrefix) then filename == ImagesPrefix + rest else filename == rest
  {
    var url := ImageUrl(filename).value;
    if StartsWith(filename, ImagesPrefix) {
      assert url == BaseImageUrl + filename[|ImagesPrefix|..];
      assert url[|BaseImageUrl|..] == filename[|ImagesPrefix|..];
      assert filename == filename[..|ImagesPrefix|] + filename[|ImagesPrefix|..];
    } else {
      assert url == BaseImageUrl + filename;
      assert url[|BaseImageUrl|..] == filename;
    }
  }

  /** One metadata record mapped to the output schema. */
  function Normalize(meta: Record): (r: PlantResult)
    ensures TextValues(r) == FieldValues(meta)
    ensures r.imageMissing <==> r.image.None?
    ensures r.imageMissing <==> (ImageKey !in meta || meta[ImageKey] == "")
  {
    var imageFilename := Get(meta, ImageKey, "");
    var fullImageUrl := ImageUrl(imageFilename);
    PlantResult(
      Get(meta, "Plant Name", ""),
      Get(meta, "Scientific Name", ""),
      Get(meta, "Healing Properties", ""),
      Get(meta, "Uses", ""),
      Get(meta, "Description", ""),
      Get(meta, "Preparation Method", ""),
      Get(meta, "Side Effects", ""),
      Get(meta, "Geographic Availability", ""),
      fullImageUrl,
      imageFilename == "")
  }

  /**
   * A result's text fields render to the very text that was embedded for
   * its record at corpus-preparation time.
   */
  lemma ResultRendersEmbeddedText(meta: Record)
    ensures |TextValues(Normalize(meta))| == |TextFields|
    ensures Render(TextValues(Normalize(meta))) == CombinedText(meta)
  {
    CombinedTextIsRender(meta);
  }

  /**
   * The `for doc, meta in zip(documents, metadatas)` loop: one normalised
   * result per (document, metadata) pair, in order.
   */
  method SearchInPlants(documents: seq<string>, metadatas: seq<Record>) returns (results: seq<PlantResult>)
    ensures |results| == Min(|documents|, |metadatas|)
    ensures forall k :: 0 <= k < |results| ==>
              TextValues(results[k]) == FieldValues(metadatas[k])
              && results[k].image == ImageUrl(Get(metadatas[k], ImageKey, ""))
              && (results[k].imageMissing <==> results[k].image.None?)
  {
    results := [];
    var i := 0;
    while i < |documents| && i < |metadatas|
      invariant 0 <= i <= Min(|documents|, |metadatas|)
      invariant |results| == i
      invariant forall k :: 0 <= k < i ==> results[k] == Normalize(metadatas[k])
    {
      results := results + [Normalize(metadatas[i])];
      i := i + 1;
    }
  }

  // ---------------------------------------------------------------------
  // get_plant_names
  // ---------------------------------------------------------------------

  /** The query result; `metadatas` is None when the key is absent. */
  datatype QueryResult = QueryResult(metadatas: Option<seq<Record>>)

  /** `{meta["Plant Name"] for meta in metas if "Plant Name" in meta}` */
  function NamesOf(metas: seq<Record>): (names: set<string>)
    ensures forall n :: n in names <==>
              exists k :: 0 <= k < |metas| && PlantNameKey in metas[k] && metas[k][PlantNameKey] == n
  {
    set k | 0 <= k < |metas| && PlantNameKey in metas[k] :: metas[k][PlantNameKey]
  }

  function GetPlantNames(result: QueryResult): (names: set<string>)
    ensures result.metadatas.None? ==> names == {}
    ensures result.metadatas.Some? ==> names == NamesOf(result.metadatas.value)
  {
    match result.metadatas
    case None => {}
    case Some(metas) => NamesOf(metas)
  }

  /** Each distinct name is counted once: there are at most as many names as records. */
  lemma {:induction false} NamesOfBound(metas: seq<Record>)
    ensures |NamesOf(metas)| <= |metas|
    decreases |metas|
  {
    if metas != [] {
      var init := metas[..|metas| - 1];
      NamesOfBound(init);
      var extra := NamesOfLast(metas);
      SubsetCardinality(NamesOf(metas), NamesOf(init) + extra);
    }
  }

  /** The names of a non-empty list: those of all but the last record, plus at most one. */
  lemma NamesOfLast(metas: seq<Record>) returns (extra: set<string>)
    requires metas != []
    ensures |extra| <= 1
    ensures NamesOf(metas) <= NamesOf(metas[..|metas| - 1]) + extra
  {
    var init := metas[..|metas| - 1];
    var last := metas[|metas| - 1];
    extra := if PlantNameKey in last then {last[PlantNameKey]} else {};
    forall n | n in NamesOf(metas) ensures n in NamesOf(init) + extra {
      var k :| 0 <= k < |metas| && PlantNameKey in metas[k] && metas[k][PlantNameKey] == n;
      if k < |init| {
        assert init[k] == metas[k];
      }
    }
  }

  lemma {:induction false} SubsetCardinality(a: set<string>, b: set<string>)
    requires a <= b
    ensures |a| <= |b|
    decreases |b|
  {
    if a != {} {
      var x :| x in a;
      SubsetCardinality(a - {x}, b - {x});
    }
  }

  // ---------------------------------------------------------------------
  // get_plant_names as written
  // ---------------------------------------------------------------------

  /** The Python values the comprehension meets: strings and dictionaries. */
  datatype Value = Str(s: string) | Dict(d: Record)

  /** Python's `x in xs` on a list: some element equals x. */
  predicate InList(x: Value, xs: seq<Value>)
  {
    exists k :: 0 <= k < |xs| && xs[k] == x
  }

  function AsValues(records: seq<Record>): (vs: seq<Value>)
    ensures |vs| == |records| && forall k :: 0 <= k < |records| ==> vs[k] == Dict(records[k])
  {
    seq(|records|, k requires 0 <= k < |records| => Dict(records[k]))
  }

  /**
   * The comprehension as written, over the store's query result, which holds
   * one list of records per query text: each `meta` is such a list, so the
   * guard asks whether the string "Plant Name" is an element of a list of
   * dictionaries. Were it ever true, `meta["Plant Name"]` would index a list
   * with a string and raise TypeError; otherwise the set stays empty.
   */
  function PlantNamesAsWritten(hitLists: seq<seq<Record>>): (out: Outcome<set<string>>)
    ensures out == Returned({})
  {
    if exists k :: 0 <= k < |hitLists| && InList(Str(PlantNameKey), AsValues(hitLists[k])) then Raised("TypeError")
    else Returned({})
  }

  /**
   * A store holding one named plant: the endpoint as written lists no names,
   * where the intended comprehension over the inner list lists that one.
   */
  lemma PlantNamesAsWrittenLosesNames()
    ensures PlantNamesAsWritten([[map[PlantNameKey := "Tulsi"]]]) == Returned({})
    ensures GetPlantNames(QueryResult(Some([map[PlantNameKey := "Tulsi"]]))) == {"Tulsi"}
  {
    var metas: seq<Record> := [map[PlantNameKey := "Tulsi"]];
    assert metas[0][PlantNameKey] == "Tulsi";
    assert "Tulsi" in NamesOf(metas);
  }
}
