# Medicinal plant and medicine search: a Dafny model of the retrieval logic

The system answers free-text questions over two small corpora: medicines grouped by
health issue, and medicinal plants. It uses a sentence-embedding model and a vector
store. This project models the deterministic logic around those two:

- **Medicine index-entry builder** (`api.py`, `med/app.py`, `med/med.py`; three
  identical copies). It flattens the grouped object `health_issue -> [medicine]` into
  entries `(id, document, metadata)`. Ids are `"<health_issue>_<idx>"`. The document
  is `"<issue> details: <name>, Dose: <dose>, Indication: <indication>"`. The metadata
  holds four fields.
- **Category expansion**. It has two identical forms, `medicine_search` in `api.py` and
  `search_api` in `med/app.py`, plus the pair-returning variant `query_health_issue` in
  `med/med.py`. The first nearest hit names a health issue. A full scan then returns
  every stored entry with that issue, in stored order. When there is no hit, the
  handlers answer 404 "No matching health issue found." and `query_health_issue`
  returns no result.
- **Plant result normaliser** (`search_in_plants`). Each record gets all eight text
  fields, defaulting to `""`. The image reference is rewritten as follows:
  - a leading `images/` is replaced by the public base URL;
  - any other non-empty name is appended to the base URL;
  - an empty or absent name gives no URL.

  `Image Missing` is set exactly when there is no URL.
- **Distinct plant names** (`get_plant_names`).
- **Plant corpus preparation** (`conv.py`). Each plant gets an eight-segment labelled
  text and keeps its record unchanged as metadata. The ids are `"0" .. "n-1"`.

The vector store is an oracle, not a model. A query's hits (metadata records, nearest
first) and the collection's full contents (documents and metadata records, in insertion
order) are inputs. A grouped JSON object is a sequence of `(health_issue, medicines)`
pairs in key order. Its keys are distinct (`DistinctIssues`). Loops that append to
lists are methods proved against specification functions: `BuildEntries`,
`SearchInPlants` and `PrepareCorpus`. Comprehensions and conditional expressions are
functions.

Module layout:

| module | contents |
|---|---|
| `Records` | the record type, `Option`, `Outcome`, `dict.get`, `str.startswith` |
| `Decimal` | `str(n)` for indices, and its inverse |
| `MedicineIndex` | the entry builder and the id parser |
| `CategorySearch` | the category filter and the three handlers |
| `PlantCorpus` | `conv.py` |
| `PlantSearch` | the normaliser and the plant names |

Two facts about the code that the model follows:

- Missing plant fields default to `""` in both `conv.py` and `search_in_plants`. The
  code has no "Unknown" or "Not available" defaults.
- The "no match" signal is the empty hit list only. Whether the store's own result is
  nested is a separate matter (see Findings).

## Model

| member | source | states |
|---|---|---|
| `Decimal.ParseNatToString` | api.py:52 | parsing the decimal rendering `str(idx)` of an index gives the index back |
| `Decimal.NatToStringInjective` | med/app.py:34 | distinct indices render to distinct strings |
| `MedicineIndex.GroupEntryAt` | api.py:51-63 | a group yields one entry per medicine; the k-th entry is built from medicine k with index k (enumerate order) |
| `MedicineIndex.BuildEntries` | api.py:49-63 | the loop's entries are the group-then-index flattening; their count is the total number of medicines; each entry's metadata holds exactly the four fields and its document is the fixed format over them; with distinct keys the ids are pairwise distinct |
| `MedicineIndex.EntryCount` | med/med.py:14-28 | one entry per medicine: the entry count equals the sum of the group sizes |
| `MedicineIndex.EntriesWellFormed` | med/app.py:35-44 | every entry's metadata has exactly the keys health_issue, medicine, dose, indication, and its document reads "<issue> details: <medicine>, Dose: <dose>, Indication: <indication>" from those values |
| `MedicineIndex.ParseEntryId` | med/app.py:34 | an id splits at its last "_" into the health issue and a decimal index: the id can be parsed back into both parts |
| `MedicineIndex.EntryIdInjective` | api.py:52 | two ids are equal only when the health issue and the index are both equal |
| `MedicineIndex.EntryIdParses` | med/med.py:17-24 | every built entry's id parses to its own metadata health issue, which is a key of the grouped object |
| `MedicineIndex.EntryIdsDistinct` | med/med.py:15-28 | with distinct health-issue keys, all entry ids are pairwise distinct |
| `MedicineIndex.EntryAt` | med/med.py:15-19 | order: medicine idx of group g is the entry at position (medicines in groups before g) + idx |
| `CategorySearch.Related` | api.py:85-88 | every record the filter keeps has the requested health issue, and the filter never grows the list |
| `CategorySearch.RelatedIsPositions` | med/app.py:68-71 | the k-th filtered record is the stored record at the k-th matching position; every matching stored record is kept, once per stored occurrence, in stored order, and nothing else is kept |
| `CategorySearch.MedicineSearch` | api.py:79-93 | 404 with "No matching health issue found." exactly when there is no hit; otherwise the response names the first hit's health issue and every result has it |
| `CategorySearch.SearchResultsExact` | api.py:82-93 | on a hit, the results are exactly the stored records with the top hit's health issue, in stored order |
| `CategorySearch.SearchBuiltIndex` | med/app.py:59-76 | over a collection built from the grouped object, a top hit in group g gives that health issue and exactly that group's medicine records, one per medicine, in list order |
| `CategorySearch.RelatedOfEntries` | med/app.py:68-71 | over built entries, filtering by a group's key yields exactly that group's metadata |
| `CategorySearch.MedicineSearchAsWritten` | med/app.py:60-76 | the handler as written over the nested hit lists: it raises exactly when the single inner list is empty; it answers 404 only for an empty outer list |
| `CategorySearch.EmptyCollectionRaises` | api.py:77-82 | against an empty collection (one empty inner hit list) the code as written raises IndexError, where the intended behaviour answers 404 |
| `CategorySearch.AsWrittenAgreesOnHits` | api.py:79-93 | when the inner hit list is non-empty, the handler as written and the intended one give the same response |
| `CategorySearch.Zip` | med/med.py:60 | zip stops at the shorter list and pairs elements positionally |
| `CategorySearch.RelatedPairs` | med/med.py:58-62 | every kept (document, metadata) pair has the requested health issue |
| `CategorySearch.QueryHealthIssue` | med/med.py:48-63 | no result exactly when the hit list is empty; otherwise the first hit's health issue, with pairs that all carry it |
| `CategorySearch.RelatedPairsArePositional` | med/med.py:57-62 | the k-th pair is the (document, metadata) pair at the k-th matching stored position: complete and in stored order |
| `CategorySearch.QueryAgreesWithSearch` | med/med.py:54-62 | dropping the documents from query_health_issue's pairs gives the search handlers' result list |
| `CategorySearch.QueryPairsAligned` | med/med.py:41-62 | over a built collection, every returned pair is the document and metadata of one and the same entry |
| `PlantCorpus.FieldValues` | conv.py:63-70 | each of the eight fields takes the plant's value, or "" when the plant lacks the field |
| `PlantCorpus.CombinedTextIsRender` | conv.py:62-71 | the combined text is the eight labelled segments "<label>: <value>. " in the fixed order Plant Name, Scientific Name, Healing Properties, Uses, Description, Preparation Method, Side Effects, Geographic Availability, the last ending in "." |
| `PlantCorpus.MissingFieldSegment` | conv.py:66 | a field the plant lacks still has its segment, with an empty value ("Uses: . ") |
| `PlantCorpus.CorpusIds` | conv.py:85 | n ids; the k-th is `str(k)`, the decimal numeral of k without leading zeros, and parses back as k |
| `PlantCorpus.CorpusIdsDistinct` | conv.py:85 | the ids "0" .. "n-1" are pairwise distinct |
| `PlantCorpus.PrepareCorpus` | conv.py:58-73 | texts has one combined text per plant, in input order; metadatas is the input list unchanged; the ids are exactly `str(0)` .. `str(n-1)`, pairwise distinct, id k reading k |
| `PlantSearch.ImageUrl` | api.py:121 | no URL exactly when the stored name is empty; every URL starts with the public base URL |
| `PlantSearch.ImageUrlRecoversName` | api.py:120-121 | the part of the URL after the base is the stored name, or the name without its leading "images/" |
| `PlantSearch.Normalize` | api.py:120-133 | the eight text fields are the record's values with "" defaults; Image Missing holds exactly when Image is None and exactly when the stored image is empty or absent |
| `PlantSearch.ResultRendersEmbeddedText` | api.py:124-131 | a result's eight text fields render to the very text embedded for its record at corpus-preparation time |
| `PlantSearch.SearchInPlants` | api.py:115-136 | one result per (document, metadata) pair, in order, so the length is the shorter of the two lists; each result carries the defaulted fields and the image rule of its record |
| `PlantSearch.NamesOf` | api.py:159 | a name is listed exactly when some record has a Plant Name with that value |
| `PlantSearch.NamesOfBound` | api.py:159 | there are no more distinct names than records |
| `PlantSearch.GetPlantNames` | api.py:156-160 | no names when the result lacks metadatas; otherwise the distinct Plant Name values of the records that have one |
| `PlantSearch.PlantNamesAsWritten` | api.py:159 | over the nested query result as written, the comprehension never finds a name and returns the empty set |
| `PlantSearch.PlantNamesAsWrittenLosesNames` | api.py:152-160 | a store holding one plant named "Tulsi": as written the endpoint lists no names, the intended comprehension lists "Tulsi" |

## Left out

- Embedding models and the vector store are not modelled. This covers SentenceTransformer
  and ChromaDB `query`, `get`, `add`, `delete_collection`, `get_collection` and
  `get_or_create_collection`: they involve float vectors and similarity ranking. Hits and
  stored contents are inputs. The model assumes the store keeps entries in insertion
  order.
- The store's duplicate-id check on `add` is not modelled. `EntryIdsDistinct` and
  `CorpusIdsDistinct` state the property that check relies on.
- The `top_k`/`n_results` bound on the number of hits is not modelled: it belongs to the
  store. So is the `n_results=1000` scan cap of `get_plant_names`: a corpus larger than
  the cap loses names silently, and the model sees only the records it is given.
- FastAPI routes, CORS, static files, templates, JSON loading and `print` are not
  modelled. The module-level `entries` list is a method result, not a global.
- Metadata and medicine field values are strings. JSON numbers or nulls that the
  f-strings would format with `str()` are not modelled.
- `MedicineIndex.Medicine` holds only the three fields the builder reads. A medicine
  record missing one of them raises KeyError at startup. That crash is not modelled.
- A key missing from a hit or stored record raises KeyError at `meta["health_issue"]`.
  It is a precondition (`AllHaveIssue`). `BuiltMetadataHasIssue` shows that built
  collections meet it.
- `query_health_issue` returns `[]` when there is no hit, while its caller at
  med/med.py:67 unpacks a pair. The model returns `NoHit` and does not model the caller.
- `CategorySearch.MedicineSearch` takes the flat inner hit list. The source tests the
  outer list, and `MedicineSearchAsWritten` models that code as written.
- `PlantSearch.GetPlantNames` returns a set: `list(set(...))` has no defined order.
- Whether `Image` is a string or not is not modelled: image values are strings like
  every other metadata value.

## Findings

| source | as written | input that shows it | evidently intended | confidence | as-written member | corrected member |
|---|---|---|---|---|---|---|
| api.py:79 (and med/app.py:62) | `if not results["metadatas"]` tests the outer list, which holds one inner list per query text and so is never empty; `[0][0]` then indexes the inner list | an empty collection: the query returns `metadatas == [[]]`, and the handler raises IndexError instead of answering 404 | answer 404 when the inner hit list is empty | high, not executed | `CategorySearch.EmptyCollectionRaises` | `CategorySearch.MedicineSearch` |
| api.py:159 | the comprehension iterates `result["metadatas"]`, a list of lists, so `"Plant Name" in meta` asks whether a string is an element of a list of dictionaries, which is always false | a store holding `{"Plant Name": "Tulsi"}`: the endpoint returns `[]` | collect the names from the inner list of records | high, not executed | `PlantSearch.PlantNamesAsWrittenLosesNames` | `PlantSearch.GetPlantNames` |
