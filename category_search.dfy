/**
 * Two-stage medicine retrieval ("category expansion"): the first nearest
 * hit only names a health issue; a full scan of the stored entries then
 * returns every entry with that health issue, in stored order.
 *
 * The vector store is an oracle: `hits` are the metadata records of the
 * nearest entries, closest first, and `stored` / `storedDocs` are the
 * collection's full contents in insertion order.
 */
module CategorySearch {
  import opened Records
  import opened MedicineIndex

  /** Every record carries the key the filter reads (`meta["health_issue"]`). */
  predicate AllHaveIssue(metas: seq<Record>)
  {
    forall k :: 0 <= k < |metas| ==> IssueKey in metas[k]
  }

  /** `[meta for meta in stored if meta["health_issue"] == issue]` */
  function Related(stored: seq<Record>, issue: string): (r: seq<Record>)
    requires AllHaveIssue(stored)
    ensures |r| <= |stored|
    ensures forall k :: 0 <= k < |r| ==> IssueKey in r[k] && r[k][IssueKey] == issue
  {
    if stored == [] then []
    else
      var rest := Related(stored[..|stored| - 1], issue);
      if stored[|stored| - 1][IssueKey] == issue then rest + [stored[|stored| - 1]] else rest
  }

  /**
   * Reference definition of the filter's result: the positions of the
   * matching records, in increasing order.
   */
  function Positions(stored: seq<Record>, issue: string): (ps: seq<nat>)
    requires AllHaveIssue(stored)
    ensures forall k :: 0 <= k < |ps| ==> ps[k] < |stored|
    ensures forall i, j :: 0 <= i < j < |ps| ==> ps[i] < ps[j]
    ensures forall p :: 0 <= p < |stored| ==> (p in ps <==> stored[p][IssueKey] == issue)
  {
    if stored == [] then []
    else
      var rest := Positions(stored[..|stored| - 1], issue);
      if stored[|stored| - 1][IssueKey] == issue then rest + [|stored| - 1] else rest
  }

  /**
   * The filter is sound, complete and order-preserving: its k-th result is
   * the stored record at the k-th matching position, so it holds every
   * matching record, once per stored occurrence, and nothing else.
   */
  lemma {:induction false} RelatedIsPositions(stored: seq<Record>, issue: string)
    requires AllHaveIssue(stored)
    ensures |Related(stored, issue)| == |Positions(stored, issue)|
    ensures forall k :: 0 <= k < |Positions(stored, issue)| ==>
              Related(stored, issue)[k] == stored[Positions(stored, issue)[k]]
  {
    if stored != [] {
      RelatedIsPositions(stored[..|stored| - 1], issue);
    }
  }

  lemma {:induction false} RelatedAppend(a: seq<Record>, b: seq<Record>, issue: string)
    requires AllHaveIssue(a) && AllHaveIssue(b)
    ensures AllHaveIssue(a + b)
    ensures Related(a + b, issue) == Related(a, issue) + Related(b, issue)
    decreases |b|
  {
    if b == [] {
      assert a + b == a;
    } else {
      var b' := b[..|b| - 1];
      assert (a + b)[..|a + b| - 1] == a + b';
      RelatedAppend(a, b', issue);
    }
  }

  // ---------------------------------------------------------------------
  // medicine_search (api.py) and search_api (med/app.py): the same handler.
  // ---------------------------------------------------------------------

  const NotFoundStatus: nat := 404
  const NoMatchMessage := "No matching health issue found."

  datatype SearchResponse =
    | NotFound(status: nat, message: string)
    | Found(healthIssue: string, results: seq<Record>)

  /** The handler body, with the store's query and get results as inputs. */
  function MedicineSearch(hits: seq<Record>, stored: seq<Record>): (resp: SearchResponse)
    requires hits != [] ==> IssueKey in hits[0]
    requires AllHaveIssue(stored)
    ensures resp.NotFound? <==> hits == []
    ensures resp.NotFound? ==> resp.status == 404 && resp.message == "No matching health issue found."
    ensures resp.Found? ==> resp.healthIssue == hits[0][IssueKey]
    ensures resp.Found? ==> forall k :: 0 <= k < |resp.results| ==>
              IssueKey in resp.results[k] && resp.results[k][IssueKey] == resp.healthIssue
  {
    if hits == [] then NotFound(NotFoundStatus, NoMatchMessage)
    else
      var topHealthIssue := hits[0][IssueKey];
      Found(topHealthIssue, Related(stored, topHealthIssue))
  }

  /**
   * On a hit, the results are exactly the stored records with the top hit's
   * health issue, in stored order.
   */
  lemma SearchResultsExact(hits: seq<Record>, stored: seq<Record>)
    requires hits != [] && IssueKey in hits[0]
    requires AllHaveIssue(stored)
    ensures MedicineSearch(hits, stored).Found?
    ensures var resp := MedicineSearch(hits, stored);
            var ps := Positions(stored, hits[0][IssueKey]);
            |resp.results| == |ps| && forall k :: 0 <= k < |ps| ==> resp.results[k] == stored[ps[k]]
  {
    RelatedIsPositions(stored, hits[0][IssueKey]);
  }

  lemma BuiltMetadataHasIssue(data: seq<Group>)
    ensures AllHaveIssue(Metadatas(Entries(data)))
  {
    EntriesWellFormed(data);
  }

  /** A list whose records all have the issue passes the filter unchanged. */
  lemma {:induction false} RelatedOfMatching(stored: seq<Record>, issue: string)
    requires forall k :: 0 <= k < |stored| ==> IssueKey in stored[k] && stored[k][IssueKey] == issue
    ensures AllHaveIssue(stored)
    ensures Related(stored, issue) == stored
    decreases |stored|
  {
    if stored != [] {
      RelatedOfMatching(stored[..|stored| - 1], issue);
    }
  }

  /** A list whose records all have another issue is filtered away entirely. */
  lemma {:induction false} RelatedOfOther(stored: seq<Record>, other: string, issue: string)
    requires other != issue
    requires forall k :: 0 <= k < |stored| ==> IssueKey in stored[k] && stored[k][IssueKey] == other
    ensures AllHaveIssue(stored)
    ensures Related(stored, issue) == []
    decreases |stored|
  {
    if stored != [] {
      RelatedOfOther(stored[..|stored| - 1], other, issue);
    }
  }

  lemma GroupMetadataIssue(issue: string, meds: seq<Medicine>)
    ensures forall k :: 0 <= k < |meds| ==>
              IssueKey in Metadatas(GroupEntries(issue, meds))[k] && Metadatas(GroupEntries(issue, meds))[k][IssueKey] == issue
  {
    var ms := Metadatas(GroupEntries(issue, meds));
    GroupEntryAt(issue, meds);
    forall k | 0 <= k < |meds| ensures IssueKey in ms[k] && ms[k][IssueKey] == issue {
      assert ms[k] == Metadata(issue, meds[k]);
    }
  }

  lemma RelatedOfGroup(issue: string, meds: seq<Medicine>, target: string)
    ensures AllHaveIssue(Metadatas(GroupEntries(issue, meds)))
    ensures Related(Metadatas(GroupEntries(issue, meds)), target)
            == if issue == target then Metadatas(GroupEntries(issue, meds)) else []
  {
    GroupMetadataIssue(issue, meds);
    if issue == target {
      RelatedOfMatching(Metadatas(GroupEntries(issue, meds)), issue);
    } else {
      RelatedOfOther(Metadatas(GroupEntries(issue, meds)), issue, target);
    }
  }

  lemma MetadatasAppend(a: seq<Entry>, b: seq<Entry>)
    ensures Metadatas(a + b) == Metadatas(a) + Metadatas(b)
  {
  }

  /** The metadata of built entries, split off the last group. */
  lemma MetadatasSnoc(data: seq<Group>)
    requires data != []
    ensures Metadatas(Entries(data))
            == Metadatas(Entries(data[..|data| - 1])) + Metadatas(GroupEntries(data[|data| - 1].0, data[|data| - 1].1))
  {
    var init, last := data[..|data| - 1], data[|data| - 1];
    var a, b := Entries(init), GroupEntries(last.0, last.1);
    assert Entries(data) == a + b;
    MetadatasAppend(a, b);
  }

  lemma {:induction false} RelatedOfEntries(data: seq<Group>, g: nat)
    requires DistinctIssues(data) && g < |data|
    ensures AllHaveIssue(Metadatas(Entries(data)))
    ensures Related(Metadatas(Entries(data)), data[g].0) == Metadatas(GroupEntries(data[g].0, data[g].1))
    decreases |data|
  {
    var init, last := data[..|data| - 1], data[|data| - 1];
    MetadatasSnoc(data);
    if g < |init| {
      RelatedOfEarlierGroup(data, g);
      RelatedJoin(Metadatas(Entries(data)), Metadatas(Entries(init)), Metadatas(GroupEntries(last.0, last.1)),
                  data[g].0, Metadatas(GroupEntries(data[g].0, data[g].1)), []);
    } else {
      RelatedOfLastGroup(data);
      RelatedJoin(Metadatas(Entries(data)), Metadatas(Entries(init)), Metadatas(GroupEntries(last.0, last.1)),
                  data[g].0, [], Metadatas(GroupEntries(last.0, last.1)));
    }
  }

  /** Filtering a concatenation, from what the filter keeps of each part. */
  lemma RelatedJoin(whole: seq<Record>, a: seq<Record>, b: seq<Record>, issue: string, ra: seq<Record>, rb: seq<Record>)
    requires whole == a + b && AllHaveIssue(a) && AllHaveIssue(b)
    requires Related(a, issue) == ra && Related(b, issue) == rb
    ensures AllHaveIssue(whole)
    ensures Related(whole, issue) == ra + rb
  {
    RelatedAppend(a, b, issue);
  }

  lemma {:induction false} RelatedOfEarlierGroup(data: seq<Group>, g: nat)
    requires DistinctIssues(data) && g < |data| - 1
    ensures AllHaveIssue(Metadatas(Entries(data[..|data| - 1])))
    ensures Related(Metadatas(Entries(data[..|data| - 1])), data[g].0) == Metadatas(GroupEntries(data[g].0, data[g].1))
    ensures AllHaveIssue(Metadatas(GroupEntries(data[|data| - 1].0, data[|data| - 1].1)))
    ensures Related(Metadatas(GroupEntries(data[|data| - 1].0, data[|data| - 1].1)), data[g].0) == []
    decreases |data|, 0
  {
    var init, last := data[..|data| - 1], data[|data| - 1];
    assert init[g] == data[g];
    assert last.0 != data[g].0;
    RelatedOfGroup(last.0, last.1, data[g].0);
    assert DistinctIssues(init);
    RelatedOfEntries(init, g);
  }

  lemma RelatedOfLastGroup(data: seq<Group>)
    requires DistinctIssues(data) && data != []
    ensures AllHaveIssue(Metadatas(Entries(data[..|data| - 1])))
    ensures Related(Metadatas(Entries(data[..|data| - 1])), data[|data| - 1].0) == []
    ensures AllHaveIssue(Metadatas(GroupEntries(data[|data| - 1].0, data[|data| - 1].1)))
    ensures Related(Metadatas(GroupEntries(data[|data| - 1].0, data[|data| - 1].1)), data[|data| - 1].0)
            == Metadatas(GroupEntries(data[|data| - 1].0, data[|data| - 1].1))
  {
    var init, last := data[..|data| - 1], data[|data| - 1];
    assert last.0 !in Issues(init) by {
      forall i | 0 <= i < |init| ensures init[i].0 != last.0 {
        assert init[i] == data[i];
      }
    }
    RelatedOfInit(init, last.0);
    RelatedOfGroup(last.0, last.1, last.0);
  }

  lemma {:induction false} RelatedOfInit(data: seq<Group>, issue: string)
    requires issue !in Issues(data)
    ensures AllHaveIssue(Metadatas(Entries(data)))
    ensures Related(Metadatas(Entries(data)), issue) == []
  {
    BuiltMetadataHasIssue(data);
    var r := Related(Metadatas(Entries(data)), issue);
    if r != [] {
      RelatedIsPositions(Metadatas(Entries(data)), issue);
      var p := Positions(Metadatas(Entries(data)), issue)[0];
      EntryIdParses(data, p);
    }
  }

  /**
   * Searching a collection built from the grouped object: whenever the top
   * hit's health issue is the key of group g, the response names that issue
   * and lists exactly that group's medicines, one per medicine, in list order.
   */
  lemma SearchBuiltIndex(data: seq<Group>, hits: seq<Record>, g: nat)
    requires DistinctIssues(data) && g < |data|
    requires hits != [] && IssueKey in hits[0] && hits[0][IssueKey] == data[g].0
    ensures AllHaveIssue(Metadatas(Entries(data)))
    ensures var resp := MedicineSearch(hits, Metadatas(Entries(data)));
            && resp == Found(data[g].0, Metadatas(GroupEntries(data[g].0, data[g].1)))
            && |resp.results| == |data[g].1|
            && forall k :: 0 <= k < |data[g].1| ==> resp.results[k] == Metadata(data[g].0, data[g].1[k])
  {
    RelatedOfEntries(data, g);
    GroupEntryAt(data[g].0, data[g].1);
  }

  /**
   * The handler as written. The store answers a query with one hit list per
   * query text, so `results["metadatas"]` is a list holding one list; the
   * 404 test looks at the outer list, and `[0][0]` indexes the inner one.
   */
  function MedicineSearchAsWritten(hitLists: seq<seq<Record>>, stored: seq<Record>): (out: Outcome<SearchResponse>)
    requires hitLists != [] && hitLists[0] != [] ==> IssueKey in hitLists[0][0]
    requires AllHaveIssue(stored)
    ensures out.Raised? <==> hitLists != [] && hitLists[0] == []
    ensures out.Returned? && out.value.NotFound? <==> hitLists == []
  {
    if hitLists == [] then Returned(NotFound(NotFoundStatus, NoMatchMessage))
    else if hitLists[0] == [] then Raised("IndexError")
    else
      var topHealthIssue := hitLists[0][0][IssueKey];
      Returned(Found(topHealthIssue, Related(stored, topHealthIssue)))
  }

  /**
   * Against an empty collection the store returns one empty hit list: the
   * handler as written raises instead of answering 404, which is what
   * MedicineSearch (the intended behaviour on the inner list) does.
   */
  lemma EmptyCollectionRaises()
    ensures MedicineSearchAsWritten([[]], []) == Raised("IndexError")
    ensures MedicineSearch([], []) == NotFound(404, "No matching health issue found.")
  {
  }

  /** Whenever the inner hit list is non-empty, the two agree. */
  lemma AsWrittenAgreesOnHits(hits: seq<Record>, stored: seq<Record>)
    requires hits != [] && IssueKey in hits[0]
    requires AllHaveIssue(stored)
    ensures MedicineSearchAsWritten([hits], stored) == Returned(MedicineSearch(hits, stored))
  {
  }

  // ---------------------------------------------------------------------
  // query_health_issue (med/med.py): (document, metadata) pairs.
  // ---------------------------------------------------------------------

  /** `zip(a, b)`: stops at the shorter sequence. */
  function Zip<A, B>(a: seq<A>, b: seq<B>): (z: seq<(A, B)>)
    ensures |z| == Min(|a|, |b|)
    ensures forall k :: 0 <= k < |z| ==> z[k] == (a[k], b[k])
  {
    seq(Min(|a|, |b|), k requires 0 <= k < Min(|a|, |b|) => (a[k], b[k]))
  }

  function Seconds(pairs: seq<(string, Record)>): (ms: seq<Record>)
    ensures |ms| == |pairs| && forall k :: 0 <= k < |pairs| ==> ms[k] == pairs[k].1
  {
    seq(|pairs|, k requires 0 <= k < |pairs| => pairs[k].1)
  }

  /** `[(doc, meta) for doc, meta in pairs if meta["health_issue"] == issue]` */
  function RelatedPairs(pairs: seq<(string, Record)>, issue: string): (r: seq<(string, Record)>)
    requires AllHaveIssue(Seconds(pairs))
    ensures forall k :: 0 <= k < |r| ==> IssueKey in r[k].1 && r[k].1[IssueKey] == issue
  {
    if pairs == [] then []
    else
      var rest := RelatedPairs(pairs[..|pairs| - 1], issue);
      assert Seconds(pairs[..|pairs| - 1]) == Seconds(pairs)[..|pairs| - 1];
      assert pairs[|pairs| - 1].1 == Seconds(pairs)[|pairs| - 1];
      if pairs[|pairs| - 1].1[IssueKey] == issue then rest + [pairs[|pairs| - 1]] else rest
  }

  datatype IssueQuery = NoHit | Hit(healthIssue: string, pairs: seq<(string, Record)>)

  function QueryHealthIssue(hits: seq<Record>, storedDocs: seq<string>, stored: seq<Record>): (q: IssueQuery)
    requires hits != [] ==> IssueKey in hits[0]
    requires AllHaveIssue(Seconds(Zip(storedDocs, stored)))
    ensures q.NoHit? <==> hits == []
    ensures q.Hit? ==> q.healthIssue == hits[0][IssueKey]
    ensures q.Hit? ==> forall k :: 0 <= k < |q.pairs| ==>
              IssueKey in q.pairs[k].1 && q.pairs[k].1[IssueKey] == q.healthIssue
  {
    if hits == [] then NoHit
    else
      var topHealthIssue := hits[0][IssueKey];
      Hit(topHealthIssue, RelatedPairs(Zip(storedDocs, stored), topHealthIssue))
  }

  /**
   * The pairs are taken positionally: the k-th pair is (document, metadata)
   * at the k-th stored position whose health issue matches.
   */
  lemma {:induction false} RelatedPairsArePositional(pairs: seq<(string, Record)>, issue: string)
    requires AllHaveIssue(Seconds(pairs))
    ensures |RelatedPairs(pairs, issue)| == |Positions(Seconds(pairs), issue)|
    ensures forall k :: 0 <= k < |RelatedPairs(pairs, issue)| ==>
              RelatedPairs(pairs, issue)[k] == pairs[Positions(Seconds(pairs), issue)[k]]
  {
    if pairs != [] {
      var init := pairs[..|pairs| - 1];
      assert Seconds(init) == Seconds(pairs)[..|pairs| - 1];
      RelatedPairsArePositional(init, issue);
    }
  }

  /**
   * The document/metadata pairs of query_health_issue and the metadata
   * list of search_api agree: dropping the documents from the pairs gives
   * the same records, in the same order.
   */
  lemma QueryAgreesWithSearch(hits: seq<Record>, storedDocs: seq<string>, stored: seq<Record>)
    requires hits != [] && IssueKey in hits[0]
    requires |storedDocs| == |stored| && AllHaveIssue(stored)
    ensures Seconds(Zip(storedDocs, stored)) == stored
    ensures QueryHealthIssue(hits, storedDocs, stored).Hit?
    ensures MedicineSearch(hits, stored).Found?
    ensures Seconds(QueryHealthIssue(hits, storedDocs, stored).pairs) == MedicineSearch(hits, stored).results
  {
    var z := Zip(storedDocs, stored);
    assert Seconds(z) == stored;
    var issue := hits[0][IssueKey];
    RelatedPairsArePositional(z, issue);
    RelatedIsPositions(stored, issue);
  }

  /**
   * Over a collection built from the grouped object, every returned pair's
   * document is the one rendered from its own metadata: zipping the
   * collection's two lists keeps documents and records aligned.
   */
  lemma QueryPairsAligned(data: seq<Group>, hits: seq<Record>)
    requires hits != [] && IssueKey in hits[0]
    ensures AllHaveIssue(Seconds(Zip(Documents(Entries(data)), Metadatas(Entries(data)))))
    ensures var q := QueryHealthIssue(hits, Documents(Entries(data)), Metadatas(Entries(data)));
            forall k :: 0 <= k < |q.pairs| ==> exists p :: 0 <= p < |Entries(data)| && q.pairs[k] == (Entries(data)[p].document, Entries(data)[p].metadata)
  {
    var es := Entries(data);
    var z := Zip(Documents(es), Metadatas(es));
    EntriesWellFormed(data);
    assert Seconds(z) == Metadatas(es);
    var issue := hits[0][IssueKey];
    RelatedPairsArePositional(z, issue);
    var ps := Positions(Seconds(z), issue);
    var q := QueryHealthIssue(hits, Documents(es), Metadatas(es));
    forall k | 0 <= k < |q.pairs|
      ensures exists p :: 0 <= p < |es| && q.pairs[k] == (es[p].document, es[p].metadata)
    {
      var p := ps[k];
      assert q.pairs[k] == z[p];
    }
  }
}
