/**
 * The medicine index-entry builder: the grouped JSON object
 * `health_issue -> [medicine record]` is flattened, group by group and
 * medicine by medicine, into entries (id, document, metadata) that are
 * then added to the medicine collection in that order.
 *
 * The grouped object is a sequence of (health_issue, medicines) pairs in
 * the object's key order; a JSON object's keys are distinct, which is the
 * predicate DistinctIssues.
 */
module MedicineIndex {
  import opened Records
  import opened Decimal

  /** The three fields of a medicine record that the builder reads. */
  datatype Medicine = Medicine(name: string, dose: string, indication: string)

  /** One entry handed to the collection. */
  datatype Entry = Entry(id: string, document: string, metadata: Record)

  /** A health issue and its medicines, in list order. */
  type Group = (string, seq<Medicine>)

  const IssueKey := "health_issue"
  const MedicineKey := "medicine"
  const DoseKey := "dose"
  const IndicationKey := "indication"

  predicate DistinctIssues(data: seq<Group>)
  {
    forall i, j :: 0 <= i < j < |data| ==> data[i].0 != data[j].0
  }

  /** The health issues of the grouped object. */
  function Issues(data: seq<Group>): set<string>
  {
    set g | 0 <= g < |data| :: data[g].0
  }

  /** Total number of medicines over all groups. */
  function TotalMedicines(data: seq<Group>): nat
  {
    if data == [] then 0 else TotalMedicines(data[..|data| - 1]) + |data[|data| - 1].1|
  }

  /** `f"{health_issue}_{idx}"` */
  function EntryId(issue: string, idx: nat): string
  {
    issue + "_" + NatToString(idx)
  }

  /** `f"{health_issue} details: {name}, Dose: {dose}, Indication: {indication}"` */
  function Document(issue: string, m: Medicine): string
  {
    issue + " details: " + m.name + ", Dose: " + m.dose + ", Indication: " + m.indication
  }

  function Metadata(issue: string, m: Medicine): Record
  {
    map[IssueKey := issue, MedicineKey := m.name, DoseKey := m.dose, IndicationKey := m.indication]
  }

  function MakeEntry(issue: string, idx: nat, m: Medicine): Entry
  {
    Entry(EntryId(issue, idx), Document(issue, m), Metadata(issue, m))
  }

  /** The entries of one group, in list-index order. */
  function GroupEntries(issue: string, meds: seq<Medicine>): (es: seq<Entry>)
    ensures |es| == |meds|
  {
    if meds == [] then []
    else GroupEntries(issue, meds[..|meds| - 1]) + [MakeEntry(issue, |meds| - 1, meds[|meds| - 1])]
  }

  /** All entries: group order, then list-index order within a group. */
  function Entries(data: seq<Group>): seq<Entry>
  {
    if data == [] then []
    else Entries(data[..|data| - 1]) + GroupEntries(data[|data| - 1].0, data[|data| - 1].1)
  }

  predicate IdsDistinct(es: seq<Entry>)
  {
    forall i, j :: 0 <= i < j < |es| ==> es[i].id != es[j].id
  }

  /**
   * A metadata record as the builder writes it: the four fields, with the
   * entry's document rendered from exactly those values.
   */
  predicate WellFormed(e: Entry)
  {
    && e.metadata.Keys == {IssueKey, MedicineKey, DoseKey, IndicationKey}
    && e.document == e.metadata[IssueKey] + " details: " + e.metadata[MedicineKey]
                     + ", Dose: " + e.metadata[DoseKey] + ", Indication: " + e.metadata[IndicationKey]
  }

  function Documents(es: seq<Entry>): (ds: seq<string>)
    ensures |ds| == |es| && forall k :: 0 <= k < |es| ==> ds[k] == es[k].document
  {
    seq(|es|, k requires 0 <= k < |es| => es[k].document)
  }

  function Metadatas(es: seq<Entry>): (ms: seq<Record>)
    ensures |ms| == |es| && forall k :: 0 <= k < |es| ==> ms[k] == es[k].metadata
  {
    seq(|es|, k requires 0 <= k < |es| => es[k].metadata)
  }

  // ---------------------------------------------------------------------
  // The ids: "<health_issue>_<idx>", split back at the last underscore.
  // ---------------------------------------------------------------------

  /** Splits s around its last occurrence of sep; None when sep does not occur. */
  function SplitAtLast(s: string, sep: char): Option<(string, string)>
    decreases |s|
  {
    if s == [] then None
    else if s[|s| - 1] == sep then Some((s[..|s| - 1], ""))
    else match SplitAtLast(s[..|s| - 1], sep)
      case None => None
      case Some(parts) => Some((parts.0, parts.1 + [s[|s| - 1]]))
  }

  /** Reads an id back as (health_issue, idx): the suffix after the last '_' is the index. */
  function ParseId(id: string): Option<(string, nat)>
  {
    match SplitAtLast(id, '_')
    case None => None
    case Some(parts) =>
      match ParseDecimal(parts.1)
      case None => None
      case Some(idx) => Some((parts.0, idx))
  }

  lemma {:induction false} SplitAtLastJoin(p: string, q: string, sep: char)
    requires sep !in q
    ensures SplitAtLast(p + [sep] + q, sep) == Some((p, q))
    decreases |q|
  {
    var s := p + [sep] + q;
    if q == [] {
      assert s[..|s| - 1] == p;
    } else {
      var q' := q[..|q| - 1];
      assert s[..|s| - 1] == p + [sep] + q';
      assert sep !in q' by {
        forall k | 0 <= k < |q'| ensures q'[k] != sep { assert q'[k] == q[k]; }
      }
      SplitAtLastJoin(p, q', sep);
      assert q' + [q[|q| - 1]] == q;
    }
  }

  /** Every id parses back to the health issue and index it was built from. */
  lemma ParseEntryId(issue: string, idx: nat)
    ensures ParseId(EntryId(issue, idx)) == Some((issue, idx))
  {
    var digits := NatToString(idx);
    assert '_' !in digits by {
      forall k | 0 <= k < |digits| ensures digits[k] != '_' { assert IsDigit(digits[k]); }
    }
    assert EntryId(issue, idx) == issue + ['_'] + digits;
    SplitAtLastJoin(issue, digits, '_');
    ParseNatToString(idx);
  }

  /** Two ids are equal only when built from the same health issue and index. */
  lemma EntryIdInjective(issue1: string, idx1: nat, issue2: string, idx2: nat)
    requires EntryId(issue1, idx1) == EntryId(issue2, idx2)
    ensures issue1 == issue2 && idx1 == idx2
  {
    ParseEntryId(issue1, idx1);
    ParseEntryId(issue2, idx2);
  }

  // ---------------------------------------------------------------------
  // The builder loop.
  // ---------------------------------------------------------------------

  /**
   * The nested `for health_issue, medicines in data.items(): for idx,
   * medicine in enumerate(medicines): entries.append(...)` loop.
   */
  method BuildEntries(data: seq<Group>) returns (entries: seq<Entry>)
    ensures entries == Entries(data)
    ensures |entries| == TotalMedicines(data)
    ensures forall k :: 0 <= k < |entries| ==> WellFormed(entries[k])
    ensures DistinctIssues(data) ==> IdsDistinct(entries)
  {
    entries := [];
    var g := 0;
    while g < |data|
      invariant 0 <= g <= |data|
      invariant entries == Entries(data[..g])
    {
      var issue, medicines := data[g].0, data[g].1;
      var idx := 0;
      while idx < |medicines|
        invariant 0 <= idx <= |medicines|
        invariant entries == Entries(data[..g]) + GroupEntries(issue, medicines[..idx])
      {
        var medicine := medicines[idx];
        var entryId := issue + "_" + NatToString(idx);
        var content := issue + " details: " + medicine.name + ", Dose: " + medicine.dose
                       + ", Indication: " + medicine.indication;
        entries := entries + [Entry(entryId, content, map[IssueKey := issue, MedicineKey := medicine.name,
                                                          DoseKey := medicine.dose, IndicationKey := medicine.indication])];
        assert medicines[..idx + 1][..idx] == medicines[..idx];
        idx := idx + 1;
      }
      assert medicines[..idx] == medicines;
      assert data[..g + 1][..g] == data[..g];
      g := g + 1;
    }
    assert data[..g] == data;
    EntryCount(data);
    EntriesWellFormed(data);
    if DistinctIssues(data) {
      EntryIdsDistinct(data);
    }
  }

  // ---------------------------------------------------------------------
  // Properties of the entry list.
  // ---------------------------------------------------------------------

  /** Index order within a group: the k-th entry is built from medicine k, with index k. */
  lemma {:induction false} GroupEntryAt(issue: string, meds: seq<Medicine>)
    ensures forall k :: 0 <= k < |meds| ==> GroupEntries(issue, meds)[k] == MakeEntry(issue, k, meds[k])
    decreases |meds|
  {
    if meds != [] {
      GroupEntryAt(issue, meds[..|meds| - 1]);
    }
  }

  /** One entry per medicine. */
  lemma {:induction false} EntryCount(data: seq<Group>)
    ensures |Entries(data)| == TotalMedicines(data)
  {
    if data != [] {
      EntryCount(data[..|data| - 1]);
    }
  }

  /** Every entry carries the four metadata fields and a document rendered from them. */
  lemma {:induction false} EntriesWellFormed(data: seq<Group>)
    ensures forall k :: 0 <= k < |Entries(data)| ==> WellFormed(Entries(data)[k])
  {
    if data != [] {
      EntriesWellFormed(data[..|data| - 1]);
      GroupEntryAt(data[|data| - 1].0, data[|data| - 1].1);
    }
  }

  /** Every entry's id parses back to its own health issue, which is one of the object's keys. */
  lemma {:induction false} EntryIdParses(data: seq<Group>, k: nat)
    requires k < |Entries(data)|
    ensures IssueKey in Entries(data)[k].metadata
    ensures ParseId(Entries(data)[k].id).Some?
    ensures ParseId(Entries(data)[k].id).value.0 == Entries(data)[k].metadata[IssueKey]
    ensures Entries(data)[k].metadata[IssueKey] in Issues(data)
  {
    var init := data[..|data| - 1];
    var last := data[|data| - 1];
    var es := Entries(data);
    if k < |Entries(init)| {
      EntryIdParses(init, k);
      assert es[k] == Entries(init)[k];
      assert Issues(init) <= Issues(data) by {
        forall x | x in Issues(init) ensures x in Issues(data) {
          var g :| 0 <= g < |init| && init[g].0 == x;
          assert data[g].0 == x;
        }
      }
    } else {
      var i := k - |Entries(init)|;
      GroupEntryAt(last.0, last.1);
      assert es[k] == MakeEntry(last.0, i, last.1[i]);
      ParseEntryId(last.0, i);
      assert data[|data| - 1].0 == last.0;
    }
  }

  /** With distinct health issues, the ids are pairwise distinct. */
  lemma {:induction false} EntryIdsDistinct(data: seq<Group>)
    requires DistinctIssues(data)
    ensures IdsDistinct(Entries(data))
  {
    if data != [] {
      var init := data[..|data| - 1];
      var issue, meds := data[|data| - 1].0, data[|data| - 1].1;
      var a := Entries(init);
      var b := GroupEntries(issue, meds);
      GroupEntryAt(issue, meds);
      EntryIdsDistinct(init);
      assert issue !in Issues(init) by {
        forall g | 0 <= g < |init| ensures init[g].0 != issue {
          assert init[g] == data[g];
        }
      }
      var es := Entries(data);
      assert es == a + b;
      forall i, j | 0 <= i < j < |es| ensures es[i].id != es[j].id {
        if j < |a| {
          assert es[i] == a[i] && es[j] == a[j];
        } else if i >= |a| {
          assert es[i] == MakeEntry(issue, i - |a|, meds[i - |a|]);
          assert es[j] == MakeEntry(issue, j - |a|, meds[j - |a|]);
          if es[i].id == es[j].id {
            EntryIdInjective(issue, i - |a|, issue, j - |a|);
          }
        } else {
          assert es[i] == a[i];
          EntryIdParses(init, i);
          assert es[j] == MakeEntry(issue, j - |a|, meds[j - |a|]);
          ParseEntryId(issue, j - |a|);
        }
      }
    }
  }

  lemma {:induction false} EntriesAppend(a: seq<Group>, b: seq<Group>)
    ensures Entries(a + b) == Entries(a) + Entries(b)
    decreases |b|
  {
    if b == [] {
      assert a + b == a;
    } else {
      var ab := a + b;
      var b', last := b[..|b| - 1], b[|b| - 1];
      assert ab[..|ab| - 1] == a + b';
      assert ab[|ab| - 1] == last;
      var g := GroupEntries(last.0, last.1);
      assert Entries(ab) == Entries(a + b') + g;
      assert Entries(b) == Entries(b') + g;
      EntriesAppend(a, b');
    }
  }

  /**
   * Order: the medicine at list index idx of group g is the entry at
   * position (number of medicines in the groups before g) + idx.
   */
  lemma EntryAt(data: seq<Group>, g: nat, idx: nat)
    requires g < |data| && idx < |data[g].1|
    ensures TotalMedicines(data[..g]) + idx < |Entries(data)|
    ensures Entries(data)[TotalMedicines(data[..g]) + idx] == MakeEntry(data[g].0, idx, data[g].1[idx])
  {
    assert data == data[..g] + [data[g]] + data[g + 1..];
    EntriesAppend(data[..g] + [data[g]], data[g + 1..]);
    EntriesAppend(data[..g], [data[g]]);
    assert [data[g]][..0] == [];
    EntryCount(data[..g]);
    GroupEntryAt(data[g].0, data[g].1);
  }
}
