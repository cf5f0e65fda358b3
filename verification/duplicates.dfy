/**
 Exact-duplicate detection over the page's URL-to-bitmap table: a pairwise
 scan in key order that records each pair of identical bitmaps once, under
 the URL seen first, and the list of duplicates the page report shows.
 */
module Duplicates {
  import opened Wrappers
  import opened Strings
  import opened Settings
  import opened Bitmaps
  import opened Extraction
  import opened Fetching

  /** The URL mentions one of the excluded domains anywhere. */
  predicate IsExcluded(url: Url) {
    exists i :: 0 <= i < |ExcludedDomains| && Contains(url, ExcludedDomains[i])
  }

  /** The URL takes part in the comparison: it has a bitmap and is not excluded. */
  predicate Comparable(t: ImageTable, u: Url) {
    u in t.arrays && t.arrays[u].Some? && !IsExcluded(u)
  }

  /** Both URLs take part and their bitmaps are equal. */
  predicate Identical(t: ImageTable, a: Url, b: Url) {
    Comparable(t, a) && Comparable(t, b) && t.arrays[a].value == t.arrays[b].value
  }

  /** The duplicates map relates `a` to `b`. */
  predicate Recorded(dups: map<Url, set<Url>>, a: Url, b: Url) {
    a in dups && b in dups[a]
  }

  /** `dups` is what the scan leaves: no empty entry, only keys of the table,
      and `order[p]` relates to `order[q]` exactly when `p < q` and their
      bitmaps are identical. */
  ghost predicate DuplicatesOf(t: ImageTable, dups: map<Url, set<Url>>) {
    && (forall a :: a in dups ==> dups[a] != {})
    && (forall a, b :: Recorded(dups, a, b) ==> a in t.arrays && b in t.arrays)
    && (forall p, q :: 0 <= p < |t.order| && 0 <= q < |t.order| ==>
          (Recorded(dups, t.order[p], t.order[q]) <==> p < q && Identical(t, t.order[p], t.order[q])))
  }

  /** `defaultdict(set)` insertion: `dups[a].add(b)`. */
  function AddPair(dups: map<Url, set<Url>>, a: Url, b: Url): (d: map<Url, set<Url>>)
    ensures forall x, y :: Recorded(d, x, y) <==> Recorded(dups, x, y) || (x == a && y == b)
    ensures forall x :: x in d ==> x in dups || x == a
    ensures forall x :: x in dups ==> x in d
    ensures a in d && d[a] != {}
    ensures forall x :: x in dups && x != a ==> d[x] == dups[x]
  {
    dups[a := (if a in dups then dups[a] else {}) + {b}]
  }

  /** The scan has compared every URL before position `i` with the whole
      table, and `order[i]` with the URLs before position `j`. `checked`
      holds exactly the recorded pairs. */
  ghost predicate Scanned(t: ImageTable, dups: map<Url, set<Url>>, checked: set<(Url, Url)>, i: int, j: int) {
    && (forall a :: a in dups ==> dups[a] != {})
    && (forall a, b :: Recorded(dups, a, b) ==> a in t.arrays && b in t.arrays)
    && (forall a, b :: (a, b) in checked <==> Recorded(dups, a, b))
    && (forall p, q :: 0 <= p < |t.order| && 0 <= q < |t.order| ==>
          (Recorded(dups, t.order[p], t.order[q]) <==>
            (p < i && p < q && Identical(t, t.order[p], t.order[q]))
            || (p == i && i < q < j && Identical(t, t.order[p], t.order[q]))))
  }

  /** The pairwise scan. `checked` holds the pairs recorded so far, so the
      pair (b, a) is skipped once (a, b) is in; each URL is compared with
      every other URL of the table, including those before it. */
  method FindDuplicates(t: ImageTable) returns (dups: map<Url, set<Url>>)
    requires t.Valid()
    ensures DuplicatesOf(t, dups)
  {
    dups := map[];
    var checked: set<(Url, Url)> := {};
    for i := 0 to |t.order|
      invariant Scanned(t, dups, checked, i, 0)
    {
      dups, checked := ScanRow(t, i, dups, checked);
    }
  }

  /** One pass of the outer loop: compares the URL at position `i` with every
      URL of the table, unless it has no bitmap or is excluded. */
  method ScanRow(t: ImageTable, i: nat, dups0: map<Url, set<Url>>, checked0: set<(Url, Url)>)
    returns (dups: map<Url, set<Url>>, checked: set<(Url, Url)>)
    requires t.Valid() && i < |t.order|
    requires Scanned(t, dups0, checked0, i, 0)
    ensures Scanned(t, dups, checked, i + 1, 0)
  {
    dups, checked := dups0, checked0;
    var n := |t.order|;
    var url1 := t.order[i];
    var img1 := t.arrays[url1];
    if img1.None? || IsExcluded(url1) {
      RowDone(t, dups, checked, i, 0);
      return;
    }
    for j := 0 to n
      invariant Scanned(t, dups, checked, i, j)
    {
      var url2 := t.order[j];
      if url1 == url2 || (url2, url1) in checked {
        SkipStep(t, dups, checked, i, j);
        continue;
      }
      var img2 := t.arrays[url2];
      if img2.None? || IsExcluded(url2) {
        SkipStep(t, dups, checked, i, j);
        continue;
      }
      var diff := SumAbsDiff(img1.value, img2.value);
      SumAbsDiffZeroIffEqual(img1.value, img2.value);
      if diff == 0 {
        AddStep(t, dups, checked, i, j);
        dups := AddPair(dups, url1, url2);
        checked := checked + {(url1, url2)};
      } else {
        SkipStep(t, dups, checked, i, j);
      }
    }
    RowDone(t, dups, checked, i, n);
  }

  /** A comparison that records nothing extends the scan by one column: the
      pair is the URL with itself, the mirror of a recorded pair, or not
      identical. */
  lemma SkipStep(t: ImageTable, dups: map<Url, set<Url>>, checked: set<(Url, Url)>, i: nat, j: nat)
    requires t.Valid() && i < |t.order| && j < |t.order|
    requires Scanned(t, dups, checked, i, j)
    requires t.order[i] == t.order[j] || (t.order[j], t.order[i]) in checked || !Identical(t, t.order[i], t.order[j])
    ensures Scanned(t, dups, checked, i, j + 1)
  {
    if t.order[i] == t.order[j] {
      assert i == j;
    } else if (t.order[j], t.order[i]) in checked {
      assert Recorded(dups, t.order[j], t.order[i]);
      assert j < i;
    }
  }

  /** Recording a later identical URL extends the scan by one column. */
  lemma AddStep(t: ImageTable, dups: map<Url, set<Url>>, checked: set<(Url, Url)>, i: nat, j: nat)
    requires t.Valid() && i < |t.order| && j < |t.order|
    requires Scanned(t, dups, checked, i, j)
    requires t.order[i] != t.order[j] && (t.order[j], t.order[i]) !in checked
    requires Identical(t, t.order[i], t.order[j])
    ensures Scanned(t, AddPair(dups, t.order[i], t.order[j]), checked + {(t.order[i], t.order[j])}, i, j + 1)
  {
    assert !Recorded(dups, t.order[j], t.order[i]);
    assert i < j;
  }

  /** A finished row, or the row of a URL that takes no part, completes row `i`. */
  lemma RowDone(t: ImageTable, dups: map<Url, set<Url>>, checked: set<(Url, Url)>, i: nat, j: nat)
    requires t.Valid() && i < |t.order|
    requires Scanned(t, dups, checked, i, j)
    requires j == |t.order| || (j == 0 && !Comparable(t, t.order[i]))
    ensures Scanned(t, dups, checked, i + 1, 0)
  {
  }

  /** The URL-level reading of the scan's result: no URL is paired with
      itself, every recorded pair has identical bitmaps on comparable URLs,
      a pair is never recorded in both directions, and every pair of
      distinct identical URLs is recorded in one direction. */
  lemma DuplicatePairs(t: ImageTable, dups: map<Url, set<Url>>, a: Url, b: Url)
    requires t.Valid() && DuplicatesOf(t, dups)
    ensures Recorded(dups, a, b) ==> a != b && Identical(t, a, b) && !Recorded(dups, b, a)
    ensures a != b && Identical(t, a, b) ==> Recorded(dups, a, b) || Recorded(dups, b, a)
  {
    if a in t.arrays && b in t.arrays {
      var p :| 0 <= p < |t.order| && t.order[p] == a;
      var q :| 0 <= q < |t.order| && t.order[q] == b;
      assert Recorded(dups, t.order[p], t.order[q]) <==> p < q && Identical(t, a, b);
      assert Recorded(dups, t.order[q], t.order[p]) <==> q < p && Identical(t, b, a);
    }
  }

  /** The report's duplicate list: the union of the map's values (not its
      keys), which the report lists. */
  function DuplicateValues(dups: map<Url, set<Url>>): set<Url> {
    set a, b | a in dups && b in dups[a] :: b
  }

  /** The URLs with an identical, comparable URL earlier in the table. */
  ghost function LaterCopies(t: ImageTable): set<Url> {
    set q | 0 <= q < |t.order| && (exists p :: 0 <= p < q && Identical(t, t.order[p], t.order[q])) :: t.order[q]
  }

  /** The report lists exactly the later copies: the first URL of a group of
      identical images is never listed, every other one is. The map is
      non-empty exactly when the list is. */
  lemma ReportedDuplicatesAreLaterCopies(t: ImageTable, dups: map<Url, set<Url>>)
    requires t.Valid() && DuplicatesOf(t, dups)
    ensures DuplicateValues(dups) == LaterCopies(t)
    ensures dups == map[] <==> DuplicateValues(dups) == {}
  {
    forall u | u in DuplicateValues(dups)
      ensures u in LaterCopies(t)
    {
      var a :| a in dups && u in dups[a];
      assert Recorded(dups, a, u);
      var p :| 0 <= p < |t.order| && t.order[p] == a;
      var q :| 0 <= q < |t.order| && t.order[q] == u;
      assert Recorded(dups, t.order[p], t.order[q]);
    }
    forall u | u in LaterCopies(t)
      ensures u in DuplicateValues(dups)
    {
      var q :| 0 <= q < |t.order| && t.order[q] == u
        && exists p :: 0 <= p < q && Identical(t, t.order[p], t.order[q]);
      var p :| 0 <= p < q && Identical(t, t.order[p], t.order[q]);
      assert Recorded(dups, t.order[p], t.order[q]);
    }
    if dups != map[] {
      var a :| a in dups;
      var b :| b in dups[a];
      assert b in DuplicateValues(dups);
    }
  }

  /** Two all-black images are duplicates; an all-white one is not among them. */
  lemma ExampleBlackPairWhiteSingle(dups: map<Url, set<Url>>)
    requires DuplicatesOf(ImageTable(["a", "b", "c"], map["a" := Some(Black), "b" := Some(Black), "c" := Some(White)]), dups)
    ensures dups == map["a" := {"b"}]
  {
    var t := ImageTable(["a", "b", "c"], map["a" := Some(Black), "b" := Some(Black), "c" := Some(White)]);
    forall u | u in {"a", "b", "c"}
      ensures !IsExcluded(u)
    {
      NotContainsLonger(u, ExcludedDomains[0]);
    }
    assert Black != White by {
      assert Black[0] != White[0];
    }
    assert Recorded(dups, t.order[0], t.order[1]);
    assert !Recorded(dups, t.order[0], t.order[2]);
    assert !Recorded(dups, t.order[1], t.order[2]);
    assert !Recorded(dups, t.order[1], t.order[0]);
    assert !Recorded(dups, t.order[2], t.order[0]);
    assert !Recorded(dups, t.order[2], t.order[1]);
    assert !Recorded(dups, t.order[0], t.order[0]);
    forall x, y | Recorded(dups, x, y)
      ensures x == "a" && y == "b"
    {
      assert x in t.arrays && y in t.arrays;
    }
    forall x | x in dups
      ensures x == "a"
    {
      var y :| y in dups[x];
      assert Recorded(dups, x, y);
    }
    assert dups.Keys == {"a"};
    forall y | y in dups["a"]
      ensures y == "b"
    {
      assert Recorded(dups, "a", y);
    }
    assert dups["a"] == {"b"};
  }
}
