/**
 * The split screen (src/screens/SplitPdfScreen.js): a 1-indexed, ascending,
 * duplicate-free list of pages to extract; free users may only pick among the
 * first five page numbers.
 */
module SplitPdf {
  import opened Wrappers
  import opened Limits
  import opened Documents
  import ProContext

  ghost predicate Ascending(s: seq<int>)
  {
    forall k, l | 0 <= k < l < |s| :: s[k] < s[l]
  }

  ghost predicate Sorted(s: seq<int>)
  {
    forall k, l | 0 <= k < l < |s| :: s[k] <= s[l]
  }

  /** A smaller head in front of an ascending list keeps it ascending. */
  lemma ConsAscending(head: int, tail: seq<int>)
    requires Ascending(tail) && forall x | x in tail :: head < x
    ensures Ascending([head] + tail)
  {
    forall k, l | 0 <= k < l < |[head] + tail|
      ensures ([head] + tail)[k] < ([head] + tail)[l]
    {
      assert tail[l - 1] in tail;
    }
  }

  /** The sorted counterpart of ConsAscending. */
  lemma ConsSorted(head: int, tail: seq<int>)
    requires Sorted(tail) && forall x | x in tail :: head <= x
    ensures Sorted([head] + tail)
  {
    forall k, l | 0 <= k < l < |[head] + tail|
      ensures ([head] + tail)[k] <= ([head] + tail)[l]
    {
      assert tail[l - 1] in tail;
    }
  }

  /** Every later element of an ascending (sorted) list is above (not below) its head. */
  lemma HeadBelowTail(s: seq<int>)
    requires s != [] && Sorted(s)
    ensures forall x | x in s[1..] :: s[0] <= x
    ensures Ascending(s) ==> forall x | x in s[1..] :: s[0] < x
  {
    forall x | x in s[1..] ensures s[0] <= x && (Ascending(s) ==> s[0] < x) {
      var k :| 0 <= k < |s[1..]| && s[1..][k] == x;
      assert s[k + 1] == x;
    }
  }

  /** `prev.filter(p => p !== pageNumber)`. */
  function Without(prev: seq<int>, pageNumber: int): (r: seq<int>)
    ensures forall x :: x in r <==> x in prev && x != pageNumber
    ensures multiset(r) == multiset(prev)[pageNumber := 0]
  {
    if prev == [] then []
    else
      assert prev == [prev[0]] + prev[1..];
      if prev[0] == pageNumber then Without(prev[1..], pageNumber)
      else [prev[0]] + Without(prev[1..], pageNumber)
  }

  /** Filtering a concatenation filters each part in place, so the kept elements
      stay in their original order. */
  lemma {:induction false} WithoutAppend(a: seq<int>, b: seq<int>, pageNumber: int)
    ensures Without(a + b, pageNumber) == Without(a, pageNumber) + Without(b, pageNumber)
  {
    if a != [] {
      assert (a + b)[1..] == a[1..] + b;
      WithoutAppend(a[1..], b, pageNumber);
    } else {
      assert a + b == b;
    }
  }

  /** Filtering an ascending list leaves it ascending. */
  lemma {:induction false} WithoutAscending(prev: seq<int>, pageNumber: int)
    requires Ascending(prev)
    ensures Ascending(Without(prev, pageNumber))
  {
    if prev != [] {
      WithoutAscending(prev[1..], pageNumber);
      if prev[0] != pageNumber {
        HeadBelowTail(prev);
        ConsAscending(prev[0], Without(prev[1..], pageNumber));
      }
    }
  }

  /** `[...prev, pageNumber].sort((a, b) => a - b)` for an already sorted `prev`:
      prev with pageNumber added, placed before the first element not below it. */
  function SortedInsert(prev: seq<int>, pageNumber: int): (r: seq<int>)
    ensures multiset(r) == multiset(prev + [pageNumber])
  {
    if prev == [] then [pageNumber]
    else if pageNumber <= prev[0] then [pageNumber] + prev
    else
      assert prev + [pageNumber] == [prev[0]] + (prev[1..] + [pageNumber]);
      [prev[0]] + SortedInsert(prev[1..], pageNumber)
  }

  /** The insertion holds exactly prev's elements and pageNumber. */
  lemma SortedInsertMembers(prev: seq<int>, pageNumber: int)
    ensures forall x :: x in SortedInsert(prev, pageNumber) <==> x in prev || x == pageNumber
  {
    var r := SortedInsert(prev, pageNumber);
    forall x ensures x in r <==> x in prev || x == pageNumber {
      calc {
        x in r;
        x in multiset(r);
        x in multiset(prev + [pageNumber]);
        x in prev + [pageNumber];
      }
    }
  }

  /** The insertion stays sorted. */
  lemma {:induction false} SortedInsertSorted(prev: seq<int>, pageNumber: int)
    requires Sorted(prev)
    ensures Sorted(SortedInsert(prev, pageNumber))
  {
    if prev != [] {
      HeadBelowTail(prev);
      if pageNumber > prev[0] {
        SortedInsertSorted(prev[1..], pageNumber);
        SortedInsertMembers(prev[1..], pageNumber);
        ConsSorted(prev[0], SortedInsert(prev[1..], pageNumber));
      } else {
        ConsSorted(pageNumber, prev);
      }
    }
  }

  /** Inserting a page number that is absent keeps an ascending list ascending. */
  lemma {:induction false} SortedInsertAscending(prev: seq<int>, pageNumber: int)
    requires Ascending(prev) && pageNumber !in prev
    ensures Ascending(SortedInsert(prev, pageNumber))
  {
    if prev != [] {
      HeadBelowTail(prev);
      if pageNumber > prev[0] {
        SortedInsertAscending(prev[1..], pageNumber);
        SortedInsertMembers(prev[1..], pageNumber);
        ConsAscending(prev[0], SortedInsert(prev[1..], pageNumber));
      } else {
        assert prev[0] in prev;
        ConsAscending(pageNumber, prev);
      }
    }
  }

  /** The list `togglePage(pageNumber)` stores when the page is accepted. */
  function Toggled(prev: seq<int>, pageNumber: int): (r: seq<int>)
    ensures forall x :: x in r <==> (x in prev <==> x != pageNumber)
  {
    if pageNumber in prev then Without(prev, pageNumber)
    else SortedInsertMembers(prev, pageNumber); SortedInsert(prev, pageNumber)
  }

  /** Two ascending lists with the same elements are the same list. */
  lemma {:induction false} AscendingUnique(a: seq<int>, b: seq<int>)
    requires Ascending(a) && Ascending(b)
    requires forall x :: x in a <==> x in b
    ensures a == b
  {
    if a != [] { assert a[0] in a; }
    if b != [] { assert b[0] in b; }
    if a != [] && b != [] {
      HeadBelowTail(a);
      HeadBelowTail(b);
      assert a[0] == b[0];
      forall x
        ensures x in a[1..] <==> x in b[1..]
      {
        if x in a[1..] { assert x in b; }
        if x in b[1..] { assert x in a; }
      }
      AscendingUnique(a[1..], b[1..]);
      assert a == [a[0]] + a[1..] && b == [b[0]] + b[1..];
    }
  }

  /** Toggling keeps the list ascending and flips exactly the membership of pageNumber. */
  lemma {:induction false} ToggledShape(prev: seq<int>, pageNumber: int)
    requires Ascending(prev)
    ensures Ascending(Toggled(prev, pageNumber))
    ensures forall x :: x in Toggled(prev, pageNumber) <==> (x in prev <==> x != pageNumber)
  {
    if pageNumber in prev {
      WithoutAscending(prev, pageNumber);
    } else {
      SortedInsertMembers(prev, pageNumber);
      SortedInsertAscending(prev, pageNumber);
    }
  }

  /** Toggling the same page twice restores the list. */
  lemma ToggleTwice(prev: seq<int>, pageNumber: int)
    requires Ascending(prev)
    ensures Ascending(Toggled(prev, pageNumber))
    ensures Toggled(Toggled(prev, pageNumber), pageNumber) == prev
  {
    ToggledShape(prev, pageNumber);
    var once := Toggled(prev, pageNumber);
    ToggledShape(once, pageNumber);
    AscendingUnique(Toggled(once, pageNumber), prev);
  }

  /** [1, 2, ..., max]: `Array.from({ length: max }, (_, i) => i + 1)`. */
  function FirstPages(max: nat): (r: seq<int>)
    ensures |r| == max && forall k | 0 <= k < max :: r[k] == k + 1
  {
    seq(max, i => i + 1)
  }

  /** The `max` of `selectAll`. */
  function SelectAllCount(pageCount: nat, isPro: bool): (max: nat)
    ensures max <= pageCount
    ensures isPro ==> max == pageCount
    ensures !isPro ==> max <= FreeLimit(SplitPdfPages) && (pageCount <= FreeLimit(SplitPdfPages) ==> max == pageCount)
  {
    if isPro then pageCount
    else if pageCount < FreeLimit(SplitPdfPages) then pageCount else FreeLimit(SplitPdfPages)
  }

  /** `selectedPages.map(p => p - 1)`: the 0-based indices handed to copyPages. */
  function PageIndices(selected: seq<int>): (r: seq<int>)
    ensures |r| == |selected| && forall k | 0 <= k < |r| :: r[k] == selected[k] - 1
  {
    seq(|selected|, k requires 0 <= k < |selected| => selected[k] - 1)
  }

  /** The indices are in the document and ascending, so the output follows source order. */
  lemma PageIndicesAscending(selected: seq<int>, pageCount: nat)
    requires Ascending(selected) && forall p | p in selected :: 1 <= p <= pageCount
    ensures Ascending(PageIndices(selected))
    ensures forall k | 0 <= k < |selected| :: 0 <= PageIndices(selected)[k] < pageCount
  {
    assert forall k | 0 <= k < |selected| :: selected[k] in selected;
  }

  class SplitPdfScreen {
    var selectedPdf: Option<Document>
    var selectedPages: seq<int>

    /** Selected page numbers are ascending and name pages of the loaded document. */
    ghost predicate Valid()
      reads this
    {
      && Ascending(selectedPages)
      && (selectedPdf.None? ==> selectedPages == [])
      && (selectedPdf.Some? ==> forall p | p in selectedPages :: 1 <= p <= |selectedPdf.value|)
    }

    constructor ()
      ensures Valid() && selectedPdf == None && selectedPages == []
    {
      selectedPdf := None;
      selectedPages := [];
    }

    /** `pickPdf()`: `loaded` is the parsed file, None when cancelled or on an error. */
    method PickPdf(loaded: Option<Document>)
      requires Valid()
      modifies this
      ensures Valid()
      ensures loaded.Some? ==> selectedPdf == loaded && selectedPages == []
      ensures loaded.None? ==> selectedPdf == old(selectedPdf) && selectedPages == old(selectedPages)
    {
      if loaded.Some? {
        selectedPdf := loaded;
        selectedPages := [];
      }
    }

    /** `togglePage(pageNumber)` for a page of the grid (numbered from 1). */
    method TogglePage(isPro: bool, pageNumber: int) returns (rejected: bool)
      requires Valid() && selectedPdf.Some? && 1 <= pageNumber <= |selectedPdf.value|
      modifies this
      ensures Valid() && selectedPdf == old(selectedPdf)
      ensures rejected <==> !isPro && pageNumber > FreeLimit(SplitPdfPages)
      ensures rejected ==> selectedPages == old(selectedPages)
      ensures !rejected ==> selectedPages == Toggled(old(selectedPages), pageNumber)
      ensures !isPro && (forall p | p in old(selectedPages) :: p <= FreeLimit(SplitPdfPages)) ==>
                forall p | p in selectedPages :: p <= FreeLimit(SplitPdfPages)
    {
      if !isPro && pageNumber > FreeLimit(SplitPdfPages) {
        return true;
      }
      rejected := false;
      ToggledShape(selectedPages, pageNumber);
      selectedPages := Toggled(selectedPages, pageNumber);
    }

    /** `selectAll()`: nothing without a document. */
    method SelectAll(isPro: bool)
      requires Valid()
      modifies this
      ensures Valid() && selectedPdf == old(selectedPdf)
      ensures selectedPdf.None? ==> selectedPages == old(selectedPages)
      ensures selectedPdf.Some? ==> selectedPages == FirstPages(SelectAllCount(|selectedPdf.value|, isPro))
      ensures !isPro ==> forall p | p in selectedPages :: p <= FreeLimit(SplitPdfPages)
    {
      if selectedPdf.None? {
        return;
      }
      var max := SelectAllCount(|selectedPdf.value|, isPro);
      selectedPages := FirstPages(max);
    }

    /** `deselectAll()`. */
    method DeselectAll()
      requires Valid()
      modifies this
      ensures Valid() && selectedPdf == old(selectedPdf) && selectedPages == []
    {
      selectedPages := [];
    }

    /** `splitPdf()`: `readOk` and `writeOk` are the file read/parse and save/write outcomes,
        `usageWriteOk` the usage persistence and `shareOk` the share step. */
    method SplitPdf(ledger: ProContext.ProProvider, readOk: bool, writeOk: bool, usageWriteOk: bool,
                    shareOk: bool)
      returns (outcome: Outcome)
      requires Valid()
      modifies ledger
      ensures Valid()
      ensures selectedPdf.None? || selectedPages == [] ==> outcome == Refused(NoPdfSelected)
      ensures selectedPdf.Some? && selectedPages != [] && !old(ledger.Allowed(SplitPdfPages)) ==>
                outcome == Refused(DailyLimit)
      ensures var written := selectedPdf.Some? && selectedPages != [] && old(ledger.Allowed(SplitPdfPages))
                             && readOk && writeOk;
              && (outcome.Done? <==> written && shareOk)
              && (ledger.usage == if written && !old(ledger.isPro) && usageWriteOk
                                  then ProContext.IncrementedUsage(old(ledger.usage), SplitPdfPages)
                                  else old(ledger.usage))
              && (ledger.storedUsage ==
                    if written && !old(ledger.isPro) && usageWriteOk
                    then Some(ProContext.Persisted(ProContext.IncrementedUsage(old(ledger.usage), SplitPdfPages)))
                    else old(ledger.storedUsage))
      ensures outcome.Done? ==>
                && |outcome.doc| == |selectedPages|
                && forall k | 0 <= k < |selectedPages| ::
                     1 <= selectedPages[k] <= |selectedPdf.value|
                     && outcome.doc[k] == selectedPdf.value[selectedPages[k] - 1]
      ensures ledger.isPro == old(ledger.isPro) && ledger.storedPro == old(ledger.storedPro)
      ensures ledger.isLoaded == old(ledger.isLoaded)
      ensures old(ledger.StraySlotUnset()) ==> ledger.StraySlotUnset()
    {
      if selectedPdf.None? || |selectedPages| == 0 {
        return Refused(NoPdfSelected);
      }
      if !ledger.Allowed(SplitPdfPages) {
        return Refused(DailyLimit);
      }
      if !readOk {
        return Failed;
      }
      var sourcePdf := selectedPdf.value;
      var pageIndices := PageIndices(selectedPages);
      PageIndicesAscending(selectedPages, |sourcePdf|);
      var newPdf := CopyPages(sourcePdf, pageIndices);
      if !writeOk {
        return Failed;
      }
      ledger.IncrementUsage(SplitPdfPages, usageWriteOk);
      if !shareOk {
        return Failed;
      }
      assert forall k | 0 <= k < |selectedPages| :: selectedPages[k] in selectedPages;
      outcome := Done(newPdf);
    }
  }
}
