/**
  * Row selection in the virtualized table: toggling one row, the header's
  * select-all toggle, and when the header checkbox shows as checked.
  * A selection is the list of selected row indices handed to the
  * `onSelectionChange` callback.
  */
module VirtualizedTable {
  import opened Wrappers
  import opened Seqs

  /**
    * `handleRowSelect(index)`: with no callback nothing is sent (`None`);
    * otherwise a selected index is removed wherever it occurs, and an
    * unselected one is appended. Membership of `index` flips, every other
    * index keeps its membership, and the order of the rest is kept.
    */
  function RowSelect(selected: seq<int>, hasCallback: bool, index: int): (r: Option<seq<int>>)
    ensures r.Some? <==> hasCallback
    ensures r.Some? ==> (index in r.value <==> index !in selected)
    ensures r.Some? ==> forall j :: j != index ==> (j in r.value <==> j in selected)
    ensures r.Some? && index in selected ==> IsSubsequence(r.value, selected)
    ensures r.Some? && index in selected ==> multiset(r.value) == multiset(selected)[index := 0]
    ensures r.Some? && index !in selected ==> |r.value| == |selected| + 1 && r.value[..|selected|] == selected
  {
    if !hasCallback then None
    else if index in selected then
      var kept := Filter(selected, Unequal(index));
      FilterOutCounts(selected, index);
      assert forall j :: j != index && j in selected ==> j in kept by {
        forall j | j != index && j in selected
          ensures j in kept
        {
          var k :| 0 <= k < |selected| && selected[k] == j;
        }
      }
      Some(kept)
    else
      Some(selected + [index])
  }

  /** Clicking the same row twice gives back the same set of selected rows. */
  lemma RowSelectTwice(selected: seq<int>, index: int)
    ensures var once := RowSelect(selected, true, index).value;
      forall j :: j in RowSelect(once, true, index).value <==> j in selected
  {
  }

  /** `data.map((_, index) => index)`: every row index of `n` rows, in order. */
  function AllRows(n: nat): (r: seq<int>)
    ensures |r| == n
    ensures forall i :: 0 <= i < n ==> r[i] == i
  {
    if n == 0 then [] else AllRows(n - 1) + [n - 1]
  }

  /**
    * `handleSelectAll`: when as many rows are selected as there are rows the
    * selection is cleared; otherwise every row is selected.
    */
  function SelectAll(selected: seq<int>, n: nat): (r: seq<int>)
    ensures |selected| == n ==> r == []
    ensures |selected| != n ==> |r| == n && forall i :: 0 <= i < n ==> r[i] == i
  {
    if |selected| == n then [] else AllRows(n)
  }

  /** The header checkbox: checked when the counts agree and there is at least one row. */
  predicate HeaderChecked(selected: seq<int>, n: nat) {
    |selected| == n && n > 0
  }

  // ---------------------------------------------------------------------------
  // The header checkbox counts, it does not look

  /** A selection that names each row of the table at most once. */
  predicate WellFormed(selected: seq<int>, n: nat) {
    NoDuplicates(selected) && forall k :: 0 <= k < |selected| ==> 0 <= selected[k] < n
  }

  lemma {:induction false} FilterNoDuplicates<T>(s: seq<T>, p: T -> bool)
    requires NoDuplicates(s)
    ensures NoDuplicates(Filter(s, p))
  {
    if s != [] {
      FilterNoDuplicates(s[1..], p);
      assert s[0] !in s[1..];
    }
  }

  /** Selecting rows of the table one click at a time keeps the selection well formed. */
  lemma RowSelectKeepsWellFormed(selected: seq<int>, n: nat, index: int)
    requires WellFormed(selected, n) && 0 <= index < n
    ensures WellFormed(RowSelect(selected, true, index).value, n)
  {
    var r := RowSelect(selected, true, index).value;
    if index in selected {
      FilterNoDuplicates(selected, Unequal(index));
    }
  }

  lemma SelectAllWellFormed(selected: seq<int>, n: nat)
    ensures WellFormed(SelectAll(selected, n), n)
  {
  }

  function Range(n: nat): (r: set<int>)
    ensures forall i :: i in r <==> 0 <= i < n
    ensures |r| == n
  {
    if n == 0 then {}
    else
      var r := Range(n - 1) + {n - 1};
      assert r == Range(n - 1) + {n - 1};
      r
  }

  function Elements(s: seq<int>): (e: set<int>)
    ensures forall x :: x in e <==> x in s
    ensures NoDuplicates(s) ==> |e| == |s|
  {
    if s == [] then {}
    else
      var rest := Elements(s[1..]);
      assert NoDuplicates(s) ==> NoDuplicates(s[1..]) && s[0] !in s[1..];
      {s[0]} + rest
  }

  /** A subset as large as its superset is the whole of it. */
  lemma SameSizeSubset(a: set<int>, b: set<int>)
    requires a <= b && |a| == |b|
    ensures a == b
  {
    assert b == a + (b - a);
    assert a * (b - a) == {};
    assert |b - a| == 0;
  }

  /**
    * For a well-formed selection the counting test is exact: the header is
    * checked exactly when the table has rows and every one of them is selected.
    */
  lemma HeaderCheckedIffAllSelected(selected: seq<int>, n: nat)
    requires WellFormed(selected, n)
    ensures HeaderChecked(selected, n) <==> n > 0 && forall i :: 0 <= i < n ==> i in selected
  {
    var e := Elements(selected);
    var all := Range(n);
    assert e <= all;
    if |selected| == n {
      SameSizeSubset(e, all);
    }
    if forall i :: 0 <= i < n ==> i in selected {
      assert all <= e;
      assert e == all;
    }
  }

  /** A selection holding a row twice fools the count: the header shows checked with row 1 unselected. */
  lemma DuplicateSelectionLooksComplete()
    ensures HeaderChecked([0, 0], 2) && 1 !in [0, 0]
  {
  }
}
