/**
  * The filter drop-downs built as `["all", ...new Set(items.map(f).filter(Boolean))]`:
  * "all" first, then every non-empty value once, in order of first appearance.
  */
module Choices {
  import opened Wrappers
  import opened Seqs

  /** `a` is present at some position of `values` before one where `b` is present. */
  ghost predicate PresentBefore(values: seq<Option<string>>, a: string, b: string) {
    exists k, l :: 0 <= k < l < |values| && values[k] == Some(a) && values[l] == Some(b)
  }

  /** Any two entries of `r` come from positions of `values` in the same order. */
  ghost predicate InOrderOf(r: seq<string>, values: seq<Option<string>>) {
    forall i, j :: 0 <= i < j < |r| ==> PresentBefore(values, r[i], r[j])
  }

  /** `values.filter(Boolean)` on optional strings: the present, non-empty ones, in order. */
  function PresentValues(values: seq<Option<string>>): (r: seq<string>)
    ensures forall j :: 0 <= j < |r| ==> r[j] != "" && Some(r[j]) in values
    ensures forall k :: 0 <= k < |values| && values[k].Some? && values[k].value != "" ==> values[k].value in r
    ensures InOrderOf(r, values)
  {
    if values == [] then []
    else
      var rest := PresentValues(values[1..]);
      assert forall k :: 1 <= k < |values| ==> values[k] == values[1..][k - 1];
      if values[0].Some? && values[0].value != "" then
        OrderAfterHead(values, rest);
        [values[0].value] + rest
      else
        OrderWithoutHead(values, rest);
        rest
  }

  /** Putting the first value in front of an ordered selection of the others keeps the order. */
  lemma OrderAfterHead(values: seq<Option<string>>, rest: seq<string>)
    requires |values| > 0 && values[0].Some?
    requires forall j :: 0 <= j < |rest| ==> Some(rest[j]) in values[1..]
    requires InOrderOf(rest, values[1..])
    ensures InOrderOf([values[0].value] + rest, values)
  {
    var r := [values[0].value] + rest;
    forall i, j | 0 <= i < j < |r|
      ensures PresentBefore(values, r[i], r[j])
    {
      if i == 0 {
        assert Some(rest[j - 1]) in values[1..];
        var l' :| 0 <= l' < |values[1..]| && values[1..][l'] == Some(rest[j - 1]);
        assert values[0] == Some(r[i]) && values[l' + 1] == Some(r[j]);
      } else {
        assert PresentBefore(values[1..], rest[i - 1], rest[j - 1]);
        var k', l' :| 0 <= k' < l' < |values[1..]| && values[1..][k'] == Some(rest[i - 1]) && values[1..][l'] == Some(rest[j - 1]);
        assert values[k' + 1] == Some(r[i]) && values[l' + 1] == Some(r[j]);
      }
    }
  }

  /** An ordered selection of the values after the first is ordered among all of them. */
  lemma OrderWithoutHead(values: seq<Option<string>>, rest: seq<string>)
    requires |values| > 0 && InOrderOf(rest, values[1..])
    ensures InOrderOf(rest, values)
  {
    forall i, j | 0 <= i < j < |rest|
      ensures PresentBefore(values, rest[i], rest[j])
    {
      assert PresentBefore(values[1..], rest[i], rest[j]);
      var k', l' :| 0 <= k' < l' < |values[1..]| && values[1..][k'] == Some(rest[i]) && values[1..][l'] == Some(rest[j]);
      assert values[k' + 1] == Some(rest[i]) && values[l' + 1] == Some(rest[j]);
    }
  }

  /** The drop-down: "all", then each non-empty value once, ordered by first appearance. */
  function WithAll(values: seq<Option<string>>): (r: seq<string>)
    ensures |r| >= 1 && r[0] == "all"
    ensures NoDuplicates(r[1..])
    ensures forall i :: 1 <= i < |r| ==> r[i] != "" && Some(r[i]) in values
    ensures forall k :: 0 <= k < |values| && values[k].Some? && values[k].value != "" ==> values[k].value in r[1..]
    ensures forall i :: 1 <= i < |r| ==> r[i] in PresentValues(values)
    ensures forall i, j :: 1 <= i < j < |r| ==>
              FirstIndex(PresentValues(values), r[i]) < FirstIndex(PresentValues(values), r[j])
  {
    var distinct := Distinct(PresentValues(values));
    var r := ["all"] + distinct;
    assert r[1..] == distinct;
    r
  }
}
