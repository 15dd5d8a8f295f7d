/** Required-field checks: each check pairs "was the field supplied" with
    the detail reported when it was not, and the report lists the failed
    checks in the order they were made. */
module Validation {

  import opened Wrappers

  datatype Requirement = Requirement(supplied: bool, detail: Detail)

  /** The details of the unmet requirements, in order. */
  function Missing(reqs: seq<Requirement>): seq<Detail> {
    if reqs == [] then []
    else (if reqs[0].supplied then [] else [reqs[0].detail]) + Missing(reqs[1..])
  }

  /** The report is empty exactly when every requirement is met; it never
      holds more entries than there are checks; and every requirement that
      is unmet contributes its detail. */
  lemma {:induction false} MissingSpec(reqs: seq<Requirement>)
    ensures Missing(reqs) == [] <==> forall i :: 0 <= i < |reqs| ==> reqs[i].supplied
    ensures |Missing(reqs)| <= |reqs|
    ensures forall i :: 0 <= i < |reqs| && !reqs[i].supplied ==> reqs[i].detail in Missing(reqs)
    ensures forall d :: d in Missing(reqs) ==> exists i :: 0 <= i < |reqs| && !reqs[i].supplied && reqs[i].detail == d
  {
    if reqs != [] {
      MissingSpec(reqs[1..]);
      var head := if reqs[0].supplied then [] else [reqs[0].detail];
      assert Missing(reqs) == head + Missing(reqs[1..]);
      forall i | 0 <= i < |reqs| && !reqs[i].supplied
        ensures reqs[i].detail in Missing(reqs)
      {
        if i > 0 {
          assert reqs[1..][i - 1] == reqs[i];
        }
      }
      forall d | d in Missing(reqs)
        ensures exists i :: 0 <= i < |reqs| && !reqs[i].supplied && reqs[i].detail == d
      {
        if d !in head {
          var j :| 0 <= j < |reqs[1..]| && !reqs[1..][j].supplied && reqs[1..][j].detail == d;
          assert reqs[j + 1] == reqs[1..][j];
        }
      }
    }
  }

  /** The report for a run of checks is the report for the first part
      followed by the report for the rest: checks made one after another
      append to one list. */
  lemma {:induction false} MissingAppend(a: seq<Requirement>, b: seq<Requirement>)
    ensures Missing(a + b) == Missing(a) + Missing(b)
  {
    if a != [] {
      assert (a + b)[1..] == a[1..] + b;
      MissingAppend(a[1..], b);
    } else {
      assert a + b == b;
    }
  }

  /** What one check adds to the report. */
  function Report(r: Requirement): seq<Detail> {
    if r.supplied then [] else [r.detail]
  }

  /** Two checks in a row report what each of them reports, in order. */
  lemma MissingTwo(a: Requirement, b: Requirement)
    ensures Missing([a, b]) == Report(a) + Report(b)
  {
    assert [b][1..] == [];
    assert Missing([b]) == Report(b);
    assert [a, b][1..] == [b];
  }

  /** Five checks in a row report what each of them reports, in order. */
  lemma MissingFive(a: Requirement, b: Requirement, c: Requirement, d: Requirement, e: Requirement)
    ensures Missing([a, b, c, d, e]) == Report(a) + Report(b) + Report(c) + Report(d) + Report(e)
  {
    assert [e][1..] == [];
    assert Missing([e]) == Report(e);
    assert [d, e][1..] == [e];
    assert Missing([d, e]) == Report(d) + Report(e);
    assert [c, d, e][1..] == [d, e];
    assert Missing([c, d, e]) == Report(c) + (Report(d) + Report(e));
    assert [b, c, d, e][1..] == [c, d, e];
    assert Missing([b, c, d, e]) == Report(b) + (Report(c) + (Report(d) + Report(e)));
    assert [a, b, c, d, e][1..] == [b, c, d, e];
  }
}
