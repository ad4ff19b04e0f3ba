/** The per-section progress summary drawn by the bar chart: for each section
    label, in the given order, how many lessons it has and how many of those
    are marked completed. */
module Progress {
  import opened Seqs
  import opened Plan

  /** One bar group of the chart. */
  datatype Entry = Entry(section: string, total: nat, completed: nat)

  /** Number of lessons filed under `sec`. */
  function Total(plan: seq<Lesson>, sec: string): (r: nat)
    ensures r <= |plan|
  {
    if |plan| == 0 then 0
    else Total(plan[..|plan| - 1], sec) + (if plan[|plan| - 1].section == sec then 1 else 0)
  }

  /** Number of lessons filed under `sec` whose index is listed in `done`. */
  function Completed(plan: seq<Lesson>, sec: string, done: seq<int>): (r: nat)
    ensures r <= Total(plan, sec)
  {
    if |plan| == 0 then 0
    else
      Completed(plan[..|plan| - 1], sec, done)
      + (if plan[|plan| - 1].section == sec && |plan| - 1 in done then 1 else 0)
  }

  /** `sections.map(...)`: one entry per section label, in label order. */
  function ProgressData(plan: seq<Lesson>, secs: seq<string>, done: seq<int>): (r: seq<Entry>)
    ensures |r| == |secs|
    ensures forall j :: 0 <= j < |r| ==> r[j].section == secs[j]
    ensures forall j :: 0 <= j < |r| ==> r[j].completed <= r[j].total <= |plan|
  {
    if |secs| == 0 then []
    else
      [Entry(secs[0], Total(plan, secs[0]), Completed(plan, secs[0], done))]
      + ProgressData(plan, secs[1..], done)
  }

  /** The indices of the lessons filed under `sec`. */
  ghost function SectionIndices(plan: seq<Lesson>, sec: string): set<int> {
    set i | 0 <= i < |plan| && plan[i].section == sec
  }

  /** The indices of the lessons filed under `sec` that are listed in `done`. */
  ghost function DoneIndices(plan: seq<Lesson>, sec: string, done: seq<int>): set<int> {
    set i | 0 <= i < |plan| && plan[i].section == sec && i in done
  }

  /** `Total` agrees with the filter it models: the number of lessons filed
      under the section. */
  lemma {:induction false} TotalIsCardinality(plan: seq<Lesson>, sec: string)
    ensures Total(plan, sec) == |SectionIndices(plan, sec)|
  {
    if |plan| == 0 {
      assert SectionIndices(plan, sec) == {};
    } else {
      var n := |plan| - 1;
      var p := plan[..n];
      TotalIsCardinality(p, sec);
      var before, after := SectionIndices(p, sec), SectionIndices(plan, sec);
      assert n !in before;
      if plan[n].section == sec {
        assert after == before + {n};
      } else {
        assert after == before;
      }
    }
  }

  /** `Completed` agrees with the filter it models: the number of lessons
      filed under the section whose index is listed, each index counted once
      however often it is listed. */
  lemma {:induction false} CompletedIsCardinality(plan: seq<Lesson>, sec: string, done: seq<int>)
    ensures Completed(plan, sec, done) == |DoneIndices(plan, sec, done)|
  {
    if |plan| == 0 {
      assert DoneIndices(plan, sec, done) == {};
    } else {
      var n := |plan| - 1;
      var p := plan[..n];
      CompletedIsCardinality(p, sec, done);
      var before, after := DoneIndices(p, sec, done), DoneIndices(plan, sec, done);
      assert n !in before;
      if plan[n].section == sec && n in done {
        assert after == before + {n};
      } else {
        assert after == before;
      }
    }
  }

  /** Each entry of the summary counts exactly the matching lessons. */
  lemma ProgressDataCounts(plan: seq<Lesson>, secs: seq<string>, done: seq<int>, j: int)
    requires 0 <= j < |secs|
    ensures ProgressData(plan, secs, done)[j].total == |SectionIndices(plan, secs[j])|
    ensures ProgressData(plan, secs, done)[j].completed == |DoneIndices(plan, secs[j], done)|
  {
    ProgressDataEntry(plan, secs, done, j);
    TotalIsCardinality(plan, secs[j]);
    CompletedIsCardinality(plan, secs[j], done);
  }

  /** Entry `j` of the summary is built from section `j`. */
  lemma {:induction false} ProgressDataEntry(plan: seq<Lesson>, secs: seq<string>, done: seq<int>, j: int)
    requires 0 <= j < |secs|
    ensures ProgressData(plan, secs, done)[j]
         == Entry(secs[j], Total(plan, secs[j]), Completed(plan, secs[j], done))
  {
    if j > 0 {
      ProgressDataEntry(plan, secs[1..], done, j - 1);
    }
  }

  /** Sum of the `total` column. */
  function SumTotals(es: seq<Entry>): nat {
    if |es| == 0 then 0 else es[0].total + SumTotals(es[1..])
  }

  /** Sum of the `completed` column. */
  function SumCompleted(es: seq<Entry>): nat {
    if |es| == 0 then 0 else es[0].completed + SumCompleted(es[1..])
  }

  /** How many times `s` is listed in `secs`. */
  function Occurrences(secs: seq<string>, s: string): nat {
    if |secs| == 0 then 0 else (if secs[0] == s then 1 else 0) + Occurrences(secs[1..], s)
  }

  /** A label listed in a duplicate-free sequence is listed exactly once. */
  lemma {:induction false} OccursOnce(secs: seq<string>, s: string)
    requires Distinct(secs) && s in secs
    ensures Occurrences(secs, s) == 1
  {
    if secs[0] == s {
      NotOccurring(secs[1..], s);
    } else {
      OccursOnce(secs[1..], s);
    }
  }

  /** A label that is not listed occurs zero times. */
  lemma {:induction false} NotOccurring(secs: seq<string>, s: string)
    requires s !in secs
    ensures Occurrences(secs, s) == 0
  {
    if |secs| > 0 {
      NotOccurring(secs[1..], s);
    }
  }

  /** Adding one lesson at the end of the plan adds one to the `total` of every
      entry labelled with its section, and, when its index is listed, one to
      those entries' `completed`. */
  lemma {:induction false} ExtendPlan(p: seq<Lesson>, l: Lesson, secs: seq<string>, done: seq<int>)
    ensures SumTotals(ProgressData(p + [l], secs, done))
         == SumTotals(ProgressData(p, secs, done)) + Occurrences(secs, l.section)
    ensures SumCompleted(ProgressData(p + [l], secs, done))
         == SumCompleted(ProgressData(p, secs, done))
            + (if |p| in done then Occurrences(secs, l.section) else 0)
  {
    if |secs| > 0 {
      var q := p + [l];
      assert q[..|q| - 1] == p;
      ExtendPlan(p, l, secs[1..], done);
    }
  }

  /** Number of indices below `n` listed in `done`. */
  function ListedBelow(n: nat, done: seq<int>): nat {
    if n == 0 then 0 else ListedBelow(n - 1, done) + (if n - 1 in done then 1 else 0)
  }

  /** When every lesson is filed under a listed section and no section is
      listed twice, the chart's bars account for every lesson exactly once:
      the totals sum to the number of lessons and the completed counts sum to
      the number of lesson indices that are listed as done. */
  lemma {:induction false} SumsOverSections(plan: seq<Lesson>, secs: seq<string>, done: seq<int>)
    requires Distinct(secs)
    requires forall i :: 0 <= i < |plan| ==> plan[i].section in secs
    ensures SumTotals(ProgressData(plan, secs, done)) == |plan|
    ensures SumCompleted(ProgressData(plan, secs, done)) == ListedBelow(|plan|, done)
  {
    if |plan| == 0 {
      EmptyPlan(secs, done);
    } else {
      var n := |plan| - 1;
      var p := plan[..n];
      assert plan == p + [plan[n]];
      SumsOverSections(p, secs, done);
      ExtendPlan(p, plan[n], secs, done);
      OccursOnce(secs, plan[n].section);
    }
  }

  /** Over an empty plan every entry is zero. */
  lemma {:induction false} EmptyPlan(secs: seq<string>, done: seq<int>)
    ensures SumTotals(ProgressData([], secs, done)) == 0
    ensures SumCompleted(ProgressData([], secs, done)) == 0
  {
    if |secs| > 0 {
      EmptyPlan(secs[1..], done);
    }
  }

  /** Appending a new index in range adds one to the listed count. */
  lemma {:induction false} ListedBelowAppend(n: nat, d: seq<int>, x: int)
    requires x !in d
    ensures ListedBelow(n, d + [x]) == ListedBelow(n, d) + (if 0 <= x < n then 1 else 0)
  {
    if n > 0 {
      ListedBelowAppend(n - 1, d, x);
    }
  }

  /** A duplicate-free list of indices in `[0, n)` has all of its entries
      counted by `ListedBelow`. */
  lemma {:induction false} ListedBelowDistinct(n: nat, done: seq<int>)
    requires Distinct(done)
    requires forall x :: x in done ==> 0 <= x < n
    ensures ListedBelow(n, done) == |done|
  {
    if |done| == 0 {
      assert done == [];
      ListedBelowEmpty(n);
    } else {
      var m := |done| - 1;
      var d := done[..m];
      assert done == d + [done[m]];
      LastNotEarlier(done);
      assert forall x :: x in d ==> x in done;
      ListedBelowDistinct(n, d);
      ListedBelowAppend(n, d, done[m]);
      assert done[m] in done;
    }
  }

  /** Nothing is listed in an empty list. */
  lemma {:induction false} ListedBelowEmpty(n: nat)
    ensures ListedBelow(n, []) == 0
  {
    if n > 0 {
      ListedBelowEmpty(n - 1);
    }
  }
}
