/** The study-plan screen as a state machine: the selected day index and the
    list of completed day indices, changed only by the three buttons. */
module StudyApp {
  import opened Seqs
  import opened Plan
  import Navigation
  import Completion
  import Progress

  /** The two pieces of screen state. */
  datatype ViewState = ViewState(day: int, completed: seq<int>)

  /** The three buttons. "Mark as Completed / Incomplete" always acts on the
      selected day. */
  datatype Action = Previous | Next | ToggleCurrent

  /** The state when the screen first appears. */
  function Init(): (r: ViewState)
    ensures Valid(r)
    ensures r.day == 0 && |r.completed| == 0
  {
    ViewState(0, [])
  }

  /** The state invariant: the selected index can be dereferenced, and the
      completed list is a duplicate-free list of valid indices. */
  predicate Valid(s: ViewState) {
    && 0 <= s.day < N
    && Distinct(s.completed)
    && forall x :: x in s.completed ==> 0 <= x < N
  }

  /** One button press. Each button changes only its own piece of state, and
      every press keeps the invariant. */
  function Step(s: ViewState, a: Action): (r: ViewState)
    ensures a != ToggleCurrent ==> r.completed == s.completed
    ensures a == ToggleCurrent ==> r.day == s.day
    ensures Valid(s) ==> Valid(r)
  {
    match a
    case Previous => s.(day := Navigation.Prev(s.day, N))
    case Next => s.(day := Navigation.Next(s.day, N))
    case ToggleCurrent => s.(completed := Completion.Toggle(s.completed, s.day))
  }

  /** A sequence of button presses, applied in order. */
  function Run(s: ViewState, acts: seq<Action>): ViewState
    decreases |acts|
  {
    if |acts| == 0 then s else Run(Step(s, acts[0]), acts[1..])
  }

  /** Every state reachable from a valid state by button presses is valid. */
  lemma {:induction false} RunKeepsValid(s: ViewState, acts: seq<Action>)
    requires Valid(s)
    ensures Valid(Run(s, acts))
    decreases |acts|
  {
    if |acts| > 0 {
      RunKeepsValid(Step(s, acts[0]), acts[1..]);
    }
  }

  /** Every state the screen can reach is valid: the selected index never
      leaves `[0, 14)` and the completed list never holds a duplicate. */
  lemma Reachable(acts: seq<Action>)
    ensures Valid(Run(Init(), acts))
  {
    RunKeepsValid(Init(), acts);
  }

  /** The lesson displayed for the selected day. */
  function CurrentLesson(s: ViewState): (l: Lesson)
    requires Valid(s)
    ensures l.day == s.day + 1
    ensures l.section in Sections
  {
    PlanWellFormed();
    StudyPlan[s.day]
  }

  /** Whether the selected day is marked done (chooses the button's label). In
      a valid state this is exactly whether the displayed lesson is counted in
      its section's completed bar. */
  predicate IsCompleted(s: ViewState): (b: bool)
    ensures Valid(s) ==> (b <==> s.day in Progress.DoneIndices(StudyPlan, StudyPlan[s.day].section, s.completed))
  {
    s.day in s.completed
  }

  /** Pressing the toggle flips the selected day's mark and no other day's. */
  lemma ToggleFlipsCurrent(s: ViewState)
    ensures IsCompleted(Step(s, ToggleCurrent)) == !IsCompleted(s)
    ensures forall k :: k != s.day ==> (k in Step(s, ToggleCurrent).completed <==> k in s.completed)
  {
  }

  /** The chart data for a state. */
  function Chart(s: ViewState): seq<Progress.Entry> {
    Progress.ProgressData(StudyPlan, Sections, s.completed)
  }

  /** In every valid state the chart's totals add up to the fourteen lessons
      and its completed counts add up to the number of days marked done. */
  lemma ChartSums(s: ViewState)
    requires Valid(s)
    ensures Progress.SumTotals(Chart(s)) == N
    ensures Progress.SumCompleted(Chart(s)) == |s.completed|
  {
    PlanWellFormed();
    Progress.SumsOverSections(StudyPlan, Sections, s.completed);
    Progress.ListedBelowDistinct(N, s.completed);
  }

  /** The number of lessons in each section, in chart order. */
  lemma SectionTotals()
    ensures Progress.Total(StudyPlan, "Algebra") == 6
    ensures Progress.Total(StudyPlan, "Commercial Mathematics") == 1
    ensures Progress.Total(StudyPlan, "Geometry") == 2
    ensures Progress.Total(StudyPlan, "Statistics") == 2
    ensures Progress.Total(StudyPlan, "Coordinate Geometry") == 2
    ensures Progress.Total(StudyPlan, "Others") == 1
  {
    AlgebraTotal();
    CommercialMathematicsTotal();
    GeometryTotal();
    StatisticsTotal();
    CoordinateGeometryTotal();
    OthersTotal();
  }

  lemma AlgebraTotal()
    ensures Progress.Total(StudyPlan, "Algebra") == 6
  {
    Progress.TotalIsCardinality(StudyPlan, "Algebra");
    assert Progress.SectionIndices(StudyPlan, "Algebra") == {0, 1, 2, 3, 4, 5};
  }

  lemma CommercialMathematicsTotal()
    ensures Progress.Total(StudyPlan, "Commercial Mathematics") == 1
  {
    Progress.TotalIsCardinality(StudyPlan, "Commercial Mathematics");
    assert Progress.SectionIndices(StudyPlan, "Commercial Mathematics") == {6};
  }

  lemma GeometryTotal()
    ensures Progress.Total(StudyPlan, "Geometry") == 2
  {
    Progress.TotalIsCardinality(StudyPlan, "Geometry");
    assert Progress.SectionIndices(StudyPlan, "Geometry") == {7, 8};
  }

  lemma StatisticsTotal()
    ensures Progress.Total(StudyPlan, "Statistics") == 2
  {
    Progress.TotalIsCardinality(StudyPlan, "Statistics");
    assert Progress.SectionIndices(StudyPlan, "Statistics") == {9, 10};
  }

  lemma CoordinateGeometryTotal()
    ensures Progress.Total(StudyPlan, "Coordinate Geometry") == 2
  {
    Progress.TotalIsCardinality(StudyPlan, "Coordinate Geometry");
    assert Progress.SectionIndices(StudyPlan, "Coordinate Geometry") == {11, 12};
  }

  lemma OthersTotal()
    ensures Progress.Total(StudyPlan, "Others") == 1
  {
    Progress.TotalIsCardinality(StudyPlan, "Others");
    assert Progress.SectionIndices(StudyPlan, "Others") == {13};
  }

  /** With nothing marked done, no section has a completed lesson. */
  lemma NothingCompleted(sec: string)
    ensures Progress.Completed(StudyPlan, sec, []) == 0
  {
    Progress.CompletedIsCardinality(StudyPlan, sec, []);
    assert Progress.DoneIndices(StudyPlan, sec, []) == {};
  }

  /** The chart before anything is marked done. */
  lemma InitialChart()
    ensures Chart(Init()) == [
      Progress.Entry("Algebra", 6, 0),
      Progress.Entry("Commercial Mathematics", 1, 0),
      Progress.Entry("Geometry", 2, 0),
      Progress.Entry("Statistics", 2, 0),
      Progress.Entry("Coordinate Geometry", 2, 0),
      Progress.Entry("Others", 1, 0)
    ]
  {
    SectionTotals();
    forall j | 0 <= j < |Sections|
      ensures Chart(Init())[j] == Progress.Entry(Sections[j], Progress.Total(StudyPlan, Sections[j]), 0)
    {
      Progress.ProgressDataEntry(StudyPlan, Sections, [], j);
      NothingCompleted(Sections[j]);
    }
  }

  /** Previous from the first day shows the last day; Next from there returns
      to the first. */
  lemma WrapAroundScenario()
    ensures Step(Init(), Previous).day == 13
    ensures Step(Step(Init(), Previous), Next).day == 0
  {
  }

  /** Marking the first day done sets its flag and moves Algebra's completed
      count from 0 to 1. */
  lemma MarkFirstDayScenario()
    ensures Step(Init(), ToggleCurrent).completed == [0]
    ensures IsCompleted(Step(Init(), ToggleCurrent))
    ensures Chart(Step(Init(), ToggleCurrent))[0] == Progress.Entry("Algebra", 6, 1)
  {
    AlgebraTotal();
    Progress.ProgressDataEntry(StudyPlan, Sections, [0], 0);
    Progress.CompletedIsCardinality(StudyPlan, "Algebra", [0]);
    assert Progress.DoneIndices(StudyPlan, "Algebra", [0]) == {0};
  }

  /** Marking the first day done and then undone clears its flag again and
      brings Algebra's completed count back to 0. */
  lemma UnmarkFirstDayScenario()
    ensures Run(Init(), [ToggleCurrent, ToggleCurrent]).completed == []
    ensures !IsCompleted(Run(Init(), [ToggleCurrent, ToggleCurrent]))
    ensures Chart(Run(Init(), [ToggleCurrent, ToggleCurrent]))[0] == Progress.Entry("Algebra", 6, 0)
  {
    MarkFirstDayScenario();
    var once := Step(Init(), ToggleCurrent);
    var twice := Run(Init(), [ToggleCurrent, ToggleCurrent]);
    assert [ToggleCurrent, ToggleCurrent][1..] == [ToggleCurrent];
    assert twice == Step(once, ToggleCurrent);
    assert Completion.Toggle([0], 0) == [];
    AlgebraTotal();
    Progress.ProgressDataEntry(StudyPlan, Sections, [], 0);
    NothingCompleted("Algebra");
  }
}
