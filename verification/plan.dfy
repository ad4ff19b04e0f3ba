/** The fixed fourteen-day curriculum and the ordered list of its section labels. */
module Plan {
  import opened Seqs

  /** One lesson. `day` is the 1-based label shown on screen; `topic` is carried
      as an opaque label. The checklist lines of a lesson are display text only. */
  datatype Lesson = Lesson(day: int, topic: string, section: string)

  /** The section labels, in chart order. */
  const Sections: seq<string> := [
    "Algebra",
    "Commercial Mathematics",
    "Geometry",
    "Statistics",
    "Coordinate Geometry",
    "Others"
  ]

  /** The curriculum, one record per day, in display order. */
  const StudyPlan: seq<Lesson> := [
    Lesson(1, "Rational & Irrational Numbers", "Algebra"),
    Lesson(2, "Indices", "Algebra"),
    Lesson(3, "Expansions", "Algebra"),
    Lesson(4, "Factorisation", "Algebra"),
    Lesson(5, "Simultaneous Linear Equations", "Algebra"),
    Lesson(6, "Simultaneous Linear Equations (Contd.)", "Algebra"),
    Lesson(7, "Compound Interest", "Commercial Mathematics"),
    Lesson(8, "Pythagoras Theorem", "Geometry"),
    Lesson(9, "Circle", "Geometry"),
    Lesson(10, "Statistics – Mean", "Statistics"),
    Lesson(11, "Statistics – Median", "Statistics"),
    Lesson(12, "Coordinate Geometry – Distance Formula", "Coordinate Geometry"),
    Lesson(13, "Coordinate Geometry – Graphical Solution", "Coordinate Geometry"),
    Lesson(14, "Revision & Practice", "Others")
  ]

  /** The number of lessons: the modulus of day navigation. */
  const N: nat := |StudyPlan|

  /** The curriculum's own well-formedness: fourteen records, each labelled with
      its position plus one, each filed under a known section, and no section
      label listed twice. */
  lemma PlanWellFormed()
    ensures N == 14
    ensures forall i :: 0 <= i < N ==> StudyPlan[i].day == i + 1
    ensures forall i :: 0 <= i < N ==> StudyPlan[i].section in Sections
    ensures Distinct(Sections)
  {
  }
}
