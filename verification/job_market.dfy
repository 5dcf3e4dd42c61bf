/**
 * The driver `JobMarket.main` of test/matrix22/JobMarket.java: every
 * internship is offered every student in array order, then prints its
 * interview lines followed by one blank line. Output is returned as the
 * sequence of printed lines instead of being written to standard output.
 */
module JobMarket {
  import opened Wrappers
  import opened Grades
  import opened Students
  import opened Internships

  /** What the run prints, and whether it stopped on an exception. */
  datatype Transcript = Transcript(lines: seq<Line>, aborted: bool)

  /** Prints `second` after `first`; nothing follows an abort. */
  function Then(first: Transcript, second: Transcript): Transcript {
    if first.aborted then first
    else Transcript(first.lines + second.lines, second.aborted)
  }

  /** No entry of the student array is null. */
  predicate AllPresent(offered: seq<Option<Student>>) {
    forall k :: 0 <= k < |offered| ==> offered[k].Some?
  }

  /** The students of an array without nulls, in array order. */
  function Unwrap(offered: seq<Option<Student>>): (r: seq<Student>)
    requires AllPresent(offered)
    ensures |r| == |offered|
    ensures forall k :: 0 <= k < |r| ==> Some(r[k]) == offered[k]
  {
    if offered == [] then [] else [offered[0].value] + Unwrap(offered[1..])
  }

  /** The enrolment loop for one internship. When `addStudent` refuses a null
      entry, the failure message is built with `student.getName()` on that
      same null, so the run stops with a NullPointerException: `None`. */
  function Enrol(i: Internship, offered: seq<Option<Student>>): (r: Option<Internship>)
    ensures r.Some? <==> AllPresent(offered)
    ensures r.Some? ==> r.value == i.(students := i.students + Unwrap(offered))
    decreases |offered|
  {
    if offered == [] then Some(i)
    else
      var (added, i') := AddStudent(i, offered[0]);
      if !added then None
      else
        assert AllPresent(offered) <==> AllPresent(offered[1..]) by {
          if AllPresent(offered[1..]) {
            forall k | 0 <= k < |offered| ensures offered[k].Some? {
              if k > 0 { assert offered[k] == offered[1..][k - 1]; }
            }
          }
        }
        assert AllPresent(offered) ==>
          Unwrap(offered) == [offered[0].value] + Unwrap(offered[1..]);
        assert i'.students == i.students + [offered[0].value];
        Enrol(i', offered[1..])
  }

  /** The loop over internships in array order: enrol, print the interview
      lines, print a blank line. */
  function Run(offered: seq<Option<Student>>, internships: seq<Internship>): (r: Transcript)
    ensures AllPresent(offered) ==> !r.aborted
    ensures !AllPresent(offered) && internships != [] ==> r == Transcript([], true)
    ensures !AllPresent(offered) && internships == [] ==> r == Transcript([], false)
  {
    if internships == [] then Transcript([], false)
    else
      match Enrol(internships[0], offered)
      case None => Transcript([], true)
      case Some(enrolled) =>
        Then(Transcript(InterviewLines(enrolled) + [Blank], false), Run(offered, internships[1..]))
  }

  /** One internship prints its interview lines for the offered students,
      then a blank line. */
  lemma RunOne(offered: seq<Option<Student>>, i: Internship)
    requires AllPresent(offered)
    ensures Run(offered, [i])
            == Transcript(InterviewLines(i.(students := i.students + Unwrap(offered))) + [Blank], false)
  {
  }

  /** Internships are processed one after another in array order. */
  lemma {:induction false} RunAppend(offered: seq<Option<Student>>, a: seq<Internship>, b: seq<Internship>)
    ensures Run(offered, a + b) == Then(Run(offered, a), Run(offered, b))
  {
    if a == [] {
      assert a + b == b;
    } else {
      assert (a + b)[0] == a[0];
      assert (a + b)[1..] == a[1..] + b;
      match Enrol(a[0], offered)
      case None =>
      case Some(enrolled) =>
        RunAppend(offered, a[1..], b);
    }
  }

  // The fixed data of `main`.

  const Gigel: Student := NewStudent("Gigel", 10.0)
  const Dorel: Student := NewStudent("Dorel", 7.3)
  const Marcel: Student := NewStudent("Marcel", 8.4)
  const Ionel: Student := NewStudent("Ionel", 6.2)

  const Google: Internship := NewInternship("Google", 7.0)
  const Amazon: Internship := NewInternship("Amazon", 9.3)
  const Facebook: Internship := NewInternship("Facebook", 5.0)
  const Microsoft: Internship := NewInternship("Microsoft", 8.0)

  /** The student array; no entry is null. */
  const Offered: seq<Option<Student>> :=
    [Some(Gigel), Some(Dorel), Some(Marcel), Some(Ionel)]

  /** The internship array. */
  const Postings: seq<Internship> := [Google, Amazon, Facebook, Microsoft]

  /** `main` as the lines it prints. */
  function MarketOutput(): (r: Transcript)
    ensures !r.aborted
  {
    Run(Offered, Postings)
  }

  /** All eight inputs lie in range, so the stored grades are the literals. */
  lemma FixedGrades()
    ensures Gigel.grade == 10.0 && Dorel.grade == 7.3
    ensures Marcel.grade == 8.4 && Ionel.grade == 6.2
    ensures Google.minGrade == 7.0 && Amazon.minGrade == 9.3
    ensures Facebook.minGrade == 5.0 && Microsoft.minGrade == 8.0
  {
  }

  /** Every student is accepted, so the failure branch is never taken, and
      each internship's roster becomes the four students in array order. */
  lemma FixedRosters()
    ensures AllPresent(Offered)
    ensures Unwrap(Offered) == [Gigel, Dorel, Marcel, Ionel]
    ensures forall k :: 0 <= k < |Postings| ==>
              Enrol(Postings[k], Offered)
              == Some(Postings[k].(students := [Gigel, Dorel, Marcel, Ionel]))
  {
    assert Unwrap(Offered) == [Gigel, Dorel, Marcel, Ionel];
  }

  /** Selection over a roster of four, one student at a time. */
  lemma QualifiedFour(a: Student, b: Student, c: Student, d: Student, minGrade: real)
    ensures Qualified([a, b, c, d], minGrade)
            == (if a.grade >= minGrade then [a] else [])
               + (if b.grade >= minGrade then [b] else [])
               + (if c.grade >= minGrade then [c] else [])
               + (if d.grade >= minGrade then [d] else [])
  {
    assert [a, b, c, d] == [a] + [b] + [c] + [d];
    QualifiedAppend([a] + [b] + [c], [d], minGrade);
    QualifiedAppend([a] + [b], [c], minGrade);
    QualifiedAppend([a], [b], minGrade);
    QualifiedSingleton(a, minGrade);
    QualifiedSingleton(b, minGrade);
    QualifiedSingleton(c, minGrade);
    QualifiedSingleton(d, minGrade);
  }

  /** The enrolled students meeting threshold `minGrade`, given the outcome
      of each comparison. */
  lemma FixedSelection(minGrade: real)
    ensures Qualified(Unwrap(Offered), minGrade)
            == (if Gigel.grade >= minGrade then [Gigel] else [])
               + (if Dorel.grade >= minGrade then [Dorel] else [])
               + (if Marcel.grade >= minGrade then [Marcel] else [])
               + (if Ionel.grade >= minGrade then [Ionel] else [])
  {
    FixedRosters();
    QualifiedFour(Gigel, Dorel, Marcel, Ionel, minGrade);
  }

  /** Google (7) selects Gigel (10), Dorel (7.3) and Marcel (8.4), but not
      Ionel (6.2). */
  lemma GoogleSelects()
    ensures Qualified(Unwrap(Offered), Google.minGrade) == [Gigel, Dorel, Marcel]
  {
    FixedGrades();
    FixedSelection(Google.minGrade);
  }

  /** Amazon (9.3) selects only Gigel. */
  lemma AmazonSelects()
    ensures Qualified(Unwrap(Offered), Amazon.minGrade) == [Gigel]
  {
    FixedGrades();
    FixedSelection(Amazon.minGrade);
  }

  /** Facebook (5) selects all four. */
  lemma FacebookSelects()
    ensures Qualified(Unwrap(Offered), Facebook.minGrade) == [Gigel, Dorel, Marcel, Ionel]
  {
    FixedGrades();
    FixedSelection(Facebook.minGrade);
  }

  /** Microsoft (8) selects Gigel and Marcel; Dorel (7.3) and Ionel miss it. */
  lemma MicrosoftSelects()
    ensures Qualified(Unwrap(Offered), Microsoft.minGrade) == [Gigel, Marcel]
  {
    FixedGrades();
    FixedSelection(Microsoft.minGrade);
  }

  /** A fresh internship whose selection from the offered students is known
      prints one line per selected student, then a blank line. */
  lemma BlockOfSelection(offered: seq<Option<Student>>, i: Internship, selected: seq<Student>, expected: seq<Line>)
    requires AllPresent(offered)
    requires i.students == []
    requires Qualified(Unwrap(offered), i.minGrade) == selected
    requires |expected| == |selected|
    requires forall k :: 0 <= k < |selected| ==> expected[k] == Interview(selected[k].name, i.name)
    ensures Run(offered, [i]).lines == expected + [Blank]
  {
    RunOne(offered, i);
    var e := i.(students := i.students + Unwrap(offered));
    assert e.students == Unwrap(offered);
    assert InterviewLines(e) == expected;
  }

  lemma GoogleBlock()
    ensures Run(Offered, [Google]).lines
            == [Interview("Gigel", "Google"), Interview("Dorel", "Google"), Interview("Marcel", "Google"), Blank]
  {
    FixedRosters();
    GoogleSelects();
    BlockOfSelection(Offered, Google, [Gigel, Dorel, Marcel],
                     [Interview("Gigel", "Google"), Interview("Dorel", "Google"), Interview("Marcel", "Google")]);
  }

  lemma AmazonBlock()
    ensures Run(Offered, [Amazon]).lines == [Interview("Gigel", "Amazon"), Blank]
  {
    FixedRosters();
    AmazonSelects();
    BlockOfSelection(Offered, Amazon, [Gigel], [Interview("Gigel", "Amazon")]);
  }

  lemma FacebookBlock()
    ensures Run(Offered, [Facebook]).lines
            == [Interview("Gigel", "Facebook"), Interview("Dorel", "Facebook"),
                Interview("Marcel", "Facebook"), Interview("Ionel", "Facebook"), Blank]
  {
    FixedRosters();
    FacebookSelects();
    BlockOfSelection(Offered, Facebook, [Gigel, Dorel, Marcel, Ionel],
                     [Interview("Gigel", "Facebook"), Interview("Dorel", "Facebook"),
                      Interview("Marcel", "Facebook"), Interview("Ionel", "Facebook")]);
  }

  lemma MicrosoftBlock()
    ensures Run(Offered, [Microsoft]).lines
            == [Interview("Gigel", "Microsoft"), Interview("Marcel", "Microsoft"), Blank]
  {
    FixedRosters();
    MicrosoftSelects();
    BlockOfSelection(Offered, Microsoft, [Gigel, Marcel],
                     [Interview("Gigel", "Microsoft"), Interview("Marcel", "Microsoft")]);
  }

  /** Four internships print their blocks one after another. */
  lemma RunFour(offered: seq<Option<Student>>, a: Internship, b: Internship, c: Internship, d: Internship)
    ensures Run(offered, [a, b, c, d]).lines
            == Run(offered, [a]).lines + Run(offered, [b]).lines
               + Run(offered, [c]).lines + Run(offered, [d]).lines
  {
    assert [a, b, c, d] == [a] + [b] + [c] + [d];
    RunAppend(offered, [a] + [b] + [c], [d]);
    RunAppend(offered, [a] + [b], [c]);
    RunAppend(offered, [a], [b]);
  }

  /** The complete output of `main`: the four blocks in array order, each
      closed by a blank line, and no failure line. */
  lemma MarketOutputLines()
    ensures MarketOutput().lines ==
            [Interview("Gigel", "Google"), Interview("Dorel", "Google"), Interview("Marcel", "Google"), Blank]
            + [Interview("Gigel", "Amazon"), Blank]
            + [Interview("Gigel", "Facebook"), Interview("Dorel", "Facebook"),
               Interview("Marcel", "Facebook"), Interview("Ionel", "Facebook"), Blank]
            + [Interview("Gigel", "Microsoft"), Interview("Marcel", "Microsoft"), Blank]
  {
    FixedRosters();
    RunFour(Offered, Google, Amazon, Facebook, Microsoft);
    GoogleBlock();
    AmazonBlock();
    FacebookBlock();
    MicrosoftBlock();
  }
}
