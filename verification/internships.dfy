/** The `Internship` class of test/matrix22/Internship.java, as an immutable
    record whose operations return the updated record. */
module Internships {
  import opened Wrappers
  import opened Grades
  import opened Students

  /** `students` is the roster: insertion-ordered and append-only. */
  datatype Internship = Internship(name: string, minGrade: real, students: seq<Student>)

  /** The invariant a constructed internship keeps while only constructed
      students are added to it. */
  predicate ValidInternship(i: Internship) {
    && InRange(i.minGrade)
    && forall k :: 0 <= k < |i.students| ==> ValidStudent(i.students[k])
  }

  /** `new Internship(initName, initMinGrade)`: clamps the threshold with the
      same rule as a student's grade and starts with an empty roster. */
  function NewInternship(initName: string, initMinGrade: real): (i: Internship)
    ensures i.name == initName
    ensures i.minGrade == Clamp(initMinGrade)
    ensures InRange(initMinGrade) ==> i.minGrade == initMinGrade
    ensures i.students == []
    ensures ValidInternship(i)
  {
    Internship(initName, Clamp(initMinGrade), [])
  }

  /** `addStudent`: a null student is refused and nothing changes; any other
      student is appended (`List.add` always answers true). */
  function AddStudent(i: Internship, student: Option<Student>): (r: (bool, Internship))
    ensures r.0 <==> student.Some?
    ensures !r.0 ==> r.1 == i
    ensures r.0 ==> |r.1.students| == |i.students| + 1
    ensures r.0 ==> r.1.students[..|i.students|] == i.students
    ensures r.0 ==> r.1.students[|i.students|] == student.value
    ensures r.1.name == i.name && r.1.minGrade == i.minGrade
    ensures ValidInternship(i) && (student.Some? ==> ValidStudent(student.value))
            ==> ValidInternship(r.1)
  {
    match student
    case Some(s) => (true, i.(students := i.students + [s]))
    case None => (false, i)
  }

  /** `chooseCandidateRandomly`: `roll` stands for the value drawn from
      `Random.nextInt(size)`, which lies in [0, size). On an empty roster
      `nextInt(0)` throws, which is modelled as `None`. */
  function ChooseCandidateRandomly(i: Internship, roll: nat): (r: Option<Student>)
    requires |i.students| > 0 ==> roll < |i.students|
    ensures r.None? <==> |i.students| == 0
    ensures r.Some? ==> r.value in i.students
  {
    if |i.students| == 0 then None else Some(i.students[roll])
  }

  /** Every student on the roster is a possible outcome of the random choice. */
  lemma ChooseCandidateRandomlyReachesAll(i: Internship, s: Student)
    ensures s in i.students <==>
            exists roll: nat :: roll < |i.students| && ChooseCandidateRandomly(i, roll) == Some(s)
  {
    if s in i.students {
      var k :| 0 <= k < |i.students| && i.students[k] == s;
      assert ChooseCandidateRandomly(i, k) == Some(s);
    }
  }

  /** The students of `roster` that pass the inclusive threshold `minGrade`,
      in roster order. */
  function Qualified(roster: seq<Student>, minGrade: real): (q: seq<Student>)
    ensures |q| <= |roster|
  {
    if roster == [] then []
    else (if roster[0].grade >= minGrade then [roster[0]] else [])
         + Qualified(roster[1..], minGrade)
  }

  /** A student is selected exactly when it is on the roster and meets the
      inclusive threshold. */
  lemma {:induction false} QualifiedMembers(roster: seq<Student>, minGrade: real)
    ensures forall s :: s in Qualified(roster, minGrade) <==> s in roster && s.grade >= minGrade
  {
    if roster != [] {
      QualifiedMembers(roster[1..], minGrade);
      assert roster == [roster[0]] + roster[1..];
    }
  }

  /** Selection distributes over concatenation: together with the one-student
      case this fixes both the order and the multiplicity of the selection. */
  lemma {:induction false} QualifiedAppend(a: seq<Student>, b: seq<Student>, minGrade: real)
    ensures Qualified(a + b, minGrade) == Qualified(a, minGrade) + Qualified(b, minGrade)
  {
    if a == [] {
      assert a + b == b;
    } else {
      var head := if a[0].grade >= minGrade then [a[0]] else [];
      assert (a + b)[0] == a[0];
      assert (a + b)[1..] == a[1..] + b;
      assert Qualified(a + b, minGrade) == head + Qualified(a[1..] + b, minGrade);
      QualifiedAppend(a[1..], b, minGrade);
      assert Qualified(a, minGrade) == head + Qualified(a[1..], minGrade);
    }
  }

  /** Selection over a single student. */
  lemma QualifiedSingleton(s: Student, minGrade: real)
    ensures Qualified([s], minGrade) == if s.grade >= minGrade then [s] else []
  {
    assert [s][1..] == [];
  }

  /** A student occurs in the selection as often as on the roster when it
      passes the threshold, and not at all otherwise. */
  lemma {:induction false} QualifiedMultiplicity(roster: seq<Student>, minGrade: real, s: Student)
    ensures multiset(Qualified(roster, minGrade))[s]
            == if s.grade >= minGrade then multiset(roster)[s] else 0
  {
    if roster != [] {
      assert roster == [roster[0]] + roster[1..];
      QualifiedMultiplicity(roster[1..], minGrade, s);
    }
  }

  /** A line of standard output: an interview message, or the empty line
      printed by `System.out.println()`. */
  datatype Line = Interview(studentName: string, internshipName: string) | Blank

  /** The text of a line, as printed. */
  function Text(l: Line): (r: string)
    ensures l.Blank? ==> r == ""
    ensures l.Interview? ==> |r| == 40 + |l.studentName| + |l.internshipName|
    ensures l.Interview? ==> r[..11] == "Candidate [" && r[11..11 + |l.studentName|] == l.studentName
  {
    match l
    case Interview(s, n) => "Candidate [" + s + "] got a phone interview at [" + n + "]"
    case Blank => ""
  }

  /** The printed text still tells apart the students of one internship:
      different names give different text, and no interview text is empty. */
  lemma TextDistinguishesStudents(a: string, b: string, internshipName: string)
    ensures Text(Interview(a, internshipName)) == Text(Interview(b, internshipName)) ==> a == b
    ensures Text(Interview(a, internshipName)) != Text(Blank)
  {
    var pre := "Candidate [";
    var post := "] got a phone interview at [" + internshipName + "]";
    var la := Text(Interview(a, internshipName));
    var lb := Text(Interview(b, internshipName));
    assert la == pre + a + post;
    assert lb == pre + b + post;
    if la == lb {
      assert |a| == |b|;
      assert la[|pre|..|pre| + |a|] == a;
      assert lb[|pre|..|pre| + |b|] == b;
    }
  }

  /** The lines printed for `roster` by one pass of the interview loop. */
  function Lines(roster: seq<Student>, minGrade: real, internshipName: string): (r: seq<Line>)
    ensures |r| <= |roster|
  {
    if roster == [] then []
    else (if roster[0].grade >= minGrade then [Interview(roster[0].name, internshipName)] else [])
         + Lines(roster[1..], minGrade, internshipName)
  }

  lemma {:induction false} LinesAppend(a: seq<Student>, b: seq<Student>, minGrade: real, n: string)
    ensures Lines(a + b, minGrade, n) == Lines(a, minGrade, n) + Lines(b, minGrade, n)
  {
    if a == [] {
      assert a + b == b;
    } else {
      var head := if a[0].grade >= minGrade then [Interview(a[0].name, n)] else [];
      assert (a + b)[0] == a[0];
      assert (a + b)[1..] == a[1..] + b;
      assert Lines(a + b, minGrade, n) == head + Lines(a[1..] + b, minGrade, n);
      LinesAppend(a[1..], b, minGrade, n);
      assert Lines(a, minGrade, n) == head + Lines(a[1..], minGrade, n);
    }
  }

  /** The printed lines are the interview lines of the qualified students,
      one each, in the same order. */
  lemma {:induction false} LinesOfQualified(roster: seq<Student>, minGrade: real, n: string)
    ensures |Lines(roster, minGrade, n)| == |Qualified(roster, minGrade)|
    ensures forall k :: 0 <= k < |Lines(roster, minGrade, n)| ==>
              Lines(roster, minGrade, n)[k] == Interview(Qualified(roster, minGrade)[k].name, n)
  {
    if roster != [] {
      LinesOfQualified(roster[1..], minGrade, n);
    }
  }

  /** `chooseCandidatesForInterview` as the sequence of lines it prints. It
      reads the internship and returns no new one, so the roster, name and
      threshold are unchanged and a second call prints the same lines. */
  function InterviewLines(i: Internship): (r: seq<Line>)
    ensures |r| == |Qualified(i.students, i.minGrade)|
    ensures forall k :: 0 <= k < |r| ==>
              r[k] == Interview(Qualified(i.students, i.minGrade)[k].name, i.name)
  {
    LinesOfQualified(i.students, i.minGrade, i.name);
    Lines(i.students, i.minGrade, i.name)
  }

  /** A line for name `n` is printed exactly when some student of that name on
      the roster meets the threshold; in particular students below the
      threshold (and no namesake above it) get no line. */
  lemma InterviewLineFor(i: Internship, n: string)
    ensures Interview(n, i.name) in InterviewLines(i) <==>
            exists s :: s in i.students && s.name == n && s.grade >= i.minGrade
  {
    var q := Qualified(i.students, i.minGrade);
    var lines := InterviewLines(i);
    QualifiedMembers(i.students, i.minGrade);
    if Interview(n, i.name) in lines {
      var k :| 0 <= k < |lines| && lines[k] == Interview(n, i.name);
      assert q[k] in q;
    }
    if exists s :: s in i.students && s.name == n && s.grade >= i.minGrade {
      var s :| s in i.students && s.name == n && s.grade >= i.minGrade;
      assert s in q;
      var k :| 0 <= k < |q| && q[k] == s;
      assert lines[k] == Interview(n, i.name);
    }
  }

  /** Adding a student changes the printed lines only by appending that
      student's line, and only when it meets the threshold. */
  lemma InterviewAfterAdd(i: Internship, s: Student)
    ensures InterviewLines(AddStudent(i, Some(s)).1)
            == InterviewLines(i)
               + (if s.grade >= i.minGrade then [Interview(s.name, i.name)] else [])
  {
    LinesAppend(i.students, [s], i.minGrade, i.name);
  }

  /** The interview loop of `chooseCandidatesForInterview`, run over the roster
      in order. */
  method ChooseCandidatesForInterview(i: Internship) returns (lines: seq<Line>)
    ensures lines == InterviewLines(i)
    ensures forall s :: s in i.students && s.grade >= i.minGrade ==>
              Interview(s.name, i.name) in lines
  {
    lines := [];
    var k := 0;
    while k < |i.students|
      invariant 0 <= k <= |i.students|
      invariant lines == Lines(i.students[..k], i.minGrade, i.name)
    {
      var stud := i.students[k];
      LinesAppend(i.students[..k], [stud], i.minGrade, i.name);
      assert i.students[..k + 1] == i.students[..k] + [stud];
      if stud.grade >= i.minGrade {
        lines := lines + [Interview(stud.name, i.name)];
      }
      k := k + 1;
    }
    assert i.students[..k] == i.students;
    forall s | s in i.students && s.grade >= i.minGrade
      ensures Interview(s.name, i.name) in lines
    {
      InterviewLineFor(i, s.name);
    }
  }
}
