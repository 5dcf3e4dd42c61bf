/** The `Student` record of src/matrix22/Student.java. */
module Students {
  import opened Grades

  /** An immutable student: `name` and `grade` are the Java fields, and the
      Java accessors `getName` and `getGrade` are the datatype's destructors. */
  datatype Student = Student(name: string, grade: real)

  /** The grade invariant every constructed student keeps. */
  predicate ValidStudent(s: Student) {
    InRange(s.grade)
  }

  /** `new Student(initName, initGrade)`: the name is stored verbatim and the
      grade is clamped. */
  function NewStudent(initName: string, initGrade: real): (s: Student)
    ensures s.name == initName
    ensures ValidStudent(s)
    ensures InRange(initGrade) ==> s.grade == initGrade
    ensures s.grade == Clamp(initGrade)
  {
    Student(initName, Clamp(initGrade))
  }

  /** The argument of Java's `equals(Object)`: either a student, or anything
      else (null or an object of another class). */
  datatype Obj = StudentObj(student: Student) | OtherObj

  /** `equals`: compares names and stored grades of another student, and is
      false for every comparand that is not a student. */
  function Equals(self: Student, obj: Obj): (r: bool)
    ensures r <==> obj == StudentObj(self)
    ensures obj.OtherObj? ==> !r
  {
    match obj
    case StudentObj(stud) => stud.name == self.name && stud.grade == self.grade
    case OtherObj => false
  }

  lemma EqualsReflexive(a: Student)
    ensures Equals(a, StudentObj(a))
  {
  }

  lemma EqualsSymmetric(a: Student, b: Student)
    ensures Equals(a, StudentObj(b)) <==> Equals(b, StudentObj(a))
  {
  }

  lemma EqualsTransitive(a: Student, b: Student, c: Student)
    requires Equals(a, StudentObj(b)) && Equals(b, StudentObj(c))
    ensures Equals(a, StudentObj(c))
  {
  }

  /** Two constructed students are equal exactly when their names agree and
      their inputs clamp to the same grade, so for instance grades -3 and 0
      give equal students. */
  lemma EqualsOnConstruction(n1: string, g1: real, n2: string, g2: real)
    ensures Equals(NewStudent(n1, g1), StudentObj(NewStudent(n2, g2)))
            <==> n1 == n2 && Clamp(g1) == Clamp(g2)
  {
  }
}
