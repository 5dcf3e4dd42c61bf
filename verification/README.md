# matrix22 job market, modelled in Dafny

A small program matches students to internships. A `Student` has a name and a
grade. An `Internship` has a name, a minimum grade and an append-only roster of
students. Both numbers go through the same clamp at construction: an input at or
below 0 becomes 1, an input above 10 becomes 10, and every other input is kept.
`chooseCandidatesForInterview` prints one line per roster student whose grade is
at least the minimum grade, in roster order. `JobMarket.main` builds four
students and four internships and offers every student to every internship.
For each internship it then prints the interview lines, followed by a blank
line.

The model is functional. Records are immutable datatypes. Operations that
mutate in Java return the updated record. Printing is replaced by returning the
sequence of printed lines.

- `grades.dfy` (`Grades`): the clamp and the range it guarantees.
- `students.dfy` (`Students`): the student record, its constructor and `equals`.
- `internships.dfy` (`Internships`): the internship record, `addStudent`,
  `chooseCandidateRandomly`, and the interview selection. The selection is
  given both as a recursive function and as the loop the Java method runs, and
  the two are proved equal.
- `job_market.dfy` (`JobMarket`): the enrolment loop, the run over all
  internships, and the fixed data of `main` with its exact output.
- `wrappers.dfy` (`Wrappers`): `Option`, standing in for Java references that
  may be null.

Output lines are the datatype `Line`. A line is either `Interview(student,
internship)` or `Blank`. `Text` renders a line as the program prints it:
`Candidate [<student>] got a phone interview at [<internship>]`, or the empty
string for a blank line.

Two behaviours of the code worth noting:

- The clamp guarantees the range (0, 10], not [1, 10]. An input such as 0.5 is
  stored as 0.5, and the clamp is not monotone: 0 becomes 1 but 0.5 stays 0.5
  (`Grades.ClampNotMonotone`).
- In `main`, the "could not be added" message is built with
  `student.getName()` on the very student that `addStudent` refused. The only
  student `addStudent` refuses is null, so that branch throws a
  NullPointerException and can never print its message. `JobMarket.Enrol`
  returns `None` in that case. A run then stops as aborted, having printed
  nothing (`JobMarket.Run`). With the fixed data every student is present, so
  the branch is never taken (`JobMarket.FixedRosters`).

## Model

| member | source | states |
|---|---|---|
| Grades.Clamp | src/matrix22/Student.java:10-16 | the stored grade always lies in (0, 10], and an input already in (0, 10] is kept unchanged |
| Grades.ClampOutOfRange | src/matrix22/Student.java:10-13 | an input at or below 0 becomes exactly 1; an input above 10 becomes exactly 10 |
| Grades.ClampFixedPoints | src/matrix22/Student.java:10-16 | the clamp leaves a value unchanged if and only if the value lies in (0, 10] |
| Grades.ClampIdempotent | src/matrix22/Student.java:10-16 | clamping an already clamped grade changes nothing |
| Grades.ClampNotMonotone | src/matrix22/Student.java:10-16 | 0 becomes 1 while 0.5 stays 0.5: a stored grade can be below 1 and the clamp is not monotone |
| Students.NewStudent | src/matrix22/Student.java:7-17 | the name is stored verbatim and the grade is the clamped input, which lies in (0, 10] |
| Students.Equals | src/matrix22/Student.java:28-36 | equals holds exactly when the comparand is a student with the same name and the same stored grade; it is false for anything that is not a student |
| Students.EqualsReflexive | src/matrix22/Student.java:28-32 | every student equals itself |
| Students.EqualsSymmetric | src/matrix22/Student.java:28-32 | a equals b if and only if b equals a |
| Students.EqualsTransitive | src/matrix22/Student.java:28-32 | equality carries over from a=b and b=c to a=c |
| Students.EqualsOnConstruction | src/matrix22/Student.java:7-32 | two constructed students are equal if and only if their names agree and their input grades clamp to the same value |
| Internships.NewInternship | test/matrix22/Internship.java:12-24 | the name is stored verbatim, the minimum grade is clamped into (0, 10] by the student rule, and the roster starts empty |
| Internships.AddStudent | test/matrix22/Internship.java:34-40 | a null student is refused and nothing changes; any other student is accepted and appended, so the roster grows by one, earlier entries stay in place, and name and threshold do not change; the internship invariant is kept |
| Internships.ChooseCandidateRandomly | test/matrix22/Internship.java:42-44 | fails exactly on an empty roster; otherwise the chosen student is on the roster |
| Internships.ChooseCandidateRandomlyReachesAll | test/matrix22/Internship.java:42-44 | a student is a possible choice if and only if it is on the roster |
| Internships.Qualified | test/matrix22/Internship.java:47-48 | the selection is never longer than the roster |
| Internships.QualifiedMembers | test/matrix22/Internship.java:47-48 | a student is selected if and only if it is on the roster and its grade is at least the minimum grade (inclusive threshold) |
| Internships.QualifiedAppend | test/matrix22/Internship.java:47-51 | the selection of a concatenated roster is the concatenation of the selections, so roster order is kept |
| Internships.QualifiedSingleton | test/matrix22/Internship.java:48 | a single student is selected exactly when its grade meets the threshold |
| Internships.QualifiedMultiplicity | test/matrix22/Internship.java:47-48 | a qualifying student is selected as many times as it is on the roster, and a student below the threshold never |
| Internships.Text | test/matrix22/Internship.java:49 | a blank line prints as the empty string; an interview line is 40 characters longer than the two names together, starts with "Candidate [" and then gives the student name verbatim |
| Internships.Lines | test/matrix22/Internship.java:47-50 | the loop prints at most one line per roster student |
| Internships.TextDistinguishesStudents | test/matrix22/Internship.java:49 | for one internship, different student names print different text, and no interview text is the empty line |
| Internships.LinesAppend | test/matrix22/Internship.java:47-51 | the printed lines of a concatenated roster are the lines of the first part followed by those of the second |
| Internships.LinesOfQualified | test/matrix22/Internship.java:46-51 | the loop prints exactly one line per selected student, the k-th line naming the k-th selected student |
| Internships.InterviewLines | test/matrix22/Internship.java:46-52 | the output of chooseCandidatesForInterview has one line per qualifying student, in roster order, each naming the internship |
| Internships.InterviewLineFor | test/matrix22/Internship.java:46-51 | an interview line for a name is printed if and only if some student of that name on the roster meets the threshold |
| Internships.InterviewAfterAdd | test/matrix22/Internship.java:34-51 | adding a student appends its interview line to the output if it meets the threshold, and changes nothing otherwise |
| Internships.ChooseCandidatesForInterview | test/matrix22/Internship.java:46-52 | the loop over the roster prints the lines of the selection, including a line for every qualifying roster student |
| JobMarket.Unwrap | test/matrix22/JobMarket.java:5-9 | the students of an array without nulls, one for each entry, in array order |
| JobMarket.Enrol | test/matrix22/JobMarket.java:18-24 | enrolment succeeds if and only if no offered student is null, and then the roster is extended by all offered students in array order; a null entry aborts |
| JobMarket.Run | test/matrix22/JobMarket.java:17-28 | with no null student the run never aborts; with a null student it aborts at the first internship having printed nothing |
| JobMarket.RunOne | test/matrix22/JobMarket.java:17-28 | one internship prints the interview lines of its enrolled roster followed by one blank line |
| JobMarket.RunAppend | test/matrix22/JobMarket.java:17 | internships are processed one after another in array order |
| JobMarket.RunFour | test/matrix22/JobMarket.java:17-28 | four internships print their four blocks in order |
| JobMarket.MarketOutput | test/matrix22/JobMarket.java:4-29 | the fixed run of main completes without an exception |
| JobMarket.FixedGrades | test/matrix22/JobMarket.java:6-15 | every grade and threshold of the fixed data is already in range, so it is stored as written |
| JobMarket.FixedRosters | test/matrix22/JobMarket.java:5-24 | no fixed student is null, so no failure branch is taken, and every roster is Gigel, Dorel, Marcel, Ionel in that order |
| JobMarket.QualifiedFour | test/matrix22/Internship.java:47-48 | the selection from four students is the in-order concatenation of each student's pass or fail |
| JobMarket.FixedSelection | test/matrix22/JobMarket.java:6-9 | the selection from the fixed roster at any threshold keeps exactly the students at or above it, in array order |
| JobMarket.GoogleSelects | test/matrix22/JobMarket.java:6-12 | Google (7) selects Gigel, Dorel and Marcel, but not Ionel |
| JobMarket.AmazonSelects | test/matrix22/JobMarket.java:6-13 | Amazon (9.3) selects only Gigel |
| JobMarket.FacebookSelects | test/matrix22/JobMarket.java:6-14 | Facebook (5) selects all four students |
| JobMarket.MicrosoftSelects | test/matrix22/JobMarket.java:6-15 | Microsoft (8) selects Gigel and Marcel only |
| JobMarket.BlockOfSelection | test/matrix22/JobMarket.java:17-28 | a fresh internship prints one interview line per selected student, then a blank line |
| JobMarket.GoogleBlock | test/matrix22/JobMarket.java:17-28 | Google's block is the lines for Gigel, Dorel and Marcel, then a blank line |
| JobMarket.AmazonBlock | test/matrix22/JobMarket.java:17-28 | Amazon's block is the line for Gigel, then a blank line |
| JobMarket.FacebookBlock | test/matrix22/JobMarket.java:17-28 | Facebook's block is the lines for all four students, then a blank line |
| JobMarket.MicrosoftBlock | test/matrix22/JobMarket.java:17-28 | Microsoft's block is the lines for Gigel and Marcel, then a blank line |
| JobMarket.MarketOutputLines | test/matrix22/JobMarket.java:4-29 | main prints exactly the four blocks in the order Google, Amazon, Facebook, Microsoft, each closed by a blank line, and no failure line |

## Left out

- Standard output is not written. Every operation that prints returns its lines as a `seq<Line>` instead, and `Text` gives their printed form.
- `java.util.Random` is not modelled. The value `nextInt(size)` draws is the parameter `roll` of `ChooseCandidateRandomly`, constrained to [0, size). An empty roster, where `nextInt(0)` throws, is the `None` result.
- IEEE-754 doubles are not modelled. Grades are exact `real` numbers, so NaN does not exist, and the literals 7.3, 8.4, 6.2 and 9.3 are exact. With doubles, NaN would pass both clamp tests unchanged and would not equal itself. Every comparison in the fixed data comes out the same with doubles as with reals.
- Null names are not modelled. A name is always a string, so the NullPointerException that `equals` would throw on a null name cannot arise.
- Object identity is not modelled. The roster holds students by value. A student can never change after construction, so value semantics and reference semantics agree.
- JobMarket.RunAppend, together with `Run` and `RunFour`: the internship array is assumed to hold distinct objects, as the four of `main` do. Internships are held by value, but `addStudent` changes a roster in place, so a Java array that repeats one internship object would carry the first pass's roster into the second pass and print more lines than the model does. The output of `main` is not affected.
- Java's `Object` comparand of `equals` is the datatype `Obj`. `OtherObj` stands for null and for every object that is not a `Student`.
- `getName`, `getGrade` and `getMinGrade` are the destructors `name`, `grade` and `minGrade` of the datatypes. They return the stored field and change nothing.
- The `students` field of `Internship` has package visibility, so Java code in the same package could change it directly. The model changes the roster only through `addStudent`.
- The "could not be added" message of `main` is not modelled as output. It can never be printed, because building it throws first. That case is the aborted run.
