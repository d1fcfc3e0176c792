/**
 * The Express student router (`/api/students`): the full list by name, the
 * search, and the WARDEN-only create, which keeps roll numbers unique.
 */
module Students {
  import opened Wrappers
  import opened Model
  import opened Seqs
  import opened Store
  import JsText

  /**
   * A JSON body value for `year`: absent (or `null`), a boolean, a number
   * (a JSON number may have a fractional part) or a string.
   */
  datatype JsonValue = Absent | Bool(b: bool) | Num(n: real) | Text(s: string)

  /** JavaScript truthiness of a body value. */
  predicate Truthy(v: JsonValue) {
    match v
    case Absent => false
    case Bool(b) => b
    case Num(n) => n != 0.0
    case Text(s) => s != ""
  }

  /** A number's integer part, rounded toward zero. */
  function Truncate(n: real): (r: int)
    ensures 0.0 <= n ==> 0 <= r && r as real <= n < r as real + 1.0
    ensures n < 0.0 ==> r <= 0 && r as real - 1.0 < n <= r as real
  {
    if 0.0 <= n then n.Floor else -((-n).Floor)
  }

  /**
   * `parseInt(year)`, which reads its argument's string form: a number keeps
   * its integer part (`2.5` prints as `2.5` and reads as 2), a boolean prints
   * as `true` or `false` and reads as `NaN`, a string is read digit by digit.
   */
  function ParseYear(v: JsonValue): Option<int> {
    match v
    case Absent => None
    case Bool(_) => None
    case Num(n) => Some(Truncate(n))
    case Text(s) => JsText.ParseInt(s)
  }

  /** The body of `POST /`. */
  datatype StudentForm = StudentForm(
    name: Option<string>,
    rollNumber: Option<string>,
    course: Option<string>,
    branch: Option<string>,
    year: JsonValue,
    hostelName: Option<string>,
    roomNumber: Option<string>)

  predicate HasRequired(f: StudentForm) {
    Given(f.name) && Given(f.rollNumber) && Given(f.course) && Given(f.branch) && Truthy(f.year) && Given(f.hostelName)
  }

  predicate RollNumberTaken(db: Db, roll: string) {
    exists s :: s in db.students && s.rollNumber == roll
  }

  /**
   * `POST /`, after the WARDEN gate: 400 for a missing field or a taken roll
   * number, 500 when the store refuses the row (a `year` that is `NaN`, a
   * taken id), else 201 with the one new row.
   */
  function Create(db: Db, f: StudentForm, newId: Id): (r: (Reply<Student>, Db))
    ensures r.0.Err? ==> r.1 == db
    ensures !HasRequired(f) ==> r == (Err(400, MissingField), db)
    ensures r.0.Ok? ==> HasRequired(f)
    ensures r.0.Ok? ==>
              r.0.value == Student(newId, f.name.value, f.rollNumber.value, f.course.value, f.branch.value,
                                   r.0.value.year, f.hostelName.value, f.roomNumber)
    ensures r.0.Ok? ==> r.0.code == 201 && r.1 == db.(students := db.students + [r.0.value])
    ensures r.0.Ok? ==> ParseYear(f.year) == Some(r.0.value.year) && Some(r.0.value.rollNumber) == f.rollNumber
    ensures r.0.Ok? ==> !RollNumberTaken(db, r.0.value.rollNumber) && r.0.value.id == newId
  {
    if !HasRequired(f) then (Err(400, MissingField), db)
    else if RollNumberTaken(db, f.rollNumber.value) then (Err(400, DuplicateRollNumber), db)
    else
      match ParseYear(f.year)
      case None => (Err(500, StoreFailure), db)
      case Some(y) =>
        if HasStudent(db, newId) then (Err(500, StoreFailure), db)
        else
          var s := Student(newId, f.name.value, f.rollNumber.value, f.course.value, f.branch.value, y,
                           f.hostelName.value, f.roomNumber);
          (Ok(201, s), db.(students := db.students + [s]))
  }

  /** The handler: the uniqueness lookup, then one insert. */
  method CreateStudent(db: Database, f: StudentForm, newId: Id) returns (reply: Reply<Student>)
    modifies db
    ensures (reply, db.Snapshot()) == Create(old(db.Snapshot()), f, newId)
  {
    if !HasRequired(f) {
      return Err(400, MissingField);
    }
    var existing := FirstIndex(db.students, (s: Student) => s.rollNumber == f.rollNumber.value);
    if existing.Some? {
      return Err(400, DuplicateRollNumber);
    }
    assert !RollNumberTaken(db.Snapshot(), f.rollNumber.value);
    var year := ParseYear(f.year);
    if year.None? || HasStudent(db.Snapshot(), newId) {
      return Err(500, StoreFailure);
    }
    var student := Student(newId, f.name.value, f.rollNumber.value, f.course.value, f.branch.value, year.value,
                           f.hostelName.value, f.roomNumber);
    db.InsertStudent(student);
    reply := Ok(201, student);
  }

  /** Creating a student keeps ids and roll numbers unique in the table. */
  lemma CreateKeepsStudentsUnique(db: Db, f: StudentForm, newId: Id)
    requires UniqueStudents(db.students)
    ensures UniqueStudents(Create(db, f, newId).1.students)
  {
    var r := Create(db, f, newId);
    if r.0.Ok? {
      var t := r.1.students;
      forall i, j | 0 <= i < j < |t| ensures t[i].id != t[j].id && t[i].rollNumber != t[j].rollNumber {
        if j == |db.students| {
          assert t[i] == db.students[i] && t[i] in db.students;
        }
      }
    }
  }

  /** A taken roll number is refused with 400 and nothing is inserted. */
  lemma CreateRefusesTakenRoll(db: Db, f: StudentForm, newId: Id)
    requires HasRequired(f) && RollNumberTaken(db, f.rollNumber.value)
    ensures Create(db, f, newId) == (Err(400, DuplicateRollNumber), db)
  {
  }

  /** A string `year` of digits is stored as their decimal value. */
  lemma CreateParsesYear(db: Db, f: StudentForm, newId: Id, digits: string)
    requires f.year == Text(digits) && |digits| > 0 && forall k :: 0 <= k < |digits| ==> JsText.IsDigit(digits[k])
    requires Create(db, f, newId).0.Ok?
    ensures Create(db, f, newId).0.value.year == JsText.DecimalValue(digits)
  {
    JsText.ParseIntDecimal(digits, "");
    assert digits + "" == digits;
  }

  /** A numeric `year` is stored without its fractional part. */
  lemma CreateTruncatesYear(db: Db, f: StudentForm, newId: Id, n: real)
    requires f.year == Num(n) && Create(db, f, newId).0.Ok?
    ensures var y := Create(db, f, newId).0.value.year;
            y == Truncate(n) && (if 0.0 <= n then y as real <= n else n <= y as real)
  {
  }

  /** A boolean `year` never yields a row: `false` is a missing field, `true` reads as `NaN`. */
  lemma CreateRefusesBooleanYear(db: Db, f: StudentForm, newId: Id, b: bool)
    requires f.year == Bool(b)
    ensures Create(db, f, newId).0.Err? && Create(db, f, newId).1 == db
    ensures !b ==> Create(db, f, newId).0 == Err(400, MissingField)
  {
  }

  /** The `?q=` parameter: absent, one value, or repeated (an array). */
  datatype QueryParam = NoParam | One(value: string) | Repeated(values: seq<string>)

  predicate Contains(s: string, q: string) {
    IndexOf(s, q).Some?
  }

  /** The `OR` of the five `contains` conditions. */
  predicate Mentions(s: Student, q: string) {
    Contains(s.name, q) || Contains(s.rollNumber, q) || Contains(s.course, q) || Contains(s.branch, q) || Contains(s.hostelName, q)
  }

  /** `GET /search`: 400 unless `q` is one non-empty string, else the first 10 students mentioning it. */
  function Search(db: Db, q: QueryParam): (r: Reply<seq<Student>>)
    ensures r.Err? <==> !(q.One? && q.value != "")
    ensures r.Err? ==> r == Err(400, MissingField)
    ensures r.Ok? ==> |r.value| <= 10
  {
    if !(q.One? && q.value != "") then Err(400, MissingField)
    else Ok(200, Take(Filter(db.students, (s: Student) => Mentions(s, q.value)), 10))
  }

  /**
   * Every result contains the query in one of the five columns; results keep
   * table order; when at most 10 students match, all of them are returned.
   */
  lemma SearchResults(db: Db, q: string)
    requires q != ""
    ensures var r := Search(db, One(q)).value;
            var m := Filter(db.students, (s: Student) => Mentions(s, q));
            && r == m[..|r|]
            && (forall s :: s in r ==> s in db.students && Mentions(s, q))
            && (|m| <= 10 ==> forall s :: s in db.students && Mentions(s, q) ==> s in r)
  {
    var r := Search(db, One(q)).value;
    var m := Filter(db.students, (s: Student) => Mentions(s, q));
    forall s | s in r ensures s in m {
      var k :| 0 <= k < |r| && r[k] == s;
      assert m[k] == s;
    }
  }

  /** Lexicographic order on strings by code unit, the empty string first. */
  predicate LexLe(a: string, b: string)
    decreases |a|
  {
    |a| == 0 || (|b| > 0 && (a[0] < b[0] || (a[0] == b[0] && LexLe(a[1..], b[1..]))))
  }

  lemma {:induction false} LexLeTotal(a: string, b: string)
    ensures LexLe(a, b) || LexLe(b, a)
    decreases |a|
  {
    if |a| > 0 && |b| > 0 && a[0] == b[0] {
      LexLeTotal(a[1..], b[1..]);
    }
  }

  lemma {:induction false} LexLeTransitive(a: string, b: string, c: string)
    requires LexLe(a, b) && LexLe(b, c)
    ensures LexLe(a, c)
    decreases |a|
  {
    if |a| > 0 && a[0] == b[0] && b[0] == c[0] {
      LexLeTransitive(a[1..], b[1..], c[1..]);
    }
  }

  lemma {:induction false} LexLeAntisymmetric(a: string, b: string)
    requires LexLe(a, b) && LexLe(b, a)
    ensures a == b
    decreases |a|
  {
    if |a| > 0 {
      LexLeAntisymmetric(a[1..], b[1..]);
      assert a == [a[0]] + a[1..] && b == [b[0]] + b[1..];
    }
  }

  /** `orderBy: { name: 'asc' }`. */
  const ByName: (Student, Student) -> bool := (a: Student, b: Student) => LexLe(a.name, b.name)

  lemma ByNameTotal()
    ensures TotalPreorder(ByName)
  {
    forall a: Student, b: Student ensures ByName(a, b) || ByName(b, a) {
      LexLeTotal(a.name, b.name);
    }
    forall a: Student, b: Student, c: Student | ByName(a, b) && ByName(b, c) ensures ByName(a, c) {
      LexLeTransitive(a.name, b.name, c.name);
    }
  }

  /** `GET /`: every student, by name. */
  function List(db: Db): seq<Student> {
    SortBy(db.students, ByName)
  }

  /** The list is a permutation of the table, ordered by name. */
  lemma ListOrderedByName(db: Db)
    ensures multiset(List(db)) == multiset(db.students)
    ensures forall i, j :: 0 <= i < j < |List(db)| ==> LexLe(List(db)[i].name, List(db)[j].name)
  {
    ByNameTotal();
    SortBySorted(db.students, ByName);
    assert SortedBy(List(db), ByName);
  }
}
