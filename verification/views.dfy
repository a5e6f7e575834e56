/** The dashboard's derived views of its snapshot of records: the filtered
    table, the course choices of the filter and the status counters. */
module Views {
  import opened Text
  import opened StudentSchema
  import opened RecordStore

  /** The course filter value that shows every course. */
  const AllCourses: string := "All"

  /** `a` is `b` with some elements left out, the rest kept in order. */
  predicate IsSubsequence<T(==)>(a: seq<T>, b: seq<T>)
    decreases |b|
  {
    if a == [] then true
    else if b == [] then false
    else if a[0] == b[0] then IsSubsequence(a[1..], b[1..])
    else IsSubsequence(a, b[1..])
  }

  /** A record the table shows: its lower-cased name includes the lower-cased
      search text, and its course is the filter unless the filter is `All`. */
  predicate Shown(r: Record, search: string, courseFilter: string) {
    && Contains(Lower(r.student.name), Lower(search))
    && (courseFilter == AllCourses || r.student.course == courseFilter)
  }

  /** The table's rows: the snapshot's records that are shown, in order. */
  function Filtered(students: seq<Record>, search: string, courseFilter: string): (rows: seq<Record>)
    ensures IsSubsequence(rows, students)
    ensures forall x | x in rows :: Shown(x, search, courseFilter)
    ensures forall x :: (multiset(rows)[x] ==
      if Shown(x, search, courseFilter) then multiset(students)[x] else 0)
  {
    if students == [] then []
    else
      var rest := Filtered(students[1..], search, courseFilter);
      assert students == [students[0]] + students[1..];
      if Shown(students[0], search, courseFilter) then [students[0]] + rest else rest
  }

  /** With an empty search and the `All` filter the table shows the whole
      snapshot, in order. */
  lemma {:induction false} FilterShowsAll(students: seq<Record>)
    ensures Filtered(students, "", AllCourses) == students
  {
    if students != [] {
      ContainsEmpty(Lower(students[0].student.name));
      assert Lower("") == "";
      FilterShowsAll(students[1..]);
      assert students == [students[0]] + students[1..];
    }
  }

  /** Filtering the table again with the same inputs changes nothing. */
  lemma {:induction false} FilterIdempotent(students: seq<Record>, search: string, courseFilter: string)
    ensures Filtered(Filtered(students, search, courseFilter), search, courseFilter)
         == Filtered(students, search, courseFilter)
  {
    if students != [] {
      FilterIdempotent(students[1..], search, courseFilter);
    }
  }

  /** The position where `c` first occurs in `xs`. */
  function FirstIndex(xs: seq<string>, c: string): (k: nat)
    requires c in xs
    ensures k < |xs| && xs[k] == c && c !in xs[..k]
  {
    if xs[0] == c then 0 else 1 + FirstIndex(xs[1..], c)
  }

  /** The non-empty values of `xs` without repeats, in order of first
      occurrence. Dropping the empty value during de-duplication gives the
      same list as de-duplicating and then dropping it. */
  function Distinct(xs: seq<string>): (d: seq<string>)
    ensures forall c :: c in d <==> c in xs && c != ""
    ensures forall i, j | 0 <= i < j < |d| :: d[i] != d[j]
  {
    if xs == [] then []
    else
      var d := Distinct(xs[..|xs| - 1]);
      var c := xs[|xs| - 1];
      assert xs == xs[..|xs| - 1] + [c];
      if c == "" || c in d then d else d + [c]
  }

  lemma FirstIndexPrefix(xs: seq<string>, n: nat, c: string)
    requires n <= |xs| && c in xs[..n]
    ensures FirstIndex(xs, c) == FirstIndex(xs[..n], c)
  {
    var k := FirstIndex(xs[..n], c);
    assert xs[..k] == xs[..n][..k];
  }

  /** `Distinct` lists values in the order in which they first occur. */
  lemma {:induction false} DistinctFirstAppearance(xs: seq<string>)
    ensures forall i, j | 0 <= i < j < |Distinct(xs)| ::
      FirstIndex(xs, Distinct(xs)[i]) < FirstIndex(xs, Distinct(xs)[j])
    decreases |xs|
  {
    if xs != [] {
      var n := |xs| - 1;
      var pre := xs[..n];
      var c := xs[n];
      DistinctFirstAppearance(pre);
      var d := Distinct(pre);
      forall e | e in d
        ensures FirstIndex(xs, e) == FirstIndex(pre, e) < n
      {
        FirstIndexPrefix(xs, n, e);
      }
      var dd := Distinct(xs);
      if c == "" || c in d {
        assert dd == d;
        forall i, j | 0 <= i < j < |dd|
          ensures FirstIndex(xs, dd[i]) < FirstIndex(xs, dd[j])
        {
          assert dd[i] in d && dd[j] in d;
        }
      } else {
        assert dd == d + [c];
        assert c !in pre;
        assert FirstIndex(xs, c) == n;
        forall i, j | 0 <= i < j < |dd|
          ensures FirstIndex(xs, dd[i]) < FirstIndex(xs, dd[j])
        {
          assert dd[i] == d[i] && d[i] in d;
          if j < |d| {
            assert dd[j] == d[j] && d[j] in d;
          }
        }
      }
    }
  }

  function Courses(students: seq<Record>): seq<string> {
    seq(|students|, i requires 0 <= i < |students| => students[i].student.course)
  }

  /** The filter's choices: `All`, then every non-empty course of the
      snapshot once, in order of first appearance. */
  function CourseChoices(students: seq<Record>): (choices: seq<string>)
    ensures |choices| > 0 && choices[0] == AllCourses
    ensures forall c :: c in choices[1..] <==> c in Courses(students) && c != ""
    ensures forall c :: c in choices[1..] <==> c != "" && exists r | r in students :: r.student.course == c
    ensures forall i, j | 1 <= i < j < |choices| :: choices[i] != choices[j]
    ensures forall i, j | 1 <= i < j < |choices| ::
      FirstIndex(Courses(students), choices[i]) < FirstIndex(Courses(students), choices[j])
  {
    var cs := Courses(students);
    DistinctFirstAppearance(cs);
    forall c
      ensures c in cs <==> exists r | r in students :: r.student.course == c
    {
      if c in cs {
        var i :| 0 <= i < |cs| && cs[i] == c;
        assert students[i] in students;
      }
      if exists r | r in students :: r.student.course == c {
        var r :| r in students && r.student.course == c;
        var i :| 0 <= i < |students| && students[i] == r;
        assert cs[i] == c;
      }
    }
    var choices := [AllCourses] + Distinct(cs);
    assert choices[1..] == Distinct(cs);
    choices
  }

  /** The four counters of the sidebar. */
  datatype Stats = Stats(total: nat, pending: nat, enrolled: nat, completed: nat)

  /** The records' lower-cased statuses, in order. */
  function LowerStatuses(students: seq<Record>): (ls: seq<string>)
    ensures |ls| == |students|
  {
    if students == [] then [] else [Lower(students[0].student.status)] + LowerStatuses(students[1..])
  }

  /** How many records have the given lower-cased status. */
  function CountStatus(students: seq<Record>, wanted: string): (n: nat)
    ensures n == multiset(LowerStatuses(students))[wanted]
    ensures n <= |students|
    ensures n == 0 <==> forall i | 0 <= i < |students| :: Lower(students[i].student.status) != wanted
  {
    if students == [] then 0
    else (if Lower(students[0].student.status) == wanted then 1 else 0) + CountStatus(students[1..], wanted)
  }

  /** How many records have none of the three statuses. */
  function CountOthers(students: seq<Record>): nat {
    if students == [] then 0
    else
      var l := Lower(students[0].student.status);
      (if l != "pending" && l != "enrolled" && l != "completed" then 1 else 0) + CountOthers(students[1..])
  }

  /** Every record has exactly one of the three statuses or none of them. */
  lemma {:induction false} StatusPartition(students: seq<Record>)
    ensures |students| == CountStatus(students, "pending") + CountStatus(students, "enrolled")
      + CountStatus(students, "completed") + CountOthers(students)
  {
    if students != [] {
      StatusPartition(students[1..]);
    }
  }

  function ComputeStats(students: seq<Record>): (s: Stats)
    ensures s.total == |students|
    ensures s.pending + s.enrolled + s.completed <= s.total
  {
    StatusPartition(students);
    Stats(|students|, CountStatus(students, "pending"), CountStatus(students, "enrolled"),
          CountStatus(students, "completed"))
  }

  lemma StatusLabels(s: string)
    requires s in Statuses
    ensures Lower(s) == "pending" || Lower(s) == "enrolled" || Lower(s) == "completed"
  {
    if s == "Enrolled" {
      assert Lower(s) == "enrolled";
    } else if s == "Pending" {
      assert Lower(s) == "pending";
    } else {
      assert Lower(s) == "completed";
    }
  }

  /** When every record satisfies the schema, the three counters add up to
      the total. */
  lemma {:induction false} StatsOfValidRecords(students: seq<Record>)
    requires forall r | r in students :: Valid(r.student)
    ensures var s := ComputeStats(students); s.pending + s.enrolled + s.completed == s.total
  {
    StatusPartition(students);
    NoOthers(students);
  }

  lemma {:induction false} NoOthers(students: seq<Record>)
    requires forall r | r in students :: Valid(r.student)
    ensures CountOthers(students) == 0
  {
    if students != [] {
      assert students[0] in students;
      StatusLabels(students[0].student.status);
      NoOthers(students[1..]);
    }
  }
}
