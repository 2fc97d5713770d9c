/** The four summary cards: total records and the records per status. */
module StatsCards {
  import opened Wrappers
  import opened Text
  import opened Seqs
  import opened Records

  /** `(s.status || '').toLowerCase() === word`. */
  predicate HasStatus(s: Student, word: string) {
    Lower(Or(s.status, "")) == word
  }

  function StatusIs(word: string): Student -> bool {
    (s: Student) => HasStatus(s, word)
  }

  /** The positions of the records whose status is `word`, ignoring case. */
  function WithStatus(students: seq<Student>, word: string): set<nat> {
    set i: nat | i < |students| && HasStatus(students[i], word)
  }

  /** `students.filter((s) => ... === word).length`: how many records carry
      the status `word`, ignoring case. */
  function CountStatus(students: seq<Student>, word: string): (n: nat)
    ensures n == |WithStatus(students, word)|
    ensures n <= |students|
    ensures n == 0 <==> forall i :: 0 <= i < |students| ==> !HasStatus(students[i], word)
  {
    var p := StatusIs(word);
    assert Positions(students, p) == WithStatus(students, word);
    Count(students, p)
  }

  datatype Tally = Tally(total: nat, active: nat, graduated: nat, pending: nat)

  /** The card values: the total, and for each of the three statuses the
      number of records carrying it. Since no record has two statuses the
      three counts together are at most the total. */
  function Stats(students: seq<Student>): (t: Tally)
    ensures t.total == |students|
    ensures t.active == |WithStatus(students, "active")|
    ensures t.graduated == |WithStatus(students, "graduated")|
    ensures t.pending == |WithStatus(students, "pending")|
    ensures t.active <= t.total && t.graduated <= t.total && t.pending <= t.total
    ensures t.active + t.graduated + t.pending <= t.total
  {
    ThreeStatusesFit(students);
    Tally(|students|,
          CountStatus(students, "active"),
          CountStatus(students, "graduated"),
          CountStatus(students, "pending"))
  }

  lemma {:induction false} ThreeStatusesFit(students: seq<Student>)
    ensures CountStatus(students, "active") + CountStatus(students, "graduated")
          + CountStatus(students, "pending") <= |students|
  {
    if students != [] {
      ThreeStatusesFit(students[1..]);
    }
  }

  /** A record without a status is counted under no status: adding it only
      raises the total. */
  lemma MissingStatusUncounted(s: Student, students: seq<Student>)
    requires !Truthy(s.status)
    ensures var t, t' := Stats(students), Stats([s] + students);
      t'.total == t.total + 1 && t'.active == t.active
      && t'.graduated == t.graduated && t'.pending == t.pending
  {
  }

  /** The counts ignore the case in which a status is written. */
  lemma CountIgnoresCase(students: seq<Student>, k: nat, word: string)
    requires k < |students| && students[k].status.Some?
    ensures var relabelled := students[k := students[k].(status := Some(Lower(students[k].status.value)))];
      CountStatus(relabelled, word) == CountStatus(students, word)
  {
    var st := students[k].status.value;
    LowerIdempotent(st);
    var relabelled := students[k := students[k].(status := Some(Lower(st)))];
    assert HasStatus(relabelled[k], word) == HasStatus(students[k], word);
    assert WithStatus(relabelled, word) == WithStatus(students, word);
  }
}
