/** The records table: its sort state, the sorted copy it renders and the
    status badge of each row. */
module StudentTable {
  import opened Wrappers
  import opened Text
  import opened Records

  datatype Dir = Asc | Desc

  function Flip(d: Dir): (e: Dir)
    ensures e != d
  {
    if d == Asc then Desc else Asc
  }

  /** `(s[key] ?? '').toString().toLowerCase()`: the text a row is sorted by. */
  function SortText(s: Student, key: Field): string {
    Lower(Get(s, key).GetOr(""))
  }

  /** The comparator given to `sort`: negative when `a` goes first. */
  function Compare(key: Field, dir: Dir, a: Student, b: Student): (c: int)
    ensures c == 0 <==> SortText(a, key) == SortText(b, key)
    ensures dir == Asc ==> (c < 0 <==> LexLess(SortText(a, key), SortText(b, key)))
    ensures dir == Desc ==> (c < 0 <==> LexLess(SortText(b, key), SortText(a, key)))
  {
    var va := SortText(a, key);
    var vb := SortText(b, key);
    LexTrichotomy(va, vb);
    if LexLess(va, vb) then
      if dir == Asc then -1 else 1
    else if LexLess(vb, va) then
      if dir == Asc then 1 else -1
    else 0
  }

  /** `a` may stand before `b`: ascending, no smaller sort text follows a
      larger one; descending, no larger one follows a smaller one. */
  predicate Precedes(key: Field, dir: Dir, a: Student, b: Student) {
    match dir
    case Asc => !LexLess(SortText(b, key), SortText(a, key))
    case Desc => !LexLess(SortText(a, key), SortText(b, key))
  }

  lemma ComparePrecedes(key: Field, dir: Dir, a: Student, b: Student)
    ensures Compare(key, dir, a, b) <= 0 <==> Precedes(key, dir, a, b)
    ensures Compare(key, dir, a, b) > 0 ==> Precedes(key, dir, b, a)
  {
    LexTrichotomy(SortText(a, key), SortText(b, key));
  }

  lemma PrecedesTransitive(key: Field, dir: Dir, a: Student, b: Student, c: Student)
    requires Precedes(key, dir, a, b) && Precedes(key, dir, b, c)
    ensures Precedes(key, dir, a, c)
  {
    var va, vb, vc := SortText(a, key), SortText(b, key), SortText(c, key);
    if va != vb { LexTotal(va, vb); }
    if vb != vc { LexTotal(vb, vc); }
    if va != vc { LexTotal(va, vc); }
    if va != vb && vb != vc {
      if dir == Asc { LexTransitive(va, vb, vc); LexAsymmetric(va, vc); }
      else { LexTransitive(vc, vb, va); LexAsymmetric(vc, va); }
    }
  }

  /** Each row may stand before the next one. */
  predicate Ordered(rows: seq<Student>, key: Field, dir: Dir) {
    forall i :: 0 <= i < |rows| - 1 ==> Precedes(key, dir, rows[i], rows[i + 1])
  }

  predicate SortedUpTo(a: array<Student>, key: Field, dir: Dir, n: int)
    requires 0 <= n <= a.Length
    reads a
  {
    forall p, q :: 0 <= p < q < n ==> Precedes(key, dir, a[p], a[q])
  }

  /** `arr.sort(comparator)`: a stable insertion sort; a row only moves past
      rows the comparator puts strictly after it. */
  method SortInPlace(a: array<Student>, key: Field, dir: Dir)
    modifies a
    ensures SortedUpTo(a, key, dir, a.Length)
    ensures multiset(a[..]) == old(multiset(a[..]))
  {
    if a.Length == 0 {
      return;
    }
    var i := 1;
    while i < a.Length
      invariant 1 <= i <= a.Length
      invariant SortedUpTo(a, key, dir, i)
      invariant multiset(a[..]) == old(multiset(a[..]))
    {
      Insert(a, key, dir, i);
      i := i + 1;
    }
  }

  /** Exchanges two rows. */
  method Swap(a: array<Student>, p: nat, q: nat)
    requires p < q < a.Length
    modifies a
    ensures a[p] == old(a[q]) && a[q] == old(a[p])
    ensures forall k :: 0 <= k < a.Length && k != p && k != q ==> a[k] == old(a[k])
    ensures multiset(a[..]) == old(multiset(a[..]))
  {
    a[p], a[q] := a[q], a[p];
  }

  /** Moves `a[i]` left past the rows that must follow it, so that the first
      `i + 1` rows are in order. */
  method Insert(a: array<Student>, key: Field, dir: Dir, i: nat)
    requires i < a.Length
    requires SortedUpTo(a, key, dir, i)
    modifies a
    ensures SortedUpTo(a, key, dir, i + 1)
    ensures multiset(a[..]) == old(multiset(a[..]))
  {
    var j := i;
    while j > 0 && Compare(key, dir, a[j - 1], a[j]) > 0
      invariant 0 <= j <= i
      invariant forall p, q :: 0 <= p < q <= i && p != j && q != j ==> Precedes(key, dir, a[p], a[q])
      invariant forall q :: j < q <= i ==> Precedes(key, dir, a[j], a[q])
      invariant multiset(a[..]) == old(multiset(a[..]))
    {
      ComparePrecedes(key, dir, a[j - 1], a[j]);
      Swap(a, j - 1, j);
      j := j - 1;
    }
    if j > 0 {
      ComparePrecedes(key, dir, a[j - 1], a[j]);
      forall p | 0 <= p < j - 1
        ensures Precedes(key, dir, a[p], a[j])
      {
        PrecedesTransitive(key, dir, a[p], a[j - 1], a[j]);
      }
    }
  }

  class TableState {
    var sortKey: Field
    var sortDir: Dir

    /** The table first lists the newest records: `createdAt`, descending. */
    constructor ()
      ensures sortKey == CreatedAt && sortDir == Desc
    {
      sortKey, sortDir := CreatedAt, Desc;
    }

    /** `setSort(key)`: the current key flips the direction; another key
        becomes current, ascending. */
    method SetSort(key: Field)
      modifies this
      ensures sortKey == key
      ensures old(sortKey) == key ==> sortDir == Flip(old(sortDir))
      ensures old(sortKey) != key ==> sortDir == Asc
    {
      if sortKey == key {
        sortDir := Flip(sortDir);
      } else {
        sortKey, sortDir := key, Asc;
      }
    }

    /** The memoised `sorted` list: a sorted copy, so the caller's list is
        untouched, holding the same rows, ordered by the current key and
        direction. */
    method Sorted(students: seq<Student>) returns (rows: seq<Student>)
      ensures multiset(rows) == multiset(students)
      ensures Ordered(rows, sortKey, sortDir)
    {
      var arr := new Student[|students|](i requires 0 <= i < |students| => students[i]);
      assert arr[..] == students;
      SortInPlace(arr, sortKey, sortDir);
      rows := arr[..];
    }
  }

  /** Ascending order means each row's sort text is not below the one before. */
  lemma OrderedAscending(rows: seq<Student>, key: Field, i: nat)
    requires Ordered(rows, key, Asc) && i + 1 < |rows|
    ensures SortText(rows[i], key) == SortText(rows[i + 1], key)
         || LexLess(SortText(rows[i], key), SortText(rows[i + 1], key))
  {
    var x, y := SortText(rows[i], key), SortText(rows[i + 1], key);
    if x != y { LexTotal(x, y); }
  }

  /** Descending order means each row's sort text is not above the one before. */
  lemma OrderedDescending(rows: seq<Student>, key: Field, i: nat)
    requires Ordered(rows, key, Desc) && i + 1 < |rows|
    ensures SortText(rows[i], key) == SortText(rows[i + 1], key)
         || LexLess(SortText(rows[i + 1], key), SortText(rows[i], key))
  {
    var x, y := SortText(rows[i], key), SortText(rows[i + 1], key);
    if x != y { LexTotal(x, y); }
  }

  // ---------------------------------------------------------------------
  // Status badge

  const ActiveClass := "bg-emerald-50 text-emerald-700 ring-emerald-200"
  const GraduatedClass := "bg-indigo-50 text-indigo-700 ring-indigo-200"
  const PendingClass := "bg-amber-50 text-amber-700 ring-amber-200"
  const NeutralClass := "bg-neutral-100 text-neutral-700 ring-neutral-200"

  /** The badge's own lookup table. */
  const BadgeClasses: map<string, string> := map[
    "active" := ActiveClass,
    "graduated" := GraduatedClass,
    "pending" := PendingClass,
    "inactive" := NeutralClass]

  /** The key the badge looks up: `(status || '').toLowerCase()`. */
  function BadgeKey(status: Option<string>): string {
    Lower(Or(status, ""))
  }

  /** The badge colour: the table entry of the lowercased status when the
      table has one, the neutral colour otherwise. */
  function BadgeClass(status: Option<string>): (cls: string)
    ensures cls in BadgeClasses.Values
    ensures BadgeKey(status) == "active" ==> cls == ActiveClass
    ensures BadgeKey(status) == "graduated" ==> cls == GraduatedClass
    ensures BadgeKey(status) == "pending" ==> cls == PendingClass
    ensures BadgeKey(status) !in {"active", "graduated", "pending"} ==> cls == NeutralClass
  {
    var key := BadgeKey(status);
    assert BadgeClasses["inactive"] == NeutralClass;
    if key in BadgeClasses then BadgeClasses[key] else NeutralClass
  }

  /** What reading `map[key]` on the badge's plain object yields: an own
      entry, a member inherited from `Object.prototype`, or `undefined`. */
  datatype Lookup = Own(cls: string) | Inherited(member: string) | Undefined

  /** The members every plain object inherits from `Object.prototype`. */
  const PrototypeMembers: set<string> := {
    "constructor", "__proto__", "hasOwnProperty", "isPrototypeOf", "propertyIsEnumerable",
    "toLocaleString", "toString", "valueOf",
    "__defineGetter__", "__defineSetter__", "__lookupGetter__", "__lookupSetter__"}

  function ReadTable(key: string): (r: Lookup)
    ensures key in BadgeClasses ==> r == Own(BadgeClasses[key])
    ensures key !in BadgeClasses && key in PrototypeMembers ==> r == Inherited(key)
    ensures key !in BadgeClasses && key !in PrototypeMembers ==> r == Undefined
  {
    if key in BadgeClasses then Own(BadgeClasses[key])
    else if key in PrototypeMembers then Inherited(key)
    else Undefined
  }

  /** `map[s] || neutral` as the badge evaluates it: every inherited member
      is a truthy object, so it wins over the neutral fallback. */
  function BadgeClassAsWritten(status: Option<string>): (r: Lookup)
    ensures BadgeKey(status) in BadgeClasses ==> r == Own(BadgeClass(status))
    ensures BadgeKey(status) !in BadgeClasses && BadgeKey(status) !in PrototypeMembers ==> r == Own(NeutralClass)
  {
    match ReadTable(BadgeKey(status))
    case Undefined => Own(NeutralClass)
    case found => found
  }

  /** A status spelled like an inherited member gets no colour from the
      table and no neutral fallback either, where BadgeClass gives it the
      neutral colour. */
  lemma BadgeAsWrittenMissesFallback()
    ensures BadgeClassAsWritten(Some("Constructor")) == Inherited("constructor")
    ensures BadgeClassAsWritten(Some("__proto__")) == Inherited("__proto__")
    ensures BadgeClass(Some("Constructor")) == NeutralClass
  {
    assert Lower("Constructor") == "constructor";
    assert Lower("__proto__") == "__proto__";
  }

  /** The badge text: the status, or a dash when there is none. */
  function BadgeLabel(status: Option<string>): (text: string)
    ensures Truthy(status) ==> text == status.value
    ensures !Truthy(status) ==> text == "—"
  {
    Or(status, "—")
  }

  /** The badge colour ignores the case of the status. */
  lemma BadgeIgnoresCase(status: string)
    ensures BadgeClass(Some(Lower(status))) == BadgeClass(Some(status))
  {
    LowerIdempotent(status);
  }
}
