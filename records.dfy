/** The student record, the one entity of the application, and the operations
    on records that both the storage layer and the view share. */
module Records {
  import opened Wrappers
  import opened Seqs

  /** A student record as it is stored and displayed. Every property may be
      absent: records read back from storage, partial payloads and the
      objects a backend returns all share this shape. */
  datatype Student = Student(
    id: Option<string>,
    name: Option<string>,
    email: Option<string>,
    course: Option<string>,
    status: Option<string>,
    createdAt: Option<string>,
    updatedAt: Option<string>)

  /** The property names of a record. */
  datatype Field = Id | Name | Email | Course | Status | CreatedAt | UpdatedAt

  /** `s[f]`. */
  function Get(s: Student, f: Field): Option<string> {
    match f
    case Id => s.id
    case Name => s.name
    case Email => s.email
    case Course => s.course
    case Status => s.status
    case CreatedAt => s.createdAt
    case UpdatedAt => s.updatedAt
  }

  /** The payload with no properties at all. */
  const NoFields := Student(None, None, None, None, None, None, None)

  /** JavaScript truthiness of a string property: present and non-empty. */
  predicate Truthy(v: Option<string>) {
    v.Some? && v.value != ""
  }

  /** `v || fallback`. */
  function Or(v: Option<string>, fallback: string): (r: string)
    ensures Truthy(v) ==> r == v.value
    ensures !Truthy(v) ==> r == fallback
  {
    if Truthy(v) then v.value else fallback
  }

  /** The object spread `{ ...base, ...patch }`: each property of `patch` that
      is present overrides the one of `base`; the others come from `base`. */
  function Merge(base: Student, patch: Student): (r: Student)
    ensures forall f :: Get(patch, f).Some? ==> Get(r, f) == Get(patch, f)
    ensures forall f :: Get(patch, f).None? ==> Get(r, f) == Get(base, f)
  {
    Student(
      if patch.id.Some? then patch.id else base.id,
      if patch.name.Some? then patch.name else base.name,
      if patch.email.Some? then patch.email else base.email,
      if patch.course.Some? then patch.course else base.course,
      if patch.status.Some? then patch.status else base.status,
      if patch.createdAt.Some? then patch.createdAt else base.createdAt,
      if patch.updatedAt.Some? then patch.updatedAt else base.updatedAt)
  }

  /** Merging an empty payload changes nothing; merging a payload twice is
      merging it once. */
  lemma MergeLaws(base: Student, patch: Student)
    ensures Merge(base, NoFields) == base
    ensures Merge(Merge(base, patch), patch) == Merge(base, patch)
  {
  }

  /** The filter callback `s => s.id !== id`. */
  function OtherId(id: Option<string>): Student -> bool {
    (s: Student) => s.id != id
  }

  /** `records.filter((s) => s.id !== id)`: every record carrying `id` is
      gone, every other record stays, and the order is kept. */
  function RemoveId(records: seq<Student>, id: Option<string>): (r: seq<Student>)
    ensures forall i :: 0 <= i < |r| ==> r[i].id != id && r[i] in records
    ensures forall i :: 0 <= i < |records| && records[i].id != id ==> records[i] in r
    ensures forall x :: multiset(r)[x] == if x.id != id then multiset(records)[x] else 0
    ensures IsSubsequence(r, records)
  {
    KeepCounts(records, OtherId(id));
    Keep(records, OtherId(id))
  }

  /** Removing an id that no record carries leaves the list as it was. */
  lemma RemoveAbsentId(records: seq<Student>, id: Option<string>)
    requires forall i :: 0 <= i < |records| ==> records[i].id != id
    ensures RemoveId(records, id) == records
  {
    KeepAll(records, OtherId(id));
  }

  /** No two records share an id. */
  predicate UniqueIds(records: seq<Student>) {
    forall i, j :: 0 <= i < j < |records| ==> records[i].id != records[j].id
  }

  /** With unique ids, removing a present id shortens the list by exactly one. */
  lemma {:induction false} RemovePresentId(records: seq<Student>, id: Option<string>, k: nat)
    requires UniqueIds(records)
    requires k < |records| && records[k].id == id
    ensures |RemoveId(records, id)| == |records| - 1
  {
    if k == 0 {
      RemoveAbsentId(records[1..], id);
    } else {
      RemovePresentId(records[1..], id, k - 1);
    }
  }

  /** Removing records never introduces a duplicate id. */
  lemma RemoveKeepsUnique(records: seq<Student>, id: Option<string>)
    requires UniqueIds(records)
    ensures UniqueIds(RemoveId(records, id))
  {
    var key := (s: Student) => s.id;
    KeepDistinctKeys(records, OtherId(id), key);
  }

}
