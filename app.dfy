/** The top-level view state: the record list, the record being edited, the
    error banner, the loading flag and the search query, and how each
    settled service call changes them. */
module App {
  import opened Wrappers
  import opened Text
  import opened Seqs
  import opened Records
  import SheetsService
  import StudentForm

  // ---------------------------------------------------------------------
  // Search

  /** A property takes part in the search when it is truthy; it matches
      when its lowercased text includes the query. */
  predicate FieldMatches(v: Option<string>, q: string) {
    Truthy(v) && Contains(Lower(v.value), q)
  }

  /** Some of name, email, course and status matches `q`. */
  predicate Matches(s: Student, q: string) {
    FieldMatches(s.name, q) || FieldMatches(s.email, q) || FieldMatches(s.course, q) || FieldMatches(s.status, q)
  }

  function MatchesQuery(q: string): Student -> bool {
    (s: Student) => Matches(s, q)
  }

  /** The `filtered` list shown in the table. A blank query shows every
      record; otherwise exactly the records with a field containing the
      trimmed query, ignoring case, are shown, in list order. */
  function Search(students: seq<Student>, query: string): (r: seq<Student>)
    ensures IsSubsequence(r, students)
    ensures IsBlank(query) ==> r == students
    ensures !IsBlank(query) ==>
      && (forall i :: 0 <= i < |r| ==> Matches(r[i], Lower(Trim(query))))
      && (forall i :: 0 <= i < |students| && Matches(students[i], Lower(Trim(query))) ==> students[i] in r)
      && (forall x :: multiset(r)[x] == if Matches(x, Lower(Trim(query))) then multiset(students)[x] else 0)
  {
    var q := Lower(Trim(query));
    if q == "" then
      SubsequenceReflexive(students);
      students
    else
      KeepCounts(students, MatchesQuery(q));
      Keep(students, MatchesQuery(q))
  }

  /** Searching ignores the case of the query. */
  lemma SearchIgnoresQueryCase(students: seq<Student>, query: string)
    ensures Search(students, Lower(query)) == Search(students, query)
  {
    var l := Lower(query);
    TrimLower(query);
    LowerIdempotent(Trim(query));
  }

  // ---------------------------------------------------------------------
  // Reconciling the list with a settled service call

  /** `prev.map((s) => (s.id === updated.id ? updated : s))`. */
  function ReplaceById(students: seq<Student>, updated: Student): (r: seq<Student>)
    ensures |r| == |students|
    ensures forall i :: 0 <= i < |r| && students[i].id == updated.id ==> r[i] == updated
    ensures forall i :: 0 <= i < |r| && students[i].id != updated.id ==> r[i] == students[i]
  {
    seq(|students|, i requires 0 <= i < |students| => if students[i].id == updated.id then updated else students[i])
  }

  /** With unique ids, replacing by id in the view does what the store's
      update did at the first (and only) index holding that id, so a list
      that mirrored the store still mirrors it. */
  lemma ReplaceMirrorsStoreUpdate(students: seq<Student>, k: nat, updated: Student)
    requires UniqueIds(students)
    requires SheetsService.FindIndex(students, updated.id) == Some(k)
    ensures ReplaceById(students, updated) == students[k := updated]
    ensures UniqueIds(students[k := updated])
  {
  }

  /** The service call that a submit issues. */
  datatype Call =
    | UpdateCall(id: Option<string>, payload: Student)   // `updateStudent(editing.id, payload)`
    | CreateCall(payload: Student)                       // `createStudent(payload)`

  const LoadFailed := "Failed to load students"
  const SaveFailed := "Save failed"
  const DeleteFailed := "Delete failed"

  class AppState {
    var students: seq<Student>
    var loading: bool
    var error: string
    var editing: Option<Student>
    var query: string

    constructor ()
      ensures students == [] && loading && error == "" && editing == None && query == ""
    {
      students, loading, error, editing, query := [], true, "", None, "";
    }

    /** The list handed to the table. */
    function Filtered(): (r: seq<Student>)
      reads this
      ensures IsSubsequence(r, students)
      ensures IsBlank(query) ==> r == students
    {
      Search(students, query)
    }

    method SetQuery(q: string)
      modifies this
      ensures query == q
      ensures students == old(students) && editing == old(editing)
      ensures error == old(error) && loading == old(loading)
    {
      query := q;
    }

    /** The first half of `load()`: the spinner starts and the banner is
        cleared while `listStudents()` is awaited. */
    method BeginLoad()
      modifies this
      ensures loading && error == ""
      ensures students == old(students) && editing == old(editing) && query == old(query)
    {
      loading := true;
      error := "";
    }

    /** The second half, given how `listStudents()` settled: a resolved value
        is kept only when it is an array, a rejection raises the banner; the
        spinner stops either way. */
    method FinishLoad(outcome: Result<SheetsService.Listing, SheetsService.Error>)
      modifies this
      ensures !loading
      ensures outcome.Success? && outcome.value.Array? ==> students == outcome.value.records
      ensures outcome.Success? && outcome.value.NonArray? ==> students == []
      ensures outcome.Success? ==> error == old(error)
      ensures outcome.Failure? ==> students == old(students) && error == LoadFailed
      ensures editing == old(editing) && query == old(query)
    {
      match outcome {
        case Success(data) =>
          students := if data.Array? then data.records else [];
        case Failure(_) =>
          error := LoadFailed;
      }
      loading := false;
    }

    /** `handleEdit(student)`. */
    method HandleEdit(student: Student)
      modifies this
      ensures editing == Some(student)
      ensures students == old(students) && error == old(error)
      ensures loading == old(loading) && query == old(query)
    {
      editing := Some(student);
    }

    /** `handleCancelEdit()`. */
    method HandleCancelEdit()
      modifies this
      ensures editing == None
      ensures students == old(students) && error == old(error)
      ensures loading == old(loading) && query == old(query)
    {
      editing := None;
    }

    /** `handleSubmit(payload)`: returns the service call it issues, and
        given how that call settled, reconciles the list. An update replaces
        the entries with the returned id, a create puts the new record in
        front; either way editing ends. A rejection leaves the list and the
        edited record alone and raises "Save failed". */
    method HandleSubmit(payload: Student, outcome: Result<Student, SheetsService.Error>)
      returns (call: Call)
      modifies this
      ensures old(editing).Some? ==> call == UpdateCall(old(editing).value.id, payload)
      ensures old(editing).None? ==> call == CreateCall(payload)
      ensures outcome.Success? && old(editing).Some? ==> students == ReplaceById(old(students), outcome.value)
      ensures outcome.Success? && old(editing).None? ==> students == [outcome.value] + old(students)
      ensures outcome.Success? ==> editing == None && error == old(error)
      ensures outcome.Failure? ==>
        students == old(students) && editing == old(editing) && error == SaveFailed
      ensures loading == old(loading) && query == old(query)
    {
      if editing.Some? {
        call := UpdateCall(editing.value.id, payload);
      } else {
        call := CreateCall(payload);
      }
      match outcome {
        case Success(record) =>
          if call.UpdateCall? {
            students := ReplaceById(students, record);
          } else {
            students := [record] + students;
          }
          editing := None;
        case Failure(_) =>
          error := SaveFailed;
      }
    }

    /** `handleDelete(id)`, given how `deleteStudent(id)` settled: on success
        every entry with the id goes, and editing ends if it was that record;
        on rejection nothing changes but the banner. */
    method HandleDelete(id: Option<string>, outcome: Result<bool, SheetsService.Error>)
      modifies this
      ensures outcome.Success? ==> students == RemoveId(old(students), id) && error == old(error)
      ensures outcome.Success? && old(editing).Some? && old(editing).value.id == id ==> editing == None
      ensures outcome.Success? && !(old(editing).Some? && old(editing).value.id == id) ==> editing == old(editing)
      ensures outcome.Failure? ==>
        students == old(students) && editing == old(editing) && error == DeleteFailed
      ensures loading == old(loading) && query == old(query)
    {
      match outcome {
        case Success(_) =>
          students := RemoveId(students, id);
          if editing.Some? && editing.value.id == id {
            editing := None;
          }
        case Failure(_) =>
          error := DeleteFailed;
      }
    }
  }

  /** Saving through the local store keeps the view in step with it: when
      the list is what the store lists (`[]` for a store never written) and
      ids are unique, a create (with an
      id no record has yet) or an update (with a payload that does not change
      the id) leaves the list mirroring the store, ids still unique. */
  method MirroredSubmit(store: SheetsService.LocalStore, view: AppState, payload: Student,
                        now: string, stamp: string, suffix: string)
    requires store.ListStudents() == SheetsService.Array(view.students)
    requires UniqueIds(view.students)
    requires view.editing.Some? ==> payload.id.None? || payload.id == view.editing.value.id
    requires view.editing.None? ==> forall i :: 0 <= i < |view.students| ==>
      view.students[i].id != SheetsService.WithId(payload, now, stamp, suffix).id
    modifies store, view
    ensures store.ListStudents() == SheetsService.Array(view.students)
    ensures UniqueIds(view.students)
  {
    var res: Result<Student, SheetsService.Error>;
    if view.editing.Some? {
      res := store.UpdateStudent(view.editing.value.id, payload, now);
    } else {
      res := store.CreateStudent(payload, now, stamp, suffix);
    }
    ghost var before := view.students;
    var call := view.HandleSubmit(payload, res);
    if res.Success? && call.UpdateCall? {
      var k := SheetsService.FindIndex(before, call.id).value;
      ReplaceMirrorsStoreUpdate(before, k, res.value);
    }
  }

  /** Deleting through the local store keeps the view in step with it. */
  method MirroredDelete(store: SheetsService.LocalStore, view: AppState, id: Option<string>)
    requires store.ListStudents() == SheetsService.Array(view.students)
    requires UniqueIds(view.students)
    modifies store, view
    ensures store.ListStudents() == SheetsService.Array(view.students)
    ensures UniqueIds(view.students)
  {
    RemoveKeepsUnique(view.students, id);
    var res := store.DeleteStudent(id);
    view.HandleDelete(id, res);
  }

  /** A submit from the form as the page wires it. `handleSubmit` catches a
      failed save and resolves normally, so the form always takes its
      success path: it is cleared even when the save failed, while the page
      shows "Save failed" and keeps its list. */
  method SubmitFromForm(view: AppState, form: StudentForm.FormState,
                        outcome: Result<Student, SheetsService.Error>)
    returns (call: Call)
    modifies view, form
    ensures call.payload == old(form.form).ToPayload()
    ensures form.form == StudentForm.Empty && !form.submitting
    ensures outcome.Failure? ==>
      view.error == SaveFailed && view.students == old(view.students) && view.editing == old(view.editing)
  {
    var payload := form.BeginSubmit();
    call := view.HandleSubmit(payload, outcome);
    form.FinishSubmit(true);
  }
}
