/** The persistence layer in local-storage mode (no backend endpoint
    configured): a single array of records kept under one storage key. */
module SheetsService {
  import opened Wrappers
  import opened Text
  import opened Seqs
  import opened Records

  // ---------------------------------------------------------------------
  // URL joining

  predicate EndsWithSlash(s: string) {
    |s| > 0 && s[|s| - 1] == '/'
  }

  predicate StartsWithSlash(s: string) {
    |s| > 0 && s[0] == '/'
  }

  /** `s.replace(/\/$/, '')`: one trailing slash removed, if there is one. */
  function DropTrailingSlash(s: string): (r: string)
    ensures EndsWithSlash(s) ==> r + "/" == s
    ensures !EndsWithSlash(s) ==> r == s
  {
    if EndsWithSlash(s) then s[..|s| - 1] else s
  }

  /** `s.replace(/^\//, '')`: one leading slash removed, if there is one. */
  function DropLeadingSlash(s: string): (r: string)
    ensures StartsWithSlash(s) ==> "/" + r == s
    ensures !StartsWithSlash(s) ==> r == s
  {
    if StartsWithSlash(s) then s[1..] else s
  }

  /** `join(base, path)`: an empty path leaves the base alone; otherwise the
      two are glued with one slash after dropping at most one slash from
      each side of the seam. */
  function Join(base: string, path: string): (r: string)
    ensures path == "" ==> r == base
    ensures path != "" ==> r == DropTrailingSlash(base) + "/" + DropLeadingSlash(path)
  {
    if path == "" then base else DropTrailingSlash(base) + "/" + DropLeadingSlash(path)
  }

  /** Whether or not the base ends with a slash and the path starts with one,
      the joined address has exactly one slash at the seam. */
  lemma JoinOneSlash(b: string, p: string, tail: string, lead: string)
    requires !EndsWithSlash(b) && !StartsWithSlash(p)
    requires tail == "" || tail == "/"
    requires lead == "" || lead == "/"
    requires lead + p != ""
    ensures Join(b + tail, lead + p) == b + "/" + p
  {
    if tail == "/" {
      assert EndsWithSlash(b + tail) && (b + tail)[..|b|] == b;
    } else {
      assert b + tail == b;
    }
    if lead == "/" {
      assert StartsWithSlash(lead + p) && (lead + p)[1..] == p;
    } else {
      assert lead + p == p;
    }
  }

  /** Only one slash is dropped from each side: a slash the base or the path
      still has after that one survives into the result. */
  lemma JoinDropsOnlyOneSlash(b: string, p: string)
    ensures Join(b + "/", "/" + p) == b + "/" + p
  {
    assert EndsWithSlash(b + "/") && (b + "/")[..|b|] == b;
    assert StartsWithSlash("/" + p) && ("/" + p)[1..] == p;
  }

  // ---------------------------------------------------------------------
  // Record normalisation

  /** The status a record gets when none (or a blank one) is supplied. */
  const DefaultStatus := "Active"

  /** `value?.trim() || fallback`. */
  function TrimOr(v: Option<string>, fallback: string): (r: string)
    ensures v.Some? && !IsBlank(v.value) ==> r == Trim(v.value)
    ensures v.None? || IsBlank(v.value) ==> r == fallback
  {
    if v.Some? && Trim(v.value) != "" then Trim(v.value) else fallback
  }

  /** `withId(data)`, with the clock and the random generator passed in:
      `now` is `new Date().toISOString()`, `stamp` is `Date.now()` written in
      decimal and `suffix` the (at most six) base-36 digits taken from `Math.random()`. */
  function WithId(data: Student, now: string, stamp: string, suffix: string): (r: Student)
    ensures Truthy(data.id) ==> r.id == data.id
    ensures !Truthy(data.id) ==> r.id == Some(stamp + "_" + suffix)
    ensures Truthy(r.id)
    ensures r.name.Some? && Trimmed(r.name.value)
    ensures r.email.Some? && Trimmed(r.email.value)
    ensures r.course.Some? && Trimmed(r.course.value)
    ensures data.name.Some? ==> r.name == Some(Trim(data.name.value))
    ensures data.email.Some? ==> r.email == Some(Trim(data.email.value))
    ensures data.course.Some? ==> r.course == Some(Trim(data.course.value))
    ensures data.name.None? ==> r.name == Some("")
    ensures data.email.None? ==> r.email == Some("")
    ensures data.course.None? ==> r.course == Some("")
    ensures Truthy(r.status) && Trimmed(r.status.value)
    ensures data.status.None? || IsBlank(data.status.value) ==> r.status == Some(DefaultStatus)
    ensures data.status.Some? && !IsBlank(data.status.value) ==> r.status == Some(Trim(data.status.value))
    ensures Truthy(data.createdAt) ==> r.createdAt == data.createdAt
    ensures !Truthy(data.createdAt) ==> r.createdAt == Some(now)
    ensures r.updatedAt == Some(now)
  {
    Student(
      Some(Or(data.id, stamp + "_" + suffix)),
      Some(TrimOr(data.name, "")),
      Some(TrimOr(data.email, "")),
      Some(TrimOr(data.course, "")),
      Some(TrimOr(data.status, DefaultStatus)),
      Some(Or(data.createdAt, now)),
      Some(now))
  }

  /** A normalised record is a fixed point of normalisation, except for the
      refreshed `updatedAt`: id, text fields and `createdAt` survive. */
  lemma WithIdStable(data: Student, now: string, stamp: string, suffix: string,
                        later: string, stamp': string, suffix': string)
    requires Truthy(Some(now))
    ensures var r := WithId(data, now, stamp, suffix);
      WithId(r, later, stamp', suffix') == r.(updatedAt := Some(later))
  {
  }

  // ---------------------------------------------------------------------
  // The stored collection

  /** What reading the storage key and parsing it can give. */
  datatype Slot =
    | Missing                          // no item, or an empty string
    | Unparseable                      // `JSON.parse` throws
    | NotAList                         // parses to a value that is not an array
    | Saved(records: seq<Student>)     // parses to an array of records

  /** What `listStudents` hands back: the parsed array, or the non-array
      value that was stored instead. */
  datatype Listing = Array(records: seq<Student>) | NonArray

  /** Why a local operation rejects. */
  datatype Error =
    | NotFound     // `new Error('Not found')` from `updateStudent`
    | TypeError    // spreading, searching or filtering a stored non-array

  /** `all.findIndex((s) => s.id === id)`, with -1 written as None: the
      first position holding `id`. */
  function FindIndex(records: seq<Student>, id: Option<string>): (r: Option<nat>)
    ensures r.None? <==> forall i :: 0 <= i < |records| ==> records[i].id != id
    ensures r.Some? ==> r.value < |records| && records[r.value].id == id
    ensures r.Some? ==> forall i :: 0 <= i < r.value ==> records[i].id != id
  {
    if records == [] then None
    else if records[0].id == id then Some(0)
    else match FindIndex(records[1..], id)
      case None => None
      case Some(k) => Some(k + 1)
  }

  /** The single storage slot of the browser, seen through `lsRead` and
      `lsWrite`, and the four local-mode operations over it. */
  class LocalStore {
    var slot: Slot

    constructor (initial: Slot)
      ensures slot == initial
    {
      slot := initial;
    }

    /** `listStudents()` in local mode, which is `lsRead()`: a missing or
        corrupt item reads as the empty array rather than an error. */
    function ListStudents(): (l: Listing)
      reads this
      ensures slot.Saved? ==> l == Array(slot.records)
      ensures slot.Missing? || slot.Unparseable? ==> l == Array([])
      ensures slot.NotAList? ==> l == NonArray
    {
      match slot
      case Missing => Array([])
      case Unparseable => Array([])
      case NotAList => NonArray
      case Saved(records) => Array(records)
    }

    /** `createStudent(payload)` in local mode: the normalised record is put
        in front of the stored ones and returned. */
    method CreateStudent(payload: Student, now: string, stamp: string, suffix: string)
      returns (res: Result<Student, Error>)
      modifies this
      ensures old(ListStudents()).NonArray? ==> res == Failure(TypeError) && slot == old(slot)
      ensures old(ListStudents()).Array? ==>
        && res == Success(WithId(payload, now, stamp, suffix))
        && slot == Saved([res.value] + old(ListStudents()).records)
    {
      var record := WithId(payload, now, stamp, suffix);
      var listing := ListStudents();
      if listing.NonArray? {
        return Failure(TypeError);
      }
      slot := Saved([record] + listing.records);
      res := Success(record);
    }

    /** `updateStudent(id, payload)` in local mode: the first record with
        that id is overlaid with the payload and stamped; an unknown id
        rejects with "Not found" and nothing is written. */
    method UpdateStudent(id: Option<string>, payload: Student, now: string)
      returns (res: Result<Student, Error>)
      modifies this
      ensures old(ListStudents()).NonArray? ==> res == Failure(TypeError) && slot == old(slot)
      ensures old(ListStudents()).Array? ==>
        var all := old(ListStudents()).records;
        match FindIndex(all, id)
        case None => res == Failure(NotFound) && slot == old(slot)
        case Some(k) =>
          && res == Success(Merge(all[k], payload).(updatedAt := Some(now)))
          && slot == Saved(all[k := res.value])
    {
      var listing := ListStudents();
      if listing.NonArray? {
        return Failure(TypeError);
      }
      var all := listing.records;
      var idx := FindIndex(all, id);
      if idx.None? {
        return Failure(NotFound);
      }
      var updated := Merge(all[idx.value], payload).(updatedAt := Some(now));
      all := all[idx.value := updated];
      slot := Saved(all);
      res := Success(updated);
    }

    /** `deleteStudent(id)` in local mode: every record with that id is
        dropped and `{ success: true }` is returned, present id or not. */
    method DeleteStudent(id: Option<string>) returns (res: Result<bool, Error>)
      modifies this
      ensures old(ListStudents()).NonArray? ==> res == Failure(TypeError) && slot == old(slot)
      ensures old(ListStudents()).Array? ==>
        && res == Success(true)
        && slot == Saved(RemoveId(old(ListStudents()).records, id))
    {
      var listing := ListStudents();
      if listing.NonArray? {
        return Failure(TypeError);
      }
      slot := Saved(RemoveId(listing.records, id));
      res := Success(true);
    }
  }

  /** An update overwrites the fields the payload carries, keeps the others
      and only touches the first record with the id; its `updatedAt` is the
      new time. */
  lemma UpdateTouchesOneRecord(all: seq<Student>, k: nat, payload: Student, now: string)
    requires k < |all|
    ensures var updated := Merge(all[k], payload).(updatedAt := Some(now));
      && |all[k := updated]| == |all|
      && (forall i :: 0 <= i < |all| && i != k ==> all[k := updated][i] == all[i])
      && (forall f :: f != UpdatedAt && Get(payload, f).Some? ==> Get(updated, f) == Get(payload, f))
      && (forall f :: f != UpdatedAt && Get(payload, f).None? ==> Get(updated, f) == Get(all[k], f))
      && updated.updatedAt == Some(now)
  {
  }

  /** The record a create returns is the one a later list finds first under
      its id. */
  lemma CreateThenFind(record: Student, records: seq<Student>)
    ensures FindIndex([record] + records, record.id) == Some(0)
  {
  }

  /** The walk-through of the local mode: create Jane Doe without a status,
      promote her to Graduated, then delete her. */
  method Walkthrough(t0: string, t1: string, stamp: string, suffix: string)
    returns (created: Result<Student, Error>, updated: Result<Student, Error>, after: Listing)
    ensures created.Success? && updated.Success?
    ensures created.value.status == Some("Active")
    ensures created.value.id == Some(stamp + "_" + suffix)
    ensures created.value.createdAt == created.value.updatedAt == Some(t0)
    ensures updated.value.status == Some("Graduated")
    ensures updated.value.id == created.value.id
    ensures updated.value.createdAt == created.value.createdAt
    ensures updated.value.updatedAt == Some(t1)
    ensures updated.value.name == created.value.name == Some("Jane Doe")
    ensures updated.value.email == created.value.email
    ensures updated.value.course == created.value.course
    ensures after == Array([])
  {
    var store := new LocalStore(Missing);
    var jane := NoFields.(name := Some("Jane Doe"), email := Some("jane@x.com"), course := Some("CS"));
    assert Trimmed("Jane Doe");
    created := store.CreateStudent(jane, t0, stamp, suffix);
    updated := store.UpdateStudent(created.value.id, NoFields.(status := Some("Graduated")), t1);
    var gone := store.DeleteStudent(created.value.id);
    after := store.ListStudents();
  }
}
