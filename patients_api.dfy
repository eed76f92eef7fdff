/** The patient-records service: one records file, and the module-level list
    loaded from it when the service starts. Update and delete work on that
    list and then write all of it to the file; create works on a fresh load of
    the file and never touches the list. */
module PatientsApi {
  import opened Wrappers
  import opened Json
  import opened Store

  /** The HTTP errors of the endpoints: 404 when no record has the id, 500 for
      an exception inside the handler. */
  datatype HttpError = NotFound | ServerError

  /** The outcome of scanning the list for an id: the index of the first
      record with it, no such record, or a scan stopped by a record whose `"id"`
      cannot be read (it is not a dict, or has no `"id"`), which raises. */
  datatype Lookup = Found(index: nat) | Absent | Unreadable

  /** `record["id"]` can be read. */
  predicate HasIdKey(p: Json)
  {
    p.Obj? && Get(p.members, "id").Some?
  }

  /** The scan `for idx, anagrafica in enumerate(anagrafiche)` comparing
      `anagrafica["id"]` with `id`, from position `from`. */
  function Locate(ps: seq<Json>, id: string, from: nat): (r: Lookup)
    requires from <= |ps|
    decreases |ps| - from
    ensures r.Found? ==>
      from <= r.index < |ps| && HasId(ps[r.index], id) &&
      forall k :: from <= k < r.index ==> HasIdKey(ps[k]) && !HasId(ps[k], id)
    ensures r.Absent? <==> forall k :: from <= k < |ps| ==> HasIdKey(ps[k]) && !HasId(ps[k], id)
  {
    if from == |ps| then Absent
    else if !HasIdKey(ps[from]) then Unreadable
    else if HasId(ps[from], id) then Found(from)
    else Locate(ps, id, from + 1)
  }

  /** The scan stops with `Unreadable` at a record without a readable id,
      before which every record has an id different from `id`. */
  lemma {:induction false} LocateUnreadable(ps: seq<Json>, id: string, from: nat)
    requires from <= |ps| && Locate(ps, id, from).Unreadable?
    ensures exists k ::
      from <= k < |ps| && !HasIdKey(ps[k]) && forall j :: from <= j < k ==> HasIdKey(ps[j]) && !HasId(ps[j], id)
    decreases |ps| - from
  {
    if HasIdKey(ps[from]) {
      assert !HasId(ps[from], id);
      LocateUnreadable(ps, id, from + 1);
      var k :| from + 1 <= k < |ps| && !HasIdKey(ps[k]) &&
        forall j :: from + 1 <= j < k ==> HasIdKey(ps[j]) && !HasId(ps[j], id);
      assert forall j :: from <= j < k ==> HasIdKey(ps[j]) && !HasId(ps[j], id);
    }
  }

  /** The stored record for an update: the submitted fields with `"id"` forced
      to the id of the request. */
  function Pinned(data: seq<Member>, id: string): Json
  {
    Obj(Set(data, "id", Str(id)))
  }

  /** The list without the record at `i`. */
  function Without(ps: seq<Json>, i: nat): seq<Json>
    requires i < |ps|
  {
    ps[..i] + ps[i + 1..]
  }

  /** The pinned record carries the request's id and otherwise the submitted
      fields. */
  lemma PinnedFields(data: seq<Member>, id: string)
    ensures HasId(Pinned(data, id), id)
    ensures forall key :: key != "id" ==> Get(Pinned(data, id).members, key) == Get(data, key)
  {
    SetGet(data, "id", Str(id));
  }

  /** Removing the first match drops exactly that one record: the rest keep
      their order, the length drops by one, and the removed record is the
      difference between the two multisets. */
  lemma WithoutRemovesOne(ps: seq<Json>, i: nat)
    requires i < |ps|
    ensures |Without(ps, i)| == |ps| - 1
    ensures forall k :: 0 <= k < i ==> Without(ps, i)[k] == ps[k]
    ensures forall k :: i <= k < |ps| - 1 ==> Without(ps, i)[k] == ps[k + 1]
    ensures multiset(ps) == multiset(Without(ps, i)) + multiset{ps[i]}
  {
    assert ps == ps[..i] + [ps[i]] + ps[i + 1..];
  }

  /** Update and delete rewrite the file from the in-memory list only, so a
      record that create wrote to the file but that is not in the list is gone
      from the file after either of them, unless an update writes an equal
      record. */
  lemma StaleListDropsCreated(mem: seq<Json>, created: Json, id: string, data: seq<Member>)
    requires created !in mem
    ensures Locate(mem, id, 0).Found? ==>
      created !in Without(mem, Locate(mem, id, 0).index)
    ensures Locate(mem, id, 0).Found? && created != Pinned(data, id) ==>
      created !in mem[Locate(mem, id, 0).index := Pinned(data, id)]
  {
    if Locate(mem, id, 0).Found? {
      var i := Locate(mem, id, 0).index;
      WithoutRemovesOne(mem, i);
      assert multiset(mem)[created] == 0;
    }
  }

  /** The service's state: the records file, and the list `anagrafiche` held in
      memory since start-up. */
  class PatientRegistry {
    var file: FileState
    var mem: seq<Json>

    /** Start-up: the list is loaded from the file, and an absent or corrupt
        file gives the empty list. */
    constructor(file: FileState)
      ensures this.file == file && mem == LoadOrEmpty(file)
    {
      this.file := file;
      mem := LoadOrEmpty(file);
    }

    /** `create_anagrafica(new_anagrafica)`: the file is loaded afresh (absent
        reads as empty, corrupt raises and gives 500), the record is appended
        with no check of its id, and the file is written. The in-memory list is
        left as it was. */
    method CreateAnagrafica(record: seq<Member>) returns (r: Result<(), HttpError>)
      modifies this
      ensures mem == old(mem)
      ensures old(file).Corrupt? ==> r == Err(ServerError) && file == old(file)
      ensures !old(file).Corrupt? ==> r.Ok? && file == Stored(LoadOrEmpty(old(file)) + [Obj(record)])
    {
      var records: seq<Json>;
      match file {
        case Missing => records := [];
        case Corrupt => return Err(ServerError);
        case Stored(rs) => records := rs;
      }
      records := records + [Obj(record)];
      file := Stored(records);
      r := Ok(());
    }

    /** `update_anagrafica(anagrafica_id, updated_data)`: the first record with
        the id is replaced, in place, by the submitted fields with the id
        pinned; then the whole list is written to the file and the new record
        returned. Otherwise nothing changes. */
    method UpdateAnagrafica(id: string, data: seq<Member>) returns (r: Result<Json, HttpError>)
      modifies this
      ensures match Locate(old(mem), id, 0)
        case Found(i) =>
          mem == old(mem)[i := Pinned(data, id)] && file == Stored(mem) && r == Ok(Pinned(data, id))
        case Absent => r == Err(NotFound) && mem == old(mem) && file == old(file)
        case Unreadable => r == Err(ServerError) && mem == old(mem) && file == old(file)
    {
      var idx := 0;
      while idx < |mem|
        invariant idx <= |mem|
        invariant Locate(mem, id, idx) == Locate(mem, id, 0)
      {
        if !HasIdKey(mem[idx]) {
          return Err(ServerError);
        }
        if HasId(mem[idx], id) {
          mem := mem[idx := Pinned(data, id)];
          file := Stored(mem);
          return Ok(mem[idx]);
        }
        idx := idx + 1;
      }
      r := Err(NotFound);
    }

    /** `delete_anagrafica(anagrafica_id)`: the first record with the id is
        popped from the list, the whole list is written to the file and the
        removed record returned. Otherwise nothing changes. */
    method DeleteAnagrafica(id: string) returns (r: Result<Json, HttpError>)
      modifies this
      ensures match Locate(old(mem), id, 0)
        case Found(i) =>
          mem == Without(old(mem), i) && file == Stored(mem) && r == Ok(old(mem)[i])
        case Absent => r == Err(NotFound) && mem == old(mem) && file == old(file)
        case Unreadable => r == Err(ServerError) && mem == old(mem) && file == old(file)
    {
      var idx := 0;
      while idx < |mem|
        invariant idx <= |mem|
        invariant Locate(mem, id, idx) == Locate(mem, id, 0)
      {
        if !HasIdKey(mem[idx]) {
          return Err(ServerError);
        }
        if HasId(mem[idx], id) {
          var deleted := mem[idx];
          mem := mem[..idx] + mem[idx + 1..];
          file := Stored(mem);
          return Ok(deleted);
        }
        idx := idx + 1;
      }
      r := Err(NotFound);
    }
  }
}
