/** The analysis service around `main`: the bounded retry of the analysis and
    the append of its result to the analysis history of a patient, in the
    records file of the user who asked for it. */
module AgentApi {
  import opened Wrappers
  import opened Json
  import opened Store
  import AgentUtils

  /** The number of attempts when the caller gives none. */
  const DefaultMaxRetries: int := 3

  /** The `ValueError` raised when no attempt gave a result. */
  datatype RetryError = NoValidResult

  /** An attempt that returned something other than `None`. */
  predicate Succeeded(o: AgentUtils.MainOutcome)
  {
    o.Returned? && o.result.Some?
  }

  /** `execute_main_with_retries(base64_images, max_retries)`. The outcome of
      the `n`-th call of `main` (counting from 0), made without a body zone,
      is `attempts(n)`. `main` never returns a JSON `null`
      (`AgentUtils.ChatOutcome`), so of the outcomes `attempts` may give,
      `Returned(Some(Null))` stands for no call that happens; `calls`
      counts the calls made. The first result that is not `None` is returned
      and ends the loop; `None` and exceptions are failed attempts; after
      `max_retries` failures (none when it is zero or negative) `ValueError` is
      raised. */
  method ExecuteMainWithRetries(attempts: nat -> AgentUtils.MainOutcome, maxRetries: int := DefaultMaxRetries)
    returns (r: Result<Json, RetryError>, calls: nat)
    ensures calls <= if maxRetries > 0 then maxRetries else 0
    ensures forall k: nat :: k + 1 < calls ==> !Succeeded(attempts(k))
    ensures r.Ok? ==>
      0 < calls && Succeeded(attempts(calls - 1)) && r.value == attempts(calls - 1).result.value
    ensures r.Err? ==>
      calls == (if maxRetries > 0 then maxRetries else 0) &&
      forall k: nat :: k < calls ==> !Succeeded(attempts(k))
    ensures r.Ok? <==> exists k: nat :: k < maxRetries && Succeeded(attempts(k))
  {
    calls := 0;
    while calls < maxRetries
      invariant forall k: nat :: k < calls ==> !Succeeded(attempts(k))
      invariant maxRetries > 0 ==> calls <= maxRetries
      invariant maxRetries <= 0 ==> calls == 0
    {
      var outcome := attempts(calls);
      calls := calls + 1;
      if outcome.Returned? && outcome.result.Some? {
        return Ok(outcome.result.value), calls;
      }
    }
    r := Err(NoValidResult);
  }

  /** Why `update_patient_analysis` raises: no record has the id (`ValueError`),
      a record scanned before the match is not a dict, or the existing history
      is not a list (both `AttributeError`). */
  datatype AnalysisError = PatientNotFound | NotADict | HistoryNotAList

  /** The field that holds a patient's past analyses. */
  const History: string := "analysis_history"

  /** The entry appended for one analysis. */
  function Entry(timestamp: string, result: Json): (r: Json)
    ensures r.Obj? && DistinctKeys(r.members) && |r.members| == 2
    ensures Get(r.members, "timestamp") == Some(Str(timestamp))
    ensures Get(r.members, "result") == Some(result)
  {
    var ms := [Member("timestamp", Str(timestamp)), Member("result", result)];
    assert ms[0].key[0] != ms[1].key[0];
    KeyIndexIs(ms, "timestamp", 0);
    KeyIndexIs(ms, "result", 1);
    Obj(ms)
  }

  /** The search `next(p for p in patients if p.get("id") == patient_id)`
      from position `from`: the first record with the id, or the error the scan
      meets first. */
  function FindPatient(ps: seq<Json>, id: string, from: nat): (r: Result<nat, AnalysisError>)
    requires from <= |ps|
    decreases |ps| - from
    ensures r.Ok? ==>
      from <= r.value < |ps| && HasId(ps[r.value], id) &&
      forall k :: from <= k < r.value ==> ps[k].Obj? && !HasId(ps[k], id)
    ensures r == Err(PatientNotFound) <==>
      forall k :: from <= k < |ps| ==> ps[k].Obj? && !HasId(ps[k], id)
    ensures r != Err(HistoryNotAList)
  {
    if from == |ps| then Err(PatientNotFound)
    else if !ps[from].Obj? then Err(NotADict)
    else if HasId(ps[from], id) then Ok(from)
    else FindPatient(ps, id, from + 1)
  }

  /** The scan stops with `NotADict` at a record that is not a dict, before
      which every record is a dict without the id. */
  lemma {:induction false} FindPatientNotADict(ps: seq<Json>, id: string, from: nat)
    requires from <= |ps| && FindPatient(ps, id, from) == Err(NotADict)
    ensures exists k ::
      from <= k < |ps| && !ps[k].Obj? && forall j :: from <= j < k ==> ps[j].Obj? && !HasId(ps[j], id)
    decreases |ps| - from
  {
    if ps[from].Obj? {
      assert !HasId(ps[from], id);
      FindPatientNotADict(ps, id, from + 1);
      var k :| from + 1 <= k < |ps| && !ps[k].Obj? &&
        forall j :: from + 1 <= j < k ==> ps[j].Obj? && !HasId(ps[j], id);
      assert forall j :: from <= j < k ==> ps[j].Obj? && !HasId(ps[j], id);
    }
  }

  /** The patient's fields with `entry` added to the history: appended to an
      existing list, or as a new one-element list when the field is absent. */
  function AddEntry(patient: seq<Member>, entry: Json): (r: Result<seq<Member>, AnalysisError>)
    ensures r.Err? <==> Get(patient, History).Some? && !Get(patient, History).value.Arr?
    ensures r.Err? ==> r.error == HistoryNotAList
  {
    match Get(patient, History)
    case None => Ok(Set(patient, History, Arr([entry])))
    case Some(h) =>
      if h.Arr? then Ok(Set(patient, History, Arr(h.items + [entry]))) else Err(HistoryNotAList)
  }

  /** The loaded records after the update, or the error raised before saving. */
  function AddAnalysis(ps: seq<Json>, id: string, entry: Json): Result<seq<Json>, AnalysisError>
  {
    match FindPatient(ps, id, 0)
    case Err(e) => Err(e)
    case Ok(i) =>
      match AddEntry(ps[i].members, entry)
      case Err(e) => Err(e)
      case Ok(patient) => Ok(ps[i := Obj(patient)])
  }

  /** The history a record holds: its list, or nothing when the field is
      absent. */
  function HistoryOf(patient: seq<Member>): seq<Json>
  {
    match Get(patient, History)
    case Some(Arr(items)) => items
    case _ => []
  }

  /** Adding an entry changes only the history: it grows by exactly that entry
      at its end (a missing history becomes a one-element list), every other
      field reads as before, and keys stay distinct. */
  lemma AddEntryChangesOnlyHistory(patient: seq<Member>, entry: Json)
    requires AddEntry(patient, entry).Ok?
    ensures var updated := AddEntry(patient, entry).value;
      Get(updated, History) == Some(Arr(HistoryOf(patient) + [entry])) &&
      (forall key :: key != History ==> Get(updated, key) == Get(patient, key)) &&
      (DistinctKeys(patient) ==> DistinctKeys(updated))
  {
    var h := Arr(HistoryOf(patient) + [entry]);
    if Get(patient, History).None? {
      assert HistoryOf(patient) + [entry] == [entry];
    }
    assert AddEntry(patient, entry).value == Set(patient, History, h);
    SetGet(patient, History, h);
    if DistinctKeys(patient) {
      SetDistinct(patient, History, h);
    }
  }

  /** An existing history list keeps its position among the fields. */
  lemma AddEntryInPlace(patient: seq<Member>, entry: Json)
    requires Get(patient, History).Some? && AddEntry(patient, entry).Ok?
    ensures var i := KeyIndex(patient, History);
      AddEntry(patient, entry).value == patient[i := Member(History, Arr(HistoryOf(patient) + [entry]))]
  {
  }

  /** The update fails with `PatientNotFound` exactly when every record is a
      dict and none has the id; on success exactly one record, the first with
      the id, is replaced, and the list keeps its length and order. */
  lemma AddAnalysisFrame(ps: seq<Json>, id: string, entry: Json)
    ensures AddAnalysis(ps, id, entry) == Err(PatientNotFound) <==>
      forall k :: 0 <= k < |ps| ==> ps[k].Obj? && !HasId(ps[k], id)
    ensures AddAnalysis(ps, id, entry).Ok? ==>
      var i := FindPatient(ps, id, 0).value;
      var updated := AddAnalysis(ps, id, entry).value;
      HasId(ps[i], id) && (forall k :: 0 <= k < i ==> !HasId(ps[k], id)) &&
      |updated| == |ps| && (forall k :: 0 <= k < |ps| && k != i ==> updated[k] == ps[k]) &&
      updated[i].Obj? && updated[i].members == AddEntry(ps[i].members, entry).value
  {
  }

  /** The records files of all users, by user name. */
  class UserFiles {
    var files: map<string, FileState>

    constructor(files: map<string, FileState>)
      ensures this.files == files
    {
      this.files := files;
    }

    /** `load_user_anagrafiche(username)`: an absent, unreadable or corrupt file
        reads as no records. */
    function Load(username: string): seq<Json>
      reads this
    {
      if username in files then LoadOrEmpty(files[username]) else []
    }

    /** `update_patient_analysis(username, patient_id, analysis_result)`, with
        the current time given as `timestamp`. On success the user's file holds
        the loaded records with the entry added; on failure no file is
        written. */
    method UpdatePatientAnalysis(username: string, patientId: string, result: Json, timestamp: string)
      returns (r: Result<(), AnalysisError>)
      modifies this
      ensures var spec := AddAnalysis(old(Load(username)), patientId, Entry(timestamp, result));
        (spec.Ok? ==> r.Ok? && files == old(files)[username := Stored(spec.value)]) &&
        (spec.Err? ==> r == Err(spec.error) && files == old(files))
    {
      var patients := Load(username);
      var i := 0;
      while i < |patients|
        invariant i <= |patients|
        invariant FindPatient(patients, patientId, i) == FindPatient(patients, patientId, 0)
      {
        if !patients[i].Obj? {
          return Err(NotADict);
        }
        if HasId(patients[i], patientId) {
          break;
        }
        i := i + 1;
      }
      if i == |patients| {
        return Err(PatientNotFound);
      }
      var patient := patients[i].members;
      var entry := Entry(timestamp, result);
      match Get(patient, History) {
        case None =>
          patient := Set(patient, History, Arr([entry]));
        case Some(h) =>
          if !h.Arr? {
            return Err(HistoryNotAList);
          }
          patient := Set(patient, History, Arr(h.items + [entry]));
      }
      patients := patients[i := Obj(patient)];
      files := files[username := Stored(patients)];
      r := Ok(());
    }
  }
}
