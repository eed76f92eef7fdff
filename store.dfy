/** The JSON files that hold lists of patient records (the "anagrafiche"), as
    their loaders see them. Reading and writing the file itself is not modelled:
    a file is its decoded content. */
module Store {
  import opened Wrappers
  import Json

  /** A records file: absent, present but not valid JSON, or holding a list. */
  datatype FileState = Missing | Corrupt | Stored(records: seq<Json.Json>)

  /** The records a tolerant loader returns: an absent or corrupt file reads as
      the empty list. */
  function LoadOrEmpty(f: FileState): seq<Json.Json>
  {
    if f.Stored? then f.records else []
  }

  /** The record is a dict whose `"id"` entry is the string `id`. */
  predicate HasId(p: Json.Json, id: string)
  {
    p.Obj? && Json.Get(p.members, "id") == Some(Json.Str(id))
  }
}
