/** The flat-file store: each collection lives in one JSON file that is read
    whole and overwritten whole. The file itself is abstracted to what a read
    can find there. */
module Store {
  import opened Types

  /** What a read of a collection file finds. */
  datatype FileContent<T> = Missing | Malformed | Parsed(records: seq<T>)

  /** The tolerant loader of categories, purchases and users: a missing or
      unparseable file reads as the empty collection. */
  function Load<T>(f: FileContent<T>): (r: seq<T>)
    ensures f.Parsed? ==> r == f.records
    ensures !f.Parsed? ==> r == []
  {
    match f
    case Parsed(records) => records
    case _ => []
  }

  /** The product loader, which only guards against a missing file: a malformed
      file makes the read fail (`None`) instead of reading as empty. */
  function LoadStrict<T>(f: FileContent<T>): (r: Option<seq<T>>)
    ensures r.None? <==> f.Malformed?
    ensures r.Some? ==> r.value == Load(f)
  {
    match f
    case Missing => Some([])
    case Malformed => None
    case Parsed(records) => Some(records)
  }

  /** A whole-file overwrite with the given collection. */
  function Save<T>(records: seq<T>): FileContent<T> {
    Parsed(records)
  }

  /** Reading back what was written gives the same collection, for both loaders. */
  lemma SaveLoadRoundTrip<T>(records: seq<T>)
    ensures Load(Save(records)) == records
    ensures LoadStrict(Save(records)) == Some(records)
  {
  }

  /** The category form first writes `[]` when the file is missing; that write
      cannot change what the tolerant loader reads. */
  function CreateIfMissing<T>(f: FileContent<T>): (g: FileContent<T>)
    ensures Load(g) == Load(f)
    ensures g.Parsed? || g == f
  {
    if f.Missing? then Save([]) else f
  }
}
