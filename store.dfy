/** The JSON file of already processed keys
    (`load_processed_announcements` and `save_processed_announcements` in
    fetch_announcements.py). File I/O is outside the model; the file is the
    value it holds. */
module StateStore {

  /** What `processed_announcements.json` holds when a run starts: no file,
      a file that cannot be opened or parsed, or a JSON list of keys. */
  datatype StateFile = Absent | Corrupt | Stored(keys: seq<string>)

  /** Loading yields the keys the file lists, and the empty set when the
      file is absent or unreadable; it never fails. */
  function Load(file: StateFile): (processed: set<string>)
    ensures file.Stored? ==> forall k :: k in processed <==> k in file.keys
    ensures !file.Stored? ==> processed == {}
  {
    match file
    case Absent => {}
    case Corrupt => {}
    case Stored(keys) => set k | k in keys
  }

  /** The keys of a set listed once each, in some order (`list(hashes)`;
      the order of a Python set is not modelled). */
  ghost function Enumerate(s: set<string>): (keys: seq<string>)
    ensures |keys| == |s|
    ensures forall k :: k in keys <==> k in s
    ensures forall i, j :: 0 <= i < j < |keys| ==> keys[i] != keys[j]
  {
    if s == {} then []
    else
      var k :| k in s;
      [k] + Enumerate(s - {k})
  }

  /** The file contents after saving a set: that set as a list. */
  ghost function Save(processed: set<string>): (file: StateFile)
    ensures file.Stored? && |file.keys| == |processed|
    ensures forall k :: k in file.keys <==> k in processed
  {
    Stored(Enumerate(processed))
  }

  /** Saving and loading again gives back the set that was saved. */
  lemma LoadSave(processed: set<string>)
    ensures Load(Save(processed)) == processed
  {
  }
}
