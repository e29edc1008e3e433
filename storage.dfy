/** The JSON file the tracker keeps its records in, as an abstract store:
    `load_data` and `save_data`. */
module Storage {
  import opened Records

  /** What the backing file holds: nothing, text that is not valid JSON, or
      a saved collection. */
  datatype Backing = Missing | Corrupt | Saved(records: seq<Record>)

  class Store {
    var backing: Backing
    /** How many times the file has been written; lets callers state that an
        operation wrote nothing. */
    var writes: nat

    constructor (initial: Backing)
      ensures backing == initial && writes == 0
    {
      backing := initial;
      writes := 0;
    }

    /** `load_data`: the saved collection, or the empty one when the file is
        missing or its text is not valid JSON. */
    function Load(): (rs: seq<Record>)
      reads this
      ensures backing.Saved? ==> rs == backing.records
      ensures !backing.Saved? ==> rs == []
    {
      match backing
      case Saved(records) => records
      case _ => []
    }

    /** `save_data`: replaces the whole file with `rs`, so the next load
        returns exactly `rs`. */
    method Save(rs: seq<Record>)
      modifies this
      ensures backing == Saved(rs) && writes == old(writes) + 1
      ensures Load() == rs
    {
      backing := Saved(rs);
      writes := writes + 1;
    }
  }
}
