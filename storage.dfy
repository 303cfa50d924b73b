/**
 The browser's local key-value storage, as the page uses it: two keys, one
 holding the completion array (JSON in the browser, a decoded array here) and
 one holding the start date as an ISO `YYYY-MM-DD` string.
 */
module Storage {

  /** A stored value, already decoded. */
  datatype Entry = Flags(flags: seq<bool>) | Text(text: string)

  const CompletedKey: string := "completedTopics"
  const StartDateKey: string := "startDate"

  /**
   The page parses what it reads without checking it; it relies on each key
   holding the kind of value it writes there.
   */
  predicate WellFormed(entries: map<string, Entry>)
  {
    && (CompletedKey in entries ==> entries[CompletedKey].Flags?)
    && (StartDateKey in entries ==> entries[StartDateKey].Text?)
  }

  class LocalStorage {
    var entries: map<string, Entry>

    constructor (initial: map<string, Entry>)
      ensures entries == initial
    {
      entries := initial;
    }

    /** `localStorage.setItem(key, value)`: overwrites one key, keeps the others. */
    method SetItem(key: string, value: Entry)
      modifies this
      ensures entries == old(entries)[key := value]
    {
      entries := entries[key := value];
    }
  }
}
