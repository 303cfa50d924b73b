/**
 The tracker page's state and its handlers. The React state of the `Home`
 component (`completed`, `startDate`, `currentQuote`) becomes the fields of a
 class; the browser storage it writes to is a `LocalStorage` object handed
 to it. The effect that saves the array whenever it changes is run at the
 end of every handler that sets a new array, as React runs it after the
 re-render that the new array causes.
 */
module Page {
  import opened Progress
  import opened Motivation
  import opened Storage

  class Home {
    var completed: seq<bool>
    var startDate: string
    var quote: nat
    const storage: LocalStorage

    /**
     What the page keeps true between events: the quote index is in range,
     the storage holds the kinds of value the page reads back, and a
     non-empty array and a set start date are what the storage holds.
     */
    ghost predicate Valid()
      reads this, storage
    {
      && quote < QuoteCount
      && WellFormed(storage.entries)
      && (|completed| > 0 ==>
            CompletedKey in storage.entries && storage.entries[CompletedKey] == Flags(completed))
      && (startDate != "" ==>
            StartDateKey in storage.entries && storage.entries[StartDateKey] == Text(startDate))
    }

    /** Mounting: the `useState` initial values; nothing is read or written yet. */
    constructor (storage: LocalStorage)
      requires WellFormed(storage.entries)
      ensures Valid() && this.storage == storage
      ensures completed == [] && startDate == "" && quote == 0
    {
      completed := [];
      startDate := "";
      quote := 0;
      this.storage := storage;
    }

    /** The save effect: write the array to storage, but only when it is non-empty. */
    method Persist()
      requires WellFormed(storage.entries)
      modifies storage
      ensures WellFormed(storage.entries)
      ensures storage.entries ==
        if |completed| > 0 then old(storage.entries)[CompletedKey := Flags(completed)]
        else old(storage.entries)
    {
      if |completed| > 0 {
        storage.SetItem(CompletedKey, Flags(completed));
      }
    }

    /**
     The mount effect. A saved array is taken as it is; without one the page
     starts from twenty `false`. A saved start date is kept when it is a
     non-empty string; otherwise `today` (the caller's clock, as an ISO date)
     becomes the start date and is written to storage at once.
     */
    method Load(today: string)
      requires Valid()
      modifies this, storage
      ensures Valid() && quote == old(quote)
      ensures completed ==
        if CompletedKey in old(storage.entries) then old(storage.entries)[CompletedKey].flags
        else Fresh()
      ensures startDate ==
        if StartDateKey in old(storage.entries) && old(storage.entries)[StartDateKey].text != ""
        then old(storage.entries)[StartDateKey].text
        else today
      ensures storage.entries ==
        if |completed| > 0
        then old(storage.entries)[StartDateKey := Text(startDate)][CompletedKey := Flags(completed)]
        else old(storage.entries)[StartDateKey := Text(startDate)]
    {
      if CompletedKey in storage.entries {
        completed := storage.entries[CompletedKey].flags;
      } else {
        completed := Fresh();
      }
      if StartDateKey in storage.entries && storage.entries[StartDateKey].text != "" {
        startDate := storage.entries[StartDateKey].text;
        assert storage.entries[StartDateKey := Text(startDate)] == storage.entries;
      } else {
        startDate := today;
        storage.SetItem(StartDateKey, Text(today));
      }
      Persist();
    }

    /** A card click: flip that day and save the array. */
    method ToggleComplete(index: nat)
      requires Valid()
      modifies this, storage
      ensures Valid()
      ensures completed == Toggled(old(completed), index)
      ensures |old(completed)| == DayCount && index < DayCount ==> |completed| == DayCount
      ensures startDate == old(startDate) && quote == old(quote)
      ensures storage.entries == old(storage.entries)[CompletedKey := Flags(completed)]
    {
      completed := Toggled(completed, index);
      Persist();
    }

    /**
     The reset button. `confirmed` is the user's answer to the confirmation
     prompt and `today` the caller's clock; a declined prompt changes nothing.
     */
    method ResetProgress(confirmed: bool, today: string)
      requires Valid()
      modifies this, storage
      ensures Valid() && quote == old(quote)
      ensures confirmed ==>
        && completed == Fresh() && startDate == today
        && storage.entries == old(storage.entries)[StartDateKey := Text(today)][CompletedKey := Flags(Fresh())]
      ensures !confirmed ==>
        completed == old(completed) && startDate == old(startDate) && storage.entries == old(storage.entries)
    {
      if confirmed {
        completed := Fresh();
        startDate := today;
        storage.SetItem(StartDateKey, Text(today));
        Persist();
      }
    }

    /** The "Complete Current Day" button: complete the first open day, if any. */
    method CompleteCurrentDay()
      requires Valid()
      modifies this, storage
      ensures Valid()
      ensures completed == CompleteFirst(old(completed))
      ensures startDate == old(startDate) && quote == old(quote)
      ensures storage.entries ==
        if FirstIncomplete(old(completed)) == -1 then old(storage.entries)
        else old(storage.entries)[CompletedKey := Flags(completed)]
    {
      var next := FirstIncomplete(completed);
      if next != -1 {
        ToggleComplete(next);
      }
    }

    /** One firing of the ten-second quote timer. */
    method TickQuote()
      requires Valid()
      modifies this`quote
      ensures Valid()
      ensures quote == NextQuote(old(quote))
    {
      quote := NextQuote(quote);
    }
  }

  /**
   A first visit with nothing stored: after mounting and loading, the page
   shows day 1, no completed day, an empty bar and the given start date, and
   both keys are in storage.
   */
  method FirstVisit(today: string) returns (day: nat, count: nat, percent: nat, stored: map<string, Entry>)
    ensures day == 1 && count == 0 && percent == 0
    ensures stored == map[StartDateKey := Text(today), CompletedKey := Flags(Fresh())]
  {
    var storage := new LocalStorage(map[]);
    var home := new Home(storage);
    home.Load(today);
    FreshStart();
    day := CurrentDay(home.completed);
    count := CompletedCount(home.completed);
    percent := ProgressPercentage(home.completed);
    stored := storage.entries;
    assert stored.Keys == {StartDateKey, CompletedKey};
  }
}
