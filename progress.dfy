/**
 Pure derivations of the 20-day progress tracker: the values the page
 recomputes from its completion array on every render (completed count,
 progress percentage, current day, which card is highlighted), and the two
 array updates its handlers perform (flipping one entry, completing the first
 open day), each with the properties the page relies on.

 A completion array is a `seq<bool>`. The page never validates what it reads
 back from storage, so nothing here assumes the length is 20 unless a
 property needs it.
 */
module Progress {

  /** Number of topics in the curriculum (cards "Day 1" .. "Day 20"). */
  const DayCount: nat := 20

  /** The array a first run starts from: one `false` per topic. */
  function Fresh(): (r: seq<bool>)
    ensures |r| == DayCount
    ensures forall i :: 0 <= i < |r| ==> !r[i]
  {
    seq(DayCount, _ => false)
  }

  /** `completed.filter(Boolean).length`: how many entries are `true`. */
  function CompletedCount(c: seq<bool>): (n: nat)
    ensures n <= |c|
    ensures n == |c| <==> forall i :: 0 <= i < |c| ==> c[i]
    ensures n == 0 <==> forall i :: 0 <= i < |c| ==> !c[i]
  {
    if c == [] then 0
    else
      var rest := CompletedCount(c[1..]);
      assert forall i :: 1 <= i < |c| ==> c[i] == c[1..][i - 1];
      (if c[0] then 1 else 0) + rest
  }

  /** The count agrees with an independent definition: the multiplicity of `true`. */
  lemma {:induction false} CompletedCountIsMultiplicity(c: seq<bool>)
    ensures CompletedCount(c) == multiset(c)[true]
  {
    if c != [] {
      CompletedCountIsMultiplicity(c[1..]);
      assert c == [c[0]] + c[1..];
      assert multiset(c) == multiset{c[0]} + multiset(c[1..]);
    }
  }

  /**
   `(completedCount / 20) * 100`. In exact arithmetic this is `5 * count`, an
   integer; see the README for the floating-point rounding left out.
   */
  function ProgressPercentage(c: seq<bool>): (p: nat)
    ensures DayCount * p == 100 * CompletedCount(c)
  {
    5 * CompletedCount(c)
  }

  /** For an array of the intended length the bar is never over- or under-full. */
  lemma ProgressInRange(c: seq<bool>)
    requires |c| == DayCount
    ensures 0 <= ProgressPercentage(c) <= 100
    ensures ProgressPercentage(c) == 100 <==> forall i :: 0 <= i < |c| ==> c[i]
    ensures ProgressPercentage(c) == 0 <==> forall i :: 0 <= i < |c| ==> !c[i]
  {
  }

  /** `completed.findIndex(c => !c)`: the first open day, or -1 if none. */
  function FirstIncomplete(c: seq<bool>): (k: int)
    ensures -1 <= k < |c|
    ensures k == -1 <==> forall i :: 0 <= i < |c| ==> c[i]
    ensures k >= 0 ==> !c[k] && forall i :: 0 <= i < k ==> c[i]
  {
    if c == [] then -1
    else if !c[0] then 0
    else
      var k := FirstIncomplete(c[1..]);
      assert forall i :: 1 <= i < |c| ==> c[i] == c[1..][i - 1];
      if k == -1 then -1 else k + 1
  }

  /**
   `completed.findIndex(c => !c) + 1 || 20`: a sum of 0 (no open day) is
   falsy in JavaScript, so the fallback 20 is taken exactly then.
   */
  function CurrentDay(c: seq<bool>): (d: nat)
    ensures d >= 1
    ensures (exists i :: 0 <= i < |c| && !c[i]) ==> d == FirstIncomplete(c) + 1
    ensures (forall i :: 0 <= i < |c| ==> c[i]) ==> d == DayCount
    ensures |c| <= DayCount ==> d <= DayCount
  {
    var s := FirstIncomplete(c) + 1;
    if s == 0 then DayCount else s
  }

  /**
   Whether entry `index` is truthy. Reading past the end of the array gives
   `undefined`, which is falsy.
   */
  predicate Done(c: seq<bool>, index: nat): (r: bool)
    ensures r ==> index < |c|
    ensures index < |c| ==> r == c[index]
  {
    index < |c| && c[index]
  }

  /**
   Whether card `index` is highlighted: `!completed[index] && (index === 0 ||
   completed[index - 1])`. A card past the end is open; it is highlighted only
   when it directly follows a completed last entry (or is card 0 of `[]`).
   */
  predicate IsCurrent(c: seq<bool>, index: nat): (r: bool)
    ensures r && index < |c| ==> !c[index]
    ensures r && index > 0 ==> index - 1 < |c| && c[index - 1]
    ensures index > |c| ==> !r
    ensures index == |c| ==> (r <==> index == 0 || c[index - 1])
  {
    !Done(c, index) && (index == 0 || Done(c, index - 1))
  }

  /** A completed card is never the highlighted one. */
  lemma CompletedNeverCurrent(c: seq<bool>, index: nat)
    requires index < |c| && c[index]
    ensures !IsCurrent(c, index)
  {
  }

  /** The first open day is always highlighted, whatever the rest of the array. */
  lemma FirstIncompleteIsCurrent(c: seq<bool>)
    requires FirstIncomplete(c) >= 0
    ensures IsCurrent(c, FirstIncomplete(c))
    ensures IsCurrent(c, CurrentDay(c) - 1)
  {
  }

  /** Days were completed in order: no open day precedes a completed one. */
  predicate InOrder(c: seq<bool>)
  {
    forall i, j :: 0 <= i < j < |c| && c[j] ==> c[i]
  }

  /**
   When days are completed in order and one is still open, exactly one card
   inside the array is highlighted, and it is the one the "Current Day"
   statistic names; when every entry is done, no card inside the array is.
   */
  lemma InOrderHighlightsCurrentDay(c: seq<bool>, index: nat)
    requires InOrder(c) && index < |c|
    ensures IsCurrent(c, index) <==> index == FirstIncomplete(c)
    ensures IsCurrent(c, index) <==> index + 1 == CurrentDay(c) && !c[index]
  {
    var k := FirstIncomplete(c);
    if k >= 0 && index > k {
      // a completed day after the open day k would break the order
      assert !c[index - 1];
    }
  }

  /**
   Out-of-order completion (allowed by toggling any card) can highlight two
   cards at once, while "Current Day" names only the first.
   */
  lemma OutOfOrderHighlightsTwo()
    ensures var c := [true, false, true, false] + seq(16, _ => false);
      IsCurrent(c, 1) && IsCurrent(c, 3) && CurrentDay(c) == 2
  {
    var c := [true, false, true, false] + seq(16, _ => false);
    assert FirstIncomplete(c[1..]) == 0;
  }

  /**
   Before the stored array is loaded the page renders with `[]`: card 1 is
   highlighted while "Current Day" shows 20.
   */
  lemma BeforeLoad()
    ensures IsCurrent([], 0) && !IsCurrent([], 1)
    ensures CurrentDay([]) == DayCount && CompletedCount([]) == 0
  {
  }

  /**
   `toggleComplete(index)` on a copy of the array: flips entry `index`. An
   index at or past the end extends the copy; the gap is left as JavaScript
   holes, which read as `undefined` (falsy), modelled as `false`.
   */
  function Toggled(c: seq<bool>, index: nat): (r: seq<bool>)
    ensures |r| == if index < |c| then |c| else index + 1
    ensures r[index] == !Done(c, index)
    ensures forall i :: 0 <= i < |r| && i != index ==> r[i] == Done(c, i)
  {
    if index < |c| then c[index := !c[index]]
    else c + seq(index - |c|, _ => false) + [true]
  }

  /** Toggling the same card twice restores the array. */
  lemma ToggleTwice(c: seq<bool>, index: nat)
    requires index < |c|
    ensures Toggled(Toggled(c, index), index) == c
  {
  }

  /** Overwriting one entry changes the count by the difference of the new and old flag. */
  lemma {:induction false} CountAfterUpdate(c: seq<bool>, index: nat, b: bool)
    requires index < |c|
    ensures CompletedCount(c[index := b]) + (if c[index] then 1 else 0)
         == CompletedCount(c) + (if b then 1 else 0)
  {
    if index == 0 {
      assert c[index := b][1..] == c[1..];
    } else {
      assert c[index := b][1..] == c[1..][index - 1 := b];
      CountAfterUpdate(c[1..], index - 1, b);
    }
  }

  /** The count of a concatenation is the sum of the counts. */
  lemma {:induction false} CountConcat(a: seq<bool>, b: seq<bool>)
    ensures CompletedCount(a + b) == CompletedCount(a) + CompletedCount(b)
  {
    if a == [] {
      assert a + b == b;
    } else {
      assert (a + b)[1..] == a[1..] + b;
      CountConcat(a[1..], b);
    }
  }

  /**
   A toggle adds one to the count when the card was open (including a card
   past the end of a short array) and removes one when it was done.
   */
  lemma ToggleCount(c: seq<bool>, index: nat)
    ensures Done(c, index) ==> CompletedCount(Toggled(c, index)) + 1 == CompletedCount(c)
    ensures !Done(c, index) ==> CompletedCount(Toggled(c, index)) == CompletedCount(c) + 1
  {
    if index < |c| {
      CountAfterUpdate(c, index, !c[index]);
    } else {
      var gap := seq(index - |c|, _ => false);
      CountConcat(c + gap, [true]);
      CountConcat(c, gap);
      assert CompletedCount([true]) == 1;
    }
  }

  /**
   The "Complete Current Day" button: toggle the first open day, or leave the
   array alone when there is none.
   */
  function CompleteFirst(c: seq<bool>): (r: seq<bool>)
    ensures |r| == |c|
    ensures (forall i :: 0 <= i < |c| ==> c[i]) ==> r == c
    ensures FirstIncomplete(c) >= 0 ==>
      r[FirstIncomplete(c)] && forall i :: 0 <= i < |c| && i != FirstIncomplete(c) ==> r[i] == c[i]
  {
    var k := FirstIncomplete(c);
    if k != -1 then Toggled(c, k) else c
  }

  /** Completing the current day adds exactly one completed day, unless all are done. */
  lemma CompleteFirstCount(c: seq<bool>)
    ensures FirstIncomplete(c) >= 0 ==> CompletedCount(CompleteFirst(c)) == CompletedCount(c) + 1
    ensures FirstIncomplete(c) == -1 ==> CompletedCount(CompleteFirst(c)) == CompletedCount(c)
  {
    var k := FirstIncomplete(c);
    if k >= 0 {
      ToggleCount(c, k);
    }
  }

  /** The button never breaks in-order completion. */
  lemma CompleteFirstKeepsOrder(c: seq<bool>)
    requires InOrder(c)
    ensures InOrder(CompleteFirst(c))
  {
    var r := CompleteFirst(c);
    var k := FirstIncomplete(c);
    forall i, j | 0 <= i < j < |r| && r[j]
      ensures r[i]
    {
      if j != k {
        assert c[j];
        if i != k { assert c[i]; }
      }
    }
  }

  /** For an array of at most 20 days, the button never moves "Current Day" back. */
  lemma CurrentDayNeverDecreases(c: seq<bool>)
    requires |c| <= DayCount
    ensures CurrentDay(c) <= CurrentDay(CompleteFirst(c))
  {
    var k := FirstIncomplete(c);
    if k >= 0 {
      var r := CompleteFirst(c);
      var k' := FirstIncomplete(r);
      if k' >= 0 {
        assert r[k];
      }
    }
  }

  /** An example: two days done of twenty. */
  lemma TwoDaysDone()
    ensures var c := [true, true] + seq(18, _ => false);
      && CompletedCount(c) == 2 && ProgressPercentage(c) == 10
      && CurrentDay(c) == 3 && IsCurrent(c, 2)
  {
    var c := [true, true] + seq(18, _ => false);
    assert FirstIncomplete(c[2..]) == 0;
    assert c[2..] == seq(18, _ => false);
    assert CompletedCount(c[2..]) == 0;
    assert c[1..][1..] == c[2..];
  }

  /** A first run: nothing done, day 1 current, empty bar. */
  lemma FreshStart()
    ensures CompletedCount(Fresh()) == 0 && ProgressPercentage(Fresh()) == 0
    ensures CurrentDay(Fresh()) == 1 && IsCurrent(Fresh(), 0)
  {
    assert !Fresh()[0];
  }
}
