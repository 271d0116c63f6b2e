/** A one-bit memory that is set by one condition and cleared by another. */
module Latch {

  datatype Event = Event(sets: bool, clears: bool)

  function Next(on: bool, e: Event): bool {
    e.sets || (on && !e.clears)
  }

  function After(on: bool, events: seq<Event>): bool {
    if events == [] then on else Next(After(on, events[..|events| - 1]), events[|events| - 1])
  }

  /** Nothing clears from position k on. */
  ghost predicate HeldFrom(events: seq<Event>, k: nat) {
    forall j :: k <= j < |events| ==> !events[j].clears
  }

  ghost predicate SetAndHeld(events: seq<Event>, k: nat) {
    k < |events| && events[k].sets && HeldFrom(events, k + 1)
  }

  /** The bit summarises the history: it is on exactly when some event set it and none since
      cleared it, or it started on and nothing ever cleared it. */
  lemma {:induction false} AfterIsHistory(on: bool, events: seq<Event>)
    ensures After(on, events) ==> (on && HeldFrom(events, 0)) || exists k: nat :: SetAndHeld(events, k)
    ensures (on && HeldFrom(events, 0)) || (exists k: nat :: SetAndHeld(events, k)) ==> After(on, events)
    decreases |events|
  {
    if events != [] {
      var n: nat := |events| - 1;
      var front := events[..n];
      AfterIsHistory(on, front);
      if After(on, events) {
        if events[n].sets {
          assert SetAndHeld(events, n);
        } else if k: nat :| SetAndHeld(front, k) {
          assert HeldFrom(events, k + 1) by {
            forall j | k + 1 <= j < |events| ensures !events[j].clears { if j < n { assert !front[j].clears; } }
          }
          assert SetAndHeld(events, k);
        } else {
          forall j | 0 <= j < |events| ensures !events[j].clears { if j < n { assert !front[j].clears; } }
        }
      }
      if k: nat :| SetAndHeld(events, k) {
        if k < n { assert SetAndHeld(front, k); }
      }
    }
  }
}
