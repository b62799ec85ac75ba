/**
 Going round: the threads of lab01/ex3.c and lab01/ex5.c visit the places 0, 1, and so on in turn,
 as many rounds as they have turns.
 */
module Visits {

  function Next(j: nat, places: nat): nat { if j + 1 < places then j + 1 else 0 }

  // The place of the n-th visit: whole rounds do not matter.
  function PlaceOf(n: nat, places: nat): nat
    requires places > 0
  {
    if n < places then n else PlaceOf(n - places, places)
  }

  lemma PlaceOfNone(places: nat)
    requires places > 0
    ensures PlaceOf(0, places) == 0
  {
  }

  lemma {:induction false} PlaceOfNext(n: nat, places: nat)
    requires places > 0
    ensures PlaceOf(n + 1, places) == Next(PlaceOf(n, places), places)
  {
    if n >= places {
      PlaceOfNext(n - places, places);
    }
  }
}
