/** The "Read more" tracker: the set of recommendation indices shown in full. */
module ExpandTracker {

  /** Flip `i`'s membership and leave every other index alone. The result is a
      new set value; the argument is never changed. */
  function Toggle(expanded: set<nat>, i: nat): (r: set<nat>)
    ensures i in r <==> i !in expanded
    ensures forall j :: j != i ==> (j in r <==> j in expanded)
  {
    if i in expanded then expanded - {i} else expanded + {i}
  }

  /** Toggling the same index twice restores the set. */
  lemma ToggleTwice(expanded: set<nat>, i: nat)
    ensures Toggle(Toggle(expanded, i), i) == expanded
  {
  }

  /** Entries are independent: the order of two toggles does not matter. */
  lemma ToggleCommutes(expanded: set<nat>, i: nat, j: nat)
    ensures Toggle(Toggle(expanded, i), j) == Toggle(Toggle(expanded, j), i)
  {
  }

  /** The set after a run of clicks, one index per click. */
  function ToggleAll(expanded: set<nat>, clicks: seq<nat>): set<nat>
    decreases |clicks|
  {
    if |clicks| == 0 then expanded
    else ToggleAll(Toggle(expanded, clicks[0]), clicks[1..])
  }

  /** How many of the clicks were on entry `i`. */
  function Clicks(clicks: seq<nat>, i: nat): nat
    decreases |clicks|
  {
    if |clicks| == 0 then 0
    else (if clicks[0] == i then 1 else 0) + Clicks(clicks[1..], i)
  }

  /** After any run of clicks, an entry is expanded exactly when its starting
      state was flipped an odd number of times. */
  lemma {:induction false} ToggleAllParity(expanded: set<nat>, clicks: seq<nat>, i: nat)
    ensures i in ToggleAll(expanded, clicks) <==> ((i in expanded) != (Clicks(clicks, i) % 2 == 1))
    decreases |clicks|
  {
    if |clicks| > 0 {
      ToggleAllParity(Toggle(expanded, clicks[0]), clicks[1..], i);
    }
  }
}
