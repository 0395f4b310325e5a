/** One type's history as the commit sequence numbers it: `states[n]` is the table
    after commit n, `entries[n - 1]` the ids commit n logged for the type. A commit
    that does not touch the type logs nothing. */
module History {
  import opened ByteOrder
  import opened Results

  datatype Change = Change(created: set<Id>, updated: set<Id>, destroyed: set<Id>) {
    function All(): set<Id> { created + updated + destroyed }
  }

  datatype History = History(states: seq<Table>, entries: seq<Change>)

  /** A log entry tells the truth about one commit: what it does not name is
      unchanged, what it creates did not exist, what it updates or destroys did. */
  ghost predicate LegalStep(before: Table, c: Change, after: Table) {
    && c.created !! before.Keys
    && c.updated + c.destroyed <= before.Keys
    && c.updated !! c.destroyed
    && after.Keys == before.Keys + c.created - c.destroyed
    && forall id :: id in before && id !in c.All() ==> after[id] == before[id]
  }

  ghost predicate Legal(h: History) {
    && |h.states| == |h.entries| + 1
    && forall n :: 0 <= n < |h.entries| ==> LegalStep(h.states[n], h.entries[n], h.states[n + 1])
  }

  ghost predicate Window(h: History, a: int, b: int) {
    Legal(h) && 0 <= a <= b <= |h.entries|
  }

  /** Every id logged in commits a+1 .. b. */
  ghost function Touched(h: History, a: nat, b: nat): set<Id>
    requires Window(h, a, b)
  {
    if a == b then {} else Touched(h, a, b - 1) + h.entries[b - 1].All()
  }

  /** Every id logged as created or destroyed in commits a+1 .. b. */
  ghost function CameOrWent(h: History, a: nat, b: nat): set<Id>
    requires Window(h, a, b)
  {
    if a == b then {} else CameOrWent(h, a, b - 1) + h.entries[b - 1].created + h.entries[b - 1].destroyed
  }

  /** The type's state string after commit n: the last commit that touched it. */
  ghost function TypeState(h: History, n: nat): (s: nat)
    requires Window(h, n, n)
    ensures s <= n
  {
    if n == 0 || h.entries[n - 1].All() != {} then n else TypeState(h, n - 1)
  }

  lemma {:induction false} TouchedSplit(h: History, a: nat, b: nat, c: nat)
    requires Window(h, a, b) && Window(h, b, c)
    ensures Touched(h, a, c) == Touched(h, a, b) + Touched(h, b, c)
    ensures CameOrWent(h, a, c) == CameOrWent(h, a, b) + CameOrWent(h, b, c)
  {
    if b < c { TouchedSplit(h, a, b, c - 1); }
  }

  /** An id the log does not name over a window is the same at both ends. */
  lemma {:induction false} UntouchedSame(h: History, a: nat, b: nat, id: Id)
    requires Window(h, a, b) && id !in Touched(h, a, b)
    ensures id in h.states[a] <==> id in h.states[b]
    ensures id in h.states[a] && id in h.states[b] ==> h.states[a][id] == h.states[b][id]
  {
    if a < b {
      UntouchedSame(h, a, b - 1, id);
      assert LegalStep(h.states[b - 1], h.entries[b - 1], h.states[b]);
    }
  }

  lemma {:induction false} CameOrWentTouched(h: History, a: nat, b: nat)
    requires Window(h, a, b)
    ensures CameOrWent(h, a, b) <= Touched(h, a, b)
  {
    if a < b { CameOrWentTouched(h, a, b - 1); }
  }

  lemma {:induction false} StayedPresent(h: History, a: nat, b: nat, id: Id)
    requires Window(h, a, b) && id !in CameOrWent(h, a, b)
    ensures id in h.states[a] <==> id in h.states[b]
  {
    if a < b {
      StayedPresent(h, a, b - 1, id);
      assert LegalStep(h.states[b - 1], h.entries[b - 1], h.states[b]);
    }
  }

  /** State strings tell the truth: between two commits at which the type's state
      is equal, the log names nothing and the table is the same throughout. */
  lemma {:induction false} StateTellsTruth(h: History, a: nat, b: nat)
    requires Window(h, a, b) && TypeState(h, b) <= a
    ensures Touched(h, a, b) == {} && CameOrWent(h, a, b) == {} && h.states[a] == h.states[b]
  {
    if a < b {
      StateTellsTruth(h, a, b - 1);
      assert LegalStep(h.states[b - 1], h.entries[b - 1], h.states[b]);
    }
  }

  lemma {:induction false} StateAgrees(h: History, a: nat, b: nat)
    requires Window(h, a, b)
    ensures TypeState(h, a) <= TypeState(h, b)
    ensures TypeState(h, b) <= a ==> TypeState(h, b) == TypeState(h, a)
    ensures TypeState(h, TypeState(h, b)) == TypeState(h, b)
  {
    if a < b {
      StateAgrees(h, a, b - 1);
    } else {
      StateOfState(h, a);
    }
  }

  lemma {:induction false} StateOfState(h: History, a: nat)
    requires Window(h, a, a)
    ensures TypeState(h, TypeState(h, a)) == TypeState(h, a)
  {
    if a > 0 && h.entries[a - 1].All() == {} { StateOfState(h, a - 1); }
  }

  // ---- Net effect of a window: what ChangedSince reports ----

  ghost function NetCreated(h: History, a: nat, b: nat): set<Id>
    requires Window(h, a, b)
  { h.states[b].Keys - h.states[a].Keys }

  ghost function NetDestroyed(h: History, a: nat, b: nat): set<Id>
    requires Window(h, a, b)
  { h.states[a].Keys - h.states[b].Keys }

  ghost function NetUpdated(h: History, a: nat, b: nat): set<Id>
    requires Window(h, a, b)
  { Touched(h, a, b) * h.states[a].Keys * h.states[b].Keys }
}
