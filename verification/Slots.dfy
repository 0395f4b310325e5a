/** Request slots (core/runtime/pipeline.go: userSem, userDone, AcquireSlot,
    TryAcquireSlot, Release; core/runtime/server.go: the per-user share). Every
    goroutine is a sequence of atomic steps: a locked map update, a send or a receive;
    runs are all interleavings of any number of them, with cancellation anywhere. */
module Slots {
  import opened ByteOrder
  import Lists

  type User = Bytes
  type Pid = nat
  type Sem = nat

  /** Where a goroutine is. `leaving`: it gives back what it has. */
  datatype Phase =
    | Idle
    | Counted(sem: Sem, leaving: bool)   // counted on its user's semaphore
    | Share(sem: Sem, leaving: bool)     // holds a unit of the user's share
    | Held(sem: Sem)                     // holds a unit of the share and of the pool

  datatype Proc = Proc(user: User, phase: Phase)

  datatype Entry = Entry(sem: Sem, refs: nat)

  datatype World = World(
    entries: map<User, Entry>,   // the userSlots map
    used: map<Sem, nat>,         // units taken, per semaphore ever made
    pool: nat,                   // units taken of the shared pool
    procs: map<Pid, Proc>)

  datatype Limits = Limits(pool: nat, perUser: nat)

  /** The per-user share: the override or half the pool, kept below the pool. */
  function PerUserShare(pool: nat, override: int): (share: nat)
    requires pool >= 1
    ensures share >= 1
    ensures pool > 1 ==> share < pool
    ensures 0 < override < pool ==> share == override
    ensures override <= 0 && pool > 1 ==> 2 * share <= pool < 2 * share + 2
    ensures override >= pool > 1 ==> share + 1 == pool
    ensures pool == 1 ==> share == if override > 0 then override else 1
  {
    var asked := if override <= 0 then (if pool / 2 > 1 then pool / 2 else 1) else override;
    if pool > 1 && asked >= pool then pool - 1 else asked
  }

  // ---- Steps ----

  datatype Step = Enter(user: User) | TakeShare | TakePool | Cancel | DropPool | DropShare | Leave

  predicate Enabled(w: World, lim: Limits, p: Pid, s: Step) {
    && p in w.procs
    && var ph := w.procs[p].phase;
       match s
       case Enter(_) => ph.Idle?
       case TakeShare => ph.Counted? && !ph.leaving && ph.sem in w.used && w.used[ph.sem] < lim.perUser
       case TakePool => ph.Share? && !ph.leaving && w.pool < lim.pool
       case Cancel => (ph.Counted? || ph.Share?) && !ph.leaving
       case DropPool => ph.Held?
       case DropShare => ph.Share? && ph.leaving
       case Leave => ph.Counted? && ph.leaving
  }

  /** A semaphore no one ever had. */
  function Fresh(used: map<Sem, nat>): (s: Sem)
    ensures s !in used
  {
    FreshAbove(used.Keys);
    var s: Sem :| s !in used && forall t: Sem :: t < s ==> t in used;
    s
  }

  lemma {:induction false} FreshAbove(taken: set<Sem>)
    ensures exists s: Sem :: s !in taken && forall t: Sem :: t < s ==> t in taken
    decreases |taken|
  {
    var s: Sem := 0;
    while s in taken
      invariant forall t: Sem :: t < s ==> t in taken
      decreases |taken| - s
    {
      InitialPart(taken, s + 1);
      s := s + 1;
    }
  }

  lemma {:induction false} InitialPart(taken: set<Sem>, n: nat)
    requires forall t: Sem :: t < n ==> t in taken
    ensures n <= |taken|
  {
    if n > 0 {
      InitialPart(taken - {n - 1}, n - 1);
    }
  }

  function After(w: World, p: Pid, s: Step): World
    requires p in w.procs
  {
    var u, ph := w.procs[p].user, w.procs[p].phase;
    match s
    case Enter(user) =>
      var e := if user in w.entries then w.entries[user] else Entry(Fresh(w.used), 0);
      World(w.entries[user := Entry(e.sem, e.refs + 1)], if e.sem in w.used then w.used else w.used[e.sem := 0],
            w.pool, w.procs[p := Proc(user, Counted(e.sem, false))])
    case TakeShare =>
      if ph.Counted? && ph.sem in w.used
      then w.(used := w.used[ph.sem := w.used[ph.sem] + 1], procs := w.procs[p := Proc(u, Share(ph.sem, false))])
      else w
    case TakePool =>
      if ph.Share? then w.(pool := w.pool + 1, procs := w.procs[p := Proc(u, Held(ph.sem))]) else w
    case Cancel =>
      if ph.Counted? then w.(procs := w.procs[p := Proc(u, Counted(ph.sem, true))])
      else if ph.Share? then w.(procs := w.procs[p := Proc(u, Share(ph.sem, true))]) else w
    case DropPool =>
      if ph.Held? && w.pool > 0 then w.(pool := w.pool - 1, procs := w.procs[p := Proc(u, Share(ph.sem, true))]) else w
    case DropShare =>
      if ph.Share? && ph.sem in w.used && w.used[ph.sem] > 0
      then w.(used := w.used[ph.sem := w.used[ph.sem] - 1], procs := w.procs[p := Proc(u, Counted(ph.sem, true))])
      else w
    case Leave =>
      if ph.Counted? && u in w.entries && w.entries[u].refs > 0 then
        var e := w.entries[u];
        World(if e.refs == 1 then w.entries - {u} else w.entries[u := Entry(e.sem, e.refs - 1)],
              w.used, w.pool, w.procs[p := Proc(u, Idle)])
      else w
  }

  // ---- Who holds what ----

  predicate OnShare(pr: Proc, s: Sem) { (pr.phase.Share? || pr.phase.Held?) && pr.phase.sem == s }
  predicate Busy(pr: Proc, u: User) { !pr.phase.Idle? && pr.user == u }

  function Holders(procs: map<Pid, Proc>): set<Pid> { set p | p in procs && procs[p].phase.Held? }
  function Sharers(procs: map<Pid, Proc>, s: Sem): set<Pid> { set p | p in procs && OnShare(procs[p], s) }
  function BusyOf(procs: map<Pid, Proc>, u: User): set<Pid> { set p | p in procs && Busy(procs[p], u) }

  /** Each counter is the number of goroutines it stands for, and all goroutines of a
      user that are not idle are on the user's one semaphore. */
  ghost predicate Counts(w: World) {
    && w.pool == |Holders(w.procs)|
    && (forall s :: s in w.used ==> w.used[s] == |Sharers(w.procs, s)|)
    && (forall u :: u in w.entries ==> w.entries[u].refs == |BusyOf(w.procs, u)| > 0)
  }

  ghost predicate OneSem(w: World) {
    && (forall p :: p in w.procs && !w.procs[p].phase.Idle? ==>
      w.procs[p].user in w.entries && w.procs[p].phase.sem == w.entries[w.procs[p].user].sem)
    && (forall u, v :: u in w.entries && v in w.entries && u != v ==> w.entries[u].sem != w.entries[v].sem)
    && (forall u :: u in w.entries ==> w.entries[u].sem in w.used)
  }

  ghost predicate Bounded(w: World, lim: Limits) {
    w.pool <= lim.pool && forall s :: s in w.used ==> w.used[s] <= lim.perUser
  }

  ghost predicate Inv(w: World, lim: Limits) { Counts(w) && OneSem(w) && Bounded(w, lim) }

  ghost predicate Init(w: World) {
    w.entries == map[] && w.used == map[] && w.pool == 0 && forall p :: p in w.procs ==> w.procs[p].phase.Idle?
  }

  /** Moving one goroutine moves it in or out of each group, and no other. */
  function Group(g: set<Pid>, p: Pid, inside: bool): set<Pid> { if inside then g + {p} else g - {p} }

  lemma Moved(procs: map<Pid, Proc>, p: Pid, pr: Proc)
    requires p in procs
    ensures var procs' := procs[p := pr];
      && Holders(procs') == Group(Holders(procs), p, pr.phase.Held?)
      && (forall s :: Sharers(procs', s) == Group(Sharers(procs, s), p, OnShare(pr, s)))
      && (forall u :: BusyOf(procs', u) == Group(BusyOf(procs, u), p, Busy(pr, u)))
  {
  }

  lemma EnterSets(w: World, lim: Limits, p: Pid, user: User)
    requires Inv(w, lim) && Enabled(w, lim, p, Enter(user))
    ensures var w' := After(w, p, Enter(user));
      && Holders(w'.procs) == Holders(w.procs)
      && (forall s :: Sharers(w'.procs, s) == Sharers(w.procs, s))
      && (forall u :: u != user ==> BusyOf(w'.procs, u) == BusyOf(w.procs, u))
      && p !in BusyOf(w.procs, user) && BusyOf(w'.procs, user) == BusyOf(w.procs, user) + {p}
  {
    var w' := After(w, p, Enter(user));
    Moved(w.procs, p, w'.procs[p]);
    assert p !in Holders(w.procs) && (forall s :: p !in Sharers(w.procs, s)) && (forall u :: p !in BusyOf(w.procs, u));
  }

  lemma EnterCounts(w: World, lim: Limits, p: Pid, user: User)
    requires Inv(w, lim) && Enabled(w, lim, p, Enter(user))
    ensures Counts(After(w, p, Enter(user)))
  {
    var w' := After(w, p, Enter(user));
    EnterSets(w, lim, p, user);
    if user !in w.entries { NoneBusy(w, user); NoneSharing(w, w'.procs[p].phase.sem); }
    forall s | s in w'.used ensures w'.used[s] == |Sharers(w'.procs, s)| {
      assert Sharers(w'.procs, s) == Sharers(w.procs, s);
    }
    forall u | u in w'.entries ensures w'.entries[u].refs == |BusyOf(w'.procs, u)| > 0 {
      if u != user { assert BusyOf(w'.procs, u) == BusyOf(w.procs, u); }
    }
  }

  lemma EnterOneSem(w: World, lim: Limits, p: Pid, user: User)
    requires Inv(w, lim) && Enabled(w, lim, p, Enter(user))
    ensures OneSem(After(w, p, Enter(user))) && Bounded(After(w, p, Enter(user)), lim)
  {
  }

  lemma EnterKeeps(w: World, lim: Limits, p: Pid, user: User)
    requires Inv(w, lim) && Enabled(w, lim, p, Enter(user))
    ensures Inv(After(w, p, Enter(user)), lim)
  {
    EnterCounts(w, lim, p, user);
    EnterOneSem(w, lim, p, user);
  }

  lemma NoneBusy(w: World, user: User)
    requires OneSem(w) && user !in w.entries
    ensures BusyOf(w.procs, user) == {}
  {
    forall p ensures p !in BusyOf(w.procs, user) { }
  }

  lemma NoneSharing(w: World, s: Sem)
    requires OneSem(w) && s !in w.used
    ensures Sharers(w.procs, s) == {}
  {
    forall p ensures p !in Sharers(w.procs, s) { }
  }

  /** A step that only moves a goroutine on, within its user's semaphore. */
  lemma SameSem(w: World, p: Pid, ph: Phase, w': World)
    requires OneSem(w) && p in w.procs && !w.procs[p].phase.Idle? && !ph.Idle? && ph.sem == w.procs[p].phase.sem
    requires w'.entries == w.entries && w'.procs == w.procs[p := Proc(w.procs[p].user, ph)]
    requires w'.used.Keys == w.used.Keys
    ensures OneSem(w') && forall u :: BusyOf(w'.procs, u) == BusyOf(w.procs, u)
    ensures ph.sem in w.used
  {
    Moved(w.procs, p, w'.procs[p]);
    assert w.procs[p].user in w.entries;
    forall u ensures BusyOf(w'.procs, u) == BusyOf(w.procs, u) {
      assert p in BusyOf(w.procs, u) <==> Busy(w.procs[p], u);
    }
  }

  /** One unit more or less of a semaphore, for one goroutine more or less on it. */
  lemma ShareCounts(w: World, p: Pid, w': World, s: Sem, on: bool)
    requires Counts(w) && p in w.procs && p in w'.procs
    requires w'.procs == w.procs[p := w'.procs[p]] && s in w.used && (on || w.used[s] > 0)
    requires (forall x :: OnShare(w.procs[p], x) <==> !on && x == s)
    requires (forall x :: OnShare(w'.procs[p], x) <==> on && x == s)
    requires w'.used == w.used[s := if on then w.used[s] + 1 else w.used[s] - 1]
    ensures forall x :: x in w'.used ==> w'.used[x] == |Sharers(w'.procs, x)|
  {
    Moved(w.procs, p, w'.procs[p]);
    forall x | x in w'.used ensures w'.used[x] == |Sharers(w'.procs, x)| {
      assert p in Sharers(w.procs, x) <==> OnShare(w.procs[p], x);
      assert Sharers(w'.procs, x) == Group(Sharers(w.procs, x), p, OnShare(w'.procs[p], x));
    }
  }

  lemma HoldersKept(w: World, p: Pid, w': World)
    requires p in w.procs && p in w'.procs && w'.procs == w.procs[p := w'.procs[p]]
    requires !w.procs[p].phase.Held? && !w'.procs[p].phase.Held?
    ensures Holders(w'.procs) == Holders(w.procs)
  {
    Moved(w.procs, p, w'.procs[p]);
  }

  lemma TakeShareKeeps(w: World, lim: Limits, p: Pid)
    requires Inv(w, lim) && Enabled(w, lim, p, TakeShare)
    ensures Inv(After(w, p, TakeShare), lim)
  {
    var w', ph := After(w, p, TakeShare), w.procs[p].phase;
    SameSem(w, p, w'.procs[p].phase, w');
    HoldersKept(w, p, w');
    ShareCounts(w, p, w', ph.sem, true);
  }

  lemma TakePoolKeeps(w: World, lim: Limits, p: Pid)
    requires Inv(w, lim) && Enabled(w, lim, p, TakePool)
    ensures Inv(After(w, p, TakePool), lim)
  {
    var w', ph := After(w, p, TakePool), w.procs[p].phase;
    SameSem(w, p, w'.procs[p].phase, w');
    Moved(w.procs, p, w'.procs[p]);
    SharersKept(w, p, w');
    assert p !in Holders(w.procs);
  }

  lemma SharersKept(w: World, p: Pid, w': World)
    requires p in w.procs && p in w'.procs && w'.procs == w.procs[p := w'.procs[p]]
    requires forall s :: OnShare(w.procs[p], s) <==> OnShare(w'.procs[p], s)
    ensures forall s :: Sharers(w'.procs, s) == Sharers(w.procs, s)
  {
    forall s ensures Sharers(w'.procs, s) == Sharers(w.procs, s) {
      Moved(w.procs, p, w'.procs[p]);
      assert p in Sharers(w.procs, s) <==> OnShare(w.procs[p], s);
    }
  }

  lemma CancelKeeps(w: World, lim: Limits, p: Pid)
    requires Inv(w, lim) && Enabled(w, lim, p, Cancel)
    ensures Inv(After(w, p, Cancel), lim)
  {
    var w' := After(w, p, Cancel);
    SameSem(w, p, w'.procs[p].phase, w');
    Moved(w.procs, p, w'.procs[p]);
    SharersKept(w, p, w');
    assert Holders(w'.procs) == Holders(w.procs);
  }

  /** The receive from the pool never blocks. */
  lemma DropPoolKeeps(w: World, lim: Limits, p: Pid)
    requires Inv(w, lim) && Enabled(w, lim, p, DropPool)
    ensures w.pool > 0 && Inv(After(w, p, DropPool), lim)
  {
    assert p in Holders(w.procs);
    var w' := After(w, p, DropPool);
    SameSem(w, p, w'.procs[p].phase, w');
    Moved(w.procs, p, w'.procs[p]);
    SharersKept(w, p, w');
  }

  /** Nor does the receive from the semaphore, which is the one that was sent to. */
  lemma DropShareKeeps(w: World, lim: Limits, p: Pid)
    requires Inv(w, lim) && Enabled(w, lim, p, DropShare)
    ensures w.procs[p].phase.sem in w.used && w.used[w.procs[p].phase.sem] > 0 && Inv(After(w, p, DropShare), lim)
  {
    var ph := w.procs[p].phase;
    assert w.procs[p].user in w.entries && p in Sharers(w.procs, ph.sem);
    var w' := After(w, p, DropShare);
    SameSem(w, p, w'.procs[p].phase, w');
    HoldersKept(w, p, w');
    ShareCounts(w, p, w', ph.sem, false);
  }

  lemma LeaveSets(w: World, lim: Limits, p: Pid)
    requires Inv(w, lim) && Enabled(w, lim, p, Leave)
    ensures var w', u := After(w, p, Leave), w.procs[p].user;
      && u in w.entries && w.entries[u].refs > 0
      && Holders(w'.procs) == Holders(w.procs)
      && (forall s :: Sharers(w'.procs, s) == Sharers(w.procs, s))
      && (forall v :: v != u ==> BusyOf(w'.procs, v) == BusyOf(w.procs, v))
      && p in BusyOf(w.procs, u) && BusyOf(w'.procs, u) == BusyOf(w.procs, u) - {p}
  {
    var u := w.procs[p].user;
    assert u in w.entries && p in BusyOf(w.procs, u);
    var w' := After(w, p, Leave);
    HoldersKept(w, p, w');
    SharersKept(w, p, w');
    forall v ensures BusyOf(w'.procs, v) == BusyOf(w.procs, v) - {p} && (v != u ==> p !in BusyOf(w.procs, v)) {
      Moved(w.procs, p, w'.procs[p]);
    }
  }

  lemma LeaveCounts(w: World, lim: Limits, p: Pid)
    requires Inv(w, lim) && Enabled(w, lim, p, Leave)
    ensures Counts(After(w, p, Leave))
  {
    var w', u := After(w, p, Leave), w.procs[p].user;
    LeaveSets(w, lim, p);
    forall v | v in w'.entries ensures w'.entries[v].refs == |BusyOf(w'.procs, v)| > 0 {
      if v != u { assert BusyOf(w'.procs, v) == BusyOf(w.procs, v); }
    }
    forall s | s in w'.used ensures w'.used[s] == |Sharers(w'.procs, s)| {
      assert Sharers(w'.procs, s) == Sharers(w.procs, s);
    }
  }

  lemma LeaveOneSem(w: World, lim: Limits, p: Pid)
    requires Inv(w, lim) && Enabled(w, lim, p, Leave)
    ensures OneSem(After(w, p, Leave)) && Bounded(After(w, p, Leave), lim)
  {
    var w', u := After(w, p, Leave), w.procs[p].user;
    LeaveSets(w, lim, p);
    if w.entries[u].refs == 1 { LastOne(BusyOf(w.procs, u), p); }
    forall q | q in w'.procs && !w'.procs[q].phase.Idle? ensures w'.procs[q].user in w'.entries {
      assert q != p && w.procs[q].user in w.entries;
      assert w.procs[q].user == u ==> q in BusyOf(w'.procs, u);
    }
  }

  lemma LeaveKeeps(w: World, lim: Limits, p: Pid)
    requires Inv(w, lim) && Enabled(w, lim, p, Leave)
    ensures w.procs[p].user in w.entries && Inv(After(w, p, Leave), lim)
  {
    LeaveSets(w, lim, p);
    LeaveCounts(w, lim, p);
    LeaveOneSem(w, lim, p);
  }

  lemma LastOne(g: set<Pid>, p: Pid)
    requires p in g && |g| == 1
    ensures g - {p} == {}
  {
    assert |g - {p}| == 0;
  }

  lemma StepKeepsInv(w: World, lim: Limits, p: Pid, s: Step)
    requires Inv(w, lim) && Enabled(w, lim, p, s)
    ensures Inv(After(w, p, s), lim)
  {
    match s
    case Enter(user) => EnterKeeps(w, lim, p, user);
    case TakeShare => TakeShareKeeps(w, lim, p);
    case TakePool => TakePoolKeeps(w, lim, p);
    case Cancel => CancelKeeps(w, lim, p);
    case DropPool => DropPoolKeeps(w, lim, p);
    case DropShare => DropShareKeeps(w, lim, p);
    case Leave => LeaveKeeps(w, lim, p);
  }

  // ---- Runs ----

  ghost predicate Next(w: World, lim: Limits, w': World) {
    exists p, s :: Enabled(w, lim, p, s) && w' == After(w, p, s)
  }

  ghost predicate NextAt(run: seq<World>, lim: Limits, i: int)
    requires 0 <= i < |run| - 1
  {
    Next(run[i], lim, run[i + 1])
  }

  ghost predicate IsRun(run: seq<World>, lim: Limits) {
    |run| > 0 && Init(run[0]) && forall i :: 0 <= i < |run| - 1 ==> NextAt(run, lim, i)
  }

  lemma InitHolds(w: World, lim: Limits)
    requires Init(w)
    ensures Inv(w, lim)
  {
    assert Holders(w.procs) == {};
  }

  lemma {:induction false} Reachable(run: seq<World>, lim: Limits, i: nat)
    requires IsRun(run, lim) && i < |run|
    ensures Inv(run[i], lim)
  {
    if i == 0 {
      InitHolds(run[0], lim);
    } else {
      Reachable(run, lim, i - 1);
      assert NextAt(run, lim, i - 1);
      var p, s :| Enabled(run[i - 1], lim, p, s) && run[i] == After(run[i - 1], p, s);
      StepKeepsInv(run[i - 1], lim, p, s);
    }
  }

  function HeldBy(procs: map<Pid, Proc>, u: User): set<Pid> {
    set p | p in procs && procs[p].phase.Held? && procs[p].user == u
  }

  /** At every moment of every run, no user holds more than its share and all together
      no more than the pool; and where the share is below the pool, a user alone never
      keeps another from the last slot. */
  lemma SharesHold(run: seq<World>, lim: Limits, i: nat, u: User)
    requires IsRun(run, lim) && i < |run|
    ensures |HeldBy(run[i].procs, u)| <= lim.perUser && |Holders(run[i].procs)| <= lim.pool
    ensures lim.perUser < lim.pool && HeldBy(run[i].procs, u) == Holders(run[i].procs) ==> run[i].pool < lim.pool
  {
    var w := run[i];
    Reachable(run, lim, i);
    if u in w.entries {
      var s := w.entries[u].sem;
      assert HeldBy(w.procs, u) <= Sharers(w.procs, s);
      Lists.SubsetSize(HeldBy(w.procs, u), Sharers(w.procs, s));
    } else {
      NoneBusy(w, u);
      assert HeldBy(w.procs, u) <= BusyOf(w.procs, u);
    }
  }

  /** All goroutines of a user that are not idle are on one semaphore, which no other
      user's is. */
  lemma SharedSemaphore(run: seq<World>, lim: Limits, i: nat, p: Pid, q: Pid)
    requires IsRun(run, lim) && i < |run| && p in run[i].procs && q in run[i].procs
    requires !run[i].procs[p].phase.Idle? && !run[i].procs[q].phase.Idle?
    ensures run[i].procs[p].phase.sem == run[i].procs[q].phase.sem <==> run[i].procs[p].user == run[i].procs[q].user
  {
    Reachable(run, lim, i);
    assert run[i].procs[p].user in run[i].entries && run[i].procs[q].user in run[i].entries;
  }

  /** Nothing leaks: whenever all goroutines are idle, cancelled or not, no unit is
      taken and no map entry is left. */
  lemma NothingLeaks(run: seq<World>, lim: Limits, i: nat)
    requires IsRun(run, lim) && i < |run| && forall p :: p in run[i].procs ==> run[i].procs[p].phase.Idle?
    ensures run[i].entries == map[] && run[i].pool == 0 && forall s :: s in run[i].used ==> run[i].used[s] == 0
  {
    var w := run[i];
    Reachable(run, lim, i);
    assert Holders(w.procs) == {};
    forall s | s in w.used ensures w.used[s] == 0 { assert Sharers(w.procs, s) == {}; }
    forall u ensures u !in w.entries { assert BusyOf(w.procs, u) == {}; }
  }

  /** A goroutine on its way out is never stuck: its next step is enabled, and the
      channel it receives from is not empty. */
  lemma LeavingNeverBlocks(run: seq<World>, lim: Limits, i: nat, p: Pid)
    requires IsRun(run, lim) && i < |run| && p in run[i].procs
    requires var ph := run[i].procs[p].phase; ph.Held? || (!ph.Idle? && ph.leaving)
    ensures var w, ph := run[i], run[i].procs[p].phase;
      && (ph.Held? ==> w.pool > 0 && Enabled(w, lim, p, DropPool))
      && (ph.Share? ==> ph.sem in w.used && w.used[ph.sem] > 0 && Enabled(w, lim, p, DropShare))
      && (ph.Counted? ==> w.procs[p].user in w.entries && Enabled(w, lim, p, Leave))
  {
    var w, ph := run[i], run[i].procs[p].phase;
    Reachable(run, lim, i);
    if ph.Held? { DropPoolKeeps(w, lim, p); }
    else if ph.Share? { DropShareKeeps(w, lim, p); }
    else { LeaveKeeps(w, lim, p); }
  }

  /** The goroutines of the user that hold a unit of its share. */
  ghost function SharingUser(procs: map<Pid, Proc>, u: User): set<Pid> {
    set p | p in procs && procs[p].user == u && (procs[p].phase.Share? || procs[p].phase.Held?)
  }

  /** A unit that is free is granted: entering never waits, a user below its share gets one
      more of it, and whoever has one and finds the pool not full gets a slot. */
  lemma FreeUnitsGranted(run: seq<World>, lim: Limits, i: nat, p: Pid, u: User)
    requires IsRun(run, lim) && i < |run| && p in run[i].procs
    ensures var w, ph := run[i], run[i].procs[p].phase;
      && (ph.Idle? ==>
          Enabled(w, lim, p, Enter(u)) && After(w, p, Enter(u)).procs[p].user == u
          && After(w, p, Enter(u)).procs[p].phase.Counted?)
      && (ph.Counted? && !ph.leaving && |SharingUser(w.procs, w.procs[p].user)| < lim.perUser ==>
          Enabled(w, lim, p, TakeShare) && After(w, p, TakeShare).procs[p].phase.Share?)
      && (ph.Share? && !ph.leaving && |Holders(w.procs)| < lim.pool ==>
          Enabled(w, lim, p, TakePool) && After(w, p, TakePool).procs[p].phase.Held?)
  {
    var w, ph := run[i], run[i].procs[p].phase;
    Reachable(run, lim, i);
    if ph.Counted? {
      assert SharingUser(w.procs, w.procs[p].user) == Sharers(w.procs, ph.sem) by {
        forall q ensures q in SharingUser(w.procs, w.procs[p].user) <==> q in Sharers(w.procs, ph.sem) {
          if q in w.procs && !w.procs[q].phase.Idle? { SharedSemaphore(run, lim, i, p, q); }
        }
      }
    }
  }
}
