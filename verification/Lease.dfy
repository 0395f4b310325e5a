/** The per-account writer lease (core/providers/lease) as a step system: any number
    of instances, of either manager, compete for one claim record by compare-and-swap,
    and every batch is fenced on the claim. Clocks are not modelled: whether a claim
    looks expired, and when an instance gives up, stalls or is restarted, is free.
    A swap or a batch may also take effect and have its reply lost. */
module Lease {
  import opened Options
  import opened Keys
  import opened Store

  type Instance = nat

  /** mintToken: an expiry, the instance's nonce, and its mint counter. The nonces of
      two instances differ. */
  datatype Token = Token(expiry: int, nonce: Instance, n: nat)

  type View = map<Key, Option<Val>>

  /** One account, seen from one instance; the local mutex is free in `Free` only. */
  datatype Phase =
    | Free
    | Minted(mine: Token)
    | Trying(mine: Token, expected: Option<Token>)
    | Holding(mine: Token, view: View, since: nat) // since: commits made before the lease was won

  /** cached: InProcess's last own claim, swapped against without a read. */
  datatype Local = Local(inProcess: bool, minted: nat, cached: Option<Token>, phase: Phase)

  /** A fenced batch that was applied: who wrote it, what it had read under the lease,
      and the store around it. */
  datatype Commit = Commit(writer: Token, since: nat, view: View, before: Store, after: Store)

  /** used: every token that has ever been the claim. */
  datatype World = World(claim: Option<Token>, store: Store, locals: map<Instance, Local>,
                         used: set<Token>, commits: seq<Commit>)

  datatype Step =
    | Join(i: Instance, inProcess: bool)    // a process starts, or restarts under a new nonce
    | Mint(i: Instance, expiry: int)        // take the local mutex, mint a token
    | ReadClaim(i: Instance)                // getClaim
    | UseCached(i: Instance)                // InProcess fast path
    | Swap(i: Instance, replyLost: bool)    // cas
    | GiveUp(i: Instance)                   // cancelled or failed: unlock
    | Read(i: Instance, k: Key)             // a read under the lease
    | Write(i: Instance, ops: seq<Op>)      // WriteBatch with the fence appended
    | Release(i: Instance, expiry: int, swapLost: bool)

  ghost predicate Init(w: World) {
    w.claim == None && w.locals == map[] && w.used == {} && w.commits == []
  }

  function SetLocal(w: World, i: Instance, l: Local): World { w.(locals := w.locals[i := l]) }

  /** One step; a step whose guard fails changes nothing. */
  function Next(w: World, step: Step): World {
    if step.Join? then
      if step.i in w.locals then w else SetLocal(w, step.i, Local(step.inProcess, 0, None, Free))
    else if step.i !in w.locals then w
    else
      var i, l := step.i, w.locals[step.i];
      match step
      case Mint(_, expiry) =>
        if !l.phase.Free? then w
        else SetLocal(w, i, l.(minted := l.minted + 1, phase := Minted(Token(expiry, i, l.minted + 1))))
      case ReadClaim(_) =>
        if !l.phase.Minted? then w
        else SetLocal(w, i, l.(phase := Trying(l.phase.mine, w.claim)))
      case UseCached(_) =>
        if !(l.phase.Minted? && l.inProcess && l.cached.Some?) then w
        else SetLocal(w, i, l.(phase := Trying(l.phase.mine, l.cached)))
      case Swap(_, replyLost) =>
        if !l.phase.Trying? then w
        else if w.claim != l.phase.expected then
          // Lost the race. InProcess retries with the same token, StoreLease mints anew.
          SetLocal(w, i, l.(phase := if l.inProcess then Minted(l.phase.mine) else Free))
        else
          var mine := l.phase.mine;
          var l' := if replyLost then l.(phase := Free)
                    else l.(phase := Holding(mine, map[], |w.commits|),
                            cached := if l.inProcess then Some(mine) else l.cached);
          SetLocal(w, i, l').(claim := Some(mine), used := w.used + {mine})
      case GiveUp(_) =>
        if l.phase.Holding? then w else SetLocal(w, i, l.(phase := Free))
      case Read(_, k) =>
        if !l.phase.Holding? then w
        else SetLocal(w, i, l.(phase := l.phase.(view := l.phase.view[k := Lookup(w.store, k)])))
      case Write(_, ops) =>
        if !(l.phase.Holding? && w.claim == Some(l.phase.mine)) then w // the fence fails, nothing is applied
        else
          var after := Apply(w.store, ops);
          SetLocal(w, i, l.(phase := l.phase.(view := map[]))).(
            store := after,
            commits := w.commits + [Commit(l.phase.mine, l.phase.since, l.phase.view, w.store, after)])
      case Release(_, expiry, swapLost) =>
        if !l.phase.Holding? then w
        else if l.inProcess then SetLocal(w, i, l.(phase := Free))
        else
          // Replace the claim by a fresh expired token, if it is still ours.
          var dead := Token(expiry, i, l.minted + 1);
          var w' := SetLocal(w, i, l.(minted := l.minted + 1, phase := Free));
          if w.claim != Some(l.phase.mine) || swapLost then w'
          else w'.(claim := Some(dead), used := w.used + {dead})
  }

  // ---- The invariant ----

  /** A token minted by a known instance. */
  predicate Known(w: World, t: Token) { t.nonce in w.locals && t.n <= w.locals[t.nonce].minted }

  /** Tokens are minted once and become the claim at most once: a token still to be
      swapped in has never been the claim, and a claim that was replaced stays gone. */
  ghost predicate TokensFresh(w: World) {
    && (w.claim.Some? ==> w.claim.value in w.used)
    && (forall t :: t in w.used ==> Known(w, t))
    && (forall i :: i in w.locals && !w.locals[i].phase.Free? ==> OwnToken(w, i))
  }

  ghost predicate OwnToken(w: World, i: Instance)
    requires i in w.locals && !w.locals[i].phase.Free?
  {
    var p := w.locals[i].phase;
    p.mine.nonce == i && Known(w, p.mine) && (p.Holding? <==> p.mine in w.used)
  }

  /** While its token is the claim, a holder is the only one to have committed since
      it won the lease, and everything it has read is still so. */
  ghost predicate HolderAlone(w: World) {
    forall i :: i in w.locals && w.locals[i].phase.Holding? && w.claim == Some(w.locals[i].phase.mine) ==>
      var p := w.locals[i].phase;
      && p.since <= |w.commits|
      && (forall j :: p.since <= j < |w.commits| ==> w.commits[j].writer == p.mine)
      && (forall k :: k in p.view ==> p.view[k] == Lookup(w.store, k))
  }

  /** The committed batches in order, each on the store the one before it left. */
  ghost predicate Serial(w: World, start: Store) {
    && (forall j :: 0 <= j < |w.commits| ==> w.commits[j].before == StoreAt(w.commits, start, j))
    && w.store == StoreAt(w.commits, start, |w.commits|)
  }

  /** The store after the first j batches. */
  function StoreAt(commits: seq<Commit>, start: Store, j: nat): Store
    requires j <= |commits|
  {
    if j == 0 then start else commits[j - 1].after
  }

  /** Every read a batch was computed from still holds in the store it was applied to,
      and no other lease committed since its own was won. */
  ghost predicate ReadsCurrent(c: Commit) {
    forall k :: k in c.view ==> c.view[k] == Lookup(c.before, k)
  }

  ghost predicate Alone(commits: seq<Commit>, j: int)
    requires 0 <= j < |commits|
  {
    forall m :: commits[j].since <= m < j ==> 0 <= m && commits[m].writer == commits[j].writer
  }

  ghost predicate Serializable(w: World) {
    forall j :: 0 <= j < |w.commits| ==> ReadsCurrent(w.commits[j]) && Alone(w.commits, j)
  }

  ghost predicate Inv(w: World, start: Store) {
    TokensFresh(w) && HolderAlone(w) && Serial(w, start) && Serializable(w)
  }

  lemma StepKeepsTokens(w: World, step: Step)
    requires TokensFresh(w)
    ensures TokensFresh(Next(w, step))
  {
    var w' := Next(w, step);
    UsedStaysKnown(w, step);
    forall i | i in w'.locals && !w'.locals[i].phase.Free? ensures OwnToken(w', i) {
      if i == step.i { StepOwnToken(w, step); } else { assert OwnToken(w, i); }
    }
  }

  lemma UsedStaysKnown(w: World, step: Step)
    requires TokensFresh(w)
    ensures var w' := Next(w, step); (w'.claim.Some? ==> w'.claim.value in w'.used) && forall t :: t in w'.used ==>
      Known(w', t)
  {
    if step.i in w.locals && !w.locals[step.i].phase.Free? { assert OwnToken(w, step.i); }
  }

  lemma StepOwnToken(w: World, step: Step)
    requires TokensFresh(w) && step.i in Next(w, step).locals && !Next(w, step).locals[step.i].phase.Free?
    ensures OwnToken(Next(w, step), step.i)
  {
    if step.i in w.locals && !w.locals[step.i].phase.Free? { assert OwnToken(w, step.i); }
  }

  lemma StepKeepsHolder(w: World, step: Step)
    requires TokensFresh(w) && HolderAlone(w)
    ensures HolderAlone(Next(w, step))
  {
    var w' := Next(w, step);
    forall i | i in w'.locals && w'.locals[i].phase.Holding? && w'.claim == Some(w'.locals[i].phase.mine)
      ensures var p := w'.locals[i].phase;
        && p.since <= |w'.commits|
        && (forall j :: p.since <= j < |w'.commits| ==> w'.commits[j].writer == p.mine)
        && (forall k :: k in p.view ==> p.view[k] == Lookup(w'.store, k))
    {
      if i == step.i && !step.Join? {
        HolderOwnStep(w, step);
      } else {
        assert w'.locals[i] == w.locals[i];
        assert w'.claim == w.claim;
      }
    }
  }

  lemma HolderOwnStep(w: World, step: Step)
    requires TokensFresh(w) && HolderAlone(w) && !step.Join? && step.i in w.locals
    requires var w' := Next(w, step); w'.locals[step.i].phase.Holding? && w'.claim == Some(w'.locals[step.i].phase.mine)
    ensures var w' := Next(w, step);
      var p := w'.locals[step.i].phase;
      && p.since <= |w'.commits|
      && (forall j :: p.since <= j < |w'.commits| ==> w'.commits[j].writer == p.mine)
      && (forall k :: k in p.view ==> p.view[k] == Lookup(w'.store, k))
  {
  }

  /** A step commits one batch, or none and leaves the store. */
  ghost predicate Adds(w: World, w': World, c: Commit) {
    w'.commits == w.commits + [c] && c.before == w.store && c.after == w'.store
  }

  lemma StepCommits(w: World, step: Step) returns (c: Option<Commit>)
    requires HolderAlone(w)
    ensures c.None? ==> Next(w, step).commits == w.commits && Next(w, step).store == w.store
    ensures c.Some? ==> Adds(w, Next(w, step), c.value) && ReadsCurrent(c.value) && c.value.since <= |w.commits|
    ensures c.Some? ==> forall m :: c.value.since <= m < |w.commits| ==> w.commits[m].writer == c.value.writer
  {
    if step.Write? && step.i in w.locals && w.locals[step.i].phase.Holding?
       && w.claim == Some(w.locals[step.i].phase.mine) {
      var p := w.locals[step.i].phase;
      c := Some(Commit(p.mine, p.since, p.view, w.store, Apply(w.store, step.ops)));
    } else {
      c := None;
    }
  }

  lemma SerialSnoc(w: World, w': World, c: Commit, start: Store)
    requires Serial(w, start) && Adds(w, w', c)
    ensures Serial(w', start)
  {
    forall j | 0 <= j < |w'.commits| ensures w'.commits[j].before == StoreAt(w'.commits, start, j) {
      assert j < |w.commits| ==>
        w'.commits[j] == w.commits[j] && StoreAt(w'.commits, start, j) == StoreAt(w.commits, start, j);
    }
  }

  lemma SerializableSnoc(w: World, w': World, c: Commit)
    requires Serializable(w) && Adds(w, w', c) && ReadsCurrent(c)
    requires forall m :: c.since <= m < |w.commits| ==> w.commits[m].writer == c.writer
    ensures Serializable(w')
  {
    forall j | 0 <= j < |w'.commits| ensures ReadsCurrent(w'.commits[j]) && Alone(w'.commits, j) {
      if j < |w.commits| {
        assert w'.commits[j] == w.commits[j] && ReadsCurrent(w.commits[j]) && Alone(w.commits, j);
        forall m | w'.commits[j].since <= m < j ensures 0 <= m && w'.commits[m].writer == w'.commits[j].writer {
          assert w'.commits[m] == w.commits[m];
        }
      }
    }
  }

  lemma StepKeepsSerial(w: World, step: Step, start: Store)
    requires Inv(w, start)
    ensures Serial(Next(w, step), start) && Serializable(Next(w, step))
  {
    var c := StepCommits(w, step);
    if c.Some? {
      SerialSnoc(w, Next(w, step), c.value, start);
      SerializableSnoc(w, Next(w, step), c.value);
    }
  }

  function Run(w: World, steps: seq<Step>): World {
    if steps == [] then w else Next(Run(w, steps[..|steps| - 1]), steps[|steps| - 1])
  }

  /** Per-account serializability, over every run: whatever the instances and their
      managers do, the committed batches form one chain of stores, each batch was
      computed from reads that still held when it was applied, and no other lease
      committed between winning its lease and committing. */
  lemma {:induction false} RunSerializable(w: World, steps: seq<Step>)
    requires Init(w)
    ensures Inv(Run(w, steps), w.store)
  {
    if steps != [] {
      var front := steps[..|steps| - 1];
      RunSerializable(w, front);
      StepKeepsTokens(Run(w, front), steps[|steps| - 1]);
      StepKeepsHolder(Run(w, front), steps[|steps| - 1]);
      StepKeepsSerial(Run(w, front), steps[|steps| - 1], w.store);
    }
  }

  // ---- What a lease is good for ----

  lemma RunMore(w: World, steps: seq<Step>, step: Step)
    ensures Run(w, steps + [step]) == Next(Run(w, steps), step)
  {
    assert (steps + [step])[..|steps|] == steps;
  }

  /** A free instance of either manager wins the lease if no one interferes, whatever the
      claim says. */
  lemma Wins(w: World, i: Instance, expiry: int)
    requires i in w.locals && w.locals[i].phase.Free?
    ensures var end := Run(w, [Mint(i, expiry), ReadClaim(i), Swap(i, false)]);
      var mine := Token(expiry, i, w.locals[i].minted + 1);
      && end.claim == Some(mine) && end.store == w.store && end.commits == w.commits
      && i in end.locals && end.locals[i].phase == Holding(mine, map[], |w.commits|)
      && forall j :: j != i && j in w.locals ==> j in end.locals && end.locals[j] == w.locals[j]
  {
    RunMore(w, [], Mint(i, expiry));
    RunMore(w, [Mint(i, expiry)], ReadClaim(i));
    RunMore(w, [Mint(i, expiry), ReadClaim(i)], Swap(i, false));
    assert [] + [Mint(i, expiry)] == [Mint(i, expiry)];
    assert [Mint(i, expiry)] + [ReadClaim(i)] == [Mint(i, expiry), ReadClaim(i)];
    assert [Mint(i, expiry), ReadClaim(i)] + [Swap(i, false)] == [Mint(i, expiry), ReadClaim(i), Swap(i, false)];
  }

  /** And then its batch is applied to the store it read. */
  lemma LeftAloneCommits(w: World, i: Instance, expiry: int, k: Key, ops: seq<Op>)
    requires i in w.locals && w.locals[i].phase.Free?
    ensures var end := Run(w, [Mint(i, expiry), ReadClaim(i), Swap(i, false)] + [Read(i, k)] + [Write(i, ops)]);
      var mine := Token(expiry, i, w.locals[i].minted + 1);
      && end.store == Apply(w.store, ops) && end.claim == Some(mine)
      && end.commits == w.commits + [Commit(mine, |w.commits|, map[k := Lookup(w.store, k)], w.store, end.store)]
  {
    Wins(w, i, expiry);
    RunMore(w, [Mint(i, expiry), ReadClaim(i), Swap(i, false)], Read(i, k));
    RunMore(w, [Mint(i, expiry), ReadClaim(i), Swap(i, false)] + [Read(i, k)], Write(i, ops));
  }

  /** Once another instance has won the lease, the old holder's batch is not applied. */
  lemma FencedOff(w: World, i: Instance, j: Instance, expiry: int, ops: seq<Op>)
    requires i in w.locals && w.locals[i].phase.Holding? && w.locals[i].phase.mine.nonce == i
    requires j in w.locals && j != i && w.locals[j].phase.Free?
    ensures var end := Run(w, [Mint(j, expiry), ReadClaim(j), Swap(j, false)] + [Write(i, ops)]);
      end.store == w.store && end.commits == w.commits && end.claim == Some(Token(expiry, j, w.locals[j].minted + 1))
  {
    Wins(w, j, expiry);
    RunMore(w, [Mint(j, expiry), ReadClaim(j), Swap(j, false)], Write(i, ops));
  }

  /** Nor does its release take the lease from the new holder, whose batch is applied. */
  lemma LateReleaseHarmless(w: World, i: Instance, j: Instance, expiry: int, expired: int, ops: seq<Op>)
    requires i in w.locals && w.locals[i].phase.Holding? && w.locals[i].phase.mine.nonce == i
    requires j in w.locals && j != i && w.locals[j].phase.Free?
    ensures var end := Run(w, [Mint(j, expiry), ReadClaim(j), Swap(j, false)] + [Release(i, expired, false)]
                              + [Write(j, ops)]);
      end.store == Apply(w.store, ops) && end.claim == Some(Token(expiry, j, w.locals[j].minted + 1))
  {
    var wins := [Mint(j, expiry), ReadClaim(j), Swap(j, false)];
    Wins(w, j, expiry);
    RunMore(w, wins, Release(i, expired, false));
    RunMore(w, wins + [Release(i, expired, false)], Write(j, ops));
    var w3 := Run(w, wins);
    assert w3.locals[i] == w.locals[i] && w3.claim != Some(w.locals[i].phase.mine);
  }

  /** Of two instances that saw the same claim, the one whose swap comes first wins and the
      other does not. */
  lemma OneWinsRace(w: World, i: Instance, j: Instance)
    requires i in w.locals && j in w.locals && i != j
    requires w.locals[i].phase.Trying? && w.locals[j].phase.Trying?
    requires w.locals[i].phase.expected == w.locals[j].phase.expected == w.claim != Some(w.locals[i].phase.mine)
    ensures var end := Next(Next(w, Swap(i, false)), Swap(j, false));
      && end.claim == Some(w.locals[i].phase.mine) && end.locals[i].phase.Holding? && !end.locals[j].phase.Holding?
  {
    var w1 := Next(w, Swap(i, false));
    assert w1.locals[j] == w.locals[j] && w1.claim == Some(w.locals[i].phase.mine);
  }

  /** InProcess wins its own claim back without reading it, as long as nobody took it. */
  lemma CachedWins(w: World, i: Instance, expiry: int)
    requires i in w.locals && w.locals[i].phase.Free? && w.locals[i].inProcess
    requires w.locals[i].cached.Some? && w.locals[i].cached == w.claim
    ensures var end := Next(Next(Next(w, Mint(i, expiry)), UseCached(i)), Swap(i, false));
      var mine := Token(expiry, i, w.locals[i].minted + 1);
      end.claim == Some(mine) == end.locals[i].cached && end.locals[i].phase == Holding(mine, map[], |w.commits|)
  {
    var w1 := Next(w, Mint(i, expiry));
    var w2 := Next(w1, UseCached(i));
    assert w2.locals[i].phase == Trying(Token(expiry, i, w.locals[i].minted + 1), w.claim);
  }

  // ---- Sequence numbers ----

  /** What Update does (objectdb.go:365-396): a batch that writes the sequence writes
      one more than it read under the same lease. */
  ghost predicate Numbered(c: Commit) {
    NumAt(c.after, Seq) != NumAt(c.before, Seq) ==>
      && Seq in c.view
      && NumAt(c.after, Seq) == 1 + (if c.view[Seq].Some? && c.view[Seq].value.Num? then c.view[Seq].value.n else 0)
  }

  /** Sequence numbers rise by exactly one and none is handed out twice: after any run,
      the m-th batch to write the sequence wrote start + m. */
  lemma {:induction false} SequenceDense(w: World, start: Store, j: nat)
    requires Inv(w, start) && j <= |w.commits|
    requires forall m :: 0 <= m < |w.commits| ==> Numbered(w.commits[m])
    ensures Sequence(StoreAt(w.commits, start, j)) == Sequence(start) + Numberings(w.commits[..j])
    decreases j
  {
    if j > 0 {
      SequenceDense(w, start, j - 1);
      var c := w.commits[j - 1];
      assert w.commits[..j][..j - 1] == w.commits[..j - 1];
      assert Numbered(c) && ReadsCurrent(c) && c.before == StoreAt(w.commits, start, j - 1);
      OneNumber(c);
    }
  }

  lemma OneNumber(c: Commit)
    requires Numbered(c) && ReadsCurrent(c)
    ensures Sequence(c.after) == Sequence(c.before) + if NumAt(c.after, Seq) != NumAt(c.before, Seq) then 1 else 0
  {
    if Seq in c.view { assert c.view[Seq] == Lookup(c.before, Seq); }
  }

  /** How many of the batches took a number. */
  function Numberings(commits: seq<Commit>): nat {
    if commits == [] then 0
    else var c := commits[|commits| - 1];
      Numberings(commits[..|commits| - 1]) + if NumAt(c.after, Seq) != NumAt(c.before, Seq) then 1 else 0
  }
}
