/** Blob bookkeeping and collection (core/objectdb/blobs.go): upload records, pending
    hints, and the sweep that collects what nothing references. Content leaves in the
    sweep's own batch, so a blob is gone exactly when its upload record is. Times are
    in nanoseconds. */
module Blobs {
  import opened Options
  import opened ByteOrder
  import opened Records
  import KeyEncoding
  import opened Keys
  import Lists
  import opened Store
  import opened Schema
  import opened IndexOps
  import opened Commits
  import opened ObjectDb
  import opened Trim
  import opened Runs

  const MAX_SWEEP_PER_CALL := 1024
  const SECOND := 1_000_000_000
  const MIN_UNREFERENCED_AGE := 3600 * SECOND

  /** Some committed record references the blob. */
  predicate Referenced(s: Store, blob: Id) { exists k :: k in s && k.Ref? && k.blob == blob }

  predicate HasUpload(s: Store, blob: Id) { Upload(blob) in s && s[Upload(blob)].UploadRecord? }

  /** Upload keys hold upload records. */
  ghost predicate Typed(s: Store) { forall blob: Id :: Upload(blob) in s ==> s[Upload(blob)].UploadRecord? }

  /** Every uploaded blob that nothing references is nominated for collection. */
  ghost predicate Hinted(s: Store) {
    forall blob: Id :: Upload(blob) in s && !Referenced(s, blob) ==> Pending(blob) in s
  }

  /** Every referenced blob exists. */
  ghost predicate Backed(s: Store) {
    forall blob: Id, t: Name, id: Id :: Ref(blob, t, id) in s ==> Upload(blob) in s
  }

  ghost predicate Sound(s: Store) { Typed(s) && Hinted(s) && Backed(s) }

  // ---- Uploads ----

  /** Upload times are kept to the second, rounded down. */
  function Whole(t: int): int { t / SECOND * SECOND }

  function AddUploader(uploaders: seq<Bytes>, uploader: Bytes): seq<Bytes> {
    if uploader in uploaders then uploaders else uploaders + [uploader]
  }

  function UploadersOf(s: Store, blob: Id): seq<Bytes> { if HasUpload(s, blob) then s[Upload(blob)].uploaders else [] }

  /** A store before and after an upload is recorded. */
  ghost predicate Uploaded(s: Store, s': Store, blob: Id, uploader: Bytes, now: int) {
    forall k :: Lookup(s', k) ==
      if k == Upload(blob) then Some(UploadRecord(Whole(now), AddUploader(UploadersOf(s, blob), uploader)))
      else if k == Pending(blob) then Some(Mark) else Lookup(s, k)
  }

  /** Record an upload: the time is reset, the uploader added, the blob nominated. */
  method RecordUpload(db: Db, blob: Id, uploader: Bytes, now: int)
    modifies db
    ensures Uploaded(old(db.store), db.store, blob, uploader, now)
  {
    var s := db.store;
    var uploaders := AddUploader(UploadersOf(s, blob), uploader);
    var a, b := Op.Set(Upload(blob), UploadRecord(Whole(now), uploaders)), Op.Set(Pending(blob), Mark);
    db.store := Apply(s, [] + [a] + [b]);
    forall k ensures Lookup(db.store, k) ==
      if k == Upload(blob) then Some(UploadRecord(Whole(now), uploaders))
      else if k == Pending(blob) then Some(Mark) else Lookup(s, k)
    {
      ApplyAt(s, [] + [a] + [b], k);
      EffectSnoc([], a, k);
      EffectSnoc([] + [a], b, k);
    }
  }

  /** Who uploaded the blob: everyone recorded before, in their places, and the uploader,
      nobody twice. */
  lemma UploadersGrow(s: Store, s': Store, blob: Id, uploader: Bytes, now: int)
    requires Uploaded(s, s', blob, uploader, now)
    ensures HasUpload(s', blob)
    ensures var was := if HasUpload(s, blob) then s[Upload(blob)].uploaders else [];
      var names := s'[Upload(blob)].uploaders;
      && was <= names && (forall u :: u in names <==> u in was || u == uploader)
      && ((forall i, j :: 0 <= i < j < |was| ==> was[i] != was[j]) ==>
        forall i, j :: 0 <= i < j < |names| ==> names[i] != names[j])
  {
    assert Lookup(s', Upload(blob)) == Some(UploadRecord(Whole(now), AddUploader(UploadersOf(s, blob), uploader)));
  }

  lemma UploadKeepsSound(s: Store, s': Store, blob: Id, uploader: Bytes, now: int)
    requires Sound(s) && Uploaded(s, s', blob, uploader, now)
    ensures Sound(s') && BlobsOnly(s, s')
  {
    SameRefs(s, s');
    forall b: Id | Upload(b) in s' ensures s'[Upload(b)].UploadRecord? && (!Referenced(s', b) ==> Pending(b) in s') {
      assert Lookup(s', Upload(b)) ==
        if b == blob then Some(UploadRecord(Whole(now), AddUploader(UploadersOf(s, blob), uploader)))
        else Lookup(s, Upload(b));
      assert Lookup(s', Pending(b)) == if b == blob then Some(Mark) else Lookup(s, Pending(b));
    }
    forall b: Id, t: Name, id: Id | Ref(b, t, id) in s' ensures Upload(b) in s' {
      assert Lookup(s', Ref(b, t, id)) == Lookup(s, Ref(b, t, id));
      assert b != blob ==> Lookup(s', Upload(b)) == Lookup(s, Upload(b));
      assert Lookup(s', Upload(blob)).Some?;
    }
  }

  lemma SameRefs(s: Store, s': Store)
    requires forall k: Key :: k.Ref? ==> Lookup(s', k) == Lookup(s, k)
    ensures forall b: Id :: Referenced(s', b) <==> Referenced(s, b)
  {
    forall b: Id ensures Referenced(s', b) <==> Referenced(s, b) {
      if Referenced(s, b) {
        var k :| k in s && k.Ref? && k.blob == b;
        assert Lookup(s', k) == Lookup(s, k);
      }
      if Referenced(s', b) {
        var k :| k in s' && k.Ref? && k.blob == b;
        assert Lookup(s', k) == Lookup(s, k);
      }
    }
  }

  // ---- Commits ----

  /** What the method layer checks of every record it writes: no dangling reference. */
  ghost predicate RefsExist(sc: Schema, s: Store, staged: Staging) {
    forall r, blob :: Stages(staged, r) && Adds(sc, staged[r], r.typ, blob) ==> Upload(blob) in s
  }

  /** `decode` reads a value as an id; it reads every string, and null as the empty id. */
  predicate Dangling(s: Store, ty: Type, o: Object, n: Name, decode: Raw -> Option<Id>) {
    n in ty.props && ty.props[n].blobRef && n in o && decode(o[n]).Some? && Upload(decode(o[n]).value) !in s
  }

  /** The properties that name a blob the account does not have. */
  method CheckBlobRefs(s: Store, ty: Type, o: Object, decode: Raw -> Option<Id>) returns (bad: set<Name>)
    ensures forall n :: n in bad <==> Dangling(s, ty, o, n, decode)
  {
    bad := {};
    var todo := ty.props.Keys;
    while todo != {}
      invariant todo <= ty.props.Keys
      invariant forall n :: n in bad <==> n !in todo && Dangling(s, ty, o, n, decode)
    {
      var n :| n in todo;
      todo := todo - {n};
      if Dangling(s, ty, o, n, decode) {
        bad := bad + {n};
      }
    }
  }

  /** With none of them, every reference of the record is to a blob that exists. */
  lemma NoneDangling(sc: Schema, s: Store, ty: Type, o: Object, decode: Raw -> Option<Id>)
    requires forall raw :: sc.str(raw).Some? ==> decode(raw) == sc.str(raw)
    requires forall n :: !Dangling(s, ty, o, n, decode)
    ensures forall blob :: blob in RefsOf(sc, ty, Some(o)) ==> Upload(blob) in s
  {
    forall blob | blob in RefsOf(sc, ty, Some(o)) ensures Upload(blob) in s {
      var n :| n in ty.props && ty.props[n].blobRef && n in o && sc.str(o[n]).Some? && sc.str(o[n]).value == blob;
      assert !Dangling(s, ty, o, n, decode);
    }
  }

  /** An added reference is in the index after the commit. */
  lemma AddedRef(sc: Schema, s: Store, staged: Staging, bumped: set<Name>, s': Store, r: RecKey, blob: Id)
    requires Committed(sc, s, staged, bumped, s') && Stages(staged, r) && Adds(sc, staged[r], r.typ, blob)
    ensures Ref(blob, r.typ, r.id) in s'
  {
    var k := Ref(blob, r.typ, r.id);
    CommittedOwner(sc, s, staged, bumped, s', k);
    assert RecKey(k.typ, k.id) == r;
  }

  /** A reference that comes or goes is one a staged record adds or drops. */
  lemma MovedRef(sc: Schema, s: Store, staged: Staging, bumped: set<Name>, s': Store, blob: Id, t: Name, id: Id)
    requires Committed(sc, s, staged, bumped, s')
    ensures var k, r := Ref(blob, t, id), RecKey(t, id);
      && (k in s' && k !in s ==> Stages(staged, r) && Adds(sc, staged[r], t, blob))
      && (k in s && k !in s' ==> Stages(staged, r) && Drops(sc, staged[r], t, blob))
  {
    CommittedOwner(sc, s, staged, bumped, s', Ref(blob, t, id));
  }

  /** The hint of a blob nothing references after the commit survives it, or is set. */
  lemma HintAfterCommit(sc: Schema, s: Store, staged: Staging, bumped: set<Name>, s': Store, blob: Id)
    requires Committed(sc, s, staged, bumped, s') && !Referenced(s', blob)
    requires !Referenced(s, blob) ==> Pending(blob) in s
    ensures Pending(blob) in s'
  {
    var ops := CommittedAt(sc, s, staged, bumped, s');
    var e := EffectAt(ops, Pending(blob));
    assert HintIn(sc, staged, blob, e) && Lookup(s', Pending(blob)) == After(s, Pending(blob), e);
    forall r | Stages(staged, r) && Adds(sc, staged[r], r.typ, blob) ensures false {
      AddedRef(sc, s, staged, bumped, s', r, blob);
    }
    if Referenced(s, blob) {
      var k :| k in s && k.Ref? && k.blob == blob;
      MovedRef(sc, s, staged, bumped, s', blob, k.typ, k.id);
    }
  }

  lemma CommitKeepsSound(sc: Schema, s: Store, staged: Staging, bumped: set<Name>, s': Store)
    requires Sound(s) && Committed(sc, s, staged, bumped, s') && RefsExist(sc, s, staged)
    ensures Sound(s')
  {
    forall blob: Id ensures Lookup(s', Upload(blob)) == Lookup(s, Upload(blob)) {
      CommittedUpload(sc, s, staged, bumped, s', blob);
    }
    forall blob: Id | Upload(blob) in s'
      ensures s'[Upload(blob)].UploadRecord? && (!Referenced(s', blob) ==> Pending(blob) in s')
    {
      assert Lookup(s', Upload(blob)) == Lookup(s, Upload(blob));
      if !Referenced(s', blob) { HintAfterCommit(sc, s, staged, bumped, s', blob); }
    }
    forall blob: Id, t: Name, id: Id | Ref(blob, t, id) in s' ensures Upload(blob) in s' {
      assert Lookup(s', Upload(blob)) == Lookup(s, Upload(blob));
      MovedRef(sc, s, staged, bumped, s', blob, t, id);
      if Ref(blob, t, id) !in s { assert Stages(staged, RecKey(t, id)); }
    }
  }

  // ---- The sweep ----

  datatype Verdict = Keep | DropHint | Collect

  /** What the sweep decides about a nominated blob. */
  function Judge(s: Store, blob: Id, now: int, grace: int): Verdict {
    if !HasUpload(s, blob) then DropHint
    else if now - s[Upload(blob)].at < grace then Keep
    else if Referenced(s, blob) then DropHint
    else Collect
  }

  function Grace(grace: int): (g: int)
    ensures g >= grace && g >= 3600 * 1_000_000_000 && (g == grace || g == 3600 * 1_000_000_000)
  {
    if grace < MIN_UNREFERENCED_AGE then MIN_UNREFERENCED_AGE else grace
  }

  function SweepEffect(s: Store, judged: set<Id>, now: int, grace: int, k: Key): Option<Option<Val>> {
    if k.Pending? && k.blob in judged && !Judge(s, k.blob, now, grace).Keep? then Some(None)
    else if k.Upload? && k.blob in judged && Judge(s, k.blob, now, grace).Collect? then Some(None)
    else None
  }

  /** A store before and after a sweep that judged these blobs. */
  ghost predicate Swept(s: Store, s': Store, judged: set<Id>, now: int, grace: int) {
    forall k :: Lookup(s', k) == After(s, k, SweepEffect(s, judged, now, grace, k))
  }

  /** The nominated blobs. */
  function Hints(s: Store): set<Id> { set k | k in s && k.Pending? :: k.blob }

  lemma HintAt(s: Store, blob: Id)
    ensures blob in Hints(s) <==> Pending(blob) in s
  {
    if Pending(blob) in s { assert Pending(blob).blob in Hints(s); }
  }

  /** The nominations as the backend scans them: in key order, which is id order. */
  ghost predicate IsHintScan(s: Store, hints: seq<Id>) {
    (forall i, j :: 0 <= i < j < |hints| ==> Less(hints[i], hints[j])) && (forall b :: b in hints <==> b in Hints(s))
  }

  lemma HintOrder(acct: Id, a: Id, b: Id)
    ensures Less(KeyBytes(acct, Pending(a)), KeyBytes(acct, Pending(b))) <==> Less(a, b)
  {
    var pre: KeyEncoding.Tuple := [acct, [0x70]];
    KeyEncoding.KeyOrder(Segments(acct, Pending(a)), Segments(acct, Pending(b)));
    assert Segments(acct, Pending(a)) == pre + [a] && Segments(acct, Pending(b)) == pre + [b];
    KeyEncoding.TupleCommonPrefix(pre, [a], [b]);
    assert [a][1..] == [] && [b][1..] == [];
  }

  ghost function Judged(hints: seq<Id>, i: nat): set<Id>
    requires i <= |hints|
  {
    set b | b in hints[..i]
  }

  /** One candidate's part of the batch. */
  method SweepOne(b: Batch, s: Store, blob: Id, now: int, grace: int) returns (collected: bool)
    modifies b
    ensures collected <==> Judge(s, blob, now, grace).Collect?
    ensures forall k :: EffectAt(b.ops, k) == Over(SweepEffect(s, {blob}, now, grace, k), EffectAt(old(b.ops), k))
    ensures Judge(s, blob, now, grace).Keep? ==> b.ops == old(b.ops)
    ensures !Judge(s, blob, now, grace).Keep? ==> b.ops != []
  {
    collected := false;
    if !HasUpload(s, blob) {
      b.Delete(Pending(blob));
      return;
    }
    if now - s[Upload(blob)].at < grace {
      return;
    }
    if Referenced(s, blob) {
      b.Delete(Pending(blob));
      return;
    }
    b.Delete(Upload(blob));
    b.Delete(Pending(blob));
    collected := true;
  }

  /** The blobs of `judged` the sweep collects. */
  ghost predicate CollectedOf(s: Store, judged: set<Id>, now: int, grace: int, deleted: seq<Id>) {
    forall b :: b in deleted <==> b in judged && Judge(s, b, now, grace).Collect?
  }

  method SweepBatch(s: Store, candidates: seq<Id>, now: int, grace: int) returns (ops: seq<Op>, deleted: seq<Id>)
    ensures forall k :: EffectAt(ops, k) == SweepEffect(s, Judged(candidates, |candidates|), now, grace, k)
    ensures CollectedOf(s, Judged(candidates, |candidates|), now, grace, deleted)
    ensures ops == [] <==> forall b :: b in candidates ==> Judge(s, b, now, grace).Keep?
  {
    var batch := new Batch();
    deleted := [];
    for i := 0 to |candidates|
      invariant forall k :: EffectAt(batch.ops, k) == SweepEffect(s, Judged(candidates, i), now, grace, k)
      invariant CollectedOf(s, Judged(candidates, i), now, grace, deleted)
      invariant batch.ops == [] <==> forall b :: b in Judged(candidates, i) ==> Judge(s, b, now, grace).Keep?
    {
      assert Judged(candidates, i + 1) == Judged(candidates, i) + {candidates[i]};
      var collected := SweepOne(batch, s, candidates[i], now, grace);
      if collected {
        deleted := deleted + [candidates[i]];
      }
    }
    ops := batch.ops;
    assert candidates[..|candidates|] == candidates;
  }

  /** One call: at most so many nominations are judged. What is collected had an upload
      record past its grace and no reference; what is still in its grace, or
      referenced, keeps its record. When there is more to do, there are fewer
      nominations left than before. */
  method SweepBlobs(db: Db, hints: seq<Id>, now: int, asked: int)
      returns (deleted: seq<Id>, more: bool, ghost judged: set<Id>)
    requires IsHintScan(db.store, hints)
    modifies db
    ensures judged <= Hints(old(db.store)) && Swept(old(db.store), db.store, judged, now, Grace(asked))
    ensures CollectedOf(old(db.store), judged, now, Grace(asked), deleted)
    ensures judged == Judged(hints, if |hints| <= MAX_SWEEP_PER_CALL then |hints| else MAX_SWEEP_PER_CALL)
    ensures |judged| == if |hints| <= 1024 then |hints| else 1024
    ensures more <==>
      && |hints| >= MAX_SWEEP_PER_CALL
      && exists b :: b in judged && !Judge(old(db.store), b, now, Grace(asked)).Keep?
    ensures more ==> |Hints(db.store)| < |Hints(old(db.store))|
  {
    var grace, s := Grace(asked), db.store;
    judged := {};
    if hints == [] {
      return [], false, {};
    }
    var candidates := if |hints| <= MAX_SWEEP_PER_CALL then hints else hints[..MAX_SWEEP_PER_CALL];
    judged := Judged(candidates, |candidates|);
    assert candidates[..|candidates|] == candidates;
    JudgedSize(hints, |candidates|);
    assert hints[..|candidates|] == candidates;
    var ops;
    ops, deleted := SweepBatch(s, candidates, now, grace);
    if ops == [] {
      return [], false, judged;
    }
    db.store := Apply(s, ops);
    forall k ensures Lookup(db.store, k) == After(s, k, SweepEffect(s, judged, now, grace, k)) { ApplyAt(s, ops, k); }
    more := |candidates| == MAX_SWEEP_PER_CALL;
    FewerHints(s, db.store, judged, now, grace);
  }

  /** A sweep only removes hints, and one that judged something it does not keep does. */
  lemma FewerHints(s: Store, s': Store, judged: set<Id>, now: int, grace: int)
    requires Swept(s, s', judged, now, grace) && judged <= Hints(s)
    ensures Hints(s') <= Hints(s)
    ensures (exists b :: b in judged && !Judge(s, b, now, grace).Keep?) ==> |Hints(s')| < |Hints(s)|
  {
    forall b ensures b in Hints(s') <==> b in Hints(s) && (b in judged ==> Judge(s, b, now, grace).Keep?) {
      HintAt(s, b);
      HintAt(s', b);
      assert Lookup(s', Pending(b)) == After(s, Pending(b), SweepEffect(s, judged, now, grace, Pending(b)));
    }
    if b :| b in judged && !Judge(s, b, now, grace).Keep? {
      assert Hints(s') <= Hints(s) - {b};
      Lists.SubsetSize(Hints(s'), Hints(s) - {b});
    }
  }

  /** A sweep never touches a blob some record references, nor one whose upload record
      is still in its grace; and nothing else in the account. */
  lemma SweepKeepsLive(s: Store, s': Store, judged: set<Id>, now: int, grace: int, blob: Id)
    requires Swept(s, s', judged, now, grace)
    requires Referenced(s, blob) || (HasUpload(s, blob) && now - s[Upload(blob)].at < grace)
    ensures Lookup(s', Upload(blob)) == Lookup(s, Upload(blob))
  {
    assert Lookup(s', Upload(blob)) == After(s, Upload(blob), SweepEffect(s, judged, now, grace, Upload(blob)));
  }

  /** What a sweep leaves: of what it judged, no nomination but that of a blob in its grace,
      and no upload that is past it and that no record references. */
  lemma SweptMeans(s: Store, s': Store, judged: set<Id>, now: int, grace: int, b: Id)
    requires Swept(s, s', judged, now, grace)
    ensures Pending(b) in s' <==> Pending(b) in s && (b in judged ==>
      Upload(b) in s && s[Upload(b)].UploadRecord? && now < s[Upload(b)].at + grace)
    ensures Upload(b) in s' <==> Upload(b) in s && (b in judged && s[Upload(b)].UploadRecord? ==>
      now < s[Upload(b)].at + grace || exists t: Name, id: Id :: Ref(b, t, id) in s)
  {
    assert Lookup(s', Pending(b)) == After(s, Pending(b), SweepEffect(s, judged, now, grace, Pending(b)));
    assert Lookup(s', Upload(b)) == After(s, Upload(b), SweepEffect(s, judged, now, grace, Upload(b)));
    if Referenced(s, b) {
      var k :| k in s && k.Ref? && k.blob == b;
      assert Ref(b, k.typ, k.id) in s;
    }
    if t: Name, id: Id :| Ref(b, t, id) in s { assert Ref(b, t, id).blob == b; }
  }

  lemma SweepKeepsSound(s: Store, s': Store, judged: set<Id>, now: int, grace: int)
    requires Sound(s) && Swept(s, s', judged, now, grace)
    ensures Sound(s') && BlobsOnly(s, s')
  {
    forall k: Key | !k.Upload? && !k.Pending? ensures Lookup(s', k) == Lookup(s, k) {
      assert Lookup(s', k) == After(s, k, SweepEffect(s, judged, now, grace, k));
    }
    SameRefs(s, s');
    forall b: Id | Upload(b) in s' ensures s'[Upload(b)].UploadRecord? && (!Referenced(s', b) ==> Pending(b) in s') {
      assert Lookup(s', Upload(b)) == After(s, Upload(b), SweepEffect(s, judged, now, grace, Upload(b)));
      assert Lookup(s', Pending(b)) == After(s, Pending(b), SweepEffect(s, judged, now, grace, Pending(b)));
    }
    forall b: Id, t: Name, id: Id | Ref(b, t, id) in s' ensures Upload(b) in s' {
      assert Lookup(s', Ref(b, t, id)) == Lookup(s, Ref(b, t, id));
      assert Ref(b, t, id) in s && Referenced(s, b);
      SweepKeepsLive(s, s', judged, now, grace, b);
    }
  }

  /** Insert an id into a scan. */
  method InsertHint(hints: seq<Id>, b: Id) returns (r: seq<Id>)
    requires (forall i, j :: 0 <= i < j < |hints| ==> Less(hints[i], hints[j])) && b !in hints
    ensures (forall i, j :: 0 <= i < j < |r| ==> Less(r[i], r[j])) && forall x :: x in r <==> x in hints || x == b
  {
    var k := 0;
    while k < |hints| && Less(hints[k], b)
      invariant k <= |hints| && forall i :: 0 <= i < k ==> Less(hints[i], b)
    {
      k := k + 1;
    }
    r := hints[..k] + [b] + hints[k..];
    forall i | k <= i < |hints| ensures Less(b, hints[i]) {
      Total(hints[k], b);
      if i > k { Transitive(b, hints[k], hints[i]); }
    }
    assert hints == hints[..k] + hints[k..];
  }

  method ScanHints(s: Store) returns (hints: seq<Id>)
    ensures IsHintScan(s, hints)
  {
    hints := [];
    var todo := Hints(s);
    while todo != {}
      invariant todo <= Hints(s)
      invariant forall i, j :: 0 <= i < j < |hints| ==> Less(hints[i], hints[j])
      invariant forall b :: b in hints <==> b in Hints(s) - todo
    {
      var b :| b in todo;
      assert b !in hints;
      todo := todo - {b};
      hints := InsertHint(hints, b);
    }
  }

  /** The nominations before the blob, in key order, that are in their grace. */
  ghost function YoungBefore(s: Store, blob: Id, now: int, grace: int): set<Id> {
    set b | b in Hints(s) && Less(b, blob) && Judge(s, b, now, grace).Keep?
  }

  /** A full call's worth of nominations in their grace stands before the blob. */
  ghost predicate Starved(s: Store, blob: Id, now: int, grace: int) {
    |YoungBefore(s, blob, now, grace)| >= MAX_SWEEP_PER_CALL
  }

  ghost predicate Stays(s: Store, blob: Id, now: int, grace: int) {
    Judge(s, blob, now, grace).Keep? || Starved(s, blob, now, grace)
  }

  /** What some calls of a drain have done: what is left is judged as at first, what is gone
      was neither in its grace nor starved. */
  ghost predicate Drained(s0: Store, s: Store, now: int, grace: int) {
    && Hints(s) <= Hints(s0)
    && (forall b :: b in Hints(s) ==> Judge(s, b, now, grace) == Judge(s0, b, now, grace))
    && (forall b :: b in Hints(s0) - Hints(s) ==> !Stays(s0, b, now, grace))
  }

  lemma {:induction false} JudgedSize(hints: seq<Id>, i: nat)
    requires i <= |hints| && forall a, b :: 0 <= a < b < |hints| ==> Less(hints[a], hints[b])
    ensures |Judged(hints, i)| == i
  {
    if i > 0 {
      JudgedSize(hints, i - 1);
      assert hints[..i] == hints[..i - 1] + [hints[i - 1]];
      assert Judged(hints, i) == Judged(hints, i - 1) + {hints[i - 1]};
      NotYetJudged(hints, i - 1);
    }
  }

  lemma NotYetJudged(hints: seq<Id>, i: nat)
    requires i < |hints| && forall a, b :: 0 <= a < b < |hints| ==> Less(hints[a], hints[b])
    ensures hints[i] !in Judged(hints, i)
  {
    Irreflexive(hints[i]);
  }

  /** What a sweep leaves nominated is judged as before. */
  lemma SweptHint(s: Store, s': Store, judged: set<Id>, now: int, grace: int, b: Id)
    requires Swept(s, s', judged, now, grace)
    ensures b in Hints(s') <==> b in Hints(s) && (b in judged ==> Judge(s, b, now, grace).Keep?)
    ensures b in Hints(s') ==> Judge(s', b, now, grace) == Judge(s, b, now, grace)
  {
    HintAt(s, b);
    HintAt(s', b);
    assert Lookup(s', Pending(b)) == After(s, Pending(b), SweepEffect(s, judged, now, grace, Pending(b)));
    assert Lookup(s', Upload(b)) == After(s, Upload(b), SweepEffect(s, judged, now, grace, Upload(b)));
    forall k: Key | k.Ref? ensures Lookup(s', k) == Lookup(s, k) {
      assert Lookup(s', k) == After(s, k, SweepEffect(s, judged, now, grace, k));
    }
    SameRefs(s, s');
  }

  lemma LessIndex(hints: seq<Id>, j: nat, i: nat)
    requires j < |hints| && i < |hints| && forall a, b :: 0 <= a < b < |hints| ==> Less(hints[a], hints[b])
    ensures Less(hints[j], hints[i]) <==> j < i
  {
    Irreflexive(hints[j]);
    if i < j { Asymmetric(hints[i], hints[j]); }
  }

  lemma InPrefix(hints: seq<Id>, n: nat, k: nat)
    requires k < |hints| && n <= |hints|
    ensures k < n ==> hints[k] in Judged(hints, n)
  {
    if k < n { assert hints[..n][k] == hints[k]; }
  }

  /** A nomination the call looks at has fewer than a call's worth before it. */
  lemma SeenNotStarved(s0: Store, s: Store, hints: seq<Id>, i: nat, now: int, grace: int)
    requires Drained(s0, s, now, grace) && IsHintScan(s, hints) && i < |hints| && i < MAX_SWEEP_PER_CALL
    ensures !Starved(s0, hints[i], now, grace)
  {
    var young := YoungBefore(s0, hints[i], now, grace);
    forall y | y in young ensures y in Judged(hints, i) {
      assert Stays(s0, y, now, grace);
      assert y in Hints(s) && y in hints;
      var j :| 0 <= j < |hints| && hints[j] == y;
      LessIndex(hints, j, i);
      InPrefix(hints, i, j);
    }
    JudgedSize(hints, i);
    Lists.SubsetSize(young, Judged(hints, i));
  }

  lemma DrainedMore(s0: Store, s: Store, s': Store, hints: seq<Id>, n: nat, now: int, grace: int)
    requires Drained(s0, s, now, grace) && IsHintScan(s, hints) && n <= |hints| && n <= MAX_SWEEP_PER_CALL
    requires Swept(s, s', Judged(hints, n), now, grace)
    ensures Drained(s0, s', now, grace)
  {
    var judged := Judged(hints, n);
    forall b ensures (b in Hints(s') <==> b in Hints(s) && (b in judged ==> Judge(s, b, now, grace).Keep?)) {
      SweptHint(s, s', judged, now, grace, b);
    }
    forall b | b in Hints(s') ensures Judge(s', b, now, grace) == Judge(s0, b, now, grace) {
      SweptHint(s, s', judged, now, grace, b);
    }
    forall b | b in Hints(s0) - Hints(s') ensures !Stays(s0, b, now, grace) {
      if b in Hints(s) {
        var i :| 0 <= i < n && hints[..n][i] == b;
        SeenNotStarved(s0, s, hints, i, now, grace);
      }
    }
  }

  /** A call that does not ask for another leaves only what stays. */
  lemma NothingMore(s0: Store, s: Store, s': Store, hints: seq<Id>, n: nat, now: int, grace: int, b: Id)
    requires Drained(s0, s, now, grace) && IsHintScan(s, hints)
    requires n == if |hints| <= MAX_SWEEP_PER_CALL then |hints| else MAX_SWEEP_PER_CALL
    requires Swept(s, s', Judged(hints, n), now, grace)
    requires |hints| < MAX_SWEEP_PER_CALL || forall x :: x in Judged(hints, n) ==> Judge(s, x, now, grace).Keep?
    requires b in Hints(s')
    ensures Stays(s0, b, now, grace)
  {
    var judged := Judged(hints, n);
    SweptHint(s, s', judged, now, grace, b);
    if b !in judged {
      var k :| 0 <= k < |hints| && hints[k] == b;
      InPrefix(hints, n, k);
      var young := YoungBefore(s0, b, now, grace);
      forall y | y in judged ensures y in young {
        var j :| 0 <= j < n && hints[..n][j] == y;
        assert y in hints && Less(hints[j], hints[k]);
      }
      JudgedSize(hints, n);
      Lists.SubsetSize(judged, young);
    }
  }

  /** Draining a backlog, call after call: it stops, and then the nominations left are those
      in their grace, and those starved by a full call's worth of such before them. */
  method Drain(db: Db, now: int, asked: int)
    modifies db
    ensures forall b :: b in Hints(db.store) <==>
      b in Hints(old(db.store)) && Stays(old(db.store), b, now, Grace(asked))
    ensures forall b :: b in Hints(db.store) ==>
      Judge(db.store, b, now, Grace(asked)) == Judge(old(db.store), b, now, Grace(asked))
  {
    var more := true;
    ghost var s0 := db.store;
    while more
      invariant Drained(s0, db.store, now, Grace(asked))
      invariant !more ==> forall b :: b in Hints(db.store) ==> Stays(s0, b, now, Grace(asked))
      decreases more, |Hints(db.store)|
    {
      ghost var s := db.store;
      var hints := ScanHints(db.store);
      var deleted;
      ghost var judged;
      deleted, more, judged := SweepBlobs(db, hints, now, asked);
      ghost var n := if |hints| <= MAX_SWEEP_PER_CALL then |hints| else MAX_SWEEP_PER_CALL;
      DrainedMore(s0, s, db.store, hints, n, now, Grace(asked));
      forall b | !more && b in Hints(db.store) ensures Stays(s0, b, now, Grace(asked)) {
        NothingMore(s0, s, db.store, hints, n, now, Grace(asked), b);
      }
    }
  }

  // A call's worth of young nominations hides an old one behind them.

  const LATE: Id := [255]

  function YoungId(i: nat): Id
    requires i < MAX_SWEEP_PER_CALL
  {
    [i / 256, i % 256]
  }

  ghost function YoungIds(n: nat): set<Id>
    requires n <= MAX_SWEEP_PER_CALL
  {
    set i | 0 <= i < n :: YoungId(i)
  }

  lemma {:induction false} YoungCount(n: nat)
    requires n <= MAX_SWEEP_PER_CALL
    ensures |YoungIds(n)| == n
  {
    if n > 0 {
      YoungCount(n - 1);
      assert YoungIds(n) == YoungIds(n - 1) + {YoungId(n - 1)};
      forall i | 0 <= i < n - 1 ensures YoungId(i) != YoungId(n - 1) {
        assert YoungId(i)[0] == i / 256 && YoungId(i)[1] == i % 256;
      }
    }
  }

  /** The old blob and the first n young ones are uploaded, and no record references any. */
  ghost predicate Backlog(s: Store, n: nat)
    requires n <= MAX_SWEEP_PER_CALL
  {
    && (forall k: Key :: k.Ref? ==> k !in s)
    && HasUpload(s, LATE) && s[Upload(LATE)].at == 0 && Pending(LATE) in s
    && forall i :: 0 <= i < n ==> Young(s, YoungId(i))
  }

  ghost predicate Young(s: Store, b: Id) {
    HasUpload(s, b) && s[Upload(b)].at == MIN_UNREFERENCED_AGE && Pending(b) in s
  }

  lemma OneMoreYoung(s: Store, s': Store, n: nat, uploader: Bytes)
    requires n < MAX_SWEEP_PER_CALL && Backlog(s, n) && Uploaded(s, s', YoungId(n), uploader, MIN_UNREFERENCED_AGE)
    ensures Backlog(s', n + 1)
  {
    var b := YoungId(n);
    assert Whole(MIN_UNREFERENCED_AGE) == MIN_UNREFERENCED_AGE;
    forall k: Key | k.Ref? ensures k !in s' { assert Lookup(s', k) == Lookup(s, k); }
    assert Lookup(s', Upload(LATE)) == Lookup(s, Upload(LATE)) && Lookup(s', Pending(LATE)) == Lookup(s, Pending(LATE));
    forall i | 0 <= i < n + 1 ensures Young(s', YoungId(i)) { YoungKept(s, s', n, uploader, i); }
  }

  lemma YoungKept(s: Store, s': Store, n: nat, uploader: Bytes, i: nat)
    requires n < MAX_SWEEP_PER_CALL && Backlog(s, n) && Uploaded(s, s', YoungId(n), uploader, MIN_UNREFERENCED_AGE)
    requires i <= n
    ensures Young(s', YoungId(i))
  {
    var b, x := YoungId(n), YoungId(i);
    assert Whole(MIN_UNREFERENCED_AGE) == MIN_UNREFERENCED_AGE;
    assert Lookup(s', Upload(x)) ==
      if x == b then Some(UploadRecord(Whole(MIN_UNREFERENCED_AGE), AddUploader(UploadersOf(s, b), uploader)))
      else Lookup(s, Upload(x));
    assert Lookup(s', Pending(x)) == if x == b then Some(Mark) else Lookup(s, Pending(x));
    if i < n { assert Young(s, YoungId(i)); }
  }

  lemma LateStarved(s: Store)
    requires Backlog(s, MAX_SWEEP_PER_CALL)
    ensures LATE in Hints(s) && Judge(s, LATE, MIN_UNREFERENCED_AGE, Grace(0)).Collect?
    ensures Starved(s, LATE, MIN_UNREFERENCED_AGE, Grace(0))
  {
    HintAt(s, LATE);
    var young := YoungBefore(s, LATE, MIN_UNREFERENCED_AGE, Grace(0));
    forall b | b in YoungIds(MAX_SWEEP_PER_CALL) ensures b in young {
      var i: nat :| i < MAX_SWEEP_PER_CALL && b == YoungId(i);
      assert Young(s, YoungId(i)) && b[0] < LATE[0];
      HintAt(s, b);
    }
    YoungCount(MAX_SWEEP_PER_CALL);
    Lists.SubsetSize(YoungIds(MAX_SWEEP_PER_CALL), young);
  }

  /** One blob is uploaded, an hour later as many others as a call judges, whose ids come
      before it; draining then leaves the old one, though it may be collected. */
  method StarvedLate(uploader: Bytes) returns (ghost s: Store)
    ensures LATE in Hints(s) && Judge(s, LATE, MIN_UNREFERENCED_AGE, Grace(0)).Collect?
  {
    var db := new Db();
    RecordUpload(db, LATE, uploader, 0);
    ghost var first := db.store;
    assert Lookup(first, Upload(LATE)) == Some(UploadRecord(Whole(0), AddUploader(UploadersOf(map[], LATE), uploader)));
    assert Lookup(first, Pending(LATE)) == Some(Mark);
    forall k: Key | k.Ref? ensures k !in first { assert Lookup(first, k) == Lookup(map[], k); }
    for i := 0 to MAX_SWEEP_PER_CALL
      invariant Backlog(db.store, i)
    {
      ghost var before := db.store;
      RecordUpload(db, YoungId(i), uploader, MIN_UNREFERENCED_AGE);
      OneMoreYoung(before, db.store, i, uploader);
    }
    LateStarved(db.store);
    Drain(db, MIN_UNREFERENCED_AGE, 0);
    s := db.store;
  }

  // ---- Over runs ----

  ghost predicate BlobStep(sc: Schema, s: Store, s': Store) {
    || (exists staged: Staging, bumped: set<Name> :: Committed(sc, s, staged, bumped, s') && RefsExist(sc, s, staged))
    || (exists floor: nat :: Trimmed(s, s', floor))
    || (exists blob: Id, uploader: Bytes, now: int :: Uploaded(s, s', blob, uploader, now))
    || (exists judged: set<Id>, now: int, grace: int :: Swept(s, s', judged, now, grace))
  }

  ghost predicate BlobStepAt(sc: Schema, run: seq<Store>, i: int)
    requires 0 <= i < |run| - 1
  {
    BlobStep(sc, run[i], run[i + 1])
  }

  ghost predicate IsBlobRun(sc: Schema, run: seq<Store>) {
    |run| > 0 && run[0] == map[] && forall i :: 0 <= i < |run| - 1 ==> BlobStepAt(sc, run, i)
  }

  lemma TrimKeepsSound(s: Store, s': Store, floor: nat)
    requires Sound(s) && Trimmed(s, s', floor)
    ensures Sound(s')
  {
    SameRefs(s, s');
    forall b: Id
      ensures Lookup(s', Upload(b)) == Lookup(s, Upload(b)) && Lookup(s', Pending(b)) == Lookup(s, Pending(b)) { }
    forall b: Id | Upload(b) in s' ensures s'[Upload(b)].UploadRecord? && (!Referenced(s', b) ==> Pending(b) in s') {
      assert Lookup(s', Upload(b)) == Lookup(s, Upload(b)) && Lookup(s', Pending(b)) == Lookup(s, Pending(b));
    }
    forall b: Id, t: Name, id: Id | Ref(b, t, id) in s' ensures Upload(b) in s' {
      assert Lookup(s', Ref(b, t, id)) == Lookup(s, Ref(b, t, id)) && Lookup(s', Upload(b)) == Lookup(s, Upload(b));
    }
  }

  lemma BlobStepKeepsSound(sc: Schema, s: Store, s': Store)
    requires Sound(s) && BlobStep(sc, s, s')
    ensures Sound(s') && Step(sc, s, s')
  {
    if blob: Id, uploader: Bytes, now: int :| Uploaded(s, s', blob, uploader, now) {
      UploadKeepsSound(s, s', blob, uploader, now);
    } else if judged: set<Id>, now: int, grace: int :| Swept(s, s', judged, now, grace) {
      SweepKeepsSound(s, s', judged, now, grace);
    } else if floor: nat :| Trimmed(s, s', floor) {
      TrimKeepsSound(s, s', floor);
    } else {
      var staged: Staging, bumped: set<Name> :| Committed(sc, s, staged, bumped, s') && RefsExist(sc, s, staged);
      CommitKeepsSound(sc, s, staged, bumped, s');
    }
  }

  /** In every reachable store of any run of commits, trims, uploads and sweeps, each
      unreferenced upload is nominated for collection and no reference dangles. */
  lemma {:induction false} AlwaysSound(sc: Schema, run: seq<Store>, i: nat)
    requires IsBlobRun(sc, run) && i < |run|
    ensures Sound(run[i])
  {
    if i > 0 {
      AlwaysSound(sc, run, i - 1);
      assert BlobStepAt(sc, run, i - 1);
      BlobStepKeepsSound(sc, run[i - 1], run[i]);
    }
  }

  /** And such a run is a run of the store as the log readers know it. */
  lemma BlobRunIsRun(sc: Schema, run: seq<Store>)
    requires IsBlobRun(sc, run)
    ensures IsRun(sc, run)
  {
    forall i | 0 <= i < |run| - 1 ensures StepAt(sc, run, i) {
      AlwaysSound(sc, run, i);
      assert BlobStepAt(sc, run, i);
      BlobStepKeepsSound(sc, run[i], run[i + 1]);
    }
  }

  /** A blob that a BlobRef property of a stored record names exists, is known to be
      referenced, and no sweep, whatever it judges and whenever, takes it. */
  lemma NamedBlobStays(sc: Schema, run: seq<Store>, i: nat, t: Name, id: Id, blob: Id)
    requires IsBlobRun(sc, run) && i < |run| && NamesBlob(sc, run[i], t, id, blob)
    ensures Referenced(run[i], blob) && Upload(blob) in run[i]
    ensures forall s': Store, judged: set<Id>, now: int, grace: int :: Swept(run[i], s', judged, now, grace) ==>
      Lookup(s', Upload(blob)) == Lookup(run[i], Upload(blob))
  {
    BlobRunIsRun(sc, run);
    RefsAreNames(sc, run, i, blob, t, id);
    assert Ref(blob, t, id).blob == blob;
    AlwaysSound(sc, run, i);
    forall s': Store, judged: set<Id>, now: int, grace: int | Swept(run[i], s', judged, now, grace)
      ensures Lookup(s', Upload(blob)) == Lookup(run[i], Upload(blob))
    {
      SweepKeepsLive(run[i], s', judged, now, grace, blob);
    }
  }

  /** And only those are safe: of a blob no record names, a sweep that judges it past its
      grace leaves nothing. */
  lemma UnnamedBlobGoes(sc: Schema, run: seq<Store>, i: nat, s': Store, judged: set<Id>, now: int, grace: int, blob: Id)
    requires IsBlobRun(sc, run) && i < |run| && Swept(run[i], s', judged, now, grace) && blob in judged
    requires forall t: Name, id: Id :: !NamesBlob(sc, run[i], t, id, blob)
    requires Upload(blob) in run[i] && run[i][Upload(blob)].UploadRecord? && now - run[i][Upload(blob)].at >= grace
    ensures Upload(blob) !in s' && Pending(blob) !in s'
  {
    BlobRunIsRun(sc, run);
    SweptMeans(run[i], s', judged, now, grace, blob);
    forall t: Name, id: Id ensures Ref(blob, t, id) !in run[i] { RefsAreNames(sc, run, i, blob, t, id); }
  }

  // ---- How long a blob is really kept ----

  /** The sweep's verdict on an unreferenced blob once its upload is recorded: it goes from
      the truncated time on. */
  lemma JudgedFromWhole(s: Store, s': Store, blob: Id, uploader: Bytes, uploaded: int, now: int, grace: int)
    requires Uploaded(s, s', blob, uploader, uploaded) && !Referenced(s, blob)
    ensures Judge(s', blob, now, grace).Collect? <==> now - Whole(uploaded) >= grace
  {
    assert Lookup(s', Upload(blob)) == Some(UploadRecord(Whole(uploaded), AddUploader(UploadersOf(s, blob), uploader)));
    SameRefs(s, s');
  }

  /** Measured from the actual upload, the sweep leaves an unreferenced blob alone for the
      whole grace, whenever it comes, if and only if the upload happened on a full second. */
  lemma GraceKeptIff(s: Store, s': Store, blob: Id, uploader: Bytes, uploaded: int, grace: int)
    requires Uploaded(s, s', blob, uploader, uploaded) && !Referenced(s, blob)
    ensures (forall now :: Judge(s', blob, now, grace).Collect? ==> now - uploaded >= grace) <==> uploaded % SECOND == 0
  {
    assert Whole(uploaded) + uploaded % SECOND == uploaded;
    forall now ensures Judge(s', blob, now, grace).Collect? <==> now - Whole(uploaded) >= grace {
      JudgedFromWhole(s, s', blob, uploader, uploaded, now, grace);
    }
    assert Judge(s', blob, Whole(uploaded) + grace, grace).Collect?;
  }

  /** It never falls short by a whole second. */
  lemma GraceAlmostKept(s: Store, s': Store, blob: Id, uploader: Bytes, uploaded: int, now: int, grace: int)
    requires Uploaded(s, s', blob, uploader, uploaded) && !Referenced(s, blob) && Judge(s', blob, now, grace).Collect?
    ensures now - uploaded > grace - SECOND
  {
    JudgedFromWhole(s, s', blob, uploader, uploaded, now, grace);
    assert Whole(uploaded) + uploaded % SECOND == uploaded;
  }

  /** A blob uploaded half past a second is collected half a second before its hour is
      over. */
  lemma CollectedEarly(blob: Id, uploader: Bytes, s: Store) returns (uploaded: int, now: int)
    requires Uploaded(map[], s, blob, uploader, 1_500_000_000)
    ensures uploaded == 1_500_000_000 && now - uploaded == MIN_UNREFERENCED_AGE - SECOND / 2
    ensures Judge(s, blob, now, Grace(0)).Collect?
  {
    uploaded, now := 1_500_000_000, 3_601_000_000_000;
    assert Lookup(s, Upload(blob)) ==
      Some(UploadRecord(Whole(1_500_000_000), AddUploader(UploadersOf(map[], blob), uploader)));
    assert Whole(1_500_000_000) == 1_000_000_000;
    forall k: Key | k.Ref? ensures k !in s { assert Lookup(s, k) == Lookup(map[], k); }
  }
}
