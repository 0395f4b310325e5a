/** The backend contract (core/providers/backend): an ordered key-value store whose
    writes are atomic batches. One account's keys; the encoding of a key is injective
    and order preserving (module Keys). */
module Store {
  import opened Options
  import opened ByteOrder
  import opened Records
  import opened Keys

  /** Per type, the ids one commit created, updated and destroyed, and the visible
      properties its updates may have changed (None: unknown, an old entry). */
  datatype TypeEntry = TypeEntry(created: set<Id>, updated: set<Id>, destroyed: set<Id>,
                                 updatedProps: Option<set<Name>>)

  /** A change log entry; `at` is the commit's clock reading, 0 when unknown. */
  datatype LogEntry = LogEntry(types: map<Name, TypeEntry>, at: int)

  datatype Val =
    | Record(obj: Object)
    | Entry(entry: LogEntry)
    | Num(n: nat)
    | UploadRecord(at: int, uploaders: seq<Bytes>)
    | Mark

  type Store = map<Key, Val>

  datatype Op = Set(key: Key, val: Val) | Delete(key: Key)

  /** What a batch does to one key: None if it leaves the key alone, otherwise the
      key's value after the batch. The last operation on a key wins. */
  function EffectAt(ops: seq<Op>, k: Key): Option<Option<Val>> {
    if ops == [] then None
    else var last := ops[|ops| - 1];
      if last.key == k then Some(if last.Set? then Some(last.val) else None)
      else EffectAt(ops[..|ops| - 1], k)
  }

  lemma EffectSnoc(ops: seq<Op>, op: Op, k: Key)
    ensures EffectAt(ops + [op], k)
         == if op.key == k then Some(if op.Set? then Some(op.val) else None) else EffectAt(ops, k)
  {
    assert (ops + [op])[..|ops|] == ops;
  }

  function ApplyOp(s: Store, op: Op): Store {
    if op.Set? then s[op.key := op.val] else s - {op.key}
  }

  /** The store after a batch, its operations in order. */
  function Apply(s: Store, ops: seq<Op>): Store {
    if ops == [] then s else ApplyOp(Apply(s, ops[..|ops| - 1]), ops[|ops| - 1])
  }

  function Lookup(s: Store, k: Key): Option<Val> { if k in s then Some(s[k]) else None }

  /** A batch is determined key by key. */
  lemma {:induction false} ApplyAt(s: Store, ops: seq<Op>, k: Key)
    ensures Lookup(Apply(s, ops), k)
         == if EffectAt(ops, k).Some? then EffectAt(ops, k).value else Lookup(s, k)
  {
    if ops != [] { ApplyAt(s, ops[..|ops| - 1], k); }
  }

  /** A batch under construction. */
  class Batch {
    var ops: seq<Op>

    constructor ()
      ensures ops == []
    {
      ops := [];
    }

    method Set(k: Key, v: Val)
      modifies this
      ensures ops == old(ops) + [Op.Set(k, v)]
      ensures forall x :: EffectAt(ops, x) == if x == k then Some(Some(v)) else EffectAt(old(ops), x)
    {
      ops := ops + [Op.Set(k, v)];
      forall x ensures EffectAt(ops, x) == if x == k then Some(Some(v)) else EffectAt(old(ops), x) {
        EffectSnoc(old(ops), Op.Set(k, v), x);
      }
    }

    method Delete(k: Key)
      modifies this
      ensures ops == old(ops) + [Op.Delete(k)]
      ensures forall x :: EffectAt(ops, x) == if x == k then Some(None) else EffectAt(old(ops), x)
    {
      ops := ops + [Op.Delete(k)];
      forall x ensures EffectAt(ops, x) == if x == k then Some(None) else EffectAt(old(ops), x) {
        EffectSnoc(old(ops), Op.Delete(k), x);
      }
    }
  }

  // ---- What the keys mean ----

  function ObjectAt(s: Store, t: Name, id: Id): Option<Object> {
    if Obj(t, id) in s && s[Obj(t, id)].Record? then Some(s[Obj(t, id)].obj) else None
  }

  function NumAt(s: Store, k: Key): nat { if k in s && s[k].Num? then s[k].n else 0 }

  /** The account's commit sequence number: 0 before the first commit. */
  function Sequence(s: Store): nat { NumAt(s, Seq) }

  /** The oldest sequence the log can still answer from: 0 when never trimmed. */
  function LogFloor(s: Store): nat { NumAt(s, Floor) }

  function StateOf(s: Store, t: Name): nat { NumAt(s, State(t)) }
}
