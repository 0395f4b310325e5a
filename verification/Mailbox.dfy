/** The mailbox tree (datatypes/mail/mailbox.go: mailboxValidate, mailboxDepthAbove,
    mailboxSubtreeHeight, mailboxDestroy; section 2 of RFC 8621): every accepted create,
    update and destroy keeps a shallow forest with unique sibling names and roles, and
    only what would break one of these is refused. */
module Mailbox {
  import opened Options
  import opened ByteOrder

  const MAX_DEPTH := 10

  datatype Box = Box(parent: Option<Id>, name: Bytes, role: Option<Bytes>, sortOrder: nat)

  type Boxes = map<Id, Box>

  /** What one record is checked for on its own: the shape of its name, its role. */
  datatype Rules = Rules(nameOk: Bytes -> bool, roleOk: Bytes -> bool)

  // ---- The forest ----

  /** Levels: a root is at 1, a child one below its parent. */
  ghost predicate HasDepths(b: Boxes, d: map<Id, nat>) {
    && d.Keys == b.Keys
    && forall id :: id in b ==> 1 <= d[id] <= MAX_DEPTH && DepthAt(b, d, id)
  }

  ghost predicate DepthAt(b: Boxes, d: map<Id, nat>, id: Id)
    requires id in b && d.Keys == b.Keys
  {
    match b[id].parent
    case None => d[id] == 1
    case Some(p) => p in b && d[id] == d[p] + 1
  }

  ghost predicate Forest(b: Boxes) { exists d :: HasDepths(b, d) }

  predicate Alone(r: Rules, m: Box) {
    r.nameOk(m.name) && (m.role.Some? ==> r.roleOk(m.role.value)) && m.sortOrder < 0x8000_0000
  }

  /** Two mailboxes may stand side by side. */
  predicate Apart(x: Box, y: Box) {
    && !(x.parent == y.parent && x.name == y.name)
    && !(x.role.Some? && x.role == y.role)
  }

  ghost predicate WellFormed(r: Rules, b: Boxes) {
    && Forest(b)
    && (forall id :: id in b ==> Alone(r, b[id]))
    && (forall x, y :: x in b && y in b && x != y ==> Apart(b[x], b[y]))
  }

  /** The k-th ancestor. */
  function Up(b: Boxes, id: Id, k: nat): Option<Id>
    decreases k
  {
    if k == 0 then Some(id)
    else if id in b && b[id].parent.Some? then Up(b, b[id].parent.value, k - 1)
    else None
  }

  lemma {:induction false} UpDepth(b: Boxes, d: map<Id, nat>, id: Id, k: nat)
    requires HasDepths(b, d) && id in b && Up(b, id, k).Some?
    ensures Up(b, id, k).value in b && d[Up(b, id, k).value] + k == d[id]
    decreases k
  {
    if k > 0 {
      assert DepthAt(b, d, id);
      UpDepth(b, d, b[id].parent.value, k - 1);
    }
  }

  /** In a forest every walk upwards ends within the depth limit, and none comes back. */
  lemma ForestEnds(b: Boxes, id: Id, k: nat)
    requires Forest(b) && id in b
    ensures k >= MAX_DEPTH ==> Up(b, id, k) == None
    ensures k > 0 ==> Up(b, id, k) != Some(id)
  {
    var d :| HasDepths(b, d);
    if Up(b, id, k).Some? { UpDepth(b, d, id, k); }
  }

  lemma {:induction false} UpSnoc(b: Boxes, id: Id, k: nat)
    requires Up(b, id, k).Some?
    ensures var a := Up(b, id, k).value;
      Up(b, id, k + 1) == if a in b && b[a].parent.Some? then b[a].parent else None
    decreases k
  {
    if k > 0 { UpSnoc(b, b[id].parent.value, k - 1); }
  }

  /** `id` is `self` or below it. */
  ghost predicate Under(b: Boxes, self: Id, id: Id) { exists k: nat :: Up(b, id, k) == Some(self) }

  // ---- Walking up ----

  /** The k-th ancestor is a mailbox other than `self`. */
  ghost predicate Passes(b: Boxes, self: Option<Id>, id: Id, k: nat) {
    Up(b, id, k).Some? && Up(b, id, k).value in b && Up(b, id, k) != self
  }

  /** The walk from `id` ends after `n` mailboxes, none of them `self`, within the limit. */
  ghost predicate ClearPath(b: Boxes, self: Option<Id>, id: Id, n: nat) {
    n <= MAX_DEPTH && Up(b, id, n) == None && forall k: nat :: k < n ==> Passes(b, self, id, k)
  }

  /** A walk that is stopped, or goes on past the limit, is not clear. */
  lemma Blocked(b: Boxes, self: Option<Id>, id: Id, depth: nat)
    requires forall k: nat :: k < depth ==> Passes(b, self, id, k)
    requires depth > MAX_DEPTH || (Up(b, id, depth).Some? && !Passes(b, self, id, depth))
    ensures forall n: nat :: !ClearPath(b, self, id, n)
  {
    forall n: nat ensures !ClearPath(b, self, id, n) {
      if n < depth { assert Passes(b, self, id, n); }
    }
  }

  /** The number of ancestors of a place under `parent`, on any tree, even one with a
      cycle: refused where the walk up meets a parent that does not exist, meets `self`,
      or goes on for more than the depth limit. */
  method DepthAbove(b: Boxes, self: Option<Id>, parent: Option<Id>) returns (r: Result<nat>)
    ensures r.Ok? ==> if parent.None? then r.value == 0 else ClearPath(b, self, parent.value, r.value)
    ensures r.Err? ==> parent.Some? && forall n: nat :: !ClearPath(b, self, parent.value, n)
  {
    var depth, cur := 0, parent;
    while cur.Some?
      invariant depth <= MAX_DEPTH && (parent.None? ==> cur.None? && depth == 0)
      invariant parent.Some? ==> Up(b, parent.value, depth) == cur
      invariant parent.Some? ==> forall k: nat :: k < depth ==> Passes(b, self, parent.value, k)
      decreases MAX_DEPTH - depth, cur.Some?
    {
      var pid := cur.value;
      if self.Some? && pid == self.value {
        Blocked(b, self, parent.value, depth);
        return Err;
      }
      if pid !in b {
        Blocked(b, self, parent.value, depth);
        return Err;
      }
      UpSnoc(b, parent.value, depth);
      depth := depth + 1;
      if depth > MAX_DEPTH {
        Blocked(b, self, parent.value, depth);
        return Err;
      }
      cur := b[pid].parent;
    }
    r := Ok(depth);
  }

  lemma {:induction false} UpForest(b: Boxes, d: map<Id, nat>, id: Id, k: nat)
    requires HasDepths(b, d) && id in b && k <= d[id]
    ensures k < d[id] ==> Up(b, id, k).Some? && Up(b, id, k).value in b
    ensures k == d[id] ==> Up(b, id, k) == None
    decreases k
  {
    if k > 0 {
      assert DepthAt(b, d, id);
      if b[id].parent.Some? { UpForest(b, d, b[id].parent.value, k - 1); }
    }
  }

  /** In a forest the path is clear exactly under an existing mailbox that is not below
      `self`, and its length is that mailbox's level. */
  lemma ClearInForest(b: Boxes, d: map<Id, nat>, self: Option<Id>, id: Id)
    requires HasDepths(b, d)
    ensures (exists n: nat :: ClearPath(b, self, id, n)) <==> id in b && (self.Some? ==> !Under(b, self.value, id))
    ensures forall n: nat :: ClearPath(b, self, id, n) ==> id in b && n == d[id]
  {
    if id in b {
      forall k: nat | k <= d[id] ensures k < d[id] ==> Up(b, id, k).Some? && Up(b, id, k).value in b {
        UpForest(b, d, id, k);
      }
      UpForest(b, d, id, d[id]);
      if self.None? || !Under(b, self.value, id) {
        assert ClearPath(b, self, id, d[id]);
      }
    }
    forall n: nat | ClearPath(b, self, id, n)
      ensures id in b && n == d[id] && (self.Some? ==> !Under(b, self.value, id))
    {
      PathLength(b, d, self, id, n);
      if self.Some? { NotMet(b, id, self.value, n); }
    }
  }

  lemma PathLength(b: Boxes, d: map<Id, nat>, self: Option<Id>, id: Id, n: nat)
    requires HasDepths(b, d) && ClearPath(b, self, id, n)
    ensures id in b && n == d[id]
  {
    assert n > 0 ==> Passes(b, self, id, 0);
    UpForest(b, d, id, if n < d[id] then n else d[id]);
    assert n > d[id] ==> Passes(b, self, id, d[id]);
  }

  lemma NotMet(b: Boxes, id: Id, self: Id, n: nat)
    requires Up(b, id, n) == None && forall k: nat :: k < n ==> Passes(b, Some(self), id, k)
    ensures !Under(b, self, id)
  {
    forall k: nat ensures Up(b, id, k) != Some(self) {
      if k >= n { UpStops(b, id, n, k); } else { assert Passes(b, Some(self), id, k); }
    }
  }

  lemma {:induction false} UpStops(b: Boxes, id: Id, n: nat, k: nat)
    requires Up(b, id, n) == None && n <= k
    ensures Up(b, id, k) == None
    decreases k
  {
    if n > 0 && id in b && b[id].parent.Some? { UpStops(b, b[id].parent.value, n - 1, k - 1); }
  }

  // ---- Walking down ----

  function Children(b: Boxes, id: Id): set<Id> { set c | c in b && b[c].parent == Some(id) }

  /** Some mailbox is `k` levels below `id`. */
  ghost predicate Reaches(b: Boxes, id: Id, k: nat) { exists x :: x in b && Up(b, x, k) == Some(id) }

  /** `h` is the number of levels below `id`, unless the budget ran out on the way. */
  ghost predicate IsHeight(b: Boxes, id: Id, budget: nat, h: nat) {
    && (Reaches(b, id, h) || (Reaches(b, id, budget) && h >= MAX_DEPTH))
    && forall k: nat :: k <= budget && Reaches(b, id, k) ==> k <= h
  }

  lemma {:induction false} ReachesChild(b: Boxes, id: Id, x: Id, k: nat) returns (c: Id)
    requires x in b && k > 0 && Up(b, x, k) == Some(id)
    ensures c in Children(b, id) && Up(b, x, k - 1) == Some(c)
    decreases k
  {
    if k == 1 {
      c := x;
    } else {
      c := ReachesChild(b, id, b[x].parent.value, k - 1);
    }
  }

  lemma ReachesUp(b: Boxes, id: Id, c: Id, k: nat)
    requires c in Children(b, id) && Reaches(b, c, k)
    ensures Reaches(b, id, k + 1)
  {
    var x :| x in b && Up(b, x, k) == Some(c);
    UpSnoc(b, x, k);
  }

  /** The heights of the children seen so far. */
  ghost predicate HeightSoFar(b: Boxes, id: Id, budget: nat, done: set<Id>, h: nat) {
    && (Reaches(b, id, h) || (Reaches(b, id, budget) && h >= MAX_DEPTH))
    && forall c, k: nat :: c in done && k < budget && Reaches(b, c, k) ==> k + 1 <= h
  }

  lemma HeightWith(b: Boxes, id: Id, budget: nat, done: set<Id>, h: nat, c: Id, hc: nat)
    requires budget > 0 && HeightSoFar(b, id, budget, done, h) && c in Children(b, id) && IsHeight(b, c, budget - 1, hc)
    ensures HeightSoFar(b, id, budget, done + {c}, if hc + 1 > h then hc + 1 else h)
  {
    if Reaches(b, c, hc) { ReachesUp(b, id, c, hc); } else { ReachesUp(b, id, c, budget - 1); }
  }

  lemma HeightOfAll(b: Boxes, id: Id, budget: nat, h: nat)
    requires HeightSoFar(b, id, budget, Children(b, id), h)
    ensures IsHeight(b, id, budget, h)
  {
    forall k: nat | k <= budget && Reaches(b, id, k) ensures k <= h {
      if k > 0 {
        var x :| x in b && Up(b, x, k) == Some(id);
        var c := ReachesChild(b, id, x, k);
        assert Reaches(b, c, k - 1);
      }
    }
  }

  method SubtreeHeight(b: Boxes, id: Id, budget: nat) returns (height: nat)
    requires id in b
    ensures IsHeight(b, id, budget, height)
    decreases budget
  {
    assert Up(b, id, 0) == Some(id);
    if budget <= 0 {
      return MAX_DEPTH;
    }
    height := 0;
    var todo := Children(b, id);
    ghost var done := {};
    while todo != {}
      invariant done + todo == Children(b, id)
      invariant HeightSoFar(b, id, budget, done, height)
      decreases todo
    {
      var c :| c in todo;
      todo := todo - {c};
      var h := SubtreeHeight(b, c, budget - 1);
      HeightWith(b, id, budget, done, height, c, h);
      done := done + {c};
      if h + 1 > height {
        height := h + 1;
      }
    }
    assert done == Children(b, id);
    HeightOfAll(b, id, budget, height);
  }

  /** In a forest the budget never runs out, and the height is exact. */
  lemma HeightInForest(b: Boxes, id: Id, h: nat)
    requires Forest(b) && id in b && IsHeight(b, id, MAX_DEPTH, h)
    ensures Reaches(b, id, h) && forall k: nat :: Reaches(b, id, k) ==> k <= h
  {
    forall k: nat | Reaches(b, id, k) ensures k < MAX_DEPTH {
      var x :| x in b && Up(b, x, k) == Some(id);
      ForestEnds(b, x, k);
    }
  }

  // ---- Placing a mailbox, with everything below it ----

  lemma UnderDepth(b: Boxes, d: map<Id, nat>, self: Id, x: Id)
    requires HasDepths(b, d) && x in b && Under(b, self, x)
    ensures self in b && d[self] <= d[x] && Reaches(b, self, d[x] - d[self]) && (d[x] == d[self] ==> x == self)
  {
    var k: nat :| Up(b, x, k) == Some(self);
    UpDepth(b, d, x, k);
  }

  lemma UnderParent(b: Boxes, self: Id, x: Id)
    requires x in b && x != self
    ensures Under(b, self, x) <==> b[x].parent.Some? && Under(b, self, b[x].parent.value)
  {
    if k: nat :| Up(b, x, k) == Some(self) {
      assert k > 0 && Up(b, b[x].parent.value, k - 1) == Some(self);
    }
    if b[x].parent.Some? {
      if k: nat :| Up(b, b[x].parent.value, k) == Some(self) { assert Up(b, x, k + 1) == Some(self); }
    }
  }

  ghost function NewDepth(b: Boxes, d: map<Id, nat>, self: Id, above: nat, x: Id): (n: nat)
    requires HasDepths(b, d) && (x == self || x in b)
  {
    if x == self then above + 1
    else if Under(b, self, x) then UnderDepth(b, d, self, x); d[x] - d[self] + above + 1
    else d[x]
  }

  /** The mailbox may go there: its parent exists and is not below it, and everything
      below it stays within the depth limit. */
  ghost predicate Fits(b: Boxes, d: map<Id, nat>, self: Id, parent: Option<Id>)
    requires HasDepths(b, d)
  {
    && (parent.Some? ==> parent.value in b && !Under(b, self, parent.value))
    && DepthOver(b, d, parent) + 1 <= MAX_DEPTH
    && forall k: nat :: Reaches(b, self, k) ==> DepthOver(b, d, parent) + 1 + k <= MAX_DEPTH
  }

  ghost function DepthOver(b: Boxes, d: map<Id, nat>, parent: Option<Id>): nat
    requires HasDepths(b, d)
  {
    if parent.Some? && parent.value in b then d[parent.value] else 0
  }

  lemma NewDepthAt(b: Boxes, d: map<Id, nat>, self: Id, m: Box, d': map<Id, nat>, x: Id)
    requires HasDepths(b, d) && Fits(b, d, self, m.parent) && (x in b || x == self)
    requires d'.Keys == b.Keys + {self}
    requires forall y :: y in d' ==> d'[y] == NewDepth(b, d, self, DepthOver(b, d, m.parent), y)
    ensures 1 <= d'[x] <= MAX_DEPTH && DepthAt(b[self := m], d', x)
  {
    assert Up(b, self, 0) == Some(self) && Under(b, self, self);
    if x != self {
      assert DepthAt(b, d, x);
      UnderParent(b, self, x);
      if Under(b, self, x) {
        UnderDepth(b, d, self, x);
        UnderDepth(b, d, self, b[x].parent.value);
      }
      if b[x].parent.Some? { assert b[x].parent.value in d'; }
    }
  }

  /** A place that fits keeps the forest, with the whole subtree moved. */
  lemma FitsKeepsForest(b: Boxes, d: map<Id, nat>, self: Id, m: Box)
    requires HasDepths(b, d) && Fits(b, d, self, m.parent)
    ensures Forest(b[self := m])
  {
    var d' := map x | x in b.Keys + {self} :: NewDepth(b, d, self, DepthOver(b, d, m.parent), x);
    forall x | x in b[self := m] ensures 1 <= d'[x] <= MAX_DEPTH && DepthAt(b[self := m], d', x) {
      NewDepthAt(b, d, self, m, d', x);
    }
    assert HasDepths(b[self := m], d');
  }

  /** A path that leads up to `self` does not change when `self` moves. */
  lemma {:induction false} PathKept(b: Boxes, d: map<Id, nat>, self: Id, m: Box, x: Id, k: nat)
    requires HasDepths(b, d) && x in b && Up(b, x, k) == Some(self)
    ensures Up(b[self := m], x, k) == Some(self)
    decreases k
  {
    if k > 0 {
      UpDepth(b, d, x, k);
      assert DepthAt(b, d, x) && x != self && b[self := m][x] == b[x];
      PathKept(b, d, self, m, b[x].parent.value, k - 1);
    }
  }

  /** What is not below `self` keeps its depth when `self` moves. */
  lemma {:induction false} DepthKept(b: Boxes, d: map<Id, nat>, self: Id, m: Box, d': map<Id, nat>, x: Id)
    requires HasDepths(b, d) && HasDepths(b[self := m], d') && x in b && !Under(b, self, x)
    ensures d'[x] == d[x]
    decreases d[x]
  {
    assert Up(b, self, 0) == Some(self);
    assert x != self && DepthAt(b, d, x) && DepthAt(b[self := m], d', x);
    UnderParent(b, self, x);
    if b[x].parent.Some? { DepthKept(b, d, self, m, d', b[x].parent.value); }
  }

  /** And only a place that fits does. */
  lemma ForestNeedsFit(b: Boxes, d: map<Id, nat>, self: Id, m: Box)
    requires HasDepths(b, d) && Forest(b[self := m])
    ensures Fits(b, d, self, m.parent)
  {
    var b' := b[self := m];
    var d' :| HasDepths(b', d');
    assert DepthAt(b', d', self);
    if m.parent.Some? {
      var p := m.parent.value;
      assert p != self && p in b;
      if k: nat :| Up(b, p, k) == Some(self) {
        PathKept(b, d, self, m, p, k);
        UpDepth(b', d', p, k);
      } else {
        DepthKept(b, d, self, m, d', p);
      }
    }
    forall k: nat | Reaches(b, self, k) ensures d'[self] + k <= MAX_DEPTH {
      var x :| x in b && Up(b, x, k) == Some(self);
      PathKept(b, d, self, m, x, k);
      UpDepth(b', d', x, k);
    }
  }

  // ---- The checks ----

  /** An update names the mailbox it is about; a create is about one not there yet. */
  predicate About(b: Boxes, self: Option<Id>, id: Id) { (self == Some(id) && id in b) || (self == None && id !in b) }

  /** A sibling of the same name other than `self`. */
  method NameTaken(b: Boxes, self: Option<Id>, m: Box) returns (taken: bool)
    ensures taken <==> exists x :: x in b && self != Some(x) && b[x].parent == m.parent && b[x].name == m.name
  {
    var todo := set x | x in b && b[x].parent == m.parent;
    while todo != {}
      invariant forall x :: x in todo ==> x in b && b[x].parent == m.parent
      invariant forall x :: x in b && b[x].parent == m.parent && x !in todo ==> self == Some(x) || b[x].name != m.name
    {
      var x :| x in todo;
      todo := todo - {x};
      if self != Some(x) && b[x].name == m.name {
        return true;
      }
    }
    taken := false;
  }

  /** Another mailbox with the same role. */
  method RoleTaken(b: Boxes, self: Option<Id>, role: Bytes) returns (taken: bool)
    ensures taken <==> exists x :: x in b && self != Some(x) && b[x].role == Some(role)
  {
    var todo := set x | x in b && b[x].role == Some(role);
    while todo != {}
      invariant forall x :: x in todo ==> x in b && b[x].role == Some(role)
      invariant forall x :: x in b && b[x].role == Some(role) && x !in todo ==> self == Some(x)
    {
      var x :| x in todo;
      todo := todo - {x};
      if self != Some(x) {
        return true;
      }
    }
    taken := false;
  }

  /** Where the walks up and down leave room. */
  method HasRoom(b: Boxes, self: Option<Id>, parent: Option<Id>, ghost id: Id, ghost d: map<Id, nat>) returns (ok: bool)
    requires HasDepths(b, d) && About(b, self, id)
    ensures ok <==> Fits(b, d, id, parent)
  {
    assert Forest(b);
    if self.None? { NothingBelow(b, d, id); }
    var above := DepthAbove(b, self, parent);
    if parent.Some? { ClearInForest(b, d, self, parent.value); }
    if above.Err? {
      return false;
    }
    var below := 0;
    if self.Some? {
      below := SubtreeHeight(b, self.value, MAX_DEPTH);
      HeightInForest(b, id, below);
    }
    ok := above.value + 1 + below <= MAX_DEPTH;
  }

  lemma NothingBelow(b: Boxes, d: map<Id, nat>, id: Id)
    requires HasDepths(b, d) && id !in b
    ensures (forall k: nat :: !Reaches(b, id, k)) && forall x :: x in b ==> !Under(b, id, x)
  {
    forall k: nat, x | x in b ensures Up(b, x, k) != Some(id) {
      if Up(b, x, k) == Some(id) { UpDepth(b, d, x, k); }
    }
  }

  /** The sibling and role checks: nothing else stands in the way of the mailbox. */
  method StandsApart(r: Rules, b: Boxes, self: Option<Id>, m: Box, ghost id: Id) returns (ok: bool)
    requires About(b, self, id)
    ensures ok <==> (m.role.Some? ==> r.roleOk(m.role.value)) && forall x :: x in b && x != id ==> Apart(b[x], m)
  {
    var taken := NameTaken(b, self, m);
    if taken {
      return false;
    }
    if m.role.Some? {
      if !r.roleOk(m.role.value) {
        return false;
      }
      taken := RoleTaken(b, self, m.role.value);
      if taken {
        return false;
      }
    }
    ok := true;
  }

  /** Everything a create or an update is checked for: accepted if and only if the tree
      with the mailbox in its new place is well formed. */
  method Validate(r: Rules, b: Boxes, self: Option<Id>, m: Box, ghost id: Id) returns (ok: bool)
    requires WellFormed(r, b) && About(b, self, id)
    ensures ok <==> WellFormed(r, b[id := m])
  {
    ghost var d :| HasDepths(b, d);
    PlacedIff(r, b, d, id, m);
    if !r.nameOk(m.name) {
      return false;
    }
    var room := HasRoom(b, self, m.parent, id, d);
    if !room {
      return false;
    }
    ok := StandsApart(r, b, self, m, id);
    if ok {
      ok := m.sortOrder < 0x8000_0000;
    }
  }

  lemma PlacedIff(r: Rules, b: Boxes, d: map<Id, nat>, id: Id, m: Box)
    requires WellFormed(r, b) && HasDepths(b, d)
    ensures WellFormed(r, b[id := m]) <==>
      Fits(b, d, id, m.parent) && Alone(r, m) && forall x :: x in b && x != id ==> Apart(b[x], m)
  {
    var b' := b[id := m];
    if Forest(b') { ForestNeedsFit(b, d, id, m); }
    if Fits(b, d, id, m.parent) { FitsKeepsForest(b, d, id, m); }
    if Forest(b') && Alone(r, m) && forall x :: x in b && x != id ==> Apart(b[x], m) { Placed(r, b, id, m); }
    assert id in b' && b'[id] == m && forall x :: x in b && x != id ==> x in b' && b'[x] == b[x];
  }

  lemma Placed(r: Rules, b: Boxes, id: Id, m: Box)
    requires WellFormed(r, b) && Forest(b[id := m]) && Alone(r, m)
    requires forall x :: x in b && x != id ==> Apart(b[x], m)
    ensures WellFormed(r, b[id := m])
  {
    var b' := b[id := m];
    forall x, y | x in b' && y in b' && x != y ensures Apart(b'[x], b'[y]) {
      if x == id {
        assert Apart(b[y], m);
      } else if y == id {
        assert Apart(b[x], m);
      } else {
        assert Apart(b[x], b[y]);
      }
    }
  }

  /** Levels counted upwards, at most n of them. */
  ghost function Level(b: Boxes, id: Id, n: nat): nat
    decreases n
  {
    if n == 0 then 0
    else if id in b && b[id].parent.Some? then 1 + Level(b, b[id].parent.value, n - 1)
    else 1
  }

  lemma {:induction false} LevelSettles(b: Boxes, id: Id, n: nat)
    requires Up(b, id, n) == None
    ensures 1 <= Level(b, id, n) <= n && Level(b, id, n + 1) == Level(b, id, n)
    decreases n
  {
    if id in b && b[id].parent.Some? { LevelSettles(b, b[id].parent.value, n - 1); }
  }

  /** Ten levels and no more: every parent is there, and ten steps up lead nowhere. */
  lemma ForestMeans(b: Boxes)
    ensures Forest(b) <==>
      && (forall id :: id in b && b[id].parent.Some? ==> b[id].parent.value in b)
      && (forall id :: id in b ==> Up(b, id, 10) == None)
  {
    if Forest(b) {
      var d :| HasDepths(b, d);
      forall id | id in b ensures Up(b, id, 10) == None { ForestEnds(b, id, 10); }
      forall id | id in b && b[id].parent.Some? ensures b[id].parent.value in b { assert DepthAt(b, d, id); }
    }
    if (forall id :: id in b && b[id].parent.Some? ==> b[id].parent.value in b)
      && (forall id :: id in b ==> Up(b, id, 10) == None)
    {
      var d := map id | id in b :: Level(b, id, 10);
      forall id | id in b ensures 1 <= d[id] <= MAX_DEPTH && DepthAt(b, d, id) {
        LevelSettles(b, id, 10);
        if b[id].parent.Some? { LevelSettles(b, b[id].parent.value, 9); }
      }
      assert HasDepths(b, d);
    }
  }

  /** What every accepted change keeps, in so many words (section 2 of RFC 8621). */
  lemma WellFormedMeans(r: Rules, b: Boxes)
    ensures WellFormed(r, b) <==>
      && (forall id :: id in b && b[id].parent.Some? ==> b[id].parent.value in b)
      && (forall id :: id in b ==> Up(b, id, 10) == None)
      && (forall x, y :: x in b && y in b && x != y && b[x].parent == b[y].parent ==> b[x].name != b[y].name)
      && (forall x, y :: x in b && y in b && x != y && b[x].role.Some? && b[y].role.Some? ==>
        b[x].role.value != b[y].role.value)
      && (forall id :: id in b ==> r.nameOk(b[id].name) && b[id].sortOrder <= 2_147_483_647)
      && (forall id :: id in b && b[id].role.Some? ==> r.roleOk(b[id].role.value))
  {
    ForestMeans(b);
    if WellFormed(r, b) {
      forall x, y | x in b && y in b && x != y ensures Apart(b[x], b[y]) { }
    }
  }

  /** Taking a mailbox out keeps the tree well formed if and only if it has no child. */
  lemma RemovalIff(r: Rules, b: Boxes, id: Id)
    requires WellFormed(r, b) && id in b
    ensures WellFormed(r, b - {id}) <==> Children(b, id) == {}
  {
    var d :| HasDepths(b, d);
    var b' := b - {id};
    if Children(b, id) == {} {
      var d' := d - {id};
      forall x | x in b' ensures 1 <= d'[x] <= MAX_DEPTH && DepthAt(b', d', x) {
        assert DepthAt(b, d, x) && x !in Children(b, id);
      }
      assert HasDepths(b', d');
      forall x, y | x in b' && y in b' && x != y ensures Apart(b'[x], b'[y]) { assert Apart(b[x], b[y]); }
    } else {
      var c :| c in Children(b, id);
      assert DepthAt(b, d, c);
      assert c in b' && b'[c].parent == Some(id) && id !in b';
    }
  }

  /** The mailboxes of an account, as a /set call changes them one after another. */
  class Tree {
    const rules: Rules
    var boxes: Boxes

    constructor (rules: Rules)
      ensures this.rules == rules && boxes == map[] && Valid()
    {
      this.rules := rules;
      boxes := map[];
      new;
      assert HasDepths(boxes, map[]);
    }

    ghost predicate Valid()
      reads this
    {
      WellFormed(rules, boxes)
    }

    method Create(id: Id, m: Box) returns (ok: bool)
      requires Valid() && id !in boxes
      modifies this
      ensures Valid() && boxes == if ok then old(boxes)[id := m] else old(boxes)
      ensures ok <==> WellFormed(rules, old(boxes)[id := m])
    {
      ok := Validate(rules, boxes, None, m, id);
      if ok {
        boxes := boxes[id := m];
      }
    }

    /** Rename, re-role or reparent; a reparent moves everything below along. */
    method Update(id: Id, m: Box) returns (ok: bool)
      requires Valid() && id in boxes
      modifies this
      ensures Valid() && boxes == if ok then old(boxes)[id := m] else old(boxes)
      ensures ok <==> WellFormed(rules, old(boxes)[id := m])
    {
      ok := Validate(rules, boxes, Some(id), m, id);
      if ok {
        boxes := boxes[id := m];
      }
    }

    method Destroy(id: Id, emails: nat, removeEmails: bool) returns (ok: bool)
      requires Valid() && id in boxes
      modifies this
      ensures Valid() && boxes == if ok then old(boxes) - {id} else old(boxes)
      ensures ok <==> WellFormed(rules, old(boxes) - {id}) && (emails == 0 || removeEmails)
    {
      RemovalIff(rules, boxes, id);
      if Children(boxes, id) != {} {
        return false;
      }
      if emails > 0 && !removeEmails {
        return false;
      }
      boxes := boxes - {id};
      ok := true;
    }
  }
}
