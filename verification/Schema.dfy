/** Type descriptors (core/descriptor) as the object database uses them. How a value
    encodes, validates or lists its members is a parameter: what is proved holds for
    every encoding. */
module Schema {
  import opened Options
  import opened ByteOrder
  import opened Records

  datatype Property = Property(
    indexed: bool, setIndexed: bool, orderBy: seq<Name>, blobRef: bool, internal: bool, immutable: bool,
    check: Raw -> bool,                  // CheckValue
    encode: Raw -> Result<Bytes>,        // indexValue
    members: Raw -> Result<seq<Bytes>>)  // setMembers

  datatype Type = Type(props: map<Name, Property>)

  /** The registered types; `str` reads a JSON string value (jsonscan.String). */
  datatype Schema = Schema(types: map<Name, Type>, str: Raw -> Option<Bytes>)

  const ID: Name := [0x69, 0x64]

  /** What Validate enforces, and that no bytes at all are not a JSON value. */
  ghost predicate ValidType(ty: Type) {
    && ID !in ty.props
    && forall n :: n in ty.props ==>
         var p := ty.props[n];
         && !(p.indexed && p.setIndexed)
         && p.members([]).Err?
         && forall m :: m in p.orderBy ==> m != ID && m != n && m in ty.props && ty.props[m].immutable
  }

  ghost predicate ValidSchema(sc: Schema) { forall t :: t in sc.types ==> ValidType(sc.types[t]) }

  // ---- What a record contributes to each index ----

  function RawAt(o: Option<Object>, n: Name): Option<Raw> {
    if o.Some? && n in o.value then Some(o.value[n]) else None
  }

  /** The index value of a property: None when absent or not encodable. */
  function IndexValue(p: Property, raw: Option<Raw>): Option<Bytes> {
    if raw.None? then None else
    match p.encode(raw.value) case Ok(v) => Some(v) case Err => None
  }

  /** The OrderBy segments of an index key; an absent value is an empty segment. */
  function OrderSegs(ty: Type, names: seq<Name>, o: Option<Object>): seq<Bytes> {
    if names == [] then []
    else
      var v := if names[0] in ty.props then IndexValue(ty.props[names[0]], RawAt(o, names[0])) else None;
      [if v.Some? then v.value else []] + OrderSegs(ty, names[1..], o)
  }

  function MembersOf(p: Property, raw: Option<Raw>): seq<Bytes> {
    if raw.None? then [] else
    match p.members(raw.value) case Ok(ms) => ms case Err => []
  }

  /** The record has this entry in the scalar or the set index of `n`. */
  predicate HasEntry(ty: Type, o: Option<Object>, n: Name, value: Bytes, order: seq<Bytes>) {
    && n in ty.props
    && var p := ty.props[n];
       || (p.indexed && IndexValue(p, RawAt(o, n)) == Some(value) && order == OrderSegs(ty, p.orderBy, o))
       || (p.setIndexed && order == [] && value in MembersOf(p, RawAt(o, n)))
  }

  /** The blobs a record references through its BlobRef properties. */
  function RefsOf(sc: Schema, ty: Type, o: Option<Object>): set<Id> {
    if o.None? then {} else
    set n | n in ty.props && ty.props[n].blobRef && n in o.value && sc.str(o.value[n]).Some? :: sc.str(o.value[n]).value
  }

  // ---- Visible data ----

  predicate Hidden(ty: Type, n: Name) { n in ty.props && ty.props[n].internal }

  /** The properties in which two versions of a record differ, byte for byte. */
  function DiffProps(a: Object, b: Object): set<Name> {
    set n | n in a.Keys + b.Keys && RawAt(Some(a), n) != RawAt(Some(b), n)
  }

  function VisibleDiff(ty: Type, a: Object, b: Object): set<Name> {
    set n | n in DiffProps(a, b) && !Hidden(ty, n)
  }

  /** The record as the protocol shows it. */
  function Visible(ty: Type, o: Object): Object { map n | n in o && !Hidden(ty, n) :: o[n] }

  /** Every property in which the versions differ is Internal. */
  ghost predicate OnlyInternalDiffers(ty: Type, a: Object, b: Object) {
    forall n :: RawAt(Some(a), n) != RawAt(Some(b), n) ==> n in ty.props && ty.props[n].internal
  }

  lemma UnseenDiff(ty: Type, a: Object, b: Object)
    ensures VisibleDiff(ty, a, b) == {} <==> OnlyInternalDiffers(ty, a, b)
  {
    forall n ensures n in VisibleDiff(ty, a, b) <==> RawAt(Some(a), n) != RawAt(Some(b), n) && !Hidden(ty, n) {
      assert n in DiffProps(a, b) <==> RawAt(Some(a), n) != RawAt(Some(b), n);
    }
  }

  lemma VisibleDiffEmpty(ty: Type, a: Object, b: Object)
    ensures VisibleDiff(ty, a, b) == {} <==> Visible(ty, a) == Visible(ty, b)
  {
    var va, vb, d := Visible(ty, a), Visible(ty, b), VisibleDiff(ty, a, b);
    forall n ensures n in d <==> RawAt(Some(va), n) != RawAt(Some(vb), n) {
      assert n in d <==> RawAt(Some(a), n) != RawAt(Some(b), n) && !Hidden(ty, n);
    }
    if d == {} {
      assert forall n :: RawAt(Some(va), n) == RawAt(Some(vb), n);
      assert forall n :: n in va ==> RawAt(Some(va), n) == Some(va[n]);
      assert forall n :: n in vb ==> RawAt(Some(vb), n) == Some(vb[n]);
      assert va == vb;
    }
  }
}
