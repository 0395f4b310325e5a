/** Records: property names to raw JSON values, both kept as byte strings. */
module Records {
  import opened ByteOrder

  type Name = Bytes
  type Raw = Bytes
  type Object = map<Name, Raw>

  /** The stored form of a record's id: the JSON string of it. */
  function Quote(id: Id): Raw { [0x22] + id + [0x22] }

  /** The part of a record a reader of `props` sees that reads values up to `norm`. */
  function Project(o: Object, props: set<Name>, norm: Raw -> Raw): Object {
    map p | p in o && p in props :: norm(o[p])
  }
}
