/** Plans of the vstorage planner, as far as the program looks into them. */
module Plans {
  import opened Wrappers

  datatype Version = Version(href: string, etag: nat)

  /** Two versions of one item, as they were when the plan was made. */
  datatype ItemConflict = ItemConflict(uid: string, refA: Version, dataA: string,
                                       refB: Version, dataB: string)

  datatype ItemOp = Conflict(info: ItemConflict) | OtherItemOp(description: string)

  /** The collections that a mapping pairs up. */
  datatype Mapping = Mapping(alias: string, hrefA: string, hrefB: string)

  datatype PropertyOpKind = PropertyConflict(valueA: string, valueB: string)
                          | OtherPropertyOp(description: string)

  datatype PropertyOp = PropertyOp(mapping: Mapping, property: string, kind: PropertyOpKind)

  datatype Operation =
    | FlushStaleMappings(staleUids: seq<string>)
    | Collection(description: string)
    | Item(itemOp: ItemOp)
    | Property(propertyOp: PropertyOp)
  {
    predicate IsConflict() {
      || (Item? && itemOp.Conflict?)
      || (Property? && propertyOp.kind.PropertyConflict?)
    }
  }

  /** What a plan stream yields: operations, and errors in between. */
  type Planned = Result<Operation, string>
}
