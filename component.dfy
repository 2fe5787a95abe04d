/**
 * Components as the scene sees them: objects compared by identity whose only
 * visible attribute is the key of their type (the type's name).
 */
module Components {
  import opened Entities

  /** The key of a component type: its name. */
  type TypeKey = string

  class Component {
    /** The key of this component's type. */
    const kind: TypeKey

    constructor (kind: TypeKey)
      ensures this.kind == kind
    {
      this.kind := kind;
    }
  }

  /** One row of a query result: an entity and its components in the query's type order. */
  datatype QueryResult = QueryResult(entity: Entity, components: seq<Component>)
}
