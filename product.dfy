/** The Product entity. A persisted row is a value (`ProductRecord`); the entity
    object that the service loads, changes through its setters and saves back is
    the class `Product`. Java's `@NotNull` on name and description is carried by
    the types here: a Dafny `string` is never null. */
module ProductModel {

  /** One row of the `products` table: identity, name and description. */
  datatype ProductRecord = ProductRecord(id: int, name: string, description: string)

  /** The mutable entity. `id` has no setter, so it is a `const`: only a
      constructor gives it a value, and no method can change it afterwards. */
  class Product {
    const id: int
    var name: string
    var description: string

    /** A new, not yet persisted product: the id keeps Java's default 0 until
        the store assigns one on insert. */
    constructor (name: string, description: string)
      ensures id == 0 && this.name == name && this.description == description
    {
      id := 0;
      this.name := name;
      this.description := description;
    }

    /** The no-argument constructor through which the persistence layer
        materialises a stored row, filling every column. */
    constructor Load(row: ProductRecord)
      ensures Record() == row
    {
      id := row.id;
      name := row.name;
      description := row.description;
    }

    /** The row this entity is written as. */
    function Record(): ProductRecord
      reads this
    {
      ProductRecord(id, name, description)
    }

    /** Replaces the name; the description (and the constant id) are kept. */
    method SetName(name: string)
      modifies this`name
      ensures this.name == name && description == old(description)
      ensures Record() == old(Record()).(name := name)
    {
      this.name := name;
    }

    /** Replaces the description; the name (and the constant id) are kept. */
    method SetDescription(description: string)
      modifies this`description
      ensures this.description == description && name == old(name)
      ensures Record() == old(Record()).(description := description)
    {
      this.description := description;
    }
  }
}
