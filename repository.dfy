/** The data store the service talks to, kept abstract where the repository's
    own code does not decide the behaviour: a table of rows keyed by id with an
    id generator, the single-row operations the service calls, and the shapes
    of a paged query (its request and its answer). */
module ProductRepository {
  import opened Wrappers
  import opened ProductModel

  /** A page request: zero-based page index and a page size of at least one. */
  type PageSize = n: int | n >= 1 witness 1
  datatype PageRequest = PageRequest(page: nat, size: PageSize)

  /** One page of a query's answer with the counts the store computed for it. */
  datatype Page = Page(content: seq<ProductRecord>, number: int, totalElements: int, totalPages: int)

  /** A data-access failure raised by the store. */
  datatype StoreError = DataAccessFailure

  /** How `deleteById` ends: the row went away, the id was not there
      (`EmptyResultDataAccessException`), or another data-access failure. */
  datatype DeleteOutcome = Deleted | EmptyResult | Failed(error: StoreError)

  /** The table: rows keyed by their own id, and the next id the generator hands out. */
  class ProductStore {
    var rows: map<int, ProductRecord>
    var nextId: int

    /** Every row sits under its own id, and generated ids are positive and
        larger than every id in the table, so a fresh id is never taken. */
    ghost predicate Valid()
      reads this
    {
      && 1 <= nextId
      && forall k :: k in rows ==> rows[k].id == k && 1 <= k < nextId
    }

    constructor ()
      ensures Valid() && rows == map[] && nextId == 1
    {
      rows := map[];
      nextId := 1;
    }

    /** `findById`: a fresh entity holding the stored row, or nothing. */
    method FindById(id: int) returns (r: Option<Product>)
      ensures r.Some? <==> id in rows
      ensures r.Some? ==> fresh(r.value) && r.value.Record() == rows[id]
    {
      if id in rows {
        var p := new Product.Load(rows[id]);
        r := Some(p);
      } else {
        r := None;
      }
    }

    /** `save`: an entity with id 0 (never persisted) or with an id the table does
        not hold is inserted under a freshly generated id; an entity with a
        stored id overwrites that row. `fault` is the store raising instead, in
        which case nothing changes. Returns the row as saved. */
    method Save(p: Product, fault: bool) returns (r: Result<ProductRecord, StoreError>)
      requires Valid()
      modifies this
      ensures Valid()
      ensures fault ==> r == Failure(DataAccessFailure) && rows == old(rows) && nextId == old(nextId)
      ensures !fault && (p.id == 0 || p.id !in old(rows)) ==>
                && r == Success(p.Record().(id := old(nextId)))
                && old(nextId) !in old(rows)
                && rows == old(rows)[old(nextId) := r.value]
                && nextId == old(nextId) + 1
      ensures !fault && p.id != 0 && p.id in old(rows) ==>
                && r == Success(p.Record())
                && rows == old(rows)[p.id := r.value]
                && nextId == old(nextId)
    {
      if fault {
        return Failure(DataAccessFailure);
      }
      var row := p.Record();
      if p.id == 0 || p.id !in rows {
        row := row.(id := nextId);
        nextId := nextId + 1;
      }
      rows := rows[row.id := row];
      r := Success(row);
    }

    /** `deleteById`: removes the row; a missing id is reported as `EmptyResult`
        and a `fault` as a failure, both leaving the table unchanged. */
    method DeleteById(id: int, fault: bool) returns (r: DeleteOutcome)
      requires Valid()
      modifies this`rows
      ensures Valid()
      ensures fault ==> r == Failed(DataAccessFailure) && rows == old(rows)
      ensures !fault && id !in old(rows) ==> r == EmptyResult && rows == old(rows)
      ensures !fault && id in old(rows) ==> r == Deleted && rows == old(rows) - {id}
    {
      if fault {
        r := Failed(DataAccessFailure);
      } else if id !in rows {
        r := EmptyResult;
      } else {
        rows := rows - {id};
        r := Deleted;
      }
    }
  }
}
