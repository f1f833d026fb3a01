/** `ProductService`: composes the search predicate and maps the store's answers
    to HTTP outcomes. `search` and `get` only read, and are functions of the
    store's answer; `create`, `delete` and `update` change the table. */
module Service {
  import opened Wrappers
  import opened LikePatterns
  import opened ProductModel
  import opened ProductSpecifications
  import opened ProductRepository
  import opened Dto

  /** The HTTP statuses the service produces. */
  datatype Status = Ok | Created | NoContent | NotFound | InternalServerError {
    function Code(): int {
      match this
      case Ok => 200
      case Created => 201
      case NoContent => 204
      case NotFound => 404
      case InternalServerError => 500
    }
  }

  /** A `ResponseEntity`: a status and an optional body. */
  datatype Reply<T> = Reply(status: Status, body: Option<T>)

  /** The paged `findAll(spec, pageable)` of the store: the page it answers for a
      predicate and a request, or the failure it raises. */
  type PagedQuery = (ProductRecord -> bool, PageRequest) -> Result<Page, StoreError>

  /** The search predicate: the name specification AND the description specification. */
  function SearchSpecification(name: Option<string>, description: Option<string>): ProductRecord -> bool
  {
    p => ProductWithNameLike(name).ToPredicate(p) && ProductWithDescriptionLike(description).ToPredicate(p)
  }

  /** `search`: a store failure ends in INTERNAL_SERVER_ERROR, decided before the
      emptiness check; an empty page ends in NO_CONTENT with no envelope;
      otherwise the envelope copies the page's rows and counts unchanged. */
  function Search(name: Option<string>, description: Option<string>, pageable: PageRequest, findAll: PagedQuery)
    : (r: Result<Response, Status>)
    ensures r.Failure? ==> r.error == InternalServerError || r.error == NoContent
    ensures r == Failure(InternalServerError) <==> findAll(SearchSpecification(name, description), pageable).Failure?
    ensures r == Failure(NoContent) <==>
              var found := findAll(SearchSpecification(name, description), pageable);
              found.Success? && found.value.content == []
    ensures r.Success? ==>
              var page := findAll(SearchSpecification(name, description), pageable).value;
              && r.value.data == page.content != []
              && r.value.pagination.currentPage == page.number
              && r.value.pagination.totalItems == page.totalElements
              && r.value.pagination.totalPages == page.totalPages
  {
    match findAll(SearchSpecification(name, description), pageable)
    case Failure(_) => Failure(InternalServerError)
    case Success(page) =>
      if page.content == [] then Failure(NoContent)
      else Success(Response(page.content, Pagination(page.number, page.totalElements, page.totalPages)))
  }

  /** `get`: OK with the stored row exactly when the id is present, NOT_FOUND with no body otherwise. */
  function Get(rows: map<int, ProductRecord>, id: int): (r: Reply<ProductRecord>)
    ensures r.status == Ok <==> id in rows
    ensures r.status == Ok ==> r.body == Some(rows[id])
    ensures r.status != Ok ==> r == Reply(NotFound, None)
  {
    if id in rows then Reply(Ok, Some(rows[id])) else Reply(NotFound, None)
  }

  /** With no filter at all, the search predicate accepts every product. */
  lemma NoFiltersAcceptAll(p: ProductRecord)
    ensures SearchSpecification(None, None)(p)
  {
  }

  /** Adding a filter only narrows: what both filters accept, each filter alone accepts. */
  lemma BothFiltersNarrow(name: Option<string>, description: Option<string>, p: ProductRecord)
    ensures SearchSpecification(name, description)(p) ==> SearchSpecification(name, None)(p)
    ensures SearchSpecification(name, description)(p) ==> SearchSpecification(None, description)(p)
  {
  }

  /** For wildcard-free filters, the search predicate is containment in both columns. */
  lemma SearchIsContainment(n: string, d: string, p: ProductRecord)
    requires NoWildcards(n) && NoWildcards(d)
    ensures SearchSpecification(Some(n), Some(d))(p) <==> Contains(p.name, n) && Contains(p.description, d)
  {
    NameLikeIsContainment(n, p);
    DescriptionLikeIsContainment(d, p);
  }

  class ProductService {
    const repository: ProductStore

    constructor (repository: ProductStore)
      ensures this.repository == repository
    {
      this.repository := repository;
    }

    /** `create`: saves a new product built from the input's name and description
        only, so any incoming id is dropped and the store assigns a fresh one;
        CREATED with the saved row, or INTERNAL_SERVER_ERROR with no body when the
        store raises (`fault`). */
    method Create(product: Product, fault: bool) returns (reply: Reply<ProductRecord>)
      requires repository.Valid()
      modifies repository
      ensures repository.Valid()
      ensures fault ==> reply == Reply(InternalServerError, None) && repository.rows == old(repository.rows)
                        && repository.nextId == old(repository.nextId)
      ensures !fault ==>
                var row := ProductRecord(old(repository.nextId), product.name, product.description);
                && reply == Reply(Created, Some(row))
                && row.id !in old(repository.rows)
                && repository.rows == old(repository.rows)[row.id := row]
                && repository.nextId == old(repository.nextId) + 1
    {
      var created := new Product(product.name, product.description);
      var saved := repository.Save(created, fault);
      match saved
      case Success(row) => reply := Reply(Created, Some(row));
      case Failure(_) => reply := Reply(InternalServerError, None);
    }

    /** `delete`: NO_CONTENT whether the row existed or the store reported it
        missing; INTERNAL_SERVER_ERROR on any other failure (`fault`). */
    method Delete(id: int, fault: bool) returns (status: Status)
      requires repository.Valid()
      modifies repository
      ensures repository.Valid()
      ensures status == (if fault then InternalServerError else NoContent)
      ensures 200 <= status.Code() < 300 <==> !fault
      ensures repository.rows == (if fault then old(repository.rows) else old(repository.rows) - {id})
      ensures repository.nextId == old(repository.nextId)
    {
      var outcome := repository.DeleteById(id, fault);
      match outcome
      case Deleted => status := NoContent;
      case EmptyResult => status := NoContent;
      case Failed(_) => status := InternalServerError;
    }

    /** `update`: NOT_FOUND and nothing saved when the id is absent; otherwise the
        loaded entity gets the input's name and description (its id is kept),
        is saved, and OK carries the saved row. */
    method Update(id: int, product: Product) returns (reply: Reply<ProductRecord>)
      requires repository.Valid()
      modifies repository
      ensures repository.Valid()
      ensures repository.nextId == old(repository.nextId)
      ensures id !in old(repository.rows) ==> reply == Reply(NotFound, None) && repository.rows == old(repository.rows)
      ensures id in old(repository.rows) ==>
                var row := old(repository.rows)[id].(name := product.name, description := product.description);
                && row.id == id
                && reply == Reply(Ok, Some(row))
                && repository.rows == old(repository.rows)[id := row]
    {
      var found := repository.FindById(id);
      match found
      case None => reply := Reply(NotFound, None);
      case Some(value) =>
        value.SetName(product.name);
        value.SetDescription(product.description);
        // A failing save inside `update` is not caught by the service; the store
        // is taken to answer here.
        var saved := repository.Save(value, false);
        reply := Reply(Ok, Some(saved.value));
    }
  }

  /** Deleting the same id twice succeeds both times, and the second call changes nothing. */
  method DeleteTwice(service: ProductService, id: int) returns (first: Status, second: Status)
    requires service.repository.Valid()
    modifies service.repository
    ensures first == NoContent && second == NoContent
    ensures service.repository.rows == old(service.repository.rows) - {id}
  {
    first := service.Delete(id, false);
    ghost var afterFirst := service.repository.rows;
    second := service.Delete(id, false);
    assert service.repository.rows == afterFirst;
  }
}
