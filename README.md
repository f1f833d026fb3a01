# Product service: query filters and service outcomes

A model of the product catalogue service's core. It covers:

- the two query specifications that filter products by name and by description;
- their composition in `ProductService.search`;
- how the service maps the data store's answers to HTTP outcomes for search, get, create, update and delete;
- the mutable `Product` entity that `update` changes through its setters.

Modules, one per source concern:

- `LikePatterns` (like.dfy): SQL `LIKE` matching. `%` matches any run of characters, `_` matches one character, and any other character matches itself, with exact case. It also gives a reference definition of substring containment. `Like(s, "%" + f + "%")` is proved to equal containment of `f` in `s` whenever `f` is wildcard-free: it contains no `%`, no `_` and no backslash, the default escape character of common databases. The model also shows how the unescaped filter behaves when it does contain wildcards.
- `ProductModel` (product.dfy): `ProductRecord`, the persisted row, and the `Product` entity class. The id is a `const`, since Java gives it no setter. Name and description are `string`s, which are never null.
- `ProductSpecifications` (specifications.dfy): `ProductWithNameLike` and `ProductWithDescriptionLike`. Each is an immutable value holding one optional filter, and its `ToPredicate` turns that filter into a predicate over a row.
- `ProductRepository` (repository.dfy): the data store the service uses. It is a table from id to row, with an id generator. It has `findById`, `save` and `deleteById`, and the request and answer shapes of a paged query.
- `Dto` (dto.dfy): `Response` and `Pagination`, as plain values.
- `Service` (service.dfy): the search predicate, `Search` and `Get` as functions of the store's answer, and `ProductService` with `Create`, `Delete` and `Update` as methods that change the store.
- `Scenarios` (scenarios.dfy): an in-memory table standing in for the database. It filters rows in table order and serves pages with a rounded-up page count; that arithmetic belongs to the stand-in. The module also proves the repository's own examples against it.

Choices:

- **Filter matching.** The filters reach the database as `LIKE '%' || filter || '%'` with the user's text spliced in unescaped. The model follows that code rather than a plain "contains" reading: `%` and `_` typed by a user act as wildcards (`PercentNameFilterAcceptsAll`, `UnderscoreFilterIsNotContainment`). For filters without `%`, `_` or a backslash the two readings agree (`NameLikeIsContainment`, `DescriptionLikeIsContainment`). Characters are compared exactly. Whether the database collation ignores case is not decided by this code.
- **Store failures.** Failures enter the model as a `fault` flag on the store calls whose exceptions the service catches: `save` in `create` and `deleteById` in `delete`. `search` receives the store's paged query as a function that either answers with a page or fails.
- **Raised statuses.** `search` raises `ResponseStatusException`. The model returns that status as `Failure(status)`.

## Model

| member | source | states |
|---|---|---|
| `LikePatterns.Like` | src/main/java/com/product/repository/ProductWithNameLikeSpecification.java:24-25 | the `like` test the criteria builder applies to a column (no escape character): a pattern without `%` matches only strings of its own length, and a pattern with neither `%` nor `_` matches exactly itself. What `%f%` means is stated by `LikeContains` |
| `LikePatterns.LikeContains` | src/main/java/com/product/repository/ProductWithNameLikeSpecification.java:24-25 | for a filter with no `%`, `_` or backslash, the pattern `%filter%` accepts a string exactly when the string contains the filter at some position |
| `LikePatterns.EmptyFilterAcceptsAll` | src/main/java/com/product/repository/ProductWithNameLikeSpecification.java:24-25 | the empty filter builds the pattern `%%`, which accepts every string |
| `LikePatterns.PercentFilterAcceptsAll` | src/main/java/com/product/repository/ProductWithNameLikeSpecification.java:25 | the filter is not escaped: the filter `%` builds `%%%`, which accepts every string |
| `LikePatterns.UnderscoreFilterIsNotContainment` | src/main/java/com/product/repository/ProductWithDescriptionLikeSpecification.java:25 | the filter is not escaped: the filter `a_c` accepts "abc", which does not contain `a_c` |
| `ProductSpecifications.ProductWithNameLike.ToPredicate` | src/main/java/com/product/repository/ProductWithNameLikeSpecification.java:20-26 | no filter gives `true`; a filter `n` tests the name against `%n%`. Its properties are stated by `NullNameAcceptsAll`, `NameLikeIsContainment`, `NameLikeReadsOnlyName`, `EmptyNameFilterAcceptsAll` and `PercentNameFilterAcceptsAll` |
| `ProductSpecifications.NullNameAcceptsAll` | src/main/java/com/product/repository/ProductWithNameLikeSpecification.java:21-22 | an absent name filter accepts every product |
| `ProductSpecifications.NameLikeIsContainment` | src/main/java/com/product/repository/ProductWithNameLikeSpecification.java:24-25 | a wildcard-free name filter (no `%`, `_` or backslash) accepts a product if and only if its name contains the filter |
| `ProductSpecifications.NameLikeReadsOnlyName` | src/main/java/com/product/repository/ProductWithNameLikeSpecification.java:25 | two products with the same name get the same answer from any name specification, whatever their id and description |
| `ProductSpecifications.EmptyNameFilterAcceptsAll` | src/main/java/com/product/repository/ProductWithNameLikeSpecification.java:24-25 | the empty name filter accepts every product |
| `ProductSpecifications.PercentNameFilterAcceptsAll` | src/main/java/com/product/repository/ProductWithNameLikeSpecification.java:25 | a user-supplied name filter `%` accepts every product |
| `ProductSpecifications.ProductWithDescriptionLike.ToPredicate` | src/main/java/com/product/repository/ProductWithDescriptionLikeSpecification.java:20-26 | no filter gives `true`; a filter `d` tests the description against `%d%`. Its properties are stated by `NullDescriptionAcceptsAll`, `DescriptionLikeIsContainment`, `DescriptionLikeReadsOnlyDescription` and `EmptyDescriptionFilterAcceptsAll` |
| `ProductSpecifications.NullDescriptionAcceptsAll` | src/main/java/com/product/repository/ProductWithDescriptionLikeSpecification.java:21-22 | an absent description filter accepts every product |
| `ProductSpecifications.DescriptionLikeIsContainment` | src/main/java/com/product/repository/ProductWithDescriptionLikeSpecification.java:24-25 | a wildcard-free description filter accepts a product if and only if its description contains the filter |
| `ProductSpecifications.DescriptionLikeReadsOnlyDescription` | src/main/java/com/product/repository/ProductWithDescriptionLikeSpecification.java:25 | two products with the same description get the same answer from any description specification |
| `ProductSpecifications.EmptyDescriptionFilterAcceptsAll` | src/main/java/com/product/repository/ProductWithDescriptionLikeSpecification.java:24-25 | the empty description filter accepts every product |
| `ProductModel.Product.constructor` | src/main/java/com/product/model/Product.java:33-36 | a new product holds the given name and description, and its id is 0 until the store assigns one |
| `ProductModel.Product.Load` | src/main/java/com/product/model/Product.java:38-40 | the persistence layer's no-argument construction, with every column filled, gives an entity equal to the stored row |
| `ProductModel.Product.SetName` | src/main/java/com/product/model/Product.java:54-56 | replaces the name only; the description is kept, and the id is a constant that no method can change |
| `ProductModel.Product.SetDescription` | src/main/java/com/product/model/Product.java:58-60 | replaces the description only; the name is kept |
| `ProductRepository.ProductStore.constructor` | src/main/java/com/product/service/ProductService.java:23-27 | the repository the service holds starts as an empty table with the id generator at 1, which satisfies the table invariant |
| `ProductRepository.ProductStore.FindById` | src/main/java/com/product/service/ProductService.java:74 | returns an entity if and only if the id is stored, and that entity is a new object holding the stored row |
| `ProductRepository.ProductStore.Save` | src/main/java/com/product/service/ProductService.java:53-54 | on a fault nothing changes. Otherwise, an entity with id 0 or an unknown id is inserted under a fresh id that was not in the table, and the generator advances. An entity with a stored id overwrites that row. In every case it returns the row as saved and keeps the table invariant |
| `ProductRepository.ProductStore.DeleteById` | src/main/java/com/product/service/ProductService.java:63-65 | removes a stored id. A missing id is reported as `EmptyResult` and leaves the table unchanged; a fault is reported as a failure and also changes nothing |
| `Service.SearchSpecification` | src/main/java/com/product/service/ProductService.java:32-34 | the search predicate is the name specification AND the description specification. Its properties are stated by `NoFiltersAcceptAll`, `BothFiltersNarrow`, `SearchIsContainment` and `Scenarios.CombinedSelectionIsSubset` |
| `Service.Search` | src/main/java/com/product/service/ProductService.java:29-49 | INTERNAL_SERVER_ERROR if and only if the store's query fails. NO_CONTENT if and only if the query answers an empty page, so a failure is never reported as NO_CONTENT. Otherwise the envelope's data is exactly the page content (non-empty), and currentPage, totalItems and totalPages are the page's number, total element count and total page count, unchanged. The query receives the name-AND-description predicate |
| `Service.Get` | src/main/java/com/product/service/ProductService.java:73-78 | OK with the stored row if and only if the id is present; otherwise NOT_FOUND with no body |
| `Service.NoFiltersAcceptAll` | src/main/java/com/product/service/ProductService.java:32-34 | with both filters absent, the search predicate accepts every product |
| `Service.BothFiltersNarrow` | src/main/java/com/product/service/ProductService.java:32-34 | whatever the predicate with both filters accepts, the name-only and the description-only predicates accept too |
| `Service.SearchIsContainment` | src/main/java/com/product/service/ProductService.java:32-34 | for wildcard-free filters, the search predicate holds if and only if the name contains the name filter and the description contains the description filter |
| `Service.ProductService.constructor` | src/main/java/com/product/service/ProductService.java:25-27 | the service keeps the repository it is given |
| `Service.ProductService.Create` | src/main/java/com/product/service/ProductService.java:51-59 | without a fault: CREATED with a row that holds the input's name and description under a fresh id. That id is independent of the input's id and was not in the table, the table gains exactly that row, and the id generator advances by one. With a fault: INTERNAL_SERVER_ERROR, no body, and the table is unchanged |
| `Service.ProductService.Delete` | src/main/java/com/product/service/ProductService.java:61-71 | NO_CONTENT without a fault, whether or not the id was stored, and the table loses that id; the status is a 2xx code exactly when there is no fault. INTERNAL_SERVER_ERROR on a fault, with the table unchanged |
| `Service.ProductService.Update` | src/main/java/com/product/service/ProductService.java:80-88 | id absent: NOT_FOUND, no body, nothing saved. Id present: the stored row gets the input's name and description with its id kept, the table holds that row under the id, and OK carries it |
| `Service.DeleteTwice` | src/main/java/com/product/service/ProductService.java:61-71 | two consecutive deletes of one id both answer NO_CONTENT, and together they remove exactly that id |
| `Scenarios.FindAll` | src/test/java/com/product/repository/ProductWithNameLikeSpecificationTest.java:41 | the unpaged query keeps exactly the table rows that the predicate accepts, and never more rows than the table holds |
| `Scenarios.PageCountBounds` | src/main/java/com/product/service/ProductService.java:42-48 | for the in-memory stand-in: no pages exactly when nothing matches, a page holds rows exactly when its index is below the page count, and never more than the page size |
| `Scenarios.SearchPastLastPageIsNoContent` | src/main/java/com/product/service/ProductService.java:42-45 | on the stand-in table, a search for a page index at or past the page count ends in NO_CONTENT |
| `Scenarios.CombinedSelectionIsSubset` | src/main/java/com/product/service/ProductService.java:32-36 | every row the combined search selects is also selected by the name filter alone and by the description filter alone |
| `Scenarios.NameBonitoSelectsPantalon` | src/test/java/com/product/repository/ProductWithNameLikeSpecificationTest.java:38-46 | on the two-product table, the name filter "bonito" selects exactly the Pantalon product |
| `Scenarios.NameBonitaSelectsNothing` | src/test/java/com/product/repository/ProductWithNameLikeSpecificationTest.java:48-57 | on the two-product table, the name filter "bonita" selects nothing, and a search with it ends in NO_CONTENT |
| `Scenarios.DescriptionVaqueiroSelectsVaqueiro` | src/test/java/com/product/repository/ProductWithDescriptionLikeSpecificationTest.java:37-47 | on the two-product table, the description filter "Vaqueiro" selects exactly the Vaqueiro product |
| `Scenarios.DescriptionVaqueiraSelectsNothing` | src/test/java/com/product/repository/ProductWithDescriptionLikeSpecificationTest.java:49-59 | on the two-product table, the description filter "Vaqueira" selects nothing |
| `Scenarios.UnfilteredFirstPage` | src/test/java/com/product/service/ProductServiceTest.java:46 | the call `search(null, null, Pageable.ofSize(3))`, made here against the repository tests' two-product table rather than a mocked page: it returns both products, with current page 0, two items and one page |

## Left out

- The HTTP controller (`ProductController`) and routing are not modelled. The controller's own delete has no branch for a missing id; the service's `delete` is the one modelled.
- Bean Validation (`@Valid`, `@NotNull`) and the 400 replies it produces are not modelled. In the model, name and description are `string`s and cannot be null, so every input is already valid.
- Creation and update timestamps are not modelled: Hibernate assigns them, and no code in the core reads them.
- JPA's id generation strategy is reduced to a counter that starts at 1 and only grows.
- JSON serialisation of `Response`/`Pagination` and `Product.toString` are not modelled.
- The getters are not modelled: the fields are read directly.
- Spring Data's paging arithmetic (`getNumber`, `getTotalElements`, `getTotalPages`) is not modelled. `search` takes the store's paged query as a parameter. Only the in-memory stand-in in `Scenarios` computes pages, and its rounded-up page count is an assumption of that stand-in.
- Java's `int`/`long` widths are not modelled: the page counts are copied unchanged and never computed, so no wrap-around can arise.
- Service.Get: a store exception during `findById` is not caught by the service and propagates out of it. That path is not modelled; the store is taken to answer.
- Service.ProductService.Update: a store exception during `findById` or `save` is not caught by the service and propagates out of it. That path is not modelled; the store is taken to answer.
- Persistence-context identity is not modelled: `findById` hands out a new entity holding the row, not the session's managed instance. Saving it back writes the row, as a merge would.
- The LIKE escape character is not modelled: the pattern is built without an ESCAPE clause, so the database's default applies (a backslash on H2, PostgreSQL and MySQL). The model uses no escape character, and the containment lemmas are stated only for filters without a backslash, where both readings agree.
- Case-insensitive matching is not modelled: whether `LIKE` ignores case depends on the database collation, and the model compares characters exactly.
- `src/main/java/com/product/product/repository/ProductRepository.java` is not part of this model. It is an interface of derived-query signatures without bodies, in a package the service does not import.
