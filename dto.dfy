/** The list reply: the page's rows and its pagination metadata. */
module Dto {
  import opened ProductModel

  datatype Pagination = Pagination(currentPage: int, totalItems: int, totalPages: int)

  datatype Response = Response(data: seq<ProductRecord>, pagination: Pagination)
}
