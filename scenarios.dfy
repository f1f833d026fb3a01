/** An in-memory table standing in for the database in the repository's own
    examples: `findAll(spec)` keeps the rows the predicate accepts, in table
    order, and the paged form serves one slice of them. The page arithmetic
    (slice bounds, page count rounded up) is this stand-in's, not the
    repository's. */
module Scenarios {
  import opened Wrappers
  import opened LikePatterns
  import opened ProductModel
  import opened ProductSpecifications
  import opened ProductRepository
  import opened Dto
  import opened Service

  /** `findAll(spec)`: the rows the predicate accepts, in table order. */
  function FindAll(rows: seq<ProductRecord>, spec: ProductRecord -> bool): (r: seq<ProductRecord>)
    ensures |r| <= |rows|
    ensures forall x :: x in r <==> x in rows && spec(x)
  {
    if rows == [] then []
    else if spec(rows[0]) then [rows[0]] + FindAll(rows[1..], spec)
    else FindAll(rows[1..], spec)
  }

  /** Pages needed for `items` rows at `size` rows per page, rounded up. */
  function PageCount(items: nat, size: PageSize): nat
  {
    (items + size - 1) / size
  }

  /** `findAll(spec, pageable)` over the table: the requested slice of the
      matching rows, the requested page index, the number of matches and the
      number of pages. */
  function FindPage(rows: seq<ProductRecord>, spec: ProductRecord -> bool, req: PageRequest): Page
  {
    var matching := FindAll(rows, spec);
    var start := req.page * req.size;
    var end := if start + req.size <= |matching| then start + req.size else |matching|;
    var content := if start < |matching| then matching[start..end] else [];
    Page(content, req.page, |matching|, PageCount(|matching|, req.size))
  }

  /** The table as a paged query that never fails. */
  function TableQuery(rows: seq<ProductRecord>): PagedQuery
  {
    (spec: ProductRecord -> bool, req: PageRequest) => Success(FindPage(rows, spec, req))
  }

  /** The rounded-up page count: zero exactly for zero items, and page `page`
      starts before the last item exactly when its index is below the count. */
  lemma PageCountMeaning(n: nat, size: PageSize, page: nat)
    ensures PageCount(n, size) == 0 <==> n == 0
    ensures page * size < n <==> page < PageCount(n, size)
  {
    var m, k := n + size - 1, PageCount(n, size);
    var rem := m % size;
    assert m == k * size + rem && 0 <= rem < size;
    if page < k {
      MultiplyMonotone(page, k - 1, size);
      assert (k - 1) * size == k * size - size;
    } else {
      MultiplyMonotone(k, page, size);
    }
  }

  /** Multiplying by a non-negative factor keeps the order. */
  lemma MultiplyMonotone(a: int, b: int, c: nat)
    requires a <= b
    ensures a * c <= b * c
  {
    assert b * c - a * c == (b - a) * c;
  }

  /** No pages exactly when there are no matches, a page holds rows exactly when
      its index is below `totalPages`, and never more rows than the page size. */
  lemma PageCountBounds(rows: seq<ProductRecord>, spec: ProductRecord -> bool, req: PageRequest)
    ensures var page := FindPage(rows, spec, req);
      && (page.totalPages == 0 <==> page.totalElements == 0)
      && (page.content != [] <==> req.page < page.totalPages)
      && |page.content| <= req.size
  {
    PageCountMeaning(|FindAll(rows, spec)|, req.size, req.page);
  }

  /** Searching for an index past the last page ends in NO_CONTENT, not in an error. */
  lemma SearchPastLastPageIsNoContent(rows: seq<ProductRecord>, name: Option<string>, description: Option<string>, req: PageRequest)
    requires req.page >= PageCount(|FindAll(rows, SearchSpecification(name, description))|, req.size)
    ensures Search(name, description, req, TableQuery(rows)) == Failure(NoContent)
  {
    PageCountBounds(rows, SearchSpecification(name, description), req);
  }

  /** The combined filter selects a subset of what each filter alone selects. */
  lemma CombinedSelectionIsSubset(rows: seq<ProductRecord>, name: Option<string>, description: Option<string>)
    ensures forall x :: x in FindAll(rows, SearchSpecification(name, description)) ==>
              x in FindAll(rows, SearchSpecification(name, None)) && x in FindAll(rows, SearchSpecification(None, description))
  {
  }

  /** The two products every repository example starts from. */
  function Pantalon(): ProductRecord { ProductRecord(1, "Pantalon bonito", "Nuevo pantalon 2021 verano") }
  function Vaqueiro(): ProductRecord { ProductRecord(2, "Vaqueiro curto", "Vaqueiro classico verano") }
  function Fixture(): seq<ProductRecord> { [Pantalon(), Vaqueiro()] }

  /** A wildcard-free name filter on the fixture keeps the products whose name contains it. */
  lemma NameFilterOnFixture(f: string)
    requires NoWildcards(f)
    ensures FindAll(Fixture(), SearchSpecification(Some(f), None))
            == (if Contains(Pantalon().name, f) then [Pantalon()] else [])
             + (if Contains(Vaqueiro().name, f) then [Vaqueiro()] else [])
  {
    NameLikeIsContainment(f, Pantalon());
    NameLikeIsContainment(f, Vaqueiro());
  }

  /** A wildcard-free description filter on the fixture keeps the products whose description contains it. */
  lemma DescriptionFilterOnFixture(f: string)
    requires NoWildcards(f)
    ensures FindAll(Fixture(), SearchSpecification(None, Some(f)))
            == (if Contains(Pantalon().description, f) then [Pantalon()] else [])
             + (if Contains(Vaqueiro().description, f) then [Vaqueiro()] else [])
  {
    DescriptionLikeIsContainment(f, Pantalon());
    DescriptionLikeIsContainment(f, Vaqueiro());
  }

  /** A string lacking the first character of `f` does not contain `f`. */
  lemma MissingFirstCharacter(s: string, f: string)
    requires f != [] && f[0] !in s
    ensures !Contains(s, f)
  {
  }

  // In the lemmas that select rows, the filter strings are parameters fixed by
  // a `requires`, so that the verifier does not unfold `Like` over literal strings.

  /** When the first character of `f` occurs in `s` only at `j`, and `f` does not
      start there, `s` does not contain `f`. */
  lemma OnlyCandidateAt(s: string, f: string, j: nat)
    requires f != [] && j < |s|
    requires f[0] !in s[..j] && f[0] !in s[j + 1..]
    requires !(f <= s[j..])
    ensures !Contains(s, f)
  {
  }

  /** Where "bonito" and "bonita" can and cannot be found in the fixture's names. */
  lemma BonitoFacts()
    ensures NoWildcards("bonito") && Contains(Pantalon().name, "bonito") && !Contains(Vaqueiro().name, "bonito")
  {
    assert "bonito" <= Pantalon().name[9..];
    MissingFirstCharacter(Vaqueiro().name, "bonito");
  }

  lemma BonitaFacts()
    ensures NoWildcards("bonita") && !Contains(Pantalon().name, "bonita") && !Contains(Vaqueiro().name, "bonita")
  {
    assert Pantalon().name[9..][5] != 'a';
    OnlyCandidateAt(Pantalon().name, "bonita", 9);
    MissingFirstCharacter(Vaqueiro().name, "bonita");
  }

  /** Where "Vaqueiro" and "Vaqueira" can and cannot be found in the fixture's descriptions. */
  lemma VaqueiroFacts()
    ensures NoWildcards("Vaqueiro") && !Contains(Pantalon().description, "Vaqueiro") && Contains(Vaqueiro().description, "Vaqueiro")
  {
    assert "Vaqueiro" <= Vaqueiro().description[0..];
    MissingFirstCharacter(Pantalon().description, "Vaqueiro");
  }

  lemma VaqueiraFacts()
    ensures NoWildcards("Vaqueira") && !Contains(Pantalon().description, "Vaqueira") && !Contains(Vaqueiro().description, "Vaqueira")
  {
    VaqueiraNotInVaqueiro();
    MissingFirstCharacter(Pantalon().description, "Vaqueira");
  }

  lemma VaqueiraNotInVaqueiro()
    ensures !Contains(Vaqueiro().description, "Vaqueira")
  {
    var s, f := Vaqueiro().description, "Vaqueira";
    VaqueiroDescriptionShape();
    assert !(f <= s[0..]) by {
      assert s[0..] == s && s[7] != f[7];
    }
    assert f[0] !in s[..0];
    OnlyCandidateAt(s, f, 0);
  }

  /** The name filter "bonito" selects only the Pantalon product. */
  lemma NameBonitoSelectsPantalon(f: string)
    requires f == "bonito"
    ensures FindAll(Fixture(), SearchSpecification(Some(f), None)) == [Pantalon()]
  {
    BonitoFacts();
    NameFilterOnFixture(f);
  }

  /** The name filter "bonita" selects nothing, so a search with it ends in NO_CONTENT. */
  lemma NameBonitaSelectsNothing(f: string, req: PageRequest)
    requires f == "bonita"
    ensures FindAll(Fixture(), SearchSpecification(Some(f), None)) == []
    ensures Search(Some(f), None, req, TableQuery(Fixture())) == Failure(NoContent)
  {
    BonitaFacts();
    NameFilterOnFixture(f);
  }

  /** The description filter "Vaqueiro" selects only the Vaqueiro product. */
  lemma DescriptionVaqueiroSelectsVaqueiro(f: string)
    requires f == "Vaqueiro"
    ensures FindAll(Fixture(), SearchSpecification(None, Some(f))) == [Vaqueiro()]
  {
    VaqueiroFacts();
    DescriptionFilterOnFixture(f);
  }

  /** Where `V` occurs in the Vaqueiro description, and what follows "Vaqueir". */
  lemma VaqueiroDescriptionShape()
    ensures var s := Vaqueiro().description; s[0] == 'V' && s[7] == 'o' && 'V' !in s[1..]
  {
    var s := Vaqueiro().description;
    var a, b, c := "aqueiro", " classico", " verano";
    assert 'V' !in a && 'V' !in b && 'V' !in c;
    assert s == ['V'] + a + b + c;
    assert s[1..] == a + b + c;
  }

  /** The description filter "Vaqueira" selects nothing. */
  lemma DescriptionVaqueiraSelectsNothing(f: string)
    requires f == "Vaqueira"
    ensures FindAll(Fixture(), SearchSpecification(None, Some(f))) == []
  {
    VaqueiraFacts();
    DescriptionFilterOnFixture(f);
  }

  /** With no filters, the first page of three carries both products and counts them on one page. */
  lemma UnfilteredFirstPage()
    ensures Search(None, None, PageRequest(0, 3), TableQuery(Fixture()))
            == Success(Response(Fixture(), Pagination(0, 2, 1)))
  {
    var matching := FindAll(Fixture(), SearchSpecification(None, None));
    assert matching == Fixture();
    assert PageCount(2, 3) == 1;
    assert FindPage(Fixture(), SearchSpecification(None, None), PageRequest(0, 3)) == Page(Fixture(), 0, 2, 1);
  }
}
