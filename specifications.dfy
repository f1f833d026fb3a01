/** The two query specifications the product search is built from. Each holds
    one optional filter string, fixed when the specification is built (a
    datatype value is never changed), and turns it into a predicate over a
    stored row: no filter accepts every row, a filter `s` tests the column
    against the LIKE pattern `%s%`, with `s` spliced in unescaped. */
module ProductSpecifications {
  import opened Wrappers
  import opened LikePatterns
  import opened ProductModel

  /** `ProductWithNameLikeSpecification`: a filter on the `name` column. */
  datatype ProductWithNameLike = ProductWithNameLike(name: Option<string>) {
    predicate ToPredicate(p: ProductRecord) {
      match name
      case None => true
      case Some(n) => Like(p.name, "%" + n + "%")
    }
  }

  /** `ProductWithDescriptionLikeSpecification`: a filter on the `description` column. */
  datatype ProductWithDescriptionLike = ProductWithDescriptionLike(description: Option<string>) {
    predicate ToPredicate(p: ProductRecord) {
      match description
      case None => true
      case Some(d) => Like(p.description, "%" + d + "%")
    }
  }

  /** An absent name filter accepts every product. */
  lemma NullNameAcceptsAll(p: ProductRecord)
    ensures ProductWithNameLike(None).ToPredicate(p)
  {
  }

  /** A wildcard-free name filter accepts a product exactly when the name contains it. */
  lemma NameLikeIsContainment(n: string, p: ProductRecord)
    requires NoWildcards(n)
    ensures ProductWithNameLike(Some(n)).ToPredicate(p) <==> Contains(p.name, n)
  {
    LikeContains(p.name, n);
  }

  /** The name predicate reads only the name: rows that agree on it are treated alike. */
  lemma NameLikeReadsOnlyName(spec: ProductWithNameLike, p: ProductRecord, q: ProductRecord)
    requires p.name == q.name
    ensures spec.ToPredicate(p) == spec.ToPredicate(q)
  {
  }

  /** The empty name filter gives the pattern `%%` and accepts every product. */
  lemma EmptyNameFilterAcceptsAll(p: ProductRecord)
    ensures ProductWithNameLike(Some("")).ToPredicate(p)
  {
    EmptyFilterAcceptsAll(p.name);
  }

  /** The name filter `%` is not escaped: it accepts every product. */
  lemma PercentNameFilterAcceptsAll(p: ProductRecord)
    ensures ProductWithNameLike(Some("%")).ToPredicate(p)
  {
    PercentFilterAcceptsAll(p.name);
  }

  /** An absent description filter accepts every product. */
  lemma NullDescriptionAcceptsAll(p: ProductRecord)
    ensures ProductWithDescriptionLike(None).ToPredicate(p)
  {
  }

  /** A wildcard-free description filter accepts a product exactly when the description contains it. */
  lemma DescriptionLikeIsContainment(d: string, p: ProductRecord)
    requires NoWildcards(d)
    ensures ProductWithDescriptionLike(Some(d)).ToPredicate(p) <==> Contains(p.description, d)
  {
    LikeContains(p.description, d);
  }

  /** The description predicate reads only the description. */
  lemma DescriptionLikeReadsOnlyDescription(spec: ProductWithDescriptionLike, p: ProductRecord, q: ProductRecord)
    requires p.description == q.description
    ensures spec.ToPredicate(p) == spec.ToPredicate(q)
  {
  }

  /** The empty description filter gives the pattern `%%` and accepts every product. */
  lemma EmptyDescriptionFilterAcceptsAll(p: ProductRecord)
    ensures ProductWithDescriptionLike(Some("")).ToPredicate(p)
  {
    EmptyFilterAcceptsAll(p.description);
  }
}
