/** The catalogue record exchanged with the backend service. */
module Backend {
  import opened Wrappers

  /**
   * A catalogue entry. Identifiers and timestamps are unbounded integers, as
   * the service's `bigint` fields are.
   */
  datatype Tool = Tool(
    id: int,
    name: string,
    iconUrl: string,
    description: string,
    category: string,
    pricingTag: string,
    officialLink: string,
    createdAt: int,
    updatedAt: int,
    isFeatured: bool,
    isPopular: bool,
    slug: string,
    seoTitle: Option<string>,
    seoDescription: Option<string>,
    seoKeywords: Option<string>
  )
}
