/**
 * The schema.org structured data embedded in tool and listing pages: a
 * `SoftwareApplication` record for one tool and a `BreadcrumbList` for the
 * navigation trail. The JSON keys `@context` and `@type` are the fields
 * `context` and `kind`.
 */
module JsonLd {
  import opened Wrappers
  import opened Backend

  const SchemaContext: string := "https://schema.org"

  /** The offer block; an absent `price` is `None` (the key is dropped when serialised). */
  datatype Offer = Offer(kind: string, price: Option<string>, priceCurrency: string)

  datatype SoftwareApplication = SoftwareApplication(
    context: string,
    kind: string,
    name: string,
    description: string,
    applicationCategory: string,
    offers: Offer,
    url: string,
    image: string
  )

  /** One step of a navigation trail. */
  datatype Crumb = Crumb(name: string, url: string)

  datatype ListItem = ListItem(kind: string, position: int, name: string, item: string)

  datatype BreadcrumbList = BreadcrumbList(context: string, kind: string, itemListElement: seq<ListItem>)

  /** `generateToolJsonLd`; the site URL it is given is not used. */
  function GenerateToolJsonLd(tool: Tool, siteUrl: string): SoftwareApplication
  {
    SoftwareApplication(
      SchemaContext,
      "SoftwareApplication",
      tool.name,
      tool.description,
      tool.category,
      Offer("Offer", if tool.pricingTag == "Free" then Some("0") else None, "USD"),
      tool.officialLink,
      tool.iconUrl)
  }

  /** `generateBreadcrumbJsonLd`: one list item per crumb, numbered from 1. */
  function GenerateBreadcrumbJsonLd(items: seq<Crumb>): BreadcrumbList
  {
    BreadcrumbList(
      SchemaContext,
      "BreadcrumbList",
      seq(|items|, k requires 0 <= k < |items| => ListItem("ListItem", k + 1, items[k].name, items[k].url)))
  }

  /**
   * The record names the tool, describes it and links to it with the tool's own
   * fields; the types, context and currency are fixed; a price of "0" is stated
   * exactly for free tools and no price otherwise; and the site URL plays no part.
   */
  lemma ToolJsonLdFields(tool: Tool, siteUrl: string, otherSiteUrl: string)
    ensures var r := GenerateToolJsonLd(tool, siteUrl);
      && r.context == "https://schema.org" && r.kind == "SoftwareApplication"
      && r.offers.kind == "Offer" && r.offers.priceCurrency == "USD"
      && r.name == tool.name && r.description == tool.description
      && r.applicationCategory == tool.category && r.url == tool.officialLink && r.image == tool.iconUrl
      && (r.offers.price == Some("0") <==> tool.pricingTag == "Free")
      && (r.offers.price.Some? <==> tool.pricingTag == "Free")
    ensures GenerateToolJsonLd(tool, siteUrl) == GenerateToolJsonLd(tool, otherSiteUrl)
  {
  }

  /** The tool's fields read back from its record: name, description, category, link, icon, and whether it is free. */
  function ReadBack(r: SoftwareApplication): (string, string, string, string, string, bool)
  {
    (r.name, r.description, r.applicationCategory, r.url, r.image, r.offers.price.Some?)
  }

  /** Two tools get the same record exactly when they agree on the fields it shows and on being free. */
  lemma ToolJsonLdDeterminedByShownFields(a: Tool, b: Tool, siteUrl: string)
    ensures GenerateToolJsonLd(a, siteUrl) == GenerateToolJsonLd(b, siteUrl) <==>
      (a.name, a.description, a.category, a.officialLink, a.iconUrl, a.pricingTag == "Free")
      == (b.name, b.description, b.category, b.officialLink, b.iconUrl, b.pricingTag == "Free")
  {
    var ra := GenerateToolJsonLd(a, siteUrl);
    var rb := GenerateToolJsonLd(b, siteUrl);
    assert ReadBack(ra) == (a.name, a.description, a.category, a.officialLink, a.iconUrl, a.pricingTag == "Free");
    assert ReadBack(rb) == (b.name, b.description, b.category, b.officialLink, b.iconUrl, b.pricingTag == "Free");
  }

  /** The crumbs read back from a breadcrumb list. */
  function Crumbs(list: BreadcrumbList): seq<Crumb>
  {
    seq(|list.itemListElement|, k requires 0 <= k < |list.itemListElement| =>
      Crumb(list.itemListElement[k].name, list.itemListElement[k].item))
  }

  /**
   * The list has one item per crumb, in order: item k is at position k + 1 and carries
   * crumb k's name and URL, so reading the crumbs back gives the input.
   */
  lemma BreadcrumbFaithful(items: seq<Crumb>)
    ensures var list := GenerateBreadcrumbJsonLd(items);
      && list.context == "https://schema.org" && list.kind == "BreadcrumbList"
      && |list.itemListElement| == |items|
      && (forall k | 0 <= k < |items| ::
        list.itemListElement[k].kind == "ListItem" && list.itemListElement[k].position == k + 1)
    ensures Crumbs(GenerateBreadcrumbJsonLd(items)) == items
  {
  }

  /** Positions run 1, 2, 3, … without gap or repeat. */
  lemma BreadcrumbPositionsConsecutive(items: seq<Crumb>)
    ensures var elements := GenerateBreadcrumbJsonLd(items).itemListElement;
      (forall k | 0 < k < |elements| :: elements[k].position == elements[k - 1].position + 1)
      && (elements != [] ==> elements[0].position == 1 && elements[|elements| - 1].position == |items|)
  {
  }
}
