/** The fixed enumerations a tool record is validated against. */
module Constants {

  /** The eight catalogue categories, in their listed order. */
  const AllowedCategories: seq<string> := [
    "AI Tools",
    "Image Tools",
    "Writing Tools",
    "Video Tools",
    "Developer Tools",
    "SEO Tools",
    "Student Tools",
    "Business Tools"
  ]

  /** The three pricing tags, in their listed order. */
  const AllowedPricingTags: seq<string> := ["Free", "Freemium", "Paid"]
}
