/** The country-alias normaliser of the ETL pipeline (`standardize_country_name`). */
module Countries {

  /** Alias to canonical name. */
  const Replacements: map<string, string> := map[
    "United States of America" := "United States",
    "USA" := "United States",
    "UK" := "United Kingdom",
    "Great Britain" := "United Kingdom",
    "Russia" := "Russian Federation",
    "South Korea" := "Korea, Republic of",
    "North Korea" := "Korea, Democratic People's Republic of",
    "Taiwan" := "Taiwan, Province of China",
    "Vietnam" := "Viet Nam",
    "Iran" := "Iran, Islamic Republic of",
    "Syria" := "Syrian Arab Republic",
    "Venezuela" := "Venezuela, Bolivarian Republic of",
    "Bolivia" := "Bolivia, Plurinational State of",
    "Tanzania" := "Tanzania, United Republic of",
    "Democratic Republic of Congo" := "Congo, Democratic Republic of the",
    "Congo DR" := "Congo, Democratic Republic of the",
    "DRC" := "Congo, Democratic Republic of the"
  ]

  /** `replacements.get(name, name)`: the canonical name of a listed alias, any other name unchanged. */
  function StandardizeCountryName(name: string): (r: string)
  {
    if name in Replacements then Replacements[name] else name
  }

  /** No canonical name is itself an alias. */
  lemma CanonicalNamesAreNotAliases()
    ensures forall alias :: alias in Replacements ==> Replacements[alias] !in Replacements
  {
  }

  /**
    A listed alias becomes its canonical name, any other name is kept, and the
    result is never an alias; hence normalising twice is normalising once.
   */
  lemma StandardizeCountryNameSpec(name: string)
    ensures name in Replacements ==> StandardizeCountryName(name) == Replacements[name]
    ensures name !in Replacements ==> StandardizeCountryName(name) == name
    ensures StandardizeCountryName(name) !in Replacements
    ensures StandardizeCountryName(StandardizeCountryName(name)) == StandardizeCountryName(name)
  {
    CanonicalNamesAreNotAliases();
  }
}
