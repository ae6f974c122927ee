/**
 * The raw book record shared by the two batch jobs: the scraper writes it into the
 * document store and the transformer reads it back. A document is a dictionary from
 * field names to text, as pymongo hands it out.
 */
module Documents {

  type Document = map<string, string>

  const TitleKey: string := "title"
  const PriceKey: string := "price"
  const StockKey: string := "stock"
  const RatingKey: string := "rating"
  const ImageUrlKey: string := "image_url"

  /** `doc.get(key, default)`: the stored value when the key is present, the default otherwise. */
  function Get(doc: Document, key: string, default: string): (v: string)
    ensures key in doc ==> v == doc[key]
    ensures key !in doc ==> v == default
  {
    if key in doc then doc[key] else default
  }
}
