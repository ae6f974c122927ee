/**
 * The two stages together: what the scrape stage stores is what the transform stage
 * reads, and both stages are plain appends or writes that a second run repeats.
 */
module Pipeline {
  import opened Wrappers
  import opened Documents
  import opened Price
  import opened Rating
  import opened Transform
  import opened Scrape

  /**
   * A listing scraped and then transformed: the book has the listing's title, the trimmed
   * stock text, the rating word's number and the cleaned price text, and the transform
   * fails exactly when that price text does not clean.
   */
  lemma ScrapedThenTransformed(l: Listing, index: nat, booksId: string, ingestionTime: string)
    requires |l.ratingClasses| >= 2
    ensures BookDoc(l, index).Ok?
    ensures TransformDoc(BookDoc(l, index).value, booksId, ingestionTime).Ok? <==> CleanPrice(l.priceText).Ok?
    ensures TransformDoc(BookDoc(l, index).value, booksId, ingestionTime).Ok? ==>
      TransformDoc(BookDoc(l, index).value, booksId, ingestionTime).value == TransformedBook(
        booksId,
        l.title,
        CleanPrice(l.priceText).value,
        Strip(l.availabilityText),
        RatingToNumber(l.ratingClasses[1]),
        ingestionTime)
  {
    BookDocFields(l, index);
  }

  /** The scrape run twice over the same page: the documents are appended twice, with no
      deduplication, and each run counts every listing of a well-formed page. */
  method ScrapeTwice(listings: seq<Listing>, collection: Collection) returns (first: Result<nat, ScrapeError>, second: Result<nat, ScrapeError>)
    modifies collection
    ensures collection.docs == old(collection.docs) + ScrapedDocs(listings) + ScrapedDocs(listings)
    ensures WellFormed(listings) ==> first == second == Ok(|listings|)
    ensures WellFormed(listings) ==> |collection.docs| == |old(collection.docs)| + 2 * |listings|
  {
    first := ScrapeListings(listings, collection);
    second := ScrapeListings(listings, collection);
    if WellFormed(listings) {
      ScrapedDocsWellFormed(listings);
    }
  }

  /** `" In stock "` is stored as `"In stock"`. */
  lemma StripExample()
    ensures Strip(" In stock ") == "In stock"
  {
    var s := " In stock ";
    StripUnique(s, 1, 9);
    assert s[1..9] == "In stock";
  }

  /** A catalog listing: the `"../../"` prefix of its image path is dropped, its stock text
      trimmed and its rating word taken from the second class token. */
  lemma CatalogListingExample()
    ensures BookDoc(Listing("A Light in the Attic", "£51.77", " In stock ", ["star-rating", "Three"], "../../media/a.jpg"), 0)
      == Ok(map[
        TitleKey := "A Light in the Attic",
        PriceKey := "£51.77",
        StockKey := "In stock",
        RatingKey := "Three",
        ImageUrlKey := "http://books.toscrape.com/media/a.jpg"])
  {
    StripExample();
    ImageUrlExample();
  }

  /** `"../../media/a.jpg"` resolves to `"http://books.toscrape.com/media/a.jpg"`. */
  lemma ImageUrlExample()
    ensures ImageUrl("../../media/a.jpg") == "http://books.toscrape.com/media/a.jpg"
  {
    assert !HasParentRef("media/a.jpg") by {
      forall i | 0 <= i < 8
        ensures !ParentRefAt("media/a.jpg", i)
      {
      }
    }
    ImageUrlRelative(2, "media/a.jpg");
    assert ParentRefs(2) + "media/a.jpg" == "../../media/a.jpg" by {
      assert ParentRefs(2) == "../" + ("../" + ParentRefs(0));
    }
    assert BaseUrl + "media/a.jpg" == "http://books.toscrape.com/media/a.jpg";
  }
}
