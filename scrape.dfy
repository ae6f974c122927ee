/**
 * The scrape stage: each listing of the catalog page becomes one five-field raw document,
 * appended to the document store in page order, and the run counts the listings stored.
 * The HTML parsing itself is outside the model: a listing arrives as the strings the
 * parser extracted from it.
 */
module Scrape {
  import opened Wrappers
  import opened Documents

  const BaseUrl: string := "http://books.toscrape.com/"

  /** What the parser extracted from one `article.product_pod`. */
  datatype Listing = Listing(
    title: string,            // the `title` attribute of the `h3 > a` link
    priceText: string,        // text of `p.price_color`
    availabilityText: string, // text of `p.instock.availability`, untrimmed
    ratingClasses: seq<string>, // class tokens of the first `p`, e.g. ["star-rating", "Three"]
    imageSrc: string)         // `src` of the `img`, relative to the page

  /** Raised while reading a listing; it ends the whole run. */
  datatype ScrapeError = IndexError(listing: nat)

  // ----- image URL -----

  /** `"../"` starts at position `i` of `s`. */
  predicate ParentRefAt(s: string, i: int) {
    0 <= i && i + 3 <= |s| && s[i] == '.' && s[i + 1] == '.' && s[i + 2] == '/'
  }

  ghost predicate HasParentRef(s: string) {
    exists i :: ParentRefAt(s, i)
  }

  /**
   * `s.replace('../', '')`: scan left to right; at each position an occurrence of `"../"`
   * is dropped and the scan resumes after it, any other character is kept.
   */
  function RemoveParentRefs(s: string): (r: string)
    ensures |r| <= |s|
    decreases |s|
  {
    if s == [] then []
    else if ParentRefAt(s, 0) then RemoveParentRefs(s[3..])
    else [s[0]] + RemoveParentRefs(s[1..])
  }

  /** Characters are removed three at a time, one whole `"../"` each. */
  lemma {:induction false} RemoveParentRefsRemovesTriples(s: string)
    ensures (|s| - |RemoveParentRefs(s)|) % 3 == 0
    decreases |s|
  {
    if s == [] {
    } else if ParentRefAt(s, 0) {
      RemoveParentRefsRemovesTriples(s[3..]);
      assert |s| - |RemoveParentRefs(s)| == 3 + (|s[3..]| - |RemoveParentRefs(s[3..])|);
    } else {
      RemoveParentRefsRemovesTriples(s[1..]);
    }
  }

  /** A path without `"../"` is left as it is. */
  lemma {:induction false} RemoveParentRefsIdentity(s: string)
    requires !HasParentRef(s)
    ensures RemoveParentRefs(s) == s
    decreases |s|
  {
    if s != [] {
      assert !ParentRefAt(s, 0);
      assert forall i :: ParentRefAt(s[1..], i) ==> ParentRefAt(s, i + 1);
      RemoveParentRefsIdentity(s[1..]);
      assert s == [s[0]] + s[1..];
    }
  }

  /** Only dots and slashes are removed: every other character keeps its count. */
  lemma {:induction false} RemoveParentRefsKeepsOthers(s: string, c: char)
    requires c != '.' && c != '/'
    ensures multiset(RemoveParentRefs(s))[c] == multiset(s)[c]
    decreases |s|
  {
    if s == [] {
    } else if ParentRefAt(s, 0) {
      RemoveParentRefsKeepsOthers(s[3..], c);
      CountAfterParentRef(s, c);
    } else {
      RemoveParentRefsKeepsOthers(s[1..], c);
      CountAfterFirst(s, RemoveParentRefs(s[1..]), c);
    }
  }

  lemma CountAfterParentRef(s: string, c: char)
    requires c != '.' && c != '/' && ParentRefAt(s, 0)
    ensures multiset(s)[c] == multiset(s[3..])[c]
  {
    assert s == s[..3] + s[3..];
    assert s[..3] == ['.', '.', '/'];
  }

  lemma CountAfterFirst(s: string, t: string, c: char)
    requires s != []
    ensures multiset([s[0]] + t)[c] + multiset(s[1..])[c] == multiset(s)[c] + multiset(t)[c]
  {
    assert s == [s[0]] + s[1..];
  }

  /** A leading `"../"` is dropped. */
  lemma RemoveLeadingParentRef(s: string)
    ensures RemoveParentRefs("../" + s) == RemoveParentRefs(s)
  {
    assert ParentRefAt("../" + s, 0);
    assert ("../" + s)[3..] == s;
  }

  /** `"../"` repeated `n` times. */
  function ParentRefs(n: nat): (s: string)
    ensures |s| == 3 * n
  {
    if n == 0 then [] else "../" + ParentRefs(n - 1)
  }

  /** Any number of leading `"../"` segments before a path without one vanish, leaving the
      path as it was: `"../../media/x.jpg"` becomes `"media/x.jpg"`. */
  lemma {:induction false} RemoveParentRefsPrefix(n: nat, path: string)
    requires !HasParentRef(path)
    ensures RemoveParentRefs(ParentRefs(n) + path) == path
  {
    if n > 0 {
      var rest := ParentRefs(n - 1) + path;
      assert ParentRefs(n) == "../" + ParentRefs(n - 1);
      assert ParentRefs(n) + path == "../" + rest;
      RemoveLeadingParentRef(rest);
      RemoveParentRefsPrefix(n - 1, path);
    } else {
      assert ParentRefs(n) + path == path;
      RemoveParentRefsIdentity(path);
    }
  }

  /** Characters before the first dot are kept in place, ahead of the rewritten rest: the
      rewrite never reorders what it keeps. */
  lemma {:induction false} RemoveParentRefsKeepsPrefix(x: string, s: string)
    requires '.' !in x
    ensures RemoveParentRefs(x + s) == x + RemoveParentRefs(s)
  {
    if x == [] {
      assert x + s == s;
    } else {
      assert x[0] in x;
      assert (x + s)[0] == x[0];
      assert (x + s)[1..] == x[1..] + s;
      RemoveParentRefsKeepsPrefix(x[1..], s);
      calc {
        RemoveParentRefs(x + s);
        [x[0]] + RemoveParentRefs(x[1..] + s);
        [x[0]] + (x[1..] + RemoveParentRefs(s));
        { assert x == [x[0]] + x[1..]; }
        x + RemoveParentRefs(s);
      }
    }
  }

  /** One pass only: dropping an occurrence can bring a new `"../"` together, and that one
      stays, so `"..././"` becomes `"../"`. */
  lemma RemoveParentRefsSinglePass()
    ensures RemoveParentRefs("..././") == "../"
  {
    var s := "..././";
    assert !ParentRefAt(s, 0);
    assert s[1..] == "../" + "./";
    RemoveLeadingParentRef("./");
    assert !ParentRefAt("./", 0);
    assert "./"[1..] == "/";
    assert !ParentRefAt("/", 0);
    assert "/"[1..] == [];
  }

  /** Text without `"../"` followed by an occurrence: the text is kept and the occurrence
      dropped. No occurrence can start inside the text and run into the `"../"` after it. */
  lemma {:induction false} RemoveParentRefsStep(x: string, y: string)
    requires !HasParentRef(x)
    ensures RemoveParentRefs(x + "../" + y) == x + RemoveParentRefs(y)
    decreases |x|
  {
    if x == [] {
      assert x + "../" + y == "../" + y;
      RemoveLeadingParentRef(y);
    } else {
      StepHead(x, y);
      NoParentRefInTail(x);
      RemoveParentRefsStep(x[1..], y);
      assert x == [x[0]] + x[1..];
    }
  }

  /** Before text that does not start with `"../"`, the appended occurrence cannot make
      one at the start either. */
  lemma StepHead(x: string, y: string)
    requires x != [] && !HasParentRef(x)
    ensures RemoveParentRefs(x + "../" + y) == [x[0]] + RemoveParentRefs(x[1..] + "../" + y)
  {
    var s := x + "../" + y;
    assert !ParentRefAt(x, 0);
    assert !ParentRefAt(s, 0) by {
      if |x| >= 3 {
        assert s[..3] == x[..3];
      } else {
        assert s[2] == '.';
      }
    }
    assert s[1..] == x[1..] + "../" + y;
  }

  lemma NoParentRefInTail(x: string)
    requires x != [] && !HasParentRef(x)
    ensures !HasParentRef(x[1..])
  {
    assert forall i :: ParentRefAt(x[1..], i) ==> ParentRefAt(x, i + 1);
  }

  /** The first occurrence of `"../"`, at `i`: everything before it is kept, it is dropped,
      and the scan goes on after it. With `RemoveParentRefsIdentity` for paths that have no
      occurrence, this determines the rewrite of every path. */
  lemma RemoveParentRefsFirst(s: string, i: nat)
    requires ParentRefAt(s, i)
    requires forall j :: 0 <= j < i ==> !ParentRefAt(s, j)
    ensures RemoveParentRefs(s) == s[..i] + RemoveParentRefs(s[i + 3..])
  {
    assert forall j :: ParentRefAt(s[..i], j) ==> ParentRefAt(s, j);
    assert s == s[..i] + "../" + s[i + 3..];
    RemoveParentRefsStep(s[..i], s[i + 3..]);
  }

  /** `BASE_URL + image_rel_url.replace('../', '')`: always under the site's base URL, and
      exactly the base URL followed by the path when the path has no `"../"`. */
  function ImageUrl(imageSrc: string): (url: string)
    ensures |BaseUrl| <= |url| <= |BaseUrl| + |imageSrc|
  {
    BaseUrl + RemoveParentRefs(imageSrc)
  }

  /** Every image URL lies under the site's base URL and is no longer than the base URL
      and the source path together. */
  lemma ImageUrlUnderBase(imageSrc: string)
    ensures |ImageUrl(imageSrc)| >= |BaseUrl| && ImageUrl(imageSrc)[..|BaseUrl|] == BaseUrl
    ensures |ImageUrl(imageSrc)| <= |BaseUrl| + |imageSrc|
  {
  }

  /** A source path without `"../"` is appended to the base URL unchanged. */
  lemma ImageUrlPlain(imageSrc: string)
    requires !HasParentRef(imageSrc)
    ensures ImageUrl(imageSrc) == BaseUrl + imageSrc
  {
    RemoveParentRefsIdentity(imageSrc);
  }

  /** The catalog's own form, `"../../media/…"`, becomes `BaseUrl + "media/…"`. */
  lemma ImageUrlRelative(n: nat, path: string)
    requires !HasParentRef(path)
    ensures ImageUrl(ParentRefs(n) + path) == BaseUrl + path
  {
    RemoveParentRefsPrefix(n, path);
  }

  // ----- stock text -----

  /** The characters Python's `str.strip()` removes (`str.isspace`). */
  predicate IsSpace(c: char) {
    var n := c as int;
    n == 0x20 || 0x09 <= n <= 0x0D || 0x1C <= n <= 0x1F || n == 0x85 || n == 0xA0
    || n == 0x1680 || 0x2000 <= n <= 0x200A || n == 0x2028 || n == 0x2029
    || n == 0x202F || n == 0x205F || n == 0x3000
  }

  /** Length of the run of whitespace at the start of `s`. */
  function LeadingSpaces(s: string): (k: nat)
    ensures k <= |s|
    ensures forall i :: 0 <= i < k ==> IsSpace(s[i])
    ensures k < |s| ==> !IsSpace(s[k])
  {
    if s == [] || !IsSpace(s[0]) then 0 else 1 + LeadingSpaces(s[1..])
  }

  /** Length of the run of whitespace at the end of `s`. */
  function TrailingSpaces(s: string): (k: nat)
    ensures k <= |s|
    ensures forall i :: |s| - k <= i < |s| ==> IsSpace(s[i])
    ensures k < |s| ==> !IsSpace(s[|s| - 1 - k])
  {
    if s == [] || !IsSpace(s[|s| - 1]) then 0 else 1 + TrailingSpaces(s[..|s| - 1])
  }

  /** `s` without its trailing whitespace. */
  function StripEnd(s: string): (r: string)
    ensures |r| <= |s|
    decreases |s|
  {
    if s != [] && IsSpace(s[|s| - 1]) then StripEnd(s[..|s| - 1]) else s
  }

  /** `str.strip()`: the leading whitespace dropped, then the trailing. */
  function Strip(s: string): (r: string)
    ensures |r| <= |s|
    decreases |s|
  {
    if s != [] && IsSpace(s[0]) then Strip(s[1..]) else StripEnd(s)
  }

  lemma {:induction false} StripDropsLeading(s: string)
    ensures Strip(s) == StripEnd(s[LeadingSpaces(s)..])
    decreases |s|
  {
    if s != [] && IsSpace(s[0]) {
      StripDropsLeading(s[1..]);
      assert s[1..][LeadingSpaces(s[1..])..] == s[LeadingSpaces(s)..];
    }
  }

  lemma {:induction false} StripEndDrops(s: string)
    ensures StripEnd(s) == s[..|s| - TrailingSpaces(s)]
    decreases |s|
  {
    if s != [] && IsSpace(s[|s| - 1]) {
      StripEndDrops(s[..|s| - 1]);
    }
  }

  /** The slice between the leading and the trailing whitespace, by index. */
  function Trimmed(s: string): string {
    var rest := s[LeadingSpaces(s)..];
    rest[..|rest| - TrailingSpaces(rest)]
  }

  lemma StripIsTrimmed(s: string)
    ensures Strip(s) == Trimmed(s)
  {
    StripDropsLeading(s);
    StripEndDrops(s[LeadingSpaces(s)..]);
  }

  lemma TrimmedSlice(s: string)
    ensures LeadingSpaces(s) + |Trimmed(s)| <= |s|
    ensures Trimmed(s) == s[LeadingSpaces(s)..LeadingSpaces(s) + |Trimmed(s)|]
  {
  }

  lemma TrimmedEdges(s: string)
    ensures LeadingSpaces(s) + |Trimmed(s)| <= |s|
    ensures forall i :: LeadingSpaces(s) + |Trimmed(s)| <= i < |s| ==> IsSpace(s[i])
    ensures Trimmed(s) != [] ==> !IsSpace(Trimmed(s)[0]) && !IsSpace(Trimmed(s)[|Trimmed(s)| - 1])
  {
    var lead := LeadingSpaces(s);
    var rest := s[lead..];
    var trail := TrailingSpaces(rest);
    var r := rest[..|rest| - trail];
    forall i | lead + |r| <= i < |s|
      ensures IsSpace(s[i])
    {
      assert s[i] == rest[i - lead];
    }
    if r != [] {
      assert r[0] == s[lead];
      assert r[|r| - 1] == rest[|rest| - 1 - trail];
    }
  }

  /**
   * What `strip` leaves is a slice of `s`: only whitespace is removed, from both ends and
   * nowhere else, and what is left neither starts nor ends with whitespace.
   */
  lemma StripSpec(s: string)
    ensures LeadingSpaces(s) + |Strip(s)| <= |s|
    ensures Strip(s) == s[LeadingSpaces(s)..LeadingSpaces(s) + |Strip(s)|]
    ensures forall i :: 0 <= i < LeadingSpaces(s) ==> IsSpace(s[i])
    ensures forall i :: LeadingSpaces(s) + |Strip(s)| <= i < |s| ==> IsSpace(s[i])
    ensures Strip(s) != [] ==> !IsSpace(Strip(s)[0]) && !IsSpace(Strip(s)[|Strip(s)| - 1])
  {
    StripIsTrimmed(s);
    TrimmedSlice(s);
    TrimmedEdges(s);
  }

  /** The stripped text is the only slice of `s` that has whitespace all around it and none
      at its own ends: any such slice is what `strip` returns. */
  lemma StripUnique(s: string, i: nat, j: nat)
    requires i <= j <= |s|
    requires forall k :: 0 <= k < i ==> IsSpace(s[k])
    requires forall k :: j <= k < |s| ==> IsSpace(s[k])
    requires i < j ==> !IsSpace(s[i]) && !IsSpace(s[j - 1])
    requires i == j ==> i == |s|
    ensures Strip(s) == s[i..j]
  {
    var lead, r := LeadingSpaces(s), Strip(s);
    StripSpec(s);
    if i < j {
      assert lead == i;
      assert !IsSpace(s[j - 1]);
      assert j <= lead + |r|;
      if |r| > 0 {
        assert r[|r| - 1] == s[lead + |r| - 1];
      }
      assert lead + |r| <= j;
    } else {
      assert lead == |s|;
    }
  }

  /** Stripping twice is stripping once. */
  lemma StripIdempotent(s: string)
    ensures Strip(Strip(s)) == Strip(s)
  {
    var r := Strip(s);
    StripSpec(s);
    StripUnique(r, 0, |r|);
  }

  // ----- rating -----

  /** `article.p['class'][1]`: the second class token; fewer than two tokens raise. */
  function RatingToken(classes: seq<string>, listing: nat): (r: Result<string, ScrapeError>)
    ensures r.Ok? <==> |classes| >= 2
    ensures r.Ok? ==> r.value == classes[1]
    ensures r.Err? ==> r.error == IndexError(listing)
  {
    if |classes| < 2 then Err(IndexError(listing)) else Ok(classes[1])
  }

  // ----- the raw document -----

  const BookDocKeys: set<string> := {TitleKey, PriceKey, StockKey, RatingKey, ImageUrlKey}

  /** `book_doc` for the listing at position `index` of the page. */
  function BookDoc(l: Listing, index: nat): (r: Result<Document, ScrapeError>)
    ensures r.Ok? <==> |l.ratingClasses| >= 2
    ensures r.Err? ==> r.error == IndexError(index)
  {
    var rating :- RatingToken(l.ratingClasses, index);
    Ok(map[
      TitleKey := l.title,
      PriceKey := l.priceText,
      StockKey := Strip(l.availabilityText),
      RatingKey := rating,
      ImageUrlKey := ImageUrl(l.imageSrc)])
  }

  /**
   * A listing with at least two rating classes becomes a document with exactly the five
   * keys, holding the title and price as extracted, the trimmed stock text, the second
   * class token and the absolute image URL; any other listing raises.
   */
  lemma BookDocFields(l: Listing, index: nat)
    ensures BookDoc(l, index).Ok? <==> |l.ratingClasses| >= 2
    ensures BookDoc(l, index).Err? ==> BookDoc(l, index).error == IndexError(index)
    ensures BookDoc(l, index).Ok? ==> var doc := BookDoc(l, index).value;
      && doc.Keys == BookDocKeys
      && doc[TitleKey] == l.title
      && doc[PriceKey] == l.priceText
      && doc[StockKey] == Strip(l.availabilityText)
      && doc[RatingKey] == l.ratingClasses[1]
      && doc[ImageUrlKey] == ImageUrl(l.imageSrc)
  {
    assert |BookDocKeys| == 5 by {
      assert TitleKey != PriceKey && TitleKey != StockKey && TitleKey != RatingKey && TitleKey != ImageUrlKey;
      assert PriceKey != StockKey && PriceKey != RatingKey && PriceKey != ImageUrlKey;
      assert StockKey != RatingKey && StockKey != ImageUrlKey && RatingKey != ImageUrlKey;
    }
  }

  /** The values before the first error, in order. */
  function UntilError<T, E>(rs: seq<Result<T, E>>): (vs: seq<T>)
    ensures |vs| <= |rs|
  {
    if rs == [] || rs[0].Err? then [] else [rs[0].value] + UntilError(rs[1..])
  }

  /** A prefix without errors passes through whole, ahead of what follows. */
  lemma {:induction false} UntilErrorAppend<T, E>(a: seq<Result<T, E>>, b: seq<Result<T, E>>)
    requires forall k :: 0 <= k < |a| ==> a[k].Ok?
    ensures UntilError(a + b) == UntilError(a) + UntilError(b)
  {
    if a == [] {
      assert a + b == b;
    } else {
      assert (a + b)[0] == a[0];
      assert (a + b)[1..] == a[1..] + b;
      UntilErrorAppend(a[1..], b);
    }
  }

  /** Without errors, every value is kept, in place. */
  lemma {:induction false} UntilErrorAllOk<T, E>(rs: seq<Result<T, E>>)
    requires forall k :: 0 <= k < |rs| ==> rs[k].Ok?
    ensures |UntilError(rs)| == |rs|
    ensures forall k :: 0 <= k < |rs| ==> UntilError(rs)[k] == rs[k].value
  {
    if rs != [] {
      UntilErrorAllOk(rs[1..]);
    }
  }

  /** The `j`-th value kept is the value of the `j`-th result, which succeeded. */
  lemma {:induction false} UntilErrorAt<T, E>(rs: seq<Result<T, E>>, j: nat)
    requires j < |UntilError(rs)|
    ensures rs[j].Ok? && UntilError(rs)[j] == rs[j].value
  {
    if j > 0 {
      UntilErrorAt(rs[1..], j - 1);
    }
  }

  /** What reading each listing of the page gives, in page order. */
  function BookDocs(listings: seq<Listing>): (rs: seq<Result<Document, ScrapeError>>)
    ensures |rs| == |listings|
  {
    seq(|listings|, i requires 0 <= i < |listings| => BookDoc(listings[i], i))
  }

  /** The documents a run inserts: one per listing in page order, up to the first listing
      that raises. */
  function ScrapedDocs(listings: seq<Listing>): (docs: seq<Document>)
    ensures |docs| <= |listings|
  {
    UntilError(BookDocs(listings))
  }

  /** The document store's collection, in insertion order. */
  class Collection {
    var docs: seq<Document>

    constructor ()
      ensures docs == []
    {
      docs := [];
    }

    /** `insert_one`: appends the document; no deduplication. */
    method InsertOne(doc: Document)
      modifies this
      ensures docs == old(docs) + [doc]
    {
      docs := docs + [doc];
    }
  }

  ghost predicate WellFormed(listings: seq<Listing>) {
    forall i :: 0 <= i < |listings| ==> |listings[i].ratingClasses| >= 2
  }

  /** One iteration: build the listing's document and insert it; a listing that raises
      inserts nothing. */
  method ScrapeOne(l: Listing, index: nat, collection: Collection) returns (doc: Result<Document, ScrapeError>)
    modifies collection
    ensures doc == BookDoc(l, index)
    ensures collection.docs == old(collection.docs) + (if doc.Ok? then [doc.value] else [])
  {
    doc := BookDoc(l, index);
    if doc.Ok? {
      collection.InsertOne(doc.value);
    }
  }

  /**
   * The scrape loop: build and insert one document per listing, counting them. It stops
   * at the first listing without a second rating class, with the documents before it
   * already inserted.
   */
  method ScrapeListings(listings: seq<Listing>, collection: Collection) returns (r: Result<nat, ScrapeError>)
    modifies collection
    ensures collection.docs == old(collection.docs) + ScrapedDocs(listings)
    ensures r.Ok? <==> WellFormed(listings)
    ensures r.Ok? ==> r.value == |listings|
    ensures r.Err? ==> r.error == IndexError(|ScrapedDocs(listings)|)
  {
    ghost var results := BookDocs(listings);
    var booksScraped := 0;
    while booksScraped < |listings|
      invariant booksScraped <= |listings|
      invariant forall k :: 0 <= k < booksScraped ==> results[k].Ok?
      invariant collection.docs == old(collection.docs) + UntilError(results[..booksScraped])
    {
      var doc := ScrapeOne(listings[booksScraped], booksScraped, collection);
      assert doc == results[booksScraped];
      if doc.Err? {
        assert !WellFormed(listings) by {
          assert |listings[booksScraped].ratingClasses| < 2;
        }
        assert results == results[..booksScraped] + results[booksScraped..];
        UntilErrorAppend(results[..booksScraped], results[booksScraped..]);
        assert results[booksScraped..][0] == doc;
        UntilErrorAllOk(results[..booksScraped]);
        return Err(doc.error);
      }
      assert results[..booksScraped + 1] == results[..booksScraped] + [doc];
      assert forall k :: 0 <= k < booksScraped + 1 ==> results[k].Ok? by {
        forall k | 0 <= k < booksScraped + 1
          ensures results[k].Ok?
        {
          if k == booksScraped {
            assert results[k] == doc;
          }
        }
      }
      UntilErrorAppend(results[..booksScraped], [doc]);
      assert UntilError([doc]) == [doc.value] + UntilError<Document, ScrapeError>([]);
      booksScraped := booksScraped + 1;
    }
    assert results[..booksScraped] == results;
    assert WellFormed(listings) by {
      forall i | 0 <= i < |listings|
        ensures |listings[i].ratingClasses| >= 2
      {
        assert results[i].Ok?;
      }
    }
    return Ok(booksScraped);
  }

  /** A well-formed page yields one document per listing, each built from its listing. */
  lemma ScrapedDocsWellFormed(listings: seq<Listing>)
    requires WellFormed(listings)
    ensures |ScrapedDocs(listings)| == |listings|
    ensures forall i :: 0 <= i < |listings| ==> ScrapedDocs(listings)[i] == BookDoc(listings[i], i).value
  {
    var rs := BookDocs(listings);
    assert forall k :: 0 <= k < |rs| ==> rs[k].Ok?;
    UntilErrorAllOk(rs);
  }

  /** A page whose listing `i` is the first to raise yields the documents of the listings
      before it and nothing after. */
  lemma ScrapedDocsStopsAtError(listings: seq<Listing>, i: nat)
    requires i < |listings| && |listings[i].ratingClasses| < 2
    requires WellFormed(listings[..i])
    ensures ScrapedDocs(listings) == ScrapedDocs(listings[..i])
  {
    var rs := BookDocs(listings);
    assert rs == rs[..i] + rs[i..];
    assert forall k :: 0 <= k < i ==> rs[..i][k] == rs[k] && rs[k].Ok?;
    UntilErrorAppend(rs[..i], rs[i..]);
    assert rs[i..][0] == rs[i];
    assert rs[..i] == BookDocs(listings[..i]);
  }

  /**
   * Every stored document has the five keys; its stock text neither starts nor ends with
   * whitespace and its image URL starts with the base URL.
   */
  lemma ScrapedDocShape(listings: seq<Listing>, j: nat)
    requires j < |ScrapedDocs(listings)|
    ensures var doc := ScrapedDocs(listings)[j];
      && doc.Keys == BookDocKeys
      && doc[StockKey] == Strip(listings[j].availabilityText)
      && (doc[StockKey] != [] ==> !IsSpace(doc[StockKey][0]) && !IsSpace(doc[StockKey][|doc[StockKey]| - 1]))
      && |doc[ImageUrlKey]| >= |BaseUrl| && doc[ImageUrlKey][..|BaseUrl|] == BaseUrl
  {
    UntilErrorAt(BookDocs(listings), j);
    BookDocFields(listings[j], j);
    StripSpec(listings[j].availabilityText);
    ImageUrlUnderBase(listings[j].imageSrc);
  }
}
