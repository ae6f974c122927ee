/**
 * The transform stage: every raw document of the document store becomes a normalised
 * book with a fresh identifier and an ingestion time, written to the key-value table.
 * A record whose price does not parse, or whose write is refused, is reported and
 * skipped; the scan goes on and only the records written are counted.
 */
module Transform {
  import opened Wrappers
  import opened Documents
  import opened Price
  import opened Rating

  const DefaultTitle: string := "Unknown Title"
  const DefaultPrice: string := "£0.00"
  const DefaultStock: string := "Unknown"
  const DefaultRating: string := "Zero"

  /** One item of the key-value table. */
  datatype TransformedBook = TransformedBook(
    booksId: string,
    title: string,
    price: Decimal,
    stock: string,
    rating: nat,
    ingestionTime: string)

  /** Why one record was not migrated; the loop handles both alike. */
  datatype MigrationError = BadPrice(cause: ConversionSyntax) | PutItemFailed

  /**
   * What the outside world supplies while one record is processed: the identifier drawn
   * from `uuid4`, the clock reading, and whether the table accepts the write.
   */
  datatype RecordEnv = RecordEnv(booksId: string, ingestionTime: string, putSucceeds: bool)

  /**
   * `transformed_doc`: each field read with its default, the price cleaned (the only step
   * that can fail), the rating looked up.
   */
  function TransformDoc(doc: Document, booksId: string, ingestionTime: string): (r: Result<TransformedBook, ConversionSyntax>)
    ensures r.Ok? ==> r.value.booksId == booksId && r.value.ingestionTime == ingestionTime
    ensures r.Ok? ==> r.value.rating <= 5
  {
    var price :- CleanPrice(Get(doc, PriceKey, DefaultPrice));
    Ok(TransformedBook(
      booksId,
      Get(doc, TitleKey, DefaultTitle),
      price,
      Get(doc, StockKey, DefaultStock),
      RatingToNumber(Get(doc, RatingKey, DefaultRating)),
      ingestionTime))
  }

  /**
   * The transformation fails only on a stored price without a digit or with several dots;
   * a missing price is read as `"£0.00"` and never fails.
   */
  lemma TransformDocSucceeds(doc: Document, booksId: string, ingestionTime: string)
    ensures PriceKey !in doc ==> TransformDoc(doc, booksId, ingestionTime).Ok?
    ensures PriceKey in doc ==>
      (TransformDoc(doc, booksId, ingestionTime).Ok? <==> HasDigit(doc[PriceKey]) && multiset(doc[PriceKey])['.'] <= 1)
  {
    CleanPriceDefault();
    CleanPriceSucceeds(Get(doc, PriceKey, DefaultPrice));
  }

  /**
   * A transformed book carries the injected identifier and time, copies title and stock
   * when present and uses the placeholders when not, and has a rating from 0 to 5 that is
   * 0 exactly when the rating is missing or not one of the five words.
   */
  lemma TransformDocFields(doc: Document, booksId: string, ingestionTime: string)
    requires TransformDoc(doc, booksId, ingestionTime).Ok?
    ensures var book := TransformDoc(doc, booksId, ingestionTime).value;
      && book.booksId == booksId && book.ingestionTime == ingestionTime
      && (TitleKey in doc ==> book.title == doc[TitleKey])
      && (TitleKey !in doc ==> book.title == DefaultTitle)
      && (StockKey in doc ==> book.stock == doc[StockKey])
      && (StockKey !in doc ==> book.stock == DefaultStock)
      && (RatingKey in doc ==> book.rating == RatingToNumber(doc[RatingKey]))
      && (RatingKey !in doc ==> book.rating == 0)
      && book.rating <= 5
      && (book.rating == 0 <==> RatingKey !in doc || doc[RatingKey] !in RatingMap)
      && (PriceKey in doc ==> book.price == CleanPrice(doc[PriceKey]).value)
      && (PriceKey !in doc ==> book.price == Decimal(0, 2))
  {
    RatingExamples();
    CleanPriceDefault();
  }

  /** A document with none of the fields becomes the all-defaults book: the placeholder
      title and stock, price 0.00 and rating 0. */
  lemma TransformEmptyDoc(booksId: string, ingestionTime: string)
    ensures TransformDoc(map[], booksId, ingestionTime)
      == Ok(TransformedBook(booksId, DefaultTitle, Decimal(0, 2), DefaultStock, 0, ingestionTime))
  {
    CleanPriceDefault();
    RatingExamples();
  }

  /** One pass of the loop body: transform, then write; either step may fail. */
  function Attempt(doc: Document, env: RecordEnv): (r: Result<TransformedBook, MigrationError>)
    ensures r.Ok? ==> env.putSucceeds && r.value.booksId == env.booksId
    ensures !env.putSucceeds ==> r.Err?
  {
    match TransformDoc(doc, env.booksId, env.ingestionTime)
    case Err(cause) => Err(BadPrice(cause))
    case Ok(book) => if env.putSucceeds then Ok(book) else Err(PutItemFailed)
  }

  /** The per-record results of a run, one for each source document, in scan order. */
  function Outcomes(source: seq<Document>, envs: seq<RecordEnv>): (r: seq<Result<TransformedBook, MigrationError>>)
    requires |envs| == |source|
    ensures |r| == |source|
    ensures forall i :: 0 <= i < |source| ==> r[i] == Attempt(source[i], envs[i])
  {
    Pairwise(Attempt, source, envs)
  }

  /** `f` applied to two sequences side by side. */
  function Pairwise<A, B, C>(f: (A, B) -> C, xs: seq<A>, ys: seq<B>): (r: seq<C>)
    requires |ys| == |xs|
    ensures |r| == |xs|
    ensures forall i :: 0 <= i < |xs| ==> r[i] == f(xs[i], ys[i])
  {
    seq(|xs|, i requires 0 <= i < |xs| => f(xs[i], ys[i]))
  }

  /** The results for one more element extend the results for the prefix before it. */
  lemma PairwiseExtend<A, B, C>(f: (A, B) -> C, xs: seq<A>, ys: seq<B>, n: nat)
    requires |ys| == |xs| && n < |xs|
    ensures Pairwise(f, xs[..n + 1], ys[..n + 1]) == Pairwise(f, xs[..n], ys[..n]) + [f(xs[n], ys[n])]
  {
    assert forall k :: 0 <= k <= n ==> xs[..n + 1][k] == xs[k] && ys[..n + 1][k] == ys[k];
  }

  /** The books written for a sequence of per-record results: the successes, in order. */
  function Written(outcomes: seq<Result<TransformedBook, MigrationError>>): (books: seq<TransformedBook>)
    ensures |books| <= |outcomes|
  {
    if outcomes == [] then []
    else (if outcomes[0].Ok? then [outcomes[0].value] else []) + Written(outcomes[1..])
  }

  /** The results for a prefix or a suffix are that part of the results. */
  lemma PairwiseSplit<A, B, C>(f: (A, B) -> C, xs: seq<A>, ys: seq<B>, n: nat)
    requires |ys| == |xs| && n <= |xs|
    ensures Pairwise(f, xs[..n], ys[..n]) == Pairwise(f, xs, ys)[..n]
    ensures Pairwise(f, xs[n..], ys[n..]) == Pairwise(f, xs, ys)[n..]
  {
    assert forall k :: 0 <= k < n ==> xs[..n][k] == xs[k] && ys[..n][k] == ys[k];
    assert forall k :: 0 <= k < |xs| - n ==> xs[n..][k] == xs[n + k] && ys[n..][k] == ys[n + k];
  }

  /** The books one run writes to the table. */
  function Migrated(source: seq<Document>, envs: seq<RecordEnv>): (written: seq<TransformedBook>)
    requires |envs| == |source|
    ensures |written| <= |source|
  {
    Written(Outcomes(source, envs))
  }

  /** The table after `put_item` of each book in turn; a later item replaces an earlier one
      under the same key. */
  function Stored(table: map<string, TransformedBook>, books: seq<TransformedBook>): (r: map<string, TransformedBook>)
    ensures table.Keys <= r.Keys
    ensures forall i :: 0 <= i < |books| ==> books[i].booksId in r
    decreases |books|
  {
    if books == [] then table else Stored(table[books[0].booksId := books[0]], books[1..])
  }

  /** The target table: items keyed by `books_id`. */
  class Table {
    var items: map<string, TransformedBook>

    constructor ()
      ensures items == map[]
    {
      items := map[];
    }

    /** `put_item`: stores the item under its key when the service accepts it, and reports
        whether it did; a refused write leaves the table as it was. */
    method PutItem(item: TransformedBook, succeeds: bool) returns (ok: bool)
      modifies this
      ensures ok == succeeds
      ensures items == if succeeds then old(items)[item.booksId := item] else old(items)
    {
      ok := succeeds;
      if succeeds {
        items := items[item.booksId := item];
      }
    }
  }

  /** The body of the `try` block: transform one document and write it. The outcome says
      whether both steps succeeded, which is when the loop counts the record. */
  method MigrateOne(doc: Document, env: RecordEnv, table: Table) returns (outcome: Result<TransformedBook, MigrationError>)
    modifies table
    ensures outcome == Attempt(doc, env)
    ensures table.items == Stored(old(table.items), Written([outcome]))
  {
    var transformed := TransformDoc(doc, env.booksId, env.ingestionTime);
    if transformed.Err? {
      outcome := Err(BadPrice(transformed.error));
    } else {
      var ok := table.PutItem(transformed.value, env.putSucceeds);
      outcome := if ok then Ok(transformed.value) else Err(PutItemFailed);
    }
    WrittenSingle(outcome, old(table.items));
  }

  /**
   * The migration loop: every source document is tried once, in order, whatever happened
   * to the ones before it; `booksMigrated` counts the records written.
   */
  method Migrate(source: seq<Document>, envs: seq<RecordEnv>, table: Table) returns (booksMigrated: nat)
    requires |envs| == |source|
    modifies table
    ensures booksMigrated == |Migrated(source, envs)|
    ensures table.items == Stored(old(table.items), Migrated(source, envs))
  {
    ghost var outcomes: seq<Result<TransformedBook, MigrationError>> := [];
    booksMigrated := 0;
    var i := 0;
    while i < |source|
      invariant 0 <= i <= |source| && |outcomes| == i
      invariant outcomes == Outcomes(source[..i], envs[..i])
      invariant booksMigrated == |Written(outcomes)|
      invariant table.items == Stored(old(table.items), Written(outcomes))
    {
      var outcome := MigrateOne(source[i], envs[i], table);
      PairwiseExtend(Attempt, source, envs, i);
      WrittenAppend(outcomes, [outcome]);
      WrittenSingle(outcome, map[]);
      StoredAppend(old(table.items), Written(outcomes), Written([outcome]));
      if outcome.Ok? {
        booksMigrated := booksMigrated + 1;
      }
      outcomes := outcomes + [outcome];
      i := i + 1;
    }
    assert source[..i] == source && envs[..i] == envs;
  }

  /** Records are handled independently: the books written for two runs of results laid end
      to end are those written for each, so a failure never stops the records after it. */
  lemma {:induction false} WrittenAppend(a: seq<Result<TransformedBook, MigrationError>>, b: seq<Result<TransformedBook, MigrationError>>)
    ensures Written(a + b) == Written(a) + Written(b)
  {
    if a == [] {
      assert a + b == b;
    } else {
      var head := if a[0].Ok? then [a[0].value] else [];
      assert (a + b)[0] == a[0];
      assert (a + b)[1..] == a[1..] + b;
      WrittenAppend(a[1..], b);
      calc {
        Written(a + b);
        head + Written(a[1..] + b);
        head + (Written(a[1..]) + Written(b));
        (head + Written(a[1..])) + Written(b);
      }
    }
  }

  lemma WrittenSingle(outcome: Result<TransformedBook, MigrationError>, table: map<string, TransformedBook>)
    ensures Written([outcome]) == if outcome.Ok? then [outcome.value] else []
    ensures Stored(table, Written([outcome]))
      == if outcome.Ok? then table[outcome.value.booksId := outcome.value] else table
  {
    assert [outcome][1..] == [];
    if outcome.Ok? {
      assert [outcome.value][1..] == [];
    }
  }

  lemma {:induction false} StoredAppend(table: map<string, TransformedBook>, a: seq<TransformedBook>, b: seq<TransformedBook>)
    ensures Stored(table, a + b) == Stored(Stored(table, a), b)
    decreases |a|
  {
    if a == [] {
      assert a + b == b;
    } else {
      assert (a + b)[1..] == a[1..] + b;
      StoredAppend(table[a[0].booksId := a[0]], a[1..], b);
    }
  }

  /** A successful attempt carries the identifier and time injected for its record. */
  lemma AttemptStamps(doc: Document, env: RecordEnv)
    requires Attempt(doc, env).Ok?
    ensures Attempt(doc, env).value.booksId == env.booksId
    ensures Attempt(doc, env).value.ingestionTime == env.ingestionTime
    ensures Attempt(doc, env).value == TransformDoc(doc, env.booksId, env.ingestionTime).value
  {
  }

  /** Positions of the records that were written. */
  ghost function Succeeded(outcomes: seq<Result<TransformedBook, MigrationError>>): set<nat> {
    set i: nat | i < |outcomes| && outcomes[i].Ok?
  }

  /** The count of books written is the number of records whose attempt succeeded. */
  lemma {:induction false} WrittenCount(outcomes: seq<Result<TransformedBook, MigrationError>>)
    ensures |Written(outcomes)| == |Succeeded(outcomes)|
    decreases |outcomes|
  {
    if outcomes != [] {
      var n := |outcomes| - 1;
      var init := outcomes[..n];
      assert outcomes == init + [outcomes[n]];
      WrittenAppend(init, [outcomes[n]]);
      WrittenSingle(outcomes[n], map[]);
      WrittenCount(init);
      if outcomes[n].Ok? {
        assert Succeeded(outcomes) == Succeeded(init) + {n};
      } else {
        assert Succeeded(outcomes) == Succeeded(init);
      }
    }
  }

  /** `books_migrated` at the end of a run is the number of records that were both
      transformed and written, never more than the records read. */
  lemma MigratedCount(source: seq<Document>, envs: seq<RecordEnv>)
    requires |envs| == |source|
    ensures |Migrated(source, envs)| == |set i: nat | i < |source| && Attempt(source[i], envs[i]).Ok?|
    ensures |Migrated(source, envs)| <= |source|
  {
    var outcomes := Outcomes(source, envs);
    WrittenCount(outcomes);
    assert Succeeded(outcomes) == set i: nat | i < |source| && Attempt(source[i], envs[i]).Ok?;
  }

  /** A record that fails contributes nothing, and the records on either side of it are
      written as if it were not there. */
  lemma WrittenSkipsFailure(outcomes: seq<Result<TransformedBook, MigrationError>>, i: nat)
    requires i < |outcomes| && outcomes[i].Err?
    ensures Written(outcomes) == Written(outcomes[..i]) + Written(outcomes[i + 1..])
  {
    var rest := outcomes[i..];
    assert outcomes == outcomes[..i] + rest;
    WrittenAppend(outcomes[..i], rest);
    assert rest == [outcomes[i]] + outcomes[i + 1..];
    WrittenAppend([outcomes[i]], outcomes[i + 1..]);
    WrittenSingle(outcomes[i], map[]);
  }

  /** The results for a prefix or a suffix of the source are that part of the results. */
  lemma OutcomesSplit(source: seq<Document>, envs: seq<RecordEnv>, i: nat)
    requires |envs| == |source| && i <= |source|
    ensures Outcomes(source[..i], envs[..i]) == Outcomes(source, envs)[..i]
    ensures Outcomes(source[i..], envs[i..]) == Outcomes(source, envs)[i..]
  {
    PairwiseSplit(Attempt, source, envs, i);
  }

  /** A record whose price does not parse, or whose write is refused, causes no write, and
      the records after it are still migrated. */
  lemma FailedRecordSkipped(source: seq<Document>, envs: seq<RecordEnv>, i: nat)
    requires |envs| == |source| && i < |source| && Attempt(source[i], envs[i]).Err?
    ensures Migrated(source, envs) == Migrated(source[..i], envs[..i]) + Migrated(source[i + 1..], envs[i + 1..])
  {
    var outcomes := Outcomes(source, envs);
    assert outcomes[i].Err?;
    WrittenSkipsFailure(outcomes, i);
    OutcomesSplit(source, envs, i);
    OutcomesSplit(source, envs, i + 1);
  }

  /** Every book written is the successful result of some record, so it carries that
      record's injected identifier and time. */
  lemma {:induction false} WrittenFrom(outcomes: seq<Result<TransformedBook, MigrationError>>, j: nat)
    requires j < |Written(outcomes)|
    ensures exists m :: 0 <= m < |outcomes| && outcomes[m] == Ok(Written(outcomes)[j])
  {
    var head := if outcomes[0].Ok? then [outcomes[0].value] else [];
    assert Written(outcomes) == head + Written(outcomes[1..]);
    if j < |head| {
      assert outcomes[0] == Ok(Written(outcomes)[j]);
    } else {
      WrittenFrom(outcomes[1..], j - |head|);
      var m :| 0 <= m < |outcomes| - 1 && outcomes[1..][m] == Ok(Written(outcomes[1..])[j - |head|]);
      assert outcomes[m + 1] == Ok(Written(outcomes)[j]);
    }
  }

  /** No two successful results share a key. */
  ghost predicate DistinctOkIds(outcomes: seq<Result<TransformedBook, MigrationError>>) {
    forall m, n :: 0 <= m < n < |outcomes| && outcomes[m].Ok? && outcomes[n].Ok? ==>
      outcomes[m].value.booksId != outcomes[n].value.booksId
  }

  ghost predicate DistinctBookIds(books: seq<TransformedBook>) {
    forall j, k :: 0 <= j < k < |books| ==> books[j].booksId != books[k].booksId
  }

  lemma {:induction false} WrittenDistinct(outcomes: seq<Result<TransformedBook, MigrationError>>)
    requires DistinctOkIds(outcomes)
    ensures DistinctBookIds(Written(outcomes))
  {
    if outcomes != [] {
      var rest := outcomes[1..];
      assert DistinctOkIds(rest) by {
        forall m, n | 0 <= m < n < |rest| && rest[m].Ok? && rest[n].Ok?
          ensures rest[m].value.booksId != rest[n].value.booksId
        {
          assert rest[m] == outcomes[m + 1] && rest[n] == outcomes[n + 1];
        }
      }
      WrittenDistinct(rest);
      if outcomes[0].Ok? {
        var books := Written(outcomes);
        assert books == [outcomes[0].value] + Written(rest);
        forall k | 1 <= k < |books| ensures books[0].booksId != books[k].booksId {
          WrittenFrom(rest, k - 1);
          var m :| 0 <= m < |rest| && rest[m] == Ok(Written(rest)[k - 1]);
          assert outcomes[m + 1] == rest[m];
        }
      }
    }
  }

  /** The identifiers injected for a run are pairwise distinct, as fresh `uuid4` values are. */
  ghost predicate DistinctIds(envs: seq<RecordEnv>) {
    forall m, n :: 0 <= m < n < |envs| ==> envs[m].booksId != envs[n].booksId
  }

  /** Given distinct injected identifiers, the books written in one run have distinct
      `books_id` values. */
  lemma MigratedIdsDistinct(source: seq<Document>, envs: seq<RecordEnv>)
    requires |envs| == |source| && DistinctIds(envs)
    ensures DistinctBookIds(Migrated(source, envs))
  {
    var outcomes := Outcomes(source, envs);
    forall m, n | 0 <= m < n < |outcomes| && outcomes[m].Ok? && outcomes[n].Ok?
      ensures outcomes[m].value.booksId != outcomes[n].value.booksId
    {
      AttemptStamps(source[m], envs[m]);
      AttemptStamps(source[n], envs[n]);
    }
    WrittenDistinct(outcomes);
  }

  /** Writing books with distinct keys that are new to the table adds each of them and
      keeps every earlier item. */
  lemma {:induction false} StoredFresh(table: map<string, TransformedBook>, books: seq<TransformedBook>)
    requires DistinctBookIds(books)
    requires forall j :: 0 <= j < |books| ==> books[j].booksId !in table
    ensures |Stored(table, books)| == |table| + |books|
    ensures forall j :: 0 <= j < |books| ==> books[j].booksId in Stored(table, books) && Stored(table, books)[books[j].booksId] == books[j]
    ensures forall key :: key in table ==> key in Stored(table, books) && Stored(table, books)[key] == table[key]
    decreases |books|
  {
    if books != [] {
      var next := table[books[0].booksId := books[0]];
      var rest := books[1..];
      assert DistinctBookIds(rest) by {
        forall j, k | 0 <= j < k < |rest| ensures rest[j].booksId != rest[k].booksId {
          assert rest[j] == books[j + 1] && rest[k] == books[k + 1];
        }
      }
      forall j | 0 <= j < |rest| ensures rest[j].booksId !in next {
        assert rest[j] == books[j + 1];
      }
      StoredFresh(next, rest);
      forall j | 0 <= j < |books|
        ensures books[j].booksId in Stored(table, books) && Stored(table, books)[books[j].booksId] == books[j]
      {
        if j > 0 {
          assert books[j] == rest[j - 1];
        }
      }
    }
  }
}
