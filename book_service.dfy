/**
 * BookService: turning a catalog search response into the caller's book list while
 * writing every book through the book cache, the per-user favorite overlay on a book's
 * detail, and the most popular book.
 *
 * Jackson is replaced by the tree it would decode (`readTree` is a parameter), the
 * cache service by a log of the calls made to it whose answers come from functions of
 * that log, and the repositories by their query results.
 */
module BookService {
  import opened Outcomes
  import opened BookDomain

  // ---------------------------------------------------------------------------
  // The decoded catalog response

  /** A catalog item: each field name mapped to the text `asText()` gives for it. */
  type Item = map<string, string>

  /** The node under the root's `item` field. */
  datatype ItemNode = ArrayNode(elements: seq<Item>) | NonArrayNode

  /** The root object; `item` is `None` when the field is absent. */
  datatype JsonRoot = JsonRoot(item: Option<ItemNode>)

  /** What `readTree` makes of the response text. */
  datatype ReadTreeOutcome = Tree(root: JsonRoot) | JsonProcessingError

  /** The error statuses this service raises as a GlobalException. */
  datatype ExceptionStatus = AladinApiParsingError | CannotFoundPopularBook

  /** The array elements of the root's `item` field, or nothing when it is absent or not an array. */
  function ItemsOf(root: JsonRoot): (r: seq<Item>)
    ensures root.item == None ==> r == []
    ensures root.item == Some(NonArrayNode) ==> r == []
    ensures forall e :: root.item == Some(ArrayNode(e)) ==> r == e
  {
    if root.item.Some? && root.item.value.ArrayNode? then root.item.value.elements else []
  }

  /** The ISBN text the loop can read from an item: a non-empty `isbn13`, or else `isbn`. */
  predicate HasIsbn(item: Item)
  {
    ("isbn13" in item && item["isbn13"] != []) || "isbn" in item
  }

  /** Every field the loop reads is present, so no `get` returns null. */
  predicate HasReadFields(item: Item)
  {
    && "title" in item && "author" in item && "cover" in item && "description" in item
    && "categoryName" in item && "publisher" in item && "pubDate" in item
    && HasIsbn(item)
  }

  predicate AllReadable(items: seq<Item>)
  {
    forall i :: 0 <= i < |items| ==> HasReadFields(items[i])
  }

  /**
   * The 13-digit ISBN when the item has a non-empty `isbn13`, and otherwise the
   * `isbn` field.
   */
  function ResolveIsbn(item: Item): (isbn: string)
    requires HasIsbn(item)
    ensures "isbn13" in item && item["isbn13"] != [] ==> isbn == item["isbn13"]
    ensures "isbn13" !in item || item["isbn13"] == [] ==> isbn == item["isbn"]
    ensures isbn == [] <==> ("isbn13" !in item || item["isbn13"] == []) && item["isbn"] == []
  {
    if "isbn13" in item && item["isbn13"] != [] then item["isbn13"] else item["isbn"]
  }

  /** The two cases of the fallback, on concrete items. */
  lemma ResolveIsbnExamples()
    ensures ResolveIsbn(map["isbn13" := "", "isbn" := "8901234567"]) == "8901234567"
    ensures ResolveIsbn(map["isbn13" := "9788901234567", "isbn" := "8901234567"]) == "9788901234567"
    ensures ResolveIsbn(map["isbn" := "8901234567"]) == "8901234567"
  {
  }

  // ---------------------------------------------------------------------------
  // Values exchanged with the cache service and the caller

  /** The eight arguments of `cachingBookInfo`. */
  datatype BookRecord = BookRecord(
    title: string, author: string, isbn: string, cover: string, description: string,
    genre: string, publisher: string, publishedDate: string)

  /** The fields of a GetBookInfoResponse at one moment. */
  datatype BookDetail = BookDetail(
    bookTitle: string, authorName: string, isbn: string, imageUrl: string, description: string,
    genre: string, publisher: string, publishedDate: string, isFavorite: bool)

  /** One entry of the search result. */
  datatype BookInfo = BookInfo(bookTitle: string, authorName: string, isbn: string, imageUrl: string)

  datatype GetBookListResponse = GetBookListResponse(bookList: seq<BookInfo>)

  /**
   * A search request. Its fields are only handed to the cache service, so they are
   * kept as an opaque parameter map.
   */
  datatype GetBookListRequest = GetBookListRequest(parameters: map<string, string>)

  /** The `cachingBookInfo` arguments for one item; the genre is classified from `categoryName`. */
  function ItemRecord(item: Item, parsingGenreType: string -> GenreType): (r: BookRecord)
    requires HasReadFields(item)
    ensures r.isbn == ResolveIsbn(item)
    ensures r.genre == parsingGenreType(item["categoryName"]).name
  {
    BookRecord(item["title"], item["author"], ResolveIsbn(item), item["cover"], item["description"],
               parsingGenreType(item["categoryName"]).name, item["publisher"], item["pubDate"])
  }

  /** The list entry built from the getters of a cache response. */
  function InfoOf(d: BookDetail): BookInfo
  {
    BookInfo(d.bookTitle, d.authorName, d.isbn, d.imageUrl)
  }

  /** One call made to the cache service, with what it answered. */
  datatype CacheCall =
    | CurrentPage(request: GetBookListRequest, page: string)
    | Caching(record: BookRecord, response: BookDetail)
    | Check(isbn: string, response: BookDetail)

  /**
   * A cache call that wrote `item` through `cachingBookInfo`, and the list entry copied
   * from that call's response.
   */
  ghost predicate CachedAs(call: CacheCall, item: Item, parsingGenreType: string -> GenreType, info: BookInfo)
  {
    && HasReadFields(item)
    && call.Caching?
    && call.record == ItemRecord(item, parsingGenreType)
    && info == InfoOf(call.response)
  }

  /**
   * `after` is `before` followed by one `cachingBookInfo` call per item, in item order,
   * and `list` holds one entry per item copied from the matching call's response.
   */
  ghost predicate ListedThroughCache(items: seq<Item>, parsingGenreType: string -> GenreType,
                                     before: seq<CacheCall>, after: seq<CacheCall>, list: seq<BookInfo>)
  {
    && |after| == |before| + |items|
    && after[..|before|] == before
    && |list| == |items|
    && forall k :: 0 <= k < |items| ==> CachedAs(after[|before| + k], items[k], parsingGenreType, list[k])
  }

  /**
   * The outcome `parseBookListFromResponse` promises for a decoded response: the parsing
   * error and no cache call when the text is not JSON; an empty list and no cache call
   * when there is no `item` array; otherwise one write-through and one entry per item.
   */
  ghost predicate ParsedThroughCache(tree: ReadTreeOutcome, parsingGenreType: string -> GenreType,
                                     before: seq<CacheCall>, after: seq<CacheCall>,
                                     r: Result<seq<BookInfo>, ExceptionStatus>)
  {
    match tree
    case JsonProcessingError => r == Err(AladinApiParsingError) && after == before
    case Tree(root) => r.Ok? && ListedThroughCache(ItemsOf(root), parsingGenreType, before, after, r.value)
  }

  /** A response without an `item` array lists nothing and writes nothing to the cache. */
  lemma NoItemArrayNoCaching(root: JsonRoot, parsingGenreType: string -> GenreType,
                             before: seq<CacheCall>, after: seq<CacheCall>, r: Result<seq<BookInfo>, ExceptionStatus>)
    requires root.item.None? || root.item.value.NonArrayNode?
    requires ParsedThroughCache(Tree(root), parsingGenreType, before, after, r)
    ensures r == Ok([]) && after == before
  {
    assert after == after[..|before|];
  }

  /**
   * When the cache answers each write with the record it was given, the list holds the
   * items' own title, author, resolved ISBN and cover, in order.
   */
  lemma EchoingCacheListsItems(items: seq<Item>, parsingGenreType: string -> GenreType,
                               before: seq<CacheCall>, after: seq<CacheCall>, list: seq<BookInfo>)
    requires ListedThroughCache(items, parsingGenreType, before, after, list)
    requires forall k :: |before| <= k < |after| && after[k].Caching? ==>
      after[k].response.bookTitle == after[k].record.title &&
      after[k].response.authorName == after[k].record.author &&
      after[k].response.isbn == after[k].record.isbn &&
      after[k].response.imageUrl == after[k].record.cover
    ensures forall k :: 0 <= k < |items| ==>
      list[k] == BookInfo(items[k]["title"], items[k]["author"], ResolveIsbn(items[k]), items[k]["cover"])
  {
    forall k | 0 <= k < |items|
      ensures list[k] == BookInfo(items[k]["title"], items[k]["author"], ResolveIsbn(items[k]), items[k]["cover"])
    {
      assert CachedAs(after[|before| + k], items[k], parsingGenreType, list[k]);
    }
  }

  // ---------------------------------------------------------------------------
  // Mutable collaborators

  /** The response object of a book detail lookup; its setter changes it in place. */
  class GetBookInfoResponse {
    var bookTitle: string
    var authorName: string
    var isbn: string
    var imageUrl: string
    var description: string
    var genre: string
    var publisher: string
    var publishedDate: string
    var isFavorite: bool

    constructor (d: BookDetail)
      ensures Snapshot() == d
    {
      bookTitle, authorName, isbn, imageUrl := d.bookTitle, d.authorName, d.isbn, d.imageUrl;
      description, genre, publisher, publishedDate := d.description, d.genre, d.publisher, d.publishedDate;
      isFavorite := d.isFavorite;
    }

    /** The values of all fields. */
    function Snapshot(): BookDetail
      reads this
    {
      BookDetail(bookTitle, authorName, isbn, imageUrl, description, genre, publisher, publishedDate, isFavorite)
    }

    /** `setFavorite`: changes the flag and nothing else. */
    method SetFavorite(favorite: bool)
      modifies this
      ensures Snapshot() == old(Snapshot()).(isFavorite := favorite)
    {
      isFavorite := favorite;
    }
  }

  /**
   * The cache service, seen from outside: every call is appended to `calls`, and each
   * answer is whatever the service's behaviour (a function of the calls made so far and
   * of the arguments) gives. Each detail answer is a new response object.
   */
  class BookCacheService {
    var calls: seq<CacheCall>
    const pageSource: (seq<CacheCall>, GetBookListRequest) -> string
    const cachingSource: (seq<CacheCall>, BookRecord) -> BookDetail
    const checkSource: (seq<CacheCall>, string) -> BookDetail

    constructor (pageSource: (seq<CacheCall>, GetBookListRequest) -> string,
                 cachingSource: (seq<CacheCall>, BookRecord) -> BookDetail,
                 checkSource: (seq<CacheCall>, string) -> BookDetail)
      ensures calls == []
      ensures this.pageSource == pageSource && this.cachingSource == cachingSource
      ensures this.checkSource == checkSource
    {
      calls := [];
      this.pageSource, this.cachingSource, this.checkSource := pageSource, cachingSource, checkSource;
    }

    /** `getCurrentPage`: the catalog response text for the request, from the cache or the catalog. */
    method GetCurrentPage(request: GetBookListRequest) returns (page: string)
      modifies this
      ensures page == pageSource(old(calls), request)
      ensures calls == old(calls) + [CurrentPage(request, page)]
    {
      page := pageSource(calls, request);
      calls := calls + [CurrentPage(request, page)];
    }

    /** `cachingBookInfo`: stores one book by ISBN and answers with its detail. */
    method CachingBookInfo(record: BookRecord) returns (g: GetBookInfoResponse)
      modifies this
      ensures fresh(g)
      ensures g.Snapshot() == cachingSource(old(calls), record)
      ensures calls == old(calls) + [Caching(record, g.Snapshot())]
    {
      var d := cachingSource(calls, record);
      g := new GetBookInfoResponse(d);
      calls := calls + [Caching(record, d)];
    }

    /** `checkBookInfo`: the cached detail of one ISBN. */
    method CheckBookInfo(isbn: string) returns (g: GetBookInfoResponse)
      modifies this
      ensures fresh(g)
      ensures g.Snapshot() == checkSource(old(calls), isbn)
      ensures calls == old(calls) + [Check(isbn, g.Snapshot())]
    {
      var d := checkSource(calls, isbn);
      g := new GetBookInfoResponse(d);
      calls := calls + [Check(isbn, d)];
    }
  }

  // ---------------------------------------------------------------------------
  // Persistence

  /** The two queries of BookRepository this service uses, as their results. */
  datatype BookRepository = BookRepository(byIsbn: map<string, Book>, withMostRooms: seq<Book>)

  /** `existsActiveFavoriteByUserIdAndBook`. */
  datatype FavoriteRepository = FavoriteRepository(existsActiveFavorite: (int, Book) -> bool)

  datatype GetBookPopularResponse = GetBookPopularResponse(
    bookId: int, isbn: string, bookTitle: string, imageUrl: string, authorName: string,
    roomCount: nat, description: string)

  /**
   * `showPopularBook`: the first book of the most-rooms query with its room count, or
   * CANNOT_FOUND_POPULAR_BOOK when the query returns no book.
   */
  function ShowPopularBook(bookRepository: BookRepository): (r: Result<GetBookPopularResponse, ExceptionStatus>)
    ensures r.Err? <==> bookRepository.withMostRooms == []
    ensures r.Err? ==> r.error == CannotFoundPopularBook
    ensures r.Ok? ==> var b := bookRepository.withMostRooms[0];
      && r.value.bookId == b.bookId && r.value.isbn == b.isbn && r.value.bookTitle == b.bookTitle
      && r.value.imageUrl == b.imageUrl && r.value.authorName == b.authorName
      && r.value.description == b.description && r.value.roomCount == |b.rooms|
  {
    if bookRepository.withMostRooms == [] then Err(CannotFoundPopularBook)
    else
      var b := bookRepository.withMostRooms[0];
      Ok(GetBookPopularResponse(b.bookId, b.isbn, b.bookTitle, b.imageUrl, b.authorName, |b.rooms|, b.description))
  }

  /** Only the first book of the query matters. */
  lemma PopularBookIgnoresTheRest(bookRepository: BookRepository, others: seq<Book>)
    requires bookRepository.withMostRooms != []
    ensures ShowPopularBook(bookRepository) ==
            ShowPopularBook(bookRepository.(withMostRooms := [bookRepository.withMostRooms[0]] + others))
  {
  }

  // ---------------------------------------------------------------------------
  // The service

  class BookService {
    const bookRepository: BookRepository
    const favoriteRepository: FavoriteRepository
    const bookCacheService: BookCacheService
    /** `objectMapper.readTree`, with single quotes and unquoted field names allowed. */
    const readTree: string -> ReadTreeOutcome
    /** `GenreType.parsingGenreType`. */
    const parsingGenreType: string -> GenreType

    constructor (bookRepository: BookRepository, favoriteRepository: FavoriteRepository,
                 bookCacheService: BookCacheService, readTree: string -> ReadTreeOutcome,
                 parsingGenreType: string -> GenreType)
      ensures this.bookRepository == bookRepository && this.favoriteRepository == favoriteRepository
      ensures this.bookCacheService == bookCacheService && this.readTree == readTree
      ensures this.parsingGenreType == parsingGenreType
    {
      this.bookRepository, this.favoriteRepository := bookRepository, favoriteRepository;
      this.bookCacheService, this.readTree, this.parsingGenreType := bookCacheService, readTree, parsingGenreType;
    }

    /**
     * `searchBook`, its synchronous path: fetch the current page through the cache,
     * then list it as `parseBookListFromResponse` does.
     */
    method SearchBook(request: GetBookListRequest) returns (r: Result<GetBookListResponse, ExceptionStatus>)
      requires var page := bookCacheService.pageSource(bookCacheService.calls, request);
        readTree(page).Tree? ==> AllReadable(ItemsOf(readTree(page).root))
      modifies bookCacheService
      ensures var before := old(bookCacheService.calls);
        var page := bookCacheService.pageSource(before, request);
        && |bookCacheService.calls| > |before|
        && bookCacheService.calls[|before|] == CurrentPage(request, page)
        && ParsedThroughCache(readTree(page), parsingGenreType, before + [CurrentPage(request, page)],
                              bookCacheService.calls,
                              match r case Ok(resp) => Ok(resp.bookList) case Err(e) => Err(e))
    {
      var currentResponse := bookCacheService.GetCurrentPage(request);
      var bookList := ParseBookListFromResponse(currentResponse);
      match bookList
      case Ok(list) =>
        r := Ok(GetBookListResponse(list));
      case Err(e) =>
        r := Err(e);
    }

    /**
     * `parseBookListFromResponse`: for each element of the `item` array, in order,
     * write the book through `cachingBookInfo` and append the entry built from the
     * response it returns.
     */
    method ParseBookListFromResponse(currentResponse: string) returns (r: Result<seq<BookInfo>, ExceptionStatus>)
      requires readTree(currentResponse).Tree? ==> AllReadable(ItemsOf(readTree(currentResponse).root))
      modifies bookCacheService
      ensures ParsedThroughCache(readTree(currentResponse), parsingGenreType,
                                 old(bookCacheService.calls), bookCacheService.calls, r)
    {
      var tree := readTree(currentResponse);
      if tree.JsonProcessingError? {
        return Err(AladinApiParsingError);
      }
      var items := ItemsOf(tree.root);
      var bookList: seq<BookInfo> := [];
      var i := 0;
      while i < |items|
        invariant 0 <= i <= |items|
        invariant ListedThroughCache(items[..i], parsingGenreType, old(bookCacheService.calls),
                                     bookCacheService.calls, bookList)
      {
        var item := items[i];
        var record := ItemRecord(item, parsingGenreType);
        var g := bookCacheService.CachingBookInfo(record);
        bookList := bookList + [BookInfo(g.bookTitle, g.authorName, g.isbn, g.imageUrl)];
        i := i + 1;
      }
      assert items[..i] == items;
      r := Ok(bookList);
    }

    /**
     * `showBookInfo`: the cached detail of `isbn`; when the book is persisted, its
     * favorite flag becomes whether `userId` has an active favorite on it.
     */
    method ShowBookInfo(isbn: string, userId: int) returns (r: GetBookInfoResponse)
      modifies bookCacheService
      ensures fresh(r)
      ensures var before := old(bookCacheService.calls);
        var first := bookCacheService.checkSource(before, isbn);
        && |bookCacheService.calls| == |before| + 2
        && bookCacheService.calls[..|before| + 1] == before + [Check(isbn, first)]
        && bookCacheService.calls[|before| + 1].Check?
        && bookCacheService.calls[|before| + 1].isbn == isbn
        && (isbn !in bookRepository.byIsbn ==> r.Snapshot() == first)
        && (isbn in bookRepository.byIsbn ==>
              r.Snapshot() == first.(isFavorite := favoriteRepository.existsActiveFavorite(userId, bookRepository.byIsbn[isbn])))
    {
      r := bookCacheService.CheckBookInfo(isbn);
      if isbn in bookRepository.byIsbn {
        var book := bookRepository.byIsbn[isbn];
        var isFavorite := favoriteRepository.existsActiveFavorite(userId, book);
        r.SetFavorite(isFavorite);
      }
      var _ := bookCacheService.CheckBookInfo(isbn);
    }
  }
}
