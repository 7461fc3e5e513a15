# bookJourney backend: book search shaping, JWT header handling, room filtering

A Dafny model of three pieces of the reading-club backend `bookJourney-backend`:

- **BookService** (`book_service.dfy`): `searchBook` fetches the current result page of an
  external book catalog through the book cache service and lists it. `parseBookListFromResponse`
  walks the `item` array of the decoded JSON. For each item it resolves the ISBN (`isbn13`, or
  `isbn` when that is absent or empty), classifies the genre from `categoryName`, writes the book
  through `cachingBookInfo`, and appends a `BookInfo` copied from the response the cache returns.
  `showBookInfo` overlays the user's favorite flag on a cached book detail when the book is
  persisted. `showPopularBook` answers with the first book of the most-rooms query, or fails with
  `CANNOT_FOUND_POPULAR_BOOK`.
- **JwtUtil** (`jwt_util.dfy`, on top of `java_strings.dfy`): `extractJwtToken` splits the
  `Authorization` header on single spaces (Java's `split`, which drops trailing empty parts),
  wants exactly two parts and trims the second. `extractIdFromHeader` rethrows a bad header and an
  empty token as `IllegalArgumentException` and a missing user id as `NoSuchElementException`,
  each with its own message. JJWT's exceptions for a malformed token, a bad signature or an
  unsupported token are not caught and leave it unchanged. `parseClaims` still returns the claims
  of an expired token. The two validators answer true only for a token whose signed parse
  succeeds. `createToken` sets the `userId` claim, issued-at and issued-at plus the configured
  lifetime, a Java `long` sum that wraps around on overflow.
- **RoomRepository** (`room_repository.dfy`): the `findRoomsByFilters` query. Each parameter is
  either null, which disables its condition, or one comparison. The result is ordered by
  `roomId` descending.

The JSON decoder, the JWT library, the cache service, the genre classifier and the repositories
are parameters of the model. The decoder is the function `readTree` to an abstract tree. The JWT
library is a `Parser` from a token string to its parse outcome: signed claims, expired claims,
malformed, bad signature, unsupported, or empty. The cache service is a log of the calls made to
it. Its answers come from functions of the calls made so far and of the arguments. The
repositories are their query results.

Three behaviours of the code that a reader might not expect:
- `showBookInfo` leaves the favorite flag as the cache returned it when the book is not
  persisted. It does not reset it to false.
- `showBookInfo` calls `checkBookInfo` twice and returns the first answer.
- A missing `isbn` field is not reported as a parsing error. The code would dereference null,
  and the model leaves that case out.

A leading space does not always make a header invalid. `" t"` is accepted and yields `"t"`,
because `split` keeps the empty part before a leading space (JwtUtil.AcceptedHeaderExamples).
A leading space before two words, as in `" Bearer t"`, is rejected.

## Model

| member | source | states |
|---|---|---|
| BookService.ResolveIsbn | src/main/java/com/example/bookjourneybackend/domain/book/service/BookService.java:89-91 | the ISBN is `isbn13` when present and non-empty, otherwise `isbn`; it is empty only when both are |
| BookService.ResolveIsbnExamples | src/main/java/com/example/bookjourneybackend/domain/book/service/BookService.java:88-91 | an empty `isbn13` falls back to `isbn`; a filled one wins regardless of `isbn` |
| BookService.ItemRecord | src/main/java/com/example/bookjourneybackend/domain/book/service/BookService.java:85-100 | the cache write for an item carries its resolved ISBN and the genre classified from `categoryName` |
| BookService.ItemsOf | src/main/java/com/example/bookjourneybackend/domain/book/service/BookService.java:81-83 | the loop visits the elements of the `item` array, and nothing when `item` is absent or not an array |
| BookService.NoItemArrayNoCaching | src/main/java/com/example/bookjourneybackend/domain/book/service/BookService.java:81-83 | with no `item` field, or a non-array one, the list is empty and the cache is never called |
| BookService.EchoingCacheListsItems | src/main/java/com/example/bookjourneybackend/domain/book/service/BookService.java:100-102 | list entries are read from the cache's responses: a cache that echoes its input yields the items' own title, author, ISBN and cover, in order |
| BookService.BookService.ParseBookListFromResponse | src/main/java/com/example/bookjourneybackend/domain/book/service/BookService.java:72-110 | a JSON processing error gives ALADIN_API_PARSING_ERROR and no cache call; otherwise exactly one `cachingBookInfo` call per item, in order, and one entry per item copied from that call's response |
| BookService.BookService.SearchBook | src/main/java/com/example/bookjourneybackend/domain/book/service/BookService.java:49-70 | one `getCurrentPage` call for the request, then the list of that page as above |
| BookService.BookService.ShowBookInfo | src/main/java/com/example/bookjourneybackend/domain/book/service/BookService.java:112-127 | returns the first `checkBookInfo` answer, unchanged when the ISBN is not persisted, otherwise with only the favorite flag set to the repository's answer for (user, book); `checkBookInfo` is called twice |
| BookService.GetBookInfoResponse.SetFavorite | src/main/java/com/example/bookjourneybackend/domain/book/service/BookService.java:121 | the favorite flag changes and no other field |
| BookService.BookCacheService.GetCurrentPage | src/main/java/com/example/bookjourneybackend/domain/book/service/BookService.java:53 | the call is logged with the page text it answered |
| BookService.BookCacheService.CachingBookInfo | src/main/java/com/example/bookjourneybackend/domain/book/service/BookService.java:100 | the write is logged with its eight arguments and the new response object's fields |
| BookService.BookCacheService.CheckBookInfo | src/main/java/com/example/bookjourneybackend/domain/book/service/BookService.java:114 | the lookup is logged with the new response object's fields |
| BookService.ShowPopularBook | src/main/java/com/example/bookjourneybackend/domain/book/service/BookService.java:129-142 | fails with CANNOT_FOUND_POPULAR_BOOK exactly when the query returns no book; otherwise every field comes from the first book, with room count its number of rooms |
| BookService.PopularBookIgnoresTheRest | src/main/java/com/example/bookjourneybackend/domain/book/service/BookService.java:130-131 | books after the first do not change the answer |
| JavaStrings.Pieces | src/main/java/com/example/bookjourneybackend/global/util/JwtUtil.java:104 | one piece more than there are separators, and no piece contains the separator |
| JavaStrings.JoinPieces | src/main/java/com/example/bookjourneybackend/global/util/JwtUtil.java:104 | joining the pieces with the separator gives the string back |
| JavaStrings.PiecesJoin | src/main/java/com/example/bookjourneybackend/global/util/JwtUtil.java:104 | splitting a join of separator-free pieces gives the pieces back |
| JavaStrings.DropTrailingEmpty | src/main/java/com/example/bookjourneybackend/global/util/JwtUtil.java:104 | keeps a prefix that does not end in an empty string and drops only empty strings |
| JavaStrings.Split | src/main/java/com/example/bookjourneybackend/global/util/JwtUtil.java:104 | `split` is the whole string when the separator does not occur; no part contains the separator; `split(" ")` of a string with a space is the pieces of the string without its trailing spaces |
| JavaStrings.DropTrailingSpaces | src/main/java/com/example/bookjourneybackend/global/util/JwtUtil.java:104 | dropping the trailing empty pieces of a space split is splitting the string without its trailing spaces |
| JavaStrings.TrimStart | src/main/java/com/example/bookjourneybackend/global/util/JwtUtil.java:106 | drops only leading characters at or below U+0020, and all of them |
| JavaStrings.TrimEnd | src/main/java/com/example/bookjourneybackend/global/util/JwtUtil.java:106 | drops only trailing characters at or below U+0020, and all of them |
| JavaStrings.Trim | src/main/java/com/example/bookjourneybackend/global/util/JwtUtil.java:106 | a trimmed string starts and ends with a character above U+0020; it is what follows the leading blanks with exactly its trailing characters at or below U+0020 removed |
| JavaStrings.TrimKeeps | src/main/java/com/example/bookjourneybackend/global/util/JwtUtil.java:106 | a string with a character above U+0020 at each end is left unchanged |
| JavaStrings.TrimIdempotent | src/main/java/com/example/bookjourneybackend/global/util/JwtUtil.java:106 | trimming twice is trimming once |
| JavaStrings.WithoutTrailingSpaces | src/main/java/com/example/bookjourneybackend/global/util/JwtUtil.java:104 | the string is that prefix followed by spaces only, and the prefix does not end in a space |
| JavaStrings.Contains | src/main/java/com/example/bookjourneybackend/domain/room/domain/repository/RoomRepository.java:17-18 | a found needle occurs in the text at some index; every prefix and the empty string are found |
| JavaStrings.ContainsIffOccurs | src/main/java/com/example/bookjourneybackend/domain/room/domain/repository/RoomRepository.java:17-18 | the substring match finds a needle exactly when it occurs in the text at some index |
| JavaStrings.ContainsInfix | src/main/java/com/example/bookjourneybackend/domain/room/domain/repository/RoomRepository.java:17-18 | a term placed anywhere inside a text is found by the substring match |
| JwtUtil.LongAdd | src/main/java/com/example/bookjourneybackend/global/util/JwtUtil.java:63 | the `long` sum equals the exact sum modulo 2^64, and is exact when it fits |
| JwtUtil.CreateToken | src/main/java/com/example/bookjourneybackend/global/util/JwtUtil.java:58-71 | the claims carry the user id, issued-at `now` and as expiration the Java `long` sum `now + expireTime`: in range, congruent to the exact sum modulo 2^64, and equal to it when it fits |
| JwtUtil.CreateAccessToken | src/main/java/com/example/bookjourneybackend/global/util/JwtUtil.java:39-41 | expiration is the `long` sum of issued-at and the access lifetime: congruent to the exact sum modulo 2^64, and equal to it when it fits |
| JwtUtil.CreateRefreshToken | src/main/java/com/example/bookjourneybackend/global/util/JwtUtil.java:48-50 | expiration is the `long` sum of issued-at and the refresh lifetime: congruent to the exact sum modulo 2^64, and equal to it when it fits |
| JwtUtil.AccessAndRefreshDifferOnlyInLifetime | src/main/java/com/example/bookjourneybackend/global/util/JwtUtil.java:39-50 | the two tokens agree on every claim but expiration, and are equal exactly when the lifetimes are, with `exp` in milliseconds |
| JwtUtil.ExtractJwtToken | src/main/java/com/example/bookjourneybackend/global/util/JwtUtil.java:103-109 | accepted exactly when the header without trailing spaces has one space; the token is the trimmed text after it; otherwise IllegalArgumentException |
| JwtUtil.TwoPartsIffOneSpace | src/main/java/com/example/bookjourneybackend/global/util/JwtUtil.java:104-105 | `split(" ")` has two parts exactly when the header without trailing spaces has one space |
| JwtUtil.ExtractBearer | src/main/java/com/example/bookjourneybackend/global/util/JwtUtil.java:103-107 | scheme, one space, a token and trailing spaces give the trimmed token |
| JwtUtil.RejectsTwoSpaces | src/main/java/com/example/bookjourneybackend/global/util/JwtUtil.java:104-108 | two spaces before the last word (doubled space, leading space before two words, three words) are rejected |
| JwtUtil.RejectsNoSpace | src/main/java/com/example/bookjourneybackend/global/util/JwtUtil.java:104-108 | a header without a space is rejected |
| JwtUtil.AcceptedHeaderExamples | src/main/java/com/example/bookjourneybackend/global/util/JwtUtil.java:103-107 | `"Bearer abc"`, `"Bearer abc  "`, `"Bearer abc\t"` and `" abc"` all give `"abc"` |
| JwtUtil.RejectedHeaderExamples | src/main/java/com/example/bookjourneybackend/global/util/JwtUtil.java:103-108 | `"Bearer"`, `"Bearer  abc"`, `" Bearer abc"` and `"Bearer abc def"` are rejected |
| JwtUtil.ParseClaims | src/main/java/com/example/bookjourneybackend/global/util/JwtUtil.java:150-156 | claims come back for signed and for expired tokens; an empty token is an IllegalArgumentException and the other failures JJWT exceptions |
| JwtUtil.ExtractUserIdFromJwtToken | src/main/java/com/example/bookjourneybackend/global/util/JwtUtil.java:111-120 | the `userId` claim when present, NoSuchElementException when absent, even for expired tokens |
| JwtUtil.ExtractIdFromHeader | src/main/java/com/example/bookjourneybackend/global/util/JwtUtil.java:79-99 | bad header: IllegalArgumentException about the header; missing user id: NoSuchElementException; empty token: IllegalArgumentException about the token; JJWT exceptions pass through; a signed or expired token carrying `userId` gives success with that id, and nothing else does |
| JwtUtil.ValidateAccessToken | src/main/java/com/example/bookjourneybackend/global/util/JwtUtil.java:128-142 | true exactly when the signed parse succeeds; expired, malformed, bad-signature, unsupported and empty tokens give false |
| JwtUtil.ValidateRefreshToken | src/main/java/com/example/bookjourneybackend/global/util/JwtUtil.java:164-176 | true exactly when the signed parse succeeds |
| JwtUtil.ValidationAndExtraction | src/main/java/com/example/bookjourneybackend/global/util/JwtUtil.java:128-176 | both validators agree; a valid token has claims; an expired token is invalid yet still yields its user id |
| JwtUtil.HeaderOfIssuedToken | src/main/java/com/example/bookjourneybackend/global/util/JwtUtil.java:39-120 | `"Bearer " + token` for a token issued for a user, signed or expired, yields that user id |
| JwtUtil.BlankTokenIsInvalidToken | src/main/java/com/example/bookjourneybackend/global/util/JwtUtil.java:91-97 | a header whose token trims to empty is an IllegalArgumentException about the token |
| RoomRepository.Matches | src/main/java/com/example/bookjourneybackend/domain/room/domain/repository/RoomRepository.java:17-24 | with every parameter null a room passes; an empty search term imposes nothing; otherwise a room passes exactly when it meets every non-null column condition and the search term occurs in its name or its book title |
| RoomRepository.Filter | src/main/java/com/example/bookjourneybackend/domain/room/domain/repository/RoomRepository.java:17-24 | keeps exactly the rooms that satisfy the WHERE clause |
| RoomRepository.InsertDescending | src/main/java/com/example/bookjourneybackend/domain/room/domain/repository/RoomRepository.java:25 | inserting into a descending list keeps it strictly descending and adds exactly one element |
| RoomRepository.SortByRoomIdDescending | src/main/java/com/example/bookjourneybackend/domain/room/domain/repository/RoomRepository.java:25 | a permutation of the rooms in strictly descending room id |
| RoomRepository.FindRoomsByFilters | src/main/java/com/example/bookjourneybackend/domain/room/domain/repository/RoomRepository.java:16-25 | every returned room matches every non-null filter, every matching room is returned, none twice, ordered by room id strictly descending |
| RoomRepository.ResultIsDetermined | src/main/java/com/example/bookjourneybackend/domain/room/domain/repository/RoomRepository.java:16-25 | any strictly descending list of exactly the matching rooms is the query's result |
| RoomRepository.NoFiltersMatchEverything | src/main/java/com/example/bookjourneybackend/domain/room/domain/repository/RoomRepository.java:17-24 | with every parameter null every room is returned |
| RoomRepository.SearchTermMatches | src/main/java/com/example/bookjourneybackend/domain/room/domain/repository/RoomRepository.java:17-18 | the search term matches exactly when it occurs in the room name or the book title |
| RoomRepository.NullingWidens | src/main/java/com/example/bookjourneybackend/domain/room/domain/repository/RoomRepository.java:17-24 | a null parameter imposes no condition: nulling any parameter keeps every matching room |
| RoomRepository.StartDateParametersAgree | src/main/java/com/example/bookjourneybackend/domain/room/domain/repository/RoomRepository.java:20-22 | `recruitStartDate` and `roomStartDate` both bound `startDate` from below: exchanging them changes nothing |

## Left out

- The asynchronous next-page prefetch in `searchBook` (fire-and-forget `CompletableFuture`): the model keeps only the synchronous path, and assumes no prefetch call interleaves with the cache calls of the request.
- Jackson: lenient parsing, `readTree` itself and `asText` coercions are replaced by an abstract decoded tree whose item fields are text.
- BookService.BookService.ParseBookListFromResponse: requires every field the loop reads to be present; the null dereference the code would hit on a missing field is not modelled.
- The internals of the cache service (`getCurrentPage`, `cachingBookInfo`, `checkBookInfo`), `GenreType.parsingGenreType` and `GetBookListRequest.IncreasePage` are not part of this model. They are parameters, each response is a new object, and their own exceptions are not modelled.
- JJWT: signing, key derivation, Base64 decoding and the compact token string are replaced by the parse outcome. The `new Date()` clock becomes the parameter `now`. The encoding of `iat`/`exp` in whole seconds is not modelled.
- JwtUtil.ExtractUserIdFromJwtToken: a `userId` claim of a non-numeric type (JJWT's RequiredTypeException) is not modelled.
- JwtUtil.ExtractIdFromHeader: a null header is not modelled. It throws NullPointerException at `split`, which is not turned into IllegalArgumentException.
- JwtUtil.ExtractJwtToken: a null header is not modelled (NullPointerException at `split`).
- JwtUtil.AccessAndRefreshDifferOnlyInLifetime: the claims keep `exp` in milliseconds. JJWT stores it in whole seconds, so two lifetimes that differ by less than a second can give identical tokens; only "equal lifetimes give equal tokens" carries over to the signed token.
- JwtUtil.CreateToken: `userId` is never null.
- Logging, including the different log messages of the two validators, Spring wiring and `@Transactional`.
- RoomRepository: `Pageable`/`Slice` paging, collation and case sensitivity of `LIKE`, `%` and `_` in `searchTerm` acting as wildcards (the model uses plain substring containment), NULL columns, and rooms without a book (the path `r.book` is an inner join).
- The DTOs GetRoomInfoResponse and RoomMemberInfo hold no logic.
