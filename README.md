# A verified model of the movie-app backend core

This project models the core of an Express and Prisma movie-catalogue backend in Dafny:

- **Movie routes.** These cover query paging and the four fixed list endpoints (popular, top rated, upcoming, now playing). Each list endpoint is a filter, a fixed order and a skip/take window over the movie table. The routes also include discovery by a comma list of genre ids, title search with its short-circuit for blank queries, and the detail projection of one movie with its genres.
- **Authentication routes.** These cover:
  - the expiry-policy reader `parseExpires`;
  - `signTokens` and the two session cookies;
  - the request-body schemas of register and login;
  - register, login, logout, refresh and me, modelled as a session state machine over a user table held by the `AuthService` class.
- **The `requireAuth` middleware.** It is modelled as a decision function and as a method that fills in the request's identity slot. Lemmas prove that it agrees with `me` and pin down the one case where the two differ: a verified token with no subject.
- **The seed script.** This covers the normalisation of a remote movie item and the upserts into the genre and movie tables, including the reset of a movie's genre links. `seedGenres`, `seedList` and `main` are methods with loops over a `CatalogStore` class whose tables are maps.

Files:

| file | module | contents |
|---|---|---|
| `wrappers.dfy` | `Wrappers` | `Option`, used for JavaScript's `undefined`/`null` |
| `text.dfy` | `Text` | the runtime's `trim`, `Number` on integer text, `split`/`join`, and their round trips |
| `catalog.dfy` | `Catalog` | the movie and genre rows |
| `session.dfy` | `Session` | `parseExpires` and the token claims. Also: the token, hash and e-mail libraries as uninterpreted functions; `signTokens`; the cookies; how a browser stores them |
| `auth.dfy` | `Auth` | the request-body schemas, and the `AuthService` class with the five handlers |
| `gate.dfy` | `Gate` | `requireAuth` and how it relates to `me` |
| `movies.dfy` | `Movies` | paging, orders and sorting, the window, the list endpoints, discover, search, detail |
| `seed.dfy` | `Seed` | normalisation, upserts, the `CatalogStore` class and the seeding loops |

Modelling conventions:

- **Handler responses.** A handler's response is the value it returns: a status, a body and the cookie writes, in the order the handler makes them.
- **Foreign libraries.** The JSON Web Token library, the password hasher and the e-mail format check are the fields of a `Primitives` value. One more field, `signable`, says which expiry policies the signer accepts; on any other policy it throws. The model relies on the libraries only through `Sound`: a token signed under an accepted policy is non-empty and verifies to the claims it was signed with, and a password matches its own hash.
- **Values passed in.** These are parameters rather than read by the model:
  - the current time (`today`, `now`), as milliseconds;
  - the salt of a password hash;
  - the pages the remote catalogue returns;
  - the runtime's date parser.
- **Table order.** The movie table is a sequence of rows. Sorting is an insertion sort, so the order among rows with equal sort keys is one choice of the store's unspecified order.

## Model

| member | source | states |
|---|---|---|
| Text.Trim | src/routes/movies.ts:105 | The result is the part of the text between its leading and trailing white space. Everything dropped is ECMAScript white space, and the result neither starts nor ends with it. The result is empty exactly when the text is all white space. |
| Text.TrimKeeps | src/routes/movies.ts:105 | A text that neither starts nor ends with white space is its own trim. |
| Text.TrimIdempotent | src/routes/auth.ts:17-20 | Trimming a trimmed text changes nothing, so a name that passed the schema is already trimmed. |
| Text.ParseNumber | src/routes/movies.ts:21-22 | `Number` on text whose trimmed form is empty, digits, or a sign followed by digits. Blank text reads as 0, digits as their value, and a sign and digits as the signed value. Every other text reads as NaN (`None`): NaN happens exactly when the trimmed text is neither digits nor signed digits. So fractions, exponents, hexadecimal and `Infinity` ("2.5", "1e3", "0x10", "Infinity") read as NaN here, where `Number` gives them a value (see Left out). |
| Text.ParseShow | src/routes/movies.ts:86 | The decimal text of any natural number reads back as that number. |
| Text.Split | src/routes/movies.ts:84 | Splitting gives at least one piece, and no piece contains the separator. |
| Text.JoinSplit | src/routes/movies.ts:84 | Joining the pieces of a split with the separator gives back the original text. |
| Text.SplitJoin | src/routes/movies.ts:84 | Splitting a join of one or more separator-free parts gives back exactly those parts. |
| Text.Utf16Length | src/routes/auth.ts:16 | A string's JavaScript `length`, in UTF-16 code units. It lies between the number of characters and twice that. It equals the number of characters when none is beyond U+FFFF, and twice that when all are. |
| Text.Utf16LengthAppend | src/routes/auth.ts:16 | The length of a concatenation is the sum of the two lengths, so every string's length is the sum over its characters. |
| Text.Utf16LengthOne | src/routes/auth.ts:16 | One character counts as one code unit, or as two (a surrogate pair) when it is beyond U+FFFF. |
| Text.AstralLength | src/routes/auth.ts:16 | Three emoji, each beyond U+FFFF, are six code units long, so such a password meets `min(6)`. |
| Session.ParseExpires | src/routes/auth.ts:36-40 | A missing or blank setting gives the fallback. Otherwise the result is a count of seconds exactly when the setting reads as a number and that number is finite (`Number.isFinite`, magnitude below 2^1024 - 2^970), and the count is that number. Any other setting, including one too large for a double, is passed on unchanged as a duration text. |
| Session.ParseExpiresDefaults | src/routes/auth.ts:42-46 | An unset access setting gives "15m", and a blank refresh setting gives "7d". |
| Session.HasSubject | src/routes/auth.ts:129 | JavaScript truthiness of the subject claim: it fails when the claim is missing and when it is 0, and holds for every other number. |
| Session.ParseExpiresSeconds | src/routes/auth.ts:38-39 | A setting written as a decimal number below the double overflow bound is that many seconds. |
| Session.ParseExpiresOverflow | src/routes/auth.ts:38-39 | A decimal number at or above the overflow bound reads as Infinity, which fails `isFinite`, so the setting is kept as a duration text. |
| Session.SignTokens | src/routes/auth.ts:51-55 | Signing throws (`None`) exactly when the signer rejects the access or the refresh policy. Given sound libraries, two signed tokens are non-empty and both verify to exactly the claims they were signed with. |
| Session.AuthCookies | src/routes/auth.ts:57-74 | Two cookie writes, the access token first and then the refresh token. Both are HttpOnly, SameSite=Lax and not Secure. The access cookie's max-age is 900000 ms (900 s) and the refresh cookie's 604800000 ms (604800 s), so the refresh cookie outlives the access cookie. |
| Session.CookieToken | src/routes/auth.ts:121-122 | A token is found exactly when the cookie is present and non-empty, which is what the `!token` guard tests. |
| Session.ReceiveAuthCookies | src/routes/auth.ts:66-73 | After the session cookies are applied, the browser holds exactly the two new tokens under their names. |
| Auth.ParseRegister | src/routes/auth.ts:14-23 | A non-object body is rejected. A body is accepted exactly when three fields are valid: a well-formed e-mail, a string password of 6 or more UTF-16 code units, and a name that is absent or non-empty after trimming. A rejection lists a non-empty set of issues, and it contains the e-mail, the password and the name issue exactly when that field fails. The accepted value is the body's e-mail and password as given and the trimmed name, null exactly when the field was absent; an accepted name is non-empty and already trimmed. |
| Auth.ParseLogin | src/routes/auth.ts:24-27 | A body is accepted exactly when the e-mail is well-formed and the password is a string of any length. The accepted input is those two strings. |
| Auth.AuthService.constructor | src/routes/auth.ts:42-46 | The store starts empty. The two expiry policies are read from the environment settings, with the fallbacks "15m" and "7d". |
| Auth.AuthService.Register | src/routes/auth.ts:77-95 | A rejected body gives 400 with its issues, and a taken e-mail gives 409 "Email already used"; neither changes the store. Otherwise exactly one user is added under its e-mail, with the next id and the hash of its password. When the signer accepts both policies, the response is 200 with that user's public view and the session cookies for its id and e-mail. Otherwise `signTokens` throws after the user is stored, so the user exists but no response is written. The store invariant (unique e-mails and ids) is kept. |
| Auth.AuthService.Login | src/routes/auth.ts:97-112 | A rejected body gives 400 with its issues. For an accepted body, the response is 200 exactly when the e-mail is registered, the password matches the stored hash and the signer accepts both policies. When the password matches but a policy is rejected, the handler throws. Every other accepted body, whether the e-mail is unknown or the password wrong, gives the same 401 "Invalid credentials" with no cookies. A 200 carries the stored user's public view and fresh session cookies. |
| Auth.AuthService.Logout | src/routes/auth.ts:114-118 | The response is always 200 `{ok: true}`. For every browser state, neither session cookie is left afterwards. |
| Auth.AuthService.Refresh | src/routes/auth.ts:120-137 | With no refresh cookie: 401 "No refresh token". With one, the response is 200 exactly when the token verifies with a truthy subject and the signer accepts both policies, and it then re-signs both tokens from the token's own subject and e-mail. Every other case is 401 "Invalid refresh token", including a rejected policy, whose throw the handler's `catch` answers. The function never reads the store. |
| Auth.AuthService.Me | src/routes/auth.ts:139-152 | With no access cookie: 401 "Unauthenticated". With one, the response is 200 exactly when the token verifies with a truthy subject, and the body is that subject and e-mail. Every other case is 401 "Invalid token". It sets no cookies and never reads the store. |
| Auth.LoginWithStoredPassword | src/routes/auth.ts:86-111 | With sound libraries, policies the signer accepts and a valid e-mail, a stored user logs in with the password its hash was made from and gets its own id and e-mail back. |
| Auth.RegisterThenLogin | src/routes/auth.ts:77-112 | With policies the signer accepts, registering a fresh e-mail with a valid password and then logging in with the same password both answer 200, with the same public view: the id the table gave, the e-mail and no name. |
| Auth.MeAfterLogin | src/routes/auth.ts:109-111 | After a successful login, whatever the browser held before, `me` answers 200 with the logged-in user's id and e-mail. |
| Auth.MeAfterRefresh | src/routes/auth.ts:131-132 | After a successful refresh, `me` answers with the subject and e-mail the refresh token carried. |
| Auth.AuthService.SessionCookies | src/routes/auth.ts:51-74 | The two session cookie writes exist exactly when the signer accepts both policies, and they are then `setAuthCookies` of the signed pair. |
| Auth.UnsignableOpensNoSession | src/routes/auth.ts:36-55 | With a policy the signer rejects, `login` never answers 200 and `refresh` always answers 401. |
| Auth.LogoutEndsSession | src/routes/auth.ts:114-118 | After logout, `me` answers "Unauthenticated" and `refresh` answers "No refresh token". |
| Gate.Decide | src/middleware/requireAuth.ts:4-14 | No access cookie: reject with 401 "Unauthenticated". A token that fails to verify: reject with 401 "Invalid token". A request is admitted exactly when the token verifies, and it then carries the token's subject and e-mail, with no subject check. |
| Gate.RequireAuth | src/middleware/requireAuth.ts:4-14 | Either `next` is called or a response is written, never both, as `Decide` says. The identity slot is written only for an admitted request. |
| Gate.RejectMatchesMe | src/middleware/requireAuth.ts:5-12 | Whenever the middleware rejects, `me` gives the identical response. |
| Gate.AdmitWithoutSubject | src/middleware/requireAuth.ts:8-10 | The two disagree exactly when the token verifies but has no truthy subject: the middleware admits it, and `me` answers "Invalid token". The admitted identity then has no usable id. |
| Gate.AdmitMatchesMe | src/middleware/requireAuth.ts:8-10 | Whenever `me` accepts, the middleware admits the same subject and e-mail. |
| Movies.NumberOr | src/routes/movies.ts:21-22 | `Number(q) \|\| d`: a number other than 0 is kept, and NaN or 0 gives the default. |
| Movies.QueryNumber | src/routes/movies.ts:21-22 | A missing query parameter reads as NaN; a present one reads as `Number` of its text. |
| Movies.Paging | src/routes/movies.ts:20-25 | The page is at least 1, defaulting to 1. The page size is at most 20, defaulting to 20, with no lower clamp. `skip` is (page-1)·size and `take` is the size. Each case is stated in terms of the parsed query. Unless the size query is negative, `take` is at least 1 and `skip` is not negative; with a negative size, `take` is negative and `skip` is negative exactly when the page is after the first. |
| Movies.PagingExact | src/routes/movies.ts:20-25 | Any page of 1 or more, with any page size from 1 to 20, written in decimal, is taken as given, with skip (page-1)·size and take size. |
| Movies.PagingSecondPage | src/routes/movies.ts:23-24 | page=2&pageSize=10 gives skip 10 and take 10. |
| Movies.PagingClampsSize | src/routes/movies.ts:21-22 | Any page size above 20 is cut to 20, and a missing page is page 1. |
| Movies.PagingFallsBack | src/routes/movies.ts:21-22 | A page of 0 and a non-numeric page size fall back to page 1 of size 20. |
| Movies.PagingNegativeSize | src/routes/movies.ts:22-23 | A page size of -5 is kept, so page 3 gives skip -10 and take -5. |
| Movies.SkipSign | src/routes/movies.ts:23 | The number of skipped rows is not negative for a non-negative size, and for a negative size it is negative exactly when there are earlier pages. |
| Movies.Precedes | src/routes/movies.ts:31 | What each fixed order compares. Popularity orders put a more popular row first and never a less popular one; the rating order does the same on vote average. Between two dated rows the date orders compare the dates, ascending or descending. Between a dated and an undated row, ascending puts the undated row last and descending puts it first. |
| Movies.PrecedesTotal | src/routes/movies.ts:31 | Of any two rows, at least one may be listed before the other under each order. |
| Movies.PrecedesTransitive | src/routes/movies.ts:43 | Each fixed order, including the two-key ones, is transitive. |
| Movies.ProjectHidesColumns | src/routes/movies.ts:7-17 | The list columns keep the id, title and release date, and leave out the adult flag, the language and the genre links: changing those does not change a listed row. |
| Movies.Sort | src/routes/movies.ts:31 | The result is sorted by the order and is a permutation of the input: same length, same multiset. |
| Movies.Window | src/routes/movies.ts:32-33 | A negative skip is refused. A non-negative take gives the slice starting at skip, of length min(take, what is left). A negative take reads backwards from the end. There are never more results than \|take\|. |
| Movies.Candidates | src/routes/movies.ts:55-56 | The kept rows' selected columns, no more entries than rows. Every row the filter keeps contributes its selected columns, and nothing else is included. |
| Movies.CandidatesAppend | src/routes/movies.ts:55-56 | Filtering two parts of a table and joining the results is filtering the whole table, in table order. |
| Movies.CandidatesOne | src/routes/movies.ts:55-56 | A single row contributes its columns exactly when the filter matches it, and nothing otherwise. With the previous row, this defines the candidates of every table. |
| Movies.CandidatesEverything | src/routes/movies.ts:28-37 | Without a filter every row is a candidate, in table order, so there are as many candidates as rows. |
| Movies.List | src/routes/movies.ts:30-35 | Refused exactly when skip is negative. Otherwise the results are exactly the page window of the kept rows' columns in the endpoint's order: for a non-negative take, the slice from position skip, of length min(take, what is left after skip). The results are sorted, there are at most \|take\| of them, they are a sub-multiset of the kept rows' columns, and each comes from a row the filter keeps. |
| Movies.WindowSlice | src/routes/movies.ts:32-33 | For a non-negative skip the window is a slice: forwards from skip for a non-negative take, backwards from skip before the end for a negative one. In the forward case its length is min(take, what is left). |
| Movies.WindowIsPage | src/routes/movies.ts:32-33 | The window of a sequence is the page that skip and take cut from it. |
| Movies.ListAnswers | src/routes/movies.ts:20-35 | A list query over parsed page queries is refused exactly when a negative page size meets a page after the first. Otherwise it holds the page window of the ordered candidates. Unless the size is negative, it is never refused and holds min(size, what is left after the earlier pages) rows. |
| Movies.SecondPage | src/routes/movies.ts:29-33 | With 20 or more kept rows, page 2 of size 10 is items 11 to 20 of the ordered result. |
| Movies.Popular | src/routes/movies.ts:28-37 | The page queries are answered over every row in popularity order: refused only for a negative size on a later page, and otherwise exactly the page window with min(size, rows left) results. There are at most 20 results unless the size query is negative, in non-increasing popularity. |
| Movies.TopRated | src/routes/movies.ts:40-49 | The page queries are answered over every row in rating order, exactly as for popular. There are at most 20 results unless the size query is negative, ordered by rating with ties broken by vote count, both descending. |
| Movies.KeptDates | src/routes/movies.ts:56 | Every result kept by a date filter carries a date, and the filter accepts that date. |
| Movies.DatedOrder | src/routes/movies.ts:57 | In a date order, results that all carry dates have their dates in order. |
| Movies.Upcoming | src/routes/movies.ts:52-63 | The page queries are answered over the rows dated after the start of today, soonest first: exactly the page window, never refused unless the size is negative. Every result is dated after the start of today, the soonest comes first, and there are at most 20 results unless the size query is negative. |
| Movies.NowPlaying | src/routes/movies.ts:66-78 | The page queries are answered over the rows dated in the 90 days up to now, latest first: exactly the page window, never refused unless the size is negative. Every result is dated within those 90 days, the latest comes first, and there are at most 20 results unless the size query is negative. |
| Movies.NonEmpty | src/routes/movies.ts:85 | `.filter(Boolean)` keeps no empty text and never lengthens the list. |
| Movies.NonEmptyAppend | src/routes/movies.ts:85 | Filtering two joined lists is filtering each and joining the results. |
| Movies.NonEmptyOne | src/routes/movies.ts:85 | A single text passes exactly when it is non-empty. With the previous row, this defines the filter on every list. |
| Movies.NonEmptyKeeps | src/routes/movies.ts:85 | Texts that are all non-empty pass the filter unchanged. |
| Movies.GenreIds | src/routes/movies.ts:83-86 | A missing or empty `with_genres` gives no ids. |
| Movies.Numbers | src/routes/movies.ts:86 | `.map(Number)`: one number per text, in order, each `Number` of its text. |
| Movies.NumbersAppend | src/routes/movies.ts:86 | Mapping two joined lists is mapping each and joining the results. |
| Movies.GenreIdsRoundTrip | src/routes/movies.ts:80-86 | A comma list written from any ids reads back as exactly those ids, in order. |
| Movies.Present | src/routes/movies.ts:83-86 | The ids of the filled slots of a comma list, in order: never more than the slots, all of them numbers. |
| Movies.ReadPresent | src/routes/movies.ts:85-86 | Dropping the empty slots and reading the rest gives the ids of the filled slots. |
| Movies.GenreIdsWithGaps | src/routes/movies.ts:83-86 | For any comma list with empty slots anywhere (leading, trailing or repeated commas), `with_genres` reads as the ids of the filled slots, in order. |
| Movies.SplitExample | src/routes/movies.ts:84 | "28,,12" splits into "28", "" and "12". |
| Movies.NonEmptyExample | src/routes/movies.ts:85 | The empty segment is dropped, and "28" and "12" keep their order. |
| Movies.Discover | src/routes/movies.ts:81-100 | With no ids, the result is the unfiltered popularity list. An id that is NaN is refused. With ids that are all numbers, the page queries are answered over the movies linked to at least one of them, in popularity order, exactly as for popular; every result comes from such a movie. The results are in popularity order. |
| Movies.Search | src/routes/movies.ts:103-116 | A missing or blank query gives an empty result list. Otherwise the page queries are answered over the movies whose title contains the trimmed query, ignoring case, ordered by popularity and then rating: exactly the page window, never refused unless the size is negative. Every result's title contains the trimmed query. |
| Movies.KeptTitles | src/routes/movies.ts:109 | Every result kept by the title filter has a title that contains the query, ignoring case. |
| Movies.Fold | src/routes/movies.ts:109 | ASCII case folding: the length is kept, each capital letter becomes its small letter, every other character is kept, and no capital letter is left. |
| Movies.FoldIdempotent | src/routes/movies.ts:109 | Folding a folded text changes nothing. |
| Movies.Matches | src/routes/movies.ts:56-109 | The `where` conditions, each stated as an exact condition. No filter keeps every row. `gt: today` keeps a row exactly when it is dated after today. `gte: start, lte: end` keeps a row exactly when it is dated within both bounds. So a date filter never keeps an undated row. A genre filter keeps a row exactly when some genre of the row is among the ids, so an empty id set or a row without genres is never kept. A title filter keeps a row exactly when it has a title and the folded pattern occurs in the folded title; an empty pattern keeps exactly the titled rows. |
| Movies.InfixOccurs | src/routes/movies.ts:109 | The substring test behind `contains` holds exactly when the pattern occurs at some position of the text. |
| Movies.BlankSearchIgnoresTable | src/routes/movies.ts:105-106 | A blank query gives the same answer whatever the table holds. |
| Movies.FindById | src/routes/movies.ts:121-124 | Nothing is found exactly when no row has the id. Otherwise the row found has that id. |
| Movies.DetailOf | src/routes/movies.ts:129-139 | The detail's genres are exactly the movie's linked genres, with their names. |
| Movies.MovieDetail | src/routes/movies.ts:119-140 | An id that is not a number is refused. An unknown id gives 404 "Movie not found", and this happens exactly when no row has that id. A known id gives the detail of a row with that id. |
| Seed.OrNull | src/seed/seed.ts:31-32 | `x \|\| null` keeps a non-empty string and gives null otherwise. |
| Seed.Normalize | src/seed/seed.ts:29-38 | The title falls back to `name` when it is empty or missing. The overview falls back to "". The posters, the language and the release date are null exactly when they are falsy, and are kept otherwise; the date is parsed. Missing vote average, vote count and popularity become 0. `adult` is true only for true. |
| Seed.ConnectIds | src/seed/seed.ts:42 | The items linked are exactly the elements of `genre_ids`, or none when it is missing. |
| Seed.Apply | src/seed/seed.ts:39-43 | A write that resets the links leaves exactly the connected genres. A write that does not reset them adds them to the existing links. |
| Seed.UpdateMatchesCreate | src/seed/seed.ts:28-58 | The update branch over any stored row gives the same row as the create branch over nothing. Its genre links are exactly the item's, never a union with the old links. |
| Seed.Upsert | src/seed/seed.ts:26-61 | The id is added as a key if new, and its row is the item's row whether it was created or updated. Every other row is unchanged. |
| Seed.UpsertIdempotent | src/seed/seed.ts:26-27 | Upserting the same item twice leaves the same table as upserting it once. |
| Seed.UpsertLastWins | src/seed/seed.ts:26-43 | Of two items with one id, the later alone decides the single row. |
| Seed.UpsertAll | src/seed/seed.ts:25-62 | A run of upserts never removes a row, and the last item's id holds that item's row. |
| Seed.UpsertAllKeys | src/seed/seed.ts:25-62 | After a run of upserts the ids are the old ones plus the items' ids, and rows of other ids are untouched. |
| Seed.UpsertAllLast | src/seed/seed.ts:25-62 | The last item with an id decides that id's row. |
| Seed.UpsertAllAppend | src/seed/seed.ts:20-64 | Upserting one batch and then another is upserting their concatenation. |
| Seed.UpsertGenres | src/seed/seed.ts:9-15 | A run of genre upserts never removes a genre, and the last entry's id holds its name. |
| Seed.UpsertGenresKeys | src/seed/seed.ts:9-15 | After the genre upserts, the keys are the old ones plus every fetched id, and other genres are untouched. |
| Seed.UpsertGenresLast | src/seed/seed.ts:9-15 | A fetched id holds the name of the last entry with that id, so a re-seeded id is overwritten, not duplicated. |
| Seed.PageRequests | src/seed/seed.ts:19-23 | A request is made for each of pages 1 to `pages`, in ascending order, in the language en-US, and for nothing else. |
| Seed.Fetched | src/seed/seed.ts:19-24 | The items fetched for a list are exactly the items of its pages 1 to `pages`. |
| Seed.SeedItems | src/seed/seed.ts:67-72 | The seeded items are the fetched popular items first, then the other three lists. An item is seeded exactly when it is on pages 1-3 of popular or top rated, or on pages 1-2 of now playing or upcoming. |
| Seed.SeedRequests | src/seed/seed.ts:67-72 | The script sends eleven requests: the genre request, then popular pages 1-3, top rated 1-3, now playing 1-2 and upcoming 1-2, each in the language en-US. |
| Seed.SeededRows | src/seed/seed.ts:67-72 | After seeding, each seeded id has exactly one row, made from the last item with that id. |
| Seed.CatalogStore.UpsertGenre | src/seed/seed.ts:10-14 | The genre's name is created or overwritten, and all other state is unchanged. |
| Seed.CatalogStore.UpsertMovie | src/seed/seed.ts:26-61 | The movie table becomes `Upsert` of the old one, and the genre table is unchanged. |
| Seed.SeedGenres | src/seed/seed.ts:5-17 | One genre-list request is made. The genre table becomes the fold of the upserts over the fetched genres, and the movies are unchanged. |
| Seed.UpsertItems | src/seed/seed.ts:25-62 | Every item of one page is upserted in order. The movie table becomes the fold of the upserts, and the genres are unchanged. |
| Seed.SeedList | src/seed/seed.ts:19-65 | Pages 1 to `pages` are requested in order. The default is 3. The movie table becomes the fold of the upserts over all fetched items in page order, and the genres are unchanged. |
| Seed.SeedAll | src/seed/seed.ts:67-74 | The script sends its eleven requests in order. The genre table holds the fetched genres, and the movie table holds every seeded item upserted in order. |

## Left out

- Text.ParseNumber: `Number` is modelled only on integer text, exactly and without rounding. Fractions, exponents, hexadecimal and the text `Infinity` read as NaN in the model, where `Number` gives a value: `page=0x10` is page 1 in the model (NaN falls back to 1) and page 16 in the route, and `pageSize=2.5` likewise falls back instead of giving a fractional size. An array-valued query parameter is treated as missing. The rounding of integers above 2^53 to doubles is not modelled either. Overflow to Infinity is modelled only where the source tests it, in `parseExpires`. Page numbers, page sizes and ids too large for a double, or for the store's 32-bit integer columns, are not modelled.
- Session.ParseExpires: a count of seconds above 2^53 is kept exact, where the runtime would round it to the nearest double.
- Seed.Normalize: the date parser `toDate` is total. An unparsable `release_date` would give an Invalid Date, which the store refuses.
- Movies.MovieDetail: the refusal (`BadId`) of an id that reads as NaN stands for the store rejecting such a query. The route itself has no branch for it.
- Negative skip: Prisma's answer to a negative `skip` is modelled as a refusal (`Refused`). For a negative `take`, the window is read backwards from the end.
- NaN genre id: an id in `with_genres` that reads as NaN is likewise modelled as a refused query.
- Search matching: the case-insensitive title match folds ASCII letters only. The pattern characters of SQL `LIKE` are matched literally.
- Time: the day boundaries of `dayjs` in the server's time zone are not modelled, and neither are calendar arithmetic or clocks. `today`, `now` and the date parser are parameters.
- Sort ties: the store's order among rows with equal sort keys is unspecified. The model fixes one such order.
- Tokens: signature computation, token expiry and the claims `iat`/`exp` are not modelled, because the token library is uninterpreted. A token's expiry policy is passed to the signer only, and which policies it accepts is the uninterpreted `signable`.
- Thrown handlers: `Thrown` stands for an exception escaping a handler. What the web framework then sends (nothing, or a 500 from its default error handler) depends on its version, and is not modelled.
- Secret: the middleware reads `JWT_SECRET` with `!`, while the routes default it to "". Both are modelled with one shared verifier, so the case of an unset secret is not distinguished.
- String payloads: a token whose payload is a string is modelled as claims without subject or e-mail, the outcome the handlers give it.
- Hashing: the randomness and cost of the password hash are reduced to a `salt` parameter.
- Concurrency: concurrent requests are not modelled, including the database's uniqueness checks racing the `findUnique` in register. Every handler runs atomically.
- Output: `console.log` is not modelled, and neither are the remote HTTP calls of the seed script. Their answers are the `Remote` input.
- Errors: the fetch errors that end `main` with exit code 1 are not modelled.
- Missing genres: a `connect` to a genre id that has no genre row makes the store throw. The model links the id anyway.
- Seed.Normalize: a missing `title` together with a missing `name` writes null. On the update branch Prisma would instead leave the old title in place, because it skips an undefined value.
- Seed.Normalize: `adult` is modelled as an optional boolean, so the truthiness of non-boolean values is not modelled.
- Schema errors: zod's formatted error body is reduced to the set of failing fields. The e-mail format check is an uninterpreted predicate.
- src/routes/favorites.ts is not part of this model, and neither are src/routes/genres.ts, src/index.ts, src/utils/tmdb.ts or src/scripts/seedUser.ts. They are callers, wiring or scripts outside the modelled core.
