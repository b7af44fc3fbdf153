/**
 * The seed script: it reads the genre list and a few pages of four movie
 * lists from the remote catalogue and upserts them into the genre and movie
 * tables. The remote answers are inputs; the tables are the fields of a
 * `CatalogStore`.
 */
module Seed {
  import opened Wrappers
  import opened Catalog

  /** One entry of the remote genre list. */
  datatype RemoteGenre = RemoteGenre(id: int, name: string)

  /**
   * One entry of a remote movie list, as loosely typed as the remote sends
   * it: every field but the id may be missing or null (`None`).
   */
  datatype Item = Item(
    id: int,
    title: Option<string>,
    name: Option<string>,
    overview: Option<string>,
    posterPath: Option<string>,
    backdropPath: Option<string>,
    releaseDate: Option<string>,
    voteAverage: Option<real>,
    voteCount: Option<int>,
    popularity: Option<real>,
    adult: Option<bool>,
    originalLanguage: Option<string>,
    genreIds: Option<seq<int>>)

  /** A string field that JavaScript counts as true: present and not empty. */
  predicate Truthy(s: Option<string>) {
    s.Some? && s.value != []
  }

  /** `x || null` on a string field. */
  function OrNull(x: Option<string>): (r: Option<string>)
    ensures r.Some? <==> Truthy(x)
    ensures r.Some? ==> r == x
  {
    if Truthy(x) then x else None
  }

  /** The scalar columns the update and the create branch both write. */
  datatype Scalars = Scalars(
    title: Option<string>,
    overview: string,
    posterPath: Option<string>,
    backdropPath: Option<string>,
    releaseDate: Option<int>,
    voteAverage: real,
    voteCount: int,
    popularity: real,
    adult: bool,
    originalLanguage: Option<string>)

  /**
   * The normalisation of a remote item. `toDate` is the date parser of the
   * runtime (milliseconds since the epoch).
   */
  function Normalize(m: Item, toDate: string -> int): (f: Scalars)
    ensures Truthy(m.title) ==> f.title == m.title
    ensures !Truthy(m.title) ==> f.title == m.name
    ensures Truthy(m.overview) ==> f.overview == m.overview.value
    ensures !Truthy(m.overview) ==> f.overview == []
    ensures f.posterPath.Some? <==> Truthy(m.posterPath)
    ensures f.posterPath.Some? ==> f.posterPath == m.posterPath
    ensures f.backdropPath.Some? <==> Truthy(m.backdropPath)
    ensures f.backdropPath.Some? ==> f.backdropPath == m.backdropPath
    ensures f.releaseDate.Some? <==> Truthy(m.releaseDate)
    ensures f.releaseDate.Some? ==> f.releaseDate.value == toDate(m.releaseDate.value)
    ensures m.voteAverage.Some? ==> f.voteAverage == m.voteAverage.value
    ensures m.voteAverage.None? ==> f.voteAverage == 0.0
    ensures m.voteCount.Some? ==> f.voteCount == m.voteCount.value
    ensures m.voteCount.None? ==> f.voteCount == 0
    ensures m.popularity.Some? ==> f.popularity == m.popularity.value
    ensures m.popularity.None? ==> f.popularity == 0.0
    ensures f.adult <==> m.adult == Some(true)
    ensures f.originalLanguage.Some? <==> Truthy(m.originalLanguage)
    ensures f.originalLanguage.Some? ==> f.originalLanguage == m.originalLanguage
  {
    Scalars(
      if Truthy(m.title) then m.title else m.name,
      if Truthy(m.overview) then m.overview.value else [],
      OrNull(m.posterPath),
      OrNull(m.backdropPath),
      if Truthy(m.releaseDate) then Some(toDate(m.releaseDate.value)) else None,
      m.voteAverage.GetOr(0.0),
      m.voteCount.GetOr(0),
      m.popularity.GetOr(0.0),
      m.adult == Some(true),
      OrNull(m.originalLanguage))
  }

  /** The genre ids an item links to: its `genre_ids`, or none. */
  function ConnectIds(m: Item): (ids: set<int>)
    ensures m.genreIds.None? ==> ids == {}
    ensures m.genreIds.Some? ==> forall i :: 0 <= i < |m.genreIds.value| ==> m.genreIds.value[i] in ids
    ensures m.genreIds.Some? ==> forall g :: g in ids ==> g in m.genreIds.value
  {
    if m.genreIds.None? then {} else set g | g in m.genreIds.value
  }

  /** The relation half of a write: optionally clear the links, then connect. */
  datatype Links = Links(reset: bool, connect: set<int>)

  /** What one branch of a movie upsert writes. */
  datatype Write = Write(id: int, scalars: Scalars, links: Links)

  /** The `update` branch: scalars, and the genre links reset and set. */
  function UpdateWrite(m: Item, toDate: string -> int): Write {
    Write(m.id, Normalize(m, toDate), Links(true, ConnectIds(m)))
  }

  /** The `create` branch: the id, scalars, and the genre links connected. */
  function CreateWrite(m: Item, toDate: string -> int): Write {
    Write(m.id, Normalize(m, toDate), Links(false, ConnectIds(m)))
  }

  /**
   * The row a write leaves, over the existing row when there is one. The
   * update branch finds its row by the item's id, so either way the row's
   * id is the write's.
   */
  function Apply(existing: Option<Movie>, w: Write): (r: Movie)
    ensures existing.Some? && !w.links.reset ==> r.genreIds == existing.value.genreIds + w.links.connect
    ensures existing.None? || w.links.reset ==> r.genreIds == w.links.connect
    ensures r.title == w.scalars.title && r.overview == w.scalars.overview
  {
    var s := w.scalars;
    var kept := if existing.None? || w.links.reset then {} else existing.value.genreIds;
    Movie(
      w.id, s.title, s.overview, s.posterPath, s.backdropPath, s.releaseDate,
      s.voteAverage, s.voteCount, s.popularity, s.adult, s.originalLanguage,
      kept + w.links.connect)
  }

  /** The row an item stands for, whatever was stored before. */
  function Row(m: Item, toDate: string -> int): Movie {
    Apply(None, CreateWrite(m, toDate))
  }

  /**
   * The update branch over any stored row of that id writes the same row
   * as the create branch over nothing: in particular the genre links are
   * exactly the item's, never a union with the old ones.
   */
  lemma UpdateMatchesCreate(stored: Movie, m: Item, toDate: string -> int)
    ensures Apply(Some(stored), UpdateWrite(m, toDate)) == Row(m, toDate)
    ensures Row(m, toDate).genreIds == ConnectIds(m)
    ensures Row(m, toDate).id == m.id
  {
  }

  /** One movie upsert keyed by the item's id. */
  function Upsert(movies: map<int, Movie>, m: Item, toDate: string -> int): (r: map<int, Movie>)
    ensures r.Keys == movies.Keys + {m.id}
    ensures r[m.id] == Row(m, toDate)
    ensures forall k :: k in movies && k != m.id ==> r[k] == movies[k]
  {
    if m.id in movies then
      UpdateMatchesCreate(movies[m.id], m, toDate);
      movies[m.id := Apply(Some(movies[m.id]), UpdateWrite(m, toDate))]
    else
      movies[m.id := Apply(None, CreateWrite(m, toDate))]
  }

  /** Upserting the same item twice leaves what upserting it once leaves. */
  lemma UpsertIdempotent(movies: map<int, Movie>, m: Item, toDate: string -> int)
    ensures Upsert(Upsert(movies, m, toDate), m, toDate) == Upsert(movies, m, toDate)
  {
    var once := Upsert(movies, m, toDate);
    var twice := Upsert(once, m, toDate);
    assert twice.Keys == once.Keys;
    forall k | k in once ensures twice[k] == once[k] {
    }
  }

  /** Of two items with one id, the later decides the single row. */
  lemma UpsertLastWins(movies: map<int, Movie>, m: Item, n: Item, toDate: string -> int)
    requires m.id == n.id
    ensures Upsert(Upsert(movies, m, toDate), n, toDate) == Upsert(movies, n, toDate)
  {
    var left := Upsert(Upsert(movies, m, toDate), n, toDate);
    var right := Upsert(movies, n, toDate);
    assert left.Keys == right.Keys;
    forall k | k in left ensures left[k] == right[k] {
    }
  }

  /** The ids of a sequence of items. */
  function ItemIds(items: seq<Item>): set<int> {
    set i | 0 <= i < |items| :: items[i].id
  }

  /** Index `i` holds the last item with its id. */
  predicate LastOfId(items: seq<Item>, i: int)
    requires 0 <= i < |items|
  {
    forall j :: i < j < |items| ==> items[j].id != items[i].id
  }

  /** Upserting the items one after another. */
  function UpsertAll(movies: map<int, Movie>, items: seq<Item>, toDate: string -> int): (r: map<int, Movie>)
    ensures movies.Keys <= r.Keys
    ensures items != [] ==> items[|items| - 1].id in r && r[items[|items| - 1].id] == Row(items[|items| - 1], toDate)
    decreases |items|
  {
    if items == [] then movies
    else Upsert(UpsertAll(movies, items[..|items| - 1], toDate), items[|items| - 1], toDate)
  }

  /** The ids of a sequence with one more item. */
  lemma ItemIdsSnoc(items: seq<Item>)
    requires items != []
    ensures ItemIds(items) == ItemIds(items[..|items| - 1]) + {items[|items| - 1].id}
  {
    var front := items[..|items| - 1];
    forall k | k in ItemIds(items) ensures k in ItemIds(front) + {items[|items| - 1].id} {
      var i :| 0 <= i < |items| && items[i].id == k;
      if i < |front| {
        assert front[i].id == k;
      }
    }
    forall k | k in ItemIds(front) ensures k in ItemIds(items) {
      var i :| 0 <= i < |front| && front[i].id == k;
      assert items[i].id == k;
    }
  }

  /** After the items are upserted there is one row per id, and the other rows are untouched. */
  lemma {:induction false} UpsertAllKeys(movies: map<int, Movie>, items: seq<Item>, toDate: string -> int)
    ensures UpsertAll(movies, items, toDate).Keys == movies.Keys + ItemIds(items)
    ensures forall k :: k in movies && k !in ItemIds(items) ==> UpsertAll(movies, items, toDate)[k] == movies[k]
    decreases |items|
  {
    if items != [] {
      UpsertAllKeys(movies, items[..|items| - 1], toDate);
      ItemIdsSnoc(items);
    }
  }

  /** The last item with an id decides that id's row. */
  lemma {:induction false} UpsertAllLast(movies: map<int, Movie>, items: seq<Item>, toDate: string -> int, i: int)
    requires 0 <= i < |items| && LastOfId(items, i)
    ensures items[i].id in UpsertAll(movies, items, toDate)
    ensures UpsertAll(movies, items, toDate)[items[i].id] == Row(items[i], toDate)
    decreases |items|
  {
    var front := items[..|items| - 1];
    if i < |front| {
      assert items[i] == front[i];
      assert LastOfId(front, i) by {
        forall j | i < j < |front| ensures front[j].id != front[i].id {
          assert front[j] == items[j];
        }
      }
      UpsertAllLast(movies, front, toDate, i);
    }
  }

  /** Upserting `a` and then `b` is upserting `a + b`. */
  lemma {:induction false} UpsertAllAppend(movies: map<int, Movie>, a: seq<Item>, b: seq<Item>, toDate: string -> int)
    ensures UpsertAll(movies, a + b, toDate) == UpsertAll(UpsertAll(movies, a, toDate), b, toDate)
    decreases |b|
  {
    if b == [] {
      assert a + b == a;
    } else {
      assert (a + b)[..|a + b| - 1] == a + b[..|b| - 1];
      assert (a + b)[|a + b| - 1] == b[|b| - 1];
      UpsertAllAppend(movies, a, b[..|b| - 1], toDate);
    }
  }

  /** Upserting the genres one after another. */
  function UpsertGenres(genres: map<int, string>, gs: seq<RemoteGenre>): (r: map<int, string>)
    ensures genres.Keys <= r.Keys
    ensures gs != [] ==> gs[|gs| - 1].id in r && r[gs[|gs| - 1].id] == gs[|gs| - 1].name
    decreases |gs|
  {
    if gs == [] then genres
    else UpsertGenres(genres, gs[..|gs| - 1])[gs[|gs| - 1].id := gs[|gs| - 1].name]
  }

  /** The ids of a genre list. */
  function GenreIdsOf(gs: seq<RemoteGenre>): set<int> {
    set i | 0 <= i < |gs| :: gs[i].id
  }

  /** The ids of a genre list with one more entry. */
  lemma GenreIdsSnoc(gs: seq<RemoteGenre>)
    requires gs != []
    ensures GenreIdsOf(gs) == GenreIdsOf(gs[..|gs| - 1]) + {gs[|gs| - 1].id}
  {
    var front := gs[..|gs| - 1];
    forall k | k in GenreIdsOf(gs) ensures k in GenreIdsOf(front) + {gs[|gs| - 1].id} {
      var i :| 0 <= i < |gs| && gs[i].id == k;
      if i < |front| {
        assert front[i].id == k;
      }
    }
    forall k | k in GenreIdsOf(front) ensures k in GenreIdsOf(gs) {
      var i :| 0 <= i < |front| && front[i].id == k;
      assert gs[i].id == k;
    }
  }

  /** After the genre upserts every fetched id is a key, and the other genres are untouched. */
  lemma {:induction false} UpsertGenresKeys(genres: map<int, string>, gs: seq<RemoteGenre>)
    ensures UpsertGenres(genres, gs).Keys == genres.Keys + GenreIdsOf(gs)
    ensures forall k :: k in genres && k !in GenreIdsOf(gs) ==> UpsertGenres(genres, gs)[k] == genres[k]
    decreases |gs|
  {
    if gs != [] {
      UpsertGenresKeys(genres, gs[..|gs| - 1]);
      GenreIdsSnoc(gs);
    }
  }

  /** A fetched id is named by the last entry with that id. */
  lemma {:induction false} UpsertGenresLast(genres: map<int, string>, gs: seq<RemoteGenre>, i: int)
    requires 0 <= i < |gs| && forall j :: i < j < |gs| ==> gs[j].id != gs[i].id
    ensures gs[i].id in UpsertGenres(genres, gs)
    ensures UpsertGenres(genres, gs)[gs[i].id] == gs[i].name
    decreases |gs|
  {
    var front := gs[..|gs| - 1];
    if i < |front| {
      assert gs[i] == front[i];
      forall j | i < j < |front| ensures front[j].id != front[i].id {
        assert front[j] == gs[j];
      }
      UpsertGenresLast(genres, front, i);
    }
  }

  /** The language every request of the script asks for. */
  const Language := "en-US"

  const GenreListPath := "/genre/movie/list"
  const PopularPath := "/movie/popular"
  const TopRatedPath := "/movie/top_rated"
  const NowPlayingPath := "/movie/now_playing"
  const UpcomingPath := "/movie/upcoming"

  /** The number of pages a list is seeded with unless told otherwise. */
  const DefaultPages := 3

  /** A request to the remote catalogue, as the script sends it. */
  datatype Request = Request(path: string, language: string, page: Option<int>)

  /**
   * The remote catalogue: its genre list, the page a list endpoint answers
   * with, and the runtime's date parser.
   */
  datatype Remote = Remote(
    genres: seq<RemoteGenre>,
    page: (string, int) -> seq<Item>,
    toDate: string -> int)

  /** The requests for pages 1 to `pages` of one list. */
  function PageRequests(path: string, pages: int): (r: seq<Request>)
    ensures |r| == if pages < 1 then 0 else pages
    ensures forall i :: 0 <= i < |r| ==> r[i] == Request(path, Language, Some(i + 1))
    decreases pages
  {
    if pages < 1 then [] else PageRequests(path, pages - 1) + [Request(path, Language, Some(pages))]
  }

  /** The items of pages 1 to `pages` of one list, in page order. */
  function Fetched(remote: Remote, path: string, pages: int): (r: seq<Item>)
    ensures forall x :: x in r <==> exists k :: 1 <= k <= pages && x in remote.page(path, k)
    decreases pages
  {
    if pages < 1 then [] else Fetched(remote, path, pages - 1) + remote.page(path, pages)
  }

  /** Every item the whole script upserts, in the order it upserts them. */
  function SeedItems(remote: Remote): (r: seq<Item>)
    ensures |r| == |Fetched(remote, PopularPath, 3)| + |Fetched(remote, TopRatedPath, 3)|
                   + |Fetched(remote, NowPlayingPath, 2)| + |Fetched(remote, UpcomingPath, 2)|
    ensures r[..|Fetched(remote, PopularPath, 3)|] == Fetched(remote, PopularPath, 3)
    ensures forall x :: x in r <==>
              (exists k :: 1 <= k <= 3 && (x in remote.page(PopularPath, k) || x in remote.page(TopRatedPath, k))) ||
              (exists k :: 1 <= k <= 2 && (x in remote.page(NowPlayingPath, k) || x in remote.page(UpcomingPath, k)))
  {
    Fetched(remote, PopularPath, 3) + Fetched(remote, TopRatedPath, 3)
      + Fetched(remote, NowPlayingPath, 2) + Fetched(remote, UpcomingPath, 2)
  }

  /**
   * Every request the whole script sends, in order: one genre request and
   * ten page requests, popular and top rated pages 1 to 3, then now
   * playing and upcoming pages 1 and 2.
   */
  function SeedRequests(): (r: seq<Request>)
    ensures |r| == 11
    ensures r[0] == Request(GenreListPath, Language, None)
    ensures r[1..4] == PageRequests(PopularPath, 3)
    ensures r[4..7] == PageRequests(TopRatedPath, 3)
    ensures r[7..9] == PageRequests(NowPlayingPath, 2)
    ensures r[9..11] == PageRequests(UpcomingPath, 2)
  {
    var g := [Request(GenreListPath, Language, None)];
    var a := PageRequests(PopularPath, 3);
    var b := PageRequests(TopRatedPath, 3);
    var c := PageRequests(NowPlayingPath, 2);
    var d := PageRequests(UpcomingPath, 2);
    var ga := g + a;
    var gab := ga + b;
    var gabc := gab + c;
    assert |ga| == 4 && |gab| == 7 && |gabc| == 9;
    assert (gabc + d)[9..11] == d;
    assert (gabc + d)[..9] == gabc && gabc[7..9] == c && gabc[..7] == gab;
    assert gab[4..7] == b && gab[..4] == ga && ga[1..4] == a;
    gabc + d
  }

  /** After seeding, every seeded id has exactly one row, made from its last item. */
  lemma SeededRows(movies: map<int, Movie>, remote: Remote)
    ensures UpsertAll(movies, SeedItems(remote), remote.toDate).Keys == movies.Keys + ItemIds(SeedItems(remote))
    ensures forall i :: 0 <= i < |SeedItems(remote)| && LastOfId(SeedItems(remote), i) ==>
              UpsertAll(movies, SeedItems(remote), remote.toDate)[SeedItems(remote)[i].id]
                == Row(SeedItems(remote)[i], remote.toDate)
  {
    var items := SeedItems(remote);
    UpsertAllKeys(movies, items, remote.toDate);
    forall i | 0 <= i < |items| && LastOfId(items, i)
      ensures UpsertAll(movies, items, remote.toDate)[items[i].id] == Row(items[i], remote.toDate)
    {
      UpsertAllLast(movies, items, remote.toDate, i);
    }
  }

  /** The genre and movie tables. */
  class CatalogStore {
    var genres: map<int, string>
    var movies: map<int, Movie>

    constructor (genres: map<int, string>, movies: map<int, Movie>)
      ensures this.genres == genres && this.movies == movies
    {
      this.genres := genres;
      this.movies := movies;
    }

    /** `genre.upsert` keyed by id: create or overwrite the name. */
    method UpsertGenre(g: RemoteGenre)
      modifies this
      ensures genres == old(genres)[g.id := g.name]
      ensures movies == old(movies)
    {
      genres := genres[g.id := g.name];
    }

    /** `movie.upsert` keyed by the item's id. */
    method UpsertMovie(m: Item, toDate: string -> int)
      modifies this
      ensures movies == Upsert(old(movies), m, toDate)
      ensures genres == old(genres)
    {
      if m.id in movies {
        movies := movies[m.id := Apply(Some(movies[m.id]), UpdateWrite(m, toDate))];
      } else {
        movies := movies[m.id := Apply(None, CreateWrite(m, toDate))];
      }
    }
  }

  /** `seedGenres`: upsert each genre of the remote list in order. */
  method SeedGenres(store: CatalogStore, remote: Remote) returns (log: seq<Request>)
    modifies store
    ensures log == [Request(GenreListPath, Language, None)]
    ensures store.genres == UpsertGenres(old(store.genres), remote.genres)
    ensures store.movies == old(store.movies)
  {
    log := [Request(GenreListPath, Language, None)];
    var gs := remote.genres;
    var i := 0;
    while i < |gs|
      invariant 0 <= i <= |gs|
      invariant store.genres == UpsertGenres(old(store.genres), gs[..i])
      invariant store.movies == old(store.movies)
    {
      store.UpsertGenre(gs[i]);
      assert gs[..i + 1][..i] == gs[..i];
      i := i + 1;
    }
    assert gs[..i] == gs;
  }

  /** The inner loop of `seedList`: every item of one page upserted in order. */
  method UpsertItems(store: CatalogStore, items: seq<Item>, toDate: string -> int)
    modifies store
    ensures store.movies == UpsertAll(old(store.movies), items, toDate)
    ensures store.genres == old(store.genres)
  {
    var j := 0;
    while j < |items|
      invariant 0 <= j <= |items|
      invariant store.movies == UpsertAll(old(store.movies), items[..j], toDate)
      invariant store.genres == old(store.genres)
    {
      store.UpsertMovie(items[j], toDate);
      assert items[..j + 1][..j] == items[..j];
      j := j + 1;
    }
    assert items[..j] == items;
  }

  /** `seedList`: pages 1 to `pages` of one list, each item upserted in order. */
  method SeedList(store: CatalogStore, remote: Remote, path: string, pages: int := DefaultPages)
    returns (log: seq<Request>)
    modifies store
    ensures log == PageRequests(path, pages)
    ensures store.movies == UpsertAll(old(store.movies), Fetched(remote, path, pages), remote.toDate)
    ensures store.genres == old(store.genres)
  {
    log := [];
    var page := 1;
    while page <= pages
      invariant 1 <= page <= (if pages < 1 then 1 else pages + 1)
      invariant log == PageRequests(path, page - 1)
      invariant store.movies == UpsertAll(old(store.movies), Fetched(remote, path, page - 1), remote.toDate)
      invariant store.genres == old(store.genres)
    {
      var items := remote.page(path, page);
      log := log + [Request(path, Language, Some(page))];
      UpsertItems(store, items, remote.toDate);
      UpsertAllAppend(old(store.movies), Fetched(remote, path, page - 1), items, remote.toDate);
      page := page + 1;
    }
  }

  /** `main`: the genres, then three pages each of popular and top rated, two each of now playing and upcoming. */
  method SeedAll(store: CatalogStore, remote: Remote) returns (log: seq<Request>)
    modifies store
    ensures log == SeedRequests()
    ensures store.genres == UpsertGenres(old(store.genres), remote.genres)
    ensures store.movies == UpsertAll(old(store.movies), SeedItems(remote), remote.toDate)
  {
    var start := store.movies;
    log := SeedGenres(store, remote);
    var popular := SeedList(store, remote, PopularPath, 3);
    var topRated := SeedList(store, remote, TopRatedPath, 3);
    var nowPlaying := SeedList(store, remote, NowPlayingPath, 2);
    var upcoming := SeedList(store, remote, UpcomingPath, 2);
    log := log + popular + topRated + nowPlaying + upcoming;
    var a := Fetched(remote, PopularPath, 3);
    var b := Fetched(remote, TopRatedPath, 3);
    var c := Fetched(remote, NowPlayingPath, 2);
    var d := Fetched(remote, UpcomingPath, 2);
    UpsertAllAppend(start, a, b, remote.toDate);
    UpsertAllAppend(start, a + b, c, remote.toDate);
    UpsertAllAppend(start, a + b + c, d, remote.toDate);
  }
}
