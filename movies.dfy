/**
 * The movie routes of src/routes/movies.ts over an in-memory copy of the
 * movie table: query paging, the list endpoints as filter, fixed order and
 * window, discovery by genre, title search and the detail projection.
 */
module Movies {
  import opened Wrappers
  import opened Text
  import opened Catalog

  // ---------------------------------------------------------------- paging

  /** `Number(req.query.x)` for a query value that may be missing (missing reads as NaN). */
  function QueryNumber(q: Option<string>): (r: Option<int>)
    ensures q.None? ==> r.None?
    ensures q.Some? ==> r == ParseNumber(q.value)
  {
    if q.None? then None else ParseNumber(q.value)
  }

  /** `Number(q) || d`: NaN and 0 are falsy and give the default. */
  function NumberOr(q: Option<string>, d: int): (n: int)
    ensures QueryNumber(q).Some? && QueryNumber(q).value != 0 ==> n == QueryNumber(q).value
    ensures QueryNumber(q).None? || QueryNumber(q).value == 0 ==> n == d
  {
    match QueryNumber(q)
    case Some(n) => if n == 0 then d else n
    case None => d
  }

  /** A query value that reads as a negative number. */
  predicate NegativeQuery(q: Option<string>) {
    QueryNumber(q).Some? && QueryNumber(q).value < 0
  }

  datatype Page = Page(page: int, pageSize: int, skip: int, take: int)

  const MaxPageSize := 20

  /**
   * `paging`: the page is at least 1 (1 when missing, zero or not a
   * number); the page size is at most 20 (20 when missing, zero or not a
   * number) and has no lower clamp; the window starts after the earlier
   * pages and is one page long.
   */
  function Paging(pageQ: Option<string>, sizeQ: Option<string>): (p: Page)
    ensures p.page >= 1 && p.pageSize <= MaxPageSize
    ensures p.skip == (p.page - 1) * p.pageSize && p.take == p.pageSize
    ensures QueryNumber(pageQ).Some? && QueryNumber(pageQ).value >= 1 ==> p.page == QueryNumber(pageQ).value
    ensures QueryNumber(pageQ).None? || QueryNumber(pageQ).value < 1 ==> p.page == 1
    ensures QueryNumber(sizeQ).Some? && QueryNumber(sizeQ).value != 0 ==>
              p.pageSize == if QueryNumber(sizeQ).value > MaxPageSize then MaxPageSize else QueryNumber(sizeQ).value
    ensures QueryNumber(sizeQ).None? || QueryNumber(sizeQ).value == 0 ==> p.pageSize == MaxPageSize
    ensures !NegativeQuery(sizeQ) ==> 1 <= p.take && 0 <= p.skip
    ensures NegativeQuery(sizeQ) ==> p.take < 0 && (p.skip < 0 <==> p.page > 1)
  {
    var n := NumberOr(pageQ, 1);
    var page := if n > 1 then n else 1;
    var m := NumberOr(sizeQ, MaxPageSize);
    var size := if m < MaxPageSize then m else MaxPageSize;
    SkipSign(page - 1, size);
    Page(page, size, (page - 1) * size, size)
  }

  /** The sign of the number of skipped rows. */
  lemma SkipSign(earlier: nat, size: int)
    ensures size >= 0 ==> earlier * size >= 0
    ensures size < 0 ==> (earlier * size < 0 <==> earlier > 0)
  {
    if size < 0 && earlier > 0 {
      assert earlier * size <= size;
    }
  }

  /** A page and a page size written in decimal, the size between 1 and 20, are taken as given. */
  lemma PagingExact(page: nat, size: nat)
    requires page >= 1 && 1 <= size <= MaxPageSize
    ensures Paging(Some(Show(page)), Some(Show(size))) == Page(page, size, (page - 1) * size, size)
  {
    ParseShow(page);
    ParseShow(size);
    var p := Paging(Some(Show(page)), Some(Show(size)));
    assert p.page == page && p.pageSize == size;
  }

  /** Page 2 of size 10 starts after the first ten items. */
  lemma PagingSecondPage()
    ensures Paging(Some("2"), Some("10")) == Page(2, 10, 10, 10)
  {
    ParseShow(2); assert Show(2) == "2";
    ParseShow(10); assert Show(10) == "10";
  }

  /** A page size above 20 is cut to 20; a missing page is page 1. */
  lemma PagingClampsSize(size: nat)
    requires size > MaxPageSize
    ensures Paging(None, Some(Show(size))) == Page(1, MaxPageSize, 0, MaxPageSize)
  {
    ParseShow(size);
  }

  /** A zero page and a non-numeric page size fall back to the defaults. */
  lemma PagingFallsBack()
    ensures Paging(Some("0"), Some("x")) == Page(1, 20, 0, 20)
  {
    TrimKeeps("0");
    TrimKeeps("x");
    assert !AllDigits("x") by { assert !IsDigit("x"[0]); }
  }

  /** A negative page size is not clamped from below: skip and take turn negative. */
  lemma PagingNegativeSize()
    ensures Paging(Some("3"), Some("-5")) == Page(3, -5, -10, -5)
  {
    TrimKeeps("3");
    TrimKeeps("-5");
    assert "-5"[1..] == "5";
    assert DigitsValue("5") == 5 by { assert "5"[..0] == []; }
    assert !AllDigits("-5") by { assert !IsDigit("-5"[0]); }
  }

  // ------------------------------------------------------------ the order

  /** The columns a list response selects. */
  datatype Summary = Summary(
    id: int,
    title: Option<string>,
    posterPath: Option<string>,
    backdropPath: Option<string>,
    voteAverage: real,
    voteCount: int,
    releaseDate: Option<int>,
    overview: string,
    popularity: real)

  function Project(m: Movie): Summary {
    Summary(m.id, m.title, m.posterPath, m.backdropPath, m.voteAverage, m.voteCount,
            m.releaseDate, m.overview, m.popularity)
  }

  /** The list columns leave out the adult flag, the language and the genre links. */
  lemma ProjectHidesColumns(m: Movie, adult: bool, language: Option<string>, genreIds: set<int>)
    ensures Project(m.(adult := adult, originalLanguage := language, genreIds := genreIds)) == Project(m)
    ensures Project(m).id == m.id && Project(m).title == m.title && Project(m).releaseDate == m.releaseDate
  {
  }

  /** The fixed orders of the list endpoints. */
  datatype Order =
    | ByPopularity             // popularity descending
    | ByRating                 // vote_average descending, then vote_count descending
    | ByReleaseAsc             // release_date ascending
    | ByReleaseDesc            // release_date descending
    | ByPopularityThenRating   // popularity descending, then vote_average descending

  /** Ascending on optional dates, with missing dates last (the store's default for nulls). */
  predicate DateAtMost(x: Option<int>, y: Option<int>) {
    match (x, y)
    case (Some(a), Some(b)) => a <= b
    case (Some(_), None) => true
    case (None, Some(_)) => false
    case (None, None) => true
  }

  /** `a` may be listed before `b` under order `o`. */
  predicate Precedes(o: Order, a: Summary, b: Summary)
    ensures (o.ByPopularity? || o.ByPopularityThenRating?) ==>
              (a.popularity > b.popularity ==> Precedes(o, a, b)) && (Precedes(o, a, b) ==> a.popularity >= b.popularity)
    ensures o.ByRating? ==>
              (a.voteAverage > b.voteAverage ==> Precedes(o, a, b)) && (Precedes(o, a, b) ==> a.voteAverage >= b.voteAverage)
    ensures (o.ByReleaseAsc? || o.ByReleaseDesc?) && a.releaseDate.Some? && b.releaseDate.Some? ==>
              (Precedes(o, a, b) <==> if o.ByReleaseAsc? then a.releaseDate.value <= b.releaseDate.value
                                      else a.releaseDate.value >= b.releaseDate.value)
    ensures o.ByReleaseAsc? && a.releaseDate.Some? != b.releaseDate.Some? ==> (Precedes(o, a, b) <==> a.releaseDate.Some?)
    ensures o.ByReleaseDesc? && a.releaseDate.Some? != b.releaseDate.Some? ==> (Precedes(o, a, b) <==> a.releaseDate.None?)
  {
    match o
    case ByPopularity => a.popularity >= b.popularity
    case ByRating =>
      a.voteAverage > b.voteAverage || (a.voteAverage == b.voteAverage && a.voteCount >= b.voteCount)
    case ByReleaseAsc => DateAtMost(a.releaseDate, b.releaseDate)
    case ByReleaseDesc => DateAtMost(b.releaseDate, a.releaseDate)
    case ByPopularityThenRating =>
      a.popularity > b.popularity || (a.popularity == b.popularity && a.voteAverage >= b.voteAverage)
  }

  lemma PrecedesTotal(o: Order, a: Summary, b: Summary)
    ensures Precedes(o, a, b) || Precedes(o, b, a)
  {
  }

  lemma PrecedesTransitive(o: Order, a: Summary, b: Summary, c: Summary)
    requires Precedes(o, a, b) && Precedes(o, b, c)
    ensures Precedes(o, a, c)
  {
  }

  predicate SortedBy(o: Order, s: seq<Summary>) {
    forall i, j :: 0 <= i < j < |s| ==> Precedes(o, s[i], s[j])
  }

  lemma {:induction false} SortedCons(o: Order, x: Summary, s: seq<Summary>)
    requires SortedBy(o, s)
    requires forall y :: y in s ==> Precedes(o, x, y)
    ensures SortedBy(o, [x] + s)
  {
    var t := [x] + s;
    forall i, j | 0 <= i < j < |t| ensures Precedes(o, t[i], t[j]) {
      if i == 0 {
        assert t[j] == s[j - 1];
        assert t[j] in s;
      } else {
        assert t[i] == s[i - 1] && t[j] == s[j - 1];
      }
    }
  }

  /** Places `x` into a sorted list, before the first element it may precede. */
  function Insert(o: Order, x: Summary, s: seq<Summary>): (r: seq<Summary>)
    requires SortedBy(o, s)
    ensures SortedBy(o, r)
    ensures |r| == |s| + 1
    ensures multiset(r) == multiset(s) + multiset{x}
  {
    if s == [] then [x]
    else if Precedes(o, x, s[0]) then
      assert forall y :: y in s ==> Precedes(o, x, y) by {
        forall y | y in s ensures Precedes(o, x, y) {
          var k :| 0 <= k < |s| && s[k] == y;
          if k > 0 { PrecedesTransitive(o, x, s[0], y); }
        }
      }
      SortedCons(o, x, s);
      [x] + s
    else
      var t := Insert(o, x, s[1..]);
      assert s == [s[0]] + s[1..];
      assert forall y :: y in t ==> Precedes(o, s[0], y) by {
        forall y | y in t ensures Precedes(o, s[0], y) {
          assert y in multiset(t);
          if y == x { PrecedesTotal(o, x, s[0]); }
          else {
            assert y in multiset(s[1..]);
            var k :| 0 <= k < |s[1..]| && s[1..][k] == y;
            assert s[k + 1] == y;
          }
        }
      }
      SortedCons(o, s[0], t);
      [s[0]] + t
  }

  /** Sorting, as the store does for `orderBy`: a sorted rearrangement of the rows. */
  function Sort(o: Order, s: seq<Summary>): (r: seq<Summary>)
    ensures SortedBy(o, r)
    ensures |r| == |s|
    ensures multiset(r) == multiset(s)
  {
    if s == [] then []
    else
      assert s == [s[0]] + s[1..];
      Insert(o, s[0], Sort(o, s[1..]))
  }

  // ------------------------------------------------------------ the window

  function Min(a: int, b: int): int { if a < b then a else b }
  function Max(a: int, b: int): int { if a < b then b else a }

  /**
   * `skip`/`take` on an ordered result: a non-negative take reads forwards
   * from position `skip`; a negative take reads backwards from the end,
   * after skipping `skip` from the end. A negative skip is refused.
   */
  function Window<T>(s: seq<T>, skip: int, take: int): (r: Option<seq<T>>)
    ensures r.None? <==> skip < 0
    ensures r.Some? ==> |r.value| <= if take >= 0 then take else -take
    ensures r.Some? && take >= 0 ==>
              |r.value| == Max(0, Min(take, |s| - skip)) && r.value == s[Min(skip, |s|)..Min(skip, |s|) + |r.value|]
    ensures r.Some? && take < 0 ==>
              |r.value| == Max(0, Min(-take, |s| - skip)) &&
              r.value == s[Max(0, |s| - skip) - |r.value| .. Max(0, |s| - skip)]
  {
    if skip < 0 then None
    else if take >= 0 then
      Some(s[Min(skip, |s|)..Min(skip + take, |s|)])
    else
      var e := Max(|s| - skip, 0);
      Some(s[Max(e + take, 0)..e])
  }

  lemma {:induction false} SliceSorted(o: Order, s: seq<Summary>, b: int, e: int)
    requires 0 <= b <= e <= |s| && SortedBy(o, s)
    ensures SortedBy(o, s[b..e])
  {
    var t := s[b..e];
    forall i, j | 0 <= i < j < |t| ensures Precedes(o, t[i], t[j]) {
      assert t[i] == s[b + i] && t[j] == s[b + j];
    }
  }

  lemma {:induction false} SliceMultiset<T>(s: seq<T>, b: int, e: int)
    requires 0 <= b <= e <= |s|
    ensures multiset(s[b..e]) <= multiset(s)
  {
    assert s == s[..b] + s[b..e] + s[e..];
    assert multiset(s) == multiset(s[..b]) + multiset(s[b..e]) + multiset(s[e..]);
  }

  // --------------------------------------------------------- list endpoints

  /** The `where` conditions of the list endpoints. */
  datatype Filter =
    | Everything
    | ReleasedAfter(today: int)
    | ReleasedBetween(start: int, end: int)
    | InGenres(ids: set<int>)
    | TitleContains(q: string)

  /** ASCII case folding, the part of the store's case-insensitive match this model covers. */
  function Fold(s: string): (r: string)
    ensures |r| == |s|
    ensures forall i :: 0 <= i < |s| ==> 'A' <= s[i] <= 'Z' ==> r[i] as int == s[i] as int + 32
    ensures forall i :: 0 <= i < |s| ==> !('A' <= s[i] <= 'Z') ==> r[i] == s[i]
    ensures forall i :: 0 <= i < |r| ==> !('A' <= r[i] <= 'Z')
  {
    if s == [] then []
    else
      var c := s[0];
      [if 'A' <= c <= 'Z' then (c as int + 32) as char else c] + Fold(s[1..])
  }

  /** Folding twice is folding once. */
  lemma FoldIdempotent(s: string)
    ensures Fold(Fold(s)) == Fold(s)
  {
    var t := Fold(s);
    assert forall i :: 0 <= i < |t| ==> Fold(t)[i] == t[i];
  }

  /** SQL `LIKE '%p%'` with the pattern taken literally: `p` occurs somewhere in `s`. */
  predicate IsInfix(p: string, s: string)
    decreases |s|
  {
    (|p| <= |s| && s[..|p|] == p) || (s != [] && IsInfix(p, s[1..]))
  }

  /** `p` occurs in `s` at position `i`. */
  predicate OccursAt(p: string, s: string, i: int) {
    0 <= i && i + |p| <= |s| && s[i..i + |p|] == p
  }

  /** An occurrence in the tail is an occurrence one position further on in the text. */
  lemma OccursShift(p: string, s: string, i: int)
    requires s != [] && 0 <= i
    ensures OccursAt(p, s[1..], i) <==> OccursAt(p, s, i + 1)
  {
    if i + |p| <= |s[1..]| {
      assert s[1..][i..i + |p|] == s[i + 1..i + 1 + |p|];
    }
  }

  /** `IsInfix` holds exactly when the pattern occurs at some position of the text. */
  lemma {:induction false} InfixOccurs(p: string, s: string)
    ensures IsInfix(p, s) <==> exists i :: OccursAt(p, s, i)
    decreases |s|
  {
    if s == [] {
      if p == [] {
        assert OccursAt(p, s, 0);
      }
    } else if |p| <= |s| && s[..|p|] == p {
      assert OccursAt(p, s, 0);
    } else {
      InfixOccurs(p, s[1..]);
      assert !OccursAt(p, s, 0);
      if exists i :: OccursAt(p, s[1..], i) {
        var i :| OccursAt(p, s[1..], i);
        OccursShift(p, s, i);
      }
      if exists i :: OccursAt(p, s, i) {
        var i :| OccursAt(p, s, i);
        OccursShift(p, s, i - 1);
      }
    }
  }

  /** Two sets meet exactly when some element lies in both. */
  lemma SharedMember(a: set<int>, b: set<int>)
    ensures a * b != {} <==> exists g :: g in a && g in b
  {
    if exists g :: g in a && g in b {
      var g :| g in a && g in b;
      assert g in a * b;
    } else {
      assert forall g :: g !in a * b;
      assert a * b == {};
    }
  }

  predicate Matches(f: Filter, m: Movie)
    ensures f.Everything? ==> Matches(f, m)
    ensures (f.ReleasedAfter? || f.ReleasedBetween?) && m.releaseDate.None? ==> !Matches(f, m)
    ensures f.ReleasedAfter? ==> (Matches(f, m) <==> m.releaseDate.Some? && m.releaseDate.value > f.today)
    ensures f.ReleasedBetween? ==>
              (Matches(f, m) <==> m.releaseDate.Some? && f.start <= m.releaseDate.value <= f.end)
    ensures f.InGenres? && (f.ids == {} || m.genreIds == {}) ==> !Matches(f, m)
    ensures f.InGenres? ==> (Matches(f, m) <==> exists g :: g in m.genreIds && g in f.ids)
    ensures f.TitleContains? ==>
              (Matches(f, m) <==> m.title.Some? && IsInfix(Fold(f.q), Fold(m.title.value)))
    ensures f.TitleContains? && f.q == [] ==> (Matches(f, m) <==> m.title.Some?)
  {
    match f
    case Everything => true
    case ReleasedAfter(today) => m.releaseDate.Some? && m.releaseDate.value > today
    case ReleasedBetween(start, end) => m.releaseDate.Some? && start <= m.releaseDate.value <= end
    case InGenres(ids) =>
      SharedMember(m.genreIds, ids);
      m.genreIds * ids != {}
    case TitleContains(q) => m.title.Some? && IsInfix(Fold(q), Fold(m.title.value))
  }

  /** `x` is the selected columns of some row the filter keeps. */
  predicate Kept(rows: seq<Movie>, f: Filter, x: Summary) {
    exists m :: m in rows && Matches(f, m) && Project(m) == x
  }

  /** The selected columns of the rows the filter keeps, in table order. */
  function Candidates(rows: seq<Movie>, f: Filter): (r: seq<Summary>)
    ensures |r| <= |rows|
    ensures forall x :: x in r ==> Kept(rows, f, x)
    ensures forall m :: m in rows && Matches(f, m) ==> Project(m) in r
  {
    if rows == [] then []
    else
      var rest := Candidates(rows[1..], f);
      assert forall m :: m in rows[1..] ==> m in rows;
      assert forall m :: m in rows ==> m == rows[0] || m in rows[1..];
      if Matches(f, rows[0]) then [Project(rows[0])] + rest else rest
  }

  /** Filtering a table split in two filters each part and keeps the parts in order. */
  lemma {:induction false} CandidatesAppend(a: seq<Movie>, b: seq<Movie>, f: Filter)
    ensures Candidates(a + b, f) == Candidates(a, f) + Candidates(b, f)
    decreases |a|
  {
    if a == [] {
      assert a + b == b;
    } else {
      assert (a + b)[0] == a[0];
      assert (a + b)[1..] == a[1..] + b;
      CandidatesAppend(a[1..], b, f);
    }
  }

  /** A single row is kept, projected, exactly when the filter matches it. */
  lemma CandidatesOne(m: Movie, f: Filter)
    ensures Candidates([m], f) == if Matches(f, m) then [Project(m)] else []
  {
    assert [m][1..] == [];
  }

  /** Without a filter every row is kept, in table order. */
  lemma {:induction false} CandidatesEverything(rows: seq<Movie>)
    ensures |Candidates(rows, Everything)| == |rows|
    ensures forall i :: 0 <= i < |rows| ==> Candidates(rows, Everything)[i] == Project(rows[i])
  {
    if rows != [] {
      CandidatesEverything(rows[1..]);
      assert Candidates(rows, Everything) == [Project(rows[0])] + Candidates(rows[1..], Everything);
    }
  }

  datatype Listing = Results(results: seq<Summary>) | Refused

  /**
   * `w` is the window `p` cuts from the ordered candidates `s`: a non-negative take reads forwards from position `skip`, a
   * negative one backwards from `skip` before the end.
   */
  predicate IsPage(s: seq<Summary>, p: Page, w: seq<Summary>) {
    && p.skip >= 0
    && (p.take >= 0 ==> w == s[Min(p.skip, |s|)..Min(p.skip + p.take, |s|)])
    && (p.take >= 0 ==> |w| == Max(0, Min(p.take, |s| - p.skip)))
    && (p.take < 0 ==> w == s[Max(0, Max(0, |s| - p.skip) + p.take)..Max(0, |s| - p.skip)])
  }

  /**
   * A list query: the kept rows' columns, in the endpoint's order, cut to
   * the page window. Every result comes from a kept row (each at most as
   * often as it occurs), the results are in order, and there are at most
   * as many as the page size asks for.
   */
  function List(rows: seq<Movie>, f: Filter, o: Order, p: Page): (r: Listing)
    ensures r.Refused? <==> p.skip < 0
    ensures r.Results? ==> |r.results| <= if p.take >= 0 then p.take else -p.take
    ensures r.Results? ==> SortedBy(o, r.results)
    ensures r.Results? ==> multiset(r.results) <= multiset(Candidates(rows, f))
    ensures r.Results? ==> forall x :: x in r.results ==> Kept(rows, f, x)
    ensures r.Results? ==> IsPage(Sort(o, Candidates(rows, f)), p, r.results)
  {
    var candidates := Candidates(rows, f);
    var sorted := Sort(o, candidates);
    var w := Window(sorted, p.skip, p.take);
    if w.None? then Refused
    else
      WindowIsPage(sorted, p);
      WindowFacts(o, sorted, p.skip, p.take);
      SubMultisetKept(rows, f, w.value, candidates);
      Results(w.value)
  }

  /** The window as the slice it is, for a non-negative skip. */
  lemma WindowSlice<T>(s: seq<T>, skip: int, take: int)
    requires skip >= 0
    ensures take >= 0 ==> Window(s, skip, take) == Some(s[Min(skip, |s|)..Min(skip + take, |s|)])
    ensures take < 0 ==> Window(s, skip, take) == Some(s[Max(0, Max(0, |s| - skip) + take)..Max(0, |s| - skip)])
    ensures take >= 0 ==> |Window(s, skip, take).value| == Max(0, Min(take, |s| - skip))
  {
  }

  lemma WindowIsPage(s: seq<Summary>, p: Page)
    requires p.skip >= 0
    ensures IsPage(s, p, Window(s, p.skip, p.take).value)
  {
    WindowSlice(s, p.skip, p.take);
  }

  /**
   * `r` is what a list endpoint answers to the page queries over the
   * ordered candidates `s`: refused exactly when a negative page size
   * meets a page after the first; otherwise the page window, which for a
   * non-negative size holds as many rows as remain after the skipped
   * pages, up to the page size.
   */
  predicate Answers(r: Listing, s: seq<Summary>, pageQ: Option<string>, sizeQ: Option<string>) {
    var p := Paging(pageQ, sizeQ);
    && (r.Refused? <==> NegativeQuery(sizeQ) && p.page > 1)
    && (!NegativeQuery(sizeQ) ==> r.Results? && |r.results| == Max(0, Min(p.take, |s| - p.skip)))
    && (r.Results? ==> IsPage(s, p, r.results))
  }

  /** A list query answers its page queries over its ordered candidates. */
  lemma ListAnswers(rows: seq<Movie>, f: Filter, o: Order, pageQ: Option<string>, sizeQ: Option<string>)
    ensures Answers(List(rows, f, o, Paging(pageQ, sizeQ)), Sort(o, Candidates(rows, f)), pageQ, sizeQ)
  {
    var p := Paging(pageQ, sizeQ);
    var r := List(rows, f, o, p);
    assert r.Refused? <==> NegativeQuery(sizeQ) && p.page > 1;
    assert r.Results? ==> IsPage(Sort(o, Candidates(rows, f)), p, r.results);
  }

  /** A page window of a sorted list is sorted and takes nothing the list does not hold. */
  lemma WindowFacts(o: Order, s: seq<Summary>, skip: int, take: int)
    requires SortedBy(o, s) && skip >= 0
    ensures SortedBy(o, Window(s, skip, take).value)
    ensures multiset(Window(s, skip, take).value) <= multiset(s)
  {
    var w := Window(s, skip, take).value;
    var b := if take >= 0 then Min(skip, |s|) else Max(0, |s| - skip) - |w|;
    assert w == s[b..b + |w|];
    SliceSorted(o, s, b, b + |w|);
    SliceMultiset(s, b, b + |w|);
  }

  lemma SubMultisetKept(rows: seq<Movie>, f: Filter, w: seq<Summary>, candidates: seq<Summary>)
    requires candidates == Candidates(rows, f)
    requires multiset(w) <= multiset(candidates)
    ensures forall x :: x in w ==> Kept(rows, f, x)
  {
    forall x | x in w ensures Kept(rows, f, x) {
      assert x in multiset(w);
      assert x in candidates;
    }
  }

  /** Page 2 of size 10 is items 11 to 20 of the ordered result. */
  lemma SecondPage(rows: seq<Movie>, f: Filter, o: Order)
    requires |Candidates(rows, f)| >= 20
    ensures List(rows, f, o, Paging(Some("2"), Some("10"))) == Results(Sort(o, Candidates(rows, f))[10..20])
  {
    PagingSecondPage();
    var s := Sort(o, Candidates(rows, f));
    var r := List(rows, f, o, Page(2, 10, 10, 10));
    assert r.Results? && IsPage(s, Page(2, 10, 10, 10), r.results);
  }

  /** GET /movies/popular. */
  function Popular(rows: seq<Movie>, pageQ: Option<string>, sizeQ: Option<string>): (r: Listing)
    ensures Answers(r, Sort(ByPopularity, Candidates(rows, Everything)), pageQ, sizeQ)
    ensures r.Results? && !NegativeQuery(sizeQ) ==> |r.results| <= MaxPageSize
    ensures r.Results? ==> forall i, j :: 0 <= i < j < |r.results| ==> r.results[i].popularity >= r.results[j].popularity
  {
    ListAnswers(rows, Everything, ByPopularity, pageQ, sizeQ);
    List(rows, Everything, ByPopularity, Paging(pageQ, sizeQ))
  }

  /** GET /movies/top_rated. */
  function TopRated(rows: seq<Movie>, pageQ: Option<string>, sizeQ: Option<string>): (r: Listing)
    ensures Answers(r, Sort(ByRating, Candidates(rows, Everything)), pageQ, sizeQ)
    ensures r.Results? && !NegativeQuery(sizeQ) ==> |r.results| <= MaxPageSize
    ensures r.Results? ==> forall i, j :: 0 <= i < j < |r.results| ==>
              r.results[i].voteAverage > r.results[j].voteAverage ||
              (r.results[i].voteAverage == r.results[j].voteAverage && r.results[i].voteCount >= r.results[j].voteCount)
  {
    ListAnswers(rows, Everything, ByRating, pageQ, sizeQ);
    List(rows, Everything, ByRating, Paging(pageQ, sizeQ))
  }

  /** Every result carries a release date. */
  predicate AllDated(s: seq<Summary>) {
    forall i :: 0 <= i < |s| ==> s[i].releaseDate.Some?
  }

  /** In date order, dated results have their dates in order. */
  lemma {:induction false} DatedOrder(o: Order, s: seq<Summary>)
    requires o == ByReleaseAsc || o == ByReleaseDesc
    requires SortedBy(o, s) && AllDated(s)
    ensures forall i, j :: 0 <= i < j < |s| ==>
              if o == ByReleaseAsc then s[i].releaseDate.value <= s[j].releaseDate.value
              else s[i].releaseDate.value >= s[j].releaseDate.value
  {
    forall i, j | 0 <= i < j < |s|
      ensures if o == ByReleaseAsc then s[i].releaseDate.value <= s[j].releaseDate.value
              else s[i].releaseDate.value >= s[j].releaseDate.value
    {
      assert Precedes(o, s[i], s[j]);
    }
  }

  /** GET /movies/upcoming: only movies released after the start of today, soonest first. */
  function Upcoming(rows: seq<Movie>, today: int, pageQ: Option<string>, sizeQ: Option<string>): (r: Listing)
    ensures Answers(r, Sort(ByReleaseAsc, Candidates(rows, ReleasedAfter(today))), pageQ, sizeQ)
    ensures r.Results? && !NegativeQuery(sizeQ) ==> |r.results| <= MaxPageSize
    ensures r.Results? ==> AllDated(r.results)
    ensures r.Results? ==> forall i :: 0 <= i < |r.results| ==> r.results[i].releaseDate.value > today
    ensures r.Results? ==> forall i, j :: 0 <= i < j < |r.results| ==>
              r.results[i].releaseDate.value <= r.results[j].releaseDate.value
  {
    var f := ReleasedAfter(today);
    ListAnswers(rows, f, ByReleaseAsc, pageQ, sizeQ);
    var r := List(rows, f, ByReleaseAsc, Paging(pageQ, sizeQ));
    if r.Refused? then r
    else
      KeptDates(rows, f, r.results);
      DatedOrder(ByReleaseAsc, r.results);
      r
  }

  /** Results kept by a date filter carry a date the filter accepts. */
  lemma KeptDates(rows: seq<Movie>, f: Filter, w: seq<Summary>)
    requires f.ReleasedAfter? || f.ReleasedBetween?
    requires forall x :: x in w ==> Kept(rows, f, x)
    ensures AllDated(w)
    ensures f.ReleasedAfter? ==> forall i :: 0 <= i < |w| ==> w[i].releaseDate.value > f.today
    ensures f.ReleasedBetween? ==> forall i :: 0 <= i < |w| ==> f.start <= w[i].releaseDate.value <= f.end
  {
    forall i | 0 <= i < |w|
      ensures w[i].releaseDate.Some?
      ensures f.ReleasedAfter? ==> w[i].releaseDate.value > f.today
      ensures f.ReleasedBetween? ==> f.start <= w[i].releaseDate.value <= f.end
    {
      assert w[i] in w;
      assert Kept(rows, f, w[i]);
    }
  }

  const DayMs := 24 * 60 * 60 * 1000

  /** GET /movies/now_playing: movies released in the 90 days up to now, latest first. */
  function NowPlaying(rows: seq<Movie>, now: int, pageQ: Option<string>, sizeQ: Option<string>): (r: Listing)
    ensures Answers(r, Sort(ByReleaseDesc, Candidates(rows, ReleasedBetween(now - 90 * DayMs, now))), pageQ, sizeQ)
    ensures r.Results? && !NegativeQuery(sizeQ) ==> |r.results| <= MaxPageSize
    ensures r.Results? ==> AllDated(r.results)
    ensures r.Results? ==> forall i :: 0 <= i < |r.results| ==>
              now - 90 * DayMs <= r.results[i].releaseDate.value <= now
    ensures r.Results? ==> forall i, j :: 0 <= i < j < |r.results| ==>
              r.results[i].releaseDate.value >= r.results[j].releaseDate.value
  {
    var f := ReleasedBetween(now - 90 * DayMs, now);
    ListAnswers(rows, f, ByReleaseDesc, pageQ, sizeQ);
    var r := List(rows, f, ByReleaseDesc, Paging(pageQ, sizeQ));
    if r.Refused? then r
    else
      KeptDates(rows, f, r.results);
      DatedOrder(ByReleaseDesc, r.results);
      r
  }

  // ---------------------------------------------------------------- discover

  /** `.filter(Boolean)` on texts: the non-empty ones, in order. */
  function NonEmpty(parts: seq<string>): (r: seq<string>)
    ensures |r| <= |parts|
    ensures forall i :: 0 <= i < |r| ==> r[i] != []
  {
    if parts == [] then []
    else (if parts[0] == [] then [] else [parts[0]]) + NonEmpty(parts[1..])
  }

  /** `String(q || "").split(",").filter(Boolean).map(Number)`; `None` entries are NaN. */
  function GenreIds(q: Option<string>): (r: seq<Option<int>>)
    ensures q.None? || q.value == [] ==> r == []
  {
    var text := if q.None? then [] else q.value;
    Numbers(NonEmpty(Split(text, ',')))
  }

  /** `.map(Number)`. */
  function Numbers(parts: seq<string>): (r: seq<Option<int>>)
    ensures |r| == |parts|
    ensures forall i :: 0 <= i < |parts| ==> r[i] == ParseNumber(parts[i])
  {
    seq(|parts|, i requires 0 <= i < |parts| => ParseNumber(parts[i]))
  }

  lemma NumbersAppend(a: seq<string>, b: seq<string>)
    ensures Numbers(a + b) == Numbers(a) + Numbers(b)
  {
    assert forall i :: 0 <= i < |a + b| ==> (a + b)[i] == if i < |a| then a[i] else b[i - |a|];
  }

  /** The comma list a client writes for a list of genre ids. */
  function JoinIds(ids: seq<nat>): string {
    Join(seq(|ids|, i requires 0 <= i < |ids| => Show(ids[i])), ',')
  }

  lemma {:induction false} NonEmptyKeeps(parts: seq<string>)
    requires forall i :: 0 <= i < |parts| ==> parts[i] != []
    ensures NonEmpty(parts) == parts
  {
    if parts != [] {
      NonEmptyKeeps(parts[1..]);
      assert parts == [parts[0]] + parts[1..];
    }
  }

  /** Dropping empty texts from two lists joined is dropping them from each. */
  lemma {:induction false} NonEmptyAppend(a: seq<string>, b: seq<string>)
    ensures NonEmpty(a + b) == NonEmpty(a) + NonEmpty(b)
    decreases |a|
  {
    if a == [] {
      assert a + b == b;
    } else {
      assert (a + b)[0] == a[0];
      assert (a + b)[1..] == a[1..] + b;
      NonEmptyAppend(a[1..], b);
    }
  }

  /** A single text is kept exactly when it is non-empty. */
  lemma NonEmptyOne(p: string)
    ensures NonEmpty([p]) == if p == [] then [] else [p]
  {
    assert [p][1..] == [];
  }

  /** One slot of a comma list as a client may write it: an id, or nothing between two commas. */
  function Segment(x: Option<nat>): string {
    if x.None? then [] else Show(x.value)
  }

  function Segments(xs: seq<Option<nat>>): seq<string> {
    seq(|xs|, i requires 0 <= i < |xs| => Segment(xs[i]))
  }

  /** The ids of the filled slots, in order. */
  function Present(xs: seq<Option<nat>>): (r: seq<Option<int>>)
    ensures |r| <= |xs|
    ensures forall i :: 0 <= i < |r| ==> r[i].Some? && r[i].value >= 0
  {
    if xs == [] then []
    else (if xs[0].None? then [] else [Some(xs[0].value as int)]) + Present(xs[1..])
  }

  /** The numbers read from the non-empty slots are the ids of the filled slots. */
  lemma {:induction false} ReadPresent(xs: seq<Option<nat>>)
    ensures Numbers(NonEmpty(Segments(xs))) == Present(xs)
    decreases |xs|
  {
    if xs != [] {
      var head := Segment(xs[0]);
      var rest := Segments(xs[1..]);
      assert Segments(xs) == [head] + rest;
      NonEmptyAppend([head], rest);
      NumbersAppend(NonEmpty([head]), NonEmpty(rest));
      ReadPresent(xs[1..]);
      assert Numbers(NonEmpty([head])) == if xs[0].None? then [] else [Some(xs[0].value as int)] by {
        NonEmptyOne(head);
        if xs[0].Some? {
          ParseShow(xs[0].value);
          assert head != [] by { assert |Show(xs[0].value)| >= 1; }
        }
      }
    }
  }

  /** Empty slots in a comma list are skipped; the filled ones read back as their ids, in order. */
  lemma GenreIdsWithGaps(xs: seq<Option<nat>>)
    ensures GenreIds(Some(Join(Segments(xs), ','))) == Present(xs)
  {
    var segs := Segments(xs);
    ReadPresent(xs);
    if xs == [] {
      assert Join(segs, ',') == [];
    } else {
      forall i | 0 <= i < |segs| ensures ',' !in segs[i] {
        if xs[i].Some? { assert AllDigits(Show(xs[i].value)); }
      }
      SplitJoin(segs, ',');
    }
  }

  /** A comma list of ids reads back as those ids, in their order. */
  lemma GenreIdsRoundTrip(ids: seq<nat>)
    ensures GenreIds(Some(JoinIds(ids))) == seq(|ids|, i requires 0 <= i < |ids| => Some(ids[i]))
  {
    var shown := seq(|ids|, i requires 0 <= i < |ids| => Show(ids[i]));
    if ids == [] {
      assert JoinIds(ids) == [];
    } else {
      forall i | 0 <= i < |shown| ensures ',' !in shown[i] {
        assert AllDigits(shown[i]);
      }
      SplitJoin(shown, ',');
      NonEmptyKeeps(shown);
      forall i | 0 <= i < |ids| ensures ParseNumber(shown[i]) == Some(ids[i]) {
        ParseShow(ids[i]);
      }
    }
  }

  lemma SplitExample()
    ensures Split("28,,12", ',') == ["28", [], "12"]
  {
    assert Split("12", ',') == ["12"] by {
      assert Split([], ',') == [[]];
      assert Split("2", ',') == ["2"] by {
        assert "2"[1..] == [];
        assert ['2'] + [] == "2";
      }
      assert "12"[1..] == "2";
      assert ['1'] + "2" == "12";
    }
    assert Split(",12", ',') == [[], "12"] by {
      assert ",12"[1..] == "12";
    }
    assert Split(",,12", ',') == [[], [], "12"] by {
      assert ",,12"[1..] == ",12";
    }
    assert Split("8,,12", ',') == ["8", [], "12"] by {
      assert "8,,12"[1..] == ",,12";
      assert ['8'] + [] == "8";
    }
    assert "28,,12"[1..] == "8,,12";
    assert ['2'] + "8" == "28";
  }

  /** Empty segments are dropped and the rest keep their order. */
  lemma NonEmptyExample()
    ensures NonEmpty(["28", [], "12"]) == ["28", "12"]
  {
    var parts: seq<string> := ["28", [], "12"];
    assert parts[1..] == [[], "12"] && parts[1..][1..] == ["12"] && parts[1..][1..][1..] == [];
    assert NonEmpty(["12"]) == ["12"];
    assert NonEmpty([[], "12"]) == ["12"];
  }

  /** The ids a genre list names. */
  function IdSet(ids: seq<Option<int>>): set<int> {
    set i | 0 <= i < |ids| && ids[i].Some? :: ids[i].value
  }

  /**
   * GET /movies/discover: with no ids the list is unfiltered, otherwise
   * it keeps the movies linked to at least one of them; an id that is not
   * a number makes the store refuse the query. Ordered by popularity.
   */
  function Discover(rows: seq<Movie>, withGenres: Option<string>, pageQ: Option<string>, sizeQ: Option<string>): (r: Listing)
    ensures GenreIds(withGenres) == [] ==> r == List(rows, Everything, ByPopularity, Paging(pageQ, sizeQ))
    ensures (exists i :: 0 <= i < |GenreIds(withGenres)| && GenreIds(withGenres)[i].None?) ==> r == Refused
    ensures r.Results? && GenreIds(withGenres) != [] ==>
              forall x :: x in r.results ==> Kept(rows, InGenres(IdSet(GenreIds(withGenres))), x)
    ensures r.Results? ==> SortedBy(ByPopularity, r.results)
    ensures GenreIds(withGenres) != [] && (forall i :: 0 <= i < |GenreIds(withGenres)| ==> GenreIds(withGenres)[i].Some?) ==>
              Answers(r, Sort(ByPopularity, Candidates(rows, InGenres(IdSet(GenreIds(withGenres))))), pageQ, sizeQ)
  {
    var p := Paging(pageQ, sizeQ);
    var ids := GenreIds(withGenres);
    if exists i :: 0 <= i < |ids| && ids[i].None? then Refused
    else if |ids| == 0 then List(rows, Everything, ByPopularity, p)
    else
      ListAnswers(rows, InGenres(IdSet(ids)), ByPopularity, pageQ, sizeQ);
      List(rows, InGenres(IdSet(ids)), ByPopularity, p)
  }

  // ------------------------------------------------------------------ search

  /**
   * GET /movies/search: a missing, empty or blank query answers with no
   * results and leaves the table unconsulted; otherwise the movies whose
   * title contains the trimmed query, ignoring case, most popular first.
   */
  function Search(rows: seq<Movie>, query: Option<string>, pageQ: Option<string>, sizeQ: Option<string>): (r: Listing)
    ensures query.None? || AllSpace(query.value) ==> r == Results([])
    ensures r.Results? && query.Some? ==> forall x :: x in r.results ==>
              x.title.Some? && IsInfix(Fold(Trim(query.value)), Fold(x.title.value))
    ensures r.Results? ==> SortedBy(ByPopularityThenRating, r.results)
    ensures query.Some? && !AllSpace(query.value) ==>
              Answers(r, Sort(ByPopularityThenRating, Candidates(rows, TitleContains(Trim(query.value)))), pageQ, sizeQ)
  {
    var p := Paging(pageQ, sizeQ);
    var q := Trim(if query.None? then [] else query.value);
    if q == [] then Results([])
    else
      ListAnswers(rows, TitleContains(q), ByPopularityThenRating, pageQ, sizeQ);
      var r := List(rows, TitleContains(q), ByPopularityThenRating, p);
      if r.Results? then KeptTitles(rows, q, r.results); r else r
  }

  /** A result kept by a title filter has a title containing the query, ignoring case. */
  lemma KeptTitles(rows: seq<Movie>, q: string, w: seq<Summary>)
    requires forall x :: x in w ==> Kept(rows, TitleContains(q), x)
    ensures forall x :: x in w ==> x.title.Some? && IsInfix(Fold(q), Fold(x.title.value))
  {
    forall x | x in w ensures x.title.Some? && IsInfix(Fold(q), Fold(x.title.value)) {
      assert Kept(rows, TitleContains(q), x);
      var m :| m in rows && Matches(TitleContains(q), m) && Project(m) == x;
    }
  }

  /** A blank query gives the same answer whatever the table holds. */
  lemma BlankSearchIgnoresTable(rows1: seq<Movie>, rows2: seq<Movie>, query: string, pageQ: Option<string>, sizeQ: Option<string>)
    requires AllSpace(query)
    ensures Search(rows1, Some(query), pageQ, sizeQ) == Search(rows2, Some(query), pageQ, sizeQ)
  {
  }

  // ------------------------------------------------------------------ detail

  /** The detail response: the listed columns plus the movie's genres. */
  datatype Detail = Detail(
    id: int,
    title: Option<string>,
    overview: string,
    posterPath: Option<string>,
    backdropPath: Option<string>,
    voteAverage: real,
    voteCount: int,
    releaseDate: Option<int>,
    genres: set<Genre>)

  datatype DetailReply = Found(detail: Detail) | NotFound(statusMessage: string) | BadId

  const MovieNotFound := "Movie not found"

  function StatusOf(d: DetailReply): int
    requires !d.BadId?
  {
    if d.Found? then 200 else 404
  }

  /** `findUnique` by id: the row with that id, if any. */
  function FindById(rows: seq<Movie>, id: int): (r: Option<Movie>)
    ensures r.None? <==> forall m :: m in rows ==> m.id != id
    ensures r.Some? ==> r.value in rows && r.value.id == id
  {
    if rows == [] then None
    else if rows[0].id == id then Some(rows[0])
    else
      assert forall m :: m in rows ==> m == rows[0] || m in rows[1..];
      FindById(rows[1..], id)
  }

  function DetailOf(m: Movie, genreNames: map<int, string>): (d: Detail)
    ensures forall g :: g in d.genres <==> g.id in m.genreIds && g.id in genreNames && g.name == genreNames[g.id]
  {
    Detail(m.id, m.title, m.overview, m.posterPath, m.backdropPath, m.voteAverage, m.voteCount,
           m.releaseDate, set g | g in m.genreIds && g in genreNames :: Genre(g, genreNames[g]))
  }

  /**
   * GET /movies/:id: an id that is not a number is refused by the store;
   * an unknown id gives 404 "Movie not found"; a known id gives exactly
   * the detail columns of that movie and its genres.
   */
  function MovieDetail(rows: seq<Movie>, genreNames: map<int, string>, idText: string): (r: DetailReply)
    ensures r.BadId? <==> ParseNumber(idText).None?
    ensures r.NotFound? <==> ParseNumber(idText).Some? && forall m :: m in rows ==> m.id != ParseNumber(idText).value
    ensures r.NotFound? ==> r.statusMessage == MovieNotFound && StatusOf(r) == 404
    ensures r.Found? ==> exists m :: m in rows && m.id == ParseNumber(idText).value && r.detail == DetailOf(m, genreNames)
  {
    match ParseNumber(idText)
    case None => BadId
    case Some(id) =>
      match FindById(rows, id)
      case None => NotFound(MovieNotFound)
      case Some(m) => Found(DetailOf(m, genreNames))
  }
}
