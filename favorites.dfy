/**
  The favourites list both movie components keep under the key `favoriteMovies`:
  the movie record they store, how a stored element's `id` is read, the `some` and
  `filter` calls over the list, the poster URL, and what one press of the heart
  button decides to write.
 */
module Favorites {
  import opened Wrappers
  import opened JsonValue
  import opened JsonText
  import opened JsonParse
  import opened JsonRoundTrip
  import opened Storage

  const FavoriteMoviesKey: string := "favoriteMovies"
  const ImageBaseUrl: string := "https://image.tmdb.org/t/p/w500"
  const PlaceholderUrl: string := "https://via.placeholder.com/500x750?text=No+Image"

  /** The movie fields the components read. */
  datatype Movie = Movie(
    id: int,
    title: string,
    overview: string,
    posterPath: Option<string>,
    releaseDate: string,
    voteAverage: Number,
    voteCount: int)

  /** The JSON object JSON.stringify writes for a movie pushed onto the list. */
  function MovieJson(m: Movie): Json
  {
    JObj([
      Member("id", JNum(IntNumber(m.id))),
      Member("title", JStr(m.title)),
      Member("overview", JStr(m.overview)),
      Member("poster_path", match m.posterPath case None => JNull case Some(p) => JStr(p)),
      Member("release_date", JStr(m.releaseDate)),
      Member("vote_average", JNum(m.voteAverage)),
      Member("vote_count", JNum(IntNumber(m.voteCount)))])
  }

  // ---- reading `favMovie.id` ----------------------------------------------------

  /** The TypeError a script raises when it reads a property of null. */
  datatype ScriptError = TypeError

  /** What reading a property gives: a TypeError on null, undefined, or a value. */
  datatype Property = NullAccess | Undefined | Found(value: Json)

  /** The value of the last member called name: JSON.parse keeps the last of duplicate keys. */
  function LastMember(members: seq<Member>, name: string): (r: Option<Json>)
    ensures r.None? <==> forall i :: 0 <= i < |members| ==> members[i].name != name
    ensures r.Some? ==> exists i :: (0 <= i < |members| && members[i] == Member(name, r.value)
                                     && forall j :: i < j < |members| ==> members[j].name != name)
  {
    if members == [] then None
    else if members[|members| - 1].name == name then Some(members[|members| - 1].value)
    else LastMember(members[..|members| - 1], name)
  }

  /** `x.id` for a stored element x. */
  function ReadId(x: Json): (p: Property)
    ensures p.NullAccess? <==> x.JNull?
  {
    match x
    case JNull => NullAccess
    case JObj(members) =>
      (match LastMember(members, "id") case Some(v) => Found(v) case None => Undefined)
    case _ => Undefined
  }

  /** `x.id === id`: JSON numbers are canonical, so `===` on numbers is equality. */
  predicate HasId(x: Json, id: int)
  {
    ReadId(x) == Found(JNum(IntNumber(id)))
  }

  /** HasId is JavaScript's `===`: the stored id is a number numerically equal to the given one. */
  lemma HasIdIsNumericEquality(x: Json, id: int)
    ensures HasId(x, id) <==>
      ReadId(x).Found? && ReadId(x).value.JNum? && Value(ReadId(x).value.n) == id as real
  {
    IntNumberValue(id);
    if ReadId(x).Found? && ReadId(x).value.JNum? && Value(ReadId(x).value.n) == id as real {
      CanonicalUnique(ReadId(x).value.n, IntNumber(id));
    }
  }

  lemma MovieJsonId(m: Movie)
    ensures ReadId(MovieJson(m)) == Found(JNum(IntNumber(m.id)))
    ensures HasId(MovieJson(m), m.id)
  {
    var ms := MovieJson(m).members;
    var r := LastMember(ms, "id");
    assert ms[0].name == "id";
    var i :| 0 <= i < |ms| && ms[i] == Member("id", r.value) && forall j :: i < j < |ms| ==> ms[j].name != "id";
    assert i == 0;
  }

  // ---- `some` and `filter` ------------------------------------------------------

  /**
    `xs.some(favMovie => favMovie.id === id)`: true at the first element with the id,
    a TypeError at a null met before any such element.
   */
  function SomeHasId(xs: seq<Json>, id: int): (r: Result<bool, ScriptError>)
    ensures r.Success? ==> (r.value <==> exists i :: 0 <= i < |xs| && HasId(xs[i], id))
    ensures r.Failure? <==> exists i :: (0 <= i < |xs| && xs[i] == JNull
                                         && forall j :: 0 <= j < i ==> !HasId(xs[j], id))
  {
    if xs == [] then Success(false)
    else if xs[0] == JNull then Failure(TypeError)
    else if HasId(xs[0], id) then Success(true)
    else
      var r := SomeHasId(xs[1..], id);
      assert forall i :: 0 < i < |xs| ==> xs[i] == xs[1..][i - 1];
      r
  }

  /** The elements of a, in order, form a subsequence of b. */
  predicate Subsequence(a: seq<Json>, b: seq<Json>)
    decreases |b|
  {
    if a == [] then true
    else if b == [] then false
    else if a[0] == b[0] then Subsequence(a[1..], b[1..])
    else Subsequence(a, b[1..])
  }

  /**
    `xs.filter(favMovie => favMovie.id !== id)`: the elements without the id, in their
    order; a TypeError when any element is null, since every element is tested.
   */
  function FilterOutId(xs: seq<Json>, id: int): (r: Result<seq<Json>, ScriptError>)
    ensures r.Failure? <==> JNull in xs
    ensures r.Success? ==> forall x :: x in r.value <==> x in xs && !HasId(x, id)
    ensures r.Success? ==> Subsequence(r.value, xs)
    ensures r.Success? ==> forall x :: multiset(r.value)[x] == if HasId(x, id) then 0 else multiset(xs)[x]
  {
    if xs == [] then Success([])
    else if xs[0] == JNull then Failure(TypeError)
    else
      match FilterOutId(xs[1..], id)
      case Failure(e) => Failure(e)
      case Success(kept) =>
        assert xs == [xs[0]] + xs[1..];
        if HasId(xs[0], id) then
          assert kept != [] ==> kept[0] in kept;
          Success(kept)
        else
          assert ([xs[0]] + kept)[1..] == kept;
          Success([xs[0]] + kept)
  }

  /** Filtering a list that has no element with the id writes the same list back. */
  lemma {:induction false} FilterNothingMatches(xs: seq<Json>, id: int)
    requires JNull !in xs
    requires forall i :: 0 <= i < |xs| ==> !HasId(xs[i], id)
    ensures FilterOutId(xs, id) == Success(xs)
  {
    if xs != [] {
      assert xs[0] != JNull;
      FilterNothingMatches(xs[1..], id);
      assert [xs[0]] + xs[1..] == xs;
    }
  }

  // ---- distinct ids -------------------------------------------------------------

  /** No two elements carry the same id. */
  predicate UniqueIds(xs: seq<Json>)
  {
    forall i, j :: 0 <= i < j < |xs| && ReadId(xs[i]).Found? ==> ReadId(xs[i]) != ReadId(xs[j])
  }

  lemma {:induction false} SubsequenceMembers(a: seq<Json>, b: seq<Json>)
    requires Subsequence(a, b)
    ensures forall x :: x in a ==> x in b
    decreases |b|
  {
    if a != [] && b != [] {
      if a[0] == b[0] {
        SubsequenceMembers(a[1..], b[1..]);
        assert forall x :: x in a ==> x == a[0] || x in a[1..];
      } else {
        SubsequenceMembers(a, b[1..]);
      }
    }
  }

  lemma UniqueTail(xs: seq<Json>)
    requires xs != [] && UniqueIds(xs)
    ensures UniqueIds(xs[1..])
    ensures ReadId(xs[0]).Found? ==> forall x :: x in xs[1..] ==> ReadId(x) != ReadId(xs[0])
  {
    forall i, j | 0 <= i < j < |xs[1..]| && ReadId(xs[1..][i]).Found?
      ensures ReadId(xs[1..][i]) != ReadId(xs[1..][j])
    {
      assert xs[1..][i] == xs[i + 1] && xs[1..][j] == xs[j + 1];
    }
    if ReadId(xs[0]).Found? {
      forall x | x in xs[1..]
        ensures ReadId(x) != ReadId(xs[0])
      {
        var j :| 0 <= j < |xs[1..]| && xs[1..][j] == x;
        assert xs[j + 1] == x;
      }
    }
  }

  /** Keeping some of the elements, in order, keeps the ids distinct. */
  lemma {:induction false} SubsequenceKeepsUniqueIds(a: seq<Json>, b: seq<Json>)
    requires Subsequence(a, b) && UniqueIds(b)
    ensures UniqueIds(a)
    decreases |b|
  {
    if a != [] && b != [] {
      UniqueTail(b);
      if a[0] == b[0] {
        SubsequenceKeepsUniqueIds(a[1..], b[1..]);
        SubsequenceMembers(a[1..], b[1..]);
        forall i, j | 0 <= i < j < |a| && ReadId(a[i]).Found?
          ensures ReadId(a[i]) != ReadId(a[j])
        {
          assert a[j] == a[1..][j - 1];
          if i > 0 {
            assert a[i] == a[1..][i - 1];
          } else {
            assert a[j] in a[1..];
          }
        }
      } else {
        SubsequenceKeepsUniqueIds(a, b[1..]);
      }
    }
  }

  /** Appending a movie whose id no element has keeps the ids distinct. */
  lemma AppendKeepsUniqueIds(xs: seq<Json>, m: Movie)
    requires UniqueIds(xs)
    requires forall i :: 0 <= i < |xs| ==> !HasId(xs[i], m.id)
    ensures UniqueIds(xs + [MovieJson(m)])
  {
    MovieJsonId(m);
    var ys := xs + [MovieJson(m)];
    forall i, j | 0 <= i < j < |ys| && ReadId(ys[i]).Found?
      ensures ReadId(ys[i]) != ReadId(ys[j])
    {
      assert ys[i] == xs[i];
      if j == |xs| {
        assert !HasId(xs[i], m.id);
      } else {
        assert ys[j] == xs[j];
      }
    }
  }

  // ---- the stored list ----------------------------------------------------------

  /** getItem gave an array. */
  predicate IsArray(stored: ReadResult)
  {
    stored.Parsed? && stored.value.JArr?
  }

  /** The list a toggle starts from: the stored array, or `[]` for anything else. */
  function StoredList(stored: ReadResult): (xs: seq<Json>)
    ensures !IsArray(stored) ==> xs == []
    ensures IsArray(stored) ==> JArr(xs) == stored.value
  {
    if IsArray(stored) then stored.value.items else []
  }

  /**
    checkIfFavorite's decision: the new flag when the stored value is an array and the
    `some` call returns, None when the flag is left as it was.
   */
  function CheckFavorite(stored: ReadResult, id: int): (r: Option<bool>)
    ensures !IsArray(stored) ==> r.None?
    ensures IsArray(stored) && JNull !in StoredList(stored) ==> r.Some?
    ensures r == Some(true) ==> exists i :: 0 <= i < |StoredList(stored)| && HasId(StoredList(stored)[i], id)
    ensures r == Some(false) ==> forall i :: 0 <= i < |StoredList(stored)| ==> !HasId(StoredList(stored)[i], id)
  {
    if IsArray(stored) then
      match SomeHasId(stored.value.items, id)
      case Success(found) => Some(found)
      case Failure(_) => None
    else None
  }

  /** `some` returns true at a match that comes before every null, whatever follows it. */
  lemma {:induction false} SomeHasIdFirstMatch(xs: seq<Json>, id: int, i: int)
    requires 0 <= i < |xs| && HasId(xs[i], id)
    requires forall j :: 0 <= j < i ==> xs[j] != JNull
    ensures SomeHasId(xs, id) == Success(true)
  {
    if i > 0 && !HasId(xs[0], id) {
      assert xs[0] != JNull;
      SomeHasIdFirstMatch(xs[1..], id, i - 1);
    }
  }

  /** checkIfFavorite leaves the flag as it was exactly when the value is not an array or `some` meets a null before any match. */
  lemma CheckFavoriteUndecided(stored: ReadResult, id: int)
    ensures var xs := StoredList(stored);
      CheckFavorite(stored, id).None? <==>
        !IsArray(stored) || exists i :: (0 <= i < |xs| && xs[i] == JNull && forall j :: 0 <= j < i ==> !HasId(xs[j], id))
  {
  }

  /** checkIfFavorite sets the flag whenever a match comes before every null. */
  lemma CheckFavoriteFirstMatch(stored: ReadResult, id: int, i: int)
    requires IsArray(stored)
    requires 0 <= i < |StoredList(stored)| && HasId(StoredList(stored)[i], id)
    requires forall j :: 0 <= j < i ==> StoredList(stored)[j] != JNull
    ensures CheckFavorite(stored, id) == Some(true)
  {
    SomeHasIdFirstMatch(StoredList(stored), id, i);
  }

  /**
    What one press of the heart button does: write a new list and set the flag, leave
    everything as it was, or raise a TypeError that the component catches.
   */
  datatype Toggle = Write(list: seq<Json>, flag: bool) | Unchanged | Thrown(error: ScriptError)

  /**
    handleFavoriteToggle's decision, from what getItem gave and the component's cached
    flag: remove every element with the movie's id, or append the movie when no
    element has its id; a TypeError from `some` or `filter` stops before any write.
   */
  function PlanToggle(stored: ReadResult, isFavorite: bool, movie: Movie): (p: Toggle)
    ensures p.Write? ==> p.flag == !isFavorite
    ensures p.Unchanged? ==> !isFavorite
    ensures p.Thrown? ==> JNull in StoredList(stored)
  {
    var favorites := StoredList(stored);
    if isFavorite then
      match FilterOutId(favorites, movie.id)
      case Success(updated) => Write(updated, false)
      case Failure(e) => Thrown(e)
    else
      match SomeHasId(favorites, movie.id)
      case Success(alreadyExists) => if alreadyExists then Unchanged else Write(favorites + [MovieJson(movie)], true)
      case Failure(e) => Thrown(e)
  }

  /**
    With the flag set, the written list is the stored one without the movie's id: every
    other element as often as it was stored, in order. The write happens even when
    nothing matched.
   */
  lemma RemovalWritesFiltered(stored: ReadResult, movie: Movie)
    requires JNull !in StoredList(stored)
    ensures PlanToggle(stored, true, movie).Write?
    ensures var w := PlanToggle(stored, true, movie);
      !w.flag && Subsequence(w.list, StoredList(stored))
      && (forall x :: x in w.list <==> x in StoredList(stored) && !HasId(x, movie.id))
      && forall x :: multiset(w.list)[x] == if HasId(x, movie.id) then 0 else multiset(StoredList(stored))[x]
    ensures (forall i :: 0 <= i < |StoredList(stored)| ==> !HasId(StoredList(stored)[i], movie.id))
      ==> PlanToggle(stored, true, movie) == Write(StoredList(stored), false)
  {
    if forall i :: 0 <= i < |StoredList(stored)| ==> !HasId(StoredList(stored)[i], movie.id) {
      FilterNothingMatches(StoredList(stored), movie.id);
    }
  }

  /** With the flag clear and no element with the movie's id, the movie is appended at the end. */
  lemma AddAppendsAtEnd(stored: ReadResult, movie: Movie)
    requires JNull !in StoredList(stored)
    requires forall i :: 0 <= i < |StoredList(stored)| ==> !HasId(StoredList(stored)[i], movie.id)
    ensures PlanToggle(stored, false, movie) == Write(StoredList(stored) + [MovieJson(movie)], true)
  {
  }

  /** With the flag clear and an element with the movie's id stored before any null, nothing is written. */
  lemma AlreadyPresentUnchanged(stored: ReadResult, movie: Movie, i: int)
    requires 0 <= i < |StoredList(stored)| && HasId(StoredList(stored)[i], movie.id)
    requires forall j :: 0 <= j < i ==> StoredList(stored)[j] != JNull
    ensures PlanToggle(stored, false, movie) == Unchanged
  {
    assert SomeHasId(StoredList(stored), movie.id).Success?;
  }

  /** A toggle throws exactly when `filter` meets a null, or `some` meets one before a match. */
  lemma ToggleThrows(stored: ReadResult, isFavorite: bool, movie: Movie)
    ensures var xs := StoredList(stored);
      PlanToggle(stored, isFavorite, movie).Thrown? <==>
        if isFavorite then JNull in xs
        else exists i :: 0 <= i < |xs| && xs[i] == JNull && forall j :: 0 <= j < i ==> !HasId(xs[j], movie.id)
  {
  }

  /** Either branch writes a list with distinct ids when the stored list had them. */
  lemma ToggleKeepsUniqueIds(stored: ReadResult, isFavorite: bool, movie: Movie)
    requires UniqueIds(StoredList(stored))
    ensures PlanToggle(stored, isFavorite, movie).Write? ==> UniqueIds(PlanToggle(stored, isFavorite, movie).list)
  {
    var favorites := StoredList(stored);
    match PlanToggle(stored, isFavorite, movie)
    case Unchanged =>
    case Thrown(_) =>
    case Write(list, _) =>
      if isFavorite {
        SubsequenceKeepsUniqueIds(list, favorites);
      } else {
        AppendKeepsUniqueIds(favorites, movie);
      }
  }

  /**
    After a toggle writes, checkIfFavorite on the stored text agrees with the flag the
    toggle set: the list written is read back as the same array.
   */
  lemma ToggleAgreesWithCheck(stored: ReadResult, isFavorite: bool, movie: Movie)
    requires PlanToggle(stored, isFavorite, movie).Write?
    ensures var w := PlanToggle(stored, isFavorite, movie);
      CheckFavorite(DecodeText(Serialize(JArr(w.list))), movie.id) == Some(w.flag)
  {
    var w := PlanToggle(stored, isFavorite, movie);
    ParseStringify(JArr(w.list));
    assert DecodeText(Serialize(JArr(w.list))) == Parsed(JArr(w.list));
    var favorites := StoredList(stored);
    if isFavorite {
      assert JNull !in w.list;
      assert forall i :: 0 <= i < |w.list| ==> !HasId(w.list[i], movie.id) by {
        forall i | 0 <= i < |w.list|
          ensures !HasId(w.list[i], movie.id)
        {
          assert w.list[i] in w.list;
        }
      }
    } else {
      MovieJsonId(movie);
      assert w.list[|favorites|] == MovieJson(movie);
    }
  }

  /** Starting from an empty store with the flag clear, two toggles leave the text `[]`. */
  lemma ToggleTwiceFromEmpty(movie: Movie)
    ensures PlanToggle(Absent, false, movie) == Write([MovieJson(movie)], true)
    ensures PlanToggle(DecodeText(Serialize(JArr([MovieJson(movie)]))), true, movie) == Write([], false)
    ensures Serialize(JArr([])) == "[]"
  {
    assert [] + [MovieJson(movie)] == [MovieJson(movie)];
    var stored := DecodeText(Serialize(JArr([MovieJson(movie)])));
    ParseStringify(JArr([MovieJson(movie)]));
    assert StoredList(stored) == [MovieJson(movie)];
    FilterOnlyMovie(movie);
  }

  lemma FilterOnlyMovie(movie: Movie)
    ensures FilterOutId([MovieJson(movie)], movie.id) == Success([])
  {
    MovieJsonId(movie);
    assert [MovieJson(movie)][1..] == [];
  }

  // ---- the poster URL -----------------------------------------------------------

  /** poster_path is truthy: present and not the empty string. */
  predicate HasPoster(m: Movie)
  {
    m.posterPath.Some? && m.posterPath.value != ""
  }

  /** The `imageUrl` both components show. */
  function ImageUrl(m: Movie): (url: string)
    ensures HasPoster(m) ==> ImageBaseUrl <= url && |url| == |ImageBaseUrl| + |m.posterPath.value|
                               && url[|ImageBaseUrl|..] == m.posterPath.value
    ensures !HasPoster(m) ==> url == PlaceholderUrl
  {
    if HasPoster(m) then ImageBaseUrl + m.posterPath.value else PlaceholderUrl
  }

  /** The URL is the placeholder exactly when there is no poster, and otherwise ends with the poster path after the base URL. */
  lemma ImageUrlCases(m: Movie)
    ensures ImageUrl(m) == PlaceholderUrl <==> !HasPoster(m)
    ensures HasPoster(m) ==> (ImageUrl(m)[..|ImageBaseUrl|] == ImageBaseUrl
                              && ImageUrl(m)[|ImageBaseUrl|..] == m.posterPath.value)
  {
    if HasPoster(m) {
      var url := ImageUrl(m);
      assert url[8] == ImageBaseUrl[8] == 'i';
      assert PlaceholderUrl[8] == 'v';
    }
  }
}
