/**
  MovieCoverWithFavorite: a movie's poster with a heart button. It keeps the same
  favourites list as the movie card and, after each successful write, calls the
  parent's optional onToggleFavorite callback.
 */
module MovieCoverComponent {
  import opened Wrappers
  import opened JsonValue
  import opened Storage
  import opened Favorites

  class MovieCover {
    const movie: Movie
    const storage: StorageService
    /** The cached favourite flag shown by the heart icon. */
    var isFavorite: bool
    /** How many error alerts the component has shown. */
    var alerts: nat
    /** Whether the parent passed onToggleFavorite. */
    const hasCallback: bool
    /** How many times onToggleFavorite has been called. */
    var callbackCalls: nat

    /** Mounting starts with the flag clear. */
    constructor(movie: Movie, storage: StorageService, hasCallback: bool)
      ensures this.movie == movie && this.storage == storage && this.hasCallback == hasCallback
      ensures !isFavorite && alerts == 0 && callbackCalls == 0
    {
      this.movie := movie;
      this.storage := storage;
      this.hasCallback := hasCallback;
      callbackCalls := 0;
      isFavorite := false;
      alerts := 0;
    }

    /** checkIfFavorite: set the flag from the stored list when it is an array and `some` returns. */
    method CheckIfFavorite(readFails: bool)
      modifies this`isFavorite
      ensures readFails ==> isFavorite == old(isFavorite)
      ensures !readFails ==> (isFavorite ==
        match CheckFavorite(Lookup(storage.entries, FavoriteMoviesKey), movie.id)
        case Some(found) => found
        case None => old(isFavorite))
    {
      var read := storage.GetItem(FavoriteMoviesKey, readFails);
      if read.Failure? {
        return;
      }
      var favorites := read.value;
      if favorites.Parsed? && favorites.value.JArr? {
        var found := SomeHasId(favorites.value.items, movie.id);
        if found.Success? {
          isFavorite := found.value;
        }
      }
    }

    /**
      handleFavoriteToggle: read the list, then remove the movie (flag set) or append it
      (flag clear, not yet listed), write the list back and flip the flag. The flag
      changes only after the write succeeds, and then the callback, when there is one,
      is called once; any error raises one alert instead.
     */
    method HandleFavoriteToggle(readFails: bool, writeFails: bool)
      requires storage.Valid()
      modifies this, storage
      ensures storage.Valid()
      ensures var plan := PlanToggle(Lookup(old(storage.entries), FavoriteMoviesKey), old(isFavorite), movie);
        var wrote := !readFails && plan.Write? && !writeFails;
        (wrote ==>
          isFavorite == plan.flag
          && storage.entries == old(storage.entries)[FavoriteMoviesKey := Serialize(JArr(plan.list))]
          && storage.keys == if FavoriteMoviesKey in old(storage.entries) then old(storage.keys)
                             else old(storage.keys) + [FavoriteMoviesKey])
        && (!wrote ==>
          isFavorite == old(isFavorite) && storage.entries == old(storage.entries) && storage.keys == old(storage.keys))
        && alerts == old(alerts) + (if readFails || plan.Thrown? || (plan.Write? && writeFails) then 1 else 0)
        && callbackCalls == old(callbackCalls) + if wrote && hasCallback then 1 else 0
    {
      var read := storage.GetItem(FavoriteMoviesKey, readFails);
      if read.Failure? {
        alerts := alerts + 1;
        return;
      }
      var favorites := StoredList(read.value);
      if isFavorite {
        var updated := FilterOutId(favorites, movie.id);
        if updated.Failure? {
          alerts := alerts + 1;
          return;
        }
        var written := storage.SetItem(FavoriteMoviesKey, JArr(updated.value), writeFails);
        if written.Fail? {
          alerts := alerts + 1;
          return;
        }
        isFavorite := false;
        if hasCallback {
          callbackCalls := callbackCalls + 1;
        }
      } else {
        var alreadyExists := SomeHasId(favorites, movie.id);
        if alreadyExists.Failure? {
          alerts := alerts + 1;
          return;
        }
        if !alreadyExists.value {
          favorites := favorites + [MovieJson(movie)];
          var written := storage.SetItem(FavoriteMoviesKey, JArr(favorites), writeFails);
          if written.Fail? {
            alerts := alerts + 1;
            return;
          }
          isFavorite := true;
          if hasCallback {
            callbackCalls := callbackCalls + 1;
          }
        }
      }
    }
  }

  /**
    A cover toggled on an empty store and toggled back calls its parent's callback
    twice and leaves the stored list as the text `[]`.
   */
  method FavoriteThenUnfavorite(movie: Movie) returns (calls: nat, text: string)
    ensures calls == 2 && text == "[]"
  {
    var storage := new StorageService();
    var cover := new MovieCover(movie, storage, true);
    ToggleTwiceFromEmpty(movie);
    cover.HandleFavoriteToggle(false, false);
    cover.HandleFavoriteToggle(false, false);
    calls := cover.callbackCalls;
    text := storage.entries[FavoriteMoviesKey];
  }
}
