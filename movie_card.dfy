/**
  MovieCard: a movie's card with a heart button. The component caches whether the
  movie is a favourite and keeps the favourites list in the store under
  `favoriteMovies`; every storage or script error is caught and leaves the flag as
  it was; a failed toggle also shows an alert.
 */
module MovieCardComponent {
  import opened Wrappers
  import opened JsonValue
  import opened Storage
  import opened Favorites

  class MovieCard {
    const movie: Movie
    const storage: StorageService
    /** The cached favourite flag shown by the heart icon. */
    var isFavorite: bool
    /** How many error alerts the component has shown. */
    var alerts: nat

    /** Mounting starts with the flag clear. */
    constructor(movie: Movie, storage: StorageService)
      ensures this.movie == movie && this.storage == storage
      ensures !isFavorite && alerts == 0
    {
      this.movie := movie;
      this.storage := storage;
      isFavorite := false;
      alerts := 0;
    }

    /** checkIfFavorite: set the flag from the stored list when it is an array and `some` returns. */
    method CheckIfFavorite(readFails: bool)
      modifies this`isFavorite
      ensures readFails ==> isFavorite == old(isFavorite)
      ensures !readFails ==> (isFavorite ==
        match CheckFavorite(Lookup(storage.entries, FavoriteMoviesKey), movie.id)
        case Some(found) => found
        case None => old(isFavorite))
    {
      var read := storage.GetItem(FavoriteMoviesKey, readFails);
      if read.Failure? {
        return;
      }
      var favorites := read.value;
      if favorites.Parsed? && favorites.value.JArr? {
        var found := SomeHasId(favorites.value.items, movie.id);
        if found.Success? {
          isFavorite := found.value;
        }
      }
    }

    /**
      handleFavoriteToggle: read the list, then remove the movie (flag set) or append it
      (flag clear, not yet listed), write the list back and flip the flag. The flag
      changes only after the write succeeds; any error raises one alert instead.
     */
    method HandleFavoriteToggle(readFails: bool, writeFails: bool)
      requires storage.Valid()
      modifies this, storage
      ensures storage.Valid()
      ensures var plan := PlanToggle(Lookup(old(storage.entries), FavoriteMoviesKey), old(isFavorite), movie);
        var wrote := !readFails && plan.Write? && !writeFails;
        (wrote ==>
          isFavorite == plan.flag
          && storage.entries == old(storage.entries)[FavoriteMoviesKey := Serialize(JArr(plan.list))]
          && storage.keys == if FavoriteMoviesKey in old(storage.entries) then old(storage.keys)
                             else old(storage.keys) + [FavoriteMoviesKey])
        && (!wrote ==>
          isFavorite == old(isFavorite) && storage.entries == old(storage.entries) && storage.keys == old(storage.keys))
        && alerts == old(alerts) + if readFails || plan.Thrown? || (plan.Write? && writeFails) then 1 else 0
    {
      var read := storage.GetItem(FavoriteMoviesKey, readFails);
      if read.Failure? {
        alerts := alerts + 1;
        return;
      }
      var favorites := StoredList(read.value);
      if isFavorite {
        var updated := FilterOutId(favorites, movie.id);
        if updated.Failure? {
          alerts := alerts + 1;
          return;
        }
        var written := storage.SetItem(FavoriteMoviesKey, JArr(updated.value), writeFails);
        if written.Fail? {
          alerts := alerts + 1;
          return;
        }
        isFavorite := false;
      } else {
        var alreadyExists := SomeHasId(favorites, movie.id);
        if alreadyExists.Failure? {
          alerts := alerts + 1;
          return;
        }
        if !alreadyExists.value {
          favorites := favorites + [MovieJson(movie)];
          var written := storage.SetItem(FavoriteMoviesKey, JArr(favorites), writeFails);
          if written.Fail? {
            alerts := alerts + 1;
            return;
          }
          isFavorite := true;
        }
      }
    }
  }

  /**
    A card toggled on an empty store and then checked shows the movie as a favourite;
    toggled again, the stored list is the text `[]` and the card shows it is not.
   */
  method FavoriteThenUnfavorite(movie: Movie) returns (first: bool, second: bool, text: string)
    ensures first && !second && text == "[]"
  {
    var storage := new StorageService();
    var card := new MovieCard(movie, storage);
    ToggleTwiceFromEmpty(movie);
    card.HandleFavoriteToggle(false, false);
    ToggleAgreesWithCheck(Absent, false, movie);
    card.CheckIfFavorite(false);
    first := card.isFavorite;
    card.HandleFavoriteToggle(false, false);
    ToggleAgreesWithCheck(DecodeText(Serialize(JArr([MovieJson(movie)]))), true, movie);
    card.CheckIfFavorite(false);
    second := card.isFavorite;
    text := storage.entries[FavoriteMoviesKey];
  }
}
