/** `Filter`: an optional artist, an optional genre and an inclusive duration bound, all of which a song must meet. */
module Filter {
  import opened Wrappers
  import opened JavaLang
  import opened Song

  /** The three criteria; `None` stands for a `null` field, which accepts every song. */
  datatype Criteria = Criteria(artist: Option<string>, genre: Option<Genre>, maxDuration: int)

  /** The criteria of a new filter: no artist, no genre, and `Integer.MAX_VALUE` as the bound. */
  const DEFAULT_CRITERIA: Criteria := Criteria(None, None, INT_MAX)

  /** `match`: the artist is unset or equal, the genre is unset or equal, and the duration is at most the bound. */
  predicate Matches(criteria: Criteria, song: Song)
    reads song
  {
    (criteria.artist.None? || song.artist == criteria.artist.value)
    && (criteria.genre.None? || song.genre == criteria.genre.value)
    && song.duration <= criteria.maxDuration
  }

  /** The default criteria accept every song whose duration is a Java `int`. */
  lemma DefaultMatchesEvery(song: Song)
    requires IsInt32(song.duration)
    ensures Matches(DEFAULT_CRITERIA, song)
  {
  }

  /** The bound is inclusive: a song as long as the bound passes it, one second longer does not. */
  lemma BoundInclusive(criteria: Criteria, song: Song)
    requires criteria.artist.None? && criteria.genre.None?
    ensures Matches(criteria, song) <==> song.duration <= criteria.maxDuration
  {
  }

  class Filter {
    var artist: Option<string>
    var genre: Option<Genre>
    var maxDuration: int

    /** The default constructor. */
    constructor()
      ensures Settings() == DEFAULT_CRITERIA
    {
      artist := None;
      genre := None;
      maxDuration := INT_MAX;
    }

    function Settings(): Criteria
      reads this
    {
      Criteria(artist, genre, maxDuration)
    }

    /** `setArtist`: replaces the artist criterion only. */
    method SetArtist(artist: Option<string>)
      modifies this
      ensures Settings() == old(Settings()).(artist := artist)
    {
      this.artist := artist;
    }

    /** `setGenre`: replaces the genre criterion only. */
    method SetGenre(genre: Option<Genre>)
      modifies this
      ensures Settings() == old(Settings()).(genre := genre)
    {
      this.genre := genre;
    }

    /** `setDuration`: replaces the duration bound only. */
    method SetDuration(maxDuration: int)
      modifies this
      ensures Settings() == old(Settings()).(maxDuration := maxDuration)
    {
      this.maxDuration := maxDuration;
    }

    /** `match`, on this filter's criteria. */
    predicate Match(song: Song)
      reads this, song
    {
      Matches(Settings(), song)
    }

    /** `clone`: a new filter with the same criteria. */
    method Clone() returns (filterClone: Filter)
      ensures fresh(filterClone) && filterClone.Settings() == Settings()
    {
      filterClone := new Filter();
      filterClone.artist := artist;
      filterClone.genre := genre;
      filterClone.maxDuration := maxDuration;
    }
  }
}
