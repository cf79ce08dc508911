/** `Song`: a name, an artist and a genre fixed at construction, and a duration in seconds that can change. */
module Song {
  import opened Wrappers
  import opened JavaLang

  datatype Genre = POP | ROCK | HIP_HOP | COUNTRY | JAZZ | DISCO

  /** The enum constant's name, as `%s` prints it. */
  function GenreName(genre: Genre): (s: string)
    ensures |s| >= 3
  {
    match genre
    case POP => "POP"
    case ROCK => "ROCK"
    case HIP_HOP => "HIP_HOP"
    case COUNTRY => "COUNTRY"
    case JAZZ => "JAZZ"
    case DISCO => "DISCO"
  }

  /** `%d:%02d` of the truncated minutes and the remaining seconds. */
  function DurationText(duration: int): string {
    IntToString(JavaDiv(duration, 60)) + ":" + FormatZeroPadded(JavaRem(duration, 60), 2)
  }

  /**
   * For a duration that is not negative the text reads back: the minutes
   * before the last colon, then two digits of seconds, which together make
   * up the duration.
   */
  lemma DurationTextReadsBack(duration: int)
    requires duration >= 0
    ensures var t := DurationText(duration);
      |t| >= 4 && t[|t| - 3] == ':'
      && ParseInt(t[..|t| - 3]) == Some(duration / 60)
      && Denotes(t[|t| - 2..], duration % 60)
      && 60 * (duration / 60) + duration % 60 == duration
  {
    var m, r := duration / 60, duration % 60;
    NonNegativeDivRem(duration, 60);
    var minutes := IntToString(m);
    var seconds := FormatZeroPadded(r, 2);
    TwoDigits(r);
    ParseIntOfIntToString(m);
    assert DurationText(duration) == minutes + ":" + seconds;
    ColonSplit(minutes, seconds);
  }

  /** Where the pieces of `a + ":" + b` lie, for a two-character `b`. */
  lemma ColonSplit(a: string, b: string)
    requires |a| >= 1 && |b| == 2
    ensures var t := a + ":" + b;
      |t| >= 4 && t[|t| - 3] == ':' && t[..|t| - 3] == a && t[|t| - 2..] == b
  {
  }

  class Song {
    const name: string
    const artist: string
    const genre: Genre
    var duration: int

    constructor(name: string, artist: string, genre: Genre, duration: int)
      ensures this.name == name && this.artist == artist && this.genre == genre && this.duration == duration
    {
      this.name := name;
      this.artist := artist;
      this.genre := genre;
      this.duration := duration;
    }

    /** `equals`: another song (not null) with the same name and artist; genre and duration play no part. */
    predicate Equals(other: Song?) {
      other != null && name == other.name && artist == other.artist
    }

    /** `hashCode`: the string hash of the name followed by the artist. */
    function HashCode(): (h: int)
      ensures IsInt32(h)
    {
      StringHash(name + artist)
    }

    /** `toString`: `name, artist, GENRE, m:ss`. */
    function ToString(): (s: string)
      reads this
      ensures |s| >= |name| + |artist| + 10
    {
      name + ", " + artist + ", " + GenreName(genre) + ", " + DurationText(duration)
    }

    /** `setDuration`: only the duration changes; the other fields are constants. */
    method SetDuration(duration: int)
      modifies this
      ensures this.duration == duration
    {
      this.duration := duration;
    }

    /** `clone`: a new song with the same fields, hence equal to this one. */
    method Clone() returns (songClone: Song)
      ensures fresh(songClone)
      ensures songClone.name == name && songClone.artist == artist && songClone.genre == genre && songClone.duration == duration
      ensures Equals(songClone) && songClone.Equals(this)
    {
      songClone := new Song(name, artist, genre, duration);
    }
  }

  /**
   * The layout of `toString`: the name and then the artist, each followed by
   * ", ", and at the end ", " and the duration text.
   */
  lemma ToStringLayout(song: Song)
    ensures var s, n, a, d := song.ToString(), song.name, song.artist, DurationText(song.duration);
      |n| + |a| + 4 <= |s| && |d| + 2 <= |s|
      && s[..|n| + 2] == n + ", " && s[|n| + 2..|n| + |a| + 4] == a + ", "
      && s[|s| - |d| - 2..] == ", " + d
  {
    JoinedLayout(song.name, song.artist, GenreName(song.genre), DurationText(song.duration), ", ");
  }

  /** Four fields joined by a two-character separator, read back from the ends. */
  lemma JoinedLayout(n: string, a: string, g: string, d: string, sep: string)
    requires |sep| == 2
    ensures var s := n + sep + a + sep + g + sep + d;
      s[..|n| + 2] == n + sep && s[|n| + 2..|n| + |a| + 4] == a + sep && s[|s| - |d| - 2..] == sep + d
  {
    var s := n + sep + a + sep + g + sep + d;
    var head, tail := n + sep + a + sep, g + sep + d;
    assert s == head + tail;
    assert s[..|head|] == head;
    assert head[..|n| + 2] == n + sep;
    assert head[|n| + 2..] == a + sep;
    assert s[|s| - |d| - 2..] == tail[|g|..];
  }

  /** Song equality is an equivalence relation. */
  lemma SongEqualsEquivalence(a: Song, b: Song, c: Song)
    ensures a.Equals(a)
    ensures a.Equals(b) ==> b.Equals(a)
    ensures a.Equals(b) && b.Equals(c) ==> a.Equals(c)
  {
  }

  /** Equal songs have equal hash codes. */
  lemma EqualSongsHashAlike(a: Song, b: Song)
    requires a.Equals(b)
    ensures a.HashCode() == b.HashCode()
  {
  }
}
