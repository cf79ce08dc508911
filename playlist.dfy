/**
 * `Playlist`: a list of songs without two equal songs, a filter and a
 * scanning order; its iterator yields the songs the filter accepts, in
 * the scanning order.
 */
module Playlist {
  import opened Wrappers
  import opened JavaLang
  import opened Song
  import opened Filter
  import opened SongOrder

  datatype PlaylistError = SongAlreadyExists

  /** `ArrayList.indexOf`: the first index holding a song equal to `song`, or -1. */
  function IndexOfSong(songs: seq<Song>, song: Song): (i: int)
    ensures -1 <= i < |songs|
    ensures i >= 0 ==> song.Equals(songs[i]) && forall k :: 0 <= k < i ==> !song.Equals(songs[k])
    ensures i == -1 ==> forall k :: 0 <= k < |songs| ==> !song.Equals(songs[k])
  {
    if songs == [] then -1
    else if song.Equals(songs[0]) then 0
    else
      var i := IndexOfSong(songs[1..], song);
      if i == -1 then -1 else i + 1
  }

  /** `ArrayList.contains`. */
  predicate ContainsSong(songs: seq<Song>, song: Song) {
    IndexOfSong(songs, song) >= 0
  }

  /** `ArrayList.remove(Object)`: the first equal song taken out, if there is one. */
  function WithoutSong(songs: seq<Song>, song: Song): seq<Song> {
    var i := IndexOfSong(songs, song);
    if i == -1 then songs else songs[..i] + songs[i + 1..]
  }

  /** A list without equal songs holds at most one song equal to any given song: after removal there is none. */
  lemma RemovedAbsent(songs: seq<Song>, song: Song)
    requires NoEqualSongs(songs)
    ensures NoEqualSongs(WithoutSong(songs, song)) && !ContainsSong(WithoutSong(songs, song), song)
    ensures |WithoutSong(songs, song)| == |songs| - (if ContainsSong(songs, song) then 1 else 0)
  {
    var i := IndexOfSong(songs, song);
    if i >= 0 {
      var r := WithoutSong(songs, song);
      assert forall k :: 0 <= k < |r| ==> r[k] == (if k < i then songs[k] else songs[k + 1]);
    }
  }

  /** The songs the criteria accept, in list order. */
  function Selected(songs: seq<Song>, criteria: Criteria): (r: seq<Song>)
    reads set y | y in songs
    ensures |r| <= |songs|
  {
    if songs == [] then []
    else
      var last := songs[|songs| - 1];
      Selected(songs[..|songs| - 1], criteria) + (if Matches(criteria, last) then [last] else [])
  }

  /** Exactly the accepted songs are selected, and no two of them are equal. */
  lemma {:induction false} SelectedMembers(songs: seq<Song>, criteria: Criteria)
    requires NoEqualSongs(songs)
    ensures forall x | x in Selected(songs, criteria) :: x in songs && Matches(criteria, x)
    ensures forall x | x in songs && Matches(criteria, x) :: x in Selected(songs, criteria)
    ensures NoEqualSongs(Selected(songs, criteria))
    decreases |songs|
  {
    if songs != [] {
      var front, last := songs[..|songs| - 1], songs[|songs| - 1];
      SelectedMembers(front, criteria);
      assert songs == front + [last];
      var f := Selected(front, criteria);
      forall k | 0 <= k < |f|
        ensures !f[k].Equals(last)
      {
        assert f[k] in Selected(front, criteria);
        assert f[k] in front;
        var m :| 0 <= m < |front| && front[m] == f[k];
        assert songs[m] == f[k];
      }
    }
  }

  /** Ordering neither adds a song nor drops one. */
  lemma OrderedMembers(order: ScanningOrder, s: seq<Song>)
    ensures forall x | x in Ordered(order, s) :: x in s
    ensures forall x | x in s :: x in Ordered(order, s)
  {
    var r := Ordered(order, s);
    forall x | x in r
      ensures x in s
    {
      assert x in multiset(r);
    }
    forall x | x in s
      ensures x in r
    {
      assert x in multiset(s);
    }
  }

  /**
   * What the iterator yields: every song the criteria accept and no other,
   * none twice, in insertion order for `ADDING` and sorted otherwise
   * (`SortedUnique` shows that sorted order is then the only one possible).
   */
  lemma Iteration(order: ScanningOrder, songs: seq<Song>, criteria: Criteria)
    requires NoEqualSongs(songs)
    ensures var r := Ordered(order, Selected(songs, criteria));
      (forall x | x in r :: x in songs && Matches(criteria, x))
      && (forall x | x in songs && Matches(criteria, x) :: x in r)
      && NoEqualSongs(r)
      && (order == ADDING ==> r == Selected(songs, criteria))
      && (order != ADDING ==> SortedBy(order, r))
  {
    var s := Selected(songs, criteria);
    SelectedMembers(songs, criteria);
    OrderedMembers(order, s);
    if order != ADDING {
      SortBySorted(order, s);
      SortByNoEqual(order, s);
    }
  }

  /** Each song's `toString`, in list order. */
  function SongTexts(songs: seq<Song>): (texts: seq<string>)
    reads set y | y in songs
    ensures |texts| == |songs| && forall k :: 0 <= k < |songs| ==> texts[k] == songs[k].ToString()
  {
    seq(|songs|, k requires 0 <= k < |songs| reads set y | y in songs => songs[k].ToString())
  }

  /** The comma-separated list of the texts, each in parentheses. */
  function Joined(texts: seq<string>): string {
    if texts == [] then ""
    else if |texts| == 1 then "(" + texts[0] + ")"
    else Joined(texts[..|texts| - 1]) + ", (" + texts[|texts| - 1] + ")"
  }

  /** `toString` of a playlist: its songs' texts, parenthesised and joined, in brackets. */
  function PlaylistString(songs: seq<Song>): string
    reads set y | y in songs
  {
    "[" + Joined(SongTexts(songs)) + "]"
  }

  /** The loop's accumulator: each text parenthesised and followed by `, `. */
  function Accumulated(texts: seq<string>): string {
    if texts == [] then ""
    else Accumulated(texts[..|texts| - 1]) + "(" + texts[|texts| - 1] + ")" + ", "
  }

  /** One pass of the `toString` loop extends the accumulator by the next text. */
  lemma AccumulateStep(str: string, texts: seq<string>, i: int, text: string)
    requires 0 <= i < |texts| && text == texts[i] && str == "[" + Accumulated(texts[..i])
    ensures str + "(" + text + ")" + ", " == "[" + Accumulated(texts[..i + 1])
  {
    assert texts[..i + 1][..i] == texts[..i];
  }

  lemma {:induction false} AccumulatedJoined(texts: seq<string>)
    requires texts != []
    ensures Accumulated(texts) == Joined(texts) + ", "
    decreases |texts|
  {
    var front, item := texts[..|texts| - 1], "(" + texts[|texts| - 1] + ")";
    if |texts| > 1 {
      AccumulatedJoined(front);
      var j := Joined(front);
      assert Accumulated(texts) == (j + ", ") + item + ", ";
      assert Joined(texts) == j + ", " + item;
    } else {
      assert front == [];
    }
  }

  /** Cutting the last `, ` off the accumulator leaves the joined list. */
  lemma CutSeparator(texts: seq<string>)
    requires texts != []
    ensures var str := "[" + Accumulated(texts); |str| >= 2 && str[..|str| - 2] == "[" + Joined(texts)
  {
    AccumulatedJoined(texts);
    var j := Joined(texts);
    assert "[" + Accumulated(texts) == ("[" + j) + ", ";
  }

  /** The string is `[]` exactly for the empty playlist; otherwise it opens with `[(`. */
  lemma PlaylistStringEmptyIff(songs: seq<Song>)
    ensures PlaylistString(songs) == "[]" <==> songs == []
    ensures songs != [] ==> PlaylistString(songs)[..2] == "[("
  {
    if songs != [] {
      JoinedOpens(SongTexts(songs));
    }
  }

  lemma {:induction false} JoinedOpens(texts: seq<string>)
    requires texts != []
    ensures |Joined(texts)| >= 2 && Joined(texts)[0] == '('
    decreases |texts|
  {
    if |texts| > 1 {
      JoinedOpens(texts[..|texts| - 1]);
    }
  }

  /** What song equality compares: the name and the artist. */
  function Key(song: Song): (string, string) {
    (song.name, song.artist)
  }

  function KeySet(songs: seq<Song>): set<(string, string)> {
    if songs == [] then {} else KeySet(songs[..|songs| - 1]) + {Key(songs[|songs| - 1])}
  }

  lemma {:induction false} KeySetMembers(songs: seq<Song>, song: Song)
    ensures Key(song) in KeySet(songs) <==> ContainsSong(songs, song)
    decreases |songs|
  {
    if songs != [] {
      var front := songs[..|songs| - 1];
      KeySetMembers(front, song);
      if ContainsSong(front, song) {
        var i := IndexOfSong(front, song);
        assert song.Equals(songs[i]);
      }
      if ContainsSong(songs, song) && !song.Equals(songs[|songs| - 1]) {
        var i := IndexOfSong(songs, song);
        assert song.Equals(front[i]);
      }
    }
  }

  lemma {:induction false} KeySetSize(songs: seq<Song>)
    requires NoEqualSongs(songs)
    ensures |KeySet(songs)| == |songs|
    decreases |songs|
  {
    if songs != [] {
      var front, last := songs[..|songs| - 1], songs[|songs| - 1];
      KeySetSize(front);
      KeySetMembers(front, last);
      if ContainsSong(front, last) {
        var i := IndexOfSong(front, last);
        assert songs[i].Equals(last);
      }
    }
  }

  lemma {:induction false} SubsetSize<K>(a: set<K>, b: set<K>)
    requires a <= b
    ensures |a| <= |b|
    decreases |a|
  {
    if a != {} {
      var x :| x in a;
      SubsetSize(a - {x}, b - {x});
    }
  }

  /**
   * Between two playlists with no equal songs and the same size, "every
   * song of one is in the other" holds in both directions, so `equals` is
   * symmetric on them.
   */
  lemma ContainsAllSymmetric(a: seq<Song>, b: seq<Song>)
    requires NoEqualSongs(a) && NoEqualSongs(b) && |a| == |b|
    requires forall i :: 0 <= i < |a| ==> ContainsSong(b, a[i])
    ensures forall j :: 0 <= j < |b| ==> ContainsSong(a, b[j])
  {
    KeySetSize(a);
    KeySetSize(b);
    forall k | k in KeySet(a)
      ensures k in KeySet(b)
    {
      KeySetIndex(a, k);
      var i :| 0 <= i < |a| && Key(a[i]) == k;
      KeySetMembers(b, a[i]);
    }
    if KeySet(a) != KeySet(b) {
      var x :| x in KeySet(b) && x !in KeySet(a);
      SubsetSize(KeySet(a), KeySet(b) - {x});
    }
    forall j | 0 <= j < |b|
      ensures ContainsSong(a, b[j])
    {
      KeySetMembers(b, b[j]);
      assert IndexOfSong(b, b[j]) >= 0 by {
        assert b[j].Equals(b[j]);
      }
      KeySetMembers(a, b[j]);
    }
  }

  lemma {:induction false} KeySetIndex(songs: seq<Song>, k: (string, string))
    requires k in KeySet(songs)
    ensures exists i :: 0 <= i < |songs| && Key(songs[i]) == k
    decreases |songs|
  {
    var front := songs[..|songs| - 1];
    if k in KeySet(front) {
      KeySetIndex(front, k);
      var i :| 0 <= i < |front| && Key(front[i]) == k;
      assert Key(songs[i]) == k;
    } else {
      assert Key(songs[|songs| - 1]) == k;
    }
  }

  /** The filtering loop of the iterator's constructor. */
  method FilterSongs(songs: seq<Song>, filter: Filter) returns (filteredSongs: seq<Song>)
    ensures filteredSongs == Selected(songs, filter.Settings())
  {
    filteredSongs := [];
    var i := 0;
    while i < |songs|
      invariant 0 <= i <= |songs|
      invariant filteredSongs == Selected(songs[..i], filter.Settings())
    {
      assert songs[..i + 1][..i] == songs[..i];
      if filter.Match(songs[i]) {
        filteredSongs := filteredSongs + [songs[i]];
      }
      i := i + 1;
    }
    assert songs[..i] == songs;
  }

  /** The loop of `toString`: after `[`, each song in parentheses followed by `, `. */
  method AccumulateSongs(songs: seq<Song>) returns (str: string)
    ensures str == "[" + Accumulated(SongTexts(songs))
  {
    ghost var texts := SongTexts(songs);
    str := "[";
    var i := 0;
    while i < |songs|
      invariant 0 <= i <= |songs|
      invariant str == "[" + Accumulated(texts[..i])
    {
      var text := songs[i].ToString();
      AccumulateStep(str, texts, i, text);
      str := str + "(" + text + ")" + ", ";
      i := i + 1;
    }
    assert texts[..i] == texts;
  }

  class Playlist {
    var songs: seq<Song>
    var filter: Filter
    var order: ScanningOrder

    /** No two songs of the list are equal. */
    ghost predicate Valid()
      reads this
    {
      NoEqualSongs(songs)
    }

    constructor()
      ensures Valid() && songs == [] && fresh(filter) && filter.Settings() == DEFAULT_CRITERIA && order == ADDING
    {
      songs := [];
      filter := new Filter();
      order := ADDING;
    }

    /** `addSong`: refused when an equal song is present, the list unchanged; otherwise appended. */
    method AddSong(song: Song) returns (outcome: Outcome<PlaylistError>)
      requires Valid()
      modifies this
      ensures Valid() && filter == old(filter) && order == old(order)
      ensures old(ContainsSong(songs, song)) ==> outcome == Fail(SongAlreadyExists) && songs == old(songs)
      ensures !old(ContainsSong(songs, song)) ==> outcome == Pass && songs == old(songs) + [song]
    {
      if IndexOfSong(songs, song) >= 0 {
        return Fail(SongAlreadyExists);
      }
      songs := songs + [song];
      outcome := Pass;
    }

    /** `removeSong`: true exactly when an equal song was present; it is then taken out and none is left. */
    method RemoveSong(song: Song) returns (removed: bool)
      requires Valid()
      modifies this
      ensures Valid() && filter == old(filter) && order == old(order)
      ensures removed == old(ContainsSong(songs, song))
      ensures songs == WithoutSong(old(songs), song) && !ContainsSong(songs, song)
    {
      RemovedAbsent(songs, song);
      removed := IndexOfSong(songs, song) >= 0;
      songs := WithoutSong(songs, song);
    }

    /** `toString`: the accumulating loop, then the last `, ` cut off. */
    method ToString() returns (s: string)
      ensures s == PlaylistString(songs)
    {
      if |songs| == 0 {
        return "[]";
      }
      var str := AccumulateSongs(songs);
      CutSeparator(SongTexts(songs));
      str := str[..|str| - 2];
      s := str + "]";
    }

    /** `equals`: another playlist of the same size every song of this one is in; filter and order play no part. */
    method Equals(other: Playlist?) returns (b: bool)
      ensures b <==> (other != null && |songs| == |other.songs|
                      && forall i :: 0 <= i < |songs| ==> ContainsSong(other.songs, songs[i]))
    {
      if other == null || |songs| != |other.songs| {
        return false;
      }
      var i := 0;
      while i < |songs|
        invariant 0 <= i <= |songs|
        invariant forall k :: 0 <= k < i ==> ContainsSong(other.songs, songs[k])
      {
        if IndexOfSong(other.songs, songs[i]) < 0 {
          return false;
        }
        i := i + 1;
      }
      b := true;
    }

    /** `filterArtist`: replaces the filter's artist criterion only. */
    method FilterArtist(artist: Option<string>)
      modifies filter
      ensures filter.Settings() == old(filter.Settings()).(artist := artist)
    {
      filter.SetArtist(artist);
    }

    /** `filterGenre`: replaces the filter's genre criterion only. */
    method FilterGenre(genre: Option<Genre>)
      modifies filter
      ensures filter.Settings() == old(filter.Settings()).(genre := genre)
    {
      filter.SetGenre(genre);
    }

    /** `filterDuration`: replaces the filter's duration bound only. */
    method FilterDuration(maxDuration: int)
      modifies filter
      ensures filter.Settings() == old(filter.Settings()).(maxDuration := maxDuration)
    {
      filter.SetDuration(maxDuration);
    }

    /** `setScanningOrder`. */
    method SetScanningOrder(order: ScanningOrder)
      modifies this
      ensures this.order == order && songs == old(songs) && filter == old(filter)
    {
      this.order := order;
    }

    /** `iterator`: a new iterator over the accepted songs in the scanning order. */
    method Iterator() returns (it: PlaylistIterator)
      ensures fresh(it) && it.Valid() && it.Remaining() == old(Ordered(order, Selected(songs, filter.Settings())))
    {
      it := new PlaylistIterator(this);
    }
  }

  /** `PlaylistIterator`: the filtered and sorted list, fixed at construction, and a position in it. */
  class PlaylistIterator {
    const filteredSongs: seq<Song>
    var index: int

    ghost predicate Valid()
      reads this
    {
      0 <= index <= |filteredSongs|
    }

    function Remaining(): seq<Song>
      requires Valid()
      reads this
    {
      filteredSongs[index..]
    }

    /** Filters the playlist's songs, then sorts them unless the order is `ADDING`. */
    constructor(playlist: Playlist)
      ensures Valid() && Remaining() == old(Ordered(playlist.order, Selected(playlist.songs, playlist.filter.Settings())))
    {
      ghost var sorted := Ordered(playlist.order, Selected(playlist.songs, playlist.filter.Settings()));
      var selected := FilterSongs(playlist.songs, playlist.filter);
      match playlist.order {
        case ADDING =>
        case NAME =>
          selected := SortBy(NAME, selected);
        case DURATION =>
          selected := SortBy(DURATION, selected);
      }
      assert selected == sorted;
      filteredSongs := selected;
      index := 0;
    }

    /** `hasNext`. */
    method HasNext() returns (b: bool)
      requires Valid()
      ensures b <==> Remaining() != []
    {
      b := index < |filteredSongs|;
    }

    /** `next`: the song at the position, which then advances. */
    method Next() returns (song: Song)
      requires Valid() && Remaining() != []
      modifies this
      ensures Valid() && song == old(Remaining())[0] && Remaining() == old(Remaining())[1..]
    {
      song := filteredSongs[index];
      index := index + 1;
    }
  }
}
