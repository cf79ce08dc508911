/**
 * The scanning orders of a playlist's iterator and the comparators behind
 * them: by name then artist, or by duration then name then artist. The
 * library sort is modelled by a stable insertion sort.
 */
module SongOrder {
  import opened StringOrder
  import opened Song

  datatype ScanningOrder = ADDING | NAME | DURATION

  /** No two songs of `s` are equal in the sense of `Song.equals`. */
  predicate NoEqualSongs(s: seq<Song>) {
    forall i, j :: 0 <= i < j < |s| ==> !s[i].Equals(s[j])
  }

  /** `comparing(getName).thenComparing(getArtist)` gives at most 0. */
  predicate NameLeq(a: Song, b: Song) {
    if a.name != b.name then LexLeq(a.name, b.name) else LexLeq(a.artist, b.artist)
  }

  /** `a` may come before `b` in the given order; `ADDING` does not compare. */
  predicate Leq(order: ScanningOrder, a: Song, b: Song)
    reads a, b
  {
    match order
    case ADDING => true
    case NAME => NameLeq(a, b)
    case DURATION => if a.duration != b.duration then a.duration < b.duration else NameLeq(a, b)
  }

  lemma NameLeqTotal(a: Song, b: Song)
    ensures NameLeq(a, b) || NameLeq(b, a)
  {
    LexLeqTotal(a.name, b.name);
    LexLeqTotal(a.artist, b.artist);
  }

  lemma NameLeqTransitive(a: Song, b: Song, c: Song)
    requires NameLeq(a, b) && NameLeq(b, c)
    ensures NameLeq(a, c)
  {
    if a.name != b.name && b.name != c.name {
      LexLeqTransitive(a.name, b.name, c.name);
      if a.name == c.name {
        LexLeqAntisymmetric(a.name, b.name);
      }
    } else if a.name == b.name && b.name == c.name {
      LexLeqTransitive(a.artist, b.artist, c.artist);
    }
  }

  lemma LeqTotal(order: ScanningOrder, a: Song, b: Song)
    ensures Leq(order, a, b) || Leq(order, b, a)
  {
    NameLeqTotal(a, b);
  }

  lemma LeqReflexive(order: ScanningOrder, a: Song)
    ensures Leq(order, a, a)
  {
    LexLeqReflexive(a.artist);
  }

  lemma LeqTransitive(order: ScanningOrder, a: Song, b: Song, c: Song)
    requires Leq(order, a, b) && Leq(order, b, c)
    ensures Leq(order, a, c)
  {
    if order == NAME || (order == DURATION && a.duration == b.duration && b.duration == c.duration) {
      NameLeqTransitive(a, b, c);
    }
  }

  /** The comparators tell apart any two songs that are not equal. */
  lemma LeqAntisymmetric(order: ScanningOrder, a: Song, b: Song)
    requires order != ADDING && Leq(order, a, b) && Leq(order, b, a)
    ensures a.Equals(b)
  {
    if a.name != b.name {
      LexLeqAntisymmetric(a.name, b.name);
    }
    LexLeqAntisymmetric(a.artist, b.artist);
  }

  ghost predicate SortedBy(order: ScanningOrder, s: seq<Song>)
    reads set y | y in s
  {
    forall i, j :: 0 <= i < j < |s| ==> Leq(order, s[i], s[j])
  }

  /** Inserts `x` after every element that does not come after it. */
  function Insert(order: ScanningOrder, x: Song, s: seq<Song>): (r: seq<Song>)
    reads x, set y | y in s
    ensures multiset(r) == multiset(s) + multiset{x}
  {
    if s == [] then [x]
    else if !Leq(order, s[0], x) then [x] + s
    else
      assert s == [s[0]] + s[1..];
      [s[0]] + Insert(order, x, s[1..])
  }

  /** The insertion sort, taking the elements in their original order. */
  function SortBy(order: ScanningOrder, s: seq<Song>): (r: seq<Song>)
    reads set y | y in s
    ensures multiset(r) == multiset(s)
  {
    if s == [] then []
    else
      assert s == s[..|s| - 1] + [s[|s| - 1]];
      var sorted := SortBy(order, s[..|s| - 1]);
      assert forall y | y in sorted :: y in multiset(s[..|s| - 1]) && y in s;
      Insert(order, s[|s| - 1], sorted)
  }

  lemma {:induction false} InsertSorted(order: ScanningOrder, x: Song, s: seq<Song>)
    requires SortedBy(order, s)
    ensures SortedBy(order, Insert(order, x, s))
    decreases |s|
  {
    if s == [] {
    } else if !Leq(order, s[0], x) {
      LeqTotal(order, s[0], x);
      forall j | 0 <= j < |s|
        ensures Leq(order, x, s[j])
      {
        if j > 0 {
          LeqTransitive(order, x, s[0], s[j]);
        }
      }
    } else {
      InsertSorted(order, x, s[1..]);
      InsertAfterSmaller(order, s[0], x, s[1..]);
    }
  }

  /** Every element of `Insert(order, x, s)` is `x` or an element of `s`. */
  lemma InsertMembers(order: ScanningOrder, x: Song, s: seq<Song>)
    ensures forall y | y in Insert(order, x, s) :: y == x || y in s
  {
    var r := Insert(order, x, s);
    forall y | y in r
      ensures y == x || y in s
    {
      assert y in multiset(r);
    }
  }

  /** An element before `x` and before all of `s` comes before everything in their insertion. */
  lemma InsertAfterSmaller(order: ScanningOrder, first: Song, x: Song, s: seq<Song>)
    requires Leq(order, first, x) && forall k :: 0 <= k < |s| ==> Leq(order, first, s[k])
    ensures forall k :: 0 <= k < |Insert(order, x, s)| ==> Leq(order, first, Insert(order, x, s)[k])
  {
    InsertMembers(order, x, s);
  }

  /** The sort gives a sorted permutation of its input. */
  lemma {:induction false} SortBySorted(order: ScanningOrder, s: seq<Song>)
    ensures SortedBy(order, SortBy(order, s))
    decreases |s|
  {
    if s != [] {
      SortBySorted(order, s[..|s| - 1]);
      InsertSorted(order, s[|s| - 1], SortBy(order, s[..|s| - 1]));
    }
  }

  /** The songs in the iterator's order: unchanged for `ADDING`, sorted otherwise. */
  function Ordered(order: ScanningOrder, s: seq<Song>): (r: seq<Song>)
    reads set y | y in s
    ensures multiset(r) == multiset(s)
  {
    if order == ADDING then s else SortBy(order, s)
  }

  /** Two sorted arrangements of the same songs, no two of them equal, start with the same song. */
  lemma SortedHeadsAgree(order: ScanningOrder, s: seq<Song>, t: seq<Song>)
    requires order != ADDING && NoEqualSongs(s) && s != []
    requires SortedBy(order, s) && SortedBy(order, t) && multiset(s) == multiset(t)
    ensures t != [] && s[0] == t[0]
  {
    assert s[0] in multiset(t);
    assert t != [] && t[0] in multiset(s);
    var i :| 0 <= i < |t| && t[i] == s[0];
    var j :| 0 <= j < |s| && s[j] == t[0];
    LeqReflexive(order, s[0]);
    assert Leq(order, t[0], s[0]) by {
      if i > 0 {
        assert Leq(order, t[0], t[i]);
      }
    }
    assert Leq(order, s[0], t[0]) by {
      if j > 0 {
        assert Leq(order, s[0], s[j]);
      }
    }
    LeqAntisymmetric(order, s[0], t[0]);
    assert s[j].Equals(s[0]);
  }

  /**
   * Among songs no two of which are equal, the order is total, so any two
   * sorted arrangements of the same songs coincide: the sort the library
   * performs and this one give the same list.
   */
  lemma {:induction false} SortedUnique(order: ScanningOrder, s: seq<Song>, t: seq<Song>)
    requires order != ADDING && NoEqualSongs(s)
    requires SortedBy(order, s) && SortedBy(order, t) && multiset(s) == multiset(t)
    ensures s == t
    decreases |s|
  {
    if s == [] {
      assert |t| == |multiset(t)| == 0;
    } else {
      SortedHeadsAgree(order, s, t);
      SortedTail(order, s);
      SortedTail(order, t);
      TailMultisets(s, t);
      SortedUnique(order, s[1..], t[1..]);
      assert s == [s[0]] + s[1..] && t == [t[0]] + t[1..];
    }
  }

  lemma SortedTail(order: ScanningOrder, s: seq<Song>)
    requires s != [] && SortedBy(order, s)
    ensures SortedBy(order, s[1..]) && (NoEqualSongs(s) ==> NoEqualSongs(s[1..]))
  {
    assert forall i :: 0 <= i < |s| - 1 ==> s[1..][i] == s[i + 1];
  }

  /** Taking the same first element off two lists with the same elements leaves lists with the same elements. */
  lemma TailMultisets(s: seq<Song>, t: seq<Song>)
    requires s != [] && t != [] && s[0] == t[0] && multiset(s) == multiset(t)
    ensures multiset(s[1..]) == multiset(t[1..])
  {
    assert s == [s[0]] + s[1..] && t == [t[0]] + t[1..];
    assert multiset(s[1..]) == multiset(s) - multiset{s[0]};
    assert multiset(t[1..]) == multiset(t) - multiset{s[0]};
  }

  /** Inserting a song equal to none of a list without equal songs gives a list without equal songs. */
  lemma {:induction false} InsertNoEqual(order: ScanningOrder, x: Song, s: seq<Song>)
    requires NoEqualSongs(s) && forall k :: 0 <= k < |s| ==> !x.Equals(s[k])
    ensures NoEqualSongs(Insert(order, x, s))
    decreases |s|
  {
    if s != [] && Leq(order, s[0], x) {
      InsertNoEqual(order, x, s[1..]);
      InsertMembers(order, x, s[1..]);
      var rest := Insert(order, x, s[1..]);
      forall k | 0 <= k < |rest|
        ensures !s[0].Equals(rest[k])
      {
        assert rest[k] in rest;
        if rest[k] != x {
          assert rest[k] in s[1..];
          var m :| 0 <= m < |s[1..]| && s[1..][m] == rest[k];
          assert s[m + 1] == rest[k];
        }
      }
    }
  }

  /** Sorting keeps a list free of equal songs. */
  lemma {:induction false} SortByNoEqual(order: ScanningOrder, s: seq<Song>)
    requires NoEqualSongs(s)
    ensures NoEqualSongs(SortBy(order, s))
    decreases |s|
  {
    if s != [] {
      var front, x := s[..|s| - 1], s[|s| - 1];
      SortByNoEqual(order, front);
      var sorted := SortBy(order, front);
      forall k | 0 <= k < |sorted|
        ensures !x.Equals(sorted[k])
      {
        assert sorted[k] in multiset(front);
        var m :| 0 <= m < |front| && front[m] == sorted[k];
        assert s[m] == sorted[k];
      }
      InsertNoEqual(order, x, sorted);
    }
  }
}
