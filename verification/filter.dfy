/** The search-and-theme filter of applyFilters and the theme options of
    populateThemeFilter. */
module Filter {
  import opened Text
  import opened Songs

  /** The text the free-text search looks into: the title, author,
      collection, references and themes, separated by spaces, lower-cased. */
  function SearchText(song: Song): string {
    Lower(song.titre + " " + song.auteur + " " + song.recueil + " "
          + song.references + " " + Join(song.themes, " "))
  }

  /** The predicate handed to allSongs.filter, for an already lower-cased
      query q: the query is empty or found in the search text, and the theme
      is empty or one of the song's themes. */
  predicate Keep(song: Song, q: string, theme: string) {
    (q == "" || Includes(SearchText(song), q))
    && (theme == "" || theme in song.themes)
  }

  /** `a` is an order-preserving subsequence of `b`. */
  predicate IsSubsequence<T(==)>(a: seq<T>, b: seq<T>) {
    if a == [] then true
    else if b == [] then false
    else if a[0] == b[0] then IsSubsequence(a[1..], b[1..])
    else IsSubsequence(a, b[1..])
  }

  lemma {:induction false} SubsequenceReflexive<T>(a: seq<T>)
    ensures IsSubsequence(a, a)
  {
    if a != [] { SubsequenceReflexive(a[1..]); }
  }

  /** allSongs.filter(...): the songs that pass Keep, in their original
      order, each as often as it occurs in the input. */
  function FilterSongs(songs: seq<Song>, q: string, theme: string): (r: seq<Song>)
    ensures IsSubsequence(r, songs)
    ensures forall s :: s in r <==> s in songs && Keep(s, q, theme)
  {
    if songs == [] then []
    else
      var rest := FilterSongs(songs[1..], q, theme);
      assert songs == [songs[0]] + songs[1..];
      if Keep(songs[0], q, theme) then [songs[0]] + rest else rest
  }

  /** A kept song occurs in the result exactly as often as in the input. */
  lemma {:induction false} FilterCounts(songs: seq<Song>, q: string, theme: string, s: Song)
    requires Keep(s, q, theme)
    ensures multiset(FilterSongs(songs, q, theme))[s] == multiset(songs)[s]
  {
    if songs != [] {
      FilterCounts(songs[1..], q, theme, s);
      assert songs == [songs[0]] + songs[1..];
    }
  }

  /** With no query and no theme every song is shown. */
  lemma {:induction false} FilterNoCriteria(songs: seq<Song>)
    ensures FilterSongs(songs, "", "") == songs
  {
    if songs != [] {
      FilterNoCriteria(songs[1..]);
      assert songs == [songs[0]] + songs[1..];
    }
  }

  /** Filtering a filtered list again with the same criteria changes nothing. */
  lemma {:induction false} FilterIdempotent(songs: seq<Song>, q: string, theme: string)
    ensures FilterSongs(FilterSongs(songs, q, theme), q, theme) == FilterSongs(songs, q, theme)
  {
    if songs != [] {
      FilterIdempotent(songs[1..], q, theme);
    }
  }

  /** AND semantics: filtering by both criteria is filtering by the query,
      then by the theme. */
  lemma {:induction false} FilterConjunction(songs: seq<Song>, q: string, theme: string)
    ensures FilterSongs(songs, q, theme) == FilterSongs(FilterSongs(songs, q, ""), "", theme)
  {
    if songs != [] {
      FilterConjunction(songs[1..], q, theme);
    }
  }

  /** The filter works song by song: filtering a concatenation is the
      concatenation of the filtered parts. */
  lemma {:induction false} FilterAppend(a: seq<Song>, b: seq<Song>, q: string, theme: string)
    ensures FilterSongs(a + b, q, theme) == FilterSongs(a, q, theme) + FilterSongs(b, q, theme)
  {
    if a != [] {
      assert (a + b)[0] == a[0];
      assert (a + b)[1..] == a[1..] + b;
      FilterAppend(a[1..], b, q, theme);
      if Keep(a[0], q, theme) {
        assert FilterSongs(a + b, q, theme) == [a[0]] + FilterSongs(a[1..] + b, q, theme);
      } else {
        assert FilterSongs(a + b, q, theme) == FilterSongs(a[1..] + b, q, theme);
      }
    } else {
      assert a + b == b;
    }
  }

  /** Text found in the lower-cased start of a string is found in the
      lower-cased whole string. */
  lemma {:induction false} LowerPrefixIncludes(a: string, b: string, pat: string)
    requires Includes(Lower(a), pat)
    ensures Includes(Lower(a + b), pat)
  {
    LowerAppend(a, b);
    IncludesWithin([], Lower(a), Lower(b), pat);
    assert [] + Lower(a) + Lower(b) == Lower(a) + Lower(b);
  }

  /** A song whose title contains the typed query, in any letter case, is
      found by the search when no theme is selected. */
  lemma {:induction false} TitleMatchIsKept(song: Song, query: string)
    requires Includes(Lower(song.titre), Lower(query))
    ensures Keep(song, Lower(query), "")
  {
    var q := Lower(query);
    var s1 := song.titre + " ";
    LowerPrefixIncludes(song.titre, " ", q);
    var s2 := s1 + song.auteur;
    LowerPrefixIncludes(s1, song.auteur, q);
    var s3 := s2 + " ";
    LowerPrefixIncludes(s2, " ", q);
    var s4 := s3 + song.recueil;
    LowerPrefixIncludes(s3, song.recueil, q);
    var s5 := s4 + " ";
    LowerPrefixIncludes(s4, " ", q);
    var s6 := s5 + song.references;
    LowerPrefixIncludes(s5, song.references, q);
    var s7 := s6 + " ";
    LowerPrefixIncludes(s6, " ", q);
    LowerPrefixIncludes(s7, Join(song.themes, " "), q);
    assert SearchText(song) == Lower(s7 + Join(song.themes, " "));
  }

  /** The query is already lower-cased, so lower-casing it again does not
      change which songs pass. */
  lemma {:induction false} KeepRelowered(song: Song, query: string, theme: string)
    ensures Keep(song, Lower(Lower(query)), theme) == Keep(song, Lower(query), theme)
  {
    LowerIdempotent(query);
  }

  /** A song with a selected theme it does not carry is left out whatever
      the query; a song the query misses is left out whatever the theme. */
  lemma {:induction false} OneSidedMatchExcluded(songs: seq<Song>, song: Song, q: string, theme: string)
    requires song in songs
    requires (theme != "" && theme !in song.themes) || (q != "" && !Includes(SearchText(song), q))
    ensures song !in FilterSongs(songs, q, theme)
  {
  }

  // ---------------------------------------------------------------------------
  // Theme options
  // ---------------------------------------------------------------------------

  /** Every theme carried by some song. */
  ghost function ThemesOf(songs: seq<Song>): set<string> {
    set song, t | song in songs && t in song.themes :: t
  }

  lemma {:induction false} ThemesOfSnoc(songs: seq<Song>, song: Song)
    ensures ThemesOf(songs + [song]) == ThemesOf(songs) + set k | 0 <= k < |song.themes| :: song.themes[k]
  {
    var l := ThemesOf(songs + [song]);
    var r := ThemesOf(songs) + set k | 0 <= k < |song.themes| :: song.themes[k];
    forall t | t in l ensures t in r {
      var s' :| s' in songs + [song] && t in s'.themes;
      if s' != song {
        assert s' in songs;
      } else {
        var k :| 0 <= k < |song.themes| && song.themes[k] == t;
      }
    }
    forall t | t in r ensures t in l {
      if t in ThemesOf(songs) {
        var s' :| s' in songs && t in s'.themes;
        assert s' in songs + [song];
      } else {
        var k :| 0 <= k < |song.themes| && song.themes[k] == t;
        assert song in songs + [song] && t in song.themes;
      }
    }
  }

  /** populateThemeFilter: collect the themes of all songs into a set, then
      list it in sorted order. The options are strictly increasing (so each
      theme appears once) and are exactly the themes of the songs. */
  method ThemeOptions(all: seq<Song>) returns (options: seq<string>)
    ensures Sorted(options)
    ensures forall t :: t in options <==> t in ThemesOf(all)
  {
    var themes: set<string> := {};
    for i := 0 to |all|
      invariant themes == ThemesOf(all[..i])
    {
      var song := all[i];
      for j := 0 to |song.themes|
        invariant themes == ThemesOf(all[..i]) + set k | 0 <= k < j :: song.themes[k]
      {
        themes := themes + {song.themes[j]};
      }
      assert all[..i + 1] == all[..i] + [song];
      ThemesOfSnoc(all[..i], song);
    }
    assert all[..|all|] == all;
    // [...themes].sort()
    options := [];
    var rest := themes;
    while rest != {}
      invariant rest <= themes
      invariant Sorted(options)
      invariant forall t :: t in options <==> t in themes && t !in rest
      decreases rest
    {
      var t :| t in rest;
      options := Insert(t, options);
      rest := rest - {t};
    }
  }
}
