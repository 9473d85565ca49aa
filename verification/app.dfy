/** The page's module-level state, allSongs and filteredSongs, with the two
    operations that assign it: the completion callback of loadSheetData and
    applyFilters. The theme <select> and the table body are kept as the
    values they hold: the list of option texts and the list of rendered rows. */
module App {
  import opened Text
  import opened Songs
  import opened Filter
  import opened Render

  class SongTable {
    /** Every song of the sheet, in sheet order. */
    var allSongs: seq<Song>
    /** The songs currently shown, after search and theme filter. */
    var filteredSongs: seq<Song>
    /** The option texts appended to the theme <select>. */
    var themeOptions: seq<string>
    /** The rows of the table body, one list of cell markup per row. */
    var tableRows: seq<seq<string>>

    /** The view is drawn from the full list and the table shows it. */
    ghost predicate Valid()
      reads this
    {
      && IsSubsequence(filteredSongs, allSongs)
      && |tableRows| == |filteredSongs|
      && forall i :: 0 <= i < |filteredSongs| ==> tableRows[i] == Cells(filteredSongs[i])
    }

    /** The state before the sheet has loaded: nothing to show. */
    constructor ()
      ensures Valid()
      ensures allSongs == [] && filteredSongs == [] && themeOptions == [] && tableRows == []
    {
      allSongs := [];
      filteredSongs := [];
      themeOptions := [];
      tableRows := [];
    }

    /** The completion callback of loadSheetData, given the parsed rows:
        normalise every row, show all songs, append the sorted distinct
        themes to the theme options and draw the table. */
    method LoadSheetData(rows: seq<Row>)
      requires Valid()
      modifies this
      ensures Valid()
      ensures |allSongs| == |rows|
      ensures forall i :: 0 <= i < |rows| ==> allSongs[i] == NormalizeRow(rows[i])
      ensures filteredSongs == allSongs
      ensures |themeOptions| >= |old(themeOptions)|
      ensures themeOptions[..|old(themeOptions)|] == old(themeOptions)
      ensures Sorted(themeOptions[|old(themeOptions)|..])
      ensures forall t :: t in themeOptions[|old(themeOptions)|..] <==> t in ThemesOf(allSongs)
    {
      var songs := seq(|rows|, i requires 0 <= i < |rows| => NormalizeRow(rows[i]));
      allSongs := songs;
      filteredSongs := songs;
      SubsequenceReflexive(songs);
      var options := ThemeOptions(songs);
      ghost var before := themeOptions;
      themeOptions := themeOptions + options;
      assert themeOptions[|before|..] == options;
      tableRows := RenderTable(filteredSongs);
    }

    /** applyFilters, given the search box text and the selected theme:
        recompute the shown songs from the full list, leaving the full list
        alone, and redraw the table. */
    method ApplyFilters(query: string, selectedTheme: string)
      requires Valid()
      modifies this
      ensures Valid()
      ensures allSongs == old(allSongs) && themeOptions == old(themeOptions)
      ensures filteredSongs == FilterSongs(allSongs, Lower(query), selectedTheme)
      ensures forall s :: s in filteredSongs <==>
                s in allSongs && Keep(s, Lower(query), selectedTheme)
      ensures query == "" && selectedTheme == "" ==> filteredSongs == allSongs
    {
      var q := Lower(query);
      filteredSongs := FilterSongs(allSongs, q, selectedTheme);
      if query == "" && selectedTheme == "" {
        FilterNoCriteria(allSongs);
      }
      tableRows := RenderTable(filteredSongs);
    }
  }
}
