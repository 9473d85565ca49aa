# Louange ce Paix song repertoire — a Dafny model of the page script

The page shows a repertoire of songs read from a published Google Sheet.
Each sheet row (a map from column header to cell text) is normalised into a
song record: title, author, collection, themes, two score links, three audio
links (melody, alto, tenor) and scripture references. A free-text search box
and a theme drop-down filter the table; the drop-down lists the distinct
themes of all songs in sorted order; each table row shows the themes and the
links as badges.

This project models that logic of `app.js` in Dafny and proves what it
promises:

- `text.dfy` (module `Text`): the JavaScript string operations the script
  relies on — `trim`, `split` on one character, `join`, `includes`,
  `toLowerCase`, and the string order used by `sort` — each with a contract
  that says what it computes (the trimmed string is a whitespace-bordered
  piece of the input; `split`/`join` are inverse; the search behind
  `includes` and the regular-expression scan finds the first occurrence;
  sorted sequences are determined by their elements).
- `songs.dfy` (module `Songs`): `normalizeRow` with its `safe` helper and the
  `a || b` column fallback, theme parsing, and `convertGoogleLink`, whose
  regular expression `/\/d\/(.*?)\//` is specified as the leftmost, shortest
  match and proved to be what the function computes.
- `filter.dfy` (module `Filter`): the predicate given to `allSongs.filter`
  in `applyFilters`, the filtered list as a function, and
  `populateThemeFilter`'s set-then-sort collection of theme options as a
  method with loops.
- `render.dfy` (module `Render`): `renderThemeBadges`,
  `renderPartitionBadges`, `renderAudioBadges` and the cell contents that
  `renderTable` writes for each song.
- `app.dfy` (module `App`): the module-level state `allSongs` /
  `filteredSongs` as class `SongTable`, with the load callback and
  `applyFilters` as methods that assign it; the theme `<select>` and the
  table body are kept as the lists of option texts and row cells they hold.

Three facts about `app.js` that shape the model:

- themes are split on `,` only, so a `;` stays inside a theme
  (`"Noël ; Avent, Pâques"` gives `Noël ; Avent` and `Pâques`);
- only the `/d/<id>/` share-link shape is rewritten; every link where that
  pattern does not match is returned unchanged;
- `Papa.parse` is given no error callback (app.js:27-37), so a failed
  download leaves the table empty and no status message exists to model.

## Model

| member | source | states |
|---|---|---|
| `Text.Trim` | app.js:44 | the result neither starts nor ends with whitespace and is a contiguous piece of the input bordered only by whitespace |
| `Text.TrimIdempotent` | app.js:53 | trimming an already trimmed theme piece changes nothing |
| `Text.TrimAllSpace` | app.js:44 | a whitespace-only value trims to the empty string |
| `Text.Split` | app.js:52 | `split(",")` yields at least one piece and no piece contains the separator |
| `Text.JoinSplit` | app.js:52 | joining the pieces of `split` with the separator gives back the original string |
| `Text.SplitJoin` | app.js:52 | splitting a join of separator-free pieces gives back those pieces |
| `Text.SplitAppend` | app.js:52 | a separator between two strings splits exactly there, pieces of the left part first |
| `Text.IndexFrom` | app.js:71-73 | the first-occurrence search behind `includes` and behind the regular-expression scan of `DriveId`: it returns a position at or after the start where the pattern occurs with no earlier occurrence, or None exactly when it occurs nowhere from there on |
| `Text.IncludesIff` | app.js:188 | `includes` holds exactly when the pattern occurs at some position |
| `Text.LowerIdempotent` | app.js:178-188 | lower-casing an already lower-cased string changes nothing |
| `Filter.KeepRelowered` | app.js:178-191 | lower-casing the already lower-cased query again does not change whether a song passes the filter |
| `Text.Insert` | app.js:166 | inserting a new string into a strictly sorted list keeps it strictly sorted and adds exactly that string |
| `Text.SortedUnique` | app.js:166 | two strictly sorted lists with the same elements are equal, so the sorted option list is determined by the theme set |
| `Songs.Or` | app.js:47 | the JavaScript logical-or of two cells is truthy iff one operand is, and is the first whenever it is truthy, the second otherwise |
| `Songs.Safe` | app.js:44 | `safe` returns a trimmed string, `""` for a missing or empty value, and for a present value exactly that value with its leading and trailing whitespace removed |
| `Songs.ParseThemes` | app.js:51-54 | every parsed theme is non-empty, has no surrounding whitespace and contains no comma |
| `Songs.ParseThemesAppend` | app.js:51-54 | the themes of `a,b` are the themes of `a` followed by those of `b`: order is preserved |
| `Songs.ParseThemesJoin` | app.js:51-54 | a comma-joined list of whitespace-padded themes parses back to the trimmed themes |
| `Songs.ParseThemesBlank` | app.js:51-54 | a comma-free piece that is empty or whitespace only yields no theme, so blank pieces between commas are dropped |
| `Songs.DriveId` | app.js:72-73 | the captured id is the text between the leftmost `/d/` and the nearest following `/` (the regex's leftmost lazy match), and there is one exactly when the regex matches |
| `Songs.ConvertGoogleLink` | app.js:70-75 | a link without `drive.google.com`, or where the regex does not match, is returned unchanged; otherwise the result is the download prefix followed by the captured id |
| `Songs.DriveIdHasNoSlash` | app.js:72 | the captured id contains no `/` and the link contains `/d/<id>/` |
| `Songs.RewrittenHasNoPattern` | app.js:74 | a rewritten download link contains no `/d/…/` match |
| `Songs.ConvertUnchangedIff` | app.js:71-74 | a link comes back unchanged exactly when it is not a Drive link or the id pattern does not match |
| `Songs.ConvertIdempotent` | app.js:70-75 | rewriting an already rewritten link changes nothing |
| `Songs.NormalizeRow` | app.js:43-65 | title, author, collection and references are trimmed; themes are non-empty, trimmed and comma-free; a present collection cell becomes its trimmed text and a present score or audio cell becomes its trimmed text passed through `convertGoogleLink`; every field whose columns are missing or empty comes out empty |
| `Songs.TitreFallback` | app.js:47 | a non-empty `Titre` cell wins and is trimmed; only an empty or missing one lets `title` through |
| `Songs.AuteurFallback` | app.js:48 | a non-empty `Auteur` cell wins and is trimmed; only an empty or missing one lets `author` through |
| `Songs.ThemesFallback` | app.js:51 | a non-empty `Thèmes` cell is the one parsed; only an empty or missing one lets `Themes` through |
| `Songs.ReferencesFallback` | app.js:63 | a non-empty `Références bibliques` cell wins and is trimmed; only an empty or missing one lets `Refs` through |
| `Songs.WhitespaceTitreWins` | app.js:47 | a whitespace-only `Titre` still wins over `title` and gives an empty title |
| `Filter.FilterSongs` | app.js:181-194 | the result is an order-preserving subsequence of the songs, and a song is in it iff it is in the input and passes both the query and the theme test |
| `Filter.FilterCounts` | app.js:181-194 | a kept song occurs in the result as often as in the input |
| `Filter.FilterNoCriteria` | app.js:188-191 | with empty query and no theme the filtered list is the full list |
| `Filter.FilterIdempotent` | app.js:181-194 | filtering the filtered list again with the same query and theme changes nothing |
| `Filter.FilterConjunction` | app.js:182-193 | filtering by query and theme equals filtering by the query, then by the theme (AND semantics) |
| `Filter.FilterAppend` | app.js:181-194 | filtering works song by song: the filter of a concatenation is the concatenation of the filters |
| `Filter.TitleMatchIsKept` | app.js:185-188 | a song whose title contains the typed query in any letter case is found when no theme is selected |
| `Filter.OneSidedMatchExcluded` | app.js:188-191 | a song that misses the query or lacks the selected theme is not shown |
| `Filter.ThemeOptions` | app.js:162-166 | the theme options are strictly sorted (so without duplicates) and are exactly the themes of all songs; by `Text.SortedUnique` no other list has both properties |
| `Render.ThemeBadges` | app.js:104-108 | the theme badge markup is empty exactly when the song has no themes |
| `Render.ThemeBadgesAppend` | app.js:104-108 | badges come in theme order: the badges of a concatenation are the badges of each part in turn |
| `Render.LinkBadges` | app.js:113-140 | the badges of a link list are empty exactly when every link is empty |
| `Render.PartitionBadges` | app.js:113-123 | the output is the PDF 1 badge then the PDF 2 badge, each only when its link is present; empty iff both links are empty |
| `Render.AudioBadges` | app.js:128-141 | the output is the Mélodie, Alto and Ténor badges in that order, each only when its link is present; empty iff all three are empty |
| `Render.RenderRow` | app.js:84-96 | the cells built for one song from the badge renderers' output are exactly that song's seven cells |
| `Render.RenderTable` | app.js:80-98 | one row per song, in the given order, each holding that song's seven cells |
| `App.SongTable.constructor` | app.js:20-21 | before loading, the full list, the shown list, the options and the table are empty |
| `App.SongTable.LoadSheetData` | app.js:31-36 | the full list is the normalised rows in order, all songs are shown, the sorted distinct themes are appended to the options and the table shows every song |
| `App.SongTable.ApplyFilters` | app.js:177-197 | the shown list is recomputed from the unchanged full list with the lower-cased query and the theme, a song is shown iff it passes both tests, and the table is redrawn |

## Left out

- Downloading and parsing the CSV (`Papa.parse`, app.js:26-38): a foreign library doing network I/O; `LoadSheetData` receives the parsed rows as a parameter.
- DOM plumbing (app.js:15-18, 80-99, 146-158, 167-171): `querySelector`, `createElement`, `innerHTML`, `appendChild`, event listeners and `window.open`; the model keeps the strings produced (cell markup, option texts) and takes the search text and selected theme as parameters.
- The configuration constants (app.js:4-10): data, not behaviour.
- Text.Lower: lowers only ASCII and Latin-1 capitals; the rest of the Unicode case tables used by `toLowerCase` are not modelled.
- Text.Less: orders strings by Unicode scalar value, whereas `sort` compares UTF-16 code units; the two orders differ only for characters outside the Basic Multilingual Plane.
- Songs.PatternMatch: lets `.` match every character; JavaScript's `.` does not match line terminators, which links are assumed not to contain.
- Songs.NormalizeRow: does not claim the link fields are trimmed, because a rewritten link ends with the captured id, which may end in whitespace just before its closing `/`.
- The `<td>` wrappers of the row template (app.js:87-95), with their CSS classes and the template's whitespace: a row is modelled as the list of its seven cell contents.
- Browser parsing of the generated markup, including the absence of HTML escaping of cell text: the model stops at the markup strings.
