/** From one parsed spreadsheet row to a song record (normalizeRow and its
    `safe` helper), including the rewrite of Google Drive share links into
    direct-download links (convertGoogleLink). */
module Songs {
  import opened Text

  /** One row as the CSV parser hands it over: column header to cell text. */
  type Row = map<string, string>

  /** The canonical song record the rest of the page works with. */
  datatype Song = Song(
    titre: string,
    auteur: string,
    recueil: string,
    themes: seq<string>,
    partition1: string,
    partition2: string,
    audioMelodie: string,
    audioAlto: string,
    audioTenor: string,
    references: string)

  // ---------------------------------------------------------------------------
  // Cells and JavaScript truthiness
  // ---------------------------------------------------------------------------

  /** row[column]: the cell text, or None where JavaScript yields undefined. */
  function Cell(row: Row, column: string): (v: Option<string>)
    ensures v.Some? <==> column in row
    ensures v.Some? ==> v.value == row[column]
  {
    if column in row then Some(row[column]) else None
  }

  /** A string value is truthy when it is defined and not empty. */
  predicate Truthy(v: Option<string>) {
    v.Some? && v.value != ""
  }

  /** `a || b`: the first operand when it is truthy, otherwise the second. */
  function Or(a: Option<string>, b: Option<string>): (r: Option<string>)
    ensures Truthy(r) <==> Truthy(a) || Truthy(b)
    ensures Truthy(a) ==> r == a
    ensures !Truthy(a) ==> r == b
  {
    if Truthy(a) then a else b
  }

  /** The `safe` helper: the trimmed text of a truthy value, "" otherwise. */
  function Safe(v: Option<string>): (r: string)
    ensures IsTrimmed(r)
    ensures !Truthy(v) ==> r == ""
    ensures Truthy(v) ==> Bordered(v.value, r, |v.value| - |TrimStart(v.value)|)
  {
    if Truthy(v) then Trim(v.value) else ""
  }

  // ---------------------------------------------------------------------------
  // Themes: split on ',', trim each piece, drop the empty ones
  // ---------------------------------------------------------------------------

  /** `.map((t) => t.trim())` */
  function TrimEach(pieces: seq<string>): (r: seq<string>)
    ensures |r| == |pieces|
    ensures forall i :: 0 <= i < |r| ==> r[i] == Trim(pieces[i])
  {
    if pieces == [] then [] else [Trim(pieces[0])] + TrimEach(pieces[1..])
  }

  /** `.filter((t) => t.length > 0)` */
  function DropEmpty(pieces: seq<string>): (r: seq<string>)
    ensures |r| <= |pieces|
    ensures forall t :: t in r <==> t in pieces && t != ""
  {
    if pieces == [] then []
    else if pieces[0] == "" then DropEmpty(pieces[1..])
    else [pieces[0]] + DropEmpty(pieces[1..])
  }

  /** The theme list of one raw theme cell. Every theme is non-empty, has no
      surrounding whitespace and no comma. */
  function ParseThemes(raw: string): (r: seq<string>)
    ensures forall t :: t in r ==> t != "" && IsTrimmed(t) && ',' !in t
  {
    var pieces := Split(raw, ',');
    var trimmed := TrimEach(pieces);
    forall i | 0 <= i < |pieces| ensures ',' !in trimmed[i] {
      TrimKeepsOut(pieces[i], ',');
    }
    DropEmpty(trimmed)
  }

  lemma {:induction false} DropEmptyAppend(a: seq<string>, b: seq<string>)
    ensures DropEmpty(a + b) == DropEmpty(a) + DropEmpty(b)
  {
    if a != [] {
      assert (a + b)[1..] == a[1..] + b;
      DropEmptyAppend(a[1..], b);
    } else {
      assert a + b == b;
    }
  }

  lemma {:induction false} DropEmptyNone(a: seq<string>)
    requires forall t :: t in a ==> t != ""
    ensures DropEmpty(a) == a
  {
    if a != [] {
      assert a[0] in a;
      assert forall t :: t in a[1..] ==> t in a;
      DropEmptyNone(a[1..]);
      assert a == [a[0]] + a[1..];
    }
  }

  lemma {:induction false} TrimEachAppend(a: seq<string>, b: seq<string>)
    ensures TrimEach(a + b) == TrimEach(a) + TrimEach(b)
  {
    if a != [] {
      assert (a + b)[1..] == a[1..] + b;
      assert TrimEach(a + b) == [Trim(a[0])] + TrimEach((a + b)[1..]);
      TrimEachAppend(a[1..], b);
    } else {
      assert a + b == b;
    }
  }

  /** Themes keep their left-to-right order: the themes of `a,b` are the
      themes of a followed by the themes of b. */
  lemma {:induction false} ParseThemesAppend(a: string, b: string)
    ensures ParseThemes(a + [','] + b) == ParseThemes(a) + ParseThemes(b)
  {
    var pa, pb := Split(a, ','), Split(b, ',');
    SplitAppend(a, b, ',');
    TrimEachAppend(pa, pb);
    DropEmptyAppend(TrimEach(pa), TrimEach(pb));
  }

  /** A blank piece, empty or whitespace only, yields no theme; with
      ParseThemesAppend, blank pieces anywhere in the cell are dropped. */
  lemma {:induction false} ParseThemesBlank(p: string)
    requires ',' !in p && AllSpace(p)
    ensures ParseThemes(p) == []
  {
    SplitNoSeparator(p, ',');
    TrimAllSpace(p);
    assert TrimEach([p]) == [""];
    assert DropEmpty([""]) == [];
  }

  /** Round trip: a comma-joined list of pieces, each padded with any
      whitespace around a non-empty theme, parses back to those themes. */
  lemma {:induction false} ParseThemesJoin(pieces: seq<string>)
    requires forall p :: p in pieces ==> ',' !in p && Trim(p) != ""
    ensures ParseThemes(Join(pieces, [','])) == TrimEach(pieces)
  {
    if pieces == [] {
      assert Split("", ',') == [""];
      assert TrimEach([""]) == [""] by { TrimAllSpace(""); }
    } else {
      SplitJoin(pieces, ',');
      DropEmptyNone(TrimEach(pieces));
    }
  }

  // ---------------------------------------------------------------------------
  // Google Drive links
  // ---------------------------------------------------------------------------

  const DriveHost := "drive.google.com"
  /** "https://drive.google.com/uc?export=download&id=", spelled in parts so
      that its slashes can be located. */
  const DownloadPrefix := "https:" + "//" + DriveHost + "/" + "uc?export=download&id="

  /** Two characters apart, the download prefix never has a slash twice. */
  lemma {:induction false} PrefixSlashesApart(i: int)
    requires 0 <= i < |DownloadPrefix| - 2
    ensures !(DownloadPrefix[i] == '/' && DownloadPrefix[i + 2] == '/')
  {
    var query := "uc?export=download&id=";
    assert |DownloadPrefix| == 47;
    assert '/' !in "https:" && '/' !in DriveHost && '/' !in query;
    if i < 6 { assert DownloadPrefix[i] == "https:"[i]; }
    else if i < 8 { assert DownloadPrefix[i + 2] == DriveHost[i - 6]; }
    else if i < 24 { assert DownloadPrefix[i] == DriveHost[i - 8]; }
    else if i == 24 { assert DownloadPrefix[i + 2] == query[1]; }
    else { assert DownloadPrefix[i] == query[i - 25]; }
  }

  /** A match of the regular expression /\/d\/(.*?)\// in url that starts at
      i and whose closing slash is at k (`.` is taken to match any character). */
  ghost predicate PatternMatch(url: string, i: int, k: int) {
    OccursAt(url, "/d/", i) && i + 3 <= k < |url| && url[k] == '/'
  }

  /** The match String.prototype.match reports: the leftmost start and, for
      the lazy `.*?`, the nearest closing slash. */
  ghost predicate FirstMatch(url: string, i: int, k: int) {
    PatternMatch(url, i, k)
    && forall i', k' :: PatternMatch(url, i', k') ==> i < i' || (i == i' && k <= k')
  }

  /** The captured group `idMatch[1]`: the text between the first "/d/" and
      the next '/', or None when the expression does not match. */
  function DriveId(url: string): (r: Option<string>)
    ensures r.Some? <==> exists i, k :: PatternMatch(url, i, k)
    ensures r.Some? ==> exists i, k :: FirstMatch(url, i, k) && r.value == url[i + 3..k]
  {
    match IndexOf(url, "/d/")
    case None => None
    case Some(i) =>
      match IndexFrom(url, "/", i + 3)
      case None =>
        forall i', k' | PatternMatch(url, i', k') ensures false {
          assert OccursAt(url, "/", k') by { assert url[k'..k' + 1] == "/"; }
        }
        None
      case Some(k) =>
        assert PatternMatch(url, i, k) by { assert url[k..k + 1] == "/"; }
        assert FirstMatch(url, i, k) by {
          forall i', k' | PatternMatch(url, i', k') ensures i < i' || (i == i' && k <= k') {
            assert OccursAt(url, "/", k') by { assert url[k'..k' + 1] == "/"; }
          }
        }
        Some(url[i + 3..k])
  }

  /** convertGoogleLink: a Drive share link whose path holds /d/<id>/ becomes
      the direct-download link for <id>; anything else is returned as is. */
  function ConvertGoogleLink(url: string): (r: string)
    ensures !Includes(url, DriveHost) ==> r == url
    ensures DriveId(url).None? ==> r == url
    ensures Includes(url, DriveHost) && DriveId(url).Some? ==>
              r == DownloadPrefix + DriveId(url).value
  {
    assert !Includes("", DriveHost);
    if url == "" || !Includes(url, DriveHost) then url
    else
      match DriveId(url)
      case None => url
      case Some(id) => DownloadPrefix + id
  }

  /** The captured id never contains a slash: it stops at the first one. */
  lemma {:induction false} DriveIdHasNoSlash(url: string)
    requires DriveId(url).Some?
    ensures '/' !in DriveId(url).value
    ensures exists i :: OccursAt(url, "/d/" + DriveId(url).value + "/", i)
  {
    var id := DriveId(url).value;
    var i, k :| FirstMatch(url, i, k) && id == url[i + 3..k];
    FirstMatchNoSlash(url, i, k);
    MatchSpellsId(url, i, k);
  }

  lemma {:induction false} FirstMatchNoSlash(url: string, i: int, k: int)
    requires FirstMatch(url, i, k)
    ensures '/' !in url[i + 3..k]
  {
    if '/' in url[i + 3..k] {
      var j :| 0 <= j < k - i - 3 && url[i + 3..k][j] == '/';
      assert PatternMatch(url, i, i + 3 + j);
    }
  }

  lemma {:induction false} MatchSpellsId(url: string, i: int, k: int)
    requires PatternMatch(url, i, k)
    ensures OccursAt(url, "/d/" + url[i + 3..k] + "/", i)
  {
    assert url[i..i + 3] == "/d/";
    assert url[k..k + 1] == "/";
    assert url[i..k] == url[i..i + 3] + url[i + 3..k];
    assert url[i..k + 1] == url[i..k] + url[k..k + 1];
  }

  /** The download prefix holds no "/d/", so neither does a rewritten link. */
  lemma {:induction false} RewrittenHasNoPattern(id: string)
    requires '/' !in id
    ensures forall i, k :: !PatternMatch(DownloadPrefix + id, i, k)
  {
    var r := DownloadPrefix + id;
    forall i, k | PatternMatch(r, i, k) ensures false {
      var w := r[i..i + 3];
      assert w == "/d/";
      assert r[i] == w[0] && r[i + 2] == w[2];
      if i + 2 < |DownloadPrefix| {
        assert r[i] == DownloadPrefix[i] && r[i + 2] == DownloadPrefix[i + 2];
        PrefixSlashesApart(i);
      }
    }
  }

  /** A link comes back unchanged exactly when it is not a Drive link or the
      id pattern does not match. */
  lemma {:induction false} ConvertUnchangedIff(url: string)
    ensures ConvertGoogleLink(url) == url <==>
              !Includes(url, DriveHost) || DriveId(url).None?
  {
    if Includes(url, DriveHost) && DriveId(url).Some? {
      var id := DriveId(url).value;
      DriveIdHasNoSlash(url);
      RewrittenHasNoPattern(id);
      var i, k :| PatternMatch(url, i, k);
      assert !PatternMatch(DownloadPrefix + id, i, k);
    }
  }

  /** Rewriting is idempotent: a rewritten link is left alone. */
  lemma {:induction false} ConvertIdempotent(url: string)
    ensures ConvertGoogleLink(ConvertGoogleLink(url)) == ConvertGoogleLink(url)
  {
    if Includes(url, DriveHost) && DriveId(url).Some? {
      var id := DriveId(url).value;
      DriveIdHasNoSlash(url);
      RewrittenHasNoPattern(id);
    }
  }

  // ---------------------------------------------------------------------------
  // normalizeRow
  // ---------------------------------------------------------------------------

  /** Raw text of the theme cell: "Thèmes", else "Themes". */
  function ThemeCell(row: Row): Option<string> {
    Or(Or(Cell(row, "Th\U{E8}mes"), Cell(row, "Themes")), Some(""))
  }

  /** normalizeRow: every field picks the first truthy of its alternative
      columns, trims it and defaults to ""; themes are parsed from the theme
      cell and every link goes through ConvertGoogleLink. */
  function NormalizeRow(row: Row): (r: Song)
    ensures IsTrimmed(r.titre) && IsTrimmed(r.auteur)
    ensures IsTrimmed(r.recueil) && IsTrimmed(r.references)
    ensures forall t :: t in r.themes ==> t != "" && IsTrimmed(t) && ',' !in t
    ensures !Truthy(Cell(row, "Titre")) && !Truthy(Cell(row, "title")) ==> r.titre == ""
    ensures !Truthy(Cell(row, "Auteur")) && !Truthy(Cell(row, "author")) ==> r.auteur == ""
    ensures Truthy(Cell(row, "Recueil")) ==> r.recueil == Trim(row["Recueil"])
    ensures !Truthy(Cell(row, "Recueil")) ==> r.recueil == ""
    ensures !Truthy(Cell(row, "Th\U{E8}mes")) && !Truthy(Cell(row, "Themes")) ==> r.themes == []
    ensures Truthy(Cell(row, "Partition (PDF)")) ==>
              r.partition1 == ConvertGoogleLink(Trim(row["Partition (PDF)"]))
    ensures !Truthy(Cell(row, "Partition (PDF)")) ==> r.partition1 == ""
    ensures Truthy(Cell(row, "Partition (PDF 2)")) ==>
              r.partition2 == ConvertGoogleLink(Trim(row["Partition (PDF 2)"]))
    ensures !Truthy(Cell(row, "Partition (PDF 2)")) ==> r.partition2 == ""
    ensures Truthy(Cell(row, "M\U{E9}lodie")) ==>
              r.audioMelodie == ConvertGoogleLink(Trim(row["M\U{E9}lodie"]))
    ensures !Truthy(Cell(row, "M\U{E9}lodie")) ==> r.audioMelodie == ""
    ensures Truthy(Cell(row, "Alto")) ==>
              r.audioAlto == ConvertGoogleLink(Trim(row["Alto"]))
    ensures !Truthy(Cell(row, "Alto")) ==> r.audioAlto == ""
    ensures Truthy(Cell(row, "T\U{E9}nor")) ==>
              r.audioTenor == ConvertGoogleLink(Trim(row["T\U{E9}nor"]))
    ensures !Truthy(Cell(row, "T\U{E9}nor")) ==> r.audioTenor == ""
    ensures (!Truthy(Cell(row, "R\U{E9}f\U{E9}rences bibliques")) && !Truthy(Cell(row, "Refs")))
              ==> r.references == ""
  {
    var themesRaw := Safe(ThemeCell(row));
    assert themesRaw == "" ==> ParseThemes(themesRaw) == [] by {
      assert Split("", ',') == [""];
      TrimAllSpace("");
    }
    Song(
      titre := Safe(Or(Cell(row, "Titre"), Cell(row, "title"))),
      auteur := Safe(Or(Cell(row, "Auteur"), Cell(row, "author"))),
      recueil := Safe(Or(Cell(row, "Recueil"), Some(""))),
      themes := ParseThemes(themesRaw),
      partition1 := ConvertGoogleLink(Safe(Or(Cell(row, "Partition (PDF)"), Some("")))),
      partition2 := ConvertGoogleLink(Safe(Or(Cell(row, "Partition (PDF 2)"), Some("")))),
      audioMelodie := ConvertGoogleLink(Safe(Or(Cell(row, "M\U{E9}lodie"), Some("")))),
      audioAlto := ConvertGoogleLink(Safe(Or(Cell(row, "Alto"), Some("")))),
      audioTenor := ConvertGoogleLink(Safe(Or(Cell(row, "T\U{E9}nor"), Some("")))),
      references := Safe(Or(Or(Cell(row, "R\U{E9}f\U{E9}rences bibliques"), Cell(row, "Refs")), Some(""))))
  }

  /** `safe(a || b || "")`: a truthy first operand is trimmed, otherwise the
      second operand is taken through safe, the trailing "" changing nothing. */
  lemma {:induction false} SafeOrFallback(a: Option<string>, b: Option<string>)
    ensures Truthy(a) ==> Safe(Or(Or(a, b), Some(""))) == Trim(a.value)
    ensures !Truthy(a) ==> Safe(Or(Or(a, b), Some(""))) == Safe(b)
  {
  }

  /** Column fallback for the title: "Titre" wins whenever it is truthy (and
      is then trimmed); only a falsy one lets "title" through. */
  lemma {:induction false} TitreFallback(row: Row)
    ensures Truthy(Cell(row, "Titre")) ==> NormalizeRow(row).titre == Trim(row["Titre"])
    ensures !Truthy(Cell(row, "Titre")) ==> NormalizeRow(row).titre == Safe(Cell(row, "title"))
  {
    assert NormalizeRow(row).titre == Safe(Or(Cell(row, "Titre"), Cell(row, "title")));
  }

  /** Column fallback for the author: "Auteur", else "author". */
  lemma {:induction false} AuteurFallback(row: Row)
    ensures Truthy(Cell(row, "Auteur")) ==> NormalizeRow(row).auteur == Trim(row["Auteur"])
    ensures !Truthy(Cell(row, "Auteur")) ==> NormalizeRow(row).auteur == Safe(Cell(row, "author"))
  {
    assert NormalizeRow(row).auteur == Safe(Or(Cell(row, "Auteur"), Cell(row, "author")));
  }

  /** Column fallback for the references: "Références bibliques", else "Refs". */
  lemma {:induction false} ReferencesFallback(row: Row)
    ensures Truthy(Cell(row, "R\U{E9}f\U{E9}rences bibliques")) ==>
              NormalizeRow(row).references == Trim(row["R\U{E9}f\U{E9}rences bibliques"])
    ensures !Truthy(Cell(row, "R\U{E9}f\U{E9}rences bibliques")) ==>
              NormalizeRow(row).references == Safe(Cell(row, "Refs"))
  {
    var first, second := Cell(row, "R\U{E9}f\U{E9}rences bibliques"), Cell(row, "Refs");
    assert NormalizeRow(row).references == Safe(Or(Or(first, second), Some("")));
    SafeOrFallback(first, second);
  }

  /** Column fallback for the themes: "Thèmes", else "Themes". */
  lemma {:induction false} ThemesFallback(row: Row)
    ensures Truthy(Cell(row, "Th\U{E8}mes")) ==>
              NormalizeRow(row).themes == ParseThemes(Trim(row["Th\U{E8}mes"]))
    ensures !Truthy(Cell(row, "Th\U{E8}mes")) ==>
              NormalizeRow(row).themes == ParseThemes(Safe(Cell(row, "Themes")))
  {
    var first, second := Cell(row, "Th\U{E8}mes"), Cell(row, "Themes");
    assert NormalizeRow(row).themes == ParseThemes(Safe(Or(Or(first, second), Some(""))));
    SafeOrFallback(first, second);
  }

  /** A "Titre" cell holding only whitespace is truthy, so it still wins over
      "title" and the title comes out empty. */
  lemma {:induction false} WhitespaceTitreWins(row: Row)
    requires "Titre" in row && row["Titre"] != "" && AllSpace(row["Titre"])
    ensures NormalizeRow(row).titre == ""
  {
    TrimAllSpace(row["Titre"]);
  }
}
