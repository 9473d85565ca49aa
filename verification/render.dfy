/** The HTML fragments the table is built from: theme badges, score and audio
    link badges, and the seven cells of each table row (renderTable). The
    DOM itself is not modelled; a row is the list of its cells' markup. */
module Render {
  import opened Text
  import opened Songs

  // ---------------------------------------------------------------------------
  // Theme badges
  // ---------------------------------------------------------------------------

  function ThemeBadge(theme: string): string {
    "<span class=\"badge badge-theme\">" + theme + "</span>"
  }

  /** renderThemeBadges: one badge per theme, in order, joined with "".
      The markup is empty exactly when there are no themes. */
  function ThemeBadges(themes: seq<string>): (r: string)
    ensures r == "" <==> themes == []
  {
    if themes == [] then "" else ThemeBadge(themes[0]) + ThemeBadges(themes[1..])
  }

  /** The badges of a concatenated list are the badges of each part in turn. */
  lemma {:induction false} ThemeBadgesAppend(a: seq<string>, b: seq<string>)
    ensures ThemeBadges(a + b) == ThemeBadges(a) + ThemeBadges(b)
  {
    if a != [] {
      assert (a + b)[1..] == a[1..] + b;
      ThemeBadgesAppend(a[1..], b);
    } else {
      assert a + b == b;
    }
  }

  // ---------------------------------------------------------------------------
  // Link badges
  // ---------------------------------------------------------------------------

  /** One link badge: an anchor of the given badge class opening href in a
      new tab, labelled with caption. */
  function LinkBadge(badgeClass: string, href: string, caption: string): string {
    "<a class=\"badge " + badgeClass + "\" href=\"" + href + "\" target=\"_blank\">"
    + caption + "</a>"
  }

  /** The badge of one (href, caption) link, or nothing when href is empty. */
  function OptionalBadge(badgeClass: string, link: (string, string)): (r: string)
    ensures r == "" <==> link.0 == ""
  {
    if link.0 != "" then LinkBadge(badgeClass, link.0, link.1) else ""
  }

  /** The badges of a list of (href, caption) links in list order, skipping
      the links whose href is empty. */
  function LinkBadges(badgeClass: string, links: seq<(string, string)>): (r: string)
    ensures r == "" <==> forall i :: 0 <= i < |links| ==> links[i].0 == ""
  {
    if links == [] then ""
    else OptionalBadge(badgeClass, links[0]) + LinkBadges(badgeClass, links[1..])
  }

  /** The badges of two links are the first's badge, if any, then the second's. */
  lemma {:induction false} LinkBadgesPair(badgeClass: string, x: (string, string), y: (string, string))
    ensures LinkBadges(badgeClass, [x, y])
            == OptionalBadge(badgeClass, x) + OptionalBadge(badgeClass, y)
  {
    assert [x, y][1..] == [y];
    assert [y][1..] == [];
  }

  /** The badges of three links, likewise in list order. */
  lemma {:induction false} LinkBadgesTriple(badgeClass: string, x: (string, string), y: (string, string), z: (string, string))
    ensures LinkBadges(badgeClass, [x, y, z])
            == OptionalBadge(badgeClass, x) + OptionalBadge(badgeClass, y) + OptionalBadge(badgeClass, z)
  {
    var a, b, c := OptionalBadge(badgeClass, x), OptionalBadge(badgeClass, y), OptionalBadge(badgeClass, z);
    assert [x, y, z][1..] == [y, z];
    assert LinkBadges(badgeClass, [x, y, z]) == a + LinkBadges(badgeClass, [y, z]);
    LinkBadgesPair(badgeClass, y, z);
    AppendAssociative(a, b, c);
  }

  /** The score links of a song, in the order their badges appear. */
  function PartitionLinks(s: Song): seq<(string, string)> {
    [(s.partition1, "PDF 1"), (s.partition2, "PDF 2")]
  }

  /** The audio links of a song, in the order their badges appear. */
  function AudioLinks(s: Song): seq<(string, string)> {
    [(s.audioMelodie, "M\U{E9}lodie"), (s.audioAlto, "Alto"), (s.audioTenor, "T\U{E9}nor")]
  }

  /** renderPartitionBadges: a "PDF 1" badge when there is a first score,
      then a "PDF 2" badge when there is a second one. */
  method PartitionBadges(s: Song) returns (out: string)
    ensures out == LinkBadges("badge-link", PartitionLinks(s))
    ensures out == "" <==> s.partition1 == "" && s.partition2 == ""
  {
    out := "";
    if s.partition1 != "" {
      out := out + LinkBadge("badge-link", s.partition1, "PDF 1");
    }
    assert out == OptionalBadge("badge-link", (s.partition1, "PDF 1"));
    if s.partition2 != "" {
      out := out + LinkBadge("badge-link", s.partition2, "PDF 2");
    }
    LinkBadgesPair("badge-link", (s.partition1, "PDF 1"), (s.partition2, "PDF 2"));
  }

  /** renderAudioBadges: "Mélodie", "Alto" and "Ténor" badges, in that
      order, each only when its link is present. */
  method AudioBadges(s: Song) returns (out: string)
    ensures out == LinkBadges("badge-audio", AudioLinks(s))
    ensures out == "" <==> s.audioMelodie == "" && s.audioAlto == "" && s.audioTenor == ""
  {
    var melodie, alto, tenor := (s.audioMelodie, "M\U{E9}lodie"), (s.audioAlto, "Alto"), (s.audioTenor, "T\U{E9}nor");
    out := "";
    if s.audioMelodie != "" {
      out := out + LinkBadge("badge-audio", s.audioMelodie, "M\U{E9}lodie");
    }
    assert out == OptionalBadge("badge-audio", melodie);
    if s.audioAlto != "" {
      out := out + LinkBadge("badge-audio", s.audioAlto, "Alto");
    }
    assert out == OptionalBadge("badge-audio", melodie) + OptionalBadge("badge-audio", alto);
    if s.audioTenor != "" {
      out := out + LinkBadge("badge-audio", s.audioTenor, "T\U{E9}nor");
    }
    LinkBadgesTriple("badge-audio", melodie, alto, tenor);
  }

  // ---------------------------------------------------------------------------
  // Table rows
  // ---------------------------------------------------------------------------

  /** The seven cells of a song's table row: title, author, collection,
      theme badges, score badges, audio badges, references. */
  function Cells(s: Song): (r: seq<string>)
    ensures |r| == 7
  {
    [s.titre, s.auteur, s.recueil, ThemeBadges(s.themes),
     LinkBadges("badge-link", PartitionLinks(s)),
     LinkBadges("badge-audio", AudioLinks(s)),
     s.references]
  }

  /** The cells renderTable writes for one song, built as the script does:
      the badge renderers' output placed between the text fields. */
  method RenderRow(song: Song) returns (cells: seq<string>)
    ensures cells == Cells(song)
  {
    var partitions := PartitionBadges(song);
    var audio := AudioBadges(song);
    cells := [song.titre, song.auteur, song.recueil, ThemeBadges(song.themes),
              partitions, audio, song.references];
  }

  /** renderTable: one row per song, in the order given. */
  method RenderTable(data: seq<Song>) returns (rows: seq<seq<string>>)
    ensures |rows| == |data|
    ensures forall i :: 0 <= i < |data| ==> rows[i] == Cells(data[i])
  {
    rows := [];
    for i := 0 to |data|
      invariant |rows| == i
      invariant forall k :: 0 <= k < i ==> rows[k] == Cells(data[k])
    {
      var cells := RenderRow(data[i]);
      rows := rows + [cells];
    }
  }
}
