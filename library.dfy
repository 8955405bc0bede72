/**
 * The model library page: its own header lookup `CI`, the row filters of
 * `loadLibraries` and `loadCADs`, the cards `libCard` and `cadCard`, and the
 * parse completions that clear a list and fill it with cards or with a
 * placeholder message.
 */
module Library {
  import opened Wrappers
  import opened JsString
  import opened Pipeline
  import opened Dom
  import Sheets

  const IMAGE_BASE := "images/"

  // ---------- header lookup ----------

  /** `CI(row, name)`: the header lookup of the library page. */
  function CI(row: Row, name: string): string {
    ValueOf(row, ToLower(name))
  }

  /** `CI` returns the cell under the first non-empty header whose trimmed,
      lower-cased form equals the lower-cased name, and `''` when none does.
      Unlike the main page's lookup the requested name is not trimmed. */
  lemma CIFirstMatch(row: Row, name: string)
    ensures (forall j :: 0 <= j < |row| ==> !HeaderMatches(row[j].0, ToLower(name))) ==> CI(row, name) == ""
    ensures forall i :: 0 <= i < |row| && HeaderMatches(row[i].0, ToLower(name)) &&
                        (forall j :: 0 <= j < i ==> !HeaderMatches(row[j].0, ToLower(name)))
                        ==> CI(row, name) == row[i].1
  {
    var want := ToLower(name);
    if forall j :: 0 <= j < |row| ==> !HeaderMatches(row[j].0, want) {
      ValueOfNoMatch(row, want);
    }
    forall i | 0 <= i < |row| && HeaderMatches(row[i].0, want) &&
               (forall j :: 0 <= j < i ==> !HeaderMatches(row[j].0, want))
      ensures CI(row, name) == row[i].1
    {
      ValueOfFirstMatch(row, want, i);
    }
  }

  /** For a name without surrounding spaces the two lookups agree. */
  lemma CIAgreesWithSheets(row: Row, name: string)
    requires IsTrimmed(name)
    ensures CI(row, name) == Sheets.CI(Some(row), name)
  {
    TrimOfTrimmed(name);
  }

  /** A name with a leading or trailing space matches no header at all,
      because every header is trimmed before the comparison. */
  lemma UntrimmedNameFindsNothing(row: Row, name: string)
    requires !IsTrimmed(name)
    ensures CI(row, name) == ""
  {
    ToLowerKeepsTrimmed(name);
    forall j | 0 <= j < |row|
      ensures !HeaderMatches(row[j].0, ToLower(name))
    {
      ToLowerKeepsTrimmed(Trim(row[j].0));
    }
    ValueOfNoMatch(row, ToLower(name));
  }

  /** `String(CI(r, name) || '').trim()` */
  function Cell(r: Row, name: string): (c: string)
    ensures IsTrimmed(c)
  {
    Trim(CI(r, name))
  }

  /** The resolved image path of a card, `''` for none. */
  function CardImage(r: Row): string {
    ResolveImage(IMAGE_BASE, Cell(r, "image"))
  }

  /** A lazily loaded image with the given source and alternative text. */
  function CardImg(src: string, alt: string, extra: seq<(string, string)>): Node {
    Node("img", "", [("src", src), ("alt", alt), ("loading", "lazy")] + extra, Plain(""), [])
  }

  /** A card image shows `src` unless a later assignment replaces it. */
  lemma CardImgSrc(src: string, alt: string, extra: seq<(string, string)>)
    requires forall j :: 0 <= j < |extra| ==> extra[j].0 != "src"
    ensures Attr(CardImg(src, alt, extra), "src") == src
  {
    var attrs := CardImg(src, alt, extra).attrs;
    assert forall j :: 3 <= j < |attrs| ==> attrs[j] == extra[j - 3];
    AttrLastAssignment(attrs, "src", 0);
  }

  /** A link opening `href` in a new tab. */
  function NewTabLink(className: string, href: string, text: string): Node {
    Node("a", className, [("href", href), ("target", "_blank"), ("rel", "noopener")], Plain(text), [])
  }

  /** A new-tab link points at its `href`. */
  lemma NewTabLinkHref(className: string, href: string, text: string)
    ensures Attr(NewTabLink(className, href, text), "href") == href
  {
    AttrLastAssignment(NewTabLink(className, href, text).attrs, "href", 0);
  }

  // ---------- libraries ----------

  /** The library filter: both the trimmed title and the trimmed url are non-empty. */
  predicate KeepsLibrary(r: Row) {
    Cell(r, "title") != "" && Cell(r, "url") != ""
  }

  /** `(res.data || []).map(r => keep ? r : null)` in `loadLibraries`. */
  function LibraryCandidates(data: seq<Row>): (mapped: seq<Option<Row>>)
    ensures |mapped| == |data|
  {
    seq(|data|, i requires 0 <= i < |data| => if KeepsLibrary(data[i]) then Some(data[i]) else None)
  }

  /** `.filter(Boolean)`: the rows that pass the library filter. */
  function LibraryRows(data: seq<Row>): seq<Row> {
    Compact(LibraryCandidates(data))
  }

  /** The kept rows are exactly the rows passing the filter, unchanged, each
      once, in source order. */
  lemma LibraryRowsKeepExactly(data: seq<Row>)
    ensures var idx := SomeIndices(LibraryCandidates(data));
            && |idx| == |LibraryRows(data)|
            && (forall k :: 0 <= k < |idx| ==> idx[k] < |data| && data[idx[k]] == LibraryRows(data)[k])
            && (forall k, l :: 0 <= k < l < |idx| ==> idx[k] < idx[l])
            && (forall i :: 0 <= i < |data| ==> (KeepsLibrary(data[i]) <==> i in idx))
    ensures forall k :: 0 <= k < |LibraryRows(data)| ==> KeepsLibrary(LibraryRows(data)[k])
  {
    var mapped := LibraryCandidates(data);
    CompactSpec(mapped);
    forall k | 0 <= k < |SomeIndices(mapped)|
      ensures data[SomeIndices(mapped)[k]] == LibraryRows(data)[k]
    {
      assert mapped[SomeIndices(mapped)[k]] == Some(LibraryRows(data)[k]);
    }
    forall i | 0 <= i < |data|
      ensures KeepsLibrary(data[i]) <==> i in SomeIndices(mapped)
    {
      assert mapped[i].Some? <==> KeepsLibrary(data[i]);
    }
  }

  /** `libCard(r)`: a `div.item.card.pad` holding the link, then the image,
      the description and the tag line when each is present. */
  function LibCard(r: Row): Node {
    LibCardOf(Or(Cell(r, "title"), "Linkki"), Or(Cell(r, "url"), "#"),
              Cell(r, "desc"), Cell(r, "tag"), CardImage(r))
  }

  /** The card `libCard` assembles from its title, url, description, tag and
      resolved image path. */
  function LibCardOf(title: string, url: string, desc: string, tag: string, img: string): Node {
    var a := NewTabLink("", url, title);
    var im := CardImg(img, title, [("style", "margin-top: 8px")]);
    var p := TextElem("p", "muted", desc);
    var meta := TextElem("div", "sm muted", tag);
    Node("div", "item card pad", [], Plain(""), Parts(a, img != "", im, desc != "", p, tag != "", meta))
  }

  /** The position a child of a library card takes: link, image, description, tag line. */
  function LibRank(n: Node): nat {
    if n.tag == "a" then 0 else if n.tag == "img" then 1 else if n.tag == "p" then 2 else 3
  }

  /** The layout of a library card's children given its resolved image
      path, description and tag: the link comes first; the image is there
      exactly when the path is non-empty and carries that path; the
      description paragraph exactly when the description is non-empty,
      showing it, the tag line exactly when the tag is, showing it; and the
      children appear in that order. */
  predicate LibCardShape(ch: seq<Node>, img: string, desc: string, tag: string) {
    && |ch| >= 1 && ch[0].tag == "a"
    && (HasTag(ch, "img") <==> img != "")
    && (HasTag(ch, "p") <==> desc != "")
    && (HasTag(ch, "div") <==> tag != "")
    && (forall i, j :: 0 <= i < j < |ch| ==> LibRank(ch[i]) < LibRank(ch[j]))
    && (forall i :: 0 <= i < |ch| && ch[i].tag == "img" ==> Attr(ch[i], "src") == img)
    && (forall i :: 0 <= i < |ch| && ch[i].tag == "p" ==> ch[i].text == Plain(desc))
    && (forall i :: 0 <= i < |ch| && ch[i].tag == "div" ==> ch[i].text == Plain(tag))
  }

  /** A library card has the layout above for the row's resolved image,
      description and tag cells, and its image is present exactly when the
      image cell is non-empty. */
  lemma LibCardLayout(r: Row)
    ensures LibCardShape(LibCard(r).children, CardImage(r), Cell(r, "desc"), Cell(r, "tag"))
    ensures CardImage(r) != "" <==> Cell(r, "image") != ""
  {
    ResolveImageKeepsReference(IMAGE_BASE, Cell(r, "image"));
    LibCardOfLayout(Or(Cell(r, "title"), "Linkki"), Or(Cell(r, "url"), "#"),
                    Cell(r, "desc"), Cell(r, "tag"), CardImage(r));
  }

  lemma LibCardOfLayout(title: string, url: string, desc: string, tag: string, img: string)
    ensures LibCardShape(LibCardOf(title, url, desc, tag, img).children, img, desc, tag)
  {
    var ch := LibCardOf(title, url, desc, tag, img).children;
    var im := CardImg(img, title, [("style", "margin-top: 8px")]);
    var p := TextElem("p", "muted", desc);
    var meta := TextElem("div", "sm muted", tag);
    var a := NewTabLink("", url, title);
    assert ch == Parts(a, img != "", im, desc != "", p, tag != "", meta);
    assert "a" != "img" && "a" != "p" && "a" != "div";
    assert "img" != "p" && "img" != "div" && "p" != "div";
    RankedParts(LibRank, a, img != "", im, desc != "", p, tag != "", meta);
    CardImgSrc(img, title, [("style", "margin-top: 8px")]);
  }

  /** The children of a card: a fixed first child, then three optional ones. */
  function Parts(first: Node, has1: bool, x1: Node, has2: bool, x2: Node, has3: bool, x3: Node): seq<Node> {
    [first] + (if has1 then [x1] else []) + (if has2 then [x2] else []) + (if has3 then [x3] else [])
  }

  /** With four distinct tags ranked 0 to 3, the children hold each optional
      child exactly when it is present, and in rank order; a child with an
      optional child's tag is that child. */
  lemma RankedParts(rank: Node -> nat, first: Node, has1: bool, x1: Node, has2: bool, x2: Node,
                    has3: bool, x3: Node)
    requires first.tag != x1.tag && first.tag != x2.tag && first.tag != x3.tag
    requires x1.tag != x2.tag && x1.tag != x3.tag && x2.tag != x3.tag
    requires rank(first) == 0 && rank(x1) == 1 && rank(x2) == 2 && rank(x3) == 3
    ensures var ch := Parts(first, has1, x1, has2, x2, has3, x3);
            && (HasTag(ch, x1.tag) <==> has1)
            && (HasTag(ch, x2.tag) <==> has2)
            && (HasTag(ch, x3.tag) <==> has3)
            && (forall i, j :: 0 <= i < j < |ch| ==> rank(ch[i]) < rank(ch[j]))
            && (forall i :: 0 <= i < |ch| && ch[i].tag == x1.tag ==> ch[i] == x1)
            && (forall i :: 0 <= i < |ch| && ch[i].tag == x2.tag ==> ch[i] == x2)
            && (forall i :: 0 <= i < |ch| && ch[i].tag == x3.tag ==> ch[i] == x3)
  {
    var ch := Parts(first, has1, x1, has2, x2, has3, x3);
    if has1 {
      assert ch[1] == x1;
    }
    if has2 {
      assert ch[if has1 then 2 else 1] == x2;
    }
    if has3 {
      assert ch[|ch| - 1] == x3;
    }
    assert forall i :: 0 <= i < |ch| ==>
      (i == 0 && ch[i] == first) || (has1 && i == 1 && ch[i] == x1) ||
      (has2 && i == (if has1 then 2 else 1) && ch[i] == x2) ||
      (has3 && i == |ch| - 1 && ch[i] == x3);
  }

  /** For a row that passed the filter the `Linkki` and `#` defaults never
      show: the link carries the row's own title and url. */
  lemma LibCardNoDefaults(r: Row)
    requires KeepsLibrary(r)
    ensures LibCard(r).children[0].text == Plain(Cell(r, "title"))
    ensures Attr(LibCard(r).children[0], "href") == Cell(r, "url")
  {
    NewTabLinkHref("", Or(Cell(r, "url"), "#"), Or(Cell(r, "title"), "Linkki"));
  }

  /** The message shown when no library row survives the filter. */
  const LIB_EMPTY := Node("div", "item pad", [], Plain("Ei linkkejä – lisää Sheetin \"Kirjastot\"-välilehdelle."), [])

  /** What the library list holds after a successful parse. */
  function LibraryView(data: seq<Row>): seq<Node> {
    var rows := LibraryRows(data);
    if |rows| == 0 then [LIB_EMPTY] else MapSeq(LibCard, rows)
  }

  /** After a successful parse the list is never empty: it holds the
      placeholder alone exactly when no row passed the filter, and otherwise
      one card per kept row in order. */
  lemma LibraryViewShape(data: seq<Row>)
    ensures |LibraryView(data)| >= 1
    ensures LibraryView(data) == [LIB_EMPTY] <==> forall i :: 0 <= i < |data| ==> !KeepsLibrary(data[i])
    ensures (exists i :: 0 <= i < |data| && KeepsLibrary(data[i])) ==>
              LibraryView(data) == MapSeq(LibCard, LibraryRows(data))
  {
    LibraryRowsKeepExactly(data);
    var rows := LibraryRows(data);
    var idx := SomeIndices(LibraryCandidates(data));
    if |rows| > 0 {
      assert LibraryView(data)[0].className == "item card pad";
      assert KeepsLibrary(data[idx[0]]);
    } else {
      forall i | 0 <= i < |data| ensures !KeepsLibrary(data[i]) {
        assert i !in idx;
      }
    }
  }

  /** `loadLibraries()` with the `#libList` element (null when absent) and
      the outcome of parsing the sheet: nothing happens without the element;
      a failed parse only logs; otherwise the list is cleared, then holds the
      placeholder when no row is kept, or the cards of the kept rows. */
  method LoadLibraries(libList: Region?, result: ParseResult)
    modifies libList
    ensures libList != null && result.Complete? ==> libList.children == LibraryView(result.data)
    ensures libList != null && result.Failed? ==> libList.children == old(libList.children)
  {
    if libList == null {
      return;
    }
    match result
    case Failed =>
    case Complete(data) =>
      var rows := LibraryRows(data);
      libList.Clear();
      if |rows| == 0 {
        libList.SetMarkup(LIB_EMPTY);
        return;
      }
      AppendEach(libList, rows, LibCard);
  }

  // ---------- own CAD models ----------

  /** The CAD filter: at least one of the trimmed title, image and link is non-empty. */
  predicate KeepsCad(r: Row) {
    Cell(r, "title") != "" || Cell(r, "image") != "" || Cell(r, "link") != ""
  }

  /** `(res.data || []).map(r => keep ? r : null)` in `loadCADs`. */
  function CadCandidates(data: seq<Row>): (mapped: seq<Option<Row>>)
    ensures |mapped| == |data|
  {
    seq(|data|, i requires 0 <= i < |data| => if KeepsCad(data[i]) then Some(data[i]) else None)
  }

  /** `.filter(Boolean)`: the rows that pass the CAD filter. */
  function CadRows(data: seq<Row>): seq<Row> {
    Compact(CadCandidates(data))
  }

  /** The kept rows are exactly the rows passing the filter, unchanged, each
      once, in source order. */
  lemma CadRowsKeepExactly(data: seq<Row>)
    ensures var idx := SomeIndices(CadCandidates(data));
            && |idx| == |CadRows(data)|
            && (forall k :: 0 <= k < |idx| ==> idx[k] < |data| && data[idx[k]] == CadRows(data)[k])
            && (forall k, l :: 0 <= k < l < |idx| ==> idx[k] < idx[l])
            && (forall i :: 0 <= i < |data| ==> (KeepsCad(data[i]) <==> i in idx))
    ensures forall k :: 0 <= k < |CadRows(data)| ==> KeepsCad(CadRows(data)[k])
  {
    var mapped := CadCandidates(data);
    CompactSpec(mapped);
    forall k | 0 <= k < |SomeIndices(mapped)|
      ensures data[SomeIndices(mapped)[k]] == CadRows(data)[k]
    {
      assert mapped[SomeIndices(mapped)[k]] == Some(CadRows(data)[k]);
    }
    forall i | 0 <= i < |data|
      ensures KeepsCad(data[i]) <==> i in SomeIndices(mapped)
    {
      assert mapped[i].Some? <==> KeepsCad(data[i]);
    }
  }

  /** `cadCard(r)`: a `div.item.card.pad` holding the title, then the image,
      the note and the model link when each is present. */
  function CadCard(r: Row): Node {
    CadCardOf(Or(Cell(r, "title"), "Nimetön"), Cell(r, "link"), Cell(r, "note"), CardImage(r))
  }

  /** The card `cadCard` assembles from its title, link, note and resolved
      image path. */
  function CadCardOf(title: string, link: string, note: string, img: string): Node {
    var h3 := TextElem("h3", "", title);
    var im := CardImg(img, title, []);
    var p := TextElem("p", "muted", note);
    var a := NewTabLink("btn", link, "Avaa malli");
    Node("div", "item card pad", [], Plain(""), Parts(h3, img != "", im, note != "", p, link != "", a))
  }

  /** The position a child of a CAD card takes: title, image, note, link. */
  function CadRank(n: Node): nat {
    if n.tag == "h3" then 0 else if n.tag == "img" then 1 else if n.tag == "p" then 2 else 3
  }

  /** The layout of a CAD card's children given its title text, link, note
      and resolved image path: the title heading comes first; the image is
      there exactly when the path is non-empty and carries that path; the
      note paragraph exactly when the note is non-empty, showing it; the
      `Avaa malli` link exactly when the link is, pointing at it; and the
      children appear in that order. */
  predicate CadCardShape(ch: seq<Node>, title: string, link: string, note: string, img: string) {
    && |ch| >= 1 && ch[0].tag == "h3" && ch[0].text == Plain(title)
    && (HasTag(ch, "img") <==> img != "")
    && (HasTag(ch, "p") <==> note != "")
    && (HasTag(ch, "a") <==> link != "")
    && (forall i, j :: 0 <= i < j < |ch| ==> CadRank(ch[i]) < CadRank(ch[j]))
    && (forall i :: 0 <= i < |ch| && ch[i].tag == "img" ==> Attr(ch[i], "src") == img)
    && (forall i :: 0 <= i < |ch| && ch[i].tag == "a" ==> Attr(ch[i], "href") == link)
    && (forall i :: 0 <= i < |ch| && ch[i].tag == "p" ==> ch[i].text == Plain(note))
    && (forall i :: 0 <= i < |ch| && ch[i].tag == "a" ==> ch[i].text == Plain("Avaa malli"))
  }

  /** A CAD card has the layout above for the row's title (`Nimetön` when the
      title cell is empty), link, note and resolved image, and its image is
      present exactly when the image cell is non-empty. */
  lemma CadCardLayout(r: Row)
    ensures CadCardShape(CadCard(r).children, if Cell(r, "title") == "" then "Nimetön" else Cell(r, "title"),
                         Cell(r, "link"), Cell(r, "note"), CardImage(r))
    ensures CardImage(r) != "" <==> Cell(r, "image") != ""
  {
    ResolveImageKeepsReference(IMAGE_BASE, Cell(r, "image"));
    CadCardOfLayout(Or(Cell(r, "title"), "Nimetön"), Cell(r, "link"), Cell(r, "note"), CardImage(r));
  }

  lemma CadCardOfLayout(title: string, link: string, note: string, img: string)
    ensures CadCardShape(CadCardOf(title, link, note, img).children, title, link, note, img)
  {
    var ch := CadCardOf(title, link, note, img).children;
    var h3 := TextElem("h3", "", title);
    var im := CardImg(img, title, []);
    var p := TextElem("p", "muted", note);
    var a := NewTabLink("btn", link, "Avaa malli");
    assert ch == Parts(h3, img != "", im, note != "", p, link != "", a);
    assert "h3" != "img" && "h3" != "p" && "h3" != "a";
    assert "img" != "p" && "img" != "a" && "p" != "a";
    RankedParts(CadRank, h3, img != "", im, note != "", p, link != "", a);
    CardImgSrc(img, title, []);
    NewTabLinkHref("btn", link, "Avaa malli");
  }

  /** A row passes the CAD filter exactly when its card shows something of
      the row itself: its own title, an image or a model link. */
  lemma CadCardShowsKeptRow(r: Row)
    ensures KeepsCad(r) <==>
              (Cell(r, "title") != "" || HasTag(CadCard(r).children, "img") || HasTag(CadCard(r).children, "a"))
  {
    CadCardLayout(r);
    assert CadCardShape(CadCard(r).children, if Cell(r, "title") == "" then "Nimetön" else Cell(r, "title"),
                        Cell(r, "link"), Cell(r, "note"), CardImage(r));
  }

  /** The message shown when no CAD row survives the filter. */
  const CAD_EMPTY := Node("div", "item pad", [], Plain("Ei CAD-kokeiluja – lisää Sheetin \"OmatCADit\"-välilehdelle."), [])

  /** What the CAD list holds after a successful parse. */
  function CadView(data: seq<Row>): seq<Node> {
    var rows := CadRows(data);
    if |rows| == 0 then [CAD_EMPTY] else MapSeq(CadCard, rows)
  }

  /** After a successful parse the list is never empty: it holds the
      placeholder alone exactly when no row passed the filter, and otherwise
      one card per kept row in order. */
  lemma CadViewShape(data: seq<Row>)
    ensures |CadView(data)| >= 1
    ensures CadView(data) == [CAD_EMPTY] <==> forall i :: 0 <= i < |data| ==> !KeepsCad(data[i])
    ensures (exists i :: 0 <= i < |data| && KeepsCad(data[i])) ==>
              CadView(data) == MapSeq(CadCard, CadRows(data))
  {
    CadRowsKeepExactly(data);
    var rows := CadRows(data);
    var idx := SomeIndices(CadCandidates(data));
    if |rows| > 0 {
      assert CadView(data)[0].className == "item card pad";
      assert KeepsCad(data[idx[0]]);
    } else {
      forall i | 0 <= i < |data| ensures !KeepsCad(data[i]) {
        assert i !in idx;
      }
    }
  }

  /** `loadCADs()` with the `#cadList` element (null when absent) and the
      outcome of parsing the sheet: as `loadLibraries`, with the CAD filter,
      cards and placeholder. */
  method LoadCads(cadList: Region?, result: ParseResult)
    modifies cadList
    ensures cadList != null && result.Complete? ==> cadList.children == CadView(result.data)
    ensures cadList != null && result.Failed? ==> cadList.children == old(cadList.children)
  {
    if cadList == null {
      return;
    }
    match result
    case Failed =>
    case Complete(data) =>
      var rows := CadRows(data);
      cadList.Clear();
      if |rows| == 0 {
        cadList.SetMarkup(CAD_EMPTY);
        return;
      }
      AppendEach(cadList, rows, CadCard);
  }
}
