/**
 * The products and materials pipelines of the main page: the header
 * lookup `CI`, price sanitising, the row mappers run in the parse
 * completions of `loadProducts` and `loadMaterials`, the product card, the
 * product carousel, the materials list and the material select.
 */
module Sheets {
  import opened Wrappers
  import opened JsString
  import opened Pipeline
  import opened Dom

  const IMAGE_BASE := "/protoboksi/images/"
  const PLACEHOLDER := "/protoboksi/images/placeholder.jpg"

  // ---------- header lookup ----------

  /** `CI(obj, keyName)`: the header lookup of the main page. */
  function CI(obj: Option<Row>, keyName: string): string {
    match obj
    case None => ""
    case Some(row) => ValueOf(row, Normalize(keyName))
  }

  /** `CI` returns the cell under the first header, in row order, that is
      non-empty and equals the requested name once both are trimmed and
      lower-cased; `''` when no header matches or there is no row. */
  lemma CIFirstMatch(obj: Option<Row>, keyName: string)
    ensures obj.None? ==> CI(obj, keyName) == ""
    ensures obj.Some? && (forall j :: 0 <= j < |obj.value| ==>
                            !HeaderMatches(obj.value[j].0, Normalize(keyName)))
            ==> CI(obj, keyName) == ""
    ensures obj.Some? ==>
              forall i :: 0 <= i < |obj.value| && HeaderMatches(obj.value[i].0, Normalize(keyName)) &&
                          (forall j :: 0 <= j < i ==> !HeaderMatches(obj.value[j].0, Normalize(keyName)))
                          ==> CI(obj, keyName) == obj.value[i].1
  {
    if obj.Some? {
      var row, want := obj.value, Normalize(keyName);
      if forall j :: 0 <= j < |row| ==> !HeaderMatches(row[j].0, want) {
        ValueOfNoMatch(row, want);
      }
      forall i | 0 <= i < |row| && HeaderMatches(row[i].0, want) &&
                 (forall j :: 0 <= j < i ==> !HeaderMatches(row[j].0, want))
        ensures CI(obj, keyName) == row[i].1
      {
        ValueOfFirstMatch(row, want, i);
      }
    }
  }

  // ---------- price parsing ----------

  predicate IsDigit(c: char) {
    '0' <= c <= '9'
  }

  /** The characters the price regex `[^\d,.\-]` does not strip. */
  predicate IsPriceChar(c: char) {
    IsDigit(c) || c == ',' || c == '.' || c == '-'
  }

  predicate HasDigit(s: string) {
    exists k :: 0 <= k < |s| && IsDigit(s[k])
  }

  /** `.replace(/[^\d,.\-]/g, '')` */
  function KeepPriceChars(s: string): (r: string)
    ensures forall k :: 0 <= k < |r| ==> IsPriceChar(r[k])
    ensures |r| <= |s|
  {
    if s == [] then []
    else KeepPriceChars(s[..|s| - 1]) + (if IsPriceChar(s[|s| - 1]) then [s[|s| - 1]] else [])
  }

  /** Stripping works piece by piece: together with the one-character case
      (a price character is kept, any other is dropped) this says the kept
      characters are exactly the price characters of `s`, in their order. */
  lemma {:induction false} KeepPriceCharsAppend(a: string, b: string)
    ensures KeepPriceChars(a + b) == KeepPriceChars(a) + KeepPriceChars(b)
  {
    if b == [] {
      assert a + b == a;
    } else {
      var init, last := b[..|b| - 1], b[|b| - 1];
      var tail := if IsPriceChar(last) then [last] else [];
      calc {
        KeepPriceChars(a + b);
        { assert (a + b)[..|a + b| - 1] == a + init && (a + b)[|a + b| - 1] == last; }
        KeepPriceChars(a + init) + tail;
        { KeepPriceCharsAppend(a, init); }
        KeepPriceChars(a) + KeepPriceChars(init) + tail;
        KeepPriceChars(a) + KeepPriceChars(b);
      }
    }
  }

  /** A string made only of price characters is left as it is. */
  lemma {:induction false} KeepPriceCharsOfPriceString(s: string)
    requires forall k :: 0 <= k < |s| ==> IsPriceChar(s[k])
    ensures KeepPriceChars(s) == s
  {
    if s != [] {
      KeepPriceCharsOfPriceString(s[..|s| - 1]);
    }
  }

  /** Stripping never removes a digit: a digit survives exactly when there was one. */
  lemma {:induction false} KeepPriceCharsDigits(s: string)
    ensures HasDigit(KeepPriceChars(s)) <==> HasDigit(s)
  {
    if s != [] {
      var init := s[..|s| - 1];
      KeepPriceCharsDigits(init);
      var last := if IsPriceChar(s[|s| - 1]) then [s[|s| - 1]] else [];
      assert KeepPriceChars(s) == KeepPriceChars(init) + last;
      if HasDigit(s) {
        var k :| 0 <= k < |s| && IsDigit(s[k]);
        if k < |s| - 1 {
          assert IsDigit(init[k]);
          var j :| 0 <= j < |KeepPriceChars(init)| && IsDigit(KeepPriceChars(init)[j]);
          assert IsDigit(KeepPriceChars(s)[j]);
        } else {
          assert IsDigit(KeepPriceChars(s)[|KeepPriceChars(s)| - 1]);
        }
      }
      if HasDigit(KeepPriceChars(s)) {
        var k :| 0 <= k < |KeepPriceChars(s)| && IsDigit(KeepPriceChars(s)[k]);
        if k < |KeepPriceChars(init)| {
          assert IsDigit(KeepPriceChars(init)[k]);
          var j :| 0 <= j < |init| && IsDigit(init[j]);
          assert IsDigit(s[j]);
        } else {
          assert IsDigit(s[|s| - 1]);
        }
      }
    }
  }

  /** `.replace(',', '.')`: a string pattern replaces only its first occurrence. */
  function FirstCommaToDot(s: string): (r: string)
    ensures |r| == |s|
  {
    if s == [] then []
    else if s[0] == ',' then ['.'] + s[1..]
    else [s[0]] + FirstCommaToDot(s[1..])
  }

  /** The replacement turns the first comma into a dot and keeps every other
      character where it was. */
  lemma {:induction false} FirstCommaToDotAt(s: string)
    ensures forall k :: 0 <= k < |s| ==>
              FirstCommaToDot(s)[k] == (if s[k] == ',' && ',' !in s[..k] then '.' else s[k])
  {
    if s != [] && s[0] != ',' {
      FirstCommaToDotAt(s[1..]);
      forall k | 1 <= k < |s|
        ensures FirstCommaToDot(s)[k] == (if s[k] == ',' && ',' !in s[..k] then '.' else s[k])
      {
        assert s[..k] == [s[0]] + s[1..][..k - 1];
        assert FirstCommaToDot(s)[k] == FirstCommaToDot(s[1..])[k - 1];
      }
    }
  }

  /** The sanitised price text `parseFloat` reads. */
  function SanitizePrice(s: string): string {
    FirstCommaToDot(KeepPriceChars(s))
  }

  /** Sanitising keeps a digit exactly when `s` has one, and leaves only
      digits, `,`, `.` and `-`. */
  lemma SanitizePriceChars(s: string)
    ensures HasDigit(SanitizePrice(s)) <==> HasDigit(s)
    ensures forall k :: 0 <= k < |SanitizePrice(s)| ==> IsPriceChar(SanitizePrice(s)[k])
  {
    var kept := KeepPriceChars(s);
    var r := SanitizePrice(s);
    FirstCommaToDotAt(kept);
    KeepPriceCharsDigits(s);
    assert forall k :: 0 <= k < |r| ==> (IsDigit(r[k]) <==> IsDigit(kept[k]));
    if HasDigit(kept) {
      var k :| 0 <= k < |kept| && IsDigit(kept[k]);
      assert IsDigit(r[k]);
    }
    if HasDigit(r) {
      var k :| 0 <= k < |r| && IsDigit(r[k]);
      assert IsDigit(kept[k]);
    }
  }

  /** The longest prefix of digits. */
  function LeadingDigits(s: string): (d: string)
    ensures |d| <= |s| && d == s[..|d|]
    ensures forall k :: 0 <= k < |d| ==> IsDigit(d[k])
    ensures |d| == |s| || !IsDigit(s[|d|])
  {
    if s != [] && IsDigit(s[0]) then [s[0]] + LeadingDigits(s[1..]) else []
  }

  /** The value of a string of decimal digits. */
  function DigitsValue(d: string): nat
    requires forall k :: 0 <= k < |d| ==> IsDigit(d[k])
  {
    if d == [] then 0
    else
      assert IsDigit(d[|d| - 1]);
      DigitsValue(d[..|d| - 1]) * 10 + (d[|d| - 1] as int - '0' as int)
  }

  function Pow10(n: nat): (p: nat)
    ensures p >= 1
  {
    if n == 0 then 1 else 10 * Pow10(n - 1)
  }

  /** The value of the decimal `whole.frac`. */
  function DecimalValue(whole: string, frac: string): (v: real)
    requires forall k :: 0 <= k < |whole| ==> IsDigit(whole[k])
    requires forall k :: 0 <= k < |frac| ==> IsDigit(frac[k])
    ensures v >= 0.0
  {
    var scale := Pow10(|frac|) as real;
    var fraction := DigitsValue(frac) as real / scale;
    assert fraction >= 0.0 by {
      assert scale >= 1.0;
      assert fraction * scale == DigitsValue(frac) as real;
    }
    DigitsValue(whole) as real + fraction
  }

  /** `parseFloat` on a sanitised price (a string over digits, `,`, `.` and
      `-`), read as an exact decimal: an optional `-`, the integer digits, then
      a `.` and fraction digits; None (NaN) when neither part has a digit. */
  function ParseFloat(s: string): Option<real> {
    var neg := StartsWith(s, "-");
    var body := if neg then s[1..] else s;
    var whole := LeadingDigits(body);
    var rest := body[|whole|..];
    var frac := if |rest| > 0 && rest[0] == '.' then LeadingDigits(rest[1..]) else "";
    if whole == "" && frac == "" then None
    else
      var magnitude := DecimalValue(whole, frac);
      Some(if neg then -magnitude else magnitude)
  }

  /** `parseFloat` reads a number only from text holding a digit, and a
      number read from text without a leading `-` is not negative. */
  lemma ParseFloatNeedsDigit(s: string)
    ensures ParseFloat(s).Some? ==> HasDigit(s)
    ensures ParseFloat(s).Some? && !StartsWith(s, "-") ==> ParseFloat(s).value >= 0.0
  {
    var neg := StartsWith(s, "-");
    var body := if neg then s[1..] else s;
    var whole := LeadingDigits(body);
    var rest := body[|whole|..];
    if whole != "" {
      assert IsDigit(s[if neg then 1 else 0]);
    } else if |rest| > 0 && rest[0] == '.' && LeadingDigits(rest[1..]) != "" {
      assert IsDigit(s[if neg then 2 else 1]);
    }
  }

  /** `parsePriceNumber(v)`: null for a null input; otherwise the number
      `parseFloat` reads from the sanitised text, null when it reads none.
      A price without any digit never yields a number. */
  function ParsePriceNumber(v: Option<string>): (n: Option<real>)
    ensures v.None? ==> n.None?
    ensures v.Some? && !HasDigit(v.value) ==> n.None?
  {
    match v
    case None => None
    case Some(s) =>
      SanitizePriceChars(s);
      ParseFloatNeedsDigit(SanitizePrice(s));
      ParseFloat(SanitizePrice(s))
  }

  predicate AllDigits(s: string) {
    forall k :: 0 <= k < |s| ==> IsDigit(s[k])
  }

  /** The leading digits of `d + rest` are `d` when `rest` does not start with a digit. */
  lemma {:induction false} LeadingDigitsOf(d: string, rest: string)
    requires AllDigits(d)
    requires rest == [] || !IsDigit(rest[0])
    ensures LeadingDigits(d + rest) == d
  {
    if d != [] {
      assert (d + rest)[1..] == d[1..] + rest;
      LeadingDigitsOf(d[1..], rest);
    } else {
      assert d + rest == rest;
    }
  }

  /** `parseFloat` reads `w.f` as the decimal it writes. */
  lemma ParseFloatDecimal(w: string, f: string)
    requires AllDigits(w) && AllDigits(f) && w != ""
    ensures ParseFloat(w + "." + f) == Some(DecimalValue(w, f))
  {
    var s := w + "." + f;
    assert !StartsWith(s, "-") by { assert s[0] == w[0]; }
    LeadingDigitsOf(w, "." + f);
    assert s == w + ("." + f);
    assert s[|w|..] == "." + f;
    assert ("." + f)[1..] == f;
    LeadingDigitsOf(f, "");
    assert f + "" == f;
  }

  /** `parseFloat` reads `-w.f` as the negated decimal w.f. */
  lemma ParseFloatNegative(w: string, f: string)
    requires AllDigits(w) && AllDigits(f) && w != ""
    ensures ParseFloat("-" + w + "." + f) == Some(-DecimalValue(w, f))
  {
    var s := "-" + w + "." + f;
    var body := w + "." + f;
    assert StartsWith(s, "-") && s[1..] == body;
    LeadingDigitsOf(w, "." + f);
    assert body == w + ("." + f);
    assert body[|w|..] == "." + f;
    assert ("." + f)[1..] == f;
    LeadingDigitsOf(f, "");
    assert f + "" == f;
  }

  /** A negative price: "-3.5" reads as -3.5. */
  lemma ParsePriceNegative(price: string)
    requires price == "-3.5"
    ensures ParsePriceNumber(Some(price)) == Some(-3.5)
  {
    var w, f := "3", "5";
    assert forall k :: 0 <= k < |price| ==> IsPriceChar(price[k]);
    KeepPriceCharsOfPriceString(price);
    FirstCommaToDotAt(price);
    assert SanitizePrice(price) == "-" + w + "." + f;
    ParseFloatNegative(w, f);
    assert DigitsValue(w) == 3 && DigitsValue(f) == 5 by {
      assert w[..0] == [] && f[..0] == [];
    }
    assert Pow10(|f|) == 10;
  }

  /** Sanitising `w,f` followed by text without price characters leaves `w.f`. */
  lemma SanitizeDecimalComma(w: string, f: string, junk: string)
    requires AllDigits(w) && AllDigits(f)
    requires forall k :: 0 <= k < |junk| ==> !IsPriceChar(junk[k])
    ensures SanitizePrice(w + "," + f + junk) == w + "." + f
  {
    var kept := w + "," + f;
    KeepPriceCharsAppend(kept, junk);
    KeepPriceCharsOfPriceString(kept);
    JunkKeepsNothing(junk);
    assert kept + [] == kept;
    FirstCommaToDotDecimal(w, f);
  }

  /** In `w,f` with `w` all digits the first comma is the one after `w`. */
  lemma {:induction false} FirstCommaToDotDecimal(w: string, f: string)
    requires AllDigits(w)
    ensures FirstCommaToDot(w + "," + f) == w + "." + f
  {
    if w == [] {
      assert w + "," + f == [','] + f;
      assert w + "." + f == ['.'] + f;
    } else {
      assert IsDigit(w[0]);
      assert (w + "," + f)[1..] == w[1..] + "," + f;
      FirstCommaToDotDecimal(w[1..], f);
      assert w + "." + f == [w[0]] + (w[1..] + "." + f);
    }
  }

  lemma {:induction false} JunkKeepsNothing(junk: string)
    requires forall k :: 0 <= k < |junk| ==> !IsPriceChar(junk[k])
    ensures KeepPriceChars(junk) == []
  {
    if junk != [] {
      JunkKeepsNothing(junk[..|junk| - 1]);
    }
  }

  /** A price written with a decimal comma, digits on both sides and then
      text without digits or separators (a currency sign, a space) reads as
      the decimal it writes. */
  lemma ParsePriceDecimalComma(w: string, f: string, junk: string)
    requires AllDigits(w) && AllDigits(f) && w != ""
    requires forall k :: 0 <= k < |junk| ==> !IsPriceChar(junk[k])
    ensures ParsePriceNumber(Some(w + "," + f + junk)) == Some(DecimalValue(w, f))
  {
    SanitizeDecimalComma(w, f, junk);
    ParseFloatDecimal(w, f);
  }

  /** "19,90 €" reads as 19.90. */
  lemma ParsePriceFinnish(price: string)
    requires price == "19,90 €"
    ensures ParsePriceNumber(Some(price)) == Some(19.9)
  {
    var w, f := "19", "90";
    assert price == w + "," + f + " €";
    ParsePriceDecimalComma(w, f, " €");
    NineteenNinety(w, f);
  }

  lemma NineteenNinety(w: string, f: string)
    requires w == "19" && f == "90"
    ensures DecimalValue(w, f) == 19.9
  {
    DigitsValueTwo(w);
    DigitsValueTwo(f);
    assert Pow10(|f|) == 100;
  }

  /** The value of a two-digit string. */
  lemma DigitsValueTwo(d: string)
    requires |d| == 2 && AllDigits(d)
    ensures DigitsValue(d) == 10 * (d[0] as int - '0' as int) + (d[1] as int - '0' as int)
  {
    var d1 := d[..1];
    assert d1[..0] == [];
    assert DigitsValue(d1) == d[0] as int - '0' as int;
    assert d[..|d| - 1] == d1;
  }

  // ---------- products ----------

  /** A product as `loadProducts` builds it from a row. */
  datatype Product = Product(title: string, priceRaw: string, priceNum: Option<real>,
                             desc: string, badge: string, sku: string, image: string)

  /** What every product record satisfies: a non-empty title, every text
      field trimmed, and a numeric price read from the raw price text alone. */
  predicate ValidProduct(p: Product) {
    && p.title != ""
    && IsTrimmed(p.title) && IsTrimmed(p.priceRaw) && IsTrimmed(p.desc)
    && IsTrimmed(p.badge) && IsTrimmed(p.sku) && IsTrimmed(p.image)
    && p.priceNum == ParsePriceNumber(Some(p.priceRaw))
  }

  /** The title a product row resolves to: the `title` cell, or the `product`
      cell when the `title` cell is missing or exactly empty, trimmed. */
  function ProductTitle(r: Row): string {
    Trim(Or(CI(Some(r), "title"), CI(Some(r), "product")))
  }

  /** The row mapper of `loadProducts`: null when the resolved title is empty,
      otherwise a valid product. */
  function MapProduct(r: Row): (p: Option<Product>)
    ensures p.Some? <==> ProductTitle(r) != ""
    ensures p.Some? ==> ValidProduct(p.value) && p.value.title == ProductTitle(r)
  {
    var title := ProductTitle(r);
    if title == "" then None
    else
      var priceRaw := Trim(CI(Some(r), "price"));
      Some(Product(
        title,
        priceRaw,
        ParsePriceNumber(Some(priceRaw)),
        Trim(Or(CI(Some(r), "description"), CI(Some(r), "desc"))),
        Trim(CI(Some(r), "badge")),
        Trim(CI(Some(r), "sku")),
        Trim(CI(Some(r), "image"))))
  }

  /** A `title` cell holding only whitespace is truthy, so the `product`
      fallback is not consulted and the row is dropped. */
  lemma WhitespaceTitleDropsRow(r: Row)
    requires CI(Some(r), "title") != "" && AllSpace(CI(Some(r), "title"))
    ensures MapProduct(r) == None
  {
    TrimEmptyIffAllSpace(CI(Some(r), "title"));
  }

  /** The `product` cell stands in for a missing or empty `title` cell. */
  lemma ProductTitleFallback(r: Row)
    requires CI(Some(r), "title") == ""
    ensures MapProduct(r).Some? <==> Trim(CI(Some(r), "product")) != ""
    ensures MapProduct(r).Some? ==> MapProduct(r).value.title == Trim(CI(Some(r), "product"))
  {
  }

  /** Where each field of a product comes from: the trimmed `price`,
      `badge`, `sku` and `image` cells, and the trimmed `description` cell,
      or the `desc` cell when `description` is missing or empty. */
  lemma ProductFieldOrigins(r: Row)
    requires MapProduct(r).Some?
    ensures MapProduct(r).value.priceRaw == Trim(CI(Some(r), "price"))
    ensures CI(Some(r), "description") != "" ==>
              MapProduct(r).value.desc == Trim(CI(Some(r), "description"))
    ensures CI(Some(r), "description") == "" ==> MapProduct(r).value.desc == Trim(CI(Some(r), "desc"))
    ensures MapProduct(r).value.badge == Trim(CI(Some(r), "badge"))
    ensures MapProduct(r).value.sku == Trim(CI(Some(r), "sku"))
    ensures MapProduct(r).value.image == Trim(CI(Some(r), "image"))
  {
  }

  /** `(res.data || []).map(...)` in `loadProducts`: one mapper result per row. */
  function MappedProducts(data: seq<Row>): (mapped: seq<Option<Product>>)
    ensures |mapped| == |data|
  {
    seq(|data|, i requires 0 <= i < |data| => MapProduct(data[i]))
  }

  /** `.filter(Boolean)` after the mapper: the product records. */
  function ProductRecords(data: seq<Row>): (ps: seq<Product>)
    ensures forall k :: 0 <= k < |ps| ==> ValidProduct(ps[k])
  {
    CompactSpec(MappedProducts(data));
    Compact(MappedProducts(data))
  }

  /** The products are exactly the rows with a non-empty resolved title, each
      mapped once, in source order: the k-th product comes from row idx[k],
      the indices increase, and every row with a title appears among them. */
  lemma ProductRecordsKeepExactly(data: seq<Row>)
    ensures var idx := SomeIndices(MappedProducts(data));
            && |idx| == |ProductRecords(data)|
            && (forall k :: 0 <= k < |idx| ==>
                  idx[k] < |data| && MapProduct(data[idx[k]]) == Some(ProductRecords(data)[k]))
            && (forall k, l :: 0 <= k < l < |idx| ==> idx[k] < idx[l])
            && (forall i :: 0 <= i < |data| ==> (ProductTitle(data[i]) != "" <==> i in idx))
  {
    var mapped := MappedProducts(data);
    CompactSpec(mapped);
    forall i | 0 <= i < |data|
      ensures ProductTitle(data[i]) != "" <==> i in SomeIndices(mapped)
    {
      assert mapped[i] == MapProduct(data[i]);
    }
  }

  /** The price text of a card: the formatted number when there is one,
      otherwise the raw price text. */
  function PriceText(p: Product): Content {
    if p.priceNum.Some? then Euros(p.priceNum.value) else Plain(Or(p.priceRaw, ""))
  }

  /** A product card shows its raw price text exactly when no number could be
      read from it, and always when that text has no digit. */
  lemma PriceTextFallsBackToRaw(p: Product)
    requires ValidProduct(p)
    ensures PriceText(p) == Plain(p.priceRaw) <==> ParsePriceNumber(Some(p.priceRaw)).None?
    ensures !HasDigit(p.priceRaw) ==> PriceText(p) == Plain(p.priceRaw)
  {
  }

  /** The card image: the placeholder when there is no image reference. */
  function ProductImageSrc(image: string): string {
    if image != "" then ResolveImage(IMAGE_BASE, image) else PLACEHOLDER
  }

  /** The image wrapper of a card: one lazily loaded `img`. */
  function ProductImage(p: Product): Node {
    var img := Node("img", "", [("alt", Or(p.title, "")), ("loading", "lazy"),
                                ("src", ProductImageSrc(p.image))], Plain(""), []);
    Node("div", "imgwrap", [], Plain(""), [img])
  }

  /** The body of a card: title, price, description and, for a non-empty
      badge, a pill. */
  function ProductBody(p: Product): Node {
    Node("div", "body", [], Plain(""),
      [TextElem("h3", "", Or(p.title, "")),
       Node("div", "price", [], PriceText(p), []),
       TextElem("div", "desc", Or(p.desc, ""))]
      + (if p.badge != "" then [TextElem("span", "pill", p.badge)] else []))
  }

  /** `productCard(p)`: an `li.pcard` holding the image wrapper, the body and
      the order button. */
  function ProductCard(p: Product): Node {
    var toForm := Node("a", "btn", [("href", "#order")], Plain("Tilaa"), []);
    var actions := Node("div", "actions", [], Plain(""), [toForm]);
    Node("li", "pcard", [], Plain(""), [ProductImage(p), ProductBody(p), actions])
  }

  /** What a card shows: the image at the resolved path (the placeholder when
      there is no image), the title, the formatted price or else the raw price
      text, the description, a pill showing the badge exactly when the product
      has one, and the `Tilaa` button linking to the order form. */
  lemma ProductCardLayout(p: Product)
    ensures var li := ProductCard(p);
            && li.tag == "li" && |li.children| == 3
            && |li.children[0].children| == 1 && li.children[0].children[0].tag == "img"
            && var src := Attr(li.children[0].children[0], "src");
               && (p.image == "" ==> src == PLACEHOLDER)
               && (p.image != "" && StartsWith(p.image, "http") ==> src == p.image)
               && (p.image != "" && !StartsWith(p.image, "http") ==> src == IMAGE_BASE + p.image)
    ensures var body := ProductCard(p).children[1].children;
            && |body| >= 3 && body[0].tag == "h3" && body[0].text == Plain(Or(p.title, ""))
            && body[1].text == (if p.priceNum.Some? then Euros(p.priceNum.value) else Plain(p.priceRaw))
            && body[2].tag == "div" && body[2].className == "desc" && body[2].text == Plain(p.desc)
            && (HasTag(body, "span") <==> p.badge != "")
            && (forall i :: 0 <= i < |body| && body[i].tag == "span" ==> body[i].text == Plain(p.badge))
    ensures var actions := ProductCard(p).children[2];
            && actions.tag == "div" && actions.className == "actions" && |actions.children| == 1
            && actions.children[0].tag == "a" && actions.children[0].className == "btn"
            && Attr(actions.children[0], "href") == "#order"
            && actions.children[0].text == Plain("Tilaa")
  {
    var img := ProductImage(p).children[0];
    AttrLastAssignment(img.attrs, "src", 2);
    var body := ProductBody(p).children;
    var toForm := ProductCard(p).children[2].children[0];
    AttrLastAssignment(toForm.attrs, "href", 0);
    if p.badge != "" {
      assert body[3].tag == "span";
    } else {
      assert forall i :: 0 <= i < |body| ==> body[i].tag in {"h3", "div"};
    }
  }

  /** `renderProducts(list)`: nothing without a track; otherwise the track
      ends up holding one card per product, in order, whatever it held before. */
  method RenderProducts(track: Region?, list: seq<Product>)
    modifies track
    ensures track != null ==> track.children == MapSeq(ProductCard, list)
  {
    if track == null {
      return;
    }
    track.Clear();
    AppendEach(track, list, ProductCard);
  }

  /** Rendering the same products twice leaves the same cards as rendering once. */
  method RenderProductsTwice(track: Region, list: seq<Product>)
    modifies track
    ensures track.children == MapSeq(ProductCard, list)
    ensures |track.children| == |list|
  {
    RenderProducts(track, list);
    RenderProducts(track, list);
  }

  /** The parse completion of `loadProducts`: map the rows and render them.
      The error callback only logs, so a failed parse changes nothing. */
  method LoadProducts(track: Region?, result: ParseResult)
    modifies track
    ensures track != null && result.Complete? ==>
              track.children == MapSeq(ProductCard, ProductRecords(result.data))
    ensures track != null && result.Failed? ==> track.children == old(track.children)
  {
    match result
    case Failed =>
    case Complete(data) =>
      RenderProducts(track, ProductRecords(data));
  }

  // ---------- materials ----------

  /** A material as `loadMaterials` builds it; `kind` holds the `type` column. */
  datatype Material = Material(name: string, kind: string, note: string)

  /** What every material record satisfies: a non-empty name and every field trimmed. */
  predicate ValidMaterial(m: Material) {
    m.name != "" && IsTrimmed(m.name) && IsTrimmed(m.kind) && IsTrimmed(m.note)
  }

  function MaterialName(r: Row): string {
    Trim(CI(Some(r), "name"))
  }

  /** The row mapper of `loadMaterials`: null when the trimmed name is empty. */
  function MapMaterial(r: Row): (m: Option<Material>)
    ensures m.Some? <==> MaterialName(r) != ""
    ensures m.Some? ==> ValidMaterial(m.value) && m.value.name == MaterialName(r)
  {
    var name := MaterialName(r);
    if name == "" then None
    else Some(Material(name, Trim(CI(Some(r), "type")), Trim(CI(Some(r), "note"))))
  }

  /** `(res.data || []).map(...)` in `loadMaterials`: one mapper result per row. */
  function MappedMaterials(data: seq<Row>): (mapped: seq<Option<Material>>)
    ensures |mapped| == |data|
  {
    seq(|data|, i requires 0 <= i < |data| => MapMaterial(data[i]))
  }

  /** `.filter(Boolean)` after the mapper: the material records. */
  function MaterialRecords(data: seq<Row>): (ms: seq<Material>)
    ensures forall k :: 0 <= k < |ms| ==> ValidMaterial(ms[k])
  {
    CompactSpec(MappedMaterials(data));
    Compact(MappedMaterials(data))
  }

  /** The materials are exactly the rows with a non-empty trimmed name, each
      mapped once, in source order. */
  lemma MaterialRecordsKeepExactly(data: seq<Row>)
    ensures var idx := SomeIndices(MappedMaterials(data));
            && |idx| == |MaterialRecords(data)|
            && (forall k :: 0 <= k < |idx| ==>
                  idx[k] < |data| && MapMaterial(data[idx[k]]) == Some(MaterialRecords(data)[k]))
            && (forall k, l :: 0 <= k < l < |idx| ==> idx[k] < idx[l])
            && (forall i :: 0 <= i < |data| ==> (MaterialName(data[i]) != "" <==> i in idx))
  {
    var mapped := MappedMaterials(data);
    CompactSpec(mapped);
    forall i | 0 <= i < |data|
      ensures MaterialName(data[i]) != "" <==> i in SomeIndices(mapped)
    {
      assert mapped[i] == MapMaterial(data[i]);
    }
  }

  /** A material's type and note are the row's trimmed `type` and `note`
      cells. */
  lemma MaterialFieldOrigins(r: Row)
    requires MapMaterial(r).Some?
    ensures MapMaterial(r).value.kind == Trim(CI(Some(r), "type"))
    ensures MapMaterial(r).value.note == Trim(CI(Some(r), "note"))
  {
  }

  /** The small type text of a list row. */
  function TypeText(kind: string): (t: string)
    ensures kind == "" ==> t == ""
    ensures kind != "" ==> |t| == |kind| + 3 && t[..3] == " • " && t[3..] == kind
  {
    if kind != "" then " • " + kind else ""
  }

  /** One row of `renderMaterialsList`: `div.mrow` holding the name and the
      type text on the left and the note on the right. */
  function MaterialRow(m: Material): Node {
    var left := Node("div", "", [], Plain(""),
                     [TextElem("strong", "", m.name), TextElem("small", "", TypeText(m.kind))]);
    var right := TextElem("div", "muted", Or(m.note, ""));
    Node("div", "mrow", [], Plain(""), [left, right])
  }

  /** A list row shows the name in bold, ` • type` only when the type is
      non-empty, and the note. */
  lemma MaterialRowLayout(m: Material)
    ensures var row := MaterialRow(m);
            && row.tag == "div" && row.className == "mrow" && |row.children| == 2
            && |row.children[0].children| == 2
            && row.children[0].children[0].tag == "strong"
            && row.children[0].children[0].text == Plain(m.name)
            && row.children[0].children[1].tag == "small"
            && row.children[0].children[1].text == Plain(if m.kind == "" then "" else " • " + m.kind)
            && row.children[1].className == "muted"
            && row.children[1].text == Plain(m.note)
  {
  }

  /** `renderMaterialsList(rows)`: nothing without a list element; otherwise
      it ends up holding one row per material, in order, and no placeholder
      when there are none. */
  method RenderMaterialsList(wrap: Region?, rows: seq<Material>)
    modifies wrap
    ensures wrap != null ==> wrap.children == MapSeq(MaterialRow, rows)
  {
    if wrap == null {
      return;
    }
    wrap.Clear();
    AppendEach(wrap, rows, MaterialRow);
  }

  // ---------- material select ----------

  const ANY_MATERIAL := "Mikä vain kelpaa"
  const OTHER_MATERIAL := "Jokin muu"

  /** The option label (and value) of a material: `name (type)`, or the name
      alone when the type is empty. */
  function MaterialLabel(m: Material): (text: string)
    ensures |text| >= |m.name|
  {
    if m.kind != "" then m.name + " (" + m.kind + ")" else m.name
  }

  /** A label starts with the material's name, and it is the name alone
      exactly when the type is empty; otherwise the type follows in
      parentheses. */
  lemma MaterialLabelShowsType(m: Material)
    ensures |MaterialLabel(m)| >= |m.name| && MaterialLabel(m)[..|m.name|] == m.name
    ensures MaterialLabel(m) == m.name <==> m.kind == ""
    ensures m.kind != "" ==> MaterialLabel(m)[|m.name|..] == " (" + m.kind + ")"
  {
    if m.kind != "" {
      assert MaterialLabel(m) == m.name + (" (" + m.kind + ")");
    }
  }

  /** An option the `option:not([value=""])` selector does not match. */
  predicate IsPlaceholder(o: Choice) {
    o.valueAttr == Some("")
  }

  /** The options the clearing step leaves, in their order. */
  function Placeholders(opts: seq<Choice>): (kept: seq<Choice>)
    ensures |kept| <= |opts|
    ensures forall k :: 0 <= k < |kept| ==> IsPlaceholder(kept[k])
  {
    if opts == [] then []
    else Placeholders(opts[..|opts| - 1]) + (if IsPlaceholder(opts[|opts| - 1]) then [opts[|opts| - 1]] else [])
  }

  lemma {:induction false} PlaceholdersAppend(a: seq<Choice>, b: seq<Choice>)
    ensures Placeholders(a + b) == Placeholders(a) + Placeholders(b)
  {
    if b == [] {
      assert a + b == a;
    } else {
      var init, last := b[..|b| - 1], b[|b| - 1];
      var tail := if IsPlaceholder(last) then [last] else [];
      calc {
        Placeholders(a + b);
        { assert (a + b)[..|a + b| - 1] == a + init && (a + b)[|a + b| - 1] == last; }
        Placeholders(a + init) + tail;
        { PlaceholdersAppend(a, init); }
        Placeholders(a) + Placeholders(init) + tail;
        Placeholders(a) + Placeholders(b);
      }
    }
  }

  /** One step of the removal loop: with `opts` the options still present
      after visiting `found[..i]`, removing `found[i]` when it is not a
      placeholder (or keeping it when it is) leaves the options present
      after visiting `found[..i + 1]`. */
  lemma RemovalStep(found: seq<Choice>, i: nat, opts: seq<Choice>, kept: nat)
    requires i < |found|
    requires kept == |Placeholders(found[..i])|
    requires opts == Placeholders(found[..i]) + found[i..]
    ensures kept < |opts|
    ensures !IsPlaceholder(found[i]) ==>
              && kept == |Placeholders(found[..i + 1])|
              && opts[..kept] + opts[kept + 1..] == Placeholders(found[..i + 1]) + found[i + 1..]
    ensures IsPlaceholder(found[i]) ==>
              && kept + 1 == |Placeholders(found[..i + 1])|
              && opts == Placeholders(found[..i + 1]) + found[i + 1..]
  {
    var before := Placeholders(found[..i]);
    PlaceholdersStep(found, i);
    if !IsPlaceholder(found[i]) {
      DropAt(before, found[i], found[i + 1..]);
    } else {
      assert opts == (before + [found[i]]) + found[i + 1..];
    }
  }

  /** One more option visited: it is kept exactly when it is a placeholder. */
  lemma PlaceholdersStep(found: seq<Choice>, i: nat)
    requires i < |found|
    ensures Placeholders(found[..i + 1]) ==
              Placeholders(found[..i]) + (if IsPlaceholder(found[i]) then [found[i]] else [])
    ensures found[i..] == [found[i]] + found[i + 1..]
  {
    assert found[..i + 1][..i] == found[..i];
  }

  /** Removing the element just after `before` leaves `before + rest`. */
  lemma DropAt<T>(before: seq<T>, x: T, rest: seq<T>)
    ensures var s := before + [x] + rest;
            |before| < |s| && s[..|before|] + s[|before| + 1..] == before + rest
  {
    var s := before + [x] + rest;
    assert s[..|before|] == before;
    assert s[|before| + 1..] == rest;
  }

  lemma {:induction false} PlaceholdersOfPlaceholders(opts: seq<Choice>)
    requires forall k :: 0 <= k < |opts| ==> IsPlaceholder(opts[k])
    ensures Placeholders(opts) == opts
  {
    if opts != [] {
      PlaceholdersOfPlaceholders(opts[..|opts| - 1]);
    }
  }

  lemma {:induction false} PlaceholdersOfNone(opts: seq<Choice>)
    requires forall k :: 0 <= k < |opts| ==> !IsPlaceholder(opts[k])
    ensures Placeholders(opts) == []
  {
    if opts != [] {
      PlaceholdersOfNone(opts[..|opts| - 1]);
    }
  }

  /** `new Option(label, label)` for a material: what the `forEach` over the
      materials appends. */
  function MaterialOption(m: Material): Choice {
    var caption := MaterialLabel(m);
    NewOption(caption, caption)
  }

  /** One option per material, in order. */
  function MaterialOptions(rows: seq<Material>): seq<Choice> {
    MapSeq(MaterialOption, rows)
  }

  /** What `fillMaterialsSelect` leaves in a select that held `opts`. */
  function FilledOptions(opts: seq<Choice>, rows: seq<Material>): seq<Choice> {
    Placeholders(opts) + MaterialOptions(rows)
      + [NewOption(ANY_MATERIAL, ANY_MATERIAL), NewOption(OTHER_MATERIAL, OTHER_MATERIAL)]
  }

  /** The filled select holds the earlier `value=""` options, then one option
      per material, then the two catch-all options, and nothing else. */
  lemma FilledOptionsShape(opts: seq<Choice>, rows: seq<Material>)
    ensures |FilledOptions(opts, rows)| == |Placeholders(opts)| + |rows| + 2
    ensures forall k :: 0 <= k < |Placeholders(opts)| ==> IsPlaceholder(FilledOptions(opts, rows)[k])
    ensures FilledOptions(opts, rows)[|Placeholders(opts)|..|Placeholders(opts)| + |rows|] == MaterialOptions(rows)
    ensures FilledOptions(opts, rows)[|Placeholders(opts)| + |rows|].text == ANY_MATERIAL
    ensures FilledOptions(opts, rows)[|Placeholders(opts)| + |rows| + 1].text == OTHER_MATERIAL
  {
    var ph := Placeholders(opts);
    var mo := MaterialOptions(rows);
    var filled := FilledOptions(opts, rows);
    assert filled == ph + mo + [NewOption(ANY_MATERIAL, ANY_MATERIAL), NewOption(OTHER_MATERIAL, OTHER_MATERIAL)];
    assert filled[|ph|..|ph| + |mo|] == mo;
  }

  /** Filling twice with valid materials gives what filling once gives: the
      options added by the first fill are all removed by the second. */
  lemma FilledOptionsIdempotent(opts: seq<Choice>, rows: seq<Material>)
    requires forall k :: 0 <= k < |rows| ==> rows[k].name != ""
    ensures FilledOptions(FilledOptions(opts, rows), rows) == FilledOptions(opts, rows)
  {
    var fixed := [NewOption(ANY_MATERIAL, ANY_MATERIAL), NewOption(OTHER_MATERIAL, OTHER_MATERIAL)];
    var ph := Placeholders(opts);
    var data := MaterialOptions(rows);
    assert forall k :: 0 <= k < |data| ==> !IsPlaceholder(data[k]);
    PlaceholdersOfNone(data);
    PlaceholdersOfNone(fixed);
    PlaceholdersOfPlaceholders(ph);
    PlaceholdersAppend(ph + data, fixed);
    PlaceholdersAppend(ph, data);
    assert Placeholders(FilledOptions(opts, rows)) == ph;
  }

  /** `sel.querySelectorAll('option:not([value=""])').forEach(o => o.remove())`:
      the selector's result is a static list, so the options are visited in
      their original order while the select shrinks. */
  method RemoveValuedOptions(sel: Select)
    modifies sel
    ensures sel.options == Placeholders(old(sel.options))
  {
    var found := sel.options;
    var i, kept := 0, 0;
    while i < |found|
      invariant 0 <= i <= |found|
      invariant kept == |Placeholders(found[..i])|
      invariant sel.options == Placeholders(found[..i]) + found[i..]
    {
      RemovalStep(found, i, sel.options, kept);
      if !IsPlaceholder(found[i]) {
        sel.RemoveAt(kept);
      } else {
        kept := kept + 1;
      }
      i := i + 1;
    }
    assert found[..i] == found;
  }

  /** `fillMaterialsSelect(rows)`: the select is `#materialSelect`, or else
      `select[name="Materiaali"]`; nothing happens when neither exists.
      Every option whose `value` attribute is not `""` is removed, then one
      option per material and the two catch-all options are appended. */
  method FillMaterialsSelect(byId: Select?, byName: Select?, rows: seq<Material>)
    modifies byId, byName
    ensures byId != null ==> byId.options == FilledOptions(old(byId.options), rows)
    ensures byId != null && byName != null && byName != byId ==> byName.options == old(byName.options)
    ensures byId == null && byName != null ==> byName.options == FilledOptions(old(byName.options), rows)
  {
    var sel := if byId != null then byId else byName;
    if sel == null {
      return;
    }
    RemoveValuedOptions(sel);
    AppendOptions(sel, rows, MaterialOption);
    sel.Append(NewOption(ANY_MATERIAL, ANY_MATERIAL));
    sel.Append(NewOption(OTHER_MATERIAL, OTHER_MATERIAL));
  }

  /** The parse completion of `loadMaterials`: map the rows, render the list,
      fill the select. The error callback only logs. */
  method LoadMaterials(wrap: Region?, byId: Select?, byName: Select?, result: ParseResult)
    modifies wrap, byId, byName
    ensures wrap != null && result.Complete? ==>
              wrap.children == MapSeq(MaterialRow, MaterialRecords(result.data))
    ensures byId != null && result.Complete? ==>
              byId.options == FilledOptions(old(byId.options), MaterialRecords(result.data))
    ensures byId == null && byName != null && result.Complete? ==>
              byName.options == FilledOptions(old(byName.options), MaterialRecords(result.data))
    ensures byId != null && byName != null && byName != byId ==> byName.options == old(byName.options)
    ensures wrap != null && result.Failed? ==> wrap.children == old(wrap.children)
    ensures byId != null && result.Failed? ==> byId.options == old(byId.options)
    ensures byName != null && result.Failed? ==> byName.options == old(byName.options)
  {
    match result
    case Failed =>
    case Complete(data) =>
      var rows := MaterialRecords(data);
      RenderMaterialsList(wrap, rows);
      FillMaterialsSelect(byId, byName, rows);
  }
}
