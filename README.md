# ProtoBoksi sheet pipelines in Dafny

The ProtoBoksi site publishes its content from a Google Sheet. Each kind of
content has its own pipeline:

- `sheets.js` runs the products pipeline and the materials pipeline.
- `library.js` runs the library-links pipeline and the own-CAD-models pipeline.

Every pipeline has the same shape:

1. A CSV parser delivers the sheet's rows in header mode.
2. A tolerant header lookup `CI` reads cells whatever the header's case and
   surrounding whitespace.
3. A row mapper trims the cells, applies the `||` fallbacks and drops the
   rows missing their key fields (`.map(...).filter(Boolean)`).
4. The page region is cleared and refilled with one element per record.

This project models those pipelines and proves what they promise.

Modules:

- `Wrappers` (`wrappers.dfy`): `Option`, which stands for JavaScript's
  "value or null".
- `JsString` (`js_string.dfy`): the string built-ins the code relies on.
  - `trim`, over the exact ECMAScript whitespace set.
  - `toLowerCase`, for ASCII and Latin-1 capitals.
  - `startsWith`.
  - The falsy fallback `a || b` on strings.
- `Pipeline` (`pipeline.dfy`): the parts every pipeline shares.
  - A row: header text to cell text, in `Object.keys` order.
  - The `find`-based header lookup and its first-match semantics.
  - `.filter(Boolean)` as `Compact`, with a proof that it keeps exactly the
    non-null entries, in order.
  - `xs.map(f)` and the `forEach(appendChild)` loop `AppendEach`.
  - Image-path resolution (`http…` absolute, else relative to a base).
  - The outcome of a parse: `Complete(rows)` or `Failed`.
- `Dom` (`dom.dfy`): the page as the pipelines see it.
  - Element descriptors: tag, class, attributes in assignment order, text
    and children.
  - `Region`, a class whose child list `innerHTML` and `appendChild` change.
  - `Select`, a class whose options are removed and appended in place.
- `Sheets` (`sheets.dfy`): `sheets.js`.
  - `CI`.
  - Price sanitising and `parseFloat` read as an exact decimal.
  - The product and material row mappers.
  - `productCard`, `renderProducts`, `renderMaterialsList` and
    `fillMaterialsSelect`.
  - The parse completions of `loadProducts` and `loadMaterials`.
- `Library` (`library.dfy`): `library.js`.
  - Its own `CI`, which does not trim the requested name.
  - The library and CAD row filters.
  - `libCard` and `cadCard`.
  - The parse completions of `loadLibraries` and `loadCADs`: clear, then a
    placeholder message or one card per kept row.

How the environment is modelled:

- Page lookups (`$('#productsTrack')`, `document.getElementById('libList')`)
  are nullable parameters.
- A `Papa.parse` call is replaced by its outcome.
- Rendering methods change `Region` and `Select` objects in place. They are
  proved against specification functions (`MapSeq(ProductCard, list)`,
  `FilledOptions(opts, rows)`, `LibraryView(data)`), and the properties of
  those functions are proved as lemmas.

Two behaviours of the code are worth stating because a reader might expect
otherwise:

- A failed fetch or parse shows nothing new. Every `error` callback only
  logs (`sheets.js:161`, `sheets.js:236`, `library.js:59`,
  `library.js:93`), so a failed parse leaves the region as it was
  (`LoadProducts`, `LoadMaterials`, `LoadLibraries`, `LoadCads`).
- `sheets.js` has no empty-list message. Only `library.js` shows a
  placeholder when no row survives. `renderProducts` and
  `renderMaterialsList` leave an empty region then (`RenderProducts`,
  `RenderMaterialsList`).

## Model

| member | source | states |
|---|---|---|
| Sheets.CIFirstMatch | sheets.js:34-39 | no row gives `''`; otherwise the cell under the first non-empty header whose trimmed, lower-cased form equals the trimmed, lower-cased name, and `''` when none matches |
| Pipeline.FindHeaderFirst | sheets.js:37 | `find` returns the first matching key in row order, and nothing exactly when no key matches |
| Pipeline.ValueOfFirstMatch | sheets.js:37-38 | the lookup yields the value under the first matching key |
| Pipeline.ValueOfNoMatch | sheets.js:37-38 | with no matching key the lookup yields `''` |
| Pipeline.ValueOfUniqueHeader | sheets.js:37-38 | a single matching header is found whatever its case and surrounding whitespace |
| Library.CIFirstMatch | library.js:11-14 | the library lookup yields the cell under the first non-empty header whose trimmed, lower-cased form equals the lower-cased name, and `''` when none does |
| Library.CIAgreesWithSheets | library.js:11-14 | for a name with no surrounding whitespace the two pages' lookups agree |
| Library.UntrimmedNameFindsNothing | library.js:12 | because the requested name is not trimmed, a name with surrounding whitespace matches no header |
| JsString.Trim | sheets.js:141 | `trim` leaves no whitespace at either end |
| JsString.TrimIsInfix | sheets.js:141 | `trim` returns the middle of the string, between a leading and a trailing run of whitespace |
| JsString.TrimOfTrimmed | sheets.js:141 | trimming a trimmed string changes nothing |
| JsString.TrimEmptyIffAllSpace | sheets.js:141-142 | `trim` yields `''` exactly for all-whitespace text |
| JsString.ToLowerKeepsTrimmed | library.js:12 | lower-casing keeps a string trimmed exactly when it was |
| JsString.Or | sheets.js:141 | `a \|\| b` on strings is `a` unless `a` is `''`, and `''` only when both are |
| Sheets.KeepPriceChars | sheets.js:44 | the `[^\d,.\-]` replacement keeps only digits, `,`, `.` and `-` |
| Sheets.KeepPriceCharsAppend | sheets.js:44 | the replacement works character by character: stripping a concatenation concatenates the stripped parts, so the kept characters stay in their original order |
| Sheets.KeepPriceCharsDigits | sheets.js:44 | the stripping step keeps a digit exactly when the text has one |
| Sheets.FirstCommaToDotAt | sheets.js:44 | `.replace(',', '.')` turns only the first comma into a dot and keeps every other character |
| Sheets.SanitizePriceChars | sheets.js:44 | the sanitised text has a digit exactly when the price has one, and holds only price characters |
| Sheets.ParseFloatNeedsDigit | sheets.js:45 | `parseFloat` reads a number only from text with a digit, and not a negative one without a leading `-` |
| Sheets.ParsePriceNumber | sheets.js:42-47 | null in gives null; a price without any digit gives null |
| Sheets.ParseFloatDecimal | sheets.js:45 | `parseFloat` reads `w.f` as the decimal w.f |
| Sheets.ParseFloatNegative | sheets.js:45 | `parseFloat` reads `-w.f` as the negated decimal w.f |
| Sheets.ParsePriceNegative | sheets.js:41-45 | the price `-3.5` reads as -3.5 |
| Sheets.SanitizeDecimalComma | sheets.js:44 | `w,f` followed by non-price text sanitises to `w.f` |
| Sheets.ParsePriceDecimalComma | sheets.js:42-47 | a decimal-comma price followed by a currency sign or spaces reads as the decimal it writes |
| Sheets.ParsePriceFinnish | sheets.js:41-47 | `"19,90 €"` reads as 19.90 |
| Sheets.MapProduct | sheets.js:140-156 | a row maps to a product exactly when its resolved title is non-empty; every product has trimmed fields and a numeric price read from its raw price text |
| Sheets.WhitespaceTitleDropsRow | sheets.js:141-142 | a whitespace-only `title` cell is truthy, so `product` is not consulted and the row is dropped |
| Sheets.ProductTitleFallback | sheets.js:141-142 | for a row whose `title` cell is missing or empty, the row is kept exactly when the trimmed `product` cell is non-empty, and that cell becomes the title |
| Sheets.ProductFieldOrigins | sheets.js:144-154 | every product's raw price, badge, sku and image are the row's trimmed cells; its description is the trimmed `description` cell, or the `desc` cell when `description` is missing or empty |
| Sheets.ProductRecords | sheets.js:139-157 | every product record is valid |
| Sheets.ProductRecordsKeepExactly | sheets.js:139-157 | the products are exactly the rows with a non-empty resolved title, each mapped once, in source order |
| Sheets.PriceTextFallsBackToRaw | sheets.js:77 | the card shows the raw price text exactly when no number was read, and always when the price has no digit |
| Sheets.ProductCardLayout | sheets.js:54-112 | the card is an `li` with image, body and actions; the image source is the placeholder, the `http` reference itself or the image base plus the reference; the body shows the title, the price text, the description, and a pill showing the badge exactly when there is one; the actions hold the `Tilaa` button linking to `#order` |
| Sheets.RenderProducts | sheets.js:114-126 | without a track nothing changes; otherwise the track holds one card per product, in order, whatever it held before |
| Sheets.RenderProductsTwice | sheets.js:121-122 | rendering twice leaves what rendering once leaves |
| Sheets.LoadProducts | sheets.js:138-161 | a completed parse renders the product records; a failed parse changes nothing |
| Sheets.MapMaterial | sheets.js:222-230 | a row maps to a material exactly when its trimmed name is non-empty, with all fields trimmed |
| Sheets.MaterialFieldOrigins | sheets.js:227-228 | a material's type and note are the row's trimmed `type` and `note` cells |
| Sheets.MaterialRecords | sheets.js:221-231 | every material record is valid |
| Sheets.MaterialRecordsKeepExactly | sheets.js:221-231 | the materials are exactly the rows with a non-empty trimmed name, each mapped once, in source order |
| Sheets.TypeText | sheets.js:180 | the type text is empty for an empty type and otherwise ` • ` followed by the type |
| Sheets.MaterialRowLayout | sheets.js:173-189 | a list row is `div.mrow` with the bold name and the type text on the left and the note on the right |
| Sheets.RenderMaterialsList | sheets.js:167-191 | without a list nothing changes; otherwise it holds one row per material, in order, and no placeholder when there are none |
| Sheets.MaterialLabelShowsType | sheets.js:202 | a label starts with the name, is the name alone exactly when the type is empty, and otherwise continues with ` (type)` |
| Sheets.Placeholders | sheets.js:199 | the options the clearing step leaves are all `value=""` options |
| Sheets.PlaceholdersAppend | sheets.js:199 | clearing distributes over concatenation |
| Sheets.RemoveValuedOptions | sheets.js:199 | removing the selector's static match list leaves exactly the `value=""` options, in order |
| Pipeline.AppendOptions | sheets.js:201-204 | the `forEach` over the materials appends one `new Option(label, label)` per material, in order, after the options already there |
| Sheets.FilledOptionsShape | sheets.js:194-208 | the filled select holds the earlier `value=""` options, then the material options, then `Mikä vain kelpaa` and `Jokin muu` |
| Sheets.FilledOptionsIdempotent | sheets.js:194-208 | filling twice with the same materials gives what filling once gives |
| Sheets.FillMaterialsSelect | sheets.js:194-208 | `#materialSelect` is used when present, else `select[name="Materiaali"]`; the chosen select ends with the filled options; nothing else changes |
| Sheets.LoadMaterials | sheets.js:220-236 | a completed parse renders the list and fills the select from the same records, leaving a second, unused select as it was; a failed parse changes nothing |
| Pipeline.CompactSpec | sheets.js:157 | `.filter(Boolean)` keeps exactly the non-null results, each once, in order |
| Pipeline.MapSeq | sheets.js:122 | one result per element, in order |
| Pipeline.AppendEach | sheets.js:122 | the `forEach(appendChild)` loop appends one element per entry, in order, after what was there |
| Pipeline.ResolveImage | library.js:33-34 | an empty reference stays empty, an `http` reference is kept, anything else gets the image base in front |
| Pipeline.ResolveImageKeepsReference | library.js:34 | the resolved path is empty exactly when the reference is, and it ends with the reference |
| Library.CardImgSrc | library.js:41 | a card image's `src` is the resolved path; the later `alt`, `loading` and `style` assignments do not replace it |
| Library.NewTabLinkHref | library.js:36 | a card link points at the url it was given |
| Library.Cell | library.js:29-33 | a cell read for a card is trimmed |
| Library.LibraryRowsKeepExactly | library.js:51-54 | the kept rows are exactly those with non-empty trimmed title and url, unchanged, in order |
| Library.LibCardLayout | library.js:27-45 | a library card starts with its link; it has an image exactly when the image cell is non-empty, at the resolved path; a description paragraph showing `desc` exactly when it is non-empty; a tag line showing `tag` exactly when it is non-empty; and the children come in that order |
| Library.LibCardOfLayout | library.js:36-43 | the same layout, with the description and tag texts, for the card's assembly from its resolved fields |
| Library.RankedParts | library.js:40-43 | a fixed first child then three optional ones: each optional child is present exactly when its condition holds, in order, and a child with an optional child's tag is that child |
| Library.LibCardNoDefaults | library.js:29-30 | for a kept row the `Linkki` and `#` defaults never show |
| Library.LibraryViewShape | library.js:55-57 | after a completed parse the list is never empty: the placeholder alone exactly when no row is kept, else one card per kept row, in order |
| Library.LoadLibraries | library.js:46-60 | without `#libList` nothing happens; a failed parse only logs; otherwise the list is cleared, then gets the placeholder or the cards |
| Library.CadRowsKeepExactly | library.js:84-88 | the kept rows are exactly those with a non-empty trimmed title, image or link, unchanged, in order |
| Library.CadCardLayout | library.js:65-78 | a CAD card starts with its title (`Nimetön` for an empty one); it has an image exactly when the image cell is non-empty, a note paragraph showing `note` exactly when it is non-empty, and an `Avaa malli` link exactly when `link` is, pointing at it; the children come in that order |
| Library.CadCardOfLayout | library.js:73-76 | the same layout, with the note text and the `Avaa malli` link text, for the card's assembly from its resolved fields |
| Library.CadCardShowsKeptRow | library.js:73-87 | a row passes the CAD filter exactly when its card shows its own title, an image or a model link |
| Library.CadViewShape | library.js:89-91 | after a completed parse the list is never empty: the placeholder alone exactly when no row is kept, else one card per kept row, in order |
| Library.LoadCads | library.js:79-94 | without `#cadList` nothing happens; a failed parse only logs; otherwise the list is cleared, then gets the placeholder or the cards |
| Dom.AttrLastAssignment | sheets.js:62-64 | an attribute reads as the value of its last assignment, whatever was assigned before |
| Dom.Region.Clear | sheets.js:121 | `innerHTML = ''` empties the region |
| Dom.Region.SetMarkup | library.js:56 | assigning one element's markup leaves that element alone |
| Dom.Region.Append | sheets.js:122 | `appendChild` adds the element at the end |
| Dom.Select.RemoveAt | sheets.js:199 | `o.remove()` takes out exactly that option |
| Dom.Select.Append | sheets.js:203 | `appendChild` adds the option at the end |

## Left out

- `Papa.parse`, the CSV download and `csvUrl`. These are I/O: a parse is
  replaced by its outcome (`Complete(rows)` or `Failed`), and rows are the
  parser's header-mode output, including its empty-line skipping.
- `ensurePapa`, the `typeof Papa === 'undefined'` guards and the
  `DOMContentLoaded`/`initSheets` start-up. These only decide whether and when
  a pipeline runs.
- `console.error` logging in the error callbacks and guards. It is not
  observable on the page.
- The event handlers: `img.onerror` (swap to the placeholder, or remove the
  image), the carousel's `scrollBy` buttons and the `Tilaa` click that fills
  `#formProduct` and `#formSku`. They run after rendering, on user or
  network events.
- `window` configuration overrides and the `window.__protoboksi` debug
  export. These are globals outside the pipelines.
- Sheets.ParsePriceNumber: models `parseFloat` as an exact decimal. It does
  not model binary64 rounding or overflow to `Infinity`, which
  `Number.isFinite` would turn into null.
- `fmtEUR` / `toFixed(2)`. The price element's text is the descriptor
  `Euros(amount)`, not the formatted string.
- JsString.ToLower: lower-cases ASCII and Latin-1 capitals only. Other
  Unicode case mappings are not modelled.
- Cells are strings only (the parser runs without dynamic typing), so
  `String(...)` conversions are the identity. `res.data || []` is modelled
  with `data` always present.
- `$` and `document.getElementById` are page queries. They become nullable
  parameters.
