/**
 * The parts every sheet pipeline shares: a parsed CSV row, the tolerant
 * header lookup, the `.map(...).filter(Boolean)` step that drops rejected
 * rows, image-path resolution and the outcome of a CSV parse.
 */
module Pipeline {
  import opened Wrappers
  import opened JsString
  import opened Dom

  /** One row as the CSV parser delivers it in header mode: header text to
      cell text, in the order `Object.keys` lists them. */
  type Row = seq<(string, string)>

  /** What a `Papa.parse` call ends with: the `complete` callback with the
      parsed rows, or the `error` callback. */
  datatype ParseResult = Complete(data: seq<Row>) | Failed

  /** A header's comparison form: trimmed, then lower-cased. */
  function Normalize(s: string): string {
    ToLower(Trim(s))
  }

  /** The test the `find` callback applies to a key: the key is truthy (not
      the empty string) and its comparison form equals `want`. */
  predicate HeaderMatches(key: string, want: string) {
    key != "" && Normalize(key) == want
  }

  /** `Object.keys(row).find(...)`: the position of the first key, in row
      order, that matches `want`, or None when no key does. */
  function FindHeader(row: Row, want: string): (r: Option<nat>)
    ensures r.Some? ==> r.value < |row|
  {
    if row == [] then None
    else if HeaderMatches(row[0].0, want) then Some(0)
    else match FindHeader(row[1..], want)
      case None => None
      case Some(i) => Some(i + 1)
  }

  /** `find` reports the first matching key, and None only when no key matches. */
  lemma {:induction false} FindHeaderFirst(row: Row, want: string)
    ensures var r := FindHeader(row, want);
            && (r.Some? ==> HeaderMatches(row[r.value].0, want))
            && (r.Some? ==> forall j :: 0 <= j < r.value ==> !HeaderMatches(row[j].0, want))
            && (r.None? <==> forall j :: 0 <= j < |row| ==> !HeaderMatches(row[j].0, want))
  {
    if row != [] && !HeaderMatches(row[0].0, want) {
      FindHeaderFirst(row[1..], want);
      var r := FindHeader(row[1..], want);
      if r.None? {
        forall j | 0 <= j < |row| ensures !HeaderMatches(row[j].0, want) {
          if j > 0 {
            assert row[j] == row[1..][j - 1];
          }
        }
      } else {
        forall j | 0 <= j < r.value + 1 ensures !HeaderMatches(row[j].0, want) {
          if j > 0 {
            assert row[j] == row[1..][j - 1];
          }
        }
      }
    }
  }

  /** `obj[hit]` or `''`: the value under the first matching key. */
  function ValueOf(row: Row, want: string): string {
    match FindHeader(row, want)
    case None => ""
    case Some(i) => row[i].1
  }

  /** The lookup returns the cell under the first matching header, and `''`
      when no header matches. */
  lemma ValueOfFirstMatch(row: Row, want: string, i: nat)
    requires i < |row| && HeaderMatches(row[i].0, want)
    requires forall j :: 0 <= j < i ==> !HeaderMatches(row[j].0, want)
    ensures ValueOf(row, want) == row[i].1
  {
    FindHeaderFirst(row, want);
  }

  /** With no matching header the lookup gives `''`. */
  lemma ValueOfNoMatch(row: Row, want: string)
    requires forall j :: 0 <= j < |row| ==> !HeaderMatches(row[j].0, want)
    ensures ValueOf(row, want) == ""
  {
    FindHeaderFirst(row, want);
  }

  /** When exactly one header of the row matches, the lookup returns that
      header's cell, whatever the header's case and surrounding whitespace. */
  lemma ValueOfUniqueHeader(row: Row, want: string, i: nat)
    requires i < |row| && HeaderMatches(row[i].0, want)
    requires forall j :: 0 <= j < |row| && j != i ==> !HeaderMatches(row[j].0, want)
    ensures ValueOf(row, want) == row[i].1
  {
    ValueOfFirstMatch(row, want, i);
  }

  /** `.filter(Boolean)` after a `.map` that returns a record or null: the
      records, in input order. */
  function Compact<T>(xs: seq<Option<T>>): (r: seq<T>)
    ensures |r| <= |xs|
  {
    if xs == [] then []
    else Compact(xs[..|xs| - 1]) + (if xs[|xs| - 1].Some? then [xs[|xs| - 1].value] else [])
  }

  /** The positions of the non-null entries, in increasing order. */
  function SomeIndices<T>(xs: seq<Option<T>>): (idx: seq<nat>)
    ensures forall k :: 0 <= k < |idx| ==> idx[k] < |xs| && xs[idx[k]].Some?
    ensures forall k, l :: 0 <= k < l < |idx| ==> idx[k] < idx[l]
    ensures forall i :: 0 <= i < |xs| && xs[i].Some? ==> i in idx
  {
    if xs == [] then []
    else
      var init := SomeIndices(xs[..|xs| - 1]);
      if xs[|xs| - 1].Some? then init + [|xs| - 1] else init
  }

  /** `Compact` keeps exactly the non-null entries, each once, in input order:
      its k-th record is the value at the k-th non-null position. */
  lemma {:induction false} CompactSpec<T>(xs: seq<Option<T>>)
    ensures |Compact(xs)| == |SomeIndices(xs)|
    ensures forall k :: 0 <= k < |Compact(xs)| ==> xs[SomeIndices(xs)[k]] == Some(Compact(xs)[k])
  {
    if xs != [] {
      CompactSpec(xs[..|xs| - 1]);
    }
  }

  /** `xs.map(f)`, also what `xs.forEach(x => list.appendChild(f(x)))`
      appends: one result per element, in order. */
  function MapSeq<A, B>(f: A -> B, xs: seq<A>): (ys: seq<B>)
    ensures |ys| == |xs|
    ensures forall k :: 0 <= k < |xs| ==> ys[k] == f(xs[k])
  {
    if xs == [] then [] else MapSeq(f, xs[..|xs| - 1]) + [f(xs[|xs| - 1])]
  }

  /** Mapping one more element appends its image. */
  lemma MapSeqSnoc<A, B>(f: A -> B, xs: seq<A>, x: A)
    ensures MapSeq(f, xs + [x]) == MapSeq(f, xs) + [f(x)]
  {
    assert (xs + [x])[..|xs|] == xs;
  }

  /** `xs.forEach(x => list.appendChild(f(x)))`: the list gains one element
      per entry, in order, after what it already held. */
  method AppendEach<T>(list: Region, xs: seq<T>, f: T -> Node)
    modifies list
    ensures list.children == old(list.children) + MapSeq(f, xs)
  {
    var i := 0;
    while i < |xs|
      invariant 0 <= i <= |xs|
      invariant list.children == old(list.children) + MapSeq(f, xs[..i])
    {
      list.Append(f(xs[i]));
      assert xs[..i + 1] == xs[..i] + [xs[i]];
      MapSeqSnoc(f, xs[..i], xs[i]);
      i := i + 1;
    }
    assert xs[..i] == xs;
  }

  /** `xs.forEach(x => sel.appendChild(f(x)))` on a select: it gains one
      option per entry, in order, after the options it already held. */
  method AppendOptions<T>(sel: Select, xs: seq<T>, f: T -> Choice)
    modifies sel
    ensures sel.options == old(sel.options) + MapSeq(f, xs)
  {
    var i := 0;
    while i < |xs|
      invariant 0 <= i <= |xs|
      invariant sel.options == old(sel.options) + MapSeq(f, xs[..i])
    {
      sel.Append(f(xs[i]));
      assert xs[..i + 1] == xs[..i] + [xs[i]];
      MapSeqSnoc(f, xs[..i], xs[i]);
      i := i + 1;
    }
    assert xs[..i] == xs;
  }

  /** Image-path resolution of a trimmed image cell: empty stays empty (no
      image), a reference starting with `http` is used as it is, anything
      else is taken relative to `base`. */
  function ResolveImage(base: string, img: string): (src: string)
    ensures img == "" ==> src == ""
    ensures img != "" && StartsWith(img, "http") ==> src == img
    ensures img != "" && !StartsWith(img, "http") ==> src == base + img
  {
    if img == "" then img
    else if StartsWith(img, "http") then img
    else base + img
  }

  /** A resolved path is empty exactly when the reference was, and it always
      ends with the reference itself. */
  lemma ResolveImageKeepsReference(base: string, img: string)
    ensures ResolveImage(base, img) == "" <==> img == ""
    ensures var src := ResolveImage(base, img);
            |img| <= |src| && src[|src| - |img|..] == img
  {
    var src := ResolveImage(base, img);
    if img != "" && !StartsWith(img, "http") {
      assert src[|src| - |img|..] == img;
    }
  }
}
