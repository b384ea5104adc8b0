/** The annotation records of the PDF viewer and the pure list transforms its
    handlers apply to them: update by id (move, resize), remove by id, the page
    filters, the "find first by id" lookup, rounding and the page clamp, with
    lemmas about appending a record (the appends themselves are in the handlers). */
module AnnotationModel {

  datatype Option<T> = None | Some(value: T)

  /** JavaScript truthiness of an optional string: present and not empty. */
  predicate Truthy(s: Option<string>) {
    s.Some? && s.value != ""
  }

  datatype Kind = Highlight | Underline | Comment | Signature

  /** The kinds a text selection can be turned into. */
  type TextKind = k: Kind | k != Signature witness Highlight

  /** One annotation record. Text marks carry `text` (the selected text),
      signatures carry `signatureDataUrl`; the other one is absent. Positions
      and sizes are in the display units of the page container. */
  datatype Annotation = Annotation(
    id: string,
    kind: Kind,
    text: Option<string>,
    signatureDataUrl: Option<string>,
    x: real,
    y: real,
    width: real,
    height: real,
    pageNumber: int)

  /** The size of the page container as its bounding rectangle reports it. */
  datatype Rect = Rect(width: real, height: real)

  const DefaultWidth: real := 150.0
  const DefaultHeight: real := 100.0
  /** Signature placement when there is no container to measure. */
  const FallbackX: real := 100.0
  const FallbackY: real := 200.0
  /** The vertical position the Center-on-Page button moves a signature to. */
  const CenterY: real := 100.0

  // ---------------------------------------------------------------------------
  // Collections of records

  function Ids(l: seq<Annotation>): set<string> {
    set a | a in l :: a.id
  }

  /** The ids of the signature records of `l`: the ones that need a drag handle. */
  function SignatureIds(l: seq<Annotation>): set<string> {
    set a | a in l && a.kind == Signature :: a.id
  }

  predicate WidthsPositive(l: seq<Annotation>) {
    forall a :: a in l ==> a.width > 0.0
  }

  predicate UniqueIds(l: seq<Annotation>) {
    forall i, j :: 0 <= i < j < |l| ==> l[i].id != l[j].id
  }

  lemma SignatureIdsSnoc(l: seq<Annotation>, a: Annotation)
    ensures SignatureIds(l + [a]) == SignatureIds(l) + (if a.kind == Signature then {a.id} else {})
  {
  }

  /** SignatureIdsSnoc for the prefix of `l` that grows by `l[i]`. */
  lemma SignatureIdsPrefix(l: seq<Annotation>, i: nat)
    requires i < |l|
    ensures SignatureIds(l[..i + 1]) == SignatureIds(l[..i]) + (if l[i].kind == Signature then {l[i].id} else {})
  {
    assert l[..i + 1] == l[..i] + [l[i]];
    SignatureIdsSnoc(l[..i], l[i]);
  }

  /** Appending a record whose id is not yet used keeps the ids unique. Ids are
      supplied by the caller, so this is the only uniqueness the model offers. */
  lemma AppendFreshKeepsUnique(l: seq<Annotation>, a: Annotation)
    requires UniqueIds(l) && a.id !in Ids(l)
    ensures UniqueIds(l + [a])
  {
  }

  // ---------------------------------------------------------------------------
  // Filtering (Array.prototype.filter)

  /** The elements of `s` that satisfy `p`, in their original order. */
  function Filter<T(!new)>(s: seq<T>, p: T -> bool): (r: seq<T>)
    ensures |r| <= |s|
    ensures forall x :: x in r <==> x in s && p(x)
  {
    if s == [] then [] else (if p(s[0]) then [s[0]] else []) + Filter(s[1..], p)
  }

  lemma {:induction false} FilterAppend<T(!new)>(a: seq<T>, b: seq<T>, p: T -> bool)
    ensures Filter(a + b, p) == Filter(a, p) + Filter(b, p)
  {
    if a == [] {
      assert a + b == b;
    } else {
      assert (a + b)[1..] == a[1..] + b;
      FilterAppend(a[1..], b, p);
    }
  }

  /** Filtering keeps everything when every element passes. */
  lemma {:induction false} FilterAll<T(!new)>(s: seq<T>, p: T -> bool)
    requires forall x :: x in s ==> p(x)
    ensures Filter(s, p) == s
  {
    if s != [] {
      FilterAll(s[1..], p);
    }
  }

  /** The annotations listed under the page: those whose page is `page`. */
  function OnPage(l: seq<Annotation>, page: int): (r: seq<Annotation>)
    ensures forall a :: a in r <==> a in l && a.pageNumber == page
  {
    Filter(l, (a: Annotation) => a.pageNumber == page)
  }

  /** The signature overlays drawn over the page: signatures whose page is `page`. */
  function SignaturesOnPage(l: seq<Annotation>, page: int): (r: seq<Annotation>)
    ensures forall a :: a in r <==> a in l && a.kind == Signature && a.pageNumber == page
  {
    Filter(l, (a: Annotation) => a.kind == Signature && a.pageNumber == page)
  }

  lemma SignaturesOnPageSnoc(l: seq<Annotation>, a: Annotation, page: int)
    ensures SignaturesOnPage(l + [a], page)
         == SignaturesOnPage(l, page) + (if a.kind == Signature && a.pageNumber == page then [a] else [])
  {
    FilterAppend(l, [a], (x: Annotation) => x.kind == Signature && x.pageNumber == page);
  }

  /** Every drawn overlay is also a listed annotation of the same page, and its
      id is a signature id of the whole list. */
  lemma DrawnAreListed(l: seq<Annotation>, page: int)
    ensures forall a :: a in SignaturesOnPage(l, page) ==> a in OnPage(l, page)
    ensures SignatureIds(SignaturesOnPage(l, page)) <= SignatureIds(l)
  {
  }

  /** Giving every drawn overlay a handle covers every drawn id, and adds
      nothing when every signature already had a handle. */
  lemma OverlayHandles(l: seq<Annotation>, page: int, before: set<string>, after: set<string>)
    requires after == before + SignatureIds(SignaturesOnPage(l, page))
    ensures forall a :: a in SignaturesOnPage(l, page) ==> a.id in after
    ensures SignatureIds(l) <= before ==> after == before
  {
  }

  /** Removal of one id: the records with a different id, in their order. */
  function RemoveById(l: seq<Annotation>, id: string): (r: seq<Annotation>)
    ensures forall a :: a in r <==> a in l && a.id != id
    ensures Ids(r) == Ids(l) - {id}
    ensures SignatureIds(r) == SignatureIds(l) - {id}
    ensures WidthsPositive(l) ==> WidthsPositive(r)
  {
    Filter(l, (a: Annotation) => a.id != id)
  }

  /** Removing an id that is not there changes nothing. */
  lemma RemoveUnknownId(l: seq<Annotation>, id: string)
    requires id !in Ids(l)
    ensures RemoveById(l, id) == l
  {
    FilterAll(l, (a: Annotation) => a.id != id);
  }

  /** Removing the same id twice is removing it once. */
  lemma RemoveIdempotent(l: seq<Annotation>, id: string)
    ensures RemoveById(RemoveById(l, id), id) == RemoveById(l, id)
  {
    RemoveUnknownId(RemoveById(l, id), id);
  }

  /** Removal distributes over concatenation, so the kept records stay in order. */
  lemma RemoveAppend(a: seq<Annotation>, b: seq<Annotation>, id: string)
    ensures RemoveById(a + b, id) == RemoveById(a, id) + RemoveById(b, id)
  {
    FilterAppend(a, b, (x: Annotation) => x.id != id);
  }

  /** Two records with distinct ids: removing one leaves exactly the other,
      unchanged. */
  lemma RemoveOneOfTwo(s1: Annotation, s2: Annotation)
    requires s1.id != s2.id
    ensures RemoveById([s1, s2], s1.id) == [s2]
  {
  }

  // ---------------------------------------------------------------------------
  // Updating matching records (Array.prototype.map with an id test)

  /** Applies `f` to every record whose id is `id`; the others stay as they are. */
  function UpdateById(l: seq<Annotation>, id: string, f: Annotation -> Annotation): (r: seq<Annotation>)
    ensures |r| == |l|
  {
    if l == [] then []
    else [if l[0].id == id then f(l[0]) else l[0]] + UpdateById(l[1..], id, f)
  }

  lemma {:induction false} UpdateByIdAt(l: seq<Annotation>, id: string, f: Annotation -> Annotation, k: nat)
    requires k < |l|
    ensures UpdateById(l, id, f)[k] == if l[k].id == id then f(l[k]) else l[k]
  {
    if k > 0 {
      UpdateByIdAt(l[1..], id, f, k - 1);
    }
  }

  lemma {:induction false} UpdateUnknownId(l: seq<Annotation>, id: string, f: Annotation -> Annotation)
    requires id !in Ids(l)
    ensures UpdateById(l, id, f) == l
  {
    if l != [] {
      assert l[0] in l;
      assert Ids(l[1..]) <= Ids(l) by {
        forall v | v in Ids(l[1..]) ensures v in Ids(l) {
          var b :| b in l[1..] && b.id == v;
          assert b in l;
        }
      }
      UpdateUnknownId(l[1..], id, f);
    }
  }

  /** Moving a signature: the records with id `id` get the new x and y. */
  function MoveById(l: seq<Annotation>, id: string, x: real, y: real): (r: seq<Annotation>)
    ensures |r| == |l|
  {
    UpdateById(l, id, (a: Annotation) => a.(x := x, y := y))
  }

  /** Move keeps length and order and changes only x and y of matching records. */
  lemma MoveByIdAt(l: seq<Annotation>, id: string, x: real, y: real, k: nat)
    requires k < |l|
    ensures var r := MoveById(l, id, x, y)[k];
      && r.id == l[k].id && r.kind == l[k].kind && r.text == l[k].text
      && r.signatureDataUrl == l[k].signatureDataUrl && r.pageNumber == l[k].pageNumber
      && r.width == l[k].width && r.height == l[k].height
      && (r.x, r.y) == (if l[k].id == id then (x, y) else (l[k].x, l[k].y))
  {
    UpdateByIdAt(l, id, (a: Annotation) => a.(x := x, y := y), k);
  }

  /** Move with an unknown id changes nothing. */
  lemma MoveUnknownId(l: seq<Annotation>, id: string, x: real, y: real)
    requires id !in Ids(l)
    ensures MoveById(l, id, x, y) == l
  {
    UpdateUnknownId(l, id, (a: Annotation) => a.(x := x, y := y));
  }

  /** A second move of the same id overrides the first. */
  lemma {:induction false} MoveTwice(l: seq<Annotation>, id: string, x1: real, y1: real, x2: real, y2: real)
    ensures MoveById(MoveById(l, id, x1, y1), id, x2, y2) == MoveById(l, id, x2, y2)
  {
    if l != [] {
      MoveTwice(l[1..], id, x1, y1, x2, y2);
    }
  }

  /** Resizing a signature: the records with id `id` get width `w` and height `h`. */
  function ResizeById(l: seq<Annotation>, id: string, w: real, h: real): (r: seq<Annotation>)
    ensures |r| == |l|
  {
    UpdateById(l, id, (a: Annotation) => a.(width := w, height := h))
  }

  /** Resize keeps length and order and changes only width and height of
      matching records. */
  lemma ResizeByIdAt(l: seq<Annotation>, id: string, w: real, h: real, k: nat)
    requires k < |l|
    ensures var r := ResizeById(l, id, w, h)[k];
      && r.id == l[k].id && r.kind == l[k].kind && r.text == l[k].text
      && r.signatureDataUrl == l[k].signatureDataUrl && r.pageNumber == l[k].pageNumber
      && r.x == l[k].x && r.y == l[k].y
      && (r.width, r.height) == (if l[k].id == id then (w, h) else (l[k].width, l[k].height))
  {
    UpdateByIdAt(l, id, (a: Annotation) => a.(width := w, height := h), k);
  }

  /** Neither move nor resize changes which ids are signature ids; a resize to a
      positive width keeps all widths positive. */
  lemma UpdatesKeepInvariant(l: seq<Annotation>, id: string, x: real, y: real, w: real, h: real)
    ensures SignatureIds(MoveById(l, id, x, y)) == SignatureIds(l)
    ensures SignatureIds(ResizeById(l, id, w, h)) == SignatureIds(l)
    ensures WidthsPositive(l) ==> WidthsPositive(MoveById(l, id, x, y))
    ensures WidthsPositive(l) && w > 0.0 ==> WidthsPositive(ResizeById(l, id, w, h))
  {
    var m, r := MoveById(l, id, x, y), ResizeById(l, id, w, h);
    forall k | 0 <= k < |l| ensures m[k].id == l[k].id && m[k].kind == l[k].kind && m[k].width == l[k].width {
      MoveByIdAt(l, id, x, y, k);
    }
    forall k | 0 <= k < |l|
      ensures r[k].id == l[k].id && r[k].kind == l[k].kind && r[k].width == (if l[k].id == id then w else l[k].width)
    {
      ResizeByIdAt(l, id, w, h, k);
    }
    SameShapeSameIds(l, m);
    SameShapeSameIds(l, r);
  }

  lemma SameShapeSameIds(l: seq<Annotation>, m: seq<Annotation>)
    requires |l| == |m|
    requires forall k :: 0 <= k < |l| ==> m[k].id == l[k].id && m[k].kind == l[k].kind
    ensures SignatureIds(m) == SignatureIds(l)
  {
  }

  // ---------------------------------------------------------------------------
  // Lookup (Array.prototype.find)

  /** The first record whose id is `id`, if there is one. */
  function FindById(l: seq<Annotation>, id: string): (r: Option<Annotation>)
    ensures r.Some? <==> id in Ids(l)
    ensures r.Some? ==> r.value in l && r.value.id == id
    ensures r.Some? ==> exists k :: 0 <= k < |l| && l[k] == r.value && forall j :: 0 <= j < k ==> l[j].id != id
  {
    if l == [] then None
    else if l[0].id == id then (assert l[0] in l; Some(l[0]))
    else
      var r := FindById(l[1..], id);
      assert Ids(l) == {l[0].id} + Ids(l[1..]) by {
        assert l == [l[0]] + l[1..];
        forall v | v in Ids(l) ensures v in {l[0].id} + Ids(l[1..]) {
          var b :| b in l && b.id == v;
          if b != l[0] { assert b in l[1..]; }
        }
      }
      if r.Some? then
        (assert forall k :: 0 <= k < |l[1..]| ==> l[1..][k] == l[k + 1];
         assert r.value in l;
         r)
      else r
  }

  // ---------------------------------------------------------------------------
  // Numbers

  /** Math.round on the numbers this model uses: halves round up. */
  function Round(v: real): (n: int)
    ensures v - 0.5 < n as real <= v + 0.5
  {
    (v + 0.5).Floor
  }

  /** The height a signature gets when resized to width `w`: the new width
      times the record's current height-to-width ratio, rounded. */
  function ResizedHeight(a: Annotation, w: real): (h: int)
    requires a.width > 0.0
    ensures w * (a.height / a.width) - 0.5 < h as real <= w * (a.height / a.width) + 0.5
  {
    Round(w * (a.height / a.width))
  }

  /** A default-sized signature resized to width 300 is 200 high. */
  lemma ResizeDefaultTo300(a: Annotation)
    requires a.width == DefaultWidth && a.height == DefaultHeight
    ensures ResizedHeight(a, 300.0) == 200
  {
  }

  /** The page chosen from the page input: the parsed number (or 1 if it is
      NaN or 0), raised to at least 1, lowered to at most the page count (or 1
      if the count is unknown or 0): min(max(1, parsed || 1), numPages || 1). */
  function ClampPage(parsed: Option<int>, numPages: Option<nat>): (p: int)
    ensures 1 <= p
    ensures numPages.Some? && numPages.value > 0 ==> p <= numPages.value
    ensures numPages.None? || numPages.value == 0 ==> p == 1
    ensures parsed.None? || parsed.value <= 1 ==> p == 1
    ensures parsed.Some? && numPages.Some? && 1 <= parsed.value <= numPages.value ==> p == parsed.value
    ensures parsed.Some? && numPages.Some? && numPages.value >= 1 && parsed.value >= numPages.value ==> p == numPages.value
  {
    var wanted := if parsed.Some? && parsed.value != 0 then parsed.value else 1;
    var limit := if numPages.Some? && numPages.value != 0 then numPages.value else 1;
    var low := if 1 < wanted then wanted else 1;
    if low < limit then low else limit
  }
}
