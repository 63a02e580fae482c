/**
 * The collage endpoint: up to three product photos are fitted side by side
 * into a 1200x630 canvas. The canvas library and the image download are
 * outside the model; the model computes the rectangles handed to `drawImage`.
 */
module GenerateCollage {
  import opened Wrappers
  import opened Http

  const CanvasWidth: real := 1200.0
  const CanvasHeight: real := 630.0
  const FallbackImageUrl := "https://malim-shop.vercel.app/placeholder.jpg"
  const MaxPhotos: nat := 3
  const JpegContentType := "image/jpeg"
  const CollageCacheControl := "public, max-age=2592000, must-revalidate"

  /** The intrinsic size of a decoded image. */
  datatype Image = Image(width: real, height: real)

  /** An image whose scale factor is defined (zero sizes are excluded). */
  predicate Drawable(img: Image) {
    img.width > 0.0 && img.height > 0.0
  }

  /** An axis-aligned rectangle: top-left corner, width and height. */
  datatype Rect = Rect(x: real, y: real, w: real, h: real)

  /** The canvas filled white before any image is drawn. */
  const Canvas := Rect(0.0, 0.0, CanvasWidth, CanvasHeight)

  predicate Inside(inner: Rect, outer: Rect) {
    outer.x <= inner.x && inner.x + inner.w <= outer.x + outer.w
    && outer.y <= inner.y && inner.y + inner.h <= outer.y + outer.h
  }

  /** The two rectangles share no interior point. */
  predicate Disjoint(a: Rect, b: Rect) {
    a.x + a.w <= b.x || b.x + b.w <= a.x || a.y + a.h <= b.y || b.y + b.h <= a.y
  }

  /** `array.slice(0, n)` */
  function Take(xs: seq<string>, n: nat): (r: seq<string>)
    ensures |r| <= n && |r| <= |xs| && r == xs[..|r|]
    ensures |r| == n || r == xs
  {
    if |xs| <= n then xs else xs[..n]
  }

  /** `array.filter(url => url)`: the non-empty strings, in order. */
  function NonEmpty(xs: seq<string>): (r: seq<string>)
    ensures forall k :: 0 <= k < |r| ==> r[k] != ""
    ensures forall u :: u in r <==> u in xs && u != ""
  {
    if xs == [] then []
    else if xs[0] == "" then NonEmpty(xs[1..])
    else [xs[0]] + NonEmpty(xs[1..])
  }

  /**
   * `validUrls` from the `photo` query value: `photo || []`, then an array
   * keeps its first three entries and a single string becomes a list.
   */
  function ValidUrls(photo: QueryValue): (urls: seq<string>)
    ensures |urls| <= MaxPhotos
    ensures photo.Many? ==> |urls| <= |photo.items| && urls == photo.items[..|urls|]
    ensures photo.Many? ==> |urls| == if |photo.items| < MaxPhotos then |photo.items| else MaxPhotos
    ensures photo.One? ==> urls == if photo.s == "" then [] else [photo.s]
    ensures photo.Absent? ==> urls == []
  {
    match photo
    case Absent => Take([], MaxPhotos)
    // "" || [] is the empty array
    case One(s) => if s == "" then Take([], MaxPhotos) else assert [s][1..] == [] && NonEmpty([s]) == [s] + NonEmpty([]); Take(NonEmpty([s]), MaxPhotos)
    case Many(xs) => Take(xs, MaxPhotos)
  }

  function Min(a: real, b: real): (m: real)
    ensures m <= a && m <= b && (m == a || m == b)
  {
    if a <= b then a else b
  }

  /** `CANVAS_WIDTH / numImages` */
  function SlotWidth(n: nat): (w: real)
    requires n > 0
    ensures w > 0.0
    ensures w * (n as real) == CanvasWidth
  {
    CanvasWidth / (n as real)
  }

  /** The slot of image `i` out of `n`: from `i * slotWidth`, full height. */
  function Slot(i: nat, n: nat): (r: Rect)
    requires i < n
    ensures r.x >= 0.0 && r.y == 0.0 && r.w > 0.0 && r.h == CanvasHeight
  {
    Rect((i as real) * SlotWidth(n), 0.0, SlotWidth(n), CanvasHeight)
  }

  /** The "contain" scale factor: the smaller of the two axis ratios. */
  function Scale(slotWidth: real, img: Image): (s: real)
    requires slotWidth > 0.0 && Drawable(img)
    ensures s > 0.0
    ensures img.width * s <= slotWidth && img.height * s <= CanvasHeight
    ensures img.width * s == slotWidth || img.height * s == CanvasHeight
  {
    var sx := slotWidth / img.width;
    var sy := CanvasHeight / img.height;
    assert img.width * sx == slotWidth;
    assert img.height * sy == CanvasHeight;
    MulMono(img.width, Min(sx, sy), sx);
    MulMono(img.height, Min(sx, sy), sy);
    Min(sx, sy)
  }

  lemma MulMono(c: real, a: real, b: real)
    requires c > 0.0 && a <= b
    ensures c * a <= c * b
  {
  }

  /**
   * The rectangle image `i` of `n` is drawn into: scaled by `Scale` and
   * centred horizontally in its slot and vertically in the canvas.
   */
  function Place(i: nat, n: nat, img: Image): (r: Rect)
    requires i < n && Drawable(img)
    ensures r.w > 0.0 && r.h > 0.0
  {
    var slotWidth := SlotWidth(n);
    var xPos := (i as real) * slotWidth;
    var scale := Scale(slotWidth, img);
    var drawWidth := img.width * scale;
    var drawHeight := img.height * scale;
    Rect(xPos + (slotWidth - drawWidth) / 2.0, (CanvasHeight - drawHeight) / 2.0, drawWidth, drawHeight)
  }

  /** Contain fit: the drawn size fits the slot, touches it on one axis and keeps the aspect ratio. */
  lemma PlaceFits(i: nat, n: nat, img: Image)
    requires i < n && Drawable(img)
    ensures var r := Place(i, n, img);
      && 0.0 < r.w <= SlotWidth(n) && 0.0 < r.h <= CanvasHeight
      && (r.w == SlotWidth(n) || r.h == CanvasHeight)
      && r.w * img.height == r.h * img.width
  {
    var s := Scale(SlotWidth(n), img);
    assert (img.width * s) * img.height == (img.height * s) * img.width;
  }

  /** Centring: equal margins on both sides of each axis, none negative, inside the slot. */
  lemma PlaceCentred(i: nat, n: nat, img: Image)
    requires i < n && Drawable(img)
    ensures var r := Place(i, n, img); var slot := Slot(i, n);
      && r.x - slot.x == (slot.x + slot.w) - (r.x + r.w) >= 0.0
      && r.y - 0.0 == CanvasHeight - (r.y + r.h) >= 0.0
      && Inside(r, slot)
  {
    PlaceFits(i, n, img);
  }

  /** The slots tile the canvas: consecutive, equal-width, from 0 to 1200. */
  lemma SlotsTile(n: nat)
    requires n > 0
    ensures Slot(0, n).x == 0.0
    ensures forall i :: 0 <= i < n - 1 ==> Slot(i, n).x + Slot(i, n).w == Slot(i + 1, n).x
    ensures Slot(n - 1, n).x + Slot(n - 1, n).w == CanvasWidth
  {
    var w := SlotWidth(n);
    forall i | 0 <= i < n - 1
      ensures Slot(i, n).x + Slot(i, n).w == Slot(i + 1, n).x
    {
      assert (i as real) * w + w == ((i + 1) as real) * w;
    }
    assert ((n - 1) as real) * w + w == (n as real) * w;
  }

  /** Every slot lies in the canvas. */
  lemma SlotInCanvas(i: nat, n: nat)
    requires i < n
    ensures Inside(Slot(i, n), Canvas)
  {
    var w := SlotWidth(n);
    assert (i as real) * w + w == ((i + 1) as real) * w;
    assert ((i + 1) as real) * w <= (n as real) * w;
  }

  /** Images in different slots never overlap. */
  lemma PlacesDisjoint(i: nat, j: nat, n: nat, a: Image, b: Image)
    requires i < j < n && Drawable(a) && Drawable(b)
    ensures Disjoint(Place(i, n, a), Place(j, n, b))
  {
    PlaceCentred(i, n, a);
    PlaceCentred(j, n, b);
    SlotsOrdered(i, j, n);
  }

  /** An earlier slot ends where or before a later one starts. */
  lemma SlotsOrdered(i: nat, j: nat, n: nat)
    requires i < j < n
    ensures Slot(i, n).x + Slot(i, n).w <= Slot(j, n).x
  {
    var w := SlotWidth(n);
    assert (i as real) * w + w == ((i + 1) as real) * w;
    MulMono(w, (i + 1) as real, j as real);
  }

  /**
   * The `forEach` over the loaded images: the rectangle drawn for each one,
   * in input order. Every rectangle lies inside its slot and the canvas, and
   * no two overlap.
   */
  method DrawCollage(images: seq<Image>) returns (drawn: seq<Rect>)
    requires |images| > 0
    requires forall k :: 0 <= k < |images| ==> Drawable(images[k])
    ensures |drawn| == |images|
    ensures forall k :: 0 <= k < |drawn| ==> drawn[k] == Place(k, |images|, images[k])
    ensures forall k :: 0 <= k < |drawn| ==> Inside(drawn[k], Slot(k, |images|)) && Inside(drawn[k], Canvas)
    ensures forall k, m :: 0 <= k < m < |drawn| ==> Disjoint(drawn[k], drawn[m])
  {
    var n := |images|;
    drawn := [];
    var i := 0;
    while i < n
      invariant 0 <= i <= n && |drawn| == i
      invariant forall k :: 0 <= k < i ==> drawn[k] == Place(k, n, images[k])
      invariant forall k :: 0 <= k < i ==> Inside(drawn[k], Slot(k, n)) && Inside(drawn[k], Canvas)
      invariant forall k, m :: 0 <= k < m < i ==> Disjoint(drawn[k], drawn[m])
    {
      var r := Place(i, n, images[i]);
      PlaceCentred(i, n, images[i]);
      SlotInCanvas(i, n);
      forall k | 0 <= k < i
        ensures Disjoint(drawn[k], r)
      {
        PlacesDisjoint(k, i, n, images[k], images[i]);
      }
      drawn := drawn + [r];
      i := i + 1;
    }
  }

  /** What the endpoint answers: a 302 redirect, or the 200 JPEG collage. */
  datatype CollageReply =
    | Redirect(location: string)
    | Collage(contentType: string, cacheControl: string, background: Rect, drawn: seq<Rect>)

  /** The redirect target after a failure: `validUrls[0] || FALLBACK_IMAGE_URL`. */
  function FailureTarget(urls: seq<string>): (target: string)
    requires |urls| > 0
    ensures urls[0] != "" ==> target == urls[0]
    ensures urls[0] == "" ==> target == FallbackImageUrl
  {
    if urls[0] != "" then urls[0] else FallbackImageUrl
  }

  /**
   * The whole handler. `loads[k]` is the outcome of loading `validUrls[k]`
   * (`None` for a failed download or decode); one failure rejects
   * `Promise.all` and the handler redirects instead of drawing.
   */
  method Handle(photo: QueryValue, loads: seq<Option<Image>>) returns (reply: CollageReply)
    requires |loads| == |ValidUrls(photo)|
    requires forall k :: 0 <= k < |loads| && loads[k].Some? ==> Drawable(loads[k].value)
    ensures ValidUrls(photo) == [] ==> reply == Redirect(FallbackImageUrl)
    ensures ValidUrls(photo) != [] && (exists k :: 0 <= k < |loads| && loads[k].None?) ==>
      reply == Redirect(FailureTarget(ValidUrls(photo)))
    ensures ValidUrls(photo) != [] && (forall k :: 0 <= k < |loads| ==> loads[k].Some?) ==>
      && reply.Collage?
      && reply.contentType == JpegContentType && reply.cacheControl == CollageCacheControl
      && reply.background == Canvas
      && |reply.drawn| == |loads|
      && (forall k :: 0 <= k < |loads| ==> reply.drawn[k] == Place(k, |loads|, loads[k].value))
      && (forall k, m :: 0 <= k < m < |loads| ==> Disjoint(reply.drawn[k], reply.drawn[m]))
  {
    var urls := ValidUrls(photo);
    if |urls| == 0 {
      return Redirect(FallbackImageUrl);
    }
    if exists k :: 0 <= k < |loads| && loads[k].None? {
      return Redirect(FailureTarget(urls));
    }
    var images := seq(|loads|, k requires 0 <= k < |loads| => loads[k].value);
    var drawn := DrawCollage(images);
    reply := Collage(JpegContentType, CollageCacheControl, Canvas, drawn);
  }

  /** Three 800x800 squares: 400-wide slots, scale 1/2, 400x400 drawn with 115 above and below. */
  lemma ThreeSquares()
    ensures SlotWidth(3) == 400.0
    ensures Place(0, 3, Image(800.0, 800.0)) == Rect(0.0, 115.0, 400.0, 400.0)
    ensures Place(1, 3, Image(800.0, 800.0)) == Rect(400.0, 115.0, 400.0, 400.0)
    ensures Place(2, 3, Image(800.0, 800.0)) == Rect(800.0, 115.0, 400.0, 400.0)
  {
  }
}
