/** The coordinate transformer of coco2rcnn.py: conversion of a COCO
    `[x, y, w, h]` box to corner form and clamping of flattened keypoint
    triples. Coordinates are mathematical integers. */
module Transform {
  import opened Wrappers

  /** Image dimensions in pixels. */
  datatype Size = Size(width: int, height: int)

  /** A COCO box: top-left corner plus extent. */
  datatype XywhBox = XywhBox(x: int, y: int, w: int, h: int)

  /** A corner-form box `[x1, y1, x2, y2]`. */
  datatype CornerBox = CornerBox(x1: int, y1: int, x2: int, y2: int)

  /** One coordinate interval of a corner box. */
  datatype Span = Span(lo: int, hi: int)

  /** A keypoint triple `[x, y, v]`; `v` is the visibility flag. */
  datatype Keypoint = Keypoint(x: int, y: int, v: int)

  /** The one-sided clamp used for every coordinate: a value at or past
      `bound` becomes `bound - 1`; nothing is done below. The result is the
      minimum of `c` and `bound - 1`. */
  function ClampUpper(c: int, bound: int): (r: int)
    ensures r <= bound - 1 && r <= c
    ensures r == c || r == bound - 1
  {
    if c >= bound then bound - 1 else c
  }

  /** Unpacking of `x1, y1, w, h = bbox`: succeeds exactly on four entries. */
  function UnpackBox(s: seq<int>): (r: Option<XywhBox>)
    ensures r.Some? <==> |s| == 4
    ensures r.Some? ==> [r.value.x, r.value.y, r.value.w, r.value.h] == s
  {
    if |s| == 4 then Some(XywhBox(s[0], s[1], s[2], s[3])) else None
  }

  /** One axis of `xywh2xyxy`: the far edge is `lo + extent`, both edges are
      clamped from above, and a zero-length span is widened by one pixel,
      which may put `hi` at `bound`. */
  function ClampAxis(lo: int, extent: int, bound: int): (r: Span)
    ensures r.lo <= bound - 1 && r.hi <= bound
    ensures r.hi != r.lo
    ensures extent >= 0 ==> r.lo < r.hi
    ensures lo < bound ==> r.lo == lo
    ensures lo >= bound ==> r.lo == bound - 1
    ensures lo < bound && lo + extent < bound && extent != 0 ==> r == Span(lo, lo + extent)
    ensures lo + extent >= bound ==> r.hi == (if r.lo == bound - 1 then bound else bound - 1)
    ensures extent == 0 ==> r.hi == r.lo + 1
  {
    var lo1 := ClampUpper(lo, bound);
    var hi1 := ClampUpper(lo + extent, bound);
    Span(lo1, if lo1 == hi1 then lo1 + 1 else hi1)
  }

  /** `xywh2xyxy`: the box in corner form, clamped from above to the image
      and never of zero width or height. The `img_id` argument of
      `xywh2xyxy` only feeds commented-out diagnostics and is dropped. */
  function XywhToXyxy(b: XywhBox, size: Size): (r: CornerBox)
    ensures r.x1 <= size.width - 1 && r.y1 <= size.height - 1
    ensures r.x2 <= size.width && r.y2 <= size.height
    ensures r.x2 != r.x1 && r.y2 != r.y1
    ensures b.w >= 0 ==> r.x1 < r.x2
    ensures b.h >= 0 ==> r.y1 < r.y2
    ensures b.x < size.width ==> r.x1 == b.x
    ensures b.y < size.height ==> r.y1 == b.y
    ensures b.x + b.w < size.width && b.w != 0 && b.x < size.width &&
            b.y + b.h < size.height && b.h != 0 && b.y < size.height
            ==> r == CornerBox(b.x, b.y, b.x + b.w, b.y + b.h)
    ensures b.x >= size.width ==> r.x1 == size.width - 1
    ensures b.y >= size.height ==> r.y1 == size.height - 1
    ensures b.x < size.width && b.x + b.w < size.width && b.w != 0 ==> r.x2 == b.x + b.w
    ensures b.y < size.height && b.y + b.h < size.height && b.h != 0 ==> r.y2 == b.y + b.h
    ensures b.w == 0 ==> r.x2 == r.x1 + 1
    ensures b.h == 0 ==> r.y2 == r.y1 + 1
    ensures b.x + b.w >= size.width ==>
      r.x2 == (if r.x1 == size.width - 1 then size.width else size.width - 1)
    ensures b.y + b.h >= size.height ==>
      r.y2 == (if r.y1 == size.height - 1 then size.height else size.height - 1)
  {
    var xs := ClampAxis(b.x, b.w, size.width);
    var ys := ClampAxis(b.y, b.h, size.height);
    CornerBox(xs.lo, ys.lo, xs.hi, ys.hi)
  }

  /** A box that needs no repair: both corners satisfy the one-sided bounds
      and neither extent is zero. */
  predicate Untouched(b: XywhBox, size: Size)
  {
    && b.x < size.width && b.w != 0
    && (b.x + b.w < size.width || (b.x == size.width - 1 && b.w == 1))
    && b.y < size.height && b.h != 0
    && (b.y + b.h < size.height || (b.y == size.height - 1 && b.h == 1))
  }

  /** The conversion returns the plain corner form `[x, y, x+w, y+h]`
      exactly for the boxes that need no repair. The second disjunct of
      `Untouched` is the edge case where clamping and the one-pixel
      widening cancel out. */
  lemma XywhToXyxyUnchangedIff(b: XywhBox, size: Size)
    ensures XywhToXyxy(b, size) == CornerBox(b.x, b.y, b.x + b.w, b.y + b.h)
            <==> Untouched(b, size)
  {
  }

  /** The x edges depend only on `(x, w, width)` and the y edges only on
      `(y, h, height)`. */
  lemma AxesIndependent(b: XywhBox, b': XywhBox, size: Size, size': Size)
    ensures b.x == b'.x && b.w == b'.w && size.width == size'.width ==>
            XywhToXyxy(b, size).x1 == XywhToXyxy(b', size').x1 &&
            XywhToXyxy(b, size).x2 == XywhToXyxy(b', size').x2
    ensures b.y == b'.y && b.h == b'.h && size.height == size'.height ==>
            XywhToXyxy(b, size).y1 == XywhToXyxy(b', size').y1 &&
            XywhToXyxy(b, size).y2 == XywhToXyxy(b', size').y2
  {
  }

  /** The inverse direction: the extent form of a corner box. */
  function ToXywh(c: CornerBox): XywhBox
  {
    XywhBox(c.x1, c.y1, c.x2 - c.x1, c.y2 - c.y1)
  }

  /** A corner box strictly inside the image, with positive extent, comes
      back unchanged from a round trip through the extent form. */
  lemma CornerRoundTrip(c: CornerBox, size: Size)
    requires c.x1 < c.x2 < size.width && c.y1 < c.y2 < size.height
    ensures XywhToXyxy(ToXywh(c), size) == c
  {
  }

  /** Worked cases: a box hanging over the corner of a 10x10 image, and a
      zero-size box. */
  lemma BoxExamples()
    ensures XywhToXyxy(XywhBox(9, 9, 5, 5), Size(10, 10)) == CornerBox(9, 9, 10, 10)
    ensures XywhToXyxy(XywhBox(5, 5, 0, 0), Size(10, 10)) == CornerBox(5, 5, 6, 6)
    ensures XywhToXyxy(XywhBox(-3, 2, 4, 3), Size(10, 10)) == CornerBox(-3, 2, 1, 5)
  {
  }

  /** One keypoint of `get_keypoint`: both coordinates clamped from above,
      the visibility flag carried over. */
  function ClampKeypoint(x: int, y: int, v: int, size: Size): (k: Keypoint)
    ensures k.x <= size.width - 1 && k.y <= size.height - 1
    ensures x >= size.width ==> k.x == size.width - 1
    ensures y >= size.height ==> k.y == size.height - 1
    ensures x < size.width ==> k.x == x
    ensures y < size.height ==> k.y == y
    ensures k.v == v
  {
    Keypoint(ClampUpper(x, size.width), ClampUpper(y, size.height), v)
  }

  /** `get_keypoint`: consumes the flat list three entries at a time. The
      unpacking of the last chunk fails unless the length is a multiple of
      three, which aborts the whole call. */
  function GetKeypoint(flat: seq<int>, size: Size): (r: Option<seq<Keypoint>>)
    ensures r.Some? <==> |flat| % 3 == 0
    ensures r.Some? ==> |r.value| * 3 == |flat|
    ensures r.Some? ==> forall i :: 0 <= i < |r.value| ==>
      && r.value[i].x == ClampUpper(flat[3 * i], size.width)
      && r.value[i].y == ClampUpper(flat[3 * i + 1], size.height)
      && r.value[i].v == flat[3 * i + 2]
    decreases |flat|
  {
    if |flat| == 0 then Some([])
    else if |flat| < 3 then None
    else
      match GetKeypoint(flat[3..], size)
      case None => None
      case Some(rest) => Some([ClampKeypoint(flat[0], flat[1], flat[2], size)] + rest)
  }

  /** The flat `[x, y, v, x, y, v, ...]` layout of a keypoint list. */
  function Flatten(kps: seq<Keypoint>): (flat: seq<int>)
    ensures |flat| == 3 * |kps|
    ensures forall i :: 0 <= i < |kps| ==>
      flat[3 * i] == kps[i].x && flat[3 * i + 1] == kps[i].y && flat[3 * i + 2] == kps[i].v
  {
    if |kps| == 0 then []
    else [kps[0].x, kps[0].y, kps[0].v] + Flatten(kps[1..])
  }

  /** Every point lies below the upper bounds of the image. */
  predicate InBounds(kps: seq<Keypoint>, size: Size)
  {
    forall i :: 0 <= i < |kps| ==> kps[i].x < size.width && kps[i].y < size.height
  }

  /** Keypoints already inside the upper bounds pass through unchanged. */
  lemma {:induction false} GetKeypointOfFlatten(kps: seq<Keypoint>, size: Size)
    requires InBounds(kps, size)
    ensures GetKeypoint(Flatten(kps), size) == Some(kps)
  {
    if |kps| > 0 {
      var flat := Flatten(kps);
      assert flat[3..] == Flatten(kps[1..]);
      GetKeypointOfFlatten(kps[1..], size);
      assert [kps[0]] + kps[1..] == kps;
    }
  }

  /** `get_keypoint` is idempotent: its output, flattened again, is a
      fixed point. */
  lemma GetKeypointIdempotent(flat: seq<int>, size: Size)
    requires |flat| % 3 == 0
    ensures GetKeypoint(flat, size).Some?
    ensures GetKeypoint(Flatten(GetKeypoint(flat, size).value), size) == GetKeypoint(flat, size)
  {
    var kps := GetKeypoint(flat, size).value;
    assert InBounds(kps, size);
    GetKeypointOfFlatten(kps, size);
  }

  /** Worked case: a point past the right edge of a 10x10 image. */
  lemma KeypointExample()
    ensures GetKeypoint([15, 3, 2], Size(10, 10)) == Some([Keypoint(9, 3, 2)])
  {
    var flat := [15, 3, 2];
    var r := GetKeypoint(flat, Size(10, 10));
    assert flat[0] == 15 && flat[1] == 3 && flat[2] == 2;
    assert |r.value| == 1;
    assert r.value[0] == Keypoint(9, 3, 2);
    assert r.value == [Keypoint(9, 3, 2)];
  }
}
