/** `tiledl::Rectangle`: an integer rectangle extending `SDL_Rect`. Constructors copy
    fields and every query is an expression over them, so each is a function. */
module Rectangles {
  import opened CTypes
  import opened Errors
  import opened Sdl
  import Text

  datatype Rectangle = Rectangle(x: Int32, y: Int32, w: Int32, h: Int32)

  // ---------------------------------------------------------------------------
  // Constructors and conversion

  /** `Rectangle()`: every field zero. */
  function Default(): (r: Rectangle)
    ensures r.x == 0 && r.y == 0 && r.w == 0 && r.h == 0
  {
    Rectangle(0, 0, 0, 0)
  }

  /** `Rectangle::Empty`, a static initialised with `Rectangle()`. */
  const Empty: Rectangle := Default()

  /** `Rectangle(const SDL_Rect&)`: the fields copied verbatim. */
  function FromSdlRect(rect: SdlRect): (r: Rectangle)
    ensures ToSdlRect(r) == rect
  {
    Rectangle(rect.x, rect.y, rect.w, rect.h)
  }

  /** `toSdlRect()`: the fields copied verbatim into a plain `SDL_Rect`. */
  function ToSdlRect(r: Rectangle): (rect: SdlRect)
  {
    SdlRect(r.x, r.y, r.w, r.h)
  }

  lemma SdlRectRoundTrip(r: Rectangle)
    ensures FromSdlRect(ToSdlRect(r)) == r
  {
  }

  // ---------------------------------------------------------------------------
  // Comparison

  /** `operator==`: all four fields equal. */
  predicate Equal(a: Rectangle, b: Rectangle) {
    a.x == b.x && a.y == b.y && a.w == b.w && a.h == b.h
  }

  /** `operator!=`, written in the source as `!(*this == other)`. */
  predicate NotEqual(a: Rectangle, b: Rectangle) {
    !Equal(a, b)
  }

  lemma EqualityIsIdentity(a: Rectangle, b: Rectangle)
    ensures Equal(a, b) <==> a == b
    ensures NotEqual(a, b) <==> a != b
  {
  }

  /** A change in any single field makes the rectangles unequal. */
  lemma SingleFieldChangeIsUnequal(r: Rectangle, v: Int32)
    ensures v != r.x ==> NotEqual(r.(x := v), r)
    ensures v != r.y ==> NotEqual(r.(y := v), r)
    ensures v != r.w ==> NotEqual(r.(w := v), r)
    ensures v != r.h ==> NotEqual(r.(h := v), r)
  {
  }

  // ---------------------------------------------------------------------------
  // Containment

  /** `x + w` and `y + h` are computed in `int`; their overflow is undefined. */
  predicate FarEdgesFit(r: Rectangle) {
    InInt32(r.x + r.w) && InInt32(r.y + r.h)
  }

  /** The sums `isInside` actually evaluates fit in an `int`. Its `&&` chain stops at the
      first false comparison: `x + w` is computed only once the point is past the near
      corner, and `y + h` only once the point is also short of the far vertical edge. */
  predicate EvaluatedSumsFit(r: Rectangle, pt: SdlPoint) {
    pt.x > r.x && pt.y > r.y ==>
      InInt32(r.x + r.w) && (pt.x < r.x + r.w ==> InInt32(r.y + r.h))
  }

  /** Rectangles whose far edges fit never overflow, whatever the point. */
  lemma FarEdgesFitSumsFit(r: Rectangle, pt: SdlPoint)
    requires FarEdgesFit(r)
    ensures EvaluatedSumsFit(r, pt)
  {
  }

  /** `isInside(const SDL_Point&)`. */
  predicate IsInside(r: Rectangle, pt: SdlPoint)
    requires EvaluatedSumsFit(r, pt)
  {
    pt.x > r.x && pt.y > r.y && pt.x < r.x + r.w && pt.y < r.y + r.h
  }

  /** The interior as an independent description: the offset of the point from the
      corner lies strictly between zero and the extent, on both axes. */
  ghost predicate InOpenInterior(r: Rectangle, pt: SdlPoint) {
    var dx, dy := pt.x - r.x, pt.y - r.y;
    0 < dx < r.w && 0 < dy < r.h
  }

  lemma IsInsideIsOpenInterior(r: Rectangle, pt: SdlPoint)
    requires FarEdgesFit(r)
    ensures IsInside(r, pt) <==> InOpenInterior(r, pt)
  {
  }

  /** The test is strict: no point on any of the four edges is inside. */
  lemma EdgesAreOutside(r: Rectangle, pt: SdlPoint)
    requires FarEdgesFit(r)
    requires pt.x == r.x || pt.y == r.y || pt.x == r.x + r.w || pt.y == r.y + r.h
    ensures !IsInside(r, pt)
  {
  }

  /** A rectangle less than two units wide or high has an empty interior. */
  lemma ThinRectangleContainsNothing(r: Rectangle, pt: SdlPoint)
    requires FarEdgesFit(r)
    requires r.w < 2 || r.h < 2
    ensures !IsInside(r, pt)
  {
  }

  /** A point not past the near corner is outside, however far the rectangle reaches:
      the test returns before it computes a far edge. */
  lemma NearEdgesDecideFirst(r: Rectangle, pt: SdlPoint)
    requires pt.x <= r.x || pt.y <= r.y
    ensures EvaluatedSumsFit(r, pt) && !IsInside(r, pt)
  {
  }

  /** A rectangle at the right end of the `int` range, whose far edge does not fit,
      still answers: no point is inside it. */
  lemma FarRightRectangleContainsNothing(pt: SdlPoint)
    ensures !FarEdgesFit(Rectangle(INT_MAX, 0, 1, 1))
    ensures EvaluatedSumsFit(Rectangle(INT_MAX, 0, 1, 1), pt)
    ensures !IsInside(Rectangle(INT_MAX, 0, 1, 1), pt)
  {
  }

  /** `Empty` contains no point. */
  lemma EmptyContainsNothing(pt: SdlPoint)
    ensures FarEdgesFit(Empty) && !IsInside(Empty, pt)
  {
  }

  /** `Rectangle(0,0,10,10)` contains `(1,2)` and not the points with a negative coordinate. */
  lemma IsInsideExamples()
    ensures FarEdgesFit(Rectangle(0, 0, 10, 10))
    ensures IsInside(Rectangle(0, 0, 10, 10), SdlPoint(1, 2))
    ensures !IsInside(Rectangle(0, 0, 10, 10), SdlPoint(-1, 2))
    ensures !IsInside(Rectangle(0, 0, 10, 10), SdlPoint(1, -2))
    ensures !IsInside(Rectangle(0, 0, 10, 10), SdlPoint(-1, -2))
  {
  }

  // ---------------------------------------------------------------------------
  // `operator<<`

  /** `out << r` writes `{x,y,w,h}`. */
  function ToString(r: Rectangle): (s: string)
    ensures |s| >= 9 && s[0] == '{' && s[|s| - 1] == '}'
  {
    "{" + Text.IntToString(r.x) + "," + Text.IntToString(r.y) + ","
        + Text.IntToString(r.w) + "," + Text.IntToString(r.h) + "}"
  }

  /** Reads `{x,y,w,h}` back. */
  function Parse(s: string): Option<Rectangle> {
    if |s| < 2 || s[0] != '{' || s[|s| - 1] != '}' then None
    else
      var parts := Text.Split(s[1..|s| - 1], ',');
      if |parts| != 4 then None
      else
        match (Text.ParseInt(parts[0]), Text.ParseInt(parts[1]),
               Text.ParseInt(parts[2]), Text.ParseInt(parts[3]))
        case (Some(x), Some(y), Some(w), Some(h)) =>
          if InInt32(x) && InInt32(y) && InInt32(w) && InInt32(h)
          then Some(Rectangle(x, y, w, h))
          else None
        case _ => None
  }

  /** Nothing is lost in the text form: it reads back as the same rectangle. */
  lemma ParseToString(r: Rectangle)
    ensures Parse(ToString(r)) == Some(r)
  {
    var a, b, c, d := Text.IntToString(r.x), Text.IntToString(r.y),
                      Text.IntToString(r.w), Text.IntToString(r.h);
    var s := ToString(r);
    assert s[1..|s| - 1] == a + [','] + (b + [','] + (c + [','] + d));
    FieldsSplit(r);
    Text.IntRoundTrip(r.x);
    Text.IntRoundTrip(r.y);
    Text.IntRoundTrip(r.w);
    Text.IntRoundTrip(r.h);
  }

  lemma FieldsSplit(r: Rectangle)
    ensures var a, b, c, d := Text.IntToString(r.x), Text.IntToString(r.y),
                              Text.IntToString(r.w), Text.IntToString(r.h);
            Text.Split(a + [','] + (b + [','] + (c + [','] + d)), ',') == [a, b, c, d]
  {
    Text.IntToStringHasNo(r.x, ',');
    Text.IntToStringHasNo(r.y, ',');
    Text.IntToStringHasNo(r.w, ',');
    Text.IntToStringHasNo(r.h, ',');
    Text.SplitFour(Text.IntToString(r.x), Text.IntToString(r.y),
                   Text.IntToString(r.w), Text.IntToString(r.h), ',');
  }

  /** Distinct rectangles print differently. */
  lemma ToStringInjective(a: Rectangle, b: Rectangle)
    requires ToString(a) == ToString(b)
    ensures a == b
  {
    ParseToString(a);
    ParseToString(b);
  }

  lemma ToStringExample()
    ensures ToString(Rectangle(1, 2, 3, 4)) == "{1,2,3,4}"
  {
    assert Text.IntToString(1) == "1";
    assert Text.IntToString(2) == "2";
    assert Text.IntToString(3) == "3";
    assert Text.IntToString(4) == "4";
  }
}
