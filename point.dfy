/** `tiledl::Point`: an integer 2D point extending `SDL_Point`. Every operator is `const`
    and returns a fresh value, so each is a function. Signed overflow is undefined in C++,
    so each arithmetic operator requires its result to fit in an `int`. */
module Points {
  import opened CTypes
  import opened Errors
  import opened Sdl
  import Text

  datatype Point = Point(x: Int32, y: Int32)

  // ---------------------------------------------------------------------------
  // Constructors

  /** `Point()`. */
  function Origin(): (p: Point)
    ensures p.x == 0 && p.y == 0
  {
    Point(0, 0)
  }

  /** `Point(int xy)`: both components set to the one value. */
  function Uniform(xy: Int32): (p: Point)
    ensures p.x == xy && p.y == xy
    ensures p == Point(xy, xy)
  {
    Point(xy, xy)
  }

  /** `Point(const SDL_Point&)`. */
  function FromSdl(pt: SdlPoint): (p: Point)
    ensures ToSdl(p) == pt
  {
    Point(pt.x, pt.y)
  }

  /** The `SDL_Point` base-class view of a point: a `Point` passed where an `SDL_Point`
      is expected, as `Rectangle::isInside` takes it, carries the same two components. */
  function ToSdl(p: Point): (pt: SdlPoint)
    ensures pt.x == p.x && pt.y == p.y
  {
    SdlPoint(p.x, p.y)
  }

  /** The two views lose nothing, in either direction. */
  lemma SdlRoundTrip(p: Point, pt: SdlPoint)
    ensures FromSdl(ToSdl(p)) == p
    ensures ToSdl(FromSdl(pt)) == pt
  {
  }

  // ---------------------------------------------------------------------------
  // Comparison

  /** `operator==`: both components equal. */
  predicate Equal(p: Point, q: Point) {
    p.x == q.x && p.y == q.y
  }

  /** `operator!=`: some component differs. */
  predicate NotEqual(p: Point, q: Point) {
    p.x != q.x || p.y != q.y
  }

  /** Field-wise equality is value identity, and `!=` is exactly its negation. */
  lemma EqualityIsIdentity(p: Point, q: Point)
    ensures Equal(p, q) <==> p == q
    ensures NotEqual(p, q) <==> !Equal(p, q)
  {
  }

  // ---------------------------------------------------------------------------
  // Arithmetic

  predicate SumFits(p: Point, q: Point) {
    InInt32(p.x + q.x) && InInt32(p.y + q.y)
  }

  predicate DifferenceFits(p: Point, q: Point) {
    InInt32(p.x - q.x) && InInt32(p.y - q.y)
  }

  predicate ProductFits(p: Point, q: Point) {
    InInt32(p.x * q.x) && InInt32(p.y * q.y)
  }

  /** `p + q`. */
  function Add(p: Point, q: Point): (r: Point)
    requires SumFits(p, q)
  {
    Point(p.x + q.x, p.y + q.y)
  }

  /** `p + k`: the scalar is added to both components. */
  function AddScalar(p: Point, k: Int32): (r: Point)
    requires SumFits(p, Uniform(k))
    ensures r == Add(p, Uniform(k))
  {
    Point(p.x + k, p.y + k)
  }

  /** `p - q`. */
  function Sub(p: Point, q: Point): (r: Point)
    requires DifferenceFits(p, q)
    ensures SumFits(r, q) && Add(r, q) == p
  {
    Point(p.x - q.x, p.y - q.y)
  }

  /** `p - k`: the scalar is subtracted from both components. */
  function SubScalar(p: Point, k: Int32): (r: Point)
    requires DifferenceFits(p, Uniform(k))
    ensures r == Sub(p, Uniform(k))
  {
    Point(p.x - k, p.y - k)
  }

  /** `p * q`. */
  function Mul(p: Point, q: Point): (r: Point)
    requires ProductFits(p, q)
  {
    Point(p.x * q.x, p.y * q.y)
  }

  /** `p * k`: both components scaled. */
  function MulScalar(p: Point, k: Int32): (r: Point)
    requires ProductFits(p, Uniform(k))
    ensures r == Mul(p, Uniform(k))
  {
    Point(p.x * k, p.y * k)
  }

  /** The one quotient that overflows an `int` is `INT_MIN / -1`. */
  predicate QuotientFits(p: Point, q: Point) {
    !(p.x == INT_MIN && q.x == -1) && !(p.y == INT_MIN && q.y == -1)
  }

  /** `p / q`: throws `invalid_argument` when either component of `q` is zero,
      otherwise divides each component with C++'s truncating division. The divisions,
      and so the one overflowing quotient, are reached only past the zero test. */
  function Div(p: Point, q: Point): (r: Result<Point>)
    requires q.x != 0 && q.y != 0 ==> QuotientFits(p, q)
    ensures r.Err? <==> q.x == 0 || q.y == 0
    ensures r.Err? ==> r.error == InvalidArgument
    ensures r.Ok? ==> IsTruncQuotient(p.x, q.x, r.value.x) && IsTruncQuotient(p.y, q.y, r.value.y)
  {
    if q.x == 0 || q.y == 0 then Err(InvalidArgument)
    else
      TruncDivInRange(p.x, q.x);
      TruncDivInRange(p.y, q.y);
      Ok(Point(TruncDiv(p.x, q.x), TruncDiv(p.y, q.y)))
  }

  /** `p / k`: throws `invalid_argument` when `k` is zero. */
  function DivScalar(p: Point, k: Int32): (r: Result<Point>)
    requires QuotientFits(p, Uniform(k))
    ensures r == Div(p, Uniform(k))
    ensures r.Err? <==> k == 0
  {
    if k == 0 then Err(InvalidArgument)
    else
      TruncDivInRange(p.x, k);
      TruncDivInRange(p.y, k);
      Ok(Point(TruncDiv(p.x, k), TruncDiv(p.y, k)))
  }

  // ---------------------------------------------------------------------------
  // Algebra of the operators

  lemma AddCommutes(p: Point, q: Point)
    requires SumFits(p, q)
    ensures SumFits(q, p) && Add(p, q) == Add(q, p)
  {
  }

  lemma SubUndoesAdd(p: Point, q: Point)
    requires SumFits(p, q)
    ensures DifferenceFits(Add(p, q), q) && Sub(Add(p, q), q) == p
  {
  }

  lemma MulCommutes(p: Point, q: Point)
    requires ProductFits(p, q)
    ensures ProductFits(q, p) && Mul(p, q) == Mul(q, p)
  {
  }

  /** Where the product divides evenly, dividing undoes multiplying. */
  lemma DivUndoesMul(p: Point, q: Point)
    requires ProductFits(p, q) && q.x != 0 && q.y != 0
    ensures Div(Mul(p, q), q) == Ok(p)
  {
    var m := Mul(p, q);
    assert QuotientFits(m, q);
    var r := Div(m, q);
    DivExact(p.x, q.x);
    DivExact(p.y, q.y);
  }

  lemma DivExact(a: int, b: int)
    requires b != 0
    ensures TruncDiv(a * b, b) == a
  {
    assert IsTruncQuotient(a * b, b, a);
    TruncQuotientUnique(a * b, b, a, TruncDiv(a * b, b));
  }

  // ---------------------------------------------------------------------------
  // `operator<<`

  /** `out << p` writes `{x,y}`. */
  function ToString(p: Point): (s: string)
    ensures |s| >= 5 && s[0] == '{' && s[|s| - 1] == '}'
  {
    "{" + Text.IntToString(p.x) + "," + Text.IntToString(p.y) + "}"
  }

  /** Reads `{x,y}` back. */
  function Parse(s: string): Option<Point> {
    if |s| < 2 || s[0] != '{' || s[|s| - 1] != '}' then None
    else
      var parts := Text.Split(s[1..|s| - 1], ',');
      if |parts| != 2 then None
      else
        match (Text.ParseInt(parts[0]), Text.ParseInt(parts[1]))
        case (Some(x), Some(y)) =>
          if InInt32(x) && InInt32(y) then Some(Point(x, y)) else None
        case _ => None
  }

  /** Nothing is lost in the text form: it reads back as the same point. */
  lemma ParseToString(p: Point)
    ensures Parse(ToString(p)) == Some(p)
  {
    var a, b := Text.IntToString(p.x), Text.IntToString(p.y);
    var s := ToString(p);
    assert s[1..|s| - 1] == a + [','] + b;
    Text.IntToStringHasNo(p.x, ',');
    Text.IntToStringHasNo(p.y, ',');
    Text.SplitTwo(a, b, ',');
    Text.IntRoundTrip(p.x);
    Text.IntRoundTrip(p.y);
  }

  /** Distinct points print differently. */
  lemma ToStringInjective(p: Point, q: Point)
    requires ToString(p) == ToString(q)
    ensures p == q
  {
    ParseToString(p);
    ParseToString(q);
  }

  // ---------------------------------------------------------------------------
  // The cases the unit tests check

  lemma MultiplicationExamples()
    ensures MulScalar(Point(1, 2), 2) == Point(2, 4)
    ensures Mul(Point(1, 2), Point(2, 4)) == Point(2, 8)
  {
  }

  lemma DivisionExamples()
    ensures DivScalar(Point(1, 2), 2) == Ok(Point(0, 1))
    ensures Div(Point(4, 8), Point(2, 4)) == Ok(Point(2, 2))
  {
    DivScalarExample();
    assert TruncDiv(4, 2) == 2;
    assert TruncDiv(8, 4) == 2;
  }

  lemma DivScalarExample()
    ensures DivScalar(Point(1, 2), 2) == Ok(Point(0, 1))
  {
    assert TruncDiv(1, 2) == 0;
    assert TruncDiv(2, 2) == 1;
  }

  lemma DivideByZeroExamples()
    ensures Div(Point(1, 2), Point(0, 0)) == Err(InvalidArgument)
    ensures DivScalar(Point(1, 2), 0) == Err(InvalidArgument)
  {
  }

  /** The zero test comes first: a divisor with a zero component throws even when the
      other component would make the quotient overflow. */
  lemma ZeroTestPrecedesOverflow()
    ensures !QuotientFits(Point(INT_MIN, 5), Point(-1, 0))
    ensures Div(Point(INT_MIN, 5), Point(-1, 0)) == Err(InvalidArgument)
    ensures DivScalar(Point(INT_MIN, INT_MIN), 0) == Err(InvalidArgument)
  {
  }

  lemma AdditionExamples()
    ensures AddScalar(Point(1, 2), 2) == Point(3, 4)
    ensures Add(Point(1, 2), Point(2, 4)) == Point(3, 6)
  {
  }

  lemma SubtractionExamples()
    ensures SubScalar(Point(1, 2), 2) == Point(-1, 0)
  {
  }

  lemma SubtractPointExample()
    ensures Sub(Point(1, 2), Point(2, 4)) == Point(-1, -2)
  {
  }

  lemma ToStringExample()
    ensures ToString(Point(1, 2)) == "{1,2}"
  {
    assert Text.IntToString(1) == "1";
    assert Text.IntToString(2) == "2";
  }

  /** Truncation, not Euclidean rounding: `(-1, -3) / 2` is `(0, -1)`, where Dafny's
      own division would give `(-1, -2)`. */
  lemma NegativeDivisionTruncates()
    ensures DivScalar(Point(-1, -3), 2) == Ok(Point(0, -1))
    ensures (-1) / 2 == -1 && (-3) / 2 == -2
  {
    assert TruncDiv(-1, 2) == 0 && TruncDiv(-3, 2) == -1;
  }
}
