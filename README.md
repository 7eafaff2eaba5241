# TileDL core in Dafny

A model of the verifiable core of TileDL, a small C++ game library over SDL2, with
proofs about that model. The core has four pieces:

- **Surfaces** (`surface.dfy`, from `src/Surface.cpp`). `tiledl::Surface` wraps a
  possibly-null handle to a backend pixel buffer (`SDL_Surface`). It keeps its own
  advisory logical reference count and a `locked` flag. It also writes the backend
  buffer's reference count directly. The buffer is a heap object (`SdlSurface`), so one
  buffer can be adopted by two wrappers. `ResizeKeepsSharedBuffer` and
  `SharedBufferOutlivesFirstOwner` are the two-owner scenarios. `SDL_FreeSurface` is
  modelled with SDL2's own reference counting: it drops one backend reference and
  releases the buffer when none is left.
- **Textures** (`texture.dfy`, from `src/Texture.cpp`). `tiledl::Texture` follows the
  same pattern. It differs in two ways: its `deref` guard reads the logical count, and
  `destroy` always releases the backend texture.
- **Points and rectangles** (`point.dfy`, `rectangle.dfy`, from `src/Point.cpp` and
  `src/Rectangle.cpp`). These are integer value types:
  - componentwise arithmetic, including C++'s truncating division and the
    divide-by-zero exception;
  - field-wise equality;
  - a strict point-in-rectangle test;
  - the `{..}` text forms written by `operator<<`. Each text form has a parser partner,
    and round-trip and injectivity are proved over both.
- **Timer** (`timer.dfy`, from `src/Timer.cpp`). A stopwatch over the backend's
  millisecond tick counter. Deltas are unsigned 32-bit subtraction, which wraps modulo
  2^32.

Supporting modules:

- `errors.dfy`: `Result`, `Outcome`, `Option` and the two exception kinds
  (`std::runtime_error`, `std::invalid_argument`).
- `ctypes.dfy`: C++ integer semantics, as follows.
  - 32-bit `int` and `Uint32` ranges.
  - Truncating division, specified by `IsTruncQuotient` and shown unique.
  - Wrap-around subtraction, specified by `(b + d) % 2^32 == a` and shown unique.
  - The two reference-count steps, `SaturatingInc` and `GuardedDec`.
- `text.dfy`: decimal rendering of an `int` as `std::ostream` writes it, and its parser.
- `sdl.dfy`: the plain `SDL_Point` and `SDL_Rect` structs.

Modelling conventions:

- **Exceptions.** A thrown C++ exception becomes a returned value:
  `Err(RuntimeError)`, `Threw(RuntimeError)` or `Err(InvalidArgument)`.
- **Backend calls.** The outcome of each backend call the wrappers make is a parameter:
  - `created` is whether `SDL_CreateRGBSurface` returned a buffer;
  - `blitOk` is whether `SDL_BlitScaled` returned 0;
  - `lockOk` is whether `SDL_LockSurface` returned 0;
  - an `Option` for `SDL_QueryTexture` and for `SDL_GetTextureAlphaMod`.
- **The clock.** The tick counter `SDL_GetTicks()` is the parameter `now`.
- **Signed overflow.** It is undefined in C++, so the arithmetic operators and counter
  updates require their results to stay within 32 bits.

Two declarations are missing from `src/Surface.h`; this model keeps the code, and the
gaps are flagged rather than fixed:

- **`locked`.** The member is read and written at `src/Surface.cpp:165`, `189` and
  `273`. The private members in `src/Surface.h:75-78` do not declare it, and no
  constructor initialises it. Here it is a field of `Surface` that every constructor
  sets to `false`.
- **`resize(int, int)`.** The two-argument overload at `src/Surface.cpp:270` is not
  declared in the header. The header also lacks `isLocked` (`src/Surface.cpp:187`) and
  `getPixels` (`src/Surface.cpp:490`). Here `resize(int, int)` as written is
  `Surfaces.Surface.ResizeAsWritten`, and `resize(const Rectangle&)`
  (`Surfaces.Surface.ResizeTo`) calls it. `Surfaces.Surface.Resize` is the corrected
  overload described under "## Findings".

`src/Texture.cpp` has no constructor or member that stores a non-null `texture`. The
texture operations are therefore proved for every state, live or null.

## Model

| member | source | states |
|---|---|---|
| Surfaces.CreateSurface | src/Surface.cpp:8-22 | the result is non-null iff the backend allocates, and a new buffer is `w`x`h` with backend count 1 |
| Surfaces.FreeSurface | src/Surface.cpp:248 | a null handle is ignored; otherwise the backend count drops by one and the buffer is released iff that leaves it at most 0; the size is untouched |
| Surfaces.Surface.constructor | src/Surface.cpp:28-32 | a default wrapper has no handle, logical count 0 and is unlocked |
| Surfaces.Surface.FromSize | src/Surface.cpp:34-40 | throws exactly when the allocation fails; otherwise the wrapper holds a fresh `w`x`h` buffer with backend count 1 and logical count 0 |
| Surfaces.Surface.Adopt | src/Surface.cpp:48-55 | a null handle throws; otherwise the handle's backend count rises by exactly one and the logical count starts at 0 |
| Surfaces.Surface.IsNull | src/Surface.cpp:129-132 | whether the wrapper has no handle |
| Surfaces.Surface.Equals | src/Surface.cpp:141-144 | two wrappers are equal iff they hold the same handle |
| Surfaces.Surface.EqualsHandle | src/Surface.cpp:146-149 | a wrapper equals a raw handle iff it holds that handle |
| Surfaces.EqualsIsEquivalence | src/Surface.cpp:141-149 | handle equality is reflexive, symmetric and transitive, and two null wrappers are equal |
| Surfaces.Surface.Lock | src/Surface.cpp:153-166 | throws on null; `locked` becomes set only when the backend lock succeeds and is never cleared |
| Surfaces.Surface.UnlockAsWritten | src/Surface.cpp:168-173 | throws on null and otherwise changes no state: `locked` stays set |
| Surfaces.Surface.Unlock | src/Surface.cpp:168-173 | corrected: throws on null, otherwise clears `locked` |
| Surfaces.Surface.IsLocked | src/Surface.cpp:187-190 | reports `locked` without a null check |
| Surfaces.Surface.Ref | src/Surface.cpp:192-205 | throws on null; otherwise the logical count rises by one, or stays at INT_MAX, while the backend count is untouched |
| Surfaces.Surface.DerefAsWritten | src/Surface.cpp:207-220 | throws on null; nothing changes when the backend count is at most 0; otherwise the logical count drops by one, even below zero |
| Surfaces.Surface.Deref | src/Surface.cpp:207-220 | corrected: the guard is on the logical count, so a non-negative count stays non-negative |
| Surfaces.Surface.Destroy | src/Surface.cpp:228-258 | `destroy()`, which the destructor also calls: on a live wrapper the backend count drops by one and the buffer is released iff that leaves it at most 0 (the release itself drops one more); the wrapper ends null in every case; a null wrapper is left alone |
| Surfaces.Surface.ResizeAsWritten | src/Surface.cpp:270-311 | throws on null; refused while locked, with the old buffer's count, size and state unchanged; the buffer it allocates (the ghost result `newBuf`) is `nw`x`nh`, and a failed blit releases it, at count 0, and keeps the old; a reported blit success swaps in the new handle (a fresh `nw`x`nh` buffer with count 1, or null when the allocation failed) and drops the old buffer's reference; the logical count and lock flag never change |
| Surfaces.Surface.Resize | src/Surface.cpp:270-311 | corrected: refused while locked; a failed allocation or blit keeps the old buffer untouched, and a buffer allocated before a failed blit (`newBuf`) is released at count 0; success swaps in a fresh `nw`x`nh` buffer with count 1 and drops the old buffer's reference; a wrapper never points at a released buffer |
| Surfaces.Surface.ResizeTo | src/Surface.cpp:322-325 | the as-written resize on the rectangle's width and height only, with the same guarantees as `ResizeAsWritten`, including the release of the allocated buffer after a failed blit |
| Surfaces.Surface.GetHandle | src/Surface.cpp:439-442 | returns the handle, null or not, without a null check |
| Surfaces.Surface.GetWidth | src/Surface.cpp:462-467 | throws on null, otherwise the buffer's width |
| Surfaces.Surface.GetHeight | src/Surface.cpp:469-474 | throws on null, otherwise the buffer's height |
| Surfaces.Surface.GetRefCount | src/Surface.cpp:503-508 | throws on null, otherwise the logical count rather than the backend one |
| Surfaces.ResizeReportsNewSize | tests/SurfaceTest.cpp:22-39 | a `w`x`h` surface is live and reports width `w` and height `h`; after a successful as-written resize to `(nw, nh)` it is still live and reports `nw` and `nh` |
| Surfaces.SharedBufferOutlivesFirstOwner | src/Surface.cpp:228-258 | with two owners, the first `destroy` keeps the buffer and the second releases it |
| Surfaces.DestroyTwice | src/Surface.cpp:228-258 | a second `destroy` changes nothing: the buffer is released once and its count stays where the first left it |
| Surfaces.ResizeKeepsSharedBuffer | src/Surface.cpp:300-310 | resizing one of two owners of a buffer drops only its reference, so the other owner keeps a live buffer with count 1 |
| Surfaces.DerefAsWrittenGoesNegative | src/Surface.cpp:211-219 | a fresh surface goes to logical count -1 after one `deref` |
| Surfaces.DerefStaysAtZero | src/Surface.cpp:207-220 | with the corrected guard the same call leaves the count at 0 |
| Surfaces.ResizeAsWrittenDropsBuffer | src/Surface.cpp:281-310 | a failed allocation followed by a reported blit success leaves the wrapper null and the old buffer released |
| Surfaces.ResizeKeepsBufferOnFailedAllocation | src/Surface.cpp:281-289 | with the check on the new handle, the same calls keep the old buffer live |
| Surfaces.UnlockAsWrittenKeepsRefusingResize | src/Surface.cpp:165-173 | lock then the as-written unlock leaves the surface locked, so the as-written resize is refused and the width is unchanged |
| Surfaces.UnlockThenResize | src/Surface.cpp:153-173 | with the corrected unlock, the same calls resize the surface |
| Textures.Texture.constructor | src/Texture.cpp:7-14 | no texture and no owner; `w`, `h`, `format`, `access` and the count are 0 |
| Textures.Texture.Ref | src/Texture.cpp:40-53 | throws on null; otherwise the count rises by one, or stays at INT_MAX |
| Textures.Texture.Deref | src/Texture.cpp:55-70 | throws on null; a count at most 0 is left alone, otherwise it drops by one, so it never turns negative |
| Textures.Texture.GetRefCount | src/Texture.cpp:72-74 | the count, with no null check |
| Textures.Texture.Destroy | src/Texture.cpp:76-90 | on a live texture the backend texture is released whatever the count, and the handle and owner are nulled; a null texture is left alone |
| Textures.Texture.Destruct | src/Texture.cpp:16-21 | destroys only a non-null texture, with the same end state as `Destroy` |
| Textures.DestroyTexture | src/Texture.cpp:86 | the backend texture is released |
| Textures.Texture.IsNull | src/Texture.cpp:23-26 | whether there is no backend texture |
| Textures.Texture.Equals | src/Texture.cpp:35-38 | two textures are equal iff they hold the same backend texture |
| Textures.EqualsIsEquivalence | src/Texture.cpp:35-38 | handle equality is an equivalence, and two null textures are equal |
| Textures.WriteIf | src/Texture.cpp:112-126 | an out-value is present iff its pointer is non-null, and then it is the cached value |
| Textures.Texture.Query | src/Texture.cpp:100-127 | throws on null; a backend failure writes neither the cache nor any out-pointer; success caches all four values and copies each into every non-null out-pointer |
| Textures.Texture.GetAccess | src/Texture.cpp:136-140 | throws on null, otherwise the cached access |
| Textures.Texture.GetFormat | src/Texture.cpp:165-169 | throws on null, otherwise the cached format |
| Textures.Texture.GetWidth | src/Texture.cpp:171-175 | throws on null, otherwise the cached width |
| Textures.Texture.GetHeight | src/Texture.cpp:177-181 | throws on null, otherwise the cached height |
| Textures.Texture.GetAlphaMod | src/Texture.cpp:142-153 | throws on null; otherwise the backend's value, or 0 when the backend call fails |
| Textures.Texture.GetBlendMod | src/Texture.cpp:155-158 | always 0, with no null check |
| Textures.Texture.GetColorMod | src/Texture.cpp:160-163 | always 0, with no null check |
| Textures.Texture.SetAlphaMod | src/Texture.cpp:185-188 | changes no state |
| Textures.Texture.SetBlendMod | src/Texture.cpp:190-193 | changes no state |
| Textures.Texture.SetColorMod | src/Texture.cpp:195-198 | changes no state |
| Textures.RefThenDeref | src/Texture.cpp:40-70 | `ref` then `deref` restores a count between 0 and INT_MAX - 1 and keeps the texture |
| Textures.DestroyWhileReferenced | src/Texture.cpp:79-89 | a referenced texture is released all the same and keeps its logical count; a second `destroy` is a no-op |
| Textures.QueryThenGetSize | src/Texture.cpp:100-127 | after a successful `query`, `getWidth` and `getHeight` return the reported size |
| Textures.NullTextureOperations | src/Texture.cpp:40-74 | on a default texture `ref` throws and `getRefCount` answers 0 |
| Points.Origin | src/Point.cpp:6-9 | `Point()` is `(0, 0)` |
| Points.Uniform | src/Point.cpp:23-26 | `Point(xy)` has both components equal to `xy` |
| Points.FromSdl | src/Point.cpp:11-15 | the `SDL_Point` view of the new point is the argument |
| Points.ToSdl | src/Point.h:10 | a `Point` used as its `SDL_Point` base, as `isInside(const SDL_Point&)` takes it, carries the same two components |
| Points.SdlRoundTrip | src/Point.cpp:11-15 | converting to `SDL_Point` and back gives the same point, and converting from `SDL_Point` and back gives the same `SDL_Point` |
| Points.Equal | src/Point.cpp:34-37 | both components agree |
| Points.NotEqual | src/Point.cpp:39-42 | some component differs |
| Points.EqualityIsIdentity | src/Point.cpp:34-42 | `==` holds iff both components agree, and `!=` is exactly its negation |
| Points.Add | src/Point.cpp:44-50 | componentwise sum; commutative (`AddCommutes`) and undone by `Sub` (`SubUndoesAdd`) |
| Points.AddScalar | src/Point.cpp:52-58 | `p + k` is `p + Point(k)` |
| Points.Sub | src/Point.cpp:60-66 | `p - q` is the point that gives back `p` when `q` is added |
| Points.SubScalar | src/Point.cpp:68-74 | `p - k` is `p - Point(k)` |
| Points.Mul | src/Point.cpp:76-82 | componentwise product; commutative (`MulCommutes`) and undone by `Div` (`DivUndoesMul`) |
| Points.MulScalar | src/Point.cpp:83-89 | `p * k` is `p * Point(k)` |
| Points.Div | src/Point.cpp:91-100 | throws `invalid_argument` iff a component of the divisor is 0; otherwise each component is the quotient truncated toward zero |
| Points.ZeroTestPrecedesOverflow | src/Point.cpp:93-98 | a divisor with a zero component throws before any division, even where the quotient of the other component would overflow |
| Points.DivScalar | src/Point.cpp:102-111 | throws iff `k` is 0, and is `p / Point(k)` |
| Points.AddCommutes | src/Point.cpp:44-50 | Point addition is commutative |
| Points.SubUndoesAdd | src/Point.cpp:44-66 | subtracting `q` undoes adding `q` |
| Points.MulCommutes | src/Point.cpp:76-82 | componentwise multiplication is commutative |
| Points.DivUndoesMul | src/Point.cpp:76-100 | dividing by a non-zero `q` undoes multiplying by it |
| Points.ToString | src/Point.cpp:113-117 | the text form is braced |
| Points.ParseToString | src/Point.cpp:113-117 | the text form `{x,y}` reads back as the same point |
| Points.ToStringInjective | src/Point.cpp:113-117 | distinct points have distinct text forms |
| Points.MultiplicationExamples | tests/PointTest.cpp:92-108 | `(1,2)*2 == (2,4)` and `(1,2)*(2,4) == (2,8)` |
| Points.DivisionExamples | tests/PointTest.cpp:116-129 | `(1,2)/2 == (0,1)` and `(4,8)/(2,4) == (2,2)` |
| Points.DivideByZeroExamples | tests/PointTest.cpp:131-135 | dividing by `(0,0)` and by `0` throws `invalid_argument` |
| Points.AdditionExamples | tests/PointTest.cpp:137-150 | `(1,2)+2 == (3,4)` and `(1,2)+(2,4) == (3,6)` |
| Points.SubtractionExamples | tests/PointTest.cpp:152-158 | `(1,2)-2 == (-1,0)` |
| Points.SubtractPointExample | tests/PointTest.cpp:160-164 | `(1,2)-(2,4) == (-1,-2)` |
| Points.ToStringExample | tests/PointTest.cpp:167-173 | `(1,2)` is written `{1,2}` |
| Points.NegativeDivisionTruncates | src/Point.cpp:107-110 | `(-1,-3)/2 == (0,-1)`: truncation, not floor division |
| Rectangles.Default | src/Rectangle.cpp:13-16 | `Rectangle()` has every field 0 |
| Rectangles.Empty | src/Rectangle.cpp:7 | the static `Empty` is `Rectangle()`, every field 0 |
| Rectangles.FromSdlRect | src/Rectangle.cpp:32-38 | the fields of the `SDL_Rect` are copied verbatim |
| Rectangles.ToSdlRect | src/Rectangle.cpp:64-72 | the four fields copied verbatim; inverse of `FromSdlRect` |
| Rectangles.SdlRectRoundTrip | src/Rectangle.cpp:32-72 | `toSdlRect` and the `SDL_Rect` constructor are inverse |
| Rectangles.Equal | src/Rectangle.cpp:51-57 | all four fields agree |
| Rectangles.NotEqual | src/Rectangle.cpp:59-62 | the negation of `Equal` |
| Rectangles.EqualityIsIdentity | src/Rectangle.cpp:51-62 | `==` holds iff all four fields agree, and `!=` is its negation |
| Rectangles.SingleFieldChangeIsUnequal | tests/RectangleTest.cpp:44-76 | changing any one field makes the rectangles unequal |
| Rectangles.IsInside | src/Rectangle.cpp:94-100 | the point is strictly right of and below the corner and strictly left of and above the far edges; it requires only the sums the short-circuiting `&&` chain reaches to fit in an `int` |
| Rectangles.FarEdgesFitSumsFit | src/Rectangle.cpp:96-99 | on a rectangle whose far edges fit in an `int`, no point makes `isInside` overflow |
| Rectangles.NearEdgesDecideFirst | src/Rectangle.cpp:96-97 | a point not past the near corner is outside, with no far edge computed, whatever the rectangle |
| Rectangles.FarRightRectangleContainsNothing | src/Rectangle.cpp:96-99 | `{INT_MAX,0,1,1}`, whose far edge overflows, is answered for every point, and contains none |
| Rectangles.IsInsideIsOpenInterior | src/Rectangle.cpp:94-100 | `isInside` holds iff the point lies strictly between the near and far edges on both axes |
| Rectangles.EdgesAreOutside | src/Rectangle.cpp:94-100 | no point on an edge is inside |
| Rectangles.ThinRectangleContainsNothing | src/Rectangle.cpp:94-100 | a rectangle under two units wide or high contains no point |
| Rectangles.EmptyContainsNothing | src/Rectangle.cpp:7 | `Rectangle::Empty` contains no point |
| Rectangles.IsInsideExamples | tests/RectangleTest.cpp:87-112 | `(1,2)` is inside `{0,0,10,10}` and the test's three points with negative coordinates are not |
| Rectangles.ToString | src/Rectangle.cpp:129-133 | the text form is braced |
| Rectangles.ParseToString | src/Rectangle.cpp:129-133 | the text form `{x,y,w,h}` reads back as the same rectangle |
| Rectangles.ToStringInjective | src/Rectangle.cpp:129-133 | distinct rectangles have distinct text forms |
| Rectangles.ToStringExample | tests/RectangleTest.cpp:78-85 | `Rectangle(1,2,3,4)` is written `{1,2,3,4}` |
| Timers.Timer.constructor | src/Timer.cpp:5-9 | a new timer is not timing and both timestamps are 0 |
| Timers.Timer.Start | src/Timer.cpp:20-28 | timing starts at `now`, even when already timing; the stop time is kept |
| Timers.Timer.Stop | src/Timer.cpp:34-43 | when timing, records `now` and stops; otherwise changes nothing |
| Timers.Timer.GetDelta | src/Timer.cpp:52-59 | the ticks that, added to the start time modulo 2^32, reach `now` while timing or the stop time otherwise |
| Timers.Timer.GetCurrentDelta | src/Timer.cpp:67-70 | the ticks from the start to `now` modulo 2^32, whatever the flag |
| Timers.Timer.GetTimerDelta | src/Timer.cpp:78-81 | the ticks from the start to the stop time modulo 2^32, whatever the flag |
| Timers.DeltaIsElapsedTicks | src/Timer.cpp:52-59 | the delta is the only `Uint32` that lands on the end point |
| Timers.StartThenStop | src/Timer.cpp:20-59 | after `start(t0)` and `stop(t1)`, `getDelta` is `t1 - t0` modulo 2^32 at every later clock value |
| Timers.WrappedDeltaExample | src/Timer.cpp:55-57 | a counter that wrapped from `0xfffffffb` to `5` gives 10 ticks |
| CTypes.TruncDiv | src/Point.cpp:97-98 | C++ `/` on `int`: the quotient truncated toward zero, no larger in magnitude than the dividend |
| CTypes.TruncDivInRange | src/Point.cpp:97-98 | the quotient fits in an `int` except for `INT_MIN / -1` |
| CTypes.TruncQuotientUnique | src/Point.cpp:97-98 | the truncated quotient is unique |
| CTypes.WrapSub | src/Timer.cpp:55-57 | `Uint32` subtraction: the value that, added to the subtrahend modulo 2^32, gives the minuend |
| CTypes.WrapSubUnique | src/Timer.cpp:55-57 | that value is unique |
| CTypes.SaturatingInc | src/Texture.cpp:44-52 | one more, except that INT_MAX stays put |
| CTypes.GuardedDec | src/Texture.cpp:60-68 | one less for a positive count; a count at most 0 stays put; never negative from non-negative |
| CTypes.RefTimesAdds | src/Texture.cpp:40-53 | `n` calls to `ref` add exactly `n` below INT_MAX |
| CTypes.DerefTimesSubtracts | src/Texture.cpp:55-70 | `n` calls to `deref` subtract exactly `n` from a count of at least `n` |
| CTypes.DerefTimesNonNegative | src/Texture.cpp:55-70 | no number of calls to `deref` makes a non-negative count negative |
| CTypes.RefThenDerefRestores | src/Texture.cpp:40-70 | `n` calls to `ref` followed by `n` calls to `deref` restore the count |
| Text.NatDigits | src/Point.cpp:115 | decimal digits without a leading zero |
| Text.DigitsRoundTrip | src/Point.cpp:115 | the decimal digits of a number read back as the number |
| Text.IntToString | src/Point.cpp:115 | `out << x` on an `int`: at least one character, all decimal digits except a leading `-` |
| Text.IntRoundTrip | src/Point.cpp:115 | an `int` written in decimal, with a leading `-` for a negative value, reads back as itself |

## Left out

- The game loop, windows and renderers (`src/Game.cpp`, `src/Window.cpp`,
  `src/Renderer.cpp`). They are concurrency and one-line pass-throughs to SDL.
- `Vector`, `Rectangle::isInside(const Vector&)` and Timer's `getDelta(float)`,
  `getDeltams` and `getDeltas`. They are floating point.
- `Color`. `src/Color.cpp` defines only the copy constructor; the rest is declared in
  `src/Color.h` without a definition.
- `Rectangle::intersects`. It delegates to `SDL_HasIntersection`, whose semantics are
  not visible.
- In `Surface`, the following are foreign SDL or SDL_image calls with no logic of the
  wrapper's own:
  - image loading (`Surface(SDL_RWops*, …)`, `Surface(const char*)`);
  - BMP and PNG saving;
  - the RLE, alpha, blend and colour-mod setters and getters;
  - `mustLock`, `getFormat`, `getPitch`, `getUserData`, `getPixels` and `getClipRect`.
- The endianness masks for `SDL_CreateRGBSurface` and all `SDL_Log*` output.
- The backend objects themselves (`SDL_Surface`, `SDL_Texture`, `SDL_Renderer`). Each is
  reduced to the fields the wrappers touch.
- Surfaces.FreeSurface: the code of `SDL_FreeSurface` is not part of this model. Its
  behaviour is taken from SDL2: one reference dropped, release when none is left. Its
  `SDL_DONTFREE` flag is not modelled. Surfaces.Surface.Destroy,
  Surfaces.Surface.ResizeAsWritten, Surfaces.Surface.Resize,
  Surfaces.ResizeKeepsSharedBuffer and Surfaces.SharedBufferOutlivesFirstOwner depend on
  that behaviour for when a buffer is released.
- Surfaces.Surface.ResizeAsWritten: the line-283 test, which can never fire, is not
  written out. After a failed allocation the model takes `blitOk` as the backend's
  answer for a null destination. In SDL that blit fails; the scenario where it reports
  success shows what the missing check allows.
- Textures.Texture.Query: on a backend failure the model leaves the cache unchanged.
  Whether `SDL_QueryTexture` writes some of its out-pointers before failing is up to
  SDL.
- Textures.RefThenDeref: requires the count to be non-negative as well as below INT_MAX.
  From a negative count, `ref` then `deref` does not restore the count, because `deref`
  leaves any count at or below 0 unchanged.
- Texture's `lock`, `unlock`, `updateTexture` and `getOwner` are declared in
  `src/Texture.h` but not defined in `src/Texture.cpp`.
- Surfaces.FreeSurface, Surfaces.Surface.DerefAsWritten, Surfaces.Surface.Destroy,
  Surfaces.Surface.ResizeAsWritten, Surfaces.Surface.Resize, Surfaces.Surface.ResizeTo
  and Surfaces.Surface.Adopt require that the counts they step stay within `int`. Overflow
  there is undefined behaviour in C++.
- Points.Add, Points.Sub, Points.Mul and their scalar forms require that each
  component's result fits in an `int`. Points.Div and Points.DivScalar exclude
  `INT_MIN / -1` for the same reason, and only when the divisor has no zero component,
  since a zero component throws before any division is done.
- Rectangles.IsInside requires that `x + w` fit in an `int` once the point is past the
  near corner, and that `y + h` fit once the point is also short of `x + w`
  (`EvaluatedSumsFit`). Those are the only sums its `&&` chain evaluates, and their
  overflow is undefined behaviour in C++. The lemmas about the interior assume the
  stronger `FarEdgesFit`, that both far edges fit.
- `Point(x, y)`, the copy constructors of `Point` and `Rectangle`, and
  `Rectangle(x, y, w, h)` are the datatype constructors themselves. The source's
  copying and `const` operators are value semantics here.
- Points.Parse and Rectangles.Parse have no counterpart in the source. They exist only
  to state that the text forms lose nothing.

## Findings

| source | as written | input that shows it | evidently intended | confidence | as-written member | corrected member |
|---|---|---|---|---|---|---|
| src/Surface.cpp:211 | `deref` guards on the backend count `handle->refcount`, then decrements the logical count | `Surface(1,1)` followed by `deref()`: the backend count is 1, so the logical count 0 becomes -1 | guard on the logical count, as `Texture::deref` does at src/Texture.cpp:60 | not executed | Surfaces.DerefAsWrittenGoesNegative | Surfaces.Surface.Deref |
| src/Surface.cpp:283 | after `CreateSurface`, the null test is on `this->handle`, already known non-null, not on `newHandle` | `resize(15,10)` on a `10x15` surface where the allocation fails and the blit reports success: the wrapper ends null and its old buffer is released | test `newHandle` and return with the wrapper unchanged | not executed | Surfaces.ResizeAsWrittenDropsBuffer | Surfaces.Surface.Resize |
| src/Surface.cpp:168-173 | `unlock` never clears `locked` | `lock()`, `unlock()`, `resize(15,10)` on a `10x15` surface: `resize` is refused and the width stays 10 | `unlock` resets `locked` to false | not executed | Surfaces.UnlockAsWrittenKeepsRefusingResize | Surfaces.Surface.Unlock |
