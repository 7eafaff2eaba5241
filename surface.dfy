/** `tiledl::Surface`: a wrapper around a possibly-null handle to a backend pixel buffer
    (`SDL_Surface`). The wrapper keeps an advisory logical reference count of its own and a
    `locked` flag; it also writes the backend object's own reference count directly.

    The backend object is a heap object, so that one buffer adopted by two wrappers is
    representable. The backend calls the wrapper makes become outcomes passed in by the
    caller: `created` for `SDL_CreateRGBSurface`, `blitOk` for `SDL_BlitScaled`, `lockOk`
    for `SDL_LockSurface`. A C++ exception becomes a returned `Threw(RuntimeError)`.
    Counts are C `int`s; a caller must not drive one past the 32-bit range, since that
    overflow is undefined. */
module Surfaces {
  import opened CTypes
  import opened Errors
  import Rectangles

  /** The backend pixel buffer, reduced to the fields the wrapper reads or writes, and
      whether the backend has released it. */
  class SdlSurface {
    var w: Int32
    var h: Int32
    var refcount: Int32
    var freed: bool

    /** A freshly allocated buffer: one reference, held by whoever asked for it. */
    constructor (width: Int32, height: Int32)
      ensures w == width && h == height && refcount == 1 && !freed
    {
      w, h := width, height;
      refcount := 1;
      freed := false;
    }
  }

  /** `CreateSurface(w, h)`: either null (the backend failed) or a new `w`x`h` buffer whose
      backend count is 1. */
  method CreateSurface(width: Int32, height: Int32, created: bool) returns (s: SdlSurface?)
    ensures created <==> s != null
    ensures s != null ==> fresh(s) && s.w == width && s.h == height && s.refcount == 1 && !s.freed
  {
    if created {
      s := new SdlSurface(width, height);
    } else {
      s := null;
    }
  }

  /** `SDL_FreeSurface`: a null handle is ignored; otherwise the backend drops one reference
      and releases the buffer once none is left. */
  method FreeSurface(s: SdlSurface?)
    requires s != null ==> s.refcount > INT_MIN
    modifies s
    ensures s != null ==> s.refcount == old(s.refcount) - 1
    ensures s != null ==> s.freed == (old(s.freed) || old(s.refcount) - 1 <= 0)
    ensures s != null ==> s.w == old(s.w) && s.h == old(s.h)
  {
    if s != null {
      s.refcount := s.refcount - 1;
      if s.refcount <= 0 {
        s.freed := true;
      }
    }
  }

  class Surface {
    var handle: SdlSurface?
    var refcount: Int32
    var locked: bool

    /** The wrapper does not point at a buffer the backend has released. */
    ghost predicate Valid()
      reads this, handle
    {
      handle != null ==> !handle.freed
    }

    /** `isNull()`. */
    predicate IsNull()
      reads this
    {
      handle == null
    }

    /** `Surface()`: no handle, logical count zero, not locked. */
    constructor ()
      ensures handle == null && refcount == 0 && !locked
      ensures Valid()
    {
      handle := null;
      refcount := 0;
      locked := false;
    }

    /** `Surface(width, height)`: allocates a buffer, or throws when the backend fails
        (no wrapper then exists). */
    static method FromSize(width: Int32, height: Int32, created: bool) returns (r: Result<Surface>)
      ensures r.Err? <==> !created
      ensures r.Err? ==> r.error == RuntimeError
      ensures r.Ok? ==> fresh(r.value) && r.value.handle != null && fresh(r.value.handle)
      ensures r.Ok? ==> r.value.handle.w == width && r.value.handle.h == height
      ensures r.Ok? ==> r.value.handle.refcount == 1 && r.value.refcount == 0 && !r.value.locked
      ensures r.Ok? ==> r.value.Valid()
    {
      var h := CreateSurface(width, height, created);
      var s := new Surface();
      s.handle := h;
      if s.handle == null {
        return Err(RuntimeError);
      }
      r := Ok(s);
    }

    /** `Surface(SDL_Surface* handle)`: throws on a null handle; otherwise adopts it, taking
        one more backend reference, with the logical count starting at zero. */
    static method Adopt(h: SdlSurface?) returns (r: Result<Surface>)
      requires h != null ==> h.refcount < INT_MAX
      modifies h
      ensures h == null ==> r == Err(RuntimeError)
      ensures h != null ==> r.Ok? && fresh(r.value) && r.value.handle == h
      ensures h != null ==> r.value.refcount == 0 && !r.value.locked
      ensures h != null ==> h.refcount == old(h.refcount) + 1 && h.freed == old(h.freed)
      ensures h != null ==> h.w == old(h.w) && h.h == old(h.h)
    {
      var s := new Surface();
      s.handle := h;
      if s.handle == null {
        return Err(RuntimeError);
      }
      h.refcount := h.refcount + 1;
      r := Ok(s);
    }

    /** `operator==(const Surface&)`: the same handle; two null wrappers are equal. */
    predicate Equals(other: Surface)
      reads this, other
    {
      handle == other.handle
    }

    /** `operator==(const SDL_Surface*)`. */
    predicate EqualsHandle(other: SdlSurface?)
      reads this
    {
      handle == other
    }

    /** `lock()`: throws on a null wrapper; sets `locked` only when the backend lock succeeds,
        and a failed lock leaves the flag as it was. */
    method Lock(lockOk: bool) returns (o: Outcome)
      modifies this`locked
      ensures handle == null ==> o == Threw(RuntimeError) && locked == old(locked)
      ensures handle != null ==> o == Done && locked == (old(locked) || lockOk)
    {
      if handle == null {
        return Threw(RuntimeError);
      }
      if !lockOk {
        return Done;
      }
      locked := true;
      o := Done;
    }

    /** `unlock()` as written: throws on a null wrapper, otherwise hands the unlock to the
        backend and changes nothing here; in particular `locked` stays set. */
    method UnlockAsWritten() returns (o: Outcome)
      ensures o == if handle == null then Threw(RuntimeError) else Done
    {
      if handle == null {
        return Threw(RuntimeError);
      }
      o := Done;
    }

    /** `unlock()` as evidently intended: the flag `lock()` set is cleared. */
    method Unlock() returns (o: Outcome)
      modifies this`locked
      ensures handle == null ==> o == Threw(RuntimeError) && locked == old(locked)
      ensures handle != null ==> o == Done && !locked
    {
      if handle == null {
        return Threw(RuntimeError);
      }
      locked := false;
      o := Done;
    }

    /** `isLocked()`: reports the flag and never throws. */
    method IsLocked() returns (b: bool)
      ensures b == locked
    {
      b := locked;
    }

    /** `ref()`: throws on a null wrapper; otherwise one more logical reference, saturating at
        INT_MAX. The backend count is not touched. */
    method Ref() returns (o: Outcome)
      modifies this`refcount
      ensures handle == null ==> o == Threw(RuntimeError) && refcount == old(refcount)
      ensures handle != null ==> o == Done && refcount == SaturatingInc(old(refcount))
      ensures handle != null ==> handle.refcount == old(handle.refcount)
    {
      if handle == null {
        return Threw(RuntimeError);
      }
      if refcount == INT_MAX {
        return Done;
      }
      refcount := refcount + 1;
      o := Done;
    }

    /** `deref()` as written: the guard reads the backend count, not the logical one, so a
        logical count of zero still drops, to -1, while the buffer has references. */
    method DerefAsWritten() returns (o: Outcome)
      requires handle != null && handle.refcount > 0 ==> refcount > INT_MIN
      modifies this`refcount
      ensures handle == null ==> o == Threw(RuntimeError) && refcount == old(refcount)
      ensures handle != null && handle.refcount <= 0 ==> o == Done && refcount == old(refcount)
      ensures handle != null && handle.refcount > 0 ==> o == Done && refcount == old(refcount) - 1
    {
      if handle == null {
        return Threw(RuntimeError);
      }
      if handle.refcount <= 0 {
        return Done;
      }
      refcount := refcount - 1;
      o := Done;
    }

    /** `deref()` as evidently intended (and as the texture wrapper does it): the guard reads
        the logical count, which therefore never goes below zero. */
    method Deref() returns (o: Outcome)
      modifies this`refcount
      ensures handle == null ==> o == Threw(RuntimeError) && refcount == old(refcount)
      ensures handle != null ==> o == Done && refcount == GuardedDec(old(refcount))
      ensures old(refcount) >= 0 ==> refcount >= 0
    {
      if handle == null {
        return Threw(RuntimeError);
      }
      if refcount <= 0 {
        return Done;
      }
      refcount := refcount - 1;
      o := Done;
    }

    /** `destroy()` (also what the destructor does): on a live wrapper, drops one backend
        reference and releases the buffer if and only if the backend count is then at or
        below zero (releasing it through `SDL_FreeSurface`, which drops one more); the
        wrapper is null afterwards in every case. The logical count only produces a warning.
        On a null wrapper nothing happens, so a second call is a no-op. */
    method Destroy()
      requires handle != null ==> handle.refcount > INT_MIN + 1
      modifies this`handle, handle
      ensures handle == null && Valid()
      ensures old(handle) != null ==>
        old(handle).refcount == (if old(handle.refcount) - 1 <= 0 then old(handle.refcount) - 2
                                 else old(handle.refcount) - 1)
      ensures old(handle) != null ==>
        old(handle).freed == (old(handle.freed) || old(handle.refcount) - 1 <= 0)
      ensures old(handle) != null ==> old(handle).w == old(handle.w) && old(handle).h == old(handle.h)
      ensures refcount == old(refcount) && locked == old(locked)
    {
      if handle != null {
        handle.refcount := handle.refcount - 1;
        if handle.refcount <= 0 {
          FreeSurface(handle);
        }
        handle := null;
      }
    }

    /** `resize(newWidth, newHeight)` as written. Line 283 tests the old handle, which the
        null check has already shown to be non-null, so the test never fires (and is left
        out here): a failed allocation is caught only if the backend blit fails on a null
        destination. When the blit reports success anyway, the wrapper is left null and the
        old buffer loses its reference. Refused while locked; the logical count and the
        lock flag never change. */
    method ResizeAsWritten(newWidth: Int32, newHeight: Int32, created: bool, blitOk: bool)
      returns (o: Outcome, ghost newBuf: SdlSurface?)
      requires handle != null ==> handle.refcount > INT_MIN
      modifies this`handle, handle
      ensures old(handle) == null || locked ==> newBuf == null
      ensures old(handle) != null && !locked ==> (newBuf != null <==> created)
      ensures newBuf != null ==> fresh(newBuf) && newBuf.w == newWidth && newBuf.h == newHeight
      ensures newBuf != null && !blitOk ==> newBuf.freed && newBuf.refcount == 0
      ensures newBuf != null && blitOk ==> handle == newBuf
      ensures old(handle) == null ==> o == Threw(RuntimeError) && handle == null
      ensures old(handle) != null ==> o == Done
      ensures old(handle) != null && (locked || !blitOk) ==>
        handle == old(handle) && handle.freed == old(handle.freed) &&
        handle.refcount == old(handle.refcount)
      ensures old(handle) != null && !locked && blitOk ==>
        (handle == null <==> !created) &&
        old(handle).refcount == old(handle.refcount) - 1 &&
        old(handle).freed == (old(handle.freed) || old(handle.refcount) - 1 <= 0)
      ensures old(handle) != null && !locked && blitOk && created ==>
        fresh(handle) && handle.w == newWidth && handle.h == newHeight &&
        handle.refcount == 1 && !handle.freed
      ensures old(handle) != null ==> old(handle).w == old(handle.w) && old(handle).h == old(handle.h)
      ensures old(Valid()) ==> Valid()
    {
      newBuf := null;
      if handle == null {
        return Threw(RuntimeError), newBuf;
      }
      if locked {
        return Done, newBuf;
      }
      var newHandle := CreateSurface(newWidth, newHeight, created);
      newBuf := newHandle;
      if !blitOk {
        FreeSurface(newHandle);
        return Done, newBuf;
      }
      var oldHandle := handle;
      handle := newHandle;
      FreeSurface(oldHandle);
      o := Done;
    }

    /** `resize(newWidth, newHeight)` with the allocation check on the new handle. Refused
        while locked; a failed allocation or blit leaves the wrapper as it was (a new buffer
        that failed the blit is released); on success the wrapper holds a fresh
        `newWidth`x`newHeight` buffer and the old one loses the wrapper's reference, being
        released when that was the last. The logical count and the lock flag never change,
        and a wrapper never ends up pointing at a released buffer. */
    method Resize(newWidth: Int32, newHeight: Int32, created: bool, blitOk: bool)
      returns (o: Outcome, ghost newBuf: SdlSurface?)
      requires handle != null ==> handle.refcount > INT_MIN
      modifies this`handle, handle
      ensures old(handle) == null || locked ==> newBuf == null
      ensures old(handle) != null && !locked ==> (newBuf != null <==> created)
      ensures newBuf != null ==> fresh(newBuf) && newBuf.w == newWidth && newBuf.h == newHeight
      ensures newBuf != null && !blitOk ==> newBuf.freed && newBuf.refcount == 0
      ensures newBuf != null && blitOk ==> handle == newBuf
      ensures old(handle) == null ==> o == Threw(RuntimeError) && handle == null
      ensures old(handle) != null ==> o == Done
      ensures old(handle) != null && (locked || !created || !blitOk) ==>
        handle == old(handle) && handle.freed == old(handle.freed) &&
        handle.refcount == old(handle.refcount)
      ensures old(handle) != null && !locked && created && blitOk ==>
        handle != null && fresh(handle) && handle.w == newWidth && handle.h == newHeight &&
        handle.refcount == 1 && !handle.freed &&
        old(handle).refcount == old(handle.refcount) - 1 &&
        old(handle).freed == (old(handle.freed) || old(handle.refcount) - 1 <= 0)
      ensures old(handle) != null ==> old(handle).w == old(handle.w) && old(handle).h == old(handle.h)
      ensures old(Valid()) ==> Valid()
    {
      newBuf := null;
      if handle == null {
        return Threw(RuntimeError), newBuf;
      }
      if locked {
        return Done, newBuf;
      }
      var newHandle := CreateSurface(newWidth, newHeight, created);
      newBuf := newHandle;
      if newHandle == null {
        return Done, newBuf;
      }
      if !blitOk {
        FreeSurface(newHandle);
        return Done, newBuf;
      }
      var oldHandle := handle;
      handle := newHandle;
      FreeSurface(oldHandle);
      o := Done;
    }

    /** `resize(const Rectangle&)`: the as-written `resize(int, int)` on the rectangle's
        width and height; its position is ignored. */
    method ResizeTo(newSize: Rectangles.Rectangle, created: bool, blitOk: bool)
      returns (o: Outcome, ghost newBuf: SdlSurface?)
      requires handle != null ==> handle.refcount > INT_MIN
      modifies this`handle, handle
      ensures old(handle) == null || locked ==> newBuf == null
      ensures old(handle) != null && !locked ==> (newBuf != null <==> created)
      ensures newBuf != null ==> fresh(newBuf) && newBuf.w == newSize.w && newBuf.h == newSize.h
      ensures newBuf != null && !blitOk ==> newBuf.freed && newBuf.refcount == 0
      ensures newBuf != null && blitOk ==> handle == newBuf
      ensures old(handle) == null ==> o == Threw(RuntimeError) && handle == null
      ensures old(handle) != null ==> o == Done
      ensures old(handle) != null && (locked || !blitOk) ==>
        handle == old(handle) && handle.freed == old(handle.freed) &&
        handle.refcount == old(handle.refcount)
      ensures old(handle) != null && !locked && blitOk ==>
        (handle == null <==> !created) &&
        old(handle).refcount == old(handle.refcount) - 1 &&
        old(handle).freed == (old(handle.freed) || old(handle.refcount) - 1 <= 0)
      ensures old(handle) != null && !locked && blitOk && created ==>
        fresh(handle) && handle.w == newSize.w && handle.h == newSize.h &&
        handle.refcount == 1 && !handle.freed
      ensures old(handle) != null ==> old(handle).w == old(handle.w) && old(handle).h == old(handle.h)
      ensures old(Valid()) ==> Valid()
    {
      o, newBuf := ResizeAsWritten(newSize.w, newSize.h, created, blitOk);
    }

    /** `getHandle()`: never throws. */
    method GetHandle() returns (h: SdlSurface?)
      ensures h == handle
    {
      h := handle;
    }

    /** `getWidth()`: the buffer's width; throws on a null wrapper. */
    method GetWidth() returns (r: Result<Int32>)
      ensures handle == null ==> r == Err(RuntimeError)
      ensures handle != null ==> r == Ok(handle.w)
    {
      if handle == null {
        return Err(RuntimeError);
      }
      r := Ok(handle.w);
    }

    /** `getHeight()`: the buffer's height; throws on a null wrapper. */
    method GetHeight() returns (r: Result<Int32>)
      ensures handle == null ==> r == Err(RuntimeError)
      ensures handle != null ==> r == Ok(handle.h)
    {
      if handle == null {
        return Err(RuntimeError);
      }
      r := Ok(handle.h);
    }

    /** `getRefCount()`: the logical count (not the backend's); throws on a null wrapper. */
    method GetRefCount() returns (r: Result<Int32>)
      ensures handle == null ==> r == Err(RuntimeError)
      ensures handle != null ==> r == Ok(refcount)
    {
      if handle == null {
        return Err(RuntimeError);
      }
      r := Ok(refcount);
    }
  }

  /** Handle equality is an equivalence; in particular any two null wrappers compare equal. */
  lemma EqualsIsEquivalence(a: Surface, b: Surface, c: Surface)
    ensures a.Equals(a)
    ensures a.Equals(b) ==> b.Equals(a)
    ensures a.Equals(b) && b.Equals(c) ==> a.Equals(c)
    ensures a.IsNull() && b.IsNull() ==> a.Equals(b)
  {
  }

  // ---------------------------------------------------------------------------
  // Clients: sequences of calls and what they leave behind

  /** A `w`x`h` surface is live and reports its dimensions; after a resize to `(nw, nh)`
      whose allocation and blit succeed it is still live and reports the new ones. */
  method ResizeReportsNewSize(width: Int32, height: Int32, nw: Int32, nh: Int32)
    returns (liveBefore: bool, wBefore: Result<Int32>, hBefore: Result<Int32>,
             liveAfter: bool, wAfter: Result<Int32>, hAfter: Result<Int32>)
    ensures liveBefore && wBefore == Ok(width) && hBefore == Ok(height)
    ensures liveAfter && wAfter == Ok(nw) && hAfter == Ok(nh)
  {
    var r := Surface.FromSize(width, height, true);
    var s := r.value;
    liveBefore := !s.IsNull();
    wBefore := s.GetWidth();
    hBefore := s.GetHeight();
    var _, _ := s.ResizeAsWritten(nw, nh, true, true);
    liveAfter := !s.IsNull();
    wAfter := s.GetWidth();
    hAfter := s.GetHeight();
  }

  /** Two wrappers share one buffer: destroying the first leaves the buffer alive for the
      second, and destroying the second releases it. */
  method SharedBufferOutlivesFirstOwner() returns (freedAfterFirst: bool, freedAfterSecond: bool)
    ensures !freedAfterFirst && freedAfterSecond
  {
    var r := Surface.FromSize(4, 4, true);
    var a := r.value;
    var h := a.GetHandle();
    var r2 := Surface.Adopt(h);
    var b := r2.value;
    a.Destroy();
    freedAfterFirst := h.freed;
    b.Destroy();
    freedAfterSecond := h.freed;
  }

  /** A destroyed wrapper stays destroyed: the second call changes nothing. */
  method DestroyTwice() returns (s: Surface, h: SdlSurface)
    ensures s.handle == null && h.refcount == -1 && h.freed
  {
    var r := Surface.FromSize(4, 4, true);
    s := r.value;
    h := s.handle;
    s.Destroy();
    s.Destroy();
  }

  /** Resizing one of two wrappers of a buffer drops only that wrapper's backend reference:
      the other wrapper keeps a live buffer, now with one reference. */
  method ResizeKeepsSharedBuffer() returns (resized: Surface, other: Surface)
    ensures other.handle != null && !other.handle.freed && other.handle.refcount == 1
    ensures other.Valid() && resized.handle != other.handle
  {
    var r := Surface.FromSize(4, 4, true);
    resized := r.value;
    var r2 := Surface.Adopt(resized.handle);
    other := r2.value;
    var _, _ := resized.ResizeAsWritten(8, 8, true, true);
  }

  /** Finding: with the guard on the backend count, a wrapper whose logical count is zero
      goes to -1 on `deref()`. */
  method DerefAsWrittenGoesNegative() returns (s: Surface)
    ensures s.refcount == -1
  {
    var r := Surface.FromSize(1, 1, true);
    s := r.value;
    var _ := s.DerefAsWritten();
  }

  /** The same calls with the guard on the logical count leave it at zero. */
  method DerefStaysAtZero() returns (s: Surface)
    ensures s.refcount == 0
  {
    var r := Surface.FromSize(1, 1, true);
    s := r.value;
    var _ := s.Deref();
  }

  /** Finding: the allocation in `resize` fails but the blit reports success; the wrapper
      ends up null and its old buffer released. */
  method ResizeAsWrittenDropsBuffer() returns (s: Surface, previous: SdlSurface)
    ensures s.handle == null && previous.freed
  {
    var r := Surface.FromSize(10, 15, true);
    s := r.value;
    previous := s.handle;
    var _, _ := s.ResizeAsWritten(15, 10, false, true);
  }

  /** The same calls with the allocation check on the new handle keep the old buffer. */
  method ResizeKeepsBufferOnFailedAllocation() returns (s: Surface, previous: SdlSurface)
    ensures s.handle == previous && !previous.freed && previous.w == 10
  {
    var r := Surface.FromSize(10, 15, true);
    s := r.value;
    previous := s.handle;
    var _, _ := s.Resize(15, 10, false, true);
  }

  /** Finding: once locked, a surface stays locked through `unlock()`, and `resize` keeps
      refusing. */
  method UnlockAsWrittenKeepsRefusingResize() returns (s: Surface, width: Result<Int32>)
    ensures s.locked && width == Ok(10)
  {
    var r := Surface.FromSize(10, 15, true);
    s := r.value;
    var _ := s.Lock(true);
    var _ := s.UnlockAsWritten();
    var _, _ := s.ResizeAsWritten(15, 10, true, true);
    width := s.GetWidth();
  }

  /** With `unlock()` clearing the flag, the same calls resize the surface. */
  method UnlockThenResize() returns (s: Surface, width: Result<Int32>)
    ensures !s.locked && width == Ok(15)
  {
    var r := Surface.FromSize(10, 15, true);
    s := r.value;
    var _ := s.Lock(true);
    var _ := s.Unlock();
    var _, _ := s.Resize(15, 10, true, true);
    width := s.GetWidth();
  }
}
