/** `tiledl::Texture`: a wrapper around a possibly-null handle to a backend GPU texture
    (`SDL_Texture`) and the renderer that owns it. It keeps an advisory logical reference
    count, guarded against going negative, and caches what the backend reports about the
    texture. Unlike a surface, destroying a texture always releases the backend object.
    The backend's answers (`SDL_QueryTexture`, `SDL_GetTextureAlphaMod`) are parameters;
    a C++ exception becomes a returned `Threw(RuntimeError)` or `Err(RuntimeError)`. */
module Textures {
  import opened CTypes
  import opened Errors

  /** The backend texture, reduced to whether it has been released. */
  class SdlTexture {
    var destroyed: bool

    constructor ()
      ensures !destroyed
    {
      destroyed := false;
    }
  }

  /** The backend renderer owning a texture; opaque here. */
  class SdlRenderer {
    constructor ()
    {
    }
  }

  /** What `SDL_QueryTexture` reports when it succeeds. */
  datatype TextureInfo = TextureInfo(format: Uint32, access: Int32, w: Int32, h: Int32)

  /** What `query` writes through its four out-pointers: `None` where the pointer was null
      or nothing was written. */
  datatype QueryOut = QueryOut(format: Option<Uint32>, access: Option<Int32>,
                               w: Option<Int32>, h: Option<Int32>)

  /** `SDL_DestroyTexture`. */
  method DestroyTexture(t: SdlTexture)
    modifies t
    ensures t.destroyed
  {
    t.destroyed := true;
  }

  /** A value written through an out-pointer only when the pointer is non-null. */
  function WriteIf<T>(wanted: bool, v: T): (o: Option<T>)
    ensures o.Some? <==> wanted
    ensures o.Some? ==> o.value == v
  {
    if wanted then Some(v) else None
  }

  class Texture {
    var owner: SdlRenderer?
    var texture: SdlTexture?
    var refcount: Int32
    var w: Int32
    var h: Int32
    var access: Int32
    var format: Uint32

    /** `Texture()`: null handle and owner, every cached field and the count zero. */
    constructor ()
      ensures texture == null && owner == null
      ensures w == 0 && h == 0 && format == 0 && access == 0 && refcount == 0
    {
      owner := null;
      texture := null;
      w, h, format := 0, 0, 0;
      access := 0;
      refcount := 0;
    }

    /** `isNull()`: whether there is no backend texture. */
    predicate IsNull()
      reads this
    {
      texture == null
    }

    /** `operator==`: the same backend texture. */
    predicate Equals(other: Texture)
      reads this, other
    {
      texture == other.texture
    }

    /** `ref()`: throws on a null texture; otherwise one more logical reference, saturating
        at INT_MAX. */
    method Ref() returns (o: Outcome)
      modifies this`refcount
      ensures texture == null ==> o == Threw(RuntimeError) && refcount == old(refcount)
      ensures texture != null ==> o == Done && refcount == SaturatingInc(old(refcount))
    {
      if texture == null {
        return Threw(RuntimeError);
      }
      if refcount == INT_MAX {
        return Done;
      }
      refcount := refcount + 1;
      o := Done;
    }

    /** `deref()`: throws on a null texture; a count at or below zero is left alone, so the
        count never goes from non-negative to negative. */
    method Deref() returns (o: Outcome)
      modifies this`refcount
      ensures texture == null ==> o == Threw(RuntimeError) && refcount == old(refcount)
      ensures texture != null ==> o == Done && refcount == GuardedDec(old(refcount))
      ensures old(refcount) >= 0 ==> refcount >= 0
    {
      if texture == null {
        return Threw(RuntimeError);
      }
      if refcount <= 0 {
        return Done;
      }
      refcount := refcount - 1;
      o := Done;
    }

    /** `getRefCount()`: the logical count; it does not throw on a null texture. */
    method GetRefCount() returns (c: Int32)
      ensures c == refcount
    {
      c := refcount;
    }

    /** `destroy()`: on a live texture, releases the backend texture whatever the logical
        count and nulls both the handle and the owner; on a null texture, nothing. */
    method Destroy()
      modifies this`texture, this`owner, texture
      ensures texture == null
      ensures old(texture) != null ==> old(texture).destroyed && owner == null
      ensures old(texture) == null ==> owner == old(owner)
      ensures refcount == old(refcount)
    {
      if texture != null {
        DestroyTexture(texture);
        texture := null;
        owner := null;
      }
    }

    /** `~Texture()`: destroys the texture only when it is non-null. */
    method Destruct()
      modifies this`texture, this`owner, texture
      ensures texture == null
      ensures old(texture) != null ==> old(texture).destroyed && owner == null
      ensures old(texture) == null ==> owner == old(owner)
    {
      if !IsNull() {
        Destroy();
      }
    }

    /** `query(format, access, w, h)`: throws on a null texture. When the backend fails,
        nothing is written, to the cache or to the out-pointers. When it succeeds, the
        cache takes the reported values and each non-null out-pointer receives its value. */
    method Query(backend: Option<TextureInfo>, wantFormat: bool, wantAccess: bool,
                 wantW: bool, wantH: bool) returns (r: Result<QueryOut>)
      modifies this`format, this`access, this`w, this`h
      ensures texture == null ==> r == Err(RuntimeError)
      ensures texture == null || backend.None? ==>
        format == old(format) && access == old(access) && w == old(w) && h == old(h)
      ensures texture != null && backend.None? ==> r == Ok(QueryOut(None, None, None, None))
      ensures texture != null && backend.Some? ==>
        format == backend.value.format && access == backend.value.access &&
        w == backend.value.w && h == backend.value.h
      ensures texture != null && backend.Some? ==>
        r == Ok(QueryOut(WriteIf(wantFormat, format), WriteIf(wantAccess, access),
                         WriteIf(wantW, w), WriteIf(wantH, h)))
    {
      if texture == null {
        return Err(RuntimeError);
      }
      if backend.None? {
        return Ok(QueryOut(None, None, None, None));
      }
      format, access, w, h := backend.value.format, backend.value.access,
                              backend.value.w, backend.value.h;
      var outFormat, outAccess, outW, outH := None, None, None, None;
      if wantFormat {
        outFormat := Some(format);
      }
      if wantAccess {
        outAccess := Some(access);
      }
      if wantW {
        outW := Some(w);
      }
      if wantH {
        outH := Some(h);
      }
      r := Ok(QueryOut(outFormat, outAccess, outW, outH));
    }

    /** `getAccess()`: the cached access mode; throws on a null texture. */
    method GetAccess() returns (r: Result<Int32>)
      ensures texture == null ==> r == Err(RuntimeError)
      ensures texture != null ==> r == Ok(access)
    {
      if texture == null {
        return Err(RuntimeError);
      }
      r := Ok(access);
    }

    /** `getFormat()`: the cached pixel format; throws on a null texture. */
    method GetFormat() returns (r: Result<Uint32>)
      ensures texture == null ==> r == Err(RuntimeError)
      ensures texture != null ==> r == Ok(format)
    {
      if texture == null {
        return Err(RuntimeError);
      }
      r := Ok(format);
    }

    /** `getWidth()`: the cached width; throws on a null texture. */
    method GetWidth() returns (r: Result<Int32>)
      ensures texture == null ==> r == Err(RuntimeError)
      ensures texture != null ==> r == Ok(w)
    {
      if texture == null {
        return Err(RuntimeError);
      }
      r := Ok(w);
    }

    /** `getHeight()`: the cached height; throws on a null texture. */
    method GetHeight() returns (r: Result<Int32>)
      ensures texture == null ==> r == Err(RuntimeError)
      ensures texture != null ==> r == Ok(h)
    {
      if texture == null {
        return Err(RuntimeError);
      }
      r := Ok(h);
    }

    /** `getAlphaMod()`: throws on a null texture; otherwise what the backend reports, or 0
        when the backend call fails. */
    method GetAlphaMod(backend: Option<Uint8>) returns (r: Result<Uint8>)
      ensures texture == null ==> r == Err(RuntimeError)
      ensures texture != null && backend.Some? ==> r == Ok(backend.value)
      ensures texture != null && backend.None? ==> r == Ok(0)
    {
      if texture == null {
        return Err(RuntimeError);
      }
      var m := 0;
      if backend.Some? {
        m := backend.value;
      }
      r := Ok(m);
    }

    /** `getBlendMod()`: a stub answering 0, even on a null texture. */
    method GetBlendMod() returns (m: Uint8)
      ensures m == 0
    {
      m := 0;
    }

    /** `getColorMod()`: a stub answering 0, even on a null texture. */
    method GetColorMod() returns (m: Uint8)
      ensures m == 0
    {
      m := 0;
    }

    /** `setAlphaMod(mod)`: a stub; no state changes. */
    method SetAlphaMod(mod: Uint8)
      ensures unchanged(this)
    {
    }

    /** `setBlendMod(mod)`: a stub; no state changes. */
    method SetBlendMod(mod: Uint8)
      ensures unchanged(this)
    {
    }

    /** `setColorMod(mod)`: a stub; no state changes. */
    method SetColorMod(mod: Uint8)
      ensures unchanged(this)
    {
    }
  }

  /** Handle equality is an equivalence; any two null textures compare equal. */
  lemma EqualsIsEquivalence(a: Texture, b: Texture, c: Texture)
    ensures a.Equals(a)
    ensures a.Equals(b) ==> b.Equals(a)
    ensures a.Equals(b) && b.Equals(c) ==> a.Equals(c)
    ensures a.IsNull() && b.IsNull() ==> a.Equals(b)
  {
  }

  // ---------------------------------------------------------------------------
  // Clients: sequences of calls and what they leave behind

  /** `ref()` then `deref()` on a live texture restores the count whenever it was below
      INT_MAX. */
  method RefThenDeref(t: Texture)
    requires t.texture != null && 0 <= t.refcount < INT_MAX
    modifies t
    ensures t.refcount == old(t.refcount) && t.texture == old(t.texture)
  {
    var _ := t.Ref();
    var _ := t.Deref();
  }

  /** A texture destroyed while still referenced is released all the same, keeping its
      logical count, and a second `destroy()` changes nothing. */
  method DestroyWhileReferenced(t: Texture)
    requires t.texture != null
    modifies t, t.texture
    ensures old(t.texture).destroyed && t.IsNull() && t.owner == null
    ensures t.refcount == SaturatingInc(old(t.refcount))
  {
    var _ := t.Ref();
    t.Destroy();
    t.Destroy();
  }

  /** After a successful `query`, the getters answer with the reported width and height. */
  method QueryThenGetSize(t: Texture, info: TextureInfo) returns (w: Result<Int32>, h: Result<Int32>)
    requires t.texture != null
    modifies t
    ensures w == Ok(info.w) && h == Ok(info.h)
  {
    var _ := t.Query(Some(info), false, false, false, false);
    w := t.GetWidth();
    h := t.GetHeight();
  }

  /** A default-constructed texture throws on `ref()`, but answers `getRefCount()`. */
  method NullTextureOperations() returns (o: Outcome, c: Int32)
    ensures o == Threw(RuntimeError) && c == 0
  {
    var t := new Texture();
    o := t.Ref();
    c := t.GetRefCount();
  }
}
