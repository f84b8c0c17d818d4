/** The font cache: fonts are opened once per (file path, point size) and
    shared afterwards. The C++ class keeps the cache and the TTF
    initialisation flag in static members; here they are the fields of one
    FontCache object. The font library is outside the model: whether TTF_Init
    succeeds and whether TTF_OpenFont returns a handle are given to each call
    as booleans, and the default font's path and size are fixed when the
    cache is built. */
module Fonts {
  import opened Wrappers

  /** An opened font; the TTF handle itself is not modelled. */
  class Font {
    const path: string
    const pointSize: int

    constructor(p: string, s: int)
      ensures path == p && pointSize == s
    {
      path := p;
      pointSize := s;
    }
  }

  /** Font::Font: raises when the library did not return a handle. */
  method OpenFont(path: string, size: int, handleReturned: bool) returns (r: Result<Font, string>)
    ensures r.Failure? <==> !handleReturned
    ensures r.Success? ==> fresh(r.value) && r.value.path == path && r.value.pointSize == size
  {
    if !handleReturned {
      return Failure("font not found: " + path);
    }
    var f := new Font(path, size);
    return Success(f);
  }

  /** The two-level cache: file path, then point size. */
  type Cache = map<string, map<int, Font>>

  /** The size map stored under path, or an empty one. */
  function SizesOf(c: Cache, path: string): (m: map<int, Font>)
    ensures path in c ==> m == c[path]
    ensures path !in c ==> m == map[]
  {
    if path in c then c[path] else map[]
  }

  predicate Cached(c: Cache, path: string, size: int)
  {
    path in c && size in c[path]
  }

  /** c2 keeps every entry of c1, each with the same font. */
  predicate Extends(c1: Cache, c2: Cache)
  {
    forall p, s :: p in c1 && s in c1[p] ==> p in c2 && s in c2[p] && c2[p][s] == c1[p][s]
  }

  /** The cache after the size map for path is created when missing. */
  function WithPath(c: Cache, path: string): (c': Cache)
    ensures Extends(c, c') && path in c'
    ensures forall p, s :: Cached(c', p, s) <==> Cached(c, p, s)
  {
    c[path := SizesOf(c, path)]
  }

  /** The cache after a new font for (path, size) is inserted. */
  function Stored(c: Cache, path: string, size: int, f: Font): (c': Cache)
    requires !Cached(c, path, size)
    ensures Extends(c, c')
    ensures Cached(c', path, size) && c'[path][size] == f
    ensures forall p, s :: Cached(c', p, s) ==> Cached(c, p, s) || (p == path && s == size)
  {
    WithPath(c, path)[path := SizesOf(c, path)[size := f]]
  }

  lemma ExtendsTransitive(c1: Cache, c2: Cache, c3: Cache)
    requires Extends(c1, c2) && Extends(c2, c3)
    ensures Extends(c1, c3)
  {
    forall p, s | p in c1 && s in c1[p]
      ensures p in c3 && s in c3[p] && c3[p][s] == c1[p][s]
    {
      assert p in c2 && s in c2[p];
    }
  }

  class FontCache {
    var ttfInitialized: bool
    var cache: Cache
    /** DEFAULT_FONT and DEFAULT_TEXT_SIZE. */
    const defaultFont: string
    const defaultTextSize: int

    constructor(font: string, size: int)
      ensures !ttfInitialized && cache == map[]
      ensures defaultFont == font && defaultTextSize == size
    {
      ttfInitialized := false;
      cache := map[];
      defaultFont := font;
      defaultTextSize := size;
    }

    /** The state and result loadFont(path, size) leaves, given the flag and
        the cache before the call and whether TTF_Init would succeed:
        - TTF_Init runs only when the flag is down, and its failure raises
          with nothing changed;
        - a cached font is returned and nothing changes;
        - otherwise the size map for path is created if missing, then a new
          font is opened; on success it is stored and returned, on failure
          the error is raised with the size map left in place. */
    predicate LoadOutcome(init0: bool, c0: Cache, path: string, size: int, initOk: bool,
                          r: Result<Font, string>)
      reads this
    {
      if !init0 && !initOk then
        r.Failure? && !ttfInitialized && cache == c0
      else
        ttfInitialized &&
        if Cached(c0, path, size) then
          r == Success(c0[path][size]) && cache == c0
        else if r.Success? then
          r.value.path == path && r.value.pointSize == size &&
          cache == Stored(c0, path, size, r.value)
        else
          cache == WithPath(c0, path)
    }

    /** Font::loadFont. */
    method LoadFont(path: string, size: int, initOk: bool, handleReturned: bool)
      returns (r: Result<Font, string>)
      modifies this
      ensures LoadOutcome(old(ttfInitialized), old(cache), path, size, initOk, r)
      ensures Extends(old(cache), cache)
      ensures (old(ttfInitialized) || initOk) && !Cached(old(cache), path, size) ==>
        (r.Success? <==> handleReturned) && (r.Success? ==> fresh(r.value))
    {
      if !ttfInitialized {
        if !initOk {
          return Failure("TTF_Init failed");
        }
        ttfInitialized := true;
      }
      if path !in cache {
        cache := cache[path := map[]];
      }
      var sizes := cache[path];
      if size !in sizes {
        r := OpenFont(path, size, handleReturned);
        if r.Failure? {
          return;
        }
        cache := cache[path := sizes[size := r.value]];
        return;
      }
      return Success(sizes[size]);
    }

    /** Font::getDefaultFont: loadFont on the default path and size. */
    method GetDefaultFont(initOk: bool, handleReturned: bool) returns (r: Result<Font, string>)
      modifies this
      ensures LoadOutcome(old(ttfInitialized), old(cache), defaultFont, defaultTextSize, initOk, r)
      ensures Extends(old(cache), cache)
    {
      r := LoadFont(defaultFont, defaultTextSize, initOk, handleReturned);
    }

    /** Memoisation: once a font for (path, size) has been returned, loading it
        again returns the same font object, whatever the library would do. */
    method LoadTwice(path: string, size: int, initOk: bool, handleReturned: bool,
                     initOk2: bool, handleReturned2: bool)
      returns (r1: Result<Font, string>, r2: Result<Font, string>)
      modifies this
      ensures r1.Success? ==> r2 == r1
      ensures Extends(old(cache), cache)
    {
      r1 := LoadFont(path, size, initOk, handleReturned);
      ghost var mid := cache;
      r2 := LoadFont(path, size, initOk2, handleReturned2);
      ExtendsTransitive(old(cache), mid, cache);
    }
  }
}
