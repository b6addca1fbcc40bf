/** `CachingShaper`: resolves fonts through a font cache, shapes text through
    a shape cache, and estimates the monospace cell size. The system font
    source and the layout engine are given as parameters. */
module Shaping {
  import opened Wrappers
  import opened Segmentation
  import opened Metrics
  import Lru

  const FontCacheCapacity: nat := 100
  const ShapeCacheCapacity: nat := 10000

  /** The family every collection puts first, for emoji and symbols. */
  const EmojiFamily: string := "Segoe UI Emoji"

  /** The reference string whose advances give the cell width. */
  const StandardCharacters: string :=
    "abcdefghijklmnopqrstuvwxyzABCDEFGHIJKLMNOPQRSTUVWXYZ1234567890"

  /** The font cache key. `baseSize` stands for the requested size, and two
      keys are equal exactly when all five fields are. */
  datatype FontKey = FontKey(name: string, baseSize: int, scale: U16, bold: bool, italic: bool)

  /** The shape cache key: the text and the font key. */
  datatype ShapeKey = ShapeKey(text: string, fontKey: FontKey)

  /** A loaded font, known by its full name. */
  datatype LoadedFont = LoadedFont(fullName: string)

  /** The families the layout engine may use, in fallback priority. */
  datatype FontCollection = FontCollection(families: seq<LoadedFont>)

  /** The system font source: the handles of each installed family, in
      order; a handle is `None` when loading it fails. */
  datatype SystemSource = SystemSource(families: map<string, seq<Option<LoadedFont>>>)

  datatype FontRole = Fallback | Primary

  /** Where the lookup of a family stops: no such family, a family with no
      fonts, or a first font that does not load. */
  datatype LoadFailure = FamilyNotFound | NoFonts | LoadFailed

  datatype ShaperError =
    | FontLoadError(family: string, role: FontRole, failure: LoadFailure)
    | InsufficientGlyphs

  datatype TextStyle = TextStyle(size: int)

  /** The layout engine's entry point over a collection, and its entry point
      over a single font. */
  type LayoutEngine = (TextStyle, FontCollection, string) -> seq<Glyph>
  type RunLayoutEngine = (TextStyle, LoadedFont, string) -> seq<Glyph>

  /** What the cell-size estimate reads from the font lookup: the family
      name, the base size, and the ascent and descent of the normal font at
      size 1. */
  datatype FontLookup = FontLookup(name: string, baseSize: int, ascent: int, descent: int)

  /** `select_family_by_name(family)`, then `fonts()[0].load()`. */
  function LoadFirstFont(source: SystemSource, family: string): Result<LoadedFont, LoadFailure>
  {
    if family !in source.families then Failure(FamilyNotFound)
    else if |source.families[family]| == 0 then Failure(NoFonts)
    else if source.families[family][0].None? then Failure(LoadFailed)
    else Success(source.families[family][0].value)
  }

  /** The collection built on a font cache miss: the emoji family's first
      font, then the requested family's first font. The emoji family is
      looked up first, and a failure of either lookup is an error naming the
      family and its role. */
  function LoadCollection(source: SystemSource, family: string): (r: Result<FontCollection, ShaperError>)
    ensures r.Success? ==>
              && |r.value.families| == 2
              && EmojiFamily in source.families && source.families[EmojiFamily] != []
              && source.families[EmojiFamily][0] == Some(r.value.families[0])
              && family in source.families && source.families[family] != []
              && source.families[family][0] == Some(r.value.families[1])
    ensures r.Failure? ==> r.error.FontLoadError?
    ensures r.Failure? && r.error.role == Fallback ==> r.error.family == EmojiFamily
    ensures r.Failure? && r.error.role == Primary ==> r.error.family == family
    ensures LoadFirstFont(source, EmojiFamily).Failure? ==>
              r == Failure(FontLoadError(EmojiFamily, Fallback, LoadFirstFont(source, EmojiFamily).error))
    ensures LoadFirstFont(source, EmojiFamily).Success? && LoadFirstFont(source, family).Failure? ==>
              r == Failure(FontLoadError(family, Primary, LoadFirstFont(source, family).error))
    ensures r.Failure? <==>
              || EmojiFamily !in source.families || source.families[EmojiFamily] == []
              || source.families[EmojiFamily][0] == None
              || family !in source.families || source.families[family] == []
              || source.families[family][0] == None
  {
    match LoadFirstFont(source, EmojiFamily)
    case Failure(e) => Failure(FontLoadError(EmojiFamily, Fallback, e))
    case Success(emoji) =>
      match LoadFirstFont(source, family)
      case Failure(e) => Failure(FontLoadError(family, Primary, e))
      case Success(font) => Success(FontCollection([emoji, font]))
  }

  /** Every cached collection holds the fallback family and the requested
      one. */
  ghost predicate CollectionsComplete(cache: Lru.Cache<FontKey, FontCollection>) {
    forall k :: k in cache.entries ==> |cache.entries[k].families| == 2
  }

  /** What `get_font` does to the font cache, and what it returns: a hit
      returns the stored collection and makes its key the most recently used;
      a miss loads a collection and stores it, or fails and leaves the cache
      alone. */
  function ResolveFont(cache: Lru.Cache<FontKey, FontCollection>, key: FontKey, source: SystemSource)
    : (r: (Result<FontCollection, ShaperError>, Lru.Cache<FontKey, FontCollection>))
    requires cache.Valid()
    ensures r.1.Valid() && r.1.capacity == cache.capacity
    ensures key in cache.entries ==> r.0 == Success(cache.entries[key]) && r.1.entries == cache.entries
    ensures key !in cache.entries ==> r.0 == LoadCollection(source, key.name)
    ensures r.0.Success? ==> key in r.1.entries && r.1.entries[key] == r.0.value
    ensures r.0.Failure? ==> r.1 == cache
    ensures forall k :: k in r.1.entries && k != key ==> k in cache.entries && r.1.entries[k] == cache.entries[k]
    ensures CollectionsComplete(cache) ==> CollectionsComplete(r.1)
    ensures key in cache.entries ==> r.1 == Lru.Get(cache, key).1
    ensures key !in cache.entries && r.0.Success? ==> r.1 == Lru.Put(cache, key, r.0.value)
  {
    if Lru.Contains(cache, key) then
      (Success(cache.entries[key]), Lru.Get(cache, key).1)
    else
      match LoadCollection(source, key.name)
      case Failure(e) => (Failure(e), cache)
      case Success(collection) => (Success(collection), Lru.Put(cache, key, collection))
  }

  /** After the caches are cleared, resolving any key loads it again. */
  lemma ClearedFontCacheMisses(cache: Lru.Cache<FontKey, FontCollection>, key: FontKey, source: SystemSource)
    requires cache.Valid()
    ensures ResolveFont(Lru.Clear(cache), key, source).0 == LoadCollection(source, key.name)
  {
    assert !Lru.Contains(Lru.Clear(cache), key);
  }

  /** A second resolution of the same key right after a successful first is
      a hit that returns the same collection and stores nothing new. */
  lemma ResolveFontTwice(cache: Lru.Cache<FontKey, FontCollection>, key: FontKey, source: SystemSource)
    requires cache.Valid()
    ensures var first := ResolveFont(cache, key, source);
            first.0.Success? ==>
              var second := ResolveFont(first.1, key, source);
              second.0 == first.0 && second.1.entries == first.1.entries
  {
  }

  /** The result of `shape` for the outcome of its font lookup: the font
      error, or the blobs of the layout's runs. */
  function ShapeWith(font: Result<FontCollection, ShaperError>, text: string, baseSize: int, scale: U16,
                     layout: LayoutEngine): Result<seq<ShapedRun>, ShaperError>
  {
    match font
    case Failure(e) => Failure(e)
    case Success(collection) =>
      Success(ToBlobs(Segment(layout(TextStyle(baseSize * scale as int), collection, text))))
  }

  /** The shaper object: the two caches, and, for the proofs only, how many
      times the font source and the shaping step have been used. */
  class CachingShaper {
    var fontCache: Lru.Cache<FontKey, FontCollection>
    var blobCache: Lru.Cache<ShapeKey, seq<ShapedRun>>
    ghost var fontLoads: nat
    ghost var shapeCalls: nat

    ghost predicate Valid()
      reads this
    {
      && fontCache.Valid() && fontCache.capacity == FontCacheCapacity
      && blobCache.Valid() && blobCache.capacity == ShapeCacheCapacity
      && CollectionsComplete(fontCache)
    }

    /** Neither cache ever holds more than its capacity. */
    lemma WithinCapacity()
      requires Valid()
      ensures |fontCache.entries| <= FontCacheCapacity && |blobCache.entries| <= ShapeCacheCapacity
    {
      Lru.SizeIsOrderLength(fontCache);
      Lru.SizeIsOrderLength(blobCache);
    }

    /** `CachingShaper::new`: both caches empty, with capacities 100 and
        10000. */
    constructor ()
      ensures Valid()
      ensures |fontCache.entries| == 0 && |blobCache.entries| == 0
      ensures fontLoads == 0 && shapeCalls == 0
    {
      fontCache := Lru.New(FontCacheCapacity);
      blobCache := Lru.New(ShapeCacheCapacity);
      fontLoads := 0;
      shapeCalls := 0;
    }

    /** `get_font`: loads and stores the collection on a miss, then reads it
        from the cache. A failed load (a panic in the original) is returned
        as an error, with the caches unchanged. */
    method GetFont(key: FontKey, source: SystemSource) returns (r: Result<FontCollection, ShaperError>)
      requires Valid()
      modifies this
      ensures Valid()
      ensures (r, fontCache) == ResolveFont(old(fontCache), key, source)
      ensures fontLoads == if key in old(fontCache.entries) then old(fontLoads) else old(fontLoads) + 1
      ensures blobCache == old(blobCache) && shapeCalls == old(shapeCalls)
    {
      if !Lru.Contains(fontCache, key) {
        fontLoads := fontLoads + 1;
        var collection := LoadCollection(source, key.name);
        if collection.Failure? {
          return Failure(collection.error);
        }
        fontCache := Lru.Put(fontCache, key, collection.value);
        Lru.GetAfterPut(old(fontCache), key, collection.value);
      }
      var got := Lru.Get(fontCache, key);
      fontCache := got.1;
      r := Success(got.0.value);
    }

    /** `shape`: resolves the font, lays the text out at the scaled size and
        cuts the glyphs into per-font runs with their blobs. */
    method Shape(text: string, fontName: string, baseSize: int, scale: U16, bold: bool, italic: bool,
                 source: SystemSource, layout: LayoutEngine)
      returns (r: Result<seq<ShapedRun>, ShaperError>)
      requires Valid()
      modifies this
      ensures Valid()
      ensures var key := FontKey(fontName, baseSize, scale, bold, italic);
              var resolved := ResolveFont(old(fontCache), key, source);
              && fontCache == resolved.1
              && r == ShapeWith(resolved.0, text, baseSize, scale, layout)
              && fontLoads == if key in old(fontCache.entries) then old(fontLoads) else old(fontLoads) + 1
      ensures blobCache == old(blobCache) && shapeCalls == old(shapeCalls) + 1
    {
      shapeCalls := shapeCalls + 1;
      var fontKey := FontKey(fontName, baseSize, scale, bold, italic);
      var fontCollection := GetFont(fontKey, source);
      if fontCollection.Failure? {
        return Failure(fontCollection.error);
      }
      var style := TextStyle(baseSize * scale as int);
      var glyphs := layout(style, fontCollection.value, text);
      var blobs := SegmentIntoBlobs(glyphs);
      r := Success(blobs);
    }

    /** `shape_cached`: a hit returns the stored result without shaping and
        without touching the font cache; a miss shapes, stores a successful
        result and returns it. */
    method ShapeCached(text: string, fontName: string, baseSize: int, scale: U16, bold: bool, italic: bool,
                       source: SystemSource, layout: LayoutEngine)
      returns (r: Result<seq<ShapedRun>, ShaperError>)
      requires Valid()
      modifies this
      ensures Valid()
      ensures var key := ShapeKey(text, FontKey(fontName, baseSize, scale, bold, italic));
              key in old(blobCache.entries) ==>
                && r == Success(old(blobCache.entries[key]))
                && blobCache == Lru.Get(old(blobCache), key).1
                && fontCache == old(fontCache)
                && shapeCalls == old(shapeCalls) && fontLoads == old(fontLoads)
      ensures var key := ShapeKey(text, FontKey(fontName, baseSize, scale, bold, italic));
              var resolved := ResolveFont(old(fontCache), key.fontKey, source);
              key !in old(blobCache.entries) ==>
                && shapeCalls == old(shapeCalls) + 1
                && fontLoads == (if key.fontKey in old(fontCache.entries) then old(fontLoads) else old(fontLoads) + 1)
                && fontCache == resolved.1
                && r == ShapeWith(resolved.0, text, baseSize, scale, layout)
                && blobCache == if r.Success? then Lru.Put(old(blobCache), key, r.value) else old(blobCache)
      ensures var key := ShapeKey(text, FontKey(fontName, baseSize, scale, bold, italic));
              r.Success? ==> key in blobCache.entries && blobCache.entries[key] == r.value
    {
      var fontKey := FontKey(fontName, baseSize, scale, bold, italic);
      var key := ShapeKey(text, fontKey);
      if !Lru.Contains(blobCache, key) {
        var blob := Shape(text, fontName, baseSize, scale, bold, italic, source, layout);
        if blob.Failure? {
          return Failure(blob.error);
        }
        Lru.GetAfterPut(blobCache, key, blob.value);
        blobCache := Lru.Put(blobCache, key, blob.value);
      }
      var got := Lru.Get(blobCache, key);
      blobCache := got.1;
      r := Success(got.0.value);
    }

    /** `clear`: both caches lose every entry and keep their capacities, so
        the next lookup of any key is a miss. */
    method Clear()
      requires Valid()
      modifies this
      ensures Valid()
      ensures fontCache == Lru.Clear(old(fontCache)) && blobCache == Lru.Clear(old(blobCache))
      ensures |fontCache.entries| == 0 && |blobCache.entries| == 0
      ensures fontLoads == old(fontLoads) && shapeCalls == old(shapeCalls)
    {
      fontCache := Lru.Clear(fontCache);
      blobCache := Lru.Clear(blobCache);
    }

    /** `font_base_dimensions`: the height is the normal font's descent minus
        its ascent at size 1; the width is a most frequent advance of the
        reference string laid out in the requested family at the base size.
        Fewer than two glyphs give no advance, which is an error. */
    method FontBaseDimensions(lookup: FontLookup, source: SystemSource, layoutRun: RunLayoutEngine)
      returns (r: Result<(int, int), ShaperError>)
      requires Valid()
      modifies this
      ensures Valid()
      ensures var key := FontKey(lookup.name, lookup.baseSize, 1, false, false);
              var resolved := ResolveFont(old(fontCache), key, source);
              && fontCache == resolved.1
              && (resolved.0.Failure? ==> r == Failure(resolved.0.error))
              && (resolved.0.Success? ==>
                    && |resolved.0.value.families| == 2
                    && var glyphs := layoutRun(TextStyle(lookup.baseSize), resolved.0.value.families[1],
                                               StandardCharacters);
                       var advances := Advances(Positions(glyphs));
                       && (r.Failure? <==> |glyphs| < 2)
                       && (r.Failure? ==> r.error == InsufficientGlyphs)
                       && (r.Success? ==> r.value.1 == lookup.descent - lookup.ascent
                                          && IsMode(advances, r.value.0)))
      ensures blobCache == old(blobCache) && shapeCalls == old(shapeCalls)
      ensures var key := FontKey(lookup.name, lookup.baseSize, 1, false, false);
              fontLoads == if key in old(fontCache.entries) then old(fontLoads) else old(fontLoads) + 1
    {
      var fontHeight := lookup.descent - lookup.ascent;
      var fontKey := FontKey(lookup.name, lookup.baseSize, 1, false, false);
      var fontRef := GetFont(fontKey, source);
      if fontRef.Failure? {
        return Failure(fontRef.error);
      }
      var style := TextStyle(lookup.baseSize);
      var glyphs := layoutRun(style, fontRef.value.families[1], StandardCharacters);
      var glyphOffsets := Positions(glyphs);
      var glyphAdvances := Advances(glyphOffsets);
      var fontWidth := MostFrequentAdvance(glyphAdvances);
      if fontWidth.None? {
        return Failure(InsufficientGlyphs);
      }
      r := Success((fontWidth.value, fontHeight));
    }
  }
}
