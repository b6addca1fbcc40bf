# Caching text shaper

This project models the `CachingShaper` of the neovide renderer
(`src/renderer/caching_shaper.rs`) and proves properties of the model.
The shaper turns a string, a font family and a size into drawable text
blobs. It holds two bounded least-recently-used caches:

- a font cache of 100 collections keyed by `FontKey` (family name, base
  size, scale, bold, italic);
- a shape cache of 10000 results keyed by `ShapeKey` (the text and its
  font key).

A font collection always lists the "Segoe UI Emoji" family first and the
requested family second. `shape` lays the text out and cuts the glyphs into
runs that share one font, and `make_blob` turns each run into a blob.
`font_base_dimensions` estimates the monospace cell. Its width is the most
frequent advance between neighbouring glyphs of a fixed reference string.
Its height is descent minus ascent.

Modules:

- `Wrappers`: `Option` and `Result`.
- `Lru`: the `LruCache` the shaper uses, as a value. It holds a capacity, an
  entry map and a recency order. The shaper keeps one in a field and replaces
  it on every access. It models the behaviour of the `lru` crate's `new`,
  `contains`, `get`, `put` and `clear`.
- `Segmentation`: glyphs, runs and blobs. `Segment` specifies the run
  structure. `SegmentIntoBlobs` is the imperative loop of `shape`, proved
  against it. `MakeBlob` fills two arrays like `make_blob`.
- `Metrics`: advances, the counting loop and `max_by_key` of
  `font_base_dimensions`.
- `Shaping`: the keys, the system font source, and the class
  `CachingShaper`. Its methods reassign the two cache fields. Ghost counters
  record how often the font source was asked for a collection and how often
  text was shaped. They show that a cache hit does neither.

The source file does not compile as written. The model follows the
evident intent:

- `get_font` returns the cached collection.
- `shape_cached` returns the cached run list.
- The result vector of `shape` is mutable.
- `make_blob` is the associated function, called as such.
- `make_blob` draws each blob in the font of the run's first glyph, whose
  metrics line 76 reads. Line 78 passes a `font` that `make_blob` does not
  have. The other reading is `shape`'s `font: &Font` parameter (line 90),
  which would draw every blob in one font.
- The fill loops of `make_blob` read the run's glyphs. The buffer names
  shadow them at lines 78-84.
- `font_base_dimensions` lays the reference string out in the requested
  family, the second family of the collection.

A failure to find or load "Segoe UI Emoji" is as fatal as a failure of the
requested family (lines 49-54), and `LoadCollection` models that.

## Model

| member | source | states |
|---|---|---|
| Lru.New | src/renderer/caching_shaper.rs:37-42 | a new cache is valid, empty and has the requested capacity |
| Lru.Get | src/renderer/caching_shaper.rs:69 | a hit returns the stored value and makes the key the most recently used, keeping every other key in its order; a miss returns nothing and changes nothing; entries never change |
| Lru.Put | src/renderer/caching_shaper.rs:66 | the key is stored with the value and becomes the most recently used, the other keys keep their recency order, a new key in a full cache evicts exactly the least recently used key, every other entry is kept, and the size never exceeds the capacity |
| Lru.Clear | src/renderer/caching_shaper.rs:129-132 | the cache becomes empty, so no key that was present remains, and the capacity is kept |
| Lru.SizeIsOrderLength | src/renderer/caching_shaper.rs:39-40 | a valid cache holds exactly as many entries as its recency order and at most its capacity |
| Lru.GetAfterPut | src/renderer/caching_shaper.rs:123-126 | reading a key right after storing it returns the stored value and leaves the cache as the store left it |
| Lru.RecentlyUsedSurvivesEviction | src/renderer/caching_shaper.rs:66-69 | a key that was just read is not evicted by the next insertion of a new key when the capacity is at least two |
| Segmentation.Segment | src/renderer/caching_shaper.rs:99-113 | the runs concatenate back to the glyphs; every run is non-empty and all its glyphs have its font; neighbouring runs have different fonts; no glyphs give no runs |
| Segmentation.SegmentUnique | src/renderer/caching_shaper.rs:99-113 | any cut into non-empty, single-font runs with differing neighbours that concatenates to the glyphs is the one the loop builds |
| Segmentation.SegmentExample | src/renderer/caching_shaper.rs:99-113 | fonts A A B B B A give three runs A, B, A of 2, 3 and 1 glyphs |
| Segmentation.MakeBlob | src/renderer/caching_shaper.rs:72-88 | the blob of a non-empty run has the run's first font, one glyph id truncated to 16 bits and one offset per glyph, in order |
| Segmentation.Positions | src/renderer/caching_shaper.rs:144 | one horizontal offset per glyph, in order; `make_blob` writes these as positions and `font_base_dimensions` collects them |
| Segmentation.ToBlobs | src/renderer/caching_shaper.rs:103-112 | one labelled blob per run, the i-th built from the i-th run |
| Segmentation.SegmentIntoBlobs | src/renderer/caching_shaper.rs:97-115 | the loop returns the blobs of `Segment` of the glyphs, one per run in order, and nothing for an empty layout |
| Segmentation.ShapedRunsCoverLayout | src/renderer/caching_shaper.rs:99-115 | every blob of the shaping result is non-empty and labelled with the font of its run's first glyph, neighbouring blobs have different labels, and together the blobs hold every glyph id and offset of the layout in order |
| Metrics.Advances | src/renderer/caching_shaper.rs:145 | exactly one advance fewer than there are offsets (none below two), the i-th being offset i+1 minus offset i |
| Metrics.AdvancesRebuildOffsets | src/renderer/caching_shaper.rs:145 | accumulating the advances from the first offset gives back every offset |
| Metrics.MostFrequentAdvance | src/renderer/caching_shaper.rs:147-153 | no width exactly when there are no advances; otherwise the width is one of the advances and none occurs more often |
| Metrics.MaxByCount | src/renderer/caching_shaper.rs:153 | nothing for an empty map, otherwise a key of the map with a count no other key exceeds |
| Metrics.ModeExample | src/renderer/caching_shaper.rs:147-153 | the advances 5 5 5 7 5 6 have the mode 5 and no other |
| Shaping.LoadCollection | src/renderer/caching_shaper.rs:46-64 | a loaded collection has exactly two families, the first font of the emoji family and then the first font of the requested family; it fails exactly when either family is missing, empty or fails to load, and the error names the lookup that failed first, the emoji family as fallback or the requested family as primary, with its reason |
| Shaping.ResolveFont | src/renderer/caching_shaper.rs:44-70 | a hit returns the stored collection and only makes its key the most recently used; a miss loads the collection and, on success, puts it under the key; a failure leaves the cache unchanged; no other entry changes and cached collections keep two families |
| Shaping.ClearedFontCacheMisses | src/renderer/caching_shaper.rs:129-132 | after clearing, resolving any font key loads it from the font source |
| Shaping.ResolveFontTwice | src/renderer/caching_shaper.rs:44-70 | resolving the same key again right after a success is a hit with the same collection and the same entries |
| Shaping.CachingShaper.WithinCapacity | src/renderer/caching_shaper.rs:37-42 | the font cache never holds more than 100 entries, the shape cache never more than 10000 |
| Shaping.CachingShaper.constructor | src/renderer/caching_shaper.rs:37-42 | both caches empty, with capacities 100 and 10000 |
| Shaping.CachingShaper.GetFont | src/renderer/caching_shaper.rs:44-70 | result and new font cache are those of `ResolveFont`; the font source is asked exactly on a miss; the shape cache is untouched |
| Shaping.CachingShaper.Shape | src/renderer/caching_shaper.rs:90-116 | resolves the font key of the arguments, lays the text out at base size times scale, and returns the blobs of the segmented layout or the font error; the shape cache is untouched |
| Shaping.CachingShaper.ShapeCached | src/renderer/caching_shaper.rs:118-127 | a hit returns the stored result, marks it recently used, and neither shapes nor touches the font cache; a miss shapes once and stores a successful result; a returned result is stored under its key |
| Shaping.CachingShaper.Clear | src/renderer/caching_shaper.rs:129-132 | both caches become empty and keep their capacities |
| Shaping.CachingShaper.FontBaseDimensions | src/renderer/caching_shaper.rs:134-157 | resolves the family at scale 1, not bold, not italic; the height is descent minus ascent; the width is a most frequent advance of the reference string; fewer than two glyphs is an error |

## Left out

- Font loading: the system font source is a parameter. It maps each family name to its fonts, and a font that fails to load is `None`. A new `SystemSource` is created on every miss, and the model passes it to each call.
- The `expect`, `unwrap` and index panics of `get_font` (lines 49-63) and the `unwrap` after `max_by_key` in `font_base_dimensions` (line 153) are modelled as `Failure` results. The caches are left as they were at the point of the panic. `make_blob` is only reached with a non-empty run, which `MakeBlob` requires, and its `make().unwrap()` (line 87) is not modelled.
- Text layout (`layout`, `layout_run`) is a function parameter from style, font and text to positioned glyphs. Only glyph ids, font full names and horizontal offsets are modelled.
- Skia's blob builder is not modelled. A blob is the font name, the 16-bit glyph ids and the positions. Skia's builder internals and the baseline ascent computed at line 77 are not modelled.
- Floating point: sizes, offsets, advances, ascent and descent are integers. The key's `base_size` is the float's text in the source and an integer compared exactly here.
- The string keys of the advance counter and their parsing back to a float (lines 149 and 154) are not modelled. Advances are counted as values.
- Shaping.CachingShaper.FontBaseDimensions: among equally frequent advances, the model allows any of them. The source's choice depends on hash-map iteration order and `max_by_key`.
- Shaping.CachingShaper.FontBaseDimensions: the ascent and descent come from the `FontLookup` argument. The font lookup (`fonts.rs`) is not part of this model.
- The `font: &Font` parameter of `shape` and `shape_cached` is not modelled, because the model draws each blob in the font of its run's first glyph.
- Segmentation.ShapedRunsCoverLayout: the labels it proves are the fonts of each run's first glyph. If line 78 meant `shape`'s `font` parameter instead, every blob would be drawn in that one font, and the lemma says nothing about that font.
- Hashing and `Clone` of the keys are not modelled. Key equality is structural equality of the datatypes.
- Concurrency and lifetimes are not modelled. The returned references are values.
