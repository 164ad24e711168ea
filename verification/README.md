# Sprite prefabs and rendering helpers of `amethyst_rendy`, in Dafny

This project models two parts of the `amethyst_rendy` crate and proves properties about them.

**The sprite prefab protocol** (`amethyst_rendy/src/sprite/prefab.rs`). Prefabs are loaded in two phases.

- In phase 1 (`load_sub_assets`), a `SpriteSheetPrefab` goes from a sheet definition to a resolved `(name, handle)` pair. A `SpriteRenderPrefab` looks up its `SpriteSheetReference` (by index, or by first matching name) in the append-only `SpriteSheetLoadedSet` registry. A `SpriteScenePrefab` composes the two: it pushes its own sheet's pair onto the registry and then resolves its render against the grown registry.
- In phase 2 (`add_to_entity`), the render prefab inserts a `SpriteRender` component for the entity. The scene prefab does the render first, then the transform.

The model represents the external services as follows:

- Handles are natural numbers.
- `Loader::load_from_data` appends the sheet to an asset store. The handle it returns is the sheet's new position, so every handle is fresh.
- Texture sub-asset loading is an oracle function.
- Component storages are maps from entity to component, plus the set of live entities. Inserting for a dead entity fails.

Operations that can fail part-way return the state together with their outcome. The source's partial side effects therefore stay visible. For example, a scene whose render fails to resolve has still pushed its sheet.

**The helpers of `amethyst_rendy/src/util.rs`**:

- range chaining (`next_range`, `opt_range`)
- the reallocation decision of `ensure_buffer`, using `u64::next_power_of_two`
- std140 size rounding (`align_size`)
- vertex buffer and attribute numbering (`push_vertex_desc`, `vertex_desc`)
- descriptor binding numbering (`set_layout_bindings`)
- the interning table `LookupBuilder`
- the counting iterator adaptor `TapCountIterator`

gfx-hal values (vertex elements, descriptor types, stage flags) are opaque type parameters. `as u32` casts are written out as `AsU32`, which reduces modulo 2^32. Integer overflow that panics in the source becomes a precondition.

Three details of the code that matter here:

- `SpriteScenePrefab::load_sub_assets` pushes the sheet's pair on every call, not just the first (prefab.rs:238-246).
- Loading an already resolved sheet returns `Ok(false)`. It is not an invariant failure.
- `SpriteScenePrefab::add_to_entity` returns at the first error. A failing render means the transform is not attempted.

## Model

| member | source | states |
|---|---|---|
| SheetRegistry.FindName | amethyst_rendy/src/sprite/prefab.rs:106-110 | the scan returns the first position at or after `from` whose name is `Some(name)`, or reports that no such position exists |
| SheetRegistry.Get | amethyst_rendy/src/sprite/prefab.rs:103-111 | by index: the handle at that position iff it is in range; by name: a handle iff some entry has that name, and then the handle of the first such entry (unnamed entries never match) |
| SheetRegistry.GetStableUnderAppend | amethyst_rendy/src/sprite/prefab.rs:100-112 | appending to the registry never changes what an already resolvable reference resolves to |
| SheetRegistry.GetAppendedByIndex | amethyst_rendy/src/sprite/prefab.rs:105 | the entry appended to a registry of length n is found by `Index(n)` |
| SheetRegistry.GetAppendedByName | amethyst_rendy/src/sprite/prefab.rs:106-110 | the appended entry is found by its name exactly when no earlier entry has that name |
| SpritePrefab.LoadFromData | amethyst_rendy/src/sprite/prefab.rs:80-85 | the loader stores the sheet under a handle that no earlier sheet had and keeps every earlier sheet |
| SpritePrefab.Insert | amethyst_rendy/src/sprite/prefab.rs:162-168 | storage insert succeeds iff the entity is alive; it then overwrites only that entity's component |
| SpritePrefab.LoadSheet | amethyst_rendy/src/sprite/prefab.rs:59-96 | a definition becomes `Handle` with its own name and a fresh handle, and returns true; that handle stores the declared texture and sprites; a texture error is passed on; an already resolved sheet is returned unchanged with false |
| SpritePrefab.SheetAddToEntity | amethyst_rendy/src/sprite/prefab.rs:46-57 | returns exactly the resolved pair the prefab holds; the source marks the unresolved case `unreachable!()`, so calling it on a definition is a precondition |
| SpritePrefab.LoadThenAddSheet | amethyst_rendy/src/sprite/prefab.rs:46-96 | `add_to_entity` after load yields the pair load produced, with the declared name and the handle under which the sheet was stored |
| SpritePrefab.LoadSheetOnce | amethyst_rendy/src/sprite/prefab.rs:86-95 | a second load of a loaded sheet reports false and changes neither the prefab nor the asset store |
| SpritePrefab.LoadRender | amethyst_rendy/src/sprite/prefab.rs:180-192 | succeeds iff the registry resolves the reference; success stores exactly that handle and reports false; failure reports the reference and leaves the prefab as it was; the registry is only read |
| SpritePrefab.RenderAddToEntity | amethyst_rendy/src/sprite/prefab.rs:153-178 | without a handle it fails with the reference and sprite number; with one, a live entity afterwards maps to `{handle, sprite_number}` and all other entities keep their components |
| SpritePrefab.LoadThenAddRender | amethyst_rendy/src/sprite/prefab.rs:356-378 | resolving a reference the registry holds and then attaching gives the entity a component with the registry's handle and the declared sprite number |
| SpritePrefab.LoadScene | amethyst_rendy/src/sprite/prefab.rs:232-252 | a failed sheet load changes nothing; otherwise the sheet becomes the prefab `LoadSheet` produced and that pair is appended exactly once; the call succeeds iff the sheet (if any) loads and the render's reference (if any) resolves against the grown registry, which is the handle then stored; a render miss fails with `SheetNotFound` of the render's own reference and leaves the render as declared; an absent render stays absent; the result is true iff the sheet was a definition; the transform is untouched |
| SpritePrefab.SceneRenderFindsOwnSheetByIndex | amethyst_rendy/src/sprite/prefab.rs:238-250 | a render referring to `Index(old length)` resolves to the scene's own sheet |
| SpritePrefab.SceneRenderFindsOwnSheetByName | amethyst_rendy/src/sprite/prefab.rs:238-250 | a render referring to the sheet's own name resolves to it when no earlier entry has that name |
| SpritePrefab.SceneLoadTwicePushesTwice | amethyst_rendy/src/sprite/prefab.rs:238-246 | a second load reports false but pushes the same pair again, so the registry holds it twice |
| SpritePrefab.SceneAddToEntity | amethyst_rendy/src/sprite/prefab.rs:216-230 | the render goes first and a render error returns before the transform is touched; absent parts are skipped and leave their storage alone; the call returns `Ok(())` iff every present part can be written (a render with a handle on a live entity, a transform on a live entity), and each present part is then written; a transform on a dead entity fails with that entity and leaves the transforms untouched; no storage gains or loses live entities |
| SpritePrefab.SceneLoadThenAdd | amethyst_rendy/src/sprite/prefab.rs:216-252 | after both phases, the entity's sprite render points at the handle under which the loader stored the scene's own sheet, with the declared sprite number |
| Ranges.NextRange | amethyst_rendy/src/util.rs:20-23 | the next range starts where the previous one ends and has the requested length |
| Ranges.OptRange | amethyst_rendy/src/util.rs:25-28 | both bounds are wrapped in `Some`, and unwrapping them gives back the range |
| Ranges.ChainRanges | amethyst_rendy/src/util.rs:21-22 | chained `next_range` calls give contiguous blocks of the requested lengths that end at the start plus the total length |
| Buffers.NextPowerOfTwo | amethyst_rendy/src/util.rs:43 | the least power of two that is at least `n`, which fits in a u64 |
| Buffers.EnsureBuffer | amethyst_rendy/src/util.rs:35-56 | reallocates iff the current size (0 when absent) is below `min_size`; the new size is the least power of two at least `min_size`; otherwise the buffer is untouched |
| Buffers.EnsureBufferSettles | amethyst_rendy/src/util.rs:42-55 | once ensured for a size, a buffer is not reallocated for that size or any smaller one |
| Buffers.AlignSize | amethyst_rendy/src/util.rs:58-64 | the result is a multiple of `align` that lies in `[size, size + align)` |
| Buffers.AlignSizeIsLeast | amethyst_rendy/src/util.rs:62-63 | no smaller multiple of `align` holds the array |
| VertexLayout.PushVertexDesc | amethyst_rendy/src/util.rs:112-137 | appends one buffer bound at the old buffer count with the given stride and rate, and one attribute per element, in order, on consecutive locations from the last location + 1 (0 when empty); earlier entries are unchanged |
| VertexLayout.VertexDesc | amethyst_rendy/src/util.rs:97-110 | one buffer per format, buffer `i` bound at `i`; the attributes are all elements of all formats in order, at locations 0, 1, 2, ..., each bound to its format's buffer |
| VertexLayout.DescribedStep | amethyst_rendy/src/util.rs:102-108 | pushing format `n` onto a description of the first `n` formats keeps every earlier attribute and buffer and describes the first `n + 1` formats |
| DescriptorLayout.SetLayoutBindings | amethyst_rendy/src/util.rs:164-181 | as many entries as the sum of `times`; entry `k` has binding `k`, count 1 and no immutable samplers |
| DescriptorLayout.ExpandBlock | amethyst_rendy/src/util.rs:169 | copy `j` of group `i` sits right after the copies of all earlier groups |
| DescriptorLayout.SetLayoutBindingsBlock | amethyst_rendy/src/util.rs:164-181 | each group's copies are consecutive, in input order, and carry the group's type and stage flags |
| DescriptorLayout.SetLayoutBindingsOwner | amethyst_rendy/src/util.rs:167-170 | every entry is a copy of some input group: entry `k` is copy `j` of group `i` for some `i` and some `j` below that group's count |
| DescriptorLayout.SetLayoutBindingsOwnerUnique | amethyst_rendy/src/util.rs:167-170 | no entry is a copy of two groups: two (group, copy) positions that land on the same entry are equal, so with the lemma above every entry has exactly one owner |
| Lookup.ValidBackwardDistinct | amethyst_rendy/src/util.rs:184-187 | a consistent table lists no id twice, and the ids it numbers are exactly those in `backward` |
| Lookup.New | amethyst_rendy/src/util.rs:190-195 | the new table is empty and consistent |
| Lookup.Forward | amethyst_rendy/src/util.rs:197-206 | a known id gives its stored number and leaves the table unchanged; a new id is appended to `backward` and gets the old length; `backward` at the returned number is the id; consistency is kept |
| Lookup.ForwardIdempotent | amethyst_rendy/src/util.rs:198-199 | asking for the same id again returns the same number and changes nothing |
| Lookup.ForwardAll | amethyst_rendy/src/util.rs:197-206 | interning a sequence numbers equal ids equally and different ids differently; `backward` lists the ids in order of first occurrence |
| TapCount.Next | amethyst_rendy/src/util.rs:256-259 | every call adds one to the counter, also when it yields nothing, and yields the inner front item unchanged |
| TapCount.NextBack | amethyst_rendy/src/util.rs:266-269 | every call adds one to the counter, also when it yields nothing, and yields the inner back item unchanged |
| TapCount.Collect | amethyst_rendy/src/util.rs:254-263 | draining the adaptor yields the inner items in order, and the counter grows by their number plus one for the final `None` |
| TapCount.DriveCountsCalls | amethyst_rendy/src/util.rs:254-270 | any mix of front and back calls raises the counter by exactly the number of calls, and leaves a contiguous middle part of the items |

## Left out

- Sprite grid and list layout (`SpriteGrid`, `SpriteList`, `Sprites::build_sprites`) are not part of this model. Their definitions live elsewhere in the crate, and they compute `f32` texture coordinates. Sprite blocks are kept as declared.
- `TexturePrefab::load_sub_assets` is a parameter of the model: an oracle from the texture definition to a texture id or an error message. Its effect on the texture field of a failed sheet load is not modelled.
- `ProgressCounter`, `AssetStorage` internals, logging (`log::trace!`) and serde (de)serialisation are left out. The core only passes them through.
- `Transform::add_to_entity` is modelled as a plain storage insert. Its own behaviour belongs to `amethyst_core`.
- The error values are a datatype, not the source's formatted message strings.
- The thin gfx-hal/rendy wrappers are left out: `simple_shader_set`, `simple_shader_set_ext`, `desc_write`, `texture_desc` and `VertexFormat::gfx_vertex_input_desc`. A vertex format is given directly as its element list and stride.
- `slice_as_bytes` and `write_into_slice` are left out. They reinterpret memory through an unsafe pointer cast.
- `usize_range` is left out. It is a platform-width `as` cast.
- `TapCountIterator::size_hint` and `ExactSizeIterator::len` are not modelled as separate members. They return the inner iterator's values unchanged.
- EnsureBuffer: models only the size decision. A failing `Factory::create_buffer`, and the buffer's usage and memory flags, are outside the model.
- EnsureBuffer: `min_size` above 2^63 is excluded by a precondition, because `next_power_of_two` overflows there (panic in a debug build).
- NextPowerOfTwo: only arguments up to 2^63 are covered, because larger ones overflow `u64` in the source.
- AlignSize: requires that `size + align - 1` fits in a `u64`, because the source's arithmetic would overflow otherwise.
- PushVertexDesc: requires that the `u32` location counter does not overflow.
- VertexDesc: requires that the total element count fits in a `u32` location.
- NextRange: ranges are over unbounded integers, so the overflow of `prev.end + length` is not modelled.
- TapCount.Next: the counter is an unbounded natural number. A `PrimInt` counter's overflow panic in a debug build is not modelled.
- SpritePrefab.LoadRender: a render prefab without a sheet reference is excluded by a precondition. The source unwraps it and panics.
