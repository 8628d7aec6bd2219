/**
 * The texture registry of `Drawer`: an append-only list of entries
 * addressed by dense 1-based handles (src/lib.rs:58-61, 106-121, 208-214),
 * and the sampler a draw binds for an entry (src/lib.rs:176-182).
 */
module Registry {
  import opened Wrappers

  datatype MagnifyFilter = MagNearest | MagLinear
  datatype MinifyFilter =
    | MinNearest | MinLinear
    | NearestMipmapNearest | LinearMipmapNearest | NearestMipmapLinear | LinearMipmapLinear

  /**
   * The fields of glium's `SamplerBehavior` other than the two filters
   * (wrap mode, anisotropy, depth comparison), kept abstract: either the
   * library's defaults or some configured combination.
   */
  datatype SamplerExtras = LibraryDefaults | Configured(code: nat)

  datatype SamplerPolicy = SamplerPolicy(magnify: MagnifyFilter, minify: MinifyFilter, extras: SamplerExtras)

  /** `ptr.sampled().magnify_filter(Linear).minify_filter(Nearest)`. */
  const DEFAULT_SAMPLER: SamplerPolicy := SamplerPolicy(MagLinear, MinNearest, LibraryDefaults)

  /** A GPU texture, as an opaque token. */
  type GpuTexture = nat

  /** `TextureEntry`: the texture and its optional sampler override. */
  datatype Entry = Entry(texture: GpuTexture, sampler: Option<SamplerPolicy>)

  const I32_MAX: int := 0x7FFF_FFFF
  const TWO_TO_32: int := 0x1_0000_0000

  /** Rust's `as i32` on an integer: keep the low 32 bits, read them as two's complement. */
  function AsI32(n: int): (r: int)
    ensures -I32_MAX - 1 <= r <= I32_MAX
    ensures -I32_MAX - 1 <= n <= I32_MAX ==> r == n
  {
    var m := n % TWO_TO_32;
    if m <= I32_MAX then m else m - TWO_TO_32
  }

  /**
   * The handle `add_texture` returns when the registry holds `len` entries:
   * `len as i32 + 1`, with the addition wrapping as in a release build.
   * Below the i32 limit it is the successor of `len`: handles are 1-based
   * and dense.
   */
  function NextHandle(len: nat): (hnd: int)
    ensures -I32_MAX - 1 <= hnd <= I32_MAX
    ensures len < I32_MAX ==> hnd == len + 1
  {
    AsI32(AsI32(len) + 1)
  }

  /**
   * `find_tex_entry`: lookup accepts exactly the handles `1..=len` (so 0,
   * negative ids and `len + 1` resolve to nothing), and a resolved entry is
   * `tex[id - 1]`.
   */
  function FindTexEntry(tex: seq<Entry>, id: int): (r: Option<Entry>)
    ensures r.Some? <==> 0 < id <= |tex|
    ensures r.Some? ==> r.value == tex[id - 1]
  {
    if id > 0 && id <= |tex| then Some(tex[id - 1]) else None
  }

  /** The sampler a draw binds for an entry: its own policy, else the default. */
  function SamplerFor(e: Entry): (s: SamplerPolicy)
    ensures e.sampler.Some? ==> s == e.sampler.value
    ensures e.sampler.None? ==> s.magnify == MagLinear && s.minify == MinNearest
  {
    match e.sampler
    case Some(opts) => opts
    case None => DEFAULT_SAMPLER
  }

  /**
   * Handles are dense: while the registry is below the i32 limit, the ids
   * that resolve are exactly the handles issued for its entries, and the
   * handle issued for entry `k` resolves to that entry.
   */
  lemma ResolvesExactlyIssuedHandles(tex: seq<Entry>)
    requires |tex| <= I32_MAX
    ensures forall k :: 0 <= k < |tex| ==> FindTexEntry(tex, NextHandle(k)) == Some(tex[k])
    ensures forall id :: FindTexEntry(tex, id).Some? ==> exists k :: 0 <= k < |tex| && NextHandle(k) == id
  {
  }

  /**
   * Round trip: appending an entry and resolving the handle issued for it
   * gives back that entry, sampler included, and every id that resolved
   * before resolves to the same entry after.
   */
  lemma AddThenFind(tex: seq<Entry>, t: GpuTexture, s: Option<SamplerPolicy>)
    requires |tex| < I32_MAX
    ensures FindTexEntry(tex + [Entry(t, s)], NextHandle(|tex|)) == Some(Entry(t, s))
    ensures SamplerFor(FindTexEntry(tex + [Entry(t, s)], NextHandle(|tex|)).value) == if s.Some? then s.value else DEFAULT_SAMPLER
    ensures forall id :: FindTexEntry(tex, id).Some? ==> FindTexEntry(tex + [Entry(t, s)], id) == FindTexEntry(tex, id)
  {
  }

  /**
   * At the i32 limit the handle wraps to the most negative i32, which no
   * registry resolves: the 2^31-th texture gets an unusable handle.
   */
  lemma HandleWrapsAtI32Limit(tex: seq<Entry>)
    ensures NextHandle(I32_MAX) == -I32_MAX - 1
    ensures FindTexEntry(tex, NextHandle(I32_MAX)).None?
  {
  }
}
