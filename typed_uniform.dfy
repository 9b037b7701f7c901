/**
 * The typed uniform record of the metadata-driven revision: default slider
 * ranges, per-uniform display metadata (a bool uniform has a label only,
 * a numeric one also a range), and the uniform itself with its elements.
 */
module TypedUniform {

  const DEFAULT_FLOAT_SLIDER_MIN: real := 0.0
  const DEFAULT_FLOAT_SLIDER_MAX: real := 100.0

  const DEFAULT_INT_SLIDER_MIN: int := 0
  const DEFAULT_INT_SLIDER_MAX: int := 100

  /** `UniformMetadata<GLboolean>`: the specialisation carries a name only. */
  datatype BoolUniformMetadata = BoolUniformMetadata(name: string)

  /** `UniformMetadata<T>` for a numeric `T`. */
  datatype UniformMetadata<T> = UniformMetadata(name: string, min: T, max: T)

  /** `Uniform<T>`, generic over the metadata record `M` that goes with `T`. */
  datatype Uniform<T, M> = Uniform(location: int, elements: seq<T>, metadata: M)

  /** Both default slider ranges are the interval [0, 100], the float one as reals. */
  lemma DefaultSliderRanges()
    ensures DEFAULT_FLOAT_SLIDER_MIN == DEFAULT_INT_SLIDER_MIN as real
    ensures DEFAULT_FLOAT_SLIDER_MAX == DEFAULT_INT_SLIDER_MAX as real
    ensures DEFAULT_INT_SLIDER_MIN == 0 && DEFAULT_INT_SLIDER_MAX == 100
    ensures DEFAULT_FLOAT_SLIDER_MIN == 0.0 && DEFAULT_FLOAT_SLIDER_MAX == 100.0
  {
  }

  /** `UniformMetadata<GLint>{}`: empty name, range value-initialised to zero. */
  function DefaultIntMetadata(): (m: UniformMetadata<int>)
    ensures m.name == "" && m.min == 0 && m.max == 0
  {
    UniformMetadata("", 0, 0)
  }

  /** `UniformMetadata<GLfloat>{}`: empty name, range value-initialised to zero. */
  function DefaultFloatMetadata(): (m: UniformMetadata<real>)
    ensures m.name == "" && m.min == 0.0 && m.max == 0.0
  {
    UniformMetadata("", 0.0, 0.0)
  }

  /** `UniformMetadata<GLboolean>{}`: an empty name and nothing else. */
  function DefaultBoolMetadata(): (m: BoolUniformMetadata)
    ensures m.name == ""
  {
    BoolUniformMetadata("")
  }

  /** `Uniform()`: location -1, no elements, the metadata's default. */
  function DefaultUniform<T, M>(defaultMetadata: M): (u: Uniform<T, M>)
    ensures u.location == -1 && u.elements == [] && u.metadata == defaultMetadata
  {
    Uniform(-1, [], defaultMetadata)
  }

  /**
   * `Uniform(size, values, location, metadata)`: the elements are the given
   * values; `size` is accepted and not used.
   */
  function MakeUniform<T, M>(size: nat, values: seq<T>, location: int, metadata: M): (u: Uniform<T, M>)
    ensures u.elements == values && u.location == location && u.metadata == metadata
  {
    Uniform(location, values, metadata)
  }

  /** The size argument never changes the constructed uniform. */
  lemma MakeUniformIgnoresSize<T, M>(size1: nat, size2: nat, values: seq<T>, location: int, metadata: M)
    ensures MakeUniform(size1, values, location, metadata) == MakeUniform(size2, values, location, metadata)
  {
  }
}
