/**
 * The value types declared next to the wallpaper manager: one reflected
 * uniform with its type-erased storage, the locations of the built-in
 * uniforms, the section a wallpaper file line belongs to, the two texts a
 * wallpaper file splits into, and the wallpaper's metadata.
 */
module WallpaperTypes {
  import opened GLDriver

  /**
   * What `std::any var` holds: a heap buffer of `GLint` (int and bool
   * uniforms) or of `GLfloat` (float uniforms). Float values are carried,
   * never computed with.
   */
  datatype UniformVar = IntVar(ints: seq<int>) | FloatVar(floats: seq<real>)
  {
    function Length(): nat
    {
      match this
      case IntVar(ints) => |ints|
      case FloatVar(floats) => |floats|
    }
  }

  /** One user-exposed uniform: where to push it, its GL type, its storage. */
  datatype Uniform = Uniform(location: int, glType: nat, storage: UniformVar)

  /** Locations of the per-frame built-in uniforms; -1 means absent. */
  datatype BuiltinUniformsLocations = BuiltinUniformsLocations(time: int, mousePos: int)

  /** Both locations start as `GL_INVALID_INDEX` cast to `GLint`, which is -1, the absent location. */
  function DefaultBuiltinLocations(): (b: BuiltinUniformsLocations)
    ensures b.time == -1 && b.mousePos == -1
  {
    BuiltinUniformsLocations(AsGLint(GL_INVALID_INDEX), AsGLint(GL_INVALID_INDEX))
  }

  /** The section a wallpaper file line is copied into. */
  datatype WallpaperSection = NONE | METADATA | SHADER
  {
    /** The enumerator's value. */
    function Value(): int
    {
      match this
      case NONE => -1
      case METADATA => 0
      case SHADER => 1
    }
  }

  /** The section buffer a line of `s` goes to; NONE has none. */
  function BufferIndex(s: WallpaperSection): (i: nat)
    requires s != NONE
    ensures i < 2 && i == s.Value()
    ensures (i == 0) == (s == METADATA)
  {
    if s == METADATA then 0 else 1
  }

  datatype WallpaperSources = WallpaperSources(metadataYamlSource: string, fragmentShaderSource: string)

  /**
   * The aggregate initialisation `{ ss[METADATA].str(), ss[SHADER].str() }`:
   * the first field receives the metadata buffer, the second the shader buffer.
   */
  function SourcesOf(buffers: seq<string>): (r: WallpaperSources)
    requires |buffers| == 2
    ensures r.metadataYamlSource == buffers[BufferIndex(METADATA)]
    ensures r.fragmentShaderSource == buffers[BufferIndex(SHADER)]
  {
    WallpaperSources(buffers[0], buffers[1])
  }

  datatype WallpaperMetadata = WallpaperMetadata(name: string)

  /** Value-initialised metadata, as `WallpaperMetadata mMetadata{}` leaves it. */
  function EmptyMetadata(): (m: WallpaperMetadata)
    ensures m.name == ""
  {
    WallpaperMetadata("")
  }
}
