/**
 * The metadata-driven manager: it owns the default vertex shader and the
 * current wallpaper program, and loads a wallpaper file as one transaction:
 * split the file into metadata and shader text, compile the fragment
 * shader, parse the metadata when there is any, link and validate a new
 * program, and only then replace the old program, the metadata, the
 * uniform map and the built-in locations. A step that fails leaves the
 * manager as it was and deletes what the transaction created.
 *
 * yaml-cpp is an input: `YamlOutcome` says which of the loader's branches
 * the library drives it into. `ParseWallpaperMetadata` has no return
 * statement after its `try` block, so its result on the paths that do not
 * fail is undefined; `undefinedReturn` stands for whatever value the
 * caller then sees.
 */
module Wallpaper {
  import opened Wrappers
  import opened GLDriver
  import opened Text
  import opened WallpaperTypes
  import opened Reflection
  import opened WallpaperSource

  /** The branch yaml-cpp drives the metadata loader into. */
  datatype YamlOutcome =
    | NameFound(name: string)   // `node["name"].as<std::string>()` yields a string
    | KeyNotFound               // `YAML::KeyNotFound` raised inside the try block
    | BadConversion             // `YAML::BadConversion` raised inside the try block
    | LoadFailure               // any other `YAML::Exception` (from `YAML::Load` or elsewhere)

  /** What a call of the metadata loader gives its caller: a result and the metadata, or an exception. */
  datatype MetadataResult = Returned(ok: bool, metadata: WallpaperMetadata) | Threw

  /**
   * `ParseWallpaperMetadata`: only a bad conversion returns a defined value
   * (false); the name and key-not-found paths fall off the end of the
   * function, and other YAML exceptions escape to the caller.
   */
  function ParseWallpaperMetadata(yaml: YamlOutcome, undefinedReturn: bool, metadata: WallpaperMetadata): (r: MetadataResult)
    ensures r.Threw? <==> yaml.LoadFailure?
    ensures yaml.BadConversion? ==> r == Returned(false, metadata)
    ensures r.Returned? && r.ok ==> undefinedReturn && !yaml.BadConversion?
    ensures yaml.NameFound? ==> r.Returned? && r.metadata.name == yaml.name
    ensures yaml.KeyNotFound? ==> r.Returned? && r.metadata.name == ""
  {
    match yaml
    case NameFound(name) => Returned(undefinedReturn, metadata.(name := name))
    case KeyNotFound => Returned(undefinedReturn, metadata.(name := ""))
    case BadConversion => Returned(false, metadata)
    case LoadFailure => Threw
  }

  /**
   * The metadata the transaction goes on with, or None when the metadata
   * step aborts it. An empty metadata text is not parsed at all.
   */
  function MetadataFor(text: string, yaml: YamlOutcome, undefinedReturn: bool): (r: Option<WallpaperMetadata>)
    ensures text == "" ==> r == Some(EmptyMetadata())
    ensures text != "" && r.Some? ==> undefinedReturn && (yaml.NameFound? || yaml.KeyNotFound?)
  {
    if text == "" then Some(EmptyMetadata())
    else match ParseWallpaperMetadata(yaml, undefinedReturn, EmptyMetadata())
      case Threw => None
      case Returned(ok, metadata) => if ok then Some(metadata) else None
  }

  /** How a load transaction ends: nothing adopted, or a new program with this metadata. */
  datatype LoadOutcome = Rejected | Adopted(metadata: WallpaperMetadata)

  /**
   * The metadata a load transaction carries into linking, or None when it
   * stops before: the file cannot be split, the fragment shader does not
   * compile, or the metadata step aborts.
   */
  function PreparedMetadata(file: Option<string>, fragmentCompiles: bool, yaml: YamlOutcome, undefinedReturn: bool): Option<WallpaperMetadata>
  {
    match SplitWallpaperFile(file)
    case None => None
    case Some(sources) =>
      if !fragmentCompiles then None
      else MetadataFor(sources.metadataYamlSource, yaml, undefinedReturn)
  }

  /** The decision `TrySetWallpaper` takes: adopt the prepared metadata when the new program validates. */
  function LoadOutcomeOf(file: Option<string>, fragmentCompiles: bool, yaml: YamlOutcome, undefinedReturn: bool, validates: bool): LoadOutcome
  {
    match PreparedMetadata(file, fragmentCompiles, yaml, undefinedReturn)
    case None => Rejected
    case Some(metadata) => if validates then Adopted(metadata) else Rejected
  }

  /** The metadata text of a readable wallpaper file: its metadata-section lines, each with "\n". */
  function MetadataText(text: string): string
  {
    JoinLines(Selected(Lines(text), METADATA))
  }

  /**
   * A wallpaper is adopted exactly when the file can be read and holds a
   * shader marker, the fragment shader compiles, the program validates,
   * and either there is no metadata text or the metadata loader reaches
   * the end of its try block and the caller happens to see true.
   */
  lemma AdoptedExactly(file: Option<string>, fragmentCompiles: bool, yaml: YamlOutcome, undefinedReturn: bool, validates: bool)
    ensures LoadOutcomeOf(file, fragmentCompiles, yaml, undefinedReturn, validates).Adopted? <==>
      file.Some? && HasShaderMarker(Lines(file.value)) && fragmentCompiles && validates &&
      (MetadataText(file.value) == "" || (undefinedReturn && (yaml.NameFound? || yaml.KeyNotFound?)))
  {
    SplitWallpaperFileSpec(file);
  }

  /**
   * With no metadata section text the YAML library is never consulted:
   * the outcome does not depend on it and the adopted name is empty.
   */
  lemma EmptyMetadataSkipsYaml(file: Option<string>, fragmentCompiles: bool, validates: bool,
                               yaml1: YamlOutcome, undefined1: bool, yaml2: YamlOutcome, undefined2: bool)
    requires file.Some? && MetadataText(file.value) == ""
    ensures LoadOutcomeOf(file, fragmentCompiles, yaml1, undefined1, validates) ==
            LoadOutcomeOf(file, fragmentCompiles, yaml2, undefined2, validates)
    ensures LoadOutcomeOf(file, fragmentCompiles, yaml1, undefined1, validates).Adopted? ==>
            LoadOutcomeOf(file, fragmentCompiles, yaml1, undefined1, validates).metadata.name == ""
  {
    SplitWallpaperFileSpec(file);
  }

  /** When the metadata text is non-empty, a named wallpaper is adopted with exactly that name. */
  lemma AdoptedName(file: Option<string>, fragmentCompiles: bool, name: string, undefinedReturn: bool, validates: bool)
    requires file.Some? && MetadataText(file.value) != ""
    requires LoadOutcomeOf(file, fragmentCompiles, NameFound(name), undefinedReturn, validates).Adopted?
    ensures LoadOutcomeOf(file, fragmentCompiles, NameFound(name), undefinedReturn, validates).metadata.name == name
  {
    SplitWallpaperFileSpec(file);
  }

  class WallpaperManager {
    var shaderProgramId: nat
    var vertexShader: nat
    var uniforms: map<string, Uniform>
    var builtinLocations: BuiltinUniformsLocations
    var metadata: WallpaperMetadata
    var hasWallpaper: bool

    /** The manager's handles are 0 or live objects of the context it owns them in. */
    ghost predicate Owns(gl: GLContext)
      reads this, gl
    {
      gl.Valid() &&
      (shaderProgramId == 0 || shaderProgramId in gl.programs) &&
      (vertexShader == 0 || vertexShader in gl.shaders)
    }

    /** The member initialisers, before the constructor body runs. */
    constructor Init()
      ensures shaderProgramId == 0 && vertexShader == 0
      ensures uniforms == map[] && builtinLocations == DefaultBuiltinLocations()
      ensures metadata == EmptyMetadata() && !hasWallpaper
    {
      shaderProgramId := 0;
      vertexShader := 0;
      uniforms := map[];
      builtinLocations := DefaultBuiltinLocations();
      metadata := EmptyMetadata();
      hasWallpaper := false;
    }

    /**
     * `LoadVertexShader`: an unreadable default vertex shader file throws;
     * otherwise the shader is compiled, and kept only when it compiles
     * (on failure the handle stays 0).
     */
    method LoadVertexShader(vertexFile: Option<string>, compiles: bool, gl: GLContext) returns (threw: bool)
      requires Owns(gl)
      modifies this`vertexShader, gl
      ensures Owns(gl)
      ensures threw <==> vertexFile.None?
      ensures gl.programs == old(gl.programs) && gl.textures == old(gl.textures) && gl.calls == old(gl.calls)
      ensures !threw && compiles ==>
        vertexShader !in old(gl.shaders) && gl.shaders == old(gl.shaders) + {vertexShader}
      ensures threw || !compiles ==> vertexShader == old(vertexShader) && gl.shaders == old(gl.shaders)
    {
      if vertexFile.None? {
        return true;
      }
      var ok, id := CompileShader(gl, compiles);
      if ok {
        vertexShader := id;
      }
      return false;
    }

    /**
     * `WallpaperManager()`: a fresh manager whose vertex shader is loaded;
     * null stands for the exception thrown when the file cannot be read.
     */
    static method Create(vertexFile: Option<string>, compiles: bool, gl: GLContext) returns (m: WallpaperManager?)
      requires gl.Valid()
      modifies gl
      ensures m == null <==> vertexFile.None?
      ensures m != null ==> fresh(m) && m.Owns(gl)
      ensures m != null ==> m.shaderProgramId == 0 && m.uniforms == map[] && !m.hasWallpaper
      ensures m != null ==> m.metadata == EmptyMetadata() && m.builtinLocations == DefaultBuiltinLocations()
      ensures m != null ==> (m.vertexShader != 0 <==> compiles)
      ensures gl.programs == old(gl.programs) && gl.calls == old(gl.calls)
    {
      m := new WallpaperManager.Init();
      var threw := m.LoadVertexShader(vertexFile, compiles, gl);
      if threw {
        m := null;
      }
    }

    /** `~WallpaperManager()`: both handles are released. */
    method Dispose(gl: GLContext)
      requires Owns(gl)
      modifies gl
      ensures gl.Valid()
      ensures gl.shaders == old(gl.shaders) - {vertexShader}
      ensures gl.programs == old(gl.programs) - {shaderProgramId}
      ensures gl.textures == old(gl.textures) && gl.calls == old(gl.calls)
    {
      gl.DeleteShader(vertexShader);
      gl.DeleteProgram(shaderProgramId);
    }

    /**
     * `ParseWallpaperSource`: the `getline` loop over the file's lines with
     * the current section, the shader flag and the two section buffers.
     * The result is the splitter's (None: the file cannot be opened or has
     * no shader marker), and the outputs are the lines each section
     * selects, each followed by "\n".
     */
    method ParseWallpaperSource(file: Option<string>) returns (r: Option<WallpaperSources>)
      ensures r == SplitWallpaperFile(file)
      ensures r.Some? <==> file.Some? && HasShaderMarker(Lines(file.value))
      ensures r.Some? ==>
        r.value.metadataYamlSource == JoinLines(Selected(Lines(file.value), METADATA)) &&
        r.value.fragmentShaderSource == JoinLines(Selected(Lines(file.value), SHADER))
    {
      SplitWallpaperFileSpec(file);
      if file.None? {
        return None;
      }
      var lines := Lines(file.value);
      var section := NONE;
      var foundShader := false;
      var buffers := ["", ""];
      var i := 0;
      while i < |lines|
        invariant 0 <= i <= |lines|
        invariant Scan(lines[..i]) == ScanState(section, foundShader, buffers)
      {
        var line := lines[i];
        if Find(line, "#section") != -1 {
          if Find(line, "metadata") != -1 {
            section := METADATA;
          } else if Find(line, "shader") != -1 {
            foundShader := true;
            section := SHADER;
          }
        } else if section != NONE {
          var k := BufferIndex(section);
          buffers := buffers[k := buffers[k] + line + "\n"];
        }
        assert lines[..i + 1][..i] == lines[..i];
        i := i + 1;
      }
      assert lines[..i] == lines;
      if !foundShader {
        return None;
      }
      return Some(SourcesOf(buffers));
    }

    /**
     * The clear-and-rebuild part of `TrySetWallpaper`: the uniform map and
     * the built-in locations start afresh, each active uniform is
     * classified, `iResolution` gets the window size written to it, and
     * every other call the loop makes is a query.
     */
    method RebuildUniforms(active: seq<ActiveUniform>, locations: map<string, int>, dims: WindowDimensions, gl: GLContext)
      modifies this`uniforms, this`builtinLocations, gl`calls
      ensures uniforms == ReflectUniforms(active, LookedUp(locations))
      ensures builtinLocations == ReflectBuiltins(DefaultBuiltinLocations(), active, locations)
      ensures gl.calls == old(gl.calls) + ResolutionCalls(active, locations, dims)
    {
      uniforms := map[];
      builtinLocations := DefaultBuiltinLocations();
      var i := 0;
      while i < |active|
        invariant 0 <= i <= |active|
        invariant uniforms == ReflectUniforms(active[..i], LookedUp(locations))
        invariant builtinLocations == ReflectBuiltins(DefaultBuiltinLocations(), active[..i], locations)
        invariant gl.calls == old(gl.calls) + ResolutionCalls(active[..i], locations, dims)
      {
        ReflectPrefixStep(active, i, LookedUp(locations), DefaultBuiltinLocations(), locations, dims);
        ReflectOneUniform(active[i], i, locations, dims, gl);
        i := i + 1;
      }
      assert active[..i] == active;
    }

    /**
     * One iteration of the reflection loop: `iResolution` gets the window
     * size, `iTime` and `iMouse` have their locations recorded, and any
     * other handled type is inserted under its looked-up location unless
     * the name is already present.
     */
    method ReflectOneUniform(a: ActiveUniform, i: nat, locations: map<string, int>, dims: WindowDimensions, gl: GLContext)
      modifies this`uniforms, this`builtinLocations, gl`calls
      ensures uniforms == ReflectOne(old(uniforms), a, i, LookedUp(locations))
      ensures builtinLocations == BuiltinsOne(old(builtinLocations), a, locations)
      ensures gl.calls == old(gl.calls) + ResolutionOne(a, locations, dims)
    {
      if a.name == "iResolution" && a.glType == GL_FLOAT_VEC2 {
        gl.Issue(UniformFloats(UniformLocation(locations, "iResolution"), [dims.width as real, dims.height as real]));
      } else if a.name == "iTime" && a.glType == GL_FLOAT {
        builtinLocations := builtinLocations.(time := UniformLocation(locations, "iTime"));
      } else if a.name == "iMouse" && a.glType == GL_FLOAT_VEC2 {
        builtinLocations := builtinLocations.(mousePos := UniformLocation(locations, "iMouse"));
      } else {
        match DescriptorShape(a.glType)
        case Some(shape) =>
          var storage :=
            if shape.kind == IntKind then IntVar(Components(a.readInts, shape.components, 0))
            else FloatVar(Components(a.readFloats, shape.components, 0.0));
          if a.name !in uniforms {
            uniforms := uniforms[a.name := Uniform(UniformLocation(locations, a.name), a.glType, storage)];
          }
        case None =>
      }
    }

    /**
     * The steps of `TrySetWallpaper` before linking: split the file, compile
     * the fragment shader and parse the metadata text when there is one.
     * When a step fails, the fragment shader, if it was created, is deleted
     * again; otherwise it is alive and owned by the caller.
     */
    method PrepareFragment(file: Option<string>, fragmentCompiles: bool, yaml: YamlOutcome, undefinedReturn: bool, gl: GLContext)
      returns (prepared: Option<WallpaperMetadata>, fragmentShader: nat)
      requires gl.Valid()
      modifies gl
      ensures gl.Valid()
      ensures prepared == PreparedMetadata(file, fragmentCompiles, yaml, undefinedReturn)
      ensures prepared.Some? ==>
        fragmentShader != 0 && fragmentShader !in old(gl.shaders) &&
        fragmentShader !in old(gl.programs) && gl.shaders == old(gl.shaders) + {fragmentShader}
      ensures prepared.None? ==> gl.shaders == old(gl.shaders)
      ensures gl.programs == old(gl.programs) && gl.textures == old(gl.textures) && gl.calls == old(gl.calls)
    {
      var sources := ParseWallpaperSource(file);
      if sources.None? {
        return None, 0;
      }

      var compiled, created := CompileShader(gl, fragmentCompiles);
      if !compiled {
        return None, 0;
      }
      fragmentShader := created;

      var parsedMetadata := EmptyMetadata();
      if sources.value.metadataYamlSource != "" {
        match ParseWallpaperMetadata(yaml, undefinedReturn, parsedMetadata)
        case Threw =>
          gl.DeleteShader(fragmentShader);
          return None, 0;
        case Returned(metadataParsed, m) =>
          if !metadataParsed {
            gl.DeleteShader(fragmentShader);
            return None, 0;
          }
          parsedMetadata := m;
      }
      return Some(parsedMetadata), fragmentShader;
    }

    /**
     * The commit point of `TrySetWallpaper`: the old program is deleted, the
     * fragment shader is released (the program keeps what it linked), the
     * new program becomes the manager's and the current one, and the
     * parsed metadata is adopted.
     */
    method SwapProgram(program: nat, fragmentShader: nat, parsed: WallpaperMetadata, gl: GLContext)
      requires Owns(gl) && program in gl.programs && program != shaderProgramId && fragmentShader != vertexShader
      modifies this`shaderProgramId, this`metadata, gl
      ensures Owns(gl)
      ensures shaderProgramId == program && metadata == parsed
      ensures gl.programs == old(gl.programs) - {old(shaderProgramId)}
      ensures gl.shaders == old(gl.shaders) - {fragmentShader} && gl.textures == old(gl.textures)
      ensures gl.calls == old(gl.calls) + [UseProgram(program)]
    {
      gl.DeleteProgram(shaderProgramId);
      gl.DeleteShader(fragmentShader);
      shaderProgramId := program;
      gl.Issue(UseProgram(shaderProgramId));
      metadata := parsed;
    }

    /**
     * `TrySetWallpaper`. The driver's answers are parameters: whether the
     * fragment shader compiles, whether the new program validates, its
     * active uniforms in index order and `glGetUniformLocation`.
     *
     * Rejected: every field is as before, and the context's shaders and
     * programs are as before (the fragment shader and the new program are
     * deleted again); no call is issued. Adopted: the old program is
     * replaced by a fresh one that is made current, the fragment shader is
     * released, the metadata is the parsed one, and the uniform map and the
     * built-in locations are rebuilt from scratch by reflection.
     */
    method TrySetWallpaper(file: Option<string>, dims: WindowDimensions,
                           fragmentCompiles: bool, yaml: YamlOutcome, undefinedReturn: bool, validates: bool,
                           active: seq<ActiveUniform>, locations: map<string, int>, gl: GLContext)
      requires Owns(gl)
      modifies this, gl
      ensures Owns(gl)
      ensures vertexShader == old(vertexShader)
      ensures gl.shaders == old(gl.shaders) && gl.textures == old(gl.textures)
      ensures LoadOutcomeOf(file, fragmentCompiles, yaml, undefinedReturn, validates).Rejected? ==>
        shaderProgramId == old(shaderProgramId) && uniforms == old(uniforms) &&
        builtinLocations == old(builtinLocations) && metadata == old(metadata) &&
        hasWallpaper == old(hasWallpaper) &&
        gl.programs == old(gl.programs) && gl.calls == old(gl.calls)
      ensures LoadOutcomeOf(file, fragmentCompiles, yaml, undefinedReturn, validates).Adopted? ==>
        shaderProgramId != 0 && shaderProgramId !in old(gl.programs) &&
        gl.programs == old(gl.programs) - {old(shaderProgramId)} + {shaderProgramId} &&
        metadata == LoadOutcomeOf(file, fragmentCompiles, yaml, undefinedReturn, validates).metadata &&
        uniforms == ReflectUniforms(active, LookedUp(locations)) &&
        builtinLocations == ReflectBuiltins(DefaultBuiltinLocations(), active, locations) &&
        hasWallpaper &&
        gl.calls == old(gl.calls) + [UseProgram(shaderProgramId)] + ResolutionCalls(active, locations, dims)
    {
      var prepared, fragmentShader := PrepareFragment(file, fragmentCompiles, yaml, undefinedReturn, gl);
      if prepared.None? {
        return;
      }
      assert LoadOutcomeOf(file, fragmentCompiles, yaml, undefinedReturn, validates) ==
        if validates then Adopted(prepared.value) else Rejected;

      var program := gl.CreateProgram();
      if !validates {
        gl.DeleteProgram(program);
        gl.DeleteShader(fragmentShader);
        return;
      }

      Adopt(program, fragmentShader, prepared.value, active, locations, dims, gl);
    }

    /**
     * The success path of `TrySetWallpaper` once the new program has
     * validated: swap it in, rebuild the uniforms and mark the wallpaper set.
     */
    method Adopt(program: nat, fragmentShader: nat, parsed: WallpaperMetadata,
                 active: seq<ActiveUniform>, locations: map<string, int>, dims: WindowDimensions, gl: GLContext)
      requires Owns(gl) && program in gl.programs && program != shaderProgramId && fragmentShader != vertexShader
      modifies this`shaderProgramId, this`metadata, this`uniforms, this`builtinLocations, this`hasWallpaper, gl
      ensures Owns(gl)
      ensures shaderProgramId == program && metadata == parsed && hasWallpaper
      ensures uniforms == ReflectUniforms(active, LookedUp(locations))
      ensures builtinLocations == ReflectBuiltins(DefaultBuiltinLocations(), active, locations)
      ensures gl.programs == old(gl.programs) - {old(shaderProgramId)}
      ensures gl.shaders == old(gl.shaders) - {fragmentShader} && gl.textures == old(gl.textures)
      ensures gl.calls == old(gl.calls) + [UseProgram(program)] + ResolutionCalls(active, locations, dims)
    {
      SwapProgram(program, fragmentShader, parsed, gl);
      RebuildUniforms(active, locations, dims, gl);
      hasWallpaper := true;
    }
  }
}
