/**
 * The earlier manager revision, which loads a bare fragment shader file.
 * It differs from the wallpaper manager in its failure behaviour: the
 * uniform map is emptied before anything is loaded, the old program is
 * deleted before the new one is validated (a program that fails
 * validation stays current), a descriptor's stored location is its
 * active-uniform index, and the built-in locations are never reset.
 */
module Shaders {
  import opened GLDriver
  import opened Text
  import opened WallpaperTypes
  import opened Reflection

  /** What opening a shader file gives: nothing, or the text read and whether the stream went bad. */
  datatype ShaderFile = Unopenable | Opened(text: string, streamBad: bool)

  /** `BuiltinUniformsLocationsStruct`: all three locations default to -1. */
  datatype BuiltinLocationsStruct = BuiltinLocationsStruct(time: int, resolution: int, mousePos: int)

  function DefaultBuiltinLocationsStruct(): (b: BuiltinLocationsStruct)
    ensures b.time == -1 && b.resolution == -1 && b.mousePos == -1
  {
    BuiltinLocationsStruct(-1, -1, -1)
  }

  /** Whether `LoadShader` succeeds: the file parses and the source compiles. */
  predicate LoadSucceeds(file: ShaderFile, compiles: bool)
  {
    file.Opened? && !file.streamBad && compiles
  }

  /**
   * The built-in locations after reflection from `b`: `iTime` and `iMouse`
   * as the reflection loop records them, `resolution` never written.
   */
  function ReflectedStruct(b: BuiltinLocationsStruct, active: seq<ActiveUniform>, locations: map<string, int>): (r: BuiltinLocationsStruct)
    ensures r.resolution == b.resolution
  {
    var t := ReflectBuiltins(BuiltinUniformsLocations(b.time, b.mousePos), active, locations);
    BuiltinLocationsStruct(t.time, b.resolution, t.mousePos)
  }

  /**
   * Reflection never resets a built-in location: with no active `iTime`
   * of type GL_FLOAT and no `iMouse` of type GL_FLOAT_VEC2 the previous
   * program's locations survive.
   */
  lemma BuiltinsNotReset(b: BuiltinLocationsStruct, active: seq<ActiveUniform>, locations: map<string, int>)
    requires forall i :: 0 <= i < |active| ==> !(active[i].name == "iTime" && active[i].glType == GL_FLOAT)
    requires forall i :: 0 <= i < |active| ==> !(active[i].name == "iMouse" && active[i].glType == GL_FLOAT_VEC2)
    ensures ReflectedStruct(b, active, locations) == b
  {
    ReflectedTime(BuiltinUniformsLocations(b.time, b.mousePos), active, locations);
    ReflectedMouse(BuiltinUniformsLocations(b.time, b.mousePos), active, locations);
  }

  /**
   * The stored location is an index, not a location: for a program whose
   * only active uniform is a float `speed` that the driver places at
   * location 3, the descriptor records location 0, so later pushes go to
   * location 0 instead of 3. Looking the name up, as the wallpaper manager
   * does, records 3.
   */
  lemma IndexIsNotLocation()
    ensures var active := [ActiveUniform("speed", GL_FLOAT, [], [])];
      var locations := map["speed" := 3];
      "speed" in ReflectUniforms(active, ActiveIndex) &&
      ReflectUniforms(active, ActiveIndex)["speed"].location == 0 &&
      ReflectUniforms(active, LookedUp(locations))["speed"].location == UniformLocation(locations, "speed") == 3
  {
    var active := [ActiveUniform("speed", GL_FLOAT, [], [])];
    assert active[..0] == [];
  }

  class ShaderManager {
    var shaderProgramId: nat
    var vertexShader: nat
    var uniforms: map<string, Uniform>
    var builtins: BuiltinLocationsStruct

    /** The program handle is 0 or a live program of the context. */
    ghost predicate Owns(gl: GLContext)
      reads this, gl
    {
      gl.Valid() && (shaderProgramId == 0 || shaderProgramId in gl.programs)
    }

    /** The member initialisers, before the constructor body runs. */
    constructor Init()
      ensures shaderProgramId == 0 && vertexShader == 0
      ensures uniforms == map[] && builtins == DefaultBuiltinLocationsStruct()
    {
      shaderProgramId := 0;
      vertexShader := 0;
      uniforms := map[];
      builtins := DefaultBuiltinLocationsStruct();
    }

    /**
     * `ParseShader`: the `getline` loop appends every line and a "\n". An
     * unopenable file fails with the output untouched (empty here); a
     * stream that went bad fails after the output is written.
     */
    method ParseShader(file: ShaderFile) returns (ok: bool, out: string)
      ensures ok <==> file.Opened? && !file.streamBad
      ensures file.Unopenable? ==> out == ""
      ensures file.Opened? ==> out == Normalised(file.text) && Lines(out) == Lines(file.text)
    {
      if file.Unopenable? {
        return false, "";
      }
      var lines := Lines(file.text);
      out := "";
      var i := 0;
      while i < |lines|
        invariant 0 <= i <= |lines|
        invariant out == JoinLines(lines[..i])
      {
        assert lines[..i + 1][..i] == lines[..i];
        out := out + lines[i] + "\n";
        i := i + 1;
      }
      assert lines[..i] == lines;
      JoinLinesOfLines(file.text);
      LinesOfJoinLines(lines);
      ok := !file.streamBad;
    }

    /**
     * `LoadShader`: parse, then compile. It succeeds exactly when both do;
     * a parse failure creates no shader object, a compile failure deletes
     * the one it created.
     */
    method LoadShader(file: ShaderFile, compiles: bool, gl: GLContext) returns (ok: bool, shader: nat)
      requires gl.Valid()
      modifies gl
      ensures gl.Valid()
      ensures ok <==> LoadSucceeds(file, compiles)
      ensures ok ==>
        shader != 0 && shader !in old(gl.shaders) && shader !in old(gl.programs) &&
        gl.shaders == old(gl.shaders) + {shader}
      ensures !ok ==> gl.shaders == old(gl.shaders)
      ensures gl.programs == old(gl.programs) && gl.textures == old(gl.textures) && gl.calls == old(gl.calls)
    {
      var parsed, source := ParseShader(file);
      if !parsed {
        return false, 0;
      }
      ok, shader := CompileShader(gl, compiles);
    }

    /**
     * `ShaderManager()`: null stands for the exception thrown when the
     * default vertex shader cannot be loaded.
     */
    static method Create(vertexFile: ShaderFile, compiles: bool, gl: GLContext) returns (m: ShaderManager?)
      requires gl.Valid()
      modifies gl
      ensures m == null <==> !LoadSucceeds(vertexFile, compiles)
      ensures m != null ==> fresh(m) && m.Owns(gl) && m.vertexShader in gl.shaders
      ensures m != null ==> m.shaderProgramId == 0 && m.uniforms == map[] && m.builtins == DefaultBuiltinLocationsStruct()
      ensures gl.programs == old(gl.programs) && gl.calls == old(gl.calls)
    {
      m := new ShaderManager.Init();
      var loaded, shader := m.LoadShader(vertexFile, compiles, gl);
      if !loaded {
        return null;
      }
      m.vertexShader := shader;
    }

    /** `~ShaderManager()`: both handles are released. */
    method Dispose(gl: GLContext)
      requires Owns(gl)
      modifies gl
      ensures gl.Valid()
      ensures gl.shaders == old(gl.shaders) - {vertexShader}
      ensures gl.programs == old(gl.programs) - {shaderProgramId}
      ensures gl.textures == old(gl.textures) && gl.calls == old(gl.calls)
    {
      gl.DeleteShader(vertexShader);
      gl.DeleteProgram(shaderProgramId);
    }

    /**
     * The reflection loop of `SetFragmentShader`, into the map emptied at
     * the start: descriptors are stored under the active-uniform index,
     * `iTime` and `iMouse` overwrite the built-in locations they find and
     * nothing resets the others.
     */
    method ReflectActive(active: seq<ActiveUniform>, locations: map<string, int>, dims: WindowDimensions, gl: GLContext)
      requires uniforms == map[]
      modifies this`uniforms, this`builtins, gl`calls
      ensures uniforms == ReflectUniforms(active, ActiveIndex)
      ensures builtins == ReflectedStruct(old(builtins), active, locations)
      ensures gl.calls == old(gl.calls) + ResolutionCalls(active, locations, dims)
    {
      var i := 0;
      while i < |active|
        invariant 0 <= i <= |active|
        invariant uniforms == ReflectUniforms(active[..i], ActiveIndex)
        invariant builtins == ReflectedStruct(old(builtins), active[..i], locations)
        invariant gl.calls == old(gl.calls) + ResolutionCalls(active[..i], locations, dims)
      {
        ReflectPrefixStep(active, i, ActiveIndex, BuiltinUniformsLocations(old(builtins).time, old(builtins).mousePos), locations, dims);
        ReflectOneUniform(active[i], i, locations, dims, gl);
        i := i + 1;
      }
      assert active[..i] == active;
    }

    /**
     * One iteration of the reflection loop: as in the wallpaper manager,
     * except that a descriptor records its active-uniform index `i`.
     */
    method ReflectOneUniform(a: ActiveUniform, i: nat, locations: map<string, int>, dims: WindowDimensions, gl: GLContext)
      modifies this`uniforms, this`builtins, gl`calls
      ensures uniforms == ReflectOne(old(uniforms), a, i, ActiveIndex)
      ensures var t := BuiltinsOne(BuiltinUniformsLocations(old(builtins).time, old(builtins).mousePos), a, locations);
        builtins == BuiltinLocationsStruct(t.time, old(builtins).resolution, t.mousePos)
      ensures gl.calls == old(gl.calls) + ResolutionOne(a, locations, dims)
    {
      if a.name == "iResolution" && a.glType == GL_FLOAT_VEC2 {
        gl.Issue(UniformFloats(UniformLocation(locations, "iResolution"), [dims.width as real, dims.height as real]));
      } else if a.name == "iTime" && a.glType == GL_FLOAT {
        builtins := builtins.(time := UniformLocation(locations, "iTime"));
      } else if a.name == "iMouse" && a.glType == GL_FLOAT_VEC2 {
        builtins := builtins.(mousePos := UniformLocation(locations, "iMouse"));
      } else {
        match DescriptorShape(a.glType)
        case Some(shape) =>
          var storage :=
            if shape.kind == IntKind then IntVar(Components(a.readInts, shape.components, 0))
            else FloatVar(Components(a.readFloats, shape.components, 0.0));
          if a.name !in uniforms {
            uniforms := uniforms[a.name := Uniform(i, a.glType, storage)];
          }
        case None =>
      }
    }

    /**
     * `SetFragmentShader`. The driver's answers are parameters, and so is
     * `uninitialisedHandle`, the indeterminate value of the local handle
     * that a failed load leaves unwritten and then deletes.
     *
     * The uniform map is emptied first, whatever happens next. A failed
     * load returns false before the program is touched. Otherwise the old
     * program is deleted and a fresh one becomes the manager's; when it
     * does not validate, false is returned with that program current and
     * the fragment shader still alive. When it does, the fragment shader is
     * released, the program is made current and reflected.
     */
    method SetFragmentShader(file: ShaderFile, dims: WindowDimensions, compiles: bool, uninitialisedHandle: nat,
                             validates: bool, active: seq<ActiveUniform>, locations: map<string, int>, gl: GLContext)
      returns (ok: bool)
      requires Owns(gl)
      modifies this, gl
      ensures Owns(gl)
      ensures vertexShader == old(vertexShader) && gl.textures == old(gl.textures)
      ensures ok <==> LoadSucceeds(file, compiles) && validates
      ensures !ok ==> uniforms == map[] && builtins == old(builtins) && gl.calls == old(gl.calls)
      ensures !LoadSucceeds(file, compiles) ==>
        shaderProgramId == old(shaderProgramId) && gl.programs == old(gl.programs) &&
        gl.shaders == old(gl.shaders) - {uninitialisedHandle}
      ensures LoadSucceeds(file, compiles) ==>
        shaderProgramId != 0 && shaderProgramId !in old(gl.programs) &&
        gl.programs == old(gl.programs) - {old(shaderProgramId)} + {shaderProgramId}
      ensures LoadSucceeds(file, compiles) && !validates ==>
        exists leaked :: leaked !in old(gl.shaders) && gl.shaders == old(gl.shaders) + {leaked}
      ensures ok ==>
        gl.shaders == old(gl.shaders) &&
        uniforms == ReflectUniforms(active, ActiveIndex) &&
        builtins == ReflectedStruct(old(builtins), active, locations) &&
        gl.calls == old(gl.calls) + [UseProgram(shaderProgramId)] + ResolutionCalls(active, locations, dims)
    {
      uniforms := map[];

      var loaded, fragmentShader := LoadShader(file, compiles, gl);
      if !loaded {
        gl.DeleteShader(uninitialisedHandle);
        return false;
      }

      ghost var oldPrograms := gl.programs;
      gl.DeleteProgram(shaderProgramId);
      var program := gl.CreateProgram();
      assert gl.programs == oldPrograms - {old(shaderProgramId)} + {program};
      shaderProgramId := program;

      if !validates {
        return false;
      }

      gl.DeleteShader(fragmentShader);
      gl.Issue(UseProgram(shaderProgramId));
      ReflectActive(active, locations, dims, gl);
      return true;
    }
  }
}
