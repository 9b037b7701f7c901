/**
 * The part of the OpenGL driver the core talks to.
 *
 * The driver is not modelled as behaviour: what it decides (compile status,
 * validate status, the active uniforms of a program, uniform locations,
 * read-back values) reaches the model as parameters of the operations.
 * What the model does keep is the driver state the core is responsible
 * for: which shader, program and texture objects are alive, and the
 * sequence of state-setting calls the core issues.
 *
 * Enumerant values are those of the OpenGL 3.3 Core Profile specification
 * (section 2.11.4, Uniform Variables, for the uniform types).
 */
module GLDriver {

  const GL_FALSE: nat := 0
  const GL_TRUE: nat := 1

  const GL_INVALID_VALUE: nat := 0x0501
  const GL_INVALID_INDEX: nat := 0xFFFF_FFFF

  const GL_UNSIGNED_BYTE: nat := 0x1401
  const GL_INT: nat := 0x1404
  const GL_UNSIGNED_INT: nat := 0x1405
  const GL_FLOAT: nat := 0x1406

  const GL_FLOAT_VEC2: nat := 0x8B50
  const GL_FLOAT_VEC3: nat := 0x8B51
  const GL_FLOAT_VEC4: nat := 0x8B52
  const GL_INT_VEC2: nat := 0x8B53
  const GL_INT_VEC3: nat := 0x8B54
  const GL_INT_VEC4: nat := 0x8B55
  const GL_BOOL: nat := 0x8B56
  const GL_BOOL_VEC2: nat := 0x8B57
  const GL_FLOAT_MAT2: nat := 0x8B5A
  const GL_SAMPLER_2D: nat := 0x8B5E

  const GL_RED: nat := 0x1903
  const GL_RGB: nat := 0x1907
  const GL_RGBA: nat := 0x1908

  /** `static_cast<GLint>` of a `GLuint`: two's-complement reinterpretation of 32 bits. */
  function AsGLint(u: nat): (r: int)
    requires u < 0x1_0000_0000
    ensures -0x8000_0000 <= r < 0x8000_0000
    ensures (r - u) % 0x1_0000_0000 == 0
  {
    if u < 0x8000_0000 then u else u - 0x1_0000_0000
  }

  /** A `glUniform*` call and the other state-setting calls the core issues. */
  datatype GLCall =
    | UseProgram(program: nat)
    | UniformInts(location: int, ints: seq<int>)
    | UniformFloats(location: int, floats: seq<real>)
    | DrawQuad
    | BindVertexArray(vao: nat)
    | BindArrayBuffer(buffer: nat)
    | EnableVertexAttribArray(index: nat)
    | VertexAttribPointer(index: nat, size: nat, glType: nat, normalized: nat, stride: nat, offset: nat)
    | TexImage2D(format: nat, width: int, height: int)

  /**
   * Object lifetimes and the call log of one GL context. All object kinds
   * draw their names from one counter, so a freshly created name is never
   * the name of any live object. Name 0 is never live.
   */
  class GLContext {
    var shaders: set<nat>
    var programs: set<nat>
    var textures: set<nat>
    var nextName: nat
    var calls: seq<GLCall>

    ghost predicate Valid()
      reads this
    {
      0 < nextName &&
      (forall s :: s in shaders ==> 0 < s < nextName) &&
      (forall p :: p in programs ==> 0 < p < nextName) &&
      (forall t :: t in textures ==> 0 < t < nextName)
    }

    constructor ()
      ensures Valid()
      ensures shaders == {} && programs == {} && textures == {} && calls == []
    {
      shaders, programs, textures := {}, {}, {};
      nextName := 1;
      calls := [];
    }

    /** A name no live object carries. */
    method NewName() returns (id: nat)
      requires Valid()
      modifies this`nextName
      ensures Valid()
      ensures 0 < id && id !in shaders && id !in programs && id !in textures
      ensures id == old(nextName) && nextName == old(nextName) + 1
    {
      id := nextName;
      nextName := nextName + 1;
    }

    /** glCreateShader */
    method CreateShader() returns (id: nat)
      requires Valid()
      modifies this
      ensures Valid()
      ensures id !in old(shaders) && id !in old(programs) && id !in old(textures) && id != 0
      ensures shaders == old(shaders) + {id}
      ensures programs == old(programs) && textures == old(textures) && calls == old(calls)
      ensures nextName == old(nextName) + 1
    {
      id := NewName();
      shaders := shaders + {id};
    }

    /** glDeleteShader; a name that is not a live shader (0 included) is ignored. */
    method DeleteShader(id: nat)
      requires Valid()
      modifies this`shaders
      ensures Valid()
      ensures shaders == old(shaders) - {id}
    {
      shaders := shaders - {id};
    }

    /** glCreateProgram */
    method CreateProgram() returns (id: nat)
      requires Valid()
      modifies this
      ensures Valid()
      ensures id !in old(shaders) && id !in old(programs) && id !in old(textures) && id != 0
      ensures programs == old(programs) + {id}
      ensures shaders == old(shaders) && textures == old(textures) && calls == old(calls)
      ensures id == old(nextName) && nextName == old(nextName) + 1
    {
      id := NewName();
      programs := programs + {id};
    }

    /** glDeleteProgram; 0 and names that are not live programs are ignored. */
    method DeleteProgram(id: nat)
      requires Valid()
      modifies this`programs
      ensures Valid()
      ensures programs == old(programs) - {id}
    {
      programs := programs - {id};
    }

    /** glGenTextures for one texture. */
    method GenTexture() returns (id: nat)
      requires Valid()
      modifies this
      ensures Valid()
      ensures id !in old(shaders) && id !in old(programs) && id !in old(textures) && id != 0
      ensures textures == old(textures) + {id}
      ensures shaders == old(shaders) && programs == old(programs) && calls == old(calls)
    {
      id := NewName();
      textures := textures + {id};
    }

    /** glDeleteTextures for one texture; 0 is ignored. */
    method DeleteTexture(id: nat)
      requires Valid()
      modifies this`textures
      ensures Valid()
      ensures textures == old(textures) - {id}
    {
      textures := textures - {id};
    }

    /** Records one state-setting call. */
    method Issue(c: GLCall)
      modifies this`calls
      ensures calls == old(calls) + [c]
    {
      calls := calls + [c];
    }
  }

  /**
   * CompileShader of both managers: create a shader object, compile it and
   * keep it only if the driver reports success (`compiles`). On failure the
   * object is deleted again and the out-parameter is not written.
   */
  method CompileShader(gl: GLContext, compiles: bool) returns (ok: bool, id: nat)
    requires gl.Valid()
    modifies gl
    ensures gl.Valid()
    ensures ok == compiles
    ensures ok ==> id !in old(gl.shaders) && id !in old(gl.programs) && id != 0
    ensures gl.shaders == if ok then old(gl.shaders) + {id} else old(gl.shaders)
    ensures gl.programs == old(gl.programs) && gl.textures == old(gl.textures)
    ensures gl.calls == old(gl.calls) && gl.nextName > old(gl.nextName)
  {
    var created := gl.CreateShader();
    if !compiles {
      gl.DeleteShader(created);
      return false, 0;
    }
    return true, created;
  }
}
