/**
 * Uniform reflection, as both manager revisions do it after a program is
 * adopted: each active uniform is classified by its name and GL type as
 * one of the three built-ins (`iResolution`, `iTime`, `iMouse`, each only
 * with its expected type), as a descriptor with integer or float storage
 * of 1 to 4 components, or as ignored. Descriptors go into the uniform map
 * with `insert`, which keeps the first entry under a name.
 *
 * The driver's answers are inputs: the active uniforms in index order
 * (name, type and the values `glGetUniform*v` reads back) and, for
 * `glGetUniformLocation`, a map from active names to locations.
 */
module Reflection {
  import opened Wrappers
  import opened GLDriver
  import opened WallpaperTypes

  /** `WindowDimensions` of the wallpaper window. */
  datatype WindowDimensions = WindowDimensions(width: int, height: int)

  /** The element type of a descriptor's storage buffer. */
  datatype ScalarKind = IntKind | FloatKind

  datatype Shape = Shape(kind: ScalarKind, components: nat)

  /** One active uniform as the driver reports it. */
  datatype ActiveUniform = ActiveUniform(name: string, glType: nat, readInts: seq<int>, readFloats: seq<real>)

  datatype Class =
    | ResolutionBuiltin
    | TimeBuiltin
    | MouseBuiltin
    | Descriptor(shape: Shape)
    | Ignored

  ghost predicate IsFloatType(t: nat)
  {
    t == GL_FLOAT || t == GL_FLOAT_VEC2 || t == GL_FLOAT_VEC3 || t == GL_FLOAT_VEC4
  }

  ghost predicate IsIntType(t: nat)
  {
    t == GL_INT || t == GL_INT_VEC2 || t == GL_INT_VEC3 || t == GL_INT_VEC4
  }

  /**
   * The storage the reflection switch allocates for a uniform type:
   * float scalars and vectors get `GLfloat` buffers, int scalars and
   * vectors and `GL_BOOL` get `GLint` buffers; every other type none.
   */
  function DescriptorShape(t: nat): (r: Option<Shape>)
    ensures r.Some? <==> IsFloatType(t) || IsIntType(t) || t == GL_BOOL
    ensures r.Some? ==> 1 <= r.value.components <= 4
    ensures r.Some? ==> (r.value.kind == FloatKind <==> IsFloatType(t))
    ensures t == GL_BOOL ==> r == Some(Shape(IntKind, 1))
  {
    if t == GL_FLOAT then Some(Shape(FloatKind, 1))
    else if t == GL_INT then Some(Shape(IntKind, 1))
    else if t == GL_INT_VEC2 then Some(Shape(IntKind, 2))
    else if t == GL_INT_VEC3 then Some(Shape(IntKind, 3))
    else if t == GL_INT_VEC4 then Some(Shape(IntKind, 4))
    else if t == GL_FLOAT_VEC2 then Some(Shape(FloatKind, 2))
    else if t == GL_FLOAT_VEC3 then Some(Shape(FloatKind, 3))
    else if t == GL_FLOAT_VEC4 then Some(Shape(FloatKind, 4))
    else if t == GL_BOOL then Some(Shape(IntKind, 1))
    else None
  }

  /** A name/type pair the managers treat as a built-in. */
  ghost predicate IsBuiltinPair(name: string, t: nat)
  {
    (name == "iResolution" && t == GL_FLOAT_VEC2) ||
    (name == "iTime" && t == GL_FLOAT) ||
    (name == "iMouse" && t == GL_FLOAT_VEC2)
  }

  /** The if/else-if chain and the type switch of the reflection loop. */
  function Classify(name: string, t: nat): (c: Class)
    ensures c == ResolutionBuiltin <==> name == "iResolution" && t == GL_FLOAT_VEC2
    ensures c == TimeBuiltin <==> name == "iTime" && t == GL_FLOAT
    ensures c == MouseBuiltin <==> name == "iMouse" && t == GL_FLOAT_VEC2
    ensures c.Descriptor? <==> !IsBuiltinPair(name, t) && DescriptorShape(t).Some?
    ensures c.Descriptor? ==> Some(c.shape) == DescriptorShape(t)
  {
    if name == "iResolution" && t == GL_FLOAT_VEC2 then ResolutionBuiltin
    else if name == "iTime" && t == GL_FLOAT then TimeBuiltin
    else if name == "iMouse" && t == GL_FLOAT_VEC2 then MouseBuiltin
    else match DescriptorShape(t)
      case Some(shape) => Descriptor(shape)
      case None => Ignored
  }

  /** The nine stored types get component counts 1/1/2/3/4/2/3/4/1. */
  lemma ComponentCounts()
    ensures DescriptorShape(GL_FLOAT) == Some(Shape(FloatKind, 1))
    ensures DescriptorShape(GL_INT) == Some(Shape(IntKind, 1))
    ensures DescriptorShape(GL_INT_VEC2) == Some(Shape(IntKind, 2))
    ensures DescriptorShape(GL_INT_VEC3) == Some(Shape(IntKind, 3))
    ensures DescriptorShape(GL_INT_VEC4) == Some(Shape(IntKind, 4))
    ensures DescriptorShape(GL_FLOAT_VEC2) == Some(Shape(FloatKind, 2))
    ensures DescriptorShape(GL_FLOAT_VEC3) == Some(Shape(FloatKind, 3))
    ensures DescriptorShape(GL_FLOAT_VEC4) == Some(Shape(FloatKind, 4))
    ensures DescriptorShape(GL_BOOL) == Some(Shape(IntKind, 1))
    ensures DescriptorShape(GL_FLOAT_MAT2) == None && DescriptorShape(GL_SAMPLER_2D) == None
    ensures DescriptorShape(GL_BOOL_VEC2) == None && DescriptorShape(GL_UNSIGNED_INT) == None
  {
  }

  /**
   * A zero-initialised buffer of `n` elements after the driver has written
   * `values` into it (`new T[n]{}` followed by `glGetUniform*v`).
   */
  function Components<T>(values: seq<T>, n: nat, zero: T): (r: seq<T>)
    ensures |r| == n
    ensures forall i :: 0 <= i < n ==> r[i] == if i < |values| then values[i] else zero
    ensures |values| == n ==> r == values
  {
    if |values| >= n then values[..n] else values + seq(n - |values|, _ => zero)
  }

  /**
   * How many elements `glGetUniform*v` writes past the end of a buffer of
   * `n` elements when asked for location `at`: the driver writes every
   * component of the uniform stored there, `sizes[at]` of them, and
   * nothing for a location that holds no uniform.
   */
  function ReadBackOverrun(sizes: map<int, nat>, at: int, n: nat): (over: nat)
    ensures over > 0 <==> at in sizes && sizes[at] > n
    ensures over > 0 ==> n + over == sizes[at]
  {
    if at in sizes && sizes[at] > n then sizes[at] - n else 0
  }

  /**
   * As written, both managers read a descriptor back at location `i`, its
   * active-uniform index, into a buffer sized for its own type. For a
   * program whose active uniform 0 is `float speed` at location 1, while
   * location 0 holds `vec4 tint`, the read of `speed` writes four floats
   * into a one-float buffer: three past its end.
   */
  lemma ReadBackAtIndexOverruns()
    ensures var sizes := map[0 := 4, 1 := 1];
      var locations := map["speed" := 1, "tint" := 0];
      ReadBackOverrun(sizes, 0, DescriptorShape(GL_FLOAT).value.components) == 3 &&
      ReadBackOverrun(sizes, UniformLocation(locations, "speed"), DescriptorShape(GL_FLOAT).value.components) == 0
  {
  }

  /**
   * Read back at its own location, as `glGetUniformLocation` reports it, a
   * descriptor fills its buffer exactly: nothing is written past the end,
   * and a read-back of that many values is stored whole.
   */
  lemma ReadBackAtOwnLocation<T>(sizes: map<int, nat>, locations: map<string, int>, a: ActiveUniform, values: seq<T>, zero: T)
    requires DescriptorShape(a.glType).Some?
    requires a.name in locations ==>
      locations[a.name] in sizes && sizes[locations[a.name]] == DescriptorShape(a.glType).value.components
    requires -1 !in sizes
    requires |values| == DescriptorShape(a.glType).value.components
    ensures ReadBackOverrun(sizes, UniformLocation(locations, a.name), DescriptorShape(a.glType).value.components) == 0
    ensures Components(values, DescriptorShape(a.glType).value.components, zero) == values
  {
  }

  /** The storage fits the uniform's type: the kind and the number of components. */
  ghost predicate WellFormed(u: Uniform)
  {
    match DescriptorShape(u.glType)
    case None => false
    case Some(shape) =>
      u.storage.Length() == shape.components &&
      (shape.kind == FloatKind <==> u.storage.FloatVar?)
  }

  /** `glGetUniformLocation`: -1 for a name that is not an active uniform. */
  function UniformLocation(locations: map<string, int>, name: string): int
  {
    if name in locations then locations[name] else -1
  }

  /**
   * Where a descriptor's stored location comes from: WallpaperManager looks
   * the name up, ShaderManager stores the active-uniform index.
   */
  datatype LocationSource = LookedUp(locations: map<string, int>) | ActiveIndex

  function DescriptorLocation(src: LocationSource, name: string, index: nat): int
  {
    match src
    case LookedUp(locations) => UniformLocation(locations, name)
    case ActiveIndex => index
  }

  /** The map entry for a descriptor-class active uniform. */
  function Describe(a: ActiveUniform, location: int): (u: Uniform)
    requires DescriptorShape(a.glType).Some?
    ensures WellFormed(u) && u.location == location && u.glType == a.glType
  {
    var shape := DescriptorShape(a.glType).value;
    var storage :=
      if shape.kind == IntKind then IntVar(Components(a.readInts, shape.components, 0))
      else FloatVar(Components(a.readFloats, shape.components, 0.0));
    Uniform(location, a.glType, storage)
  }

  /** One iteration of the reflection loop on the uniform map. */
  function ReflectOne(m: map<string, Uniform>, a: ActiveUniform, index: nat, src: LocationSource): map<string, Uniform>
  {
    match Classify(a.name, a.glType)
    case Descriptor(_) =>
      if a.name in m then m else m[a.name := Describe(a, DescriptorLocation(src, a.name, index))]
    case _ => m
  }

  /** The uniform map the reflection loop builds from an empty map. */
  function ReflectUniforms(active: seq<ActiveUniform>, src: LocationSource): (m: map<string, Uniform>)
    decreases |active|
    ensures forall k :: k in m ==> WellFormed(m[k]) && !IsBuiltinPair(k, m[k].glType)
  {
    if active == [] then map[]
    else ReflectOne(ReflectUniforms(active[..|active| - 1], src), active[|active| - 1], |active| - 1, src)
  }

  /** One iteration of the reflection loop on the built-in locations. */
  function BuiltinsOne(b: BuiltinUniformsLocations, a: ActiveUniform, locations: map<string, int>): BuiltinUniformsLocations
  {
    match Classify(a.name, a.glType)
    case TimeBuiltin => b.(time := UniformLocation(locations, "iTime"))
    case MouseBuiltin => b.(mousePos := UniformLocation(locations, "iMouse"))
    case _ => b
  }

  /** The built-in locations after the reflection loop, starting from `start`. */
  function ReflectBuiltins(start: BuiltinUniformsLocations, active: seq<ActiveUniform>, locations: map<string, int>): BuiltinUniformsLocations
    decreases |active|
  {
    if active == [] then start
    else BuiltinsOne(ReflectBuiltins(start, active[..|active| - 1], locations), active[|active| - 1], locations)
  }

  /** The `glUniform2f` call one iteration issues for `iResolution`, if any. */
  function ResolutionOne(a: ActiveUniform, locations: map<string, int>, dims: WindowDimensions): seq<GLCall>
  {
    if Classify(a.name, a.glType) == ResolutionBuiltin
    then [UniformFloats(UniformLocation(locations, "iResolution"), [dims.width as real, dims.height as real])]
    else []
  }

  /** The calls the reflection loop issues, in order. */
  function ResolutionCalls(active: seq<ActiveUniform>, locations: map<string, int>, dims: WindowDimensions): seq<GLCall>
    decreases |active|
  {
    if active == [] then []
    else ResolutionCalls(active[..|active| - 1], locations, dims) + ResolutionOne(active[|active| - 1], locations, dims)
  }

  /** The three folds over a prefix one longer: one more iteration of the loop. */
  lemma ReflectPrefixStep(active: seq<ActiveUniform>, i: nat, src: LocationSource, start: BuiltinUniformsLocations,
                          locations: map<string, int>, dims: WindowDimensions)
    requires i < |active|
    ensures ReflectUniforms(active[..i + 1], src) == ReflectOne(ReflectUniforms(active[..i], src), active[i], i, src)
    ensures ReflectBuiltins(start, active[..i + 1], locations) == BuiltinsOne(ReflectBuiltins(start, active[..i], locations), active[i], locations)
    ensures ResolutionCalls(active[..i + 1], locations, dims) == ResolutionCalls(active[..i], locations, dims) + ResolutionOne(active[i], locations, dims)
  {
    assert active[..i + 1][..i] == active[..i];
  }

  /** A descriptor-class active uniform at index `i`. */
  ghost predicate DescriptorAt(active: seq<ActiveUniform>, i: int)
  {
    0 <= i < |active| && Classify(active[i].name, active[i].glType).Descriptor?
  }

  /** The map holds exactly the names of the descriptor-class active uniforms. */
  lemma {:induction false} ReflectedKeys(active: seq<ActiveUniform>, src: LocationSource, k: string)
    ensures k in ReflectUniforms(active, src) <==> exists i :: DescriptorAt(active, i) && active[i].name == k
    decreases |active|
  {
    if active != [] {
      var n := |active| - 1;
      var prefix := active[..n];
      ReflectedKeys(prefix, src, k);
      if k in ReflectUniforms(prefix, src) {
        var i :| DescriptorAt(prefix, i) && prefix[i].name == k;
        assert DescriptorAt(active, i) && active[i].name == k;
      }
      if exists i :: DescriptorAt(active, i) && active[i].name == k {
        var i :| DescriptorAt(active, i) && active[i].name == k;
        if i < n {
          assert DescriptorAt(prefix, i) && prefix[i].name == k;
        }
      }
    }
  }

  /**
   * The entry under a name is built from the FIRST descriptor-class active
   * uniform with that name (`insert` does not overwrite), with the location
   * `src` gives for its index.
   */
  lemma {:induction false} ReflectedEntry(active: seq<ActiveUniform>, src: LocationSource, i: nat)
    requires DescriptorAt(active, i)
    requires forall j :: 0 <= j < i ==> !(DescriptorAt(active, j) && active[j].name == active[i].name)
    ensures active[i].name in ReflectUniforms(active, src)
    ensures ReflectUniforms(active, src)[active[i].name] == Describe(active[i], DescriptorLocation(src, active[i].name, i))
    decreases |active|
  {
    var n := |active| - 1;
    var prefix := active[..n];
    var k := active[i].name;
    if i == n {
      ReflectedKeys(prefix, src, k);
      forall j | DescriptorAt(prefix, j) ensures prefix[j].name != k {
        assert prefix[j] == active[j];
      }
    } else {
      ReflectedEntry(prefix, src, i);
    }
  }

  /** With the looked-up policy, every stored location is `glGetUniformLocation` of its name. */
  lemma {:induction false} LookedUpLocations(active: seq<ActiveUniform>, locations: map<string, int>, k: string)
    requires k in ReflectUniforms(active, LookedUp(locations))
    ensures ReflectUniforms(active, LookedUp(locations))[k].location == UniformLocation(locations, k)
    decreases |active|
  {
    if active != [] {
      var prefix := active[..|active| - 1];
      if k in ReflectUniforms(prefix, LookedUp(locations)) {
        LookedUpLocations(prefix, locations, k);
      }
    }
  }

  /** With the index policy, every stored location is the index of an active uniform of that name. */
  lemma {:induction false} IndexLocations(active: seq<ActiveUniform>, k: string)
    requires k in ReflectUniforms(active, ActiveIndex)
    ensures var loc := ReflectUniforms(active, ActiveIndex)[k].location;
      0 <= loc < |active| && active[loc].name == k && DescriptorAt(active, loc)
    decreases |active|
  {
    var n := |active| - 1;
    var prefix := active[..n];
    if k in ReflectUniforms(prefix, ActiveIndex) {
      IndexLocations(prefix, k);
    }
  }

  /**
   * Reflecting a second program replaces the map: when the two programs'
   * active uniforms share no name, no key of the first map survives.
   */
  lemma FullReplace(first: seq<ActiveUniform>, second: seq<ActiveUniform>, src1: LocationSource, src2: LocationSource)
    requires forall i, j :: 0 <= i < |first| && 0 <= j < |second| ==> first[i].name != second[j].name
    ensures ReflectUniforms(first, src1).Keys !! ReflectUniforms(second, src2).Keys
  {
    forall k | k in ReflectUniforms(first, src1) && k in ReflectUniforms(second, src2)
      ensures false
    {
      ReflectedKeys(first, src1, k);
      ReflectedKeys(second, src2, k);
    }
  }

  /** `iTime` is recorded only when an active `iTime` has type GL_FLOAT; otherwise the start value stays. */
  lemma {:induction false} ReflectedTime(start: BuiltinUniformsLocations, active: seq<ActiveUniform>, locations: map<string, int>)
    ensures ReflectBuiltins(start, active, locations).time ==
      if exists i :: 0 <= i < |active| && active[i].name == "iTime" && active[i].glType == GL_FLOAT
      then UniformLocation(locations, "iTime") else start.time
    decreases |active|
  {
    if active != [] {
      var n := |active| - 1;
      var prefix := active[..n];
      ReflectedTime(start, prefix, locations);
      if exists i :: 0 <= i < n && prefix[i].name == "iTime" && prefix[i].glType == GL_FLOAT {
        var i :| 0 <= i < n && prefix[i].name == "iTime" && prefix[i].glType == GL_FLOAT;
        assert active[i] == prefix[i];
      }
      if exists i :: 0 <= i < |active| && active[i].name == "iTime" && active[i].glType == GL_FLOAT {
        var i :| 0 <= i < |active| && active[i].name == "iTime" && active[i].glType == GL_FLOAT;
        if i < n {
          assert prefix[i] == active[i];
        }
      }
    }
  }

  /** `iMouse` is recorded only when an active `iMouse` has type GL_FLOAT_VEC2; otherwise the start value stays. */
  lemma {:induction false} ReflectedMouse(start: BuiltinUniformsLocations, active: seq<ActiveUniform>, locations: map<string, int>)
    ensures ReflectBuiltins(start, active, locations).mousePos ==
      if exists i :: 0 <= i < |active| && active[i].name == "iMouse" && active[i].glType == GL_FLOAT_VEC2
      then UniformLocation(locations, "iMouse") else start.mousePos
    decreases |active|
  {
    if active != [] {
      var n := |active| - 1;
      var prefix := active[..n];
      ReflectedMouse(start, prefix, locations);
      if exists i :: 0 <= i < n && prefix[i].name == "iMouse" && prefix[i].glType == GL_FLOAT_VEC2 {
        var i :| 0 <= i < n && prefix[i].name == "iMouse" && prefix[i].glType == GL_FLOAT_VEC2;
        assert active[i] == prefix[i];
      }
      if exists i :: 0 <= i < |active| && active[i].name == "iMouse" && active[i].glType == GL_FLOAT_VEC2 {
        var i :| 0 <= i < |active| && active[i].name == "iMouse" && active[i].glType == GL_FLOAT_VEC2;
        if i < n {
          assert prefix[i] == active[i];
        }
      }
    }
  }

  /**
   * Each active `iResolution` of type GL_FLOAT_VEC2 causes one write of the
   * window size to its location, and nothing else is written.
   */
  lemma {:induction false} ResolutionWrites(active: seq<ActiveUniform>, locations: map<string, int>, dims: WindowDimensions)
    ensures forall c :: c in ResolutionCalls(active, locations, dims) ==>
      c == UniformFloats(UniformLocation(locations, "iResolution"), [dims.width as real, dims.height as real])
    ensures ResolutionCalls(active, locations, dims) != [] <==>
      exists i :: 0 <= i < |active| && active[i].name == "iResolution" && active[i].glType == GL_FLOAT_VEC2
  {
    ResolutionCallsOnly(active, locations, dims);
    ResolutionCallsIssued(active, locations, dims);
  }

  lemma {:induction false} ResolutionCallsOnly(active: seq<ActiveUniform>, locations: map<string, int>, dims: WindowDimensions)
    ensures forall c :: c in ResolutionCalls(active, locations, dims) ==>
      c == UniformFloats(UniformLocation(locations, "iResolution"), [dims.width as real, dims.height as real])
    decreases |active|
  {
    if active != [] {
      ResolutionCallsOnly(active[..|active| - 1], locations, dims);
    }
  }

  lemma {:induction false} ResolutionCallsIssued(active: seq<ActiveUniform>, locations: map<string, int>, dims: WindowDimensions)
    ensures ResolutionCalls(active, locations, dims) != [] <==>
      exists i :: 0 <= i < |active| && active[i].name == "iResolution" && active[i].glType == GL_FLOAT_VEC2
    decreases |active|
  {
    if active != [] {
      var n := |active| - 1;
      var prefix := active[..n];
      ResolutionCallsIssued(prefix, locations, dims);
      if exists i :: 0 <= i < n && prefix[i].name == "iResolution" && prefix[i].glType == GL_FLOAT_VEC2 {
        var i :| 0 <= i < n && prefix[i].name == "iResolution" && prefix[i].glType == GL_FLOAT_VEC2;
        assert active[i] == prefix[i];
      }
      if exists i :: 0 <= i < |active| && active[i].name == "iResolution" && active[i].glType == GL_FLOAT_VEC2 {
        var i :| 0 <= i < |active| && active[i].name == "iResolution" && active[i].glType == GL_FLOAT_VEC2;
        if i < n {
          assert prefix[i] == active[i];
        }
      }
    }
  }

}
