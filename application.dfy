/**
 * The per-frame logic of the application loop: push the built-in uniforms
 * (mouse position and time), push every user uniform from the manager's
 * map with the `glUniform*` call its type asks for, draw, react to the
 * "Load Shader" button, then show one widget per user uniform; the widgets
 * write through the map copy's storage pointers into the manager's own
 * storage, so an edit shows up in the next frame's push. In a frame that
 * reloads the shader that storage has already been released when the
 * widgets run (`ReloadFrameUsesReleasedStorage`); the model's frame shows
 * no widget then.
 *
 * The cursor query, the clock, the file dialog, the button and the edits
 * made through the widgets are inputs; loading a newly chosen shader is
 * the shader manager's business and reaches the loop as its outcome.
 */
module App {
  import opened Wrappers
  import opened GLDriver
  import TypedUniform
  import opened WallpaperTypes
  import opened Reflection

  // ---- the update walk's type switch ----

  /**
   * The `glUniform*` family the update walk uses for a type: the scalar
   * kind and the number of components pushed; None for every other type.
   */
  function UpdateShape(t: nat): (r: Option<Shape>)
  {
    if t == GL_FLOAT then Some(Shape(FloatKind, 1))
    else if t == GL_INT then Some(Shape(IntKind, 1))
    else if t == GL_INT_VEC2 then Some(Shape(IntKind, 2))
    else if t == GL_INT_VEC3 then Some(Shape(IntKind, 3))
    else if t == GL_INT_VEC4 then Some(Shape(IntKind, 4))
    else if t == GL_FLOAT_VEC2 then Some(Shape(FloatKind, 2))
    else if t == GL_FLOAT_VEC3 then Some(Shape(FloatKind, 3))
    else if t == GL_FLOAT_VEC4 then Some(Shape(FloatKind, 4))
    else if t == GL_BOOL then Some(Shape(IntKind, 1))
    else None
  }

  /**
   * The update walk pushes exactly the components reflection allocates,
   * with the same scalar kind, for every type.
   */
  lemma UpdateShapeIsStorageShape(t: nat)
    ensures UpdateShape(t) == DescriptorShape(t)
    ensures UpdateShape(t).Some? <==> IsFloatType(t) || IsIntType(t) || t == GL_BOOL
  {
  }

  // ---- the present walk's type switch ----

  datatype Widget =
    | FloatSlider(components: nat, floatMin: real, floatMax: real)
    | IntSlider(components: nat, intMin: int, intMax: int)
    | Checkbox

  /** The ImGui widget the present walk shows for a type; None for every other type. */
  function WidgetFor(t: nat): (w: Option<Widget>)
  {
    if t == GL_FLOAT then Some(FloatSlider(1, 0.0, 10.0))
    else if t == GL_INT then Some(IntSlider(1, 0, 100))
    else if t == GL_INT_VEC2 then Some(IntSlider(2, 0, 100))
    else if t == GL_INT_VEC3 then Some(IntSlider(3, 0, 100))
    else if t == GL_INT_VEC4 then Some(IntSlider(4, 0, 100))
    else if t == GL_FLOAT_VEC2 then Some(FloatSlider(2, 0.0, 10.0))
    else if t == GL_FLOAT_VEC3 then Some(FloatSlider(3, 0.0, 10.0))
    else if t == GL_FLOAT_VEC4 then Some(FloatSlider(4, 0.0, 10.0))
    else if t == GL_BOOL then Some(Checkbox)
    else None
  }

  /**
   * A type gets a widget exactly when it gets a push; float types get
   * float sliders over [0, 10] with one handle per component, int types
   * int sliders over the default int range [0, 100], GL_BOOL a checkbox.
   */
  lemma WidgetMatchesStorage(t: nat)
    ensures WidgetFor(t).Some? <==> DescriptorShape(t).Some?
    ensures WidgetFor(t) == Some(Checkbox) <==> t == GL_BOOL
    ensures WidgetFor(t).Some? && WidgetFor(t).value.FloatSlider? ==>
      IsFloatType(t) && WidgetFor(t).value.components == DescriptorShape(t).value.components &&
      WidgetFor(t).value.floatMin == 0.0 && WidgetFor(t).value.floatMax == 10.0
    ensures WidgetFor(t).Some? && WidgetFor(t).value.IntSlider? ==>
      IsIntType(t) && WidgetFor(t).value.components == DescriptorShape(t).value.components &&
      WidgetFor(t).value.intMin == TypedUniform.DEFAULT_INT_SLIDER_MIN && WidgetFor(t).value.intMax == TypedUniform.DEFAULT_INT_SLIDER_MAX
  {
  }

  // ---- pushing the user uniforms ----

  /** Every entry of the map has storage that fits its type, as reflection builds it. */
  ghost predicate AllWellFormed(m: map<string, Uniform>)
  {
    forall k :: k in m ==> WellFormed(m[k])
  }

  /**
   * The location argument of the push: the stored `GLint` read into an
   * `unsigned int` and passed back as a `GLint`.
   */
  function PushLocation(location: int): (r: int)
    ensures -0x8000_0000 <= r < 0x8000_0000
  {
    AsGLint(location % 0x1_0000_0000)
  }

  /** Every `GLint` location, -1 included, survives the trip through `unsigned int`. */
  lemma PushLocationRoundTrip(location: int)
    requires -0x8000_0000 <= location < 0x8000_0000
    ensures PushLocation(location) == location
  {
  }

  /** The call the update walk issues for one entry. */
  function PushFor(u: Uniform): (calls: seq<GLCall>)
    requires WellFormed(u)
  {
    match UpdateShape(u.glType)
    case None => []
    case Some(shape) =>
      if shape.kind == FloatKind
      then [UniformFloats(PushLocation(u.location), u.storage.floats)]
      else [UniformInts(PushLocation(u.location), u.storage.ints)]
  }

  /** A well-formed entry is pushed with one call carrying exactly its stored values, of its own kind. */
  lemma PushForSendsStorage(u: Uniform)
    requires WellFormed(u)
    ensures PushFor(u) == [match u.storage
      case FloatVar(floats) => UniformFloats(PushLocation(u.location), floats)
      case IntVar(ints) => UniformInts(PushLocation(u.location), ints)]
  {
  }

  /** The keys of `m` in the order `order` lists, each once. */
  ghost predicate IsOrderOf<V>(order: seq<string>, m: map<string, V>)
  {
    (forall i, j :: 0 <= i < j < |order| ==> order[i] != order[j]) &&
    (forall k :: k in order <==> k in m)
  }

  /**
   * Part way through a walk over the keys `keys`: `order` lists the keys
   * visited so far, each once, and `remaining` the others.
   */
  ghost predicate Walking(keys: set<string>, remaining: set<string>, order: seq<string>)
  {
    (forall k :: k in keys <==> k in remaining || k in order) &&
    (forall k :: k in remaining ==> k !in order) &&
    (forall i, j :: 0 <= i < j < |order| ==> order[i] != order[j])
  }

  lemma WalkStart(keys: set<string>)
    ensures Walking(keys, keys, [])
  {
  }

  /** Visiting a remaining key keeps the walk consistent. */
  lemma WalkStep(keys: set<string>, remaining: set<string>, order: seq<string>, k: string)
    requires Walking(keys, remaining, order) && k in remaining
    ensures Walking(keys, remaining - {k}, order + [k])
  {
  }

  /** A walk with nothing remaining has visited every key once. */
  lemma WalkDone<V>(keys: set<string>, order: seq<string>, m: map<string, V>)
    requires Walking(keys, {}, order) && keys == m.Keys
    ensures IsOrderOf(order, m)
  {
  }

  /** The calls of an update walk visiting the keys in `order`. */
  function Pushes(m: map<string, Uniform>, order: seq<string>): seq<GLCall>
    requires AllWellFormed(m)
    decreases |order|
  {
    if order == [] then []
    else
      var k := order[|order| - 1];
      Pushes(m, order[..|order| - 1]) + (if k in m then PushFor(m[k]) else [])
  }

  /** Visiting one more key appends that entry's push. */
  lemma PushesSnoc(m: map<string, Uniform>, order: seq<string>, k: string)
    requires AllWellFormed(m) && k in m
    ensures Pushes(m, order + [k]) == Pushes(m, order) + PushFor(m[k])
  {
    assert (order + [k])[..|order|] == order;
  }

  /** The walk issues one call per visited entry, in the visiting order. */
  lemma {:induction false} PushesOnePerEntry(m: map<string, Uniform>, order: seq<string>)
    requires AllWellFormed(m)
    requires forall i :: 0 <= i < |order| ==> order[i] in m
    ensures |Pushes(m, order)| == |order|
    ensures forall i :: 0 <= i < |order| ==> [Pushes(m, order)[i]] == PushFor(m[order[i]])
    decreases |order|
  {
    if order != [] {
      var n := |order| - 1;
      PushesOnePerEntry(m, order[..n]);
      PushForSendsStorage(m[order[n]]);
    }
  }

  // ---- the widgets' edits ----

  /** An edit a widget can make: values of the entry's kind and component count. */
  predicate Fits(u: Uniform, v: UniformVar)
  {
    WidgetFor(u.glType).Some? && v.FloatVar? == u.storage.FloatVar? && v.Length() == u.storage.Length()
  }

  /** One entry after its widget was shown: a fitting edit replaces the stored values. */
  function Edited(u: Uniform, edits: map<string, UniformVar>, k: string): Uniform
  {
    if k in edits && Fits(u, edits[k]) then u.(storage := edits[k]) else u
  }

  /** The map after every widget has written its edit into the storage. */
  function ApplyEdits(m: map<string, Uniform>, edits: map<string, UniformVar>): (r: map<string, Uniform>)
    ensures r.Keys == m.Keys
  {
    map k | k in m :: Edited(m[k], edits, k)
  }

  /** The map part way through the present walk: the keys not in `remaining` have had their widget shown. */
  function PartlyEdited(m: map<string, Uniform>, edits: map<string, UniformVar>, remaining: set<string>): map<string, Uniform>
  {
    map k | k in m :: if k in remaining then m[k] else Edited(m[k], edits, k)
  }

  lemma PartlyEditedStart(m: map<string, Uniform>, edits: map<string, UniformVar>)
    ensures PartlyEdited(m, edits, m.Keys) == m
  {
  }

  /** Showing the widget of one remaining key moves it to the edited part. */
  lemma PartlyEditedStep(m: map<string, Uniform>, edits: map<string, UniformVar>, remaining: set<string>, k: string)
    requires k in remaining && k in m
    ensures PartlyEdited(m, edits, remaining)[k := Edited(m[k], edits, k)] == PartlyEdited(m, edits, remaining - {k})
  {
  }

  lemma PartlyEditedDone(m: map<string, Uniform>, edits: map<string, UniformVar>)
    ensures PartlyEdited(m, edits, {}) == ApplyEdits(m, edits)
  {
  }

  /**
   * Editing keeps every entry's location and type and keeps storage well
   * formed; an entry ends with the edit exactly when a fitting edit was made.
   */
  lemma ApplyEditsKeepsShape(m: map<string, Uniform>, edits: map<string, UniformVar>)
    requires AllWellFormed(m)
    ensures AllWellFormed(ApplyEdits(m, edits))
    ensures forall k :: k in m ==>
      ApplyEdits(m, edits)[k].location == m[k].location &&
      ApplyEdits(m, edits)[k].glType == m[k].glType
    ensures forall k :: k in m ==>
      (ApplyEdits(m, edits)[k].storage == if k in edits && Fits(m[k], edits[k]) then edits[k] else m[k].storage)
  {
  }

  /**
   * An edit made during frame n's present walk is what frame n+1's update
   * walk pushes for that entry (frame n pushed the value from before).
   */
  lemma EditPushedNextFrame(m: map<string, Uniform>, edits: map<string, UniformVar>, k: string)
    requires AllWellFormed(m) && k in m && k in edits && Fits(m[k], edits[k])
    ensures AllWellFormed(ApplyEdits(m, edits))
    ensures PushFor(ApplyEdits(m, edits)[k]) == [match edits[k]
      case FloatVar(floats) => UniformFloats(PushLocation(m[k].location), floats)
      case IntVar(ints) => UniformInts(PushLocation(m[k].location), ints)]
  {
    ApplyEditsKeepsShape(m, edits);
    PushForSendsStorage(ApplyEdits(m, edits)[k]);
  }

  // ---- the built-in uniforms ----

  /** `SendDefaultUniforms` as written: mouse when present and the cursor query succeeds, time when the location is non-zero. */
  function DefaultCalls(mouseLoc: int, timeLoc: int, cursor: Option<(int, int)>, time: real): seq<GLCall>
  {
    (if mouseLoc != -1 && cursor.Some? then [UniformFloats(mouseLoc, [cursor.value.0 as real, cursor.value.1 as real])] else []) +
    (if timeLoc != 0 then [UniformFloats(timeLoc, [time])] else [])
  }

  /** The intended time guard: push time exactly when the location is not the absent value -1. */
  function IntendedTimeCalls(timeLoc: int, time: real): seq<GLCall>
  {
    if timeLoc != -1 then [UniformFloats(timeLoc, [time])] else []
  }

  /** The mouse position is pushed only for a present location and a successful cursor query. */
  lemma MouseGuard(mouseLoc: int, timeLoc: int, cursor: Option<(int, int)>, time: real)
    ensures (exists c :: c in DefaultCalls(mouseLoc, timeLoc, cursor, time) && c.UniformFloats? && |c.floats| == 2) <==>
      mouseLoc != -1 && cursor.Some?
  {
    var calls := DefaultCalls(mouseLoc, timeLoc, cursor, time);
    if mouseLoc != -1 && cursor.Some? {
      assert calls[0].UniformFloats? && |calls[0].floats| == 2;
    }
  }

  /**
   * As written, the time guard tests the location for non-zero: the
   * absent location -1 gets a push, and a shader whose `iTime` sits at
   * location 0 never receives the time.
   */
  lemma TimeGuardAsWritten(time: real)
    ensures DefaultCalls(-1, -1, None, time) == [UniformFloats(-1, [time])]
    ensures DefaultCalls(-1, 0, None, time) == []
  {
  }

  /** With the intended guard, time is pushed exactly when `iTime` has a location. */
  lemma IntendedTimeGuard(timeLoc: int, time: real)
    requires timeLoc >= -1
    ensures IntendedTimeCalls(timeLoc, time) != [] <==> timeLoc >= 0
    ensures IntendedTimeCalls(timeLoc, time) != [] ==> IntendedTimeCalls(timeLoc, time) == [UniformFloats(timeLoc, [time])]
  {
  }

  // ---- the present walk after a reload, as written ----

  /** The entries of `m` the present walk shows a widget for, in walk order. */
  function WidgetEntries(m: map<string, Uniform>, order: seq<string>): (ks: seq<string>)
    decreases |order|
    ensures forall k :: k in ks <==> k in order && k in m && WidgetFor(m[k].glType).Some?
  {
    if order == [] then []
    else
      var n := |order| - 1;
      assert order == order[..n] + [order[n]];
      WidgetEntries(m, order[..n]) + (if order[n] in m && WidgetFor(m[order[n]].glType).Some? then [order[n]] else [])
  }

  /**
   * The entries whose released storage the present walk dereferences, as
   * written: the walk runs over the copy taken at the top of the frame,
   * and a successful reload during the button check has released every
   * entry's storage (`ClearUniformMap` deletes each `var`), so each widget
   * then reads, and on an edit writes, through a dangling pointer.
   */
  function ReleasedAccessesAsWritten(copy: map<string, Uniform>, order: seq<string>, reloaded: bool): seq<string>
  {
    if reloaded then WidgetEntries(copy, order) else []
  }

  /**
   * In a frame that reloads the shader, every entry of the old map that
   * has a widget is shown through released storage, in whatever order the
   * walk takes; a frame without a reload touches none.
   */
  lemma ReloadFrameUsesReleasedStorage(copy: map<string, Uniform>, order: seq<string>, k: string)
    requires IsOrderOf(order, copy) && k in copy && WidgetFor(copy[k].glType).Some?
    ensures k in ReleasedAccessesAsWritten(copy, order, true)
    ensures ReleasedAccessesAsWritten(copy, order, false) == []
  {
  }

  // ---- the application loop ----

  /**
   * What a successful `SetShader` leaves for the loop to read: the new
   * program, its uniform map and built-in locations, and the calls it
   * issued (the program made current and the resolution push).
   */
  datatype LoadedShader = LoadedShader(program: nat, uniforms: map<string, Uniform>, timeLoc: int, mouseLoc: int, calls: seq<GLCall>)

  class Application {
    /** The shader manager's current program, as `Bind` makes it current. */
    var program: nat
    /** The shader manager's uniform map, as seen through `getUniformMap`. */
    var uniforms: map<string, Uniform>
    var timeLoc: int
    var mouseLoc: int
    var isLoadShaderButtonPressed: bool

    ghost predicate Valid()
      reads this
    {
      AllWellFormed(uniforms)
    }

    /**
     * `Run` up to the loop: a fresh shader manager (program 0, no uniforms,
     * both built-in locations -1) and the load of the default fragment
     * shader, `startup` (None: the load failed and the fresh state stays),
     * with the member initialiser of the button flag.
     */
    constructor (startup: Option<LoadedShader>)
      requires startup.Some? ==> AllWellFormed(startup.value.uniforms)
      ensures Valid()
      ensures startup.None? ==> program == 0 && uniforms == map[] && timeLoc == -1 && mouseLoc == -1
      ensures startup.Some? ==>
        program == startup.value.program && uniforms == startup.value.uniforms &&
        timeLoc == startup.value.timeLoc && mouseLoc == startup.value.mouseLoc
      ensures !isLoadShaderButtonPressed
    {
      match startup {
        case None =>
          program, uniforms, timeLoc, mouseLoc := 0, map[], -1, -1;
        case Some(loaded) =>
          program, uniforms, timeLoc, mouseLoc := loaded.program, loaded.uniforms, loaded.timeLoc, loaded.mouseLoc;
      }
      isLoadShaderButtonPressed := false;
    }

    /** `SendDefaultUniforms`. */
    method SendDefaultUniforms(cursor: Option<(int, int)>, time: real, gl: GLContext)
      modifies gl`calls
      ensures gl.calls == old(gl.calls) + DefaultCalls(mouseLoc, timeLoc, cursor, time)
    {
      if mouseLoc != -1 {
        if cursor.Some? {
          gl.Issue(UniformFloats(mouseLoc, [cursor.value.0 as real, cursor.value.1 as real]));
        }
      }
      if timeLoc != 0 {
        gl.Issue(UniformFloats(timeLoc, [time]));
      }
    }

    /**
     * The update walk over the map copy. An `unordered_map` is walked in an
     * unspecified order; the order taken is returned, and every entry is
     * visited once.
     */
    method UpdateWalk(copy: map<string, Uniform>, gl: GLContext) returns (order: seq<string>)
      requires AllWellFormed(copy)
      modifies gl`calls
      ensures IsOrderOf(order, copy)
      ensures gl.calls == old(gl.calls) + Pushes(copy, order)
    {
      var remaining := copy.Keys;
      order := [];
      WalkStart(copy.Keys);
      while remaining != {}
        invariant Walking(copy.Keys, remaining, order)
        invariant gl.calls == old(gl.calls) + Pushes(copy, order)
        decreases |remaining|
      {
        var k :| k in remaining;
        WalkStep(copy.Keys, remaining, order, k);
        PushesSnoc(copy, order, k);
        PushEntry(copy[k], gl);
        order := order + [k];
        remaining := remaining - {k};
      }
      WalkDone(copy.Keys, order, copy);
    }

    /** One entry of the update walk: the type switch picks the `glUniform*` call. */
    method PushEntry(u: Uniform, gl: GLContext)
      requires WellFormed(u)
      modifies gl`calls
      ensures gl.calls == old(gl.calls) + PushFor(u)
    {
      match UpdateShape(u.glType) {
        case Some(shape) =>
          if shape.kind == FloatKind {
            gl.Issue(UniformFloats(PushLocation(u.location), u.storage.floats));
          } else {
            gl.Issue(UniformInts(PushLocation(u.location), u.storage.ints));
          }
        case None =>
      }
    }

    /**
     * The present walk: each entry with a widget shows it, and a fitting
     * edit made through it is written into the manager's storage.
     */
    method PresentWalk(edits: map<string, UniformVar>) returns (order: seq<string>)
      requires Valid()
      modifies this`uniforms
      ensures Valid()
      ensures IsOrderOf(order, old(uniforms))
      ensures uniforms == ApplyEdits(old(uniforms), edits)
    {
      ghost var start := uniforms;
      var remaining := uniforms.Keys;
      order := [];
      WalkStart(start.Keys);
      PartlyEditedStart(start, edits);
      while remaining != {}
        invariant Walking(start.Keys, remaining, order)
        invariant uniforms == PartlyEdited(start, edits, remaining)
        decreases |remaining|
      {
        var k :| k in remaining;
        WalkStep(start.Keys, remaining, order, k);
        PartlyEditedStep(start, edits, remaining, k);
        ShowWidget(k, edits);
        order := order + [k];
        remaining := remaining - {k};
      }
      WalkDone(start.Keys, order, start);
      PartlyEditedDone(start, edits);
      ApplyEditsKeepsShape(start, edits);
    }

    /** One entry of the present walk: its widget writes a fitting edit into the storage. */
    method ShowWidget(k: string, edits: map<string, UniformVar>)
      requires k in uniforms
      modifies this`uniforms
      ensures uniforms == old(uniforms)[k := Edited(old(uniforms)[k], edits, k)]
    {
      var u := uniforms[k];
      if k in edits && Fits(u, edits[k]) {
        uniforms := uniforms[k := u.(storage := edits[k])];
      }
    }

    /**
     * `CheckImGUIButtons`: a path to load when the button was pressed in
     * the previous frame and the dialog produced one; a failed dialog only
     * logs.
     */
    method CheckImGUIButtons(dialog: Option<string>) returns (load: Option<string>)
      ensures load.Some? <==> isLoadShaderButtonPressed && dialog.Some?
      ensures load.Some? ==> load == dialog
    {
      if isLoadShaderButtonPressed {
        if dialog.Some? {
          return dialog;
        }
      }
      return None;
    }

    /**
     * One iteration of the application loop. `reload` is what the shader
     * manager ends up with when a load is requested (None: it kept its
     * shader); `pressed` is this frame's button result; `edits` are the
     * widgets' edits. The draw uses the program current before the button
     * check. Without a reload, the frame pushes the values from before the
     * edits and leaves the edits in the map for the next frame; with one,
     * no widget is shown over the released old map, so `shown` is empty.
     */
    method Frame(cursor: Option<(int, int)>, time: real, dialog: Option<string>, reload: Option<LoadedShader>,
                 pressed: bool, edits: map<string, UniformVar>, gl: GLContext) returns (shown: seq<string>)
      requires Valid()
      requires reload.Some? ==> AllWellFormed(reload.value.uniforms)
      modifies this, gl`calls
      ensures Valid()
      ensures isLoadShaderButtonPressed == pressed
      ensures exists order ::
        IsOrderOf(order, old(uniforms)) &&
        gl.calls == old(gl.calls) + DefaultCalls(old(mouseLoc), old(timeLoc), cursor, time) +
          Pushes(old(uniforms), order) + [UseProgram(old(program)), DrawQuad] +
          (if old(isLoadShaderButtonPressed) && dialog.Some? && reload.Some? then reload.value.calls else [])
      ensures old(isLoadShaderButtonPressed) && dialog.Some? && reload.Some? ==>
        program == reload.value.program && uniforms == reload.value.uniforms &&
        timeLoc == reload.value.timeLoc && mouseLoc == reload.value.mouseLoc &&
        shown == []
      ensures !(old(isLoadShaderButtonPressed) && dialog.Some? && reload.Some?) ==>
        program == old(program) && uniforms == ApplyEdits(old(uniforms), edits) &&
        timeLoc == old(timeLoc) && mouseLoc == old(mouseLoc) &&
        IsOrderOf(shown, old(uniforms))
    {
      var order := Render(cursor, time, gl);
      var load := CheckImGUIButtons(dialog);
      var reloads := load.Some? && reload.Some?;
      if reloads {
        Reload(reload.value, gl);
      }
      isLoadShaderButtonPressed := pressed;
      shown := [];
      if !reloads {
        shown := PresentWalk(edits);
      }
      assert IsOrderOf(order, old(uniforms));
    }

    /**
     * The wallpaper window's part of a frame: the built-in pushes, the
     * update walk over a copy of the map, then `Bind` and the draw.
     */
    method Render(cursor: Option<(int, int)>, time: real, gl: GLContext) returns (order: seq<string>)
      requires Valid()
      modifies gl`calls
      ensures IsOrderOf(order, uniforms)
      ensures gl.calls == old(gl.calls) + DefaultCalls(mouseLoc, timeLoc, cursor, time) +
        Pushes(uniforms, order) + [UseProgram(program), DrawQuad]
    {
      SendDefaultUniforms(cursor, time, gl);
      var copy := uniforms;
      order := UpdateWalk(copy, gl);
      gl.Issue(UseProgram(program));
      gl.Issue(DrawQuad);
    }

    /** A successful `SetShader` during the button check: the manager's state becomes the loaded one. */
    method Reload(loaded: LoadedShader, gl: GLContext)
      requires AllWellFormed(loaded.uniforms)
      modifies this`program, this`uniforms, this`timeLoc, this`mouseLoc, gl`calls
      ensures Valid()
      ensures program == loaded.program && uniforms == loaded.uniforms
      ensures timeLoc == loaded.timeLoc && mouseLoc == loaded.mouseLoc
      ensures gl.calls == old(gl.calls) + loaded.calls
    {
      program, uniforms, timeLoc, mouseLoc := loaded.program, loaded.uniforms, loaded.timeLoc, loaded.mouseLoc;
      IssueAll(loaded.calls, gl);
    }

    /** The calls a successful load issued, recorded in order. */
    method IssueAll(cs: seq<GLCall>, gl: GLContext)
      modifies gl`calls
      ensures gl.calls == old(gl.calls) + cs
    {
      var i := 0;
      while i < |cs|
        invariant 0 <= i <= |cs|
        invariant gl.calls == old(gl.calls) + cs[..i]
      {
        assert cs[..i + 1] == cs[..i] + [cs[i]];
        gl.Issue(cs[i]);
        i := i + 1;
      }
      assert cs[..i] == cs;
    }
  }
}
