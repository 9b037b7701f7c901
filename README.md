# Wallpaper Engine core, modelled in Dafny

Wallpaper Engine draws a GLSL fragment shader full-screen behind the desktop
icons and shows a control window (ImGui) with a widget for every uniform the
shader exposes. This project models the program's core:

- **Wallpaper file splitting.** A wallpaper file holds a YAML metadata
  section and a shader section, each introduced by a `#section` line.
  `ParseWallpaperSource` splits the file into its two sections.
- **Wallpaper manager.** `WallpaperManager` compiles the fragment shader,
  parses the metadata and links a new program. It replaces the current
  program only when every one of these steps succeeds. It then rebuilds
  the uniform map by reflecting on the program's active uniforms.
- **Shader manager.** `ShaderManager` is the earlier revision. It loads a
  bare fragment shader, and on failure it behaves differently from the
  wallpaper manager.
- **Application frame.** Each frame sends the built-in uniforms (mouse
  position, time) and pushes every user uniform with the `glUniform*` call
  its type selects. The control window then offers a slider or check box
  whose range is fixed by that same type.
- **Small helpers.** These are the texture format mapping and single-owner
  texture handle, the vertex-buffer layout with its byte stride, and the
  vertex array, which gives attribute i the running offset.

The OpenGL driver is not modelled as behaviour. Everything the driver decides
reaches the operations as parameters: compile status, validate status, the
list of active uniforms, uniform locations and read-back values. What the
model keeps is the state the core is responsible for. That is which
shader, program and texture names are alive, and the sequence of
state-setting calls it issues (`GLDriver.GLContext`). The file system, the
YAML library, the native file dialog and the cursor query are also
parameters:
- a file is `Option<string>` (absent when it cannot be opened);
- the YAML outcome is a `YamlOutcome`;
- the dialog answer and the cursor position are `Option` values.

Integers keep the widths of the source where wrap-around can occur:
- 32-bit `unsigned int` strides;
- 64-bit `size_t` offsets;
- the reinterpretation of an unsigned uniform location as a `GLint`.

Uniform values are sequences of `int` or `real`; no arithmetic is done on them.

Files:
- `wrappers.dfy`: `Option`.
- `gl_driver.dfy`: enumerants, object lifetimes and the call log.
- `text.dfy`: `std::string::find`, `std::getline` line splitting and the line join.
- `wallpaper_types.dfy`: the records of `WallpaperManager.hpp`.
- `typed_uniform.dfy`: `Uniform.hpp`.
- `reflection.dfy`: the type classification and reflection loop that both managers share.
- `wallpaper_source.dfy`: the section splitter's specification.
- `wallpaper_manager.dfy`, `shader_manager.dfy`, `application.dfy`: the three classes.
- `texture.dfy` and `vertex_layout.dfy`: the helpers.

## Model

| member | source | states |
|---|---|---|
| GLDriver.AsGLint | src/core/Application.cpp:142 | an `unsigned int` location reinterpreted as `GLint` lies in the signed 32-bit range and agrees with it modulo 2^32 |
| GLDriver.GLContext.CreateShader | src/opengl/WallpaperManager.cpp:82 | a created shader name is fresh, non-zero, and added to the live shaders; nothing else changes |
| GLDriver.GLContext.CreateProgram | src/opengl/WallpaperManager.cpp:167 | a created program name is fresh, non-zero, and added to the live programs |
| GLDriver.GLContext.DeleteShader | src/opengl/WallpaperManager.cpp:102 | deleting removes exactly that name; 0 and dead names are ignored |
| GLDriver.CompileShader | src/opengl/WallpaperManager.cpp:80-108 | the shader survives exactly when it compiles; on failure the created object is deleted again and the live set is unchanged |
| Text.FindFromFirst | src/opengl/WallpaperManager.cpp:54-58 | `find` from a position gives the first occurrence at or after it, or npos (-1) exactly when there is none |
| Text.FindFirst | src/opengl/WallpaperManager.cpp:54-58 | `find` is not npos iff the pattern occurs, and then it is the first occurrence |
| Text.NewlineIndex | src/opengl/ShaderManager.cpp:47 | `getline` stops at the first newline or at the end of the text |
| Text.Lines | src/opengl/ShaderManager.cpp:47 | no line `getline` yields contains a newline |
| Text.JoinLinesAppend | src/opengl/ShaderManager.cpp:47-51 | joining with a "\n" after every line distributes over concatenation |
| Text.JoinLinesOfLines | src/opengl/ShaderManager.cpp:47-51 | reading lines and writing each back with "\n" gives the text with a final newline added when it is missing |
| Text.LinesOfJoinLines | src/opengl/ShaderManager.cpp:47-51 | splitting a join of newline-free lines gives the same lines back |
| WallpaperTypes.DefaultBuiltinLocations | src/opengl/WallpaperManager.hpp:17-20 | both built-in locations start at `GLint(GL_INVALID_INDEX)`, i.e. -1 |
| WallpaperTypes.BufferIndex | src/opengl/WallpaperManager.hpp:22-26 | METADATA and SHADER are 0 and 1 and are the only sections that index a buffer |
| WallpaperTypes.SourcesOf | src/opengl/WallpaperManager.hpp:28-31 | the sources hold the metadata buffer first and the shader buffer second |
| WallpaperTypes.EmptyMetadata | src/opengl/WallpaperManager.hpp:33-35 | value-initialised metadata has an empty name |
| TypedUniform.DefaultSliderRanges | src/opengl/Uniform.hpp:7-11 | both default slider ranges are [0, 100] |
| TypedUniform.DefaultIntMetadata | src/opengl/Uniform.hpp:21-26 | numeric metadata is value-initialised: empty name, min and max 0 |
| TypedUniform.DefaultFloatMetadata | src/opengl/Uniform.hpp:21-26 | the same for float metadata: min and max 0.0 |
| TypedUniform.DefaultBoolMetadata | src/opengl/Uniform.hpp:16-19 | boolean metadata carries only an empty name |
| TypedUniform.DefaultUniform | src/opengl/Uniform.hpp:30-34 | a default uniform has location -1 and no elements |
| TypedUniform.MakeUniform | src/opengl/Uniform.hpp:33 | the constructor stores the given values, location and metadata |
| TypedUniform.MakeUniformIgnoresSize | src/opengl/Uniform.hpp:33 | the `size` argument has no effect on the constructed uniform |
| Reflection.DescriptorShape | src/opengl/WallpaperManager.cpp:242-297 | exactly the float, int and bool types get a map entry; each has 1 to 4 components, floats are stored as floats, and BOOL is one int |
| Reflection.ComponentCounts | src/opengl/WallpaperManager.cpp:243-296 | the component count of each of the nine handled types, and that MAT2, SAMPLER_2D, BOOL_VEC2 and UNSIGNED_INT get none |
| Reflection.Classify | src/opengl/WallpaperManager.cpp:231-240 | a built-in is recognised only by name and type together; every other handled type is a descriptor with its storage shape |
| Reflection.Components | src/opengl/WallpaperManager.cpp:244-293 | the storage holds exactly as many values as the type has components, zero-filled where nothing was read, and a read-back of exactly that many values is kept whole |
| Reflection.ReadBackOverrun | src/opengl/WallpaperManager.cpp:244-293 | `glGetUniform*v` writes past the end of the buffer exactly when the uniform at the location read has more components than the buffer, and then by the difference |
| Reflection.ReadBackAtIndexOverruns | src/opengl/WallpaperManager.cpp:243-247 | as written, a `float` read back at its index, where a `vec4` lives, writes three floats past its one-float buffer, while its own location would not |
| Reflection.ReadBackAtOwnLocation | src/opengl/WallpaperManager.cpp:246 | read back at its own looked-up location, a descriptor fills its buffer exactly and nothing is written past the end |
| Reflection.Describe | src/opengl/WallpaperManager.cpp:246 | a map entry is well formed and records the given location and the type |
| Reflection.ReflectUniforms | src/opengl/WallpaperManager.cpp:228-299 | every entry of the reflected map is well formed and is never a built-in |
| Reflection.ReflectedKeys | src/opengl/WallpaperManager.cpp:228-299 | a name is in the map iff some active uniform with that name is a descriptor |
| Reflection.ReflectedEntry | src/opengl/WallpaperManager.cpp:246 | the entry for a name comes from its first descriptor occurrence; `insert` never overwrites |
| Reflection.LookedUpLocations | src/opengl/WallpaperManager.cpp:246 | with looked-up locations every entry records `glGetUniformLocation` of its name |
| Reflection.IndexLocations | src/opengl/ShaderManager.cpp:168-177 | with the index as location every entry records the position of its own active uniform |
| Reflection.FullReplace | src/opengl/WallpaperManager.cpp:217 | maps reflected from programs with disjoint uniform names share no key |
| Reflection.ReflectedTime | src/opengl/WallpaperManager.cpp:234-236 | the time location is looked up iff an `iTime` of type FLOAT is active, else it keeps its start value |
| Reflection.ReflectedMouse | src/opengl/WallpaperManager.cpp:237-239 | the same for `iMouse` of type FLOAT_VEC2 |
| Reflection.ResolutionWrites | src/opengl/WallpaperManager.cpp:231-233 | the only calls issued during reflection set `iResolution` to the window size, issued iff such a uniform is active |
| WallpaperSource.KindOfMeaning | src/opengl/WallpaperManager.cpp:54-62 | a line is a marker iff it contains "#section"; "metadata" wins over "shader" on the same line |
| WallpaperSource.Selects | src/opengl/WallpaperManager.cpp:55-61 | a recognised marker always selects a section |
| WallpaperSource.Step | src/opengl/WallpaperManager.cpp:53-65 | one line keeps the two section buffers |
| WallpaperSource.Scan | src/opengl/WallpaperManager.cpp:53-66 | scanning keeps the two section buffers |
| WallpaperSource.ScanFound | src/opengl/WallpaperManager.cpp:51-60 | the shader flag is set iff some line is a shader marker |
| WallpaperSource.ScanBuffers | src/opengl/WallpaperManager.cpp:63-65 | each buffer is the join of the lines selected for its section, in order, each followed by one "\n" |
| WallpaperSource.ScanIsReference | src/opengl/WallpaperManager.cpp:49-66 | the loop's section, flag and buffers equal the reference definitions |
| WallpaperSource.NoSectionBeforeMarker | src/opengl/WallpaperManager.cpp:49-63 | without a recognised marker the section never leaves its start value |
| WallpaperSource.SectionFromConcat | src/opengl/WallpaperManager.cpp:53-62 | the section after two blocks of lines is the section after the second, started from the first |
| WallpaperSource.SelectedFromConcat | src/opengl/WallpaperManager.cpp:63-65 | the lines selected from two blocks are the first block's followed by the second's |
| WallpaperSource.SplitConcat | src/opengl/WallpaperManager.cpp:63-76 | repeated sections of the same kind are concatenated |
| WallpaperSource.DroppedBeforeFirstMarker | src/opengl/WallpaperManager.cpp:49-63 | lines before the first recognised marker reach neither output |
| WallpaperSource.SelectedAreBodyLines | src/opengl/WallpaperManager.cpp:54-64 | every copied line is a line of the file and never a marker line |
| WallpaperSource.SplitWallpaperFileSpec | src/opengl/WallpaperManager.cpp:38-78 | parsing succeeds iff the file opens and has a shader marker; the outputs are the joined sections, and they split back into their lines |
| Wallpaper.ParseWallpaperMetadata | src/opengl/WallpaperManager.cpp:110-125 | a load failure throws, a bad conversion returns false, and a missing key leaves the name empty; the success path returns whatever the missing return leaves |
| Wallpaper.MetadataFor | src/opengl/WallpaperManager.cpp:145-164 | an empty metadata section skips YAML; otherwise metadata is produced only when the parse reports success |
| Wallpaper.AdoptedExactly | src/opengl/WallpaperManager.cpp:128-182 | a wallpaper is adopted iff the file parses, the shader compiles, the metadata is empty or parses with success, and the program validates |
| Wallpaper.EmptyMetadataSkipsYaml | src/opengl/WallpaperManager.cpp:146-148 | with an empty metadata section the YAML outcome is irrelevant and the name stays empty |
| Wallpaper.AdoptedName | src/opengl/WallpaperManager.cpp:115-189 | an adopted wallpaper whose YAML has a name carries that name |
| Wallpaper.WallpaperManager.Init | src/opengl/WallpaperManager.hpp:40-54 | a fresh manager has program 0, vertex shader 0, no uniforms, default built-in locations, empty metadata and no wallpaper |
| Wallpaper.WallpaperManager.LoadVertexShader | src/opengl/WallpaperManager.cpp:19-36 | an unopenable file throws; a compile failure leaves the vertex shader 0 and no new object; otherwise a fresh shader is kept |
| Wallpaper.WallpaperManager.Create | src/opengl/WallpaperManager.cpp:10-12 | construction fails exactly when the vertex shader file cannot be opened, and otherwise yields the initial state |
| Wallpaper.WallpaperManager.Dispose | src/opengl/WallpaperManager.cpp:14-17 | the destructor releases the vertex shader and the program |
| Wallpaper.WallpaperManager.ParseWallpaperSource | src/opengl/WallpaperManager.cpp:38-78 | the getline loop computes the splitter's specification: success iff a shader marker exists, with the joined sections as outputs |
| Wallpaper.WallpaperManager.PrepareFragment | src/opengl/WallpaperManager.cpp:133-164 | parse, compile and metadata steps; every failure path leaves no shader object behind |
| Wallpaper.WallpaperManager.SwapProgram | src/opengl/WallpaperManager.cpp:184-189 | the old program and the fragment shader are deleted, the new program becomes current and the metadata is stored |
| Wallpaper.WallpaperManager.RebuildUniforms | src/opengl/WallpaperManager.cpp:191-299 | the map is rebuilt from nothing with looked-up locations, the built-ins are reset and then reflected, and only the resolution calls are issued |
| Wallpaper.WallpaperManager.ReflectOneUniform | src/opengl/WallpaperManager.cpp:230-298 | one active uniform: a built-in name records its location, `iResolution` is set to the window size, any other name gets an entry of its type at its looked-up location |
| Wallpaper.WallpaperManager.TrySetWallpaper | src/opengl/WallpaperManager.cpp:128-302 | a rejected file changes nothing at all; an adopted one swaps in a fresh program, replaces metadata, uniforms and built-ins and sets the wallpaper flag |
| Wallpaper.WallpaperManager.Adopt | src/opengl/WallpaperManager.cpp:184-300 | the new program replaces and deletes the old one, the fragment shader is released, the metadata is replaced and the uniforms are reflected anew |
| Shaders.DefaultBuiltinLocationsStruct | src/opengl/ShaderManager.hpp:10-14 | all three built-in locations start at -1 |
| Shaders.ReflectedStruct | src/opengl/ShaderManager.cpp:155-164 | reflection never writes the resolution location |
| Shaders.BuiltinsNotReset | src/opengl/ShaderManager.cpp:155-164 | with no active `iTime`/`iMouse` the previous program's locations survive a load |
| Shaders.IndexIsNotLocation | src/opengl/ShaderManager.cpp:168-171 | a float at location 3 that is the only active uniform is recorded with location 0 |
| Shaders.ShaderManager.Init | src/opengl/ShaderManager.hpp:19-28 | a fresh manager has program 0, vertex shader 0, no uniforms and default built-ins |
| Shaders.ShaderManager.ParseShader | src/opengl/ShaderManager.cpp:35-58 | an unopenable file fails; otherwise the output is the text with every line ending in "\n", and it fails iff the stream went bad |
| Shaders.ShaderManager.LoadShader | src/opengl/ShaderManager.cpp:20-33 | it succeeds iff parse and compile do; only success leaves a new shader object |
| Shaders.ShaderManager.Create | src/opengl/ShaderManager.cpp:7-13 | construction fails exactly when the default vertex shader does not load |
| Shaders.ShaderManager.Dispose | src/opengl/ShaderManager.cpp:15-18 | the destructor releases the vertex shader and the program |
| Shaders.ShaderManager.ReflectActive | src/opengl/ShaderManager.cpp:145-228 | the map is built with the active index as location; the built-in locations are overwritten only where found |
| Shaders.ShaderManager.ReflectOneUniform | src/opengl/ShaderManager.cpp:155-220 | one active uniform: a built-in name records its location, any other name gets an entry of its type whose location is the active index |
| Shaders.ShaderManager.SetFragmentShader | src/opengl/ShaderManager.cpp:92-144 | the map is cleared first, and a failed load deletes the unwritten handle; otherwise the old program is replaced before validation, and a validation failure leaks the fragment shader |
| App.UpdateShapeIsStorageShape | src/core/Application.cpp:145-182 | the push switch sends 1–4 floats or ints for exactly the types that are stored, with the stored shape; BOOL is one int |
| App.WidgetMatchesStorage | src/core/Application.cpp:211-248 | float types get float sliders over [0, 10], int types int sliders over [0, 100], BOOL a check box, and other types nothing |
| App.PushLocation | src/core/Application.cpp:142 | the location passed to `glUniform*` is a signed 32-bit value |
| App.PushLocationRoundTrip | src/core/Application.cpp:142 | storing a `GLint` location as `unsigned int` and passing it back loses nothing |
| App.PushForSendsStorage | src/core/Application.cpp:145-182 | each entry is pushed with one call of its storage's kind, carrying its stored values |
| App.PushesSnoc | src/core/Application.cpp:141-183 | walking one more entry appends exactly that entry's push |
| App.PushesOnePerEntry | src/core/Application.cpp:141-183 | the update walk issues one call per entry, in walk order |
| App.WalkDone | src/core/Application.cpp:141 | an iterator walk that removes each key once visits every key of the map exactly once |
| App.ApplyEdits | src/core/Application.cpp:207-249 | editing keeps the set of uniform names |
| App.ApplyEditsKeepsShape | src/core/Application.cpp:207-249 | widgets change values only: location, type and shape are kept, and an edit that fits replaces the stored value |
| App.EditPushedNextFrame | src/core/Application.cpp:145-249 | a value edited in the control window is what the next frame pushes |
| App.MouseGuard | src/core/Application.cpp:282-289 | the mouse is pushed iff its location is not -1 and the cursor query succeeds |
| App.TimeGuardAsWritten | src/core/Application.cpp:291-294 | as written, time is pushed to the absent location -1 and not to location 0 |
| App.WidgetEntries | src/core/Application.cpp:207-249 | the present walk dereferences the storage of exactly the visited entries whose type has a widget |
| App.ReloadFrameUsesReleasedStorage | src/core/Application.cpp:207-249 | as written, in a frame that reloads the shader every old entry with a widget is shown through released storage, whatever the walk order; a frame without a reload touches none |
| App.IntendedTimeGuard | src/core/Application.cpp:291-294 | with the intended guard, time is pushed exactly when `iTime` has a location |
| App.Application.constructor | src/core/Application.cpp:114-115 | the loop starts from the default shader's program, map and built-in locations when its load succeeds, and otherwise from a fresh manager (program 0, no uniforms, both locations -1); the button starts released |
| App.Application.SendDefaultUniforms | src/core/Application.cpp:280-295 | the calls issued are the mouse and time pushes the guards select |
| App.Application.UpdateWalk | src/core/Application.cpp:140-183 | the loop visits every entry of the map copy once and issues exactly its pushes |
| App.Application.PushEntry | src/core/Application.cpp:142-182 | one entry issues exactly the upload call of its type, with its location and value |
| App.Application.PresentWalk | src/core/Application.cpp:207-249 | the widget loop visits every entry and leaves the map edited as the widgets report |
| App.Application.ShowWidget | src/core/Application.cpp:207-248 | one widget edits its own entry, as reported, and no other |
| App.Application.CheckImGUIButtons | src/core/Application.cpp:265-278 | a new shader is loaded iff the button was pressed and the dialog returned a path |
| App.Application.Frame | src/core/Application.cpp:131-256 | one frame issues the built-in pushes, one push per uniform, `glUseProgram` of the current program and the draw, then the reload's own calls; it records the button; a reload replaces program, uniforms and locations and shows no widget over the released map, otherwise every entry's widget is shown and the edits are applied |
| App.Application.Render | src/core/Application.cpp:134-185 | the wallpaper window's calls, in order: built-in pushes, one push per entry of the map copy, `glUseProgram` of the current program (`Bind`), the draw |
| App.Application.Reload | src/core/Application.cpp:272 | a successful `SetShader` replaces program, uniform map and both built-in locations, and its calls are appended to the log |
| App.Application.IssueAll | src/core/Application.cpp:272 | the calls of a load are recorded whole and in order |
| Textures.TextureFormatChannels | src/opengl/Texture.cpp:12-29 | 1, 3 and 4 channels map to a format carrying that many channels; every other count, 2 included, maps to GL_INVALID_VALUE |
| Textures.ChannelsOf | src/opengl/Texture.cpp:12-29 | only RED, RGB and RGBA carry channels |
| Textures.UploadFormat | src/opengl/Texture.cpp:55-59 | the upload format is always RED, RGB or RGBA, and an invalid mapping becomes RGBA |
| Textures.UploadCalls | src/opengl/Texture.cpp:54-67 | a decoded image is uploaded once, with its size; a failed decode uploads nothing |
| Textures.Texture.Load | src/opengl/Texture.cpp:47-72 | a fresh texture name is generated on both paths, followed by the upload |
| Textures.Texture.Move | src/opengl/Texture.cpp:31-34 | the move constructor takes over the name and leaves the source with 0 |
| Textures.Texture.MoveAssign | src/opengl/Texture.cpp:36-45 | self-assignment changes nothing; otherwise the old name is released, the source's is taken over and the source zeroed |
| Textures.Texture.Dispose | src/opengl/Texture.cpp:75-78 | the destructor releases the owned name |
| Textures.MoveThenDispose | src/opengl/Texture.cpp:36-78 | after a move, destroying both textures releases the moved name and the target's old one |
| Vertex.SizeOfKnownTypes | src/vertex/VertexBufferLayout.cpp:11-18 | (the table itself is `GetSize` in `Wallpaper Engine/src/vertex/VertexBufferLayout.hpp`, lines 10-24) the size is 4 for FLOAT and UNSIGNED_INT, 1 for UNSIGNED_BYTE, and 0 for every other type |
| Vertex.NoWrap | src/vertex/VertexBufferLayout.cpp:11-18 | while the total stays below the word size, the wrapping accumulator holds the exact sum |
| Vertex.VertexBufferLayout.constructor | src/vertex/VertexBufferLayout.cpp:3-5 | a new layout has no elements and stride 0 |
| Vertex.VertexBufferLayout.AddFloatAttribute | src/vertex/VertexBufferLayout.cpp:7-12 | it appends `{GL_FLOAT, n, GL_FALSE}`, adds 4n to the 32-bit stride, keeps the earlier elements and preserves the layout invariant |
| Vertex.VertexBufferLayout.AddUnsignedIntAttribute | src/vertex/VertexBufferLayout.cpp:14-19 | it appends `{GL_UNSIGNED_INT, n, GL_FALSE}` and adds 4n to the stride, keeping the invariant |
| Vertex.VertexBufferLayout.GetElements | src/vertex/VertexBufferLayout.cpp:21-24 | the elements come back in insertion order, none normalised |
| Vertex.VertexBufferLayout.GetStride | src/vertex/VertexBufferLayout.cpp:26-29 | the stride is the 32-bit sum of the element sizes, and the exact sum when that fits |
| Vertex.AttribCalls | src/vertex/VertexArray.cpp:19-25 | two calls are issued per element |
| Vertex.AttribCallAt | src/vertex/VertexArray.cpp:19-25 | attribute i is enabled and then pointed with its own count, type and flag, the layout's stride, and the size of the elements before it as offset; attribute 0 has offset 0 |
| Vertex.FinalOffsetIsStride | src/vertex/VertexArray.cpp:19-25 | without 32-bit overflow, the offset after the last attribute equals the stride |
| Vertex.VertexArray.constructor | src/vertex/VertexArray.cpp:4-7 | a new vertex array gets a fresh, non-zero name unused by any shader, program or texture |
| Vertex.VertexArray.Bind | src/vertex/VertexArray.cpp:28-32 | binding makes this array current |
| Vertex.VertexArray.Unbind | src/vertex/VertexArray.cpp:34-37 | unbinding appends exactly `glBindVertexArray(0)` to the log |
| Vertex.VertexArray.AddBuffer | src/vertex/VertexArray.cpp:14-26 | the array and the buffer are bound before any attribute is set; the attribute calls follow in index order, and the final offset equals the stride when nothing overflows |
| Vertex.VertexArray.PointAttributes | src/vertex/VertexArray.cpp:19-25 | one enabled attribute pointer per element, in index order, each at the total size of the elements before it |

## Left out

- Logging, the Win32 wallpaper and desktop-window calls, the GLFW windows, ImGui drawing and `main` are left out: they decide nothing the model states.
- The image decoder (`stbi_load`) and `stbi_image_free` are left out: the decoded image is a parameter, and Dafny has no manual memory to free.
- The texture parameters, `glGenerateMipmap`, `Texture::Bind`/`Unbind` and the vertex-array destructor are left out: they set driver state the model does not keep.
- The `delete`/`delete[]` switch that frees uniform storage before the map is cleared is left out. Storage is a value in the model, so clearing the map is all there is.
- The 16-byte name buffer of `glGetActiveUniform` is left out. Longer names are truncated to 15 characters there; the model uses full names.
- Uniform read-backs are parameters. The source reads them back at location `i`, the active-uniform index.
- Reflection.Components: a read-back longer than the buffer is truncated to the buffer's length. In the source that is a write past the end of the `new T[n]{}` buffer (see the third finding); the model keeps the first `n` values and does not model the corrupted heap.
- Float values are opaque `real`s, so single-precision rounding is not modelled. The window size and cursor position are converted exactly.
- A BOOL uniform is read and pushed as one `int`. The byte reinterpretation through `bool*` is not modelled.
- The `std::any` and `void*` storage behind the uniform map, and the pointers the widgets write through, are modelled by value. The map copy taken at the top of a frame shares its storage with the manager. After a successful reload in the middle of a frame that storage has been deleted (`ClearUniformMap`), and the source's widgets then read and write released memory (see the fourth finding). `App.Application.Frame` shows no widget in such a frame instead.
- The oldest `ShaderManager` (`Wallpaper Engine/src/shader/ShaderManager.cpp`) is not part of this model. The application sees only its outcome (`App.LoadedShader`): the new program, uniform map and two built-in locations, and the calls the load issued.
- `Wallpaper.ParseWallpaperMetadata`: the success path has no `return` statement, so its result is undefined behaviour. It is modelled as an unknown boolean parameter, `undefinedReturn`.
- `Shaders.ShaderManager.SetFragmentShader`: a failed load deletes a local handle that was never written. That value is a parameter, `uninitialisedHandle`.
- TypedUniform: the records of `Uniform.hpp` are modelled as data. Their constructors' contracts restate the fields, and neither manager uses the metadata-driven `Uniform<T>`; the application model uses only the default int slider range.
- Linking is covered by the `validates` parameter, including a program whose vertex shader is 0 because it did not compile.
- Vertex.AttribCalls: the stride and the component count are logged as the `unsigned int` values of the layout. `glVertexAttribPointer` takes them as `GLsizei` and `GLint` (src/vertex/VertexArray.cpp:23), so a stride or count of 2^31 or more would reach the driver negative; that reinterpretation is not modelled.
- `GLDriver.GLContext` draws shader, program, texture and vertex-array names from one counter. Real drivers keep one name space per kind; the model only relies on a new name being unused.

## Findings

| source | as written | input that shows it | evidently intended | confidence | as-written member | corrected member |
|---|---|---|---|---|---|---|
| src/core/Application.cpp:292-294 | time is pushed when `m_TimeUniformLoc` is non-zero | a shader whose `iTime` has location 0 never receives the time; a shader without `iTime` (location -1) gets a push | push when the location is not -1 | high, not executed | App.TimeGuardAsWritten | App.IntendedTimeGuard |
| src/opengl/ShaderManager.cpp:168-220 | each map entry's location is the active-uniform index `i` | only active uniform `float speed` at location 3: the entry records 0, so pushes go to location 0 | record `glGetUniformLocation(program, name)`, as src/opengl/WallpaperManager.cpp:246 does | high, not executed | Shaders.IndexIsNotLocation | Reflection.LookedUpLocations |
| src/opengl/WallpaperManager.cpp:243-295 | each descriptor is read back with `glGetUniform*v(program, i, buf)` at its active index `i`, into a buffer sized for its own type | active uniform 0 is `float speed` at location 1 and location 0 holds `vec4 tint`: four floats are written into a one-float buffer | read back at the location `glGetUniformLocation` returned, as the entry records | medium, not executed | Reflection.ReadBackAtIndexOverruns | Reflection.ReadBackAtOwnLocation |
| src/core/Application.cpp:207-249 | the present walk runs over the map copy of line 140, whose storage pointers a successful `SetShader` during the button check has deleted | a frame that reloads a shader while the old one has a `float speed` uniform: its slider reads, and on a drag writes, released memory | show the widgets over the live map, or none in a reload frame | high, not executed | App.ReloadFrameUsesReleasedStorage | App.Application.Frame |
