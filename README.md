# Wave-impulse pool of the `Sketch` class, in Dafny

The sketch in `src/script.js` distorts the page with "waves". Moving the pointer
spawns a wave impulse into a fixed pool of 100 meshes. Each frame, the visible
meshes are drawn into an off-screen displacement texture and then decay. This
project models that pool and the arithmetic around it:

- the state the pool logic uses: the pointer, the previous pointer, the ring
  cursor `currentWave`, and per mesh its `visible` flag, position, rotation,
  opacity and `scale.x` / `scale.y`;
- `setNewWave`, `trackMousePos` with its 4-unit per-axis dead zone, and the
  decay loop at the end of `animate`;
- the conversion from window pointer coordinates to viewport coordinates done
  by the mouse-move listener;
- the orthographic frustum bounds computed by `initCamera` and `onResize`.

Layout:

- `geometry.dfy`, module `Geometry`: `Vec2`, the pointer conversion and its
  inverse, the frustum bounds, and a small `Viewport` class holding the canvas
  size and the bounds. Its invariant is that the bounds are never stale.
- `waves.dfy`, module `Waves`: the pool as a value (`Slot`, `Pool`) and the
  functions that specify each operation (`Respawn`, `Track`, `Decay`,
  `DecayAll`, `Advance`, `Frame`). The lemmas state the cursor and dead-zone
  rules, the ring wrap-around, the decay rules and the lifetime of one wave.
- `sketch.dfy`, module `Animation`: class `Sketch`, with an `array<Slot>` for
  the meshes. Its methods update that array and the pointer fields in place.
  Each method is proved equal to its function in `Waves`, and `Valid()`
  (every slot keeps its scale in [1, 5), its opacity in (0, 1], at least 0.002
  while visible, and `scaleY` either reset to 1 or `1.01 * scaleX`) is kept by
  all of them.

Opacity, scale, rotation and positions are Dafny `real`s. This idealises the
JavaScript doubles: nothing is rounded. So, for example, `0.93^n` is exact
here, while in the source it is a chain of rounded multiplications. The one
non-finite value the code can produce is kept: when the height is 0,
`height * (width / height)` is NaN, and `Extent.NaN` stands for it.

Behaviours of the code worth noting:

- the scale recurrence `sx := 0.98 * sx + 0.1` converges to 5, not 1
  (`Waves.ScaleXClosedForm`);
- a spawn keeps the mesh's rotation; only the pool's construction randomises it;
- a degenerate height of 0 gives NaN horizontal bounds; it is not clamped to 1;
- within a frame, spawning comes before the render and decay after it
  (`Waves.Frame`).

## Model

| member | source | states |
|---|---|---|
| Geometry.ToViewport | src/script.js:70-71 | the viewport x plus half the window width is the client x, and half the window height minus the viewport y is the client y |
| Geometry.ViewportRoundTrip | src/script.js:70-71 | converting a pointer to viewport space and back gives the original window coordinates |
| Geometry.WindowRoundTrip | src/script.js:70-71 | converting a viewport point to window space and back gives the original point |
| Geometry.ViewportCorners | src/script.js:70-71 | the window centre maps to the origin and the window's top-left corner to (-w/2, h/2), so y points up |
| Geometry.Frustum | src/script.js:130-136 | top is h/2 and bottom is -h/2; for h > 0, left is -w/2 and right is w/2; for h = 0 both horizontal bounds are NaN |
| Geometry.FrustumSpansCanvas | src/script.js:36-43 | for a nonzero height the bounds are finite, symmetric about the origin, right - left = width and top - bottom = height |
| Geometry.FrustumAfterResizeExample | src/script.js:126-136 | a resize to 1600 x 900 gives top 450, bottom -450, left -aspect*450 and right aspect*450 with aspect = 1600/900 |
| Geometry.Viewport.constructor | src/script.js:35-51 | the camera starts with the canvas size and the bounds computed from it |
| Geometry.Viewport.OnResize | src/script.js:126-137 | the new window size becomes the stored size, and the bounds are recomputed from it (never stale) |
| Waves.Initial | src/script.js:101-116 | the built pool has cursor 0, pointer and previous pointer at the origin, and 100 slots, each hidden at the origin with scale (1, 1), opacity 1 and its own given initial rotation; it satisfies the pool invariant |
| Waves.Track | src/script.js:156-168 | a tracker tick keeps the pool invariant: 100 slots, cursor in [0, 100) |
| Waves.Advance | src/script.js:210-218 | the decay loop keeps the pool invariant |
| Waves.Frame | src/script.js:170-218 | a frame (track, render, decay) keeps the pool invariant |
| Waves.DecayKeepsSlotOk | src/script.js:210-218 | one decay step keeps scale in [1, 5), opacity in (0, 1], at least 0.002 while visible, and either the reset scale (1, 1) or scaleY = 1.01 * scaleX; a slot that was visible ends with scaleY = 1.01 * scaleX |
| Waves.TrackEffect | src/script.js:157-167 | a tick spawns iff \|dx\| >= 4 or \|dy\| >= 4; a spawn rewrites only the cursor slot and moves the cursor to (c+1) % 100; otherwise slots and cursor are unchanged; afterwards prevMouse = mouse |
| Waves.RespawnResets | src/script.js:147-154 | a respawned slot is visible, at the given point, with scale (1, 1), opacity 1, and its old rotation |
| Waves.TrackAll | src/script.js:156-168 | one tracker tick per pointer sample keeps the pool invariant throughout |
| Waves.TrackAllCursor | src/script.js:157-163 | after a run of samples the cursor has advanced by the number of samples that left the dead zone around their predecessor, mod 100, and prevMouse is the last sample |
| Waves.WrapAround | src/script.js:161-163 | after exactly 100 spawns from cursor 0 the cursor is 0 again; spawn 101 overwrites slot 0 and moves the cursor to 1, and the pool still has 100 slots |
| Waves.DecayAllEffect | src/script.js:210-218 | decay keeps the pool length and leaves hidden slots untouched; for a visible slot, rotation + 0.02, opacity * 0.93, visible iff the new opacity >= 0.002, scaleX = 0.98 * old + 0.1, scaleY = 1.01 * new scaleX |
| Waves.AdvanceKeepsRest | src/script.js:210-218 | decay leaves the cursor, the pointer and the previous pointer unchanged, so a frame's cursor is the tracker tick's cursor |
| Waves.AdvanceIdleIsNoOp | src/script.js:210-218 | with no visible slot a decay step leaves the pool unchanged |
| Waves.DecayMonotone | src/script.js:213-216 | a visible slot's opacity strictly drops and its scaleX strictly grows while staying below 5 |
| Waves.OpacityFactorDecreasing | src/script.js:213 | 0.93^n is positive, at most 1, and strictly decreasing in n |
| Waves.OpacityThreshold | src/script.js:213-214 | 0.93^85 >= 0.002 > 0.93^86 |
| Waves.ScaleXClosedForm | src/script.js:215 | starting from 1, scaleX after n steps is 5 - 4 * 0.98^n |
| Waves.ScaleXAfterIncreasing | src/script.js:215 | starting from 1, scaleX is at least 1, strictly increasing and below 5 |
| Waves.YoungWave | src/script.js:210-218 | after n <= 85 decay steps a wave spawned at opacity 1 is visible and unmoved, with opacity 0.93^n, rotation old + 0.02 n, scaleX from the closed form and scaleY = 1.01 scaleX (for n >= 1) |
| Waves.FadedWave | src/script.js:213-214 | from decay step 86 on, a spawned wave is hidden and further decay leaves it unchanged |
| Waves.TenFrames | src/script.js:210-218 | ten frames after a spawn the wave is visible with opacity between 0.4839 and 0.4840 and rotation old + 0.2 |
| Waves.SpawnedWaveIsDrawnFresh | src/script.js:170-218 | a wave spawned in a frame is drawn in that frame visible at opacity 1, and leaves the frame decayed once (opacity 0.93) |
| Animation.Sketch.constructor | src/script.js:9-19 | the sketch starts with pointer and previous pointer at the origin, cursor 0, and a fresh 100-mesh pool equal to `Initial` |
| Animation.Sketch.OnMouseMove | src/script.js:68-73 | the pointer becomes the converted client position; nothing else changes |
| Animation.Sketch.SetNewWave | src/script.js:147-154 | only mesh `index` changes, to `Respawn` of its old state at (x, y); the invariant is kept |
| Animation.Sketch.TrackMousePos | src/script.js:156-168 | the new state equals `Track` of the old state, in place on the same array |
| Animation.Sketch.DecayWaves | src/script.js:210-218 | the new state equals `Advance` of the old one; the loop decays meshes 0..i-1 and leaves the rest for later |
| Animation.Sketch.Animate | src/script.js:170-218 | the slots handed to the render pass and the final state are exactly `Frame` of the old state |

## Left out

- Three.js objects: the scenes, `WebGLRenderer`, `ShaderMaterial` and its uniforms, the render target, the geometry, additive blending, and the camera's projection-matrix update. These are calls into a rendering library. `Animation.Sketch.Animate` returns the slots the render pass would draw instead of drawing them.
- The vertex and fragment shaders and the displacement compositing they do. They are not part of this model.
- `lil-gui` settings (`progress` is read by nothing), `OrbitControls`, and `THREE.Clock` with its elapsed time.
- DOM and canvas I/O: the `window` event listeners, `getContext`, `clearRect`, `drawImage(document.body, ...)`, `canvasTexture.needsUpdate`, `renderer.setSize` / `setPixelRatio`, the content canvas resize, and `requestAnimationFrame` scheduling. Pointer and window sizes are parameters.
- The stand-alone red-square canvas demo at the end of the file.
- `Math.random()` for the initial rotations: they are an arbitrary parameter of the constructor.
- IEEE-754 doubles: rounding, infinities, and the full NaN semantics. All quantities are exact reals, except the NaN horizontal bounds at height 0.
- Pool construction happens in `addObjects` in the source, but nothing there calls `addObjects` (or `initCamera`, `mouseEvents`, `setupResize`). `Animation.Sketch.constructor` builds the pool directly. It also gives each fresh mesh the Three.js defaults: position (0, 0), scale (1, 1), material opacity 1.
- Renderer wiring errors. Examples are `this.renderer = setPixelRatio(...)`, init methods that are never called, and `animate` never being started. As written, `animate` would also stop before its decay loop: `this.controls`, `this.canvasTexture` and `this.renderTarget` are never assigned. `Waves.Frame` and `Animation.Sketch.Animate` model the intended wiring: the init calls are made, and the canvas texture and render target exist.
- `Geometry.Viewport` keeps only the canvas size and the bounds. The near/far planes and the camera position are constants of the camera object and are not modelled.
