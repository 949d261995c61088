# Audio visualiser game: a Dafny model of its core

The system is a browser visualiser. Each frame it samples an audio analyser's
frequency bins, draws them as a ring of bars that slowly turns, and optionally
post-processes the canvas pixels with noise, inversion and emboss. It also runs
a small game on top. A spawner watches every fourth bin for a sudden jump or a
loud sample. For each bin that fires it launches a projectile from the tip of
that bin's bar towards the centre of the screen. Each frame the game loop walks
the shared array, moves each projectile it visits, flags the ones that reach the
centre, and splices them out of the array; the projectile just after a removed
one is not visited in that frame.

The model covers three source files:

- `src/main.js`:
  - the spawner and its cache of previous samples;
  - the spawn timer;
  - the game loop and clearing;
  - the play / pause / track-change flags.
- `src/canvas.js`:
  - the order of the draw layers;
  - the bar heights;
  - the rotation angle;
  - the in-place raster effects.
- `src/classes.js`: the `Projectile` class.

Modules:

- `Samples` (samples.dfy): byte samples and the spawner's firing test. It defines the bars that fire in one pass, the refreshed cache, the bar height and the spawn radius.
- `Entities` (entities.dfy):
  - `Body`, a projectile's fields as a value, with the pure meaning of the constructor, `move()` and `collision()`;
  - the `Projectile` class, whose methods update its fields in place.
- `Sweep` (sweep.dfy): a generic model of a `for ... of` loop that splices the current element out of the array it walks. Because the array iterator keeps a numeric index, the element after a removed one is skipped. `Survivors` and `Touched` describe the outcome on the original array, and the lemmas connect the loop to them.
- `Raster` (raster.dfy): the specification functions of `effects()` and the in-place method over an `array<Byte>`. It has a per-pixel loop, then a separate emboss loop.
- `Render` (render.dfy): the `Canvas` class, which holds the rotation `angleOffset`, the raster, and a log of the layers `draw()` has painted.
- `Game` (game.dfy): the `Game` class, holding main.js's module state:
  - the analyser buffer;
  - the previous-sample cache;
  - the projectile array;
  - the spawn timer;
  - the score.

  Its methods are `init()`'s set-up, `spawnProjectiles()`, `gameLoop()`, `clearProjectiles()` and one call of `loop()`.
- `Controls` (controls.dfy): the two `dataset` flags of the play button, with the click handler and the track-change handler.

The model follows the code as written; in particular:

- the projectile speed is fixed at 200 whatever the caller passes;
- the radius is ten times the argument;
- projectiles fly in a straight line to the centre; they do not home in on a player;
- `collision()` takes no argument, so the score never changes;
- after a splice, the next element is skipped in that frame.

## Model

| member | source | states |
|---|---|---|
| Samples.Fires | src/main.js:243 | the spawner's test on one bin: the sample differs from the cached one by more than 20, or exceeds 230 |
| Samples.BarCount | src/main.js:225 | the bar count length / 4 as a real number, not rounded |
| Samples.FiredBars | src/main.js:238-243 | the bars one spawner pass fires, in the order the loop visits them |
| Samples.Refreshed | src/main.js:243-256 | the cache after a pass: the bin of each fired bar takes the current sample, every other entry is kept |
| Samples.LoudAlwaysFires | src/main.js:243 | a sample above 230 fires whatever the cache holds |
| Samples.QuietFiresOnJump | src/main.js:243 | a sample of at most 230 fires exactly when it differs from the cached one by more than 20 |
| Samples.BarHeight | src/canvas.js:97 | the bar height 70·s/255 + 200 lies in [200, 270], is 200 at s = 0 and 270 at s = 255 |
| Samples.BarHeightMonotone | src/canvas.js:97 | a louder sample never gives a shorter bar |
| Samples.SpawnRadius | src/main.js:245-246 | the spawn radius outerRadius − height lies in [innerRadius, innerRadius + 70] |
| Samples.BarIndexInBounds | src/main.js:238-241 | bar i passes the loop test `i < length / 4` exactly when the bin it reads, 4·i, is inside the buffer, including lengths that are not multiples of 4 |
| Samples.FiredFrom | src/main.js:238-243 | the bars listed from bar i on are in range, fire, and come in strictly increasing order |
| Samples.FiredFromComplete | src/main.js:238-243 | every bar from i on that is in range and fires is listed |
| Samples.FiredBarsExactly | src/main.js:238-243 | a bar is listed by a spawner pass if and only if its bin is in range and fires |
| Samples.RefreshedOnlyFired | src/main.js:243-257 | after a pass, a cache entry differs from before only at the bin of a fired bar, and every such bin holds the current sample |
| Samples.RefreshedBelow | src/main.js:238-257 | the cache partway through a pass keeps the length of the cache |
| Samples.PassStep | src/main.js:238-257 | one iteration of the spawner loop: the bar's bin still holds its old cached value, and the bar is listed and its bin refreshed exactly when it fires |
| Samples.PassEnd | src/main.js:238-258 | when the loop ends, the listed bars are all the fired bars and the cache is the refreshed one |
| Samples.RefreshSettles | src/main.js:243-256 | a second pass on the same samples against the refreshed cache fires exactly the bars louder than 230 |
| Entities.Launched | src/classes.js:3-13 | the constructor sets speed to 200 whatever the speed argument, radius to 10 × the argument, destroy to false, and copies position, destination and damage |
| Entities.Projectile.constructor | src/classes.js:3-13 | the new object's fields are those of Launched, with damage 1 when none is passed |
| Entities.Reached | src/classes.js:33-35 | the collision test distance < radius, compared on squares, false for a radius of 0 or less |
| Entities.SqDistSign | src/classes.js:33 | the squared distance is never negative, and is zero on the destination |
| Entities.ReachedIsDistanceBelowRadius | src/classes.js:33-35 | for the true non-negative distance d, the squared test of the model holds if and only if d < radius |
| Entities.Collided | src/classes.js:31-39 | destroy becomes set exactly when it was set or the destination is reached (never for a NaN position), and no other field changes |
| Entities.CollisionIdempotent | src/classes.js:35-38 | collision() never clears destroy, and a second call changes nothing |
| Entities.NeverDestroyed | src/classes.js:11-38 | a projectile of radius ≤ 0 or with a NaN position is never destroyed by move() and collision(); radius argument 0 gives such a projectile |
| Entities.Projectile.Collision | src/classes.js:31-39 | the fields after the call are Collided of the fields before |
| Entities.Moved | src/classes.js:41-47 | move() changes only the position (destroy, radius, speed, damage and destination are kept); the position becomes NaN exactly when it was NaN or the distance is zero |
| Entities.MovedDistance | src/classes.js:43-46 | a move at positive distance d leaves the projectile at distance \|d − speed·dt\| from its destination |
| Entities.OnTargetBecomesNaN | src/classes.js:43-46 | a projectile exactly on its destination gets a NaN position from the next move |
| Entities.Projectile.Move | src/classes.js:41-47 | the fields after the call are Moved of the fields before |
| Sweep.Swept | src/main.js:262-272 | the for-of loop as the iterator runs it: at index i a flagged element is spliced out and the index still advances, otherwise the index advances |
| Sweep.Visited | src/main.js:262-272 | the elements the for-of loop's iterator hands to the body, from index i on |
| Sweep.IndexOf | src/main.js:270 | indexOf returns −1 exactly when the element is absent, and otherwise its first position |
| Sweep.IndexOfDistinct | src/main.js:270 | in an array with no repeats, indexOf of the element at k is k |
| Sweep.MidwayStep | src/main.js:262-271 | one iteration of the for-of loop keeps the loop's progress invariant, both when it splices and when it does not, and indexOf finds the current element at the iterator's index |
| Sweep.MidwayEnd | src/main.js:262-272 | when the iterator runs off the end, the array is Survivors of the original array and the visited elements are Touched |
| Sweep.SweptIsSurvivors | src/main.js:262-272 | the index-based loop with splicing leaves exactly Survivors of the original array |
| Sweep.VisitedIsTouched | src/main.js:262-272 | the index-based loop visits exactly Touched of the original array |
| Sweep.Survivors | src/main.js:262-272 | the loop never lengthens the array |
| Sweep.TouchedWithin | src/main.js:262 | only elements of the array are visited |
| Sweep.SurvivorsKeepOrder | src/main.js:268-271 | the survivors are the original array, in the original order, with exactly the visited flagged elements taken out |
| Sweep.RemovedExactly | src/main.js:268-271 | an element is removed if and only if it was visited and flagged |
| Sweep.SkipsNextAfterRemoval | src/main.js:262-271 | the element just after a removed one is not visited in that frame |
| Sweep.NoAdjacentDoomed | src/main.js:262-271 | when no two neighbours are both flagged, every flagged element is removed |
| Sweep.SecondOfTwoDoomedSurvives | src/main.js:262-271 | of two flagged neighbours, the second is neither visited nor removed |
| Sweep.NothingDoomed | src/main.js:262-271 | with nothing flagged, every element is visited and kept |
| Raster.Tint | src/canvas.js:169-183 | one colour byte of the per-pixel step: 170 when noise is on and the pixel is drawn, then 255 − c when invert is on |
| Raster.FirstPass | src/canvas.js:166-184 | the buffer after the step-4 loop: every colour byte Tint-ed with its pixel's draw, every alpha byte kept |
| Raster.EmbossAt | src/canvas.js:190 | the value stored at colour byte i: 127 + 2·c − right − below, clamped, and 0 when a neighbour lies past the end |
| Raster.Embossed | src/canvas.js:186-192 | the buffer after the emboss loop, each colour byte's EmbossAt taken on the buffer before the loop, alpha bytes kept |
| Raster.Effected | src/canvas.js:159-196 | the buffer after effects(): FirstPass, then Embossed when emboss is on |
| Raster.Clamp | src/canvas.js:190 | a Uint8ClampedArray stores values in range unchanged, negatives as 0 and values above 255 as 255 |
| Raster.Effects | src/canvas.js:159-196 | the buffer after effects() is the per-pixel pass of the old buffer, embossed when emboss is on |
| Raster.PixelPass | src/canvas.js:166-184 | the step-4 loop leaves every colour byte noised (when drawn) and then inverted, and every alpha byte as it was |
| Raster.EmbossPass | src/canvas.js:186-192 | the in-place emboss loop gives the kernel applied to the buffer as it stood before the loop, because every byte it reads lies after the byte it writes |
| Raster.NoEffectsIsIdentity | src/canvas.js:166-192 | with every effect off the buffer is unchanged |
| Raster.AlphaUntouched | src/canvas.js:188-189 | no effect changes an alpha byte |
| Raster.InvertOnly | src/canvas.js:178-183 | inversion alone maps every colour byte c to 255 − c |
| Raster.InvertTwice | src/canvas.js:178-183 | inverting twice gives the buffer back |
| Raster.NoiseOnly | src/canvas.js:169-176 | noise alone sets the colour bytes of drawn pixels to 170 and leaves every other byte alone |
| Raster.NoisedThenInverted | src/canvas.js:169-183 | noise runs before inversion in the same pixel step, so a noised pixel with inversion on ends at 85 |
| Raster.PicksIgnoredWithoutNoise | src/canvas.js:169 | the random draws matter only when noise is on |
| Raster.EmbossUniform | src/canvas.js:188-190 | a uniform colour embosses to 127 on every colour byte that has both neighbours |
| Raster.EmbossLastRowBlack | src/canvas.js:190 | colour bytes whose lower neighbour lies past the end emboss to 0 (NaN stored as 0) |
| Render.DefaultsDrawBarsOnly | src/main.js:14-22 | with the start-up switches a frame paints the fade, the bars, the objects and the post-effects, and the post-effects leave the raster unchanged |
| Render.Heights | src/canvas.js:90-102 | one bar height per sample, each in [200, 270] |
| Render.Spun | src/canvas.js:104-107 | the rotation after a frame: unchanged without bars, otherwise grown by π/36·dt and set to 0 exactly when the sum equals 2π |
| Render.Layers | src/canvas.js:37-43 | the layers one draw() paints, in order: fade, gradient if on, bars at the current rotation if on, circles if on, objects, post-effects |
| Render.SpinOnlyWithBars | src/canvas.js:104-107 | the rotation is unchanged in a frame without bars, and in a frame with bars and dt ≠ 0 it moves unless it lands on 2π |
| Render.SpinGrows | src/canvas.js:105-107 | with dt ≥ 0 the rotation never decreases except at the reset to 0 |
| Render.SpinNotWrapped | src/canvas.js:107 | the reset is an exact comparison: a rotation stepping over 2π is not brought back, one landing on it is reset to 0 |
| Render.LayerOrder | src/canvas.js:37-43 | draw() paints the fade first, then the gradient, bars and circles each exactly when switched on, then the objects, and the post-effects last |
| Render.Canvas.constructor | src/canvas.js:17-23 | the raster holds four bytes per pixel of a width × height canvas, the rotation starts at 0 |
| Render.Canvas.Background | src/canvas.js:46-62 | paints the fade, then the gradient exactly when it is switched on |
| Render.Canvas.Visualizer | src/canvas.js:64-148 | paints the bars at the current rotation when switched on, advances the rotation as Spun says, then paints the circles when switched on |
| Render.Canvas.Objects | src/canvas.js:150-157 | paints the objects layer |
| Render.Canvas.Effects | src/canvas.js:159-196 | the raster after the call is Effected of the raster before |
| Render.Canvas.Draw | src/canvas.js:30-44 | one draw() paints the layers of LayerOrder, advances the rotation, and leaves the raster as the effects make of what the drawing calls left |
| Game.TimerStep | src/main.js:212-217 | one frame of the timer: the spawner runs exactly when timer + dt reaches 0.7, and the timer is then 0, otherwise timer + dt |
| Game.BarAngle | src/main.js:236-250 | the angle of bar i: −π/2 + i·(2π / bar count) + the visualiser's rotation |
| Game.TimerStaysInRange | src/main.js:212-217 | with dt ≥ 0 and the timer in [0, 0.7): the spawner runs exactly when timer + dt reaches 0.7, the timer is then 0, otherwise it grows by dt, and it stays in [0, 0.7) |
| Game.RunBounds | src/main.js:212-217 | over any run of frames: the timer stays in range, at most one spawn per frame, and each spawn is paid for by 0.7 s of elapsed time |
| Game.Magnitude | src/main.js:253 | the multiplier data/255 lies in [0, 1] |
| Game.SpawnBody | src/main.js:245-254 | a spawned projectile aims at (0, 0), is not destroyed, has speed 200, damage data/255 in [0, 1] and radius 10·data/255 |
| Game.SpawnAtBarTip | src/main.js:249-250 | with exact cos and sin, a new projectile starts at the spawn radius from the centre |
| Game.SpawnedNotCollided | src/main.js:245-254 | on a canvas taller than 170, a new projectile is not destroyed by an immediate collision() |
| Game.Stepped | src/main.js:264-265 | a visit flags a projectile exactly when it was flagged or its moved position reaches the destination, and changes only position and flags |
| Game.DoomedAmong | src/main.js:264-268 | the projectiles of an array that a visit (move, then collision) flags, judged on the given fields |
| Game.DoomedOfIs | src/main.js:264-268 | judged on the fields the heap holds, DoomedOf and DoomedAmong agree |
| Game.SpawnBodies | src/main.js:238-254 | the fields of the projectiles one pass builds, one SpawnBody per fired bar, in bar order |
| Game.Sampled | src/main.js:207 | the analyser's copy keeps the buffer's length |
| Game.Game.constructor | src/main.js:59-64 | init() allocates a zeroed buffer of fftSize/4 samples, copies it into the cache, and starts with no projectiles and a zero timer |
| Game.Game.SpawnProjectiles | src/main.js:222-259 | the cache becomes Refreshed; one new projectile per fired bar, in bar order, at the bar's tip, is pushed after the existing ones, which stay in place |
| Game.Game.SpawnBar | src/main.js:240-257 | for bar i, a projectile is pushed and the bin's cache entry takes the sample exactly when the bar fires; otherwise nothing changes |
| Game.Game.Launch | src/main.js:245-254 | the new projectile's fields are SpawnBody of the bar |
| Game.Game.GameLoop | src/main.js:261-275 | the array ends as Survivors of the old array for the projectiles a visit flags; visited projectiles are moved and collided, unvisited ones untouched; the score is unchanged |
| Game.Game.Advance | src/main.js:264-271 | one iteration: the projectile is moved and collided, spliced out when flagged, and the loop invariant carries over |
| Game.Game.ClearProjectiles | src/main.js:277-279 | the array becomes empty |
| Game.Game.Sample | src/main.js:207 | the buffer takes the analyser's samples |
| Game.Game.SpawnTimer | src/main.js:212-217 | the timer and cache follow TimerStep and Refreshed; the array becomes the old projectiles followed by one fresh projectile per fired bar (none when the timer has not run out), whose fields are the old ones and then the SpawnBodies |
| Game.Game.Tick | src/main.js:212-219 | the timer and cache follow TimerStep and Refreshed; the game loop walks the old projectiles plus the new ones of the fired bars, the array ends as Survivors of it for the projectiles DoomedAmong flags, and each projectile's fields are Stepped when it is visited and otherwise as after the spawn |
| Game.Game.Frame | src/main.js:189-220 | one loop(): the buffer is sampled, the canvas draws its layers and advances the rotation, then the game step of Tick runs with the new rotation, and the score is unchanged |
| Controls.Click | src/main.js:117-137 | one click: a stopped button starts a new play (playing "yes", pausing "no"), a paused one resumes (pausing "no"), a playing one pauses (pausing "yes") |
| Controls.ClickCycle | src/main.js:111-138 | a click starts a stopped track with playing = "yes", pausing = "no"; it resumes a paused one and pauses a playing one, making the matching audio call |
| Controls.PauseResume | src/main.js:127-137 | pausing and then resuming a playing track gives the flags back |
| Controls.ClickNeverStops | src/main.js:117-137 | after a click a track is always playing or paused |
| Controls.TrackChangeAsWritten | src/main.js:152-162 | as written, a track change always issues a pause and leaves playing = "no", pausing = "yes" |
| Controls.TrackChange | src/main.js:155-161 | as intended, a track change pauses exactly when playing = "yes", then sets playing = "no", pausing = "yes", and otherwise changes nothing |
| Controls.TrackChangeStops | src/main.js:152-161 | after a track change the next click starts the new track |
| Controls.TrackChangeAgreesWhenPlaying | src/main.js:156 | the two handlers agree whenever playing = "yes" |
| Controls.TrackChangePausesWhenStopped | src/main.js:156 | on flags playing = "no", pausing = "no" the handler as written pauses and the intended one does not |
| Controls.PlayButton.OnClick | src/main.js:111-138 | the flags and the audio call are those of Click |
| Controls.PlayButton.OnTrackChange | src/main.js:152-162 | the flags and the pause are those of the intended TrackChange |

## Left out

- src/audio.js is not part of this model: Web Audio set-up, playback, volume and the distortion curve. Audio calls are reported as a `Command`. The `audioCtx.resume()` on a suspended context and `loadSoundFile` carry no state the model tracks.
- The canvas drawing calls (fills, arcs, gradients, transforms, the circle passes, `Projectile.draw`, the player's drawing) are foreign. `Canvas` logs which layers ran. The raster they leave is the `rendered` parameter of `Draw`.
- `Math.cos`, `Math.sin` and `Math.sqrt` are function parameters. Results that need them exact say so in their `requires`.
- `Math.random` in the noise pass is replaced by a `seq<bool>` of per-pixel draws.
- `Math.PI` is the decimal literal 3.141592653589793.
- Doubles are modelled as exact reals: rounding is not modelled. The one NaN the game can produce, from `move()` dividing by a zero distance, is a `nan` flag on the projectile.
- Projectile.Move: the source's `move()` has no guard, so the model makes it total rather than requiring a positive distance. A zero distance sets the NaN flag. A NaN position never collides again.
- The player. src/main.js:32 evaluates `new classes.Player(0, 0)`, but src/classes.js exports only `Projectile`, so as written that line throws a TypeError when the module is evaluated and nothing after it runs. The model follows the evident intent: it leaves the player out and runs the rest of the module. src/main.js:274 (`player.move`) and the key listeners are left out with it.
- `canvas.getAngleOffset` is called at src/main.js:247 but src/canvas.js does not export it, so as written the spawner throws on the first bar that fires: before that bar's push, its cache write, `timer = 0` and `gameLoop()`. The model follows the evident intent instead: the spawner takes the rotation as an input, and `Frame` passes it the canvas's `angleOffset` after the draw.
- The page markup is not part of this model, so the play button's initial flags are constructor arguments.
- DOM housekeeping is left out: fullscreen, sliders, check boxes, the volume and score labels, the progress bar and audio timing (src/main.js:194-200), and console logging.
- `Date.now()` is left out. `deltaTime` is an input to each frame.
- Game.Sampled: `getByteFrequencyData` is foreign. The model copies the given samples into the buffer over the common length.

## Findings

| source | as written | input that shows it | evidently intended | confidence | as-written member | corrected member |
|---|---|---|---|---|---|---|
| src/main.js:156 | `if(playButton.dataset.playing = "yes")` assigns instead of comparing, so the branch always runs | a track change when the button has never been started (playing = "no", pausing = "no"): a pause is issued although nothing plays, and the flags are rewritten | pause and reset the flags only when playing is "yes" | not executed | Controls.TrackChangeAsWritten, Controls.TrackChangePausesWhenStopped | Controls.TrackChange, Controls.TrackChangeStops |
