# WebGL volume raycaster — a Dafny model

This project models the parts of the WebGL2 volume raycaster whose behaviour can be stated exactly. The renderer draws a unit cube and, per fragment, marches a ray through a 3D texture, blending samples front to back. Around that kernel sit several smaller pieces, which are modelled here too:

- the adaptive sampling-rate controller;
- the parsing of volume file names;
- an arcball camera;
- a mouse and touch controller;
- a frustum/box test;
- a growable typed buffer;
- a hex colour parser.

All arithmetic is over mathematical reals and integers. IEEE floating point is not modelled. Where the program relies on a square root, `normalize`, a texture lookup or a gl-matrix product, the model takes that value as a parameter: a function parameter, or a number together with its defining property, e.g. `root >= 0 && root * root == x`.

Modules, one per component:

| module | file | models |
|---|---|---|
| `VecMath`, `Wrappers` | vecmath.dfy, wrappers.dfy | vector records, `Math.min`/`max`/`abs`, `Option` |
| `Int32Ops` | int32ops.dfy | 32-bit two's-complement helpers: signed value, arithmetic shift |
| `WangHash` | wang_hash.dfy | the `wang_hash` jitter of the fragment shader |
| `RayMarch` | raymarch.dfy | vertex-shader volume placement; `intersectBox`, discard, start clamp, step size, the marching/compositing loop |
| `Prototype` | prototype.dfy | the earlier prototype shader (fixed 8 samples) and its 4×4×4 test volume |
| `VolumeFiles` | volume_files.dfy | `fileRegex` + `parseInt` dimension parsing, the volume table, `volScale` |
| `SamplingRate` | sampling.dfy | `samplingRate` / `newVolumeUpload` state machine, the upload handler and interval callback |
| `Quaternion`, `Arcball` | quaternion.dfy, arcball.dfy | the `ArcballCamera` of js/arcball.js |
| `WebGLCamera` | webgl_camera.dfy | the `ArcballCamera` of js/webgl-util.js (look-at constructor, rotate, zoom, pan) |
| `FrustumCull` | frustum.dfy | `Frustum.containsBox` |
| `TypedBuffer` | buffer.dfy | the growable typed-array `Buffer` |
| `HexColor` | hex_color.dfy | `hexToRGB` / `hexToRGBf`, including `parseInt(…, 16)` and ToInt32 |
| `TouchInput` | controller.dfy | the mouse/touch `Controller` |
| `CameraBinding` | binding.dfy | the callbacks js/volume-raycaster.js registers on the controller |

The following parts keep the source's imperative shape, each as a class with in-place updates or a method with its loop invariants:

- `Buffer`;
- the sampling-rate globals (`Renderer`);
- both cameras;
- the `Controller`;
- the `containsBox` counting loops;
- the fragment-shader loops.

Every such method is proved against a pure function that specifies it, and the properties are proved as lemmas about that function.

## Model

| member | source | states |
|---|---|---|
| Int32Ops.ToSigned | js/shader-srcs.js:47-53 | the signed value of a 32-bit pattern is non-negative exactly when the sign bit is clear |
| Int32Ops.AsrKeepsSign | js/shader-srcs.js:48 | `seed >> k` on a signed int copies the sign bit |
| Int32Ops.XorShiftClearsSign | js/shader-srcs.js:52 | `s ^ (s >> k)` with k > 0 always has a clear sign bit |
| WangHash.Mix | js/shader-srcs.js:47-52 | the mixed seed (xor, arithmetic shifts, multiplications wrapping mod 2^32) never has its sign bit set |
| WangHash.Hash | js/shader-srcs.js:47-54 | `wang_hash` lies in [0, 1) and equals (mixed seed mod 2147483647) / 2147483647; the negative-operand case of GLSL `%` never arises |
| WangHash.FragSeed | js/shader-srcs.js:65 | the seed of pixel (px, py) is px + 640·py + 320 (fragment centres at +0.5, truncated) |
| WangHash.HashOfOriginPixel | js/shader-srcs.js:47-65 | pixel (0, 0) has seed 320, mixed value 0x562eead4 and jitter 1445915348/2147483647 |
| RayMarch.VertexPosition | js/shader-srcs.js:11-16 | definition: the vertex shader's clip-space input pos·scale + (0.5 − scale/2); its meaning is proved in `VertexEyeInverse` and `VertexInCentredBox` |
| RayMarch.TransformedEye | js/shader-srcs.js:11-12 | definition: the eye moved into the unit-cube frame, (eye − (0.5 − scale/2))/scale; `VertexEyeInverse` proves it inverts `VertexPosition` |
| RayMarch.RayDirection | js/shader-srcs.js:15 | definition: `vray_dir = position − transformed_eye`; `VertexRayNotDiscarded` proves it is the ray that `FragmentColor` marches |
| RayMarch.VertexRayNotDiscarded | js/shader-srcs.js:11-61 | the interpolated direction from the transformed eye reaches the vertex at parameter 1/k, so a fragment of a cube face is never discarded |
| RayMarch.VertexEyeInverse | js/shader-srcs.js:11-16 | the vertex map pos·scale + (0.5 − scale/2) and the eye map (eye − (0.5 − scale/2))/scale are mutual inverses for non-zero scale |
| RayMarch.VertexInCentredBox | js/shader-srcs.js:11-16 | the unit cube is placed centred on (0.5, 0.5, 0.5) with side lengths `scale` |
| RayMarch.IntersectBox | js/shader-srcs.js:31-42 | t0 is the largest slab entry and t1 the smallest slab exit over the three axes |
| RayMarch.SlabExact | js/shader-srcs.js:34-38 | o + t·d lies in [0, 1] exactly when t lies between the two plane crossings of that slab |
| RayMarch.IntersectBoxExact | js/shader-srcs.js:31-42 | a ray point lies in the unit cube if and only if t0 ≤ t ≤ t1 |
| RayMarch.DiscardIffMiss | js/shader-srcs.js:58-61 | t0 > t1 exactly when no point of the ray's line lies in the cube |
| RayMarch.FrontRayHit | js/shader-srcs.js:31-42 | a concrete ray from (0.5, 0.5, −1) enters at t = 1 and leaves at t = 2 |
| RayMarch.MarchStart | js/shader-srcs.js:59-62 | discard exactly when t0 > t1; otherwise marching starts at max(t0, 0) |
| RayMarch.StartInsideCube | js/shader-srcs.js:58-67 | whenever the loop takes a sample, its start parameter lies inside the cube |
| RayMarch.StepSize | js/shader-srcs.js:63-64 | dt is strictly positive when dt_scale > 0, dims > 0 and no direction component is 0 |
| RayMarch.StepAdvancesAtMostScale | js/shader-srcs.js:63-64 | one step advances at most dt_scale voxels along every axis, and exactly dt_scale along the fastest one |
| RayMarch.StepCount | js/shader-srcs.js:67 | the iteration count n of `for (t = start; t < t1; t += dt)`: start + n·dt ≥ t1 and start + (n−1)·dt < t1 |
| RayMarch.ParamClosedForm | js/shader-srcs.js:67 | k executions of `t += dt` give start + k·dt |
| RayMarch.StepCountMinimal | js/shader-srcs.js:67 | every iteration before the last one ran with t < t1 |
| RayMarch.StepCountExhausted | js/shader-srcs.js:67 | after the counted iterations t ≥ t1 |
| RayMarch.BehindEyeNoSamples | js/shader-srcs.js:62-67 | a cube wholly behind the eye (t1 < 0) yields no samples |
| RayMarch.Over | js/shader-srcs.js:70-71 | definition: front-to-back "over" of a premultiplied colour with one sample, weight (1 − alpha)·value; `OverKeepsPremultiplied` states its invariant |
| RayMarch.Composite | js/shader-srcs.js:67-76 | definition: folds `Over` across the samples and stops after the first that brings alpha to ≥ 0.95; `CompositeIsFirstOpaquePrefix` characterises it |
| RayMarch.March | js/shader-srcs.js:66-76 | definition: the colour the marching loop produces, `Composite` of the samples `Samples` reads; `MarchLoop` proves the loop computes it |
| RayMarch.FragmentColor | js/shader-srcs.js:56-77 | definition: `None` (discard) when the ray misses the cube, else `March` from max(t0, 0) to t1 with the jittered step; `FragmentMain` and `FragmentDiscardIffMiss` are about it |
| RayMarch.OverKeepsPremultiplied | js/shader-srcs.js:69-71 | one compositing step keeps alpha in [0, 1], every channel ≤ alpha, and never lowers alpha |
| RayMarch.CompositeIsFirstOpaquePrefix | js/shader-srcs.js:67-76 | the early-exit loop blends exactly a prefix of the samples, ending at the first sample that brings alpha to ≥ 0.95 or at the end of the ray |
| RayMarch.CompositeKeepsPremultiplied | js/shader-srcs.js:69-74 | from a premultiplied colour, compositing valid samples stays premultiplied and alpha never decreases |
| RayMarch.OpaqueFirstSampleStopsAtOnce | js/shader-srcs.js:69-74 | a first sample of value ≥ 0.95 ends the march after one step |
| RayMarch.Jitter | js/shader-srcs.js:65 | the jitter offset lies in [0, 1) |
| RayMarch.PosClosedForm | js/shader-srcs.js:66-75 | k executions of `p += ray_dir * dt` land at p0 + k·step |
| RayMarch.Samples | js/shader-srcs.js:66-75 | the loop reads exactly n samples |
| RayMarch.SampleLocation | js/shader-srcs.js:66-75 | sample k is read at ray parameter start + offset·dt + k·dt, for a loop counter start + k·dt still below t1: the jitter moves positions, not the count |
| RayMarch.MarchLoop | js/shader-srcs.js:66-76 | the imperative `for` loop with its `break` computes the specified early-exit composite |
| RayMarch.FragmentMain | js/shader-srcs.js:56-77 | the shader's `main` returns `discard` or the composited colour of the specification |
| RayMarch.PosOnRay | js/shader-srcs.js:66-75 | stepping by dt·dir from the point at parameter u stays on the ray at parameter u + k·dt |
| RayMarch.FragmentPremultiplied | js/shader-srcs.js:56-77 | with texture values in [0, 1], every fragment that is not discarded is a premultiplied colour with alpha in [0, 1] |
| RayMarch.MarchPremultiplied | js/shader-srcs.js:66-76 | the marching loop's colour is premultiplied for valid textures |
| RayMarch.FragmentDiscardIffMiss | js/shader-srcs.js:57-61 | a fragment is discarded exactly when its ray misses the unit cube |
| Prototype.ProtoOver | js/volume-raycasting.js:64-65 | definition: the prototype's blend, rgb += (1 − a)·s·s and a += (1 − a)·s·dt; `ProtoOverAlpha` and `ProtoNotPremultiplied` are about it |
| Prototype.ProtoComposite | js/volume-raycasting.js:61-69 | definition: folds `ProtoOver` across the samples, stopping once alpha ≥ 0.95; `ProtoAlphaBounded` and `ProtoStepsBounded` are about it |
| Prototype.ProtoColor | js/volume-raycasting.js:49-70 | definition: discard on a miss, else `ProtoComposite` of the 8 samples from the eye; `ProtoMain` proves the shader computes it |
| Prototype.ProtoStep | js/volume-raycasting.js:57-58 | dt·8 = t1 − t0, so dt ≥ 0 whenever the fragment is not discarded |
| Prototype.ProtoStepsBounded | js/volume-raycasting.js:61-69 | the loop runs at least one and at most n_samples iterations |
| Prototype.ProtoOverAlpha | js/volume-raycasting.js:64-65 | one step keeps alpha in [0, 1] and does not lower it while s·dt ∈ [0, 1] |
| Prototype.ProtoAlphaBounded | js/volume-raycasting.js:61-69 | while every s·dt lies in [0, 1], alpha stays in [0, 1] and never decreases |
| Prototype.ProtoNotPremultiplied | js/volume-raycasting.js:64-65 | unlike the main shader, the prototype's rgb can exceed its alpha (a concrete sample) |
| Prototype.ProtoSamples | js/volume-raycasting.js:61-63 | there are 8 samples, sample i read at eye + i·dt·dir |
| Prototype.ProtoFirstSampleAtEye | js/volume-raycasting.js:62 | the first sample is read at the eye itself, not at t0 |
| Prototype.ProtoLoop | js/volume-raycasting.js:56-69 | the imperative 8-iteration loop with `break` computes the specified composite |
| Prototype.ProtoMain | js/volume-raycasting.js:49-70 | the prototype `main` discards on a miss and otherwise returns that composite |
| Prototype.ProtoLoopAlphaInUnit | js/volume-raycasting.js:61-69 | with every value·dt in [0, 1] the output alpha lies in [0, 1] |
| Prototype.Texel | js/volume-raycasting.js:103-126 | texel index x + 4y + 16z of a 4×4×4 texture lies below 64 |
| Prototype.TestVolumeIsCentredBlock | js/volume-raycasting.js:103-123 | the test volume holds 150 exactly where x, y, z ∈ {1, 2} and 0 elsewhere |
| VolumeFiles.DigitRun | js/volume-raycaster.js:25 | the maximal digit run of `\d+` stays within the string |
| VolumeFiles.DigitField | js/volume-raycaster.js:25 | a `(\d+)` group ends after its start and within the string |
| VolumeFiles.DigitRunFacts | js/volume-raycaster.js:25 | the run holds only digits and is followed by a non-digit or the end |
| VolumeFiles.WordRunFacts | js/volume-raycaster.js:25 | the `\w+` run holds only word characters and is followed by a non-word character or the end |
| VolumeFiles.DigitsValueIsDecimal | js/volume-raycaster.js:63 | the positional value of a digit field is `parseInt` of its text |
| VolumeFiles.DecimalNonNegative | js/volume-raycaster.js:63 | `parseInt` of digits is never negative |
| VolumeFiles.MatchDims | js/volume-raycaster.js:25 | definition: the tail `(\d+)x(\d+)x(\d+)_(\w+)` of the pattern from a given position; `MatchDimsSound` states what a match means |
| VolumeFiles.MatchName | js/volume-raycaster.js:25 | definition: backtracking over the split of `(\w+)_` before the dimensions, as the regular expression engine tries it |
| VolumeFiles.MatchSlash | js/volume-raycaster.js:25 | definition: the greedy `.*\/`, trying the last slash first; `MatchSlashSound` and `NoSlashNoMatch` are about it |
| VolumeFiles.ParseDims | js/volume-raycaster.js:62-63 | definition: `file.match(fileRegex)` followed by `parseInt` of groups 2–4, `None` when there is no match; `ParseDimsSound` and `ParseWellFormed` are about it |
| VolumeFiles.MatchDimsSound | js/volume-raycaster.js:25 | a dimension match has the shape `W x H x D _ word` with W, H, D the numbers spelt |
| VolumeFiles.MatchSlashSound | js/volume-raycaster.js:25 | every match found has a slash, a word, `_` and the dimension fields |
| VolumeFiles.ParseDimsSound | js/volume-raycaster.js:62-63 | whatever dimensions are parsed, the file name has the shape the pattern requires and spells them |
| VolumeFiles.ParseDimsNonNegative | js/volume-raycaster.js:63 | parsed dimensions are never negative |
| VolumeFiles.NoSlashNoMatch | js/volume-raycaster.js:25 | a name without a slash never matches, so loading it fails |
| VolumeFiles.ParseWellFormed | js/volume-raycaster.js:62-63 | every name `prefix/name_WxHxD_tail.ext` (tail a word without `_` not starting with a digit) parses to (W, H, D) |
| VolumeFiles.TableFileParses | js/volume-raycaster.js:40-63 | every name in the table's scheme `key/name_WxHxD_uint8.raw` parses to its three numbers |
| VolumeFiles.VolumeTableParses | js/volume-raycaster.js:40-63 | all nine table entries parse to the sizes in their names, e.g. the Boston teapot to 256×256×178 |
| VolumeFiles.LongestAxis | js/volume-raycaster.js:119 | `longestAxis` is at least every dimension and equal to one of them |
| VolumeFiles.VolScale | js/volume-raycaster.js:119-121 | each scale component times the longest axis is its dimension; all-zero dimensions give NaN (None) |
| VolumeFiles.VolScaleBounds | js/volume-raycaster.js:119-121 | every component lies in [0, 1], is positive for a positive dimension, and the longest axis gets exactly 1 |
| VolumeFiles.TeapotScale | js/volume-raycaster.js:119-121 | the teapot is scaled (1, 1, 178/256) |
| SamplingRate.Apply | js/volume-raycaster.js:126-168 | definition: one event, an upload (`Upload`) or an interval tick (`Tick`); `RunAppend` relates it to `Run` |
| SamplingRate.Run | js/volume-raycaster.js:126-168 | definition: the state after a sequence of events; `RunKeepsRateAtLeastOne`, `ResetAfterUpload` and `RateGrowsBetweenUploads` are about it |
| SamplingRate.Tick | js/volume-raycaster.js:129-168 | a hidden tick changes nothing; a rendered one clears the upload flag and resets the rate to 1 after an upload; without an upload, a frame slower than the rate asks for (target > rate) sets the rate to 0.8·rate + 0.2·target, strictly between the old rate and the target, and any other frame keeps it; the rate stays ≥ 1 |
| SamplingRate.Upload | js/volume-raycaster.js:126 | an upload flags a pending reset and keeps the rate |
| SamplingRate.RunAppend | js/volume-raycaster.js:126-168 | running events one more step applies that event to the result |
| SamplingRate.RunKeepsRateAtLeastOne | js/volume-raycaster.js:141-164 | from a rate ≥ 1 every event sequence keeps it ≥ 1 |
| SamplingRate.InitialRateAtLeastOne | js/volume-raycaster.js:30-32 | from the initial globals the rate is always ≥ 1 |
| SamplingRate.PendingSurvives | js/volume-raycaster.js:126-133 | uploads and hidden ticks leave a pending reset pending |
| SamplingRate.ResetAfterUpload | js/volume-raycaster.js:126-168 | the first rendered tick after an upload, whatever hidden ticks and uploads come between, leaves rate 1 and no pending reset |
| SamplingRate.RateGrowsBetweenUploads | js/volume-raycaster.js:155-168 | between uploads the rate only grows |
| SamplingRate.RateBelowCeiling | js/volume-raycaster.js:155-164 | the rate never exceeds a ceiling that bounds the start rate, 1 and every target |
| SamplingRate.Renderer.constructor | js/volume-raycaster.js:23-32 | no texture and no interval yet; rate 1, reset pending |
| SamplingRate.Renderer.OnVolumeLoaded | js/volume-raycaster.js:103-175 | a name that does not match throws before any change; otherwise dims and scale uniforms are set, a reset is flagged, the first volume starts the single interval and a later one deletes and replaces the previous texture |
| SamplingRate.Renderer.Frame | js/volume-raycaster.js:129-170 | one interval run moves (rate, flag) as `Tick` says and keeps `dt_scale` equal to the rate |
| Quaternion.Mul | js/arcball.js:28-29 | definition: the Hamilton product `quat.mul`; `NormMultiplicative`, `MulIdentity` and `DoublePureUnitNegates` are about it |
| Quaternion.NormMultiplicative | js/arcball.js:28-29 | the norm of a Hamilton product is the product of the norms |
| Quaternion.MulIdentity | js/arcball.js:9 | `quat.create()` is the identity of the product |
| Quaternion.DoublePureUnitNegates | js/arcball.js:28-29 | composing twice with the same pure unit quaternion negates |
| Quaternion.PureUnitSquare | js/arcball.js:52-55 | a pure unit quaternion squares to −1 |
| Arcball.Clamp | js/arcball.js:64-66 | the result lies in [min, max] when min ≤ max, is `a` when `a` is already inside, and is one of a, min, max |
| Arcball.ClampNearest | js/arcball.js:64-66 | clamping is idempotent and picks the nearest point of [min, max] |
| Arcball.NormalizeScreen | js/arcball.js:17-23 | pixel (x, y) maps to (clamp(2x/W − 1), clamp(1 − 2y/H)), which lies in [−1, 1]² |
| Arcball.ScreenToArcball | js/arcball.js:52-62 | a pure quaternion of unit length: (x, y, sqrt(1 − d)) inside the disc, the normalised (x, y, 0) outside |
| Arcball.Rotated | js/arcball.js:27-29 | definition: `quat.mul(curBall, quat.mul(prevBall, rotation))`; `RotatedKeepsUnit` and `SamePointNegates` are about it |
| Arcball.RotatedKeepsUnit | js/arcball.js:27-29 | curBall·(prevBall·rotation) stays unit-norm |
| Arcball.SamePointNegates | js/arcball.js:25-29 | `rotate(p, p)` negates the quaternion: the same rotation, a different value |
| Arcball.ZoomedZ | js/arcball.js:34-40 | the zoomed z is min(z + delta, limit) |
| Arcball.ArcballCamera.constructor | js/arcball.js:1-10 | identity rotation, z translation −1, centre translation −center, inverse screen size |
| Arcball.ArcballCamera.Rotate | js/arcball.js:16-32 | the rotation becomes curBall·(prevBall·rotation) and stays unit-norm; translations unchanged |
| Arcball.ArcballCamera.Zoom | js/arcball.js:34-42 | z becomes min(z + amount·zoomSpeed, −0.4); rotation unchanged |
| WebGLCamera.PanDelta | js/webgl-util.js:307-309 | definition: the mouse delta scaled by the inverse screen size and by \|z\|, with no z part; `PanScalesWithDistance` and `PanStillIffNoMotion` are about it |
| WebGLCamera.PanScalesWithDistance | js/webgl-util.js:307-309 | the pan offset scales with the distance \|z\| and has no component along the view axis |
| WebGLCamera.PanStillIffNoMotion | js/webgl-util.js:307-309 | with a non-degenerate screen and the camera off the centre, the pan offset is zero exactly when the mouse did not move |
| WebGLCamera.Camera.constructor | js/webgl-util.js:239-277 | z translation −‖center − eye‖, centre translation −center, unit look-at rotation, inverse screen size |
| WebGLCamera.Camera.Rotate | js/webgl-util.js:279-295 | same normalisation and composition as the js/arcball.js camera; the rotation stays unit-norm |
| WebGLCamera.Camera.Zoom | js/webgl-util.js:297-305 | z becomes min(z + amount·invScreen.y·zoomSpeed, −0.2) |
| WebGLCamera.Camera.Pan | js/webgl-util.js:307-314 | the centre translation gains the world-space image of the scaled mouse delta; rotation and z unchanged |
| FrustumCull.Corners | js/webgl-util.js:75-99 | the eight box corners, in the order the unrolled tests use |
| FrustumCull.CornersInBox | js/webgl-util.js:66-99 | every corner of a box with lo ≤ hi lies in the box |
| FrustumCull.CountBehindFull | js/webgl-util.js:73-103 | a plane's count reaches the number of corners exactly when every corner is behind it |
| FrustumCull.CountBeyondFull | js/webgl-util.js:106-152 | a face's count reaches 8 exactly when every frustum point is beyond it |
| FrustumCull.CountCornersBehind | js/webgl-util.js:74-99 | the eight unrolled increments of `out` count the corners behind the plane |
| FrustumCull.CountPointsBeyond | js/webgl-util.js:106-149 | each `for (i < 8)` loop counts the frustum points beyond one face |
| FrustumCull.Culled | js/webgl-util.js:69-154 | definition: some plane has all eight box corners behind it, or some box face has all eight frustum points beyond it; `ContainsBox` returns its negation |
| FrustumCull.ContainsBox | js/webgl-util.js:69-154 | false exactly when some plane has all eight corners behind it or some box face has all eight frustum points beyond it |
| FrustumCull.PointInsideNotCulledByFace | js/webgl-util.js:106-152 | a box holding a frustum point is never rejected by a face test |
| FrustumCull.CornerInFrontNotCulledByPlane | js/webgl-util.js:73-103 | a box with a corner on the inner side of every plane is never rejected by a plane test |
| FrustumCull.OverlapIsContained | js/webgl-util.js:69-154 | a box meeting both conditions always passes `containsBox` |
| TypedBuffer.ParseDType | js/webgl-util.js:365-383 | a recognised `dtype` string is the name of the type it selects |
| TypedBuffer.ParseNameOf | js/webgl-util.js:365-380 | every one of the eight types is recognised by its own name |
| TypedBuffer.StrideMatchesName | js/webgl-util.js:403-405 | `BYTES_PER_ELEMENT` times 8 is the bit width written in the type's name |
| TypedBuffer.GrownCapacity | js/webgl-util.js:388 | floor(1.5·c) is at least c, larger for c ≥ 2, and within rounding of 1.5·c |
| TypedBuffer.Grown | js/webgl-util.js:389-390 | the grown array has the new length, the old contents as prefix and zeros after |
| TypedBuffer.WriteAt | js/webgl-util.js:395 | `set(buf, at)` puts buf at positions at.. and leaves the rest alone |
| TypedBuffer.Buffer.constructor | js/webgl-util.js:362-384 | an empty buffer of the given capacity over a zeroed array; the type is the one named, or none |
| TypedBuffer.Buffer.Append | js/webgl-util.js:386-397 | grows once to floor(1.5·capacity), copying the old contents, exactly when len + \|buf\| ≥ capacity; succeeds exactly when the data then fits, extending the contents by buf; otherwise the growth stays and the RangeError leaves len; an unsupported type throws and changes nothing |
| TypedBuffer.Buffer.Clear | js/webgl-util.js:399-401 | len becomes 0; capacity, array and type unchanged |
| TypedBuffer.Buffer.Stride | js/webgl-util.js:403-405 | defined exactly for a supported type, and then 8·stride is the bit width in its name |
| TypedBuffer.Buffer.AppendGrowing | js/webgl-util.js:386-397 | corrected append: succeeds for every supported type and extends the contents by buf |
| TypedBuffer.SecondAppendToCapacityOne | js/webgl-util.js:386-396 | as written, on a capacity-1 buffer the second one-element append fails |
| TypedBuffer.SecondAppendToCapacityOneGrowing | js/webgl-util.js:386-396 | with the corrected growth the same two appends succeed and hold [1, 2] |
| TypedBuffer.WriteAtUsed | js/webgl-util.js:395-396 | writing buf right after the used prefix extends that prefix by buf |
| TypedBuffer.GrownCopy | js/webgl-util.js:389-390 | `new (constructor)(newCap)` plus `tmp.set(buffer)` gives the grown array |
| TypedBuffer.Write | js/webgl-util.js:395 | the in-place `set(buf, at)` matches `WriteAt` |
| HexColor.ParseInt16 | js/webgl-util.js:415 | definition: `parseInt(s, 16)` as white space, sign, optional 0x and the longest hex run, `None` for NaN; `ParseAllHex`, `WhiteSpaceIgnored`, `MinusAccepted`, `PlusAccepted`, `PrefixAccepted` and `TrailingIgnored` are about it |
| HexColor.ParsedValue | js/webgl-util.js:415-416 | definition: `parseInt(hex.substr(1), 16)` with NaN read as 0, as the shift operators read it; `ChannelsAreLow24Bits` is about it |
| HexColor.Channels | js/webgl-util.js:416-418 | definition: `(v >> 16) & 255`, `(v >> 8) & 255`, `v & 255` on the ToInt32 value; `ByteSplit` and `ChannelsRecombine` are about it |
| HexColor.TrimStart | js/webgl-util.js:415 | `parseInt` skips exactly the leading white space (ECMA-262 StrWhiteSpaceChar) |
| HexColor.HexRun | js/webgl-util.js:415 | the longest leading run of hex digits |
| HexColor.ToInt32 | js/webgl-util.js:416-418 | ToInt32 lands in [−2^31, 2^31) and is congruent mod 2^32 |
| HexColor.HexToRGB | js/webgl-util.js:414-420 | every channel lies in [0, 255] |
| HexColor.HexToRGBf | js/webgl-util.js:422-426 | every channel lies in [0, 1] and is the integer channel divided by 255 |
| HexColor.ByteSplit | js/webgl-util.js:416-418 | the three masked bytes recombine to the value mod 2^24 |
| HexColor.ChannelsAreLow24Bits | js/webgl-util.js:414-420 | for every string, r·65536 + g·256 + b is the parsed number mod 2^24 (NaN counting as 0) |
| HexColor.ChannelsRecombine | js/webgl-util.js:414-420 | a parsed value in [0, 2^24) is recombined exactly from r, g, b |
| HexColor.ParseAllHex | js/webgl-util.js:415 | a string of hex digits is read whole |
| HexColor.RoundTrip | js/webgl-util.js:414-420 | the colour written as "#rrggbb" is read back as the same r, g, b |
| HexColor.WhiteSpaceIgnored | js/webgl-util.js:415 | leading white space does not change the parse |
| HexColor.MinusAccepted | js/webgl-util.js:415 | a leading minus negates the digits |
| HexColor.PlusAccepted | js/webgl-util.js:415 | a leading plus is skipped |
| HexColor.PrefixAccepted | js/webgl-util.js:415 | a "0x" or "0X" prefix is accepted with radix 16 |
| HexColor.TrailingIgnored | js/webgl-util.js:415 | anything after the digits is ignored, except that "0" followed by x/X is a prefix |
| TouchInput.Recorded | js/webgl-util.js:585-589 | definition: the touch table after `touches[id] = [x, y]` for each changed touch in order; `RecordedKeys`, `RecordedUntouched` and `RecordedLatest` are about it |
| TouchInput.RecordedKeys | js/webgl-util.js:585-589 | recording changed touches adds exactly their identifiers to the table |
| TouchInput.RecordedUntouched | js/webgl-util.js:585-589 | an identifier that did not change keeps its position |
| TouchInput.RecordedLatest | js/webgl-util.js:585-589 | the last report of a finger in a list is the position recorded |
| TouchInput.EndAfterStart | js/webgl-util.js:592-598 | ending the touches that just started restores the table for every other identifier |
| TouchInput.LeastTwo | js/webgl-util.js:526-537 | the first two keys in iteration order (ascending integer keys) are the two smallest |
| TouchInput.Decide | js/webgl-util.js:568-582 | definition: the gesture the two-finger branch picks, pinch before drag; `DecideSpec` states the rule |
| TouchInput.DecideSpec | js/webgl-util.js:568-582 | pinch exactly when its callback is set and both pinch dots exceed 0.5 in size with opposite signs; drag exactly when that fails, its callback is set and both pan dots exceed 0.5 with the same sign; never both |
| TouchInput.PanAmount | js/webgl-util.js:579-581 | the drag is the mean motion of the two fingers with y negated |
| TouchInput.TwoFingerEmit | js/webgl-util.js:539-582 | at most one event; a pinch carries the change of finger distance, a drag the mean motion |
| TouchInput.MergeIsRecorded | js/webgl-util.js:516-530 | merging the changed touches over the table equals recording them in order |
| TouchInput.TouchMoveEmits | js/webgl-util.js:502-590 | definition: the events one `touchmove` reports, from the one-finger and two-finger branches; `Controller.TouchMove` and `TwoFingerEmit` are about it |
| TouchInput.Controller.constructor | js/webgl-util.js:445-489 | no callbacks, no mouse position, no touches |
| TouchInput.Controller.SetHandlers | js/webgl-util.js:445-451 | the page's callbacks are set; mouse and touch state untouched |
| TouchInput.Controller.MouseMove | js/webgl-util.js:457-467 | the first move only records the position; later ones report (previous, current, buttons) when the callback is set |
| TouchInput.Controller.MouseDown | js/webgl-util.js:469-476 | reports a press at the position when the callback is set |
| TouchInput.Controller.Wheel | js/webgl-util.js:478-483 | reports −deltaY when the callback is set |
| TouchInput.Controller.TouchStart | js/webgl-util.js:490-500 | records every changed touch; a single new touch is also a press |
| TouchInput.Controller.RecordAll | js/webgl-util.js:584-589 | the update loop records every changed touch in order |
| TouchInput.Controller.TouchMove | js/webgl-util.js:502-590 | one known touch gives a left-button mouse move from its recorded position; two or more give the two-finger rule on the first two fingers before and after; no known touch, or one and an empty change list while `mousemove` is set, throws and changes nothing; otherwise the table is updated |
| TouchInput.Controller.TouchEnd | js/webgl-util.js:592-600 | forgets exactly the changed identifiers |
| CameraBinding.Bind | js/volume-raycaster.js:210-220 | left button rotates, right button pans by (Δx, −Δy), other buttons do nothing, wheel and pinch zoom, a two-finger drag pans; a missing previous position throws |
| CameraBinding.TwoFingerDragMatchesRightDrag | js/volume-raycaster.js:214-220 | a two-finger drag with both fingers moving by m pans exactly like a right-button drag by m |
| CameraBinding.SingleTouchRotates | js/webgl-util.js:506-514 | one finger moving from its recorded position rotates like a left-button drag |
| CameraBinding.TwoFingersZoomOrPan | js/volume-raycaster.js:218-220 | with the renderer's callbacks a two-finger move never throws and only zooms or pans |
| CameraBinding.WheelDirection | js/volume-raycaster.js:218 | scrolling up never moves the camera away, scrolling down never moves it closer, within the zoom limit |
| CameraBinding.Dispatch | js/volume-raycaster.js:210-220 | each callback runs the camera operation `Bind` names, with that operation's effect, and a throwing callback changes nothing |

## Left out

- WebGL, DOM, XHR and UI: shader compilation, uniform reflection, texture upload, drawing, `gl.finish`, event registration, the progress bar, selectors, history and screenshots. These are foreign calls. Uniform values appear only as the fields of `SamplingRate.Renderer`.
- Canvas-relative positions: positions enter the controller already relative to the canvas. `getBoundingClientRect` is DOM.
- Square roots, `vec2.normalize`, `pointDist`, `vec3.len` and the gl-matrix products: they enter as parameters with their defining property, or as function parameters. This covers `mat4.invert`, the look-at basis, `quat.fromMat3`, the frustum planes and points, and the inverse camera matrix used by `pan`. `updateCameraMatrix`, `eyePos`, `eyeDir` and `upDir` are not modelled.
- The `Frustum` constructor: its six planes and eight points are inputs, since they come from matrix rows and `mat4.invert`.
- Texture sampling and the transfer-function lookup are function parameters. The output colour is taken to start at zero.
- IEEE floats: infinities and NaN in `intersectBox` when a direction component is 0 are not modelled. `IntersectBox` requires non-zero components.
- RayMarch.StepSize: a zero volume dimension is not modelled. `ParseDims` accepts one (as in `a/b_0x64x64_c.raw`), and GLSL then gives `dt_vec` an IEEE +infinity component, which `min` passes over. `StepSize`, `FragmentColor`, `FragmentMain` and the lemmas about them require every dimension to be positive, which holds for every volume the page offers (`VolumeTableParses`).
- The camera reset on upload: on the first rendered tick after an upload, the interval callback builds a new camera. `SamplingRate.Renderer` does not hold the camera, so that reset is not part of its state.
- `setInterval` scheduling and `Date` timing: a tick is an event carrying the measured render time in whole milliseconds.
- VolumeFiles.ParseDims: the regex `.` is taken to match any character, including line terminators, which file names do not contain.
- VolumeFiles.ParseDims: `parseInt` is taken to be exact, so digit strings beyond 2^53 are not rounded.
- HexColor.Substr1: strings are sequences of Unicode code points, while `substr(1)` counts UTF-16 code units. A string whose first character lies outside the Basic Multilingual Plane is not modelled: the model drops the whole character, where JavaScript keeps its low surrogate, which makes `parseInt` return NaN.
- HexColor.ParseInt16: exact for all lengths. Values beyond 2^53, which JavaScript rounds before ToInt32, are not modelled.
- TouchInput.Controller.TouchMove: a callback that throws ends the handler before the final table update. The model performs the update regardless. With the renderer's callbacks that happens only when one touch is known and a different, never-started identifier moves.
- TouchInput.LeastTwo: touch identifiers are taken to be array-index keys, which JavaScript visits in ascending order. Other keys are visited in insertion order, which is not modelled.
- TouchInput.Controller: `prevMouse` and `touches` are closure variables of `registerForCanvas`. Here they are fields of the controller, as if it were registered on one canvas.
- `mouseState` is never read, and the `evt` objects are left out. Only `buttons` is passed on.
- `Buffer.view`: it aliases the underlying `ArrayBuffer`. Also left out is typed-array element coercion: elements are reals, so wrap-around of integer element types and float32 rounding are not modelled.
- TypedBuffer.Buffer: for an unsupported type the source leaves `buffer` undefined. The model keeps an unused array and `dtype == None`, and every operation that would touch the array fails.
- The `console.log` of an unsupported type is left out.
- `Arcball.ArcballCamera` and `WebGLCamera.Camera`: `translation` is kept as its z component only, since no operation changes x or y.

## Findings

| source | as written | input that shows it | evidently intended | confidence | as-written member | corrected member |
|---|---|---|---|---|---|---|
| js/webgl-util.js:386-396 | `append` grows the capacity once, to floor(1.5·capacity), when len + buf.length reaches the capacity, and then writes `buf` at `len`; when len + buf.length is still larger than the grown capacity, `set` throws a RangeError after the growth. A capacity of 1 grows to 1, so after one one-element append every further non-empty append throws (an empty append still succeeds) | `new Buffer(1, "uint8")`, then `append([1])` and `append([2])`: the second append throws | grow until `len + buf.length` fits, so every append of a supported type succeeds | not executed | TypedBuffer.SecondAppendToCapacityOne | TypedBuffer.Buffer.AppendGrowing, TypedBuffer.SecondAppendToCapacityOneGrowing |
