/** The adaptive sampling-rate controller of js/volume-raycaster.js.

    Every 32 ms an interval callback renders a frame, measures how long it
    took and, when the frame was slow, raises `samplingRate`; the shader's
    `dt_scale` uniform follows it, so a higher rate means longer steps and
    fewer samples. Uploading a new volume sets `newVolumeUpload`, and the
    next rendered frame resets the rate to 1. The controller is first
    stated as a pure transition function over (samplingRate,
    newVolumeUpload), then as the class that holds the renderer's globals. */
module SamplingRate {
  import opened VecMath
  import opened Wrappers
  import opened VolumeFiles

  /** `samplingRate` and `newVolumeUpload`. */
  datatype Sampler = Sampler(rate: real, newUpload: bool)

  /** `targetFrameTime`, in milliseconds. */
  const TargetFrameTime: real := 32.0

  /** The globals' initial values: rate 1, and a new upload pending. */
  const Initial: Sampler := Sampler(1.0, true)

  /** `targetSamplingRate = renderTime / targetFrameTime`. */
  function TargetRate(renderTimeMs: int): real
  {
    (renderTimeMs as real) / TargetFrameTime
  }

  /** One run of the interval callback. A hidden tab returns at once.
      Otherwise a pending upload resets the rate to 1; without one, a
      frame slower than the current rate asks for moves the rate a fifth
      of the way towards the target; and the pending flag is cleared. */
  function Tick(s: Sampler, hidden: bool, renderTimeMs: int): (r: Sampler)
    ensures hidden ==> r == s
    ensures !hidden ==> !r.newUpload
    ensures !hidden && s.newUpload ==> r.rate == 1.0
    ensures !hidden && !s.newUpload ==> s.rate <= r.rate
    ensures !hidden && !s.newUpload && r.rate != s.rate ==> s.rate < r.rate < TargetRate(renderTimeMs)
    ensures !hidden && !s.newUpload && TargetRate(renderTimeMs) > s.rate ==>
              r.rate == 0.8 * s.rate + 0.2 * TargetRate(renderTimeMs)
    ensures !hidden && !s.newUpload && TargetRate(renderTimeMs) <= s.rate ==> r.rate == s.rate
    ensures s.rate >= 1.0 ==> r.rate >= 1.0
  {
    if hidden then s
    else
      var rate := if s.newUpload then 1.0 else s.rate;
      var target := TargetRate(renderTimeMs);
      var rate' := if !s.newUpload && target > rate then 0.8 * rate + 0.2 * target else rate;
      Sampler(rate', false)
  }

  /** The effect of an upload on the controller: a reset is now pending. */
  function Upload(s: Sampler): (r: Sampler)
    ensures r.newUpload && r.rate == s.rate
  {
    s.(newUpload := true)
  }

  /** What drives the controller. */
  datatype Event = Uploaded | Frame(hidden: bool, renderTimeMs: int)

  function Apply(s: Sampler, e: Event): Sampler
  {
    match e
    case Uploaded => Upload(s)
    case Frame(hidden, t) => Tick(s, hidden, t)
  }

  /** The controller after a sequence of events. */
  function Run(s: Sampler, events: seq<Event>): Sampler
    decreases |events|
  {
    if events == [] then s else Run(Apply(s, events[0]), events[1..])
  }

  lemma RunAppend(s: Sampler, events: seq<Event>, e: Event)
    ensures Run(s, events + [e]) == Apply(Run(s, events), e)
    decreases |events|
  {
    if events != [] {
      assert (events + [e])[1..] == events[1..] + [e];
      RunAppend(Apply(s, events[0]), events[1..], e);
    }
  }

  /** The sampling rate never drops below 1. */
  lemma {:induction false} RunKeepsRateAtLeastOne(s: Sampler, events: seq<Event>)
    requires s.rate >= 1.0
    ensures Run(s, events).rate >= 1.0
    decreases |events|
  {
    if events != [] {
      RunKeepsRateAtLeastOne(Apply(s, events[0]), events[1..]);
    }
  }

  lemma InitialRateAtLeastOne(events: seq<Event>)
    ensures Run(Initial, events).rate >= 1.0
  {
    RunKeepsRateAtLeastOne(Initial, events);
  }

  /** An event that leaves a pending reset pending. */
  predicate KeepsPending(e: Event)
  {
    e.Uploaded? || e.hidden
  }

  lemma {:induction false} PendingSurvives(s: Sampler, events: seq<Event>)
    requires s.newUpload
    requires forall i :: 0 <= i < |events| ==> KeepsPending(events[i])
    ensures Run(s, events).newUpload
    decreases |events|
  {
    if events != [] {
      PendingSurvives(Apply(s, events[0]), events[1..]);
    }
  }

  /** The first rendered frame after an upload, whatever uploads and hidden
      ticks come between, resets the rate to 1 and clears the flag. */
  lemma ResetAfterUpload(s: Sampler, between: seq<Event>, renderTimeMs: int)
    requires forall i :: 0 <= i < |between| ==> KeepsPending(between[i])
    ensures Run(s, [Uploaded] + between + [Frame(false, renderTimeMs)]) == Sampler(1.0, false)
  {
    var pre := [Uploaded] + between;
    assert Run(s, pre) == Run(Upload(s), between) by {
      assert pre[0] == Uploaded && pre[1..] == between;
    }
    PendingSurvives(Upload(s), between);
    RunAppend(s, pre, Frame(false, renderTimeMs));
  }

  /** Between uploads the rate only grows. */
  lemma {:induction false} RateGrowsBetweenUploads(s: Sampler, events: seq<Event>)
    requires !s.newUpload
    requires forall i :: 0 <= i < |events| ==> events[i].Frame?
    ensures s.rate <= Run(s, events).rate
    ensures !Run(s, events).newUpload
    decreases |events|
  {
    if events != [] {
      RateGrowsBetweenUploads(Apply(s, events[0]), events[1..]);
    }
  }

  /** A ceiling c that is at least 1, the starting rate and every target
      seen is never exceeded: the rate only chases measured slowness. */
  lemma {:induction false} RateBelowCeiling(s: Sampler, events: seq<Event>, c: real)
    requires 1.0 <= c && s.rate <= c
    requires forall i :: 0 <= i < |events| && events[i].Frame? ==> TargetRate(events[i].renderTimeMs) <= c
    ensures Run(s, events).rate <= c
    decreases |events|
  {
    if events != [] {
      RateBelowCeiling(Apply(s, events[0]), events[1..], c);
    }
  }

  /** The renderer's globals that the upload handler and the interval
      callback update. */
  class Renderer {
    var samplingRate: real
    var newVolumeUpload: bool
    /** The value last given to the `dt_scale` uniform. */
    var dtScale: real
    /** `volumeTexture`: null, or the current texture's name. */
    var volumeTexture: Option<nat>
    /** How many times `setInterval` has been called. */
    var intervalsStarted: nat
    /** Textures passed to `gl.deleteTexture`, oldest first. */
    var deletedTextures: seq<nat>
    /** The `volume_dims` and `volume_scale` uniforms. */
    var volumeDims: IVec3
    var volumeScale: Option<Vec3>

    function State(): Sampler
      reads this
    {
      Sampler(samplingRate, newVolumeUpload)
    }

    /** The rate is at least 1, the shader's `dt_scale` always equals it,
        and one render interval runs exactly when a volume is loaded. */
    ghost predicate Valid()
      reads this
    {
      samplingRate >= 1.0 && dtScale == samplingRate &&
      intervalsStarted <= 1 && (intervalsStarted == 1 <==> volumeTexture.Some?)
    }

    /** The state after `window.onload` has set up the shader, before the
        first volume arrives; uniforms start at zero. */
    constructor ()
      ensures Valid()
      ensures State() == Initial && dtScale == 1.0
      ensures volumeTexture == None && intervalsStarted == 0 && deletedTextures == []
      ensures volumeDims == IVec3(0, 0, 0) && volumeScale == Some(Vec3(0.0, 0.0, 0.0))
    {
      samplingRate := 1.0;
      newVolumeUpload := true;
      dtScale := 1.0;
      volumeTexture := None;
      intervalsStarted := 0;
      deletedTextures := [];
      volumeDims := IVec3(0, 0, 0);
      volumeScale := Some(Vec3(0.0, 0.0, 0.0));
    }

    /** The load callback of `selectVolume` with the new texture `tex`. A
        name that does not match the pattern throws before anything
        changes. Otherwise the dimension and scale uniforms are set, a
        reset is flagged, and the first volume starts the render interval
        while a later one replaces (and deletes) the previous texture. */
    method OnVolumeLoaded(file: string, tex: nat) returns (ok: bool)
      requires Valid()
      modifies this
      ensures Valid()
      ensures ok <==> ParseDims(file).Some?
      ensures !ok ==> unchanged(this)
      ensures ok ==> State() == Upload(old(State())) && dtScale == old(dtScale)
      ensures ok ==> volumeDims == ParseDims(file).value && volumeTexture == Some(tex)
      ensures ok ==> volumeDims.x >= 0 && volumeDims.y >= 0 && volumeDims.z >= 0 &&
                     volumeScale == VolScale(volumeDims)
      ensures ok ==> intervalsStarted == 1 &&
                     (old(volumeTexture).None? ==> deletedTextures == old(deletedTextures)) &&
                     (old(volumeTexture).Some? ==> deletedTextures == old(deletedTextures) + [old(volumeTexture).value])
    {
      var parsed := ParseDims(file);
      if parsed.None? {
        return false;
      }
      var dims := parsed.value;
      ParseDimsNonNegative(file);
      volumeDims := dims;
      volumeScale := VolScale(dims);
      newVolumeUpload := true;
      if volumeTexture.None? {
        volumeTexture := Some(tex);
        intervalsStarted := intervalsStarted + 1;
      } else {
        deletedTextures := deletedTextures + [volumeTexture.value];
        volumeTexture := Some(tex);
      }
      return true;
    }

    /** One run of the interval callback, with the measured render time. */
    method Frame(hidden: bool, renderTimeMs: int)
      requires Valid() && intervalsStarted == 1
      modifies this
      ensures Valid()
      ensures State() == Tick(old(State()), hidden, renderTimeMs)
      ensures volumeTexture == old(volumeTexture) && intervalsStarted == old(intervalsStarted)
      ensures deletedTextures == old(deletedTextures)
      ensures volumeDims == old(volumeDims) && volumeScale == old(volumeScale)
    {
      if hidden {
        return;
      }
      if newVolumeUpload {
        samplingRate := 1.0;
        dtScale := samplingRate;
      }
      var target := TargetRate(renderTimeMs);
      if !newVolumeUpload && target > samplingRate {
        samplingRate := 0.8 * samplingRate + 0.2 * target;
        dtScale := samplingRate;
      }
      newVolumeUpload := false;
    }
  }
}
