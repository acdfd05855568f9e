/** The older AnimationPathAnimator component: inspector-value limits, the
    start of playback and the duration-based EaseTime coroutine, its default
    curves and the choice of what the animated object turns toward.

    Positions and rotations of Unity transforms are not part of this model;
    what remains is the animator's own time state and curves. The host's
    Time.deltaTime of each frame is a parameter. */
module LegacyAnimator {
  import opened Timeline
  import opened Curves
  import opened Paths

  datatype Option<T> = None | Some(value: T)

  /** Initial duration field value, in seconds. */
  const DefaultDuration: real := 20.0

  /** LookForwardTimeDelta: value of both look-forward curve keys. */
  const LookForwardTimeDelta: real := 0.03

  /** OnValidate's duration limit: at least one second. */
  function ClampedDuration(duration: real): (r: real)
    ensures r >= 1.0
    ensures duration >= 1.0 ==> r == duration
    ensures duration < 1.0 ==> r == 1.0
  {
    if duration < 1.0 then 1.0 else duration
  }

  /** OnValidate's ratio limit: into [0, 1]. */
  function ClampedRatio(ratio: real): (r: real)
    ensures 0.0 <= r <= 1.0
    ensures 0.0 <= ratio <= 1.0 ==> r == ratio
    ensures ratio < 0.0 ==> r == 0.0
    ensures ratio > 1.0 ==> r == 1.0
  {
    if ratio < 0.0 then 0.0 else if ratio > 1.0 then 1.0 else ratio
  }

  /** Applying the limits twice is applying them once. */
  lemma ClampIdempotent(duration: real, ratio: real)
    ensures ClampedDuration(ClampedDuration(duration)) == ClampedDuration(duration)
    ensures ClampedRatio(ClampedRatio(ratio)) == ClampedRatio(ratio)
  {
  }

  /** A curve with a key at time 0 and one at time 1 added, zero tangents
      (the Initialize*Curve methods). */
  function WithEnds(keys: seq<Key>, first: real, last: real): seq<Key> {
    Insert(Insert(keys, MakeKey(0.0, first)), MakeKey(1.0, last))
  }

  /** On an empty curve the result is exactly the two keys. */
  lemma EndsOnEmpty(first: real, last: real)
    ensures WithEnds([], first, last) == [MakeKey(0.0, first), MakeKey(1.0, last)]
  {
    InsertLast([MakeKey(0.0, first)], MakeKey(1.0, last));
  }

  function Total(s: seq<real>): real {
    if |s| == 0 then 0.0 else s[0] + Total(s[1..])
  }

  lemma TotalShift(s: seq<real>)
    requires |s| > 0
    ensures forall k :: 0 < k <= |s| ==> Total(s[..k]) == s[0] + Total(s[1..][..k - 1])
  {
    forall k | 0 < k <= |s| ensures Total(s[..k]) == s[0] + Total(s[1..][..k - 1]) {
      assert s[..k][1..] == s[1..][..k - 1];
    }
  }

  /** Where the coroutine's loop ends: the time in seconds, the eased ratio
      and the number of frames it ran. */
  datatype Eased = Eased(time: real, ratio: real, steps: nat)

  /** EaseTime's do-while over frames with the given deltaTimes, from time
      `time` and ratio `ratio`: each frame adds its deltaTime and evaluates
      the ease curve at time / duration; the loop ends after the first frame
      whose ratio is at least 1. */
  function EaseSteps(ops: CurveOps, keys: seq<Key>, duration: real, time: real, ratio: real, deltaTimes: seq<real>): Eased
    requires duration != 0.0
    decreases |deltaTimes|
  {
    if |deltaTimes| == 0 then Eased(time, ratio, 0)
    else
      var t := time + deltaTimes[0];
      var q := ops.evaluate(keys, t / duration);
      if q >= 1.0 then Eased(t, q, 1)
      else
        var rest := EaseSteps(ops, keys, duration, t, q, deltaTimes[1..]);
        Eased(rest.time, rest.ratio, rest.steps + 1)
  }

  /** The coroutine runs at least one frame when there is one, no more
      frames than there are, and stops early only with a ratio of at least
      1; every earlier frame's ratio was below 1. The time is the start time
      plus the deltaTimes of the frames run, and the ratio the ease curve at
      that time over the duration. */
  lemma {:induction false} EaseStepsExit(ops: CurveOps, keys: seq<Key>, duration: real, time: real, ratio: real, deltaTimes: seq<real>)
    requires duration != 0.0
    ensures var r := EaseSteps(ops, keys, duration, time, ratio, deltaTimes);
      && r.steps <= |deltaTimes|
      && (|deltaTimes| > 0 ==> r.steps >= 1)
      && r.time == time + Total(deltaTimes[..r.steps])
      && (r.steps == 0 ==> r.ratio == ratio)
      && (r.steps > 0 ==> r.ratio == ops.evaluate(keys, r.time / duration))
      && (r.steps < |deltaTimes| ==> r.ratio >= 1.0)
      && (forall k :: 0 < k < r.steps ==> ops.evaluate(keys, (time + Total(deltaTimes[..k])) / duration) < 1.0)
    decreases |deltaTimes|
  {
    if |deltaTimes| > 0 {
      var t := time + deltaTimes[0];
      var q := ops.evaluate(keys, t / duration);
      assert deltaTimes[..1] == [deltaTimes[0]];
      if q < 1.0 {
        EaseStepsExit(ops, keys, duration, t, q, deltaTimes[1..]);
        TotalShift(deltaTimes);
        var rest := EaseSteps(ops, keys, duration, t, q, deltaTimes[1..]);
        forall k | 0 < k < rest.steps + 1
          ensures ops.evaluate(keys, (time + Total(deltaTimes[..k])) / duration) < 1.0
        {
          if k > 1 {
            assert time + Total(deltaTimes[..k]) == t + Total(deltaTimes[1..][..k - 1]);
          }
        }
      }
    }
  }

  /** Start's initial animation time in seconds: the ratio of the
      duration. */
  function StartTime(animTimeRatio: real, duration: real): real {
    animTimeRatio * duration
  }

  /** `r` advanced by i frames already run. */
  function Shifted(i: nat, r: Eased): Eased {
    r.(steps := r.steps + i)
  }

  /** What RotateObject makes the animated object turn toward: nothing when
      the path is not initialised or there is no animated object, otherwise
      the followed object when there is one, else the forward point. */
  function RotationTarget(pathInitialized: bool, animatedObjectAssigned: bool, followedObjectPosition: Option<Vec3>,
                          forwardPoint: Vec3): (r: Option<Vec3>)
    ensures r.Some? <==> pathInitialized && animatedObjectAssigned
    ensures r.Some? && followedObjectPosition.Some? ==> r.value == followedObjectPosition.value
    ensures r.Some? && followedObjectPosition.None? ==> r.value == forwardPoint
  {
    if !pathInitialized then None
    else if animatedObjectAssigned && followedObjectPosition.Some? then followedObjectPosition
    else if animatedObjectAssigned then Some(forwardPoint)
    else None
  }

  class AnimationPathAnimator {
    var duration: real
    /** Current play time as a number between 0 and 1. */
    var animTimeRatio: real
    /** Current animation time in seconds. */
    var currentAnimTime: real
    var isPlaying: bool
    const animatedObjectPath: Path
    const easeCurve: Curve
    const tiltingCurve: Curve
    const lookForwardCurve: Curve

    ghost predicate Valid()
      reads this, easeCurve, tiltingCurve, lookForwardCurve
    {
      easeCurve.Valid() && tiltingCurve.Valid() && lookForwardCurve.Valid() &&
      easeCurve != tiltingCurve && easeCurve != lookForwardCurve && tiltingCurve != lookForwardCurve
    }

    /** A new component: the field initialisers. */
    constructor (path: Path, curveOps: CurveOps)
      ensures Valid() && duration == DefaultDuration && animTimeRatio == 0.0 && currentAnimTime == 0.0 && !isPlaying
      ensures animatedObjectPath == path
      ensures easeCurve.keys == [] && tiltingCurve.keys == [] && lookForwardCurve.keys == []
      ensures fresh(easeCurve) && fresh(tiltingCurve) && fresh(lookForwardCurve)
    {
      duration := DefaultDuration;
      animTimeRatio := 0.0;
      currentAnimTime := 0.0;
      isPlaying := false;
      animatedObjectPath := path;
      easeCurve := new Curve(curveOps);
      tiltingCurve := new Curve(curveOps);
      lookForwardCurve := new Curve(curveOps);
    }

    /** OnValidate: the inspector values brought into range. */
    method OnValidate()
      modifies this
      ensures duration == ClampedDuration(old(duration)) && animTimeRatio == ClampedRatio(old(animTimeRatio))
      ensures currentAnimTime == old(currentAnimTime) && isPlaying == old(isPlaying)
    {
      if duration < 1.0 {
        duration := 1.0;
      }
      if animTimeRatio < 0.0 {
        animTimeRatio := 0.0;
      } else if animTimeRatio > 1.0 {
        animTimeRatio := 1.0;
      }
    }

    /** InitializeEaseCurve: keys (0, 0) and (1, 1). */
    method InitializeEaseCurve()
      requires Valid()
      modifies easeCurve
      ensures Valid() && easeCurve.keys == WithEnds(old(easeCurve.keys), 0.0, 1.0)
    {
      var _ := easeCurve.AddKey(MakeKey(0.0, 0.0));
      var _ := easeCurve.AddKey(MakeKey(1.0, 1.0));
    }

    /** InitializeRotationCurve: tilting keys (0, 0) and (1, 0). */
    method InitializeRotationCurve()
      requires Valid()
      modifies tiltingCurve
      ensures Valid() && tiltingCurve.keys == WithEnds(old(tiltingCurve.keys), 0.0, 0.0)
    {
      var _ := tiltingCurve.AddKey(MakeKey(0.0, 0.0));
      var _ := tiltingCurve.AddKey(MakeKey(1.0, 0.0));
    }

    /** InitializeLookForwardCurve: keys (0, 0.03) and (1, 0.03). */
    method InitializeLookForwardCurve()
      requires Valid()
      modifies lookForwardCurve
      ensures Valid() && lookForwardCurve.keys == WithEnds(old(lookForwardCurve.keys), LookForwardTimeDelta, LookForwardTimeDelta)
    {
      var _ := lookForwardCurve.AddKey(MakeKey(0.0, LookForwardTimeDelta));
      var _ := lookForwardCurve.AddKey(MakeKey(1.0, LookForwardTimeDelta));
    }

    /** Start's three curve initialisations. */
    method InitializeCurves()
      requires Valid()
      modifies easeCurve, tiltingCurve, lookForwardCurve
      ensures Valid()
      ensures easeCurve.keys == WithEnds(old(easeCurve.keys), 0.0, 1.0)
      ensures tiltingCurve.keys == WithEnds(old(tiltingCurve.keys), 0.0, 0.0)
      ensures lookForwardCurve.keys == WithEnds(old(lookForwardCurve.keys), LookForwardTimeDelta, LookForwardTimeDelta)
    {
      InitializeEaseCurve();
      InitializeRotationCurve();
      InitializeLookForwardCurve();
    }

    /** The EaseTime coroutine over frames with the given deltaTimes. */
    method EaseTime(deltaTimes: seq<real>)
      requires duration != 0.0
      modifies this
      ensures duration == old(duration) && isPlaying == old(isPlaying)
      ensures var r := EaseSteps(easeCurve.ops, easeCurve.keys, duration, old(currentAnimTime), old(animTimeRatio), deltaTimes);
        currentAnimTime == r.time && animTimeRatio == r.ratio
    {
      ghost var goal := EaseSteps(easeCurve.ops, easeCurve.keys, duration, currentAnimTime, animTimeRatio, deltaTimes);
      var i := 0;
      var more := true;
      while more && i < |deltaTimes|
        invariant 0 <= i <= |deltaTimes|
        invariant duration == old(duration) && isPlaying == old(isPlaying)
        invariant more ==> goal == Shifted(i, EaseSteps(easeCurve.ops, easeCurve.keys, duration, currentAnimTime, animTimeRatio, deltaTimes[i..]))
        invariant !more ==> goal == Eased(currentAnimTime, animTimeRatio, i)
        decreases |deltaTimes| - i
      {
        assert deltaTimes[i..][1..] == deltaTimes[i + 1..];
        currentAnimTime := currentAnimTime + deltaTimes[i];
        var timeRatio := currentAnimTime / duration;
        animTimeRatio := easeCurve.Evaluate(timeRatio);
        i := i + 1;
        more := animTimeRatio < 1.0;
      }
    }

    /** Start: the three curves get their default keys, playback is on and
        the time in seconds starts from the inspector's ratio; in play mode
        the EaseTime coroutine then runs. */
    method Start(isPlayMode: bool, deltaTimes: seq<real>)
      requires Valid() && (isPlayMode ==> duration != 0.0)
      modifies this, easeCurve, tiltingCurve, lookForwardCurve
      ensures Valid() && isPlaying && duration == old(duration)
      ensures easeCurve.keys == WithEnds(old(easeCurve.keys), 0.0, 1.0)
      ensures tiltingCurve.keys == WithEnds(old(tiltingCurve.keys), 0.0, 0.0)
      ensures lookForwardCurve.keys == WithEnds(old(lookForwardCurve.keys), LookForwardTimeDelta, LookForwardTimeDelta)
      ensures !isPlayMode ==> currentAnimTime == StartTime(old(animTimeRatio), old(duration)) && animTimeRatio == old(animTimeRatio)
      ensures isPlayMode ==>
        var r := EaseSteps(easeCurve.ops, easeCurve.keys, duration, StartTime(old(animTimeRatio), old(duration)), old(animTimeRatio), deltaTimes);
        currentAnimTime == r.time && animTimeRatio == r.ratio
    {
      InitializeCurves();
      StartPlayback(isPlayMode, deltaTimes);
    }

    /** The rest of Start, after the curves: playback on, the time in
        seconds from the ratio, and in play mode the coroutine. */
    method StartPlayback(isPlayMode: bool, deltaTimes: seq<real>)
      requires isPlayMode ==> duration != 0.0
      modifies this
      ensures isPlaying && duration == old(duration)
      ensures !isPlayMode ==> currentAnimTime == StartTime(old(animTimeRatio), old(duration)) && animTimeRatio == old(animTimeRatio)
      ensures isPlayMode ==>
        var r := EaseSteps(easeCurve.ops, easeCurve.keys, duration, StartTime(old(animTimeRatio), old(duration)), old(animTimeRatio), deltaTimes);
        currentAnimTime == r.time && animTimeRatio == r.ratio
    {
      var startTime := StartTime(animTimeRatio, duration);
      isPlaying := true;
      currentAnimTime := startTime;
      if isPlayMode {
        EaseTime(deltaTimes);
      }
    }

    /** GetForwardPoint: the path position the look-forward curve's value
        ahead of the current ratio. */
    function GetForwardPoint(): Vec3
      reads this, animatedObjectPath, lookForwardCurve
    {
      animatedObjectPath.GetVectorAtTime(animTimeRatio + lookForwardCurve.Evaluate(animTimeRatio))
    }

    /** RotateObject's choice of target, given whether the path is
        initialised, whether an animated object is assigned and the followed
        object's position if there is one. */
    method RotateObject(pathInitialized: bool, animatedObjectAssigned: bool, followedObjectPosition: Option<Vec3>)
      returns (target: Option<Vec3>)
      ensures target == RotationTarget(pathInitialized, animatedObjectAssigned, followedObjectPosition, GetForwardPoint())
      ensures target.Some? && followedObjectPosition.None? ==>
        target.value == animatedObjectPath.ops.vectorAt(animatedObjectPath.nodes, animTimeRatio + lookForwardCurve.ops.evaluate(lookForwardCurve.keys, animTimeRatio))
    {
      if !pathInitialized {
        return None;
      }
      if animatedObjectAssigned && followedObjectPosition.Some? {
        target := followedObjectPosition;
      } else if animatedObjectAssigned {
        var forwardPoint := GetForwardPoint();
        target := Some(forwardPoint);
      } else {
        target := None;
      }
    }
  }
}
