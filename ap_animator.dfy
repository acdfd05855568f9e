/** The APAnimator component's playback: how the animation time advances
    each frame, what the Clamp, Loop and PingPong wrap modes do at the ends
    of the path, the play/pause transitions and the NodeReached
    notifications.

    The animation time is a fraction of the path (0 at the first node, 1 at
    the last). The ease curve lookup (PathData.GetEaseValueAtTime) is the
    function `ease`, the host's Time.deltaTime of each frame is a parameter,
    and the path's node timestamps are given as a sequence. */
module APAnimatorPlayback {
  import opened Paths

  datatype WrapMode = Clamp | Loop | PingPong

  /** Notifications the animator raises; NodeReached carries the node index
      and the animation time at which it was reached. */
  datatype Event = AnimationStarted | NodeReached(nodeIndex: nat, time: real)

  /** The part of the animator a frame changes: AnimationTime, Reverse and
      IsRunning. */
  datatype Playback = Playback(time: real, reverse: bool, running: bool)

  // ---------------------------------------------------------------------
  // One frame of the EaseTime coroutine

  /** UpdateAnimationTime: the time moves by the ease value at the current
      time, scaled by the frame's deltaTime, backward when Reverse is set. */
  function Advanced(s: Playback, ease: real -> real, deltaTime: real): real {
    if s.reverse then s.time - ease(s.time) * deltaTime else s.time + ease(s.time) * deltaTime
  }

  /** HandleClampWrapMode. */
  function ClampWrap(mode: WrapMode, s: Playback): (r: Playback)
    ensures mode == Clamp ==> r.time <= 1.0
    ensures mode != Clamp || s.time <= 1.0 ==> r == s
    ensures r != s ==> r == Playback(1.0, s.reverse, false)
  {
    if s.time > 1.0 && mode == Clamp then s.(time := 1.0, running := false) else s
  }

  /** HandleLoopWrapMode. */
  function LoopWrap(mode: WrapMode, s: Playback): (r: Playback)
    ensures mode == Loop ==> r.time <= 1.0
    ensures mode != Loop || s.time <= 1.0 ==> r == s
    ensures r != s ==> r == s.(time := 0.0)
  {
    if s.time > 1.0 && mode == Loop then s.(time := 0.0) else s
  }

  /** HandlePingPongWrapMode: past either end the direction is set to lead
      back into [0, 1]; the time itself is left as it is. */
  function PingPongWrap(mode: WrapMode, s: Playback): (r: Playback)
    ensures r.time == s.time && r.running == s.running
    ensures mode != PingPong || 0.0 <= s.time <= 1.0 ==> r == s
    ensures mode == PingPong && s.time > 1.0 ==> r.reverse
    ensures mode == PingPong && s.time < 0.0 ==> !r.reverse
  {
    var s1 := if s.time > 1.0 && mode == PingPong then s.(reverse := true) else s;
    if s1.time < 0.0 && mode == PingPong then s1.(reverse := false) else s1
  }

  /** The body of EaseTime's loop on an unpaused frame, after the
      AnimationStarted check: advance time, then the three wrap handlers in
      the order Clamp, Loop, PingPong. Only the selected mode's handler
      acts. */
  function Tick(mode: WrapMode, ease: real -> real, s: Playback, deltaTime: real): (r: Playback)
    ensures var a := Advanced(s, ease, deltaTime);
      && (mode == Clamp ==>
            r.reverse == s.reverse &&
            (if a > 1.0 then r.time == 1.0 && !r.running else r.time == a && r.running == s.running))
      && (mode == Loop ==>
            r.reverse == s.reverse && r.running == s.running && r.time == (if a > 1.0 then 0.0 else a))
      && (mode == PingPong ==>
            r.time == a && r.running == s.running &&
            r.reverse == (if a > 1.0 then true else if a < 0.0 then false else s.reverse))
  {
    PingPongWrap(mode, LoopWrap(mode, ClampWrap(mode, s.(time := Advanced(s, ease, deltaTime)))))
  }

  /** HandleFireOnAnimationStartedEvent: AnimationStarted when the time is
      exactly 0. */
  function StartedEvents(time: real): seq<Event> {
    if time == 0.0 then [AnimationStarted] else []
  }

  /** What the EaseTime coroutine ends with and the events it raises. */
  datatype Played = Played(state: Playback, fired: seq<Event>)

  /** The EaseTime coroutine, unpaused, over frames with the given
      deltaTimes: each frame raises AnimationStarted at time 0 and ticks; the
      coroutine ends after the frame that leaves IsRunning false. */
  function Play(mode: WrapMode, ease: real -> real, s: Playback, deltaTimes: seq<real>): Played
    decreases |deltaTimes|
  {
    if |deltaTimes| == 0 then Played(s, [])
    else
      var s' := Tick(mode, ease, s, deltaTimes[0]);
      var rest := if s'.running then Play(mode, ease, s', deltaTimes[1..]) else Played(s', []);
      Played(rest.state, StartedEvents(s.time) + rest.fired)
  }

  /** What remains of a coroutine run after the events already raised. */
  function After(fired: seq<Event>, rest: Played): Played {
    Played(rest.state, fired + rest.fired)
  }

  /** Play from frame i on: one tick, then the rest if still running. */
  lemma PlayFrom(mode: WrapMode, ease: real -> real, s: Playback, deltaTimes: seq<real>, i: nat)
    requires i < |deltaTimes|
    ensures var s' := Tick(mode, ease, s, deltaTimes[i]);
      Play(mode, ease, s, deltaTimes[i..]) ==
        After(StartedEvents(s.time), if s'.running then Play(mode, ease, s', deltaTimes[i + 1..]) else Played(s', []))
  {
    assert deltaTimes[i..][1..] == deltaTimes[i + 1..];
  }

  /** Whether the first frame of a run leaves it stopped. */
  predicate StopsOnFirstFrame(mode: WrapMode, ease: real -> real, s: Playback, deltaTimes: seq<real>) {
    0 < |deltaTimes| && !Tick(mode, ease, s, deltaTimes[0]).running
  }

  /** A run up to its first yield is its first frame; the whole run is that
      frame and then, if it did not stop, the run over the later frames. */
  lemma PlayFirstFrame(mode: WrapMode, ease: real -> real, s: Playback, deltaTimes: seq<real>)
    requires 0 < |deltaTimes|
    ensures var s' := Tick(mode, ease, s, deltaTimes[0]);
      && Play(mode, ease, s, deltaTimes[..1]) == Played(s', StartedEvents(s.time))
      && Play(mode, ease, s, deltaTimes) ==
           After(StartedEvents(s.time), if s'.running then Play(mode, ease, s', deltaTimes[1..]) else Played(s', []))
  {
    assert deltaTimes[..1][1..] == [];
  }

  /** A Clamp run at half speed over three one-second frames: it yields
      after its first frame and stops on the third, at time 1. */
  lemma ClampStopsOnThirdFrame()
    ensures var s0 := Playback(0.0, false, true);
      var p := Play(Clamp, _ => 0.5, s0, [1.0, 1.0, 1.0]);
      p.state == Playback(1.0, false, false) && !StopsOnFirstFrame(Clamp, _ => 0.5, s0, [1.0, 1.0, 1.0])
  {
    var ds := [1.0, 1.0, 1.0];
    assert ds[1..][1..] == [1.0];
    assert ds[1..][1..][1..] == [];
  }

  lemma AfterAfter(a: seq<Event>, b: seq<Event>, r: Played)
    ensures After(a, After(b, r)) == After(a + b, r)
  {
    assert a + (b + r.fired) == a + b + r.fired;
  }

  predicate NonNegative(deltaTimes: seq<real>) {
    forall i :: 0 <= i < |deltaTimes| ==> deltaTimes[i] >= 0.0
  }

  ghost predicate EaseNonNegative(ease: real -> real) {
    forall t :: 0.0 <= t <= 1.0 ==> ease(t) >= 0.0
  }

  lemma StepNonNegative(e: real, dt: real)
    requires e >= 0.0 && dt >= 0.0
    ensures e * dt >= 0.0
  {
  }

  /** Playing forward in Clamp or Loop mode from a time in [0, 1], with a
      non-negative ease curve, keeps the time in [0, 1] however many frames
      pass, and the direction stays forward. */
  lemma {:induction false} ForwardPlayStaysInRange(mode: WrapMode, ease: real -> real, s: Playback, deltaTimes: seq<real>)
    requires mode != PingPong && !s.reverse && 0.0 <= s.time <= 1.0
    requires EaseNonNegative(ease) && NonNegative(deltaTimes)
    ensures var r := Play(mode, ease, s, deltaTimes).state;
      0.0 <= r.time <= 1.0 && !r.reverse
    decreases |deltaTimes|
  {
    if |deltaTimes| > 0 {
      StepNonNegative(ease(s.time), deltaTimes[0]);
      var s' := Tick(mode, ease, s, deltaTimes[0]);
      assert 0.0 <= s'.time <= 1.0 && !s'.reverse;
      if s'.running {
        assert NonNegative(deltaTimes[1..]) by {
          forall i | 0 <= i < |deltaTimes[1..]| ensures deltaTimes[1..][i] >= 0.0 {
            assert deltaTimes[1..][i] == deltaTimes[i + 1];
          }
        }
        ForwardPlayStaysInRange(mode, ease, s', deltaTimes[1..]);
      }
    }
  }

  /** Only Clamp mode ends the coroutine: in Loop and PingPong mode a running
      animation is still running after any number of frames. */
  lemma {:induction false} OnlyClampStops(mode: WrapMode, ease: real -> real, s: Playback, deltaTimes: seq<real>)
    requires mode != Clamp && s.running
    ensures Play(mode, ease, s, deltaTimes).state.running
    decreases |deltaTimes|
  {
    if |deltaTimes| > 0 {
      OnlyClampStops(mode, ease, Tick(mode, ease, s, deltaTimes[0]), deltaTimes[1..]);
    }
  }

  /** In Clamp mode the coroutine ends only at the end of the path: a
      stopped result has time exactly 1. */
  lemma {:induction false} ClampStopsAtEnd(ease: real -> real, s: Playback, deltaTimes: seq<real>)
    requires s.running
    ensures var r := Play(Clamp, ease, s, deltaTimes).state;
      r.running || r.time == 1.0
    decreases |deltaTimes|
  {
    if |deltaTimes| > 0 {
      var s' := Tick(Clamp, ease, s, deltaTimes[0]);
      if s'.running {
        ClampStopsAtEnd(ease, s', deltaTimes[1..]);
      }
    }
  }

  /** PingPong bounces: a frame that carries the time past 1 turns the
      direction backward, and one that carries it below 0 turns it forward,
      so with a positive step the following frame moves back toward [0, 1]. */
  lemma PingPongTurnsBack(ease: real -> real, s: Playback, dt: real, dt': real)
    requires dt' > 0.0
    ensures var s' := Tick(PingPong, ease, s, dt);
      var s'' := Tick(PingPong, ease, s', dt');
      (s'.time > 1.0 && ease(s'.time) > 0.0 ==> s''.time < s'.time) &&
      (s'.time < 0.0 && ease(s'.time) > 0.0 ==> s''.time > s'.time)
  {
    var s' := Tick(PingPong, ease, s, dt);
    if ease(s'.time) > 0.0 {
      assert ease(s'.time) * dt' > 0.0;
    }
  }

  // ---------------------------------------------------------------------
  // NodeReached

  /** The indices, in ascending order, of the first n node timestamps that
      lie in (prev, now]: the nodes the animation time passed since the
      previous frame. */
  function Crossed(ts: seq<real>, prev: real, now: real, n: nat): seq<nat>
    requires n <= |ts|
  {
    if n == 0 then []
    else Crossed(ts, prev, now, n - 1) + (if prev < ts[n - 1] <= now then [n - 1] else [])
  }

  /** Exactly the indices below n whose timestamp is in (prev, now] are
      reported, each once, in ascending order. */
  lemma {:induction false} CrossedMembers(ts: seq<real>, prev: real, now: real, n: nat)
    requires n <= |ts|
    ensures var r := Crossed(ts, prev, now, n);
      (forall k: nat :: k in r <==> k < n && prev < ts[k] <= now) &&
      (forall a, b :: 0 <= a < b < |r| ==> r[a] < r[b])
  {
    if n > 0 {
      CrossedMembers(ts, prev, now, n - 1);
      var r0 := Crossed(ts, prev, now, n - 1);
      var r := Crossed(ts, prev, now, n);
      if prev < ts[n - 1] <= now {
        assert r == r0 + [n - 1];
        forall a, b | 0 <= a < b < |r| ensures r[a] < r[b] {
          if b == |r0| {
            assert r[a] == r0[a] && r0[a] in r0;
          }
        }
      } else {
        assert r == r0;
      }
    }
  }

  /** When none of the first n timestamps is in (prev, now], none is
      reported. */
  lemma {:induction false} CrossedEmpty(ts: seq<real>, prev: real, now: real, n: nat)
    requires n <= |ts|
    requires forall k :: 0 <= k < n ==> !(prev < ts[k] <= now)
    ensures Crossed(ts, prev, now, n) == []
  {
    if n > 0 {
      CrossedEmpty(ts, prev, now, n - 1);
    }
  }

  /** A time that did not increase crosses no node. */
  lemma NoneWhenNotAdvancing(ts: seq<real>, prev: real, now: real)
    requires now <= prev
    ensures Crossed(ts, prev, now, |ts|) == []
  {
    CrossedEmpty(ts, prev, now, |ts|);
  }

  /** One NodeReached per crossed index, carrying the current time. */
  function ReachedEvents(indices: seq<nat>, now: real): (r: seq<Event>)
    ensures |r| == |indices|
    ensures forall i :: 0 <= i < |r| ==> r[i] == NodeReached(indices[i], now)
  {
    seq(|indices|, i requires 0 <= i < |indices| => NodeReached(indices[i], now))
  }

  lemma ReachedEventsAppend(indices: seq<nat>, k: nat, now: real)
    ensures ReachedEvents(indices + [k], now) == ReachedEvents(indices, now) + [NodeReached(k, now)]
  {
    assert ReachedEvents(indices + [k], now)[|indices|] == NodeReached(k, now);
  }

  predicate Ascending(ts: seq<real>) {
    forall i, j :: 0 <= i < j < |ts| ==> ts[i] < ts[j]
  }

  /** Over ascending timestamps, one long step reports the same nodes, in the
      same order, as two shorter steps through an intermediate time: the
      notifications do not depend on how the frames divide the time. */
  lemma {:induction false} CrossedSplit(ts: seq<real>, prev: real, mid: real, now: real, n: nat)
    requires Ascending(ts) && n <= |ts| && prev <= mid <= now
    ensures Crossed(ts, prev, now, n) == Crossed(ts, prev, mid, n) + Crossed(ts, mid, now, n)
  {
    if n > 0 {
      CrossedSplit(ts, prev, mid, now, n - 1);
      var early := Crossed(ts, prev, mid, n - 1);
      var late := Crossed(ts, mid, now, n - 1);
      if prev < ts[n - 1] <= mid {
        assert forall k :: 0 <= k < n - 1 ==> ts[k] < ts[n - 1];
        CrossedEmpty(ts, mid, now, n - 1);
        assert Crossed(ts, prev, now, n) == early + late + [n - 1];
      } else if mid < ts[n - 1] <= now {
        assert Crossed(ts, prev, now, n) == early + late + [n - 1];
        assert Crossed(ts, mid, now, n) == late + [n - 1];
      }
    }
  }

  /** GetNearestForwardNodeTimestamp: the first timestamp after `time`, or
      1.0 when there is none. */
  function NearestForward(ts: seq<real>, time: real): (r: real)
    ensures r > time || r == 1.0
    ensures (forall i :: 0 <= i < |ts| ==> ts[i] <= time) ==> r == 1.0
    ensures (exists i :: 0 <= i < |ts| && ts[i] > time) ==>
      exists i :: 0 <= i < |ts| && ts[i] > time && r == ts[i] && forall j :: 0 <= j < i ==> ts[j] <= time
    decreases |ts|
  {
    if |ts| == 0 then 1.0
    else if ts[0] > time then ts[0]
    else
      var r := NearestForward(ts[1..], time);
      assert forall j :: 1 <= j < |ts| ==> ts[1..][j - 1] == ts[j];
      r
  }

  /** GetNearestBackwardNodeTimestamp: the last timestamp before `time`, or
      0 when there is none. */
  function NearestBackward(ts: seq<real>, time: real): (r: real)
    ensures r < time || r == 0.0
    ensures (forall i :: 0 <= i < |ts| ==> ts[i] >= time) ==> r == 0.0
    ensures (exists i :: 0 <= i < |ts| && ts[i] < time) ==>
      exists i :: 0 <= i < |ts| && ts[i] < time && r == ts[i] && forall j :: i < j < |ts| ==> ts[j] >= time
    decreases |ts|
  {
    if |ts| == 0 then 0.0
    else if ts[|ts| - 1] < time then ts[|ts| - 1]
    else
      var r := NearestBackward(ts[..|ts| - 1], time);
      assert forall j :: 0 <= j < |ts| - 1 ==> ts[..|ts| - 1][j] == ts[j];
      r
  }

  /** Over ascending timestamps the forward lookup finds the nearest node
      ahead: no timestamp lies strictly between `time` and the result. */
  lemma ForwardIsNearest(ts: seq<real>, time: real, i: nat)
    requires Ascending(ts) && i < |ts| && ts[i] > time
    ensures NearestForward(ts, time) <= ts[i]
  {
    var w :| 0 <= w < |ts| && ts[w] > time && NearestForward(ts, time) == ts[w] &&
      forall j :: 0 <= j < w ==> ts[j] <= time;
    if w < i {
      assert ts[w] < ts[i];
    }
  }

  /** Over ascending timestamps the backward lookup finds the nearest node
      behind. */
  lemma BackwardIsNearest(ts: seq<real>, time: real, i: nat)
    requires Ascending(ts) && i < |ts| && ts[i] < time
    ensures ts[i] <= NearestBackward(ts, time)
  {
    var w :| 0 <= w < |ts| && ts[w] < time && NearestBackward(ts, time) == ts[w] &&
      forall j :: w < j < |ts| ==> ts[j] >= time;
    if i < w {
      assert ts[i] < ts[w];
    }
  }
  // ---------------------------------------------------------------------
  // The component

  class APAnimator {
    var animationTime: real
    var prevAnimationTime: real
    var reverse: bool
    var isRunning: bool
    var pause: bool
    var animGOUpdateEnabled: bool
    /** SettingsAsset.WrapMode. */
    const wrapMode: WrapMode
    /** Whether a PathData asset is assigned. */
    const pathDataAssigned: bool

    ghost var events: seq<Event>

    function State(): Playback
      reads this
    {
      Playback(animationTime, reverse, isRunning)
    }

    /** A component with its fields at their initial values. */
    constructor (wrapMode: WrapMode, pathDataAssigned: bool)
      ensures State() == Playback(0.0, false, false) && prevAnimationTime == 0.0
      ensures !pause && !animGOUpdateEnabled && events == []
      ensures this.wrapMode == wrapMode && this.pathDataAssigned == pathDataAssigned
    {
      animationTime := 0.0;
      prevAnimationTime := 0.0;
      reverse := false;
      isRunning := false;
      pause := false;
      animGOUpdateEnabled := false;
      this.wrapMode := wrapMode;
      this.pathDataAssigned := pathDataAssigned;
      events := [];
    }

    /** The Pause setter: unpausing also re-enables updating the animated
        object. */
    method SetPause(value: bool)
      modifies this
      ensures pause == value
      ensures animGOUpdateEnabled == (!value || old(animGOUpdateEnabled))
      ensures State() == old(State()) && prevAnimationTime == old(prevAnimationTime)
      ensures events == old(events)
    {
      pause := value;
      if !value {
        animGOUpdateEnabled := true;
      }
    }

    /** PauseAnimation, UnpauseAnimation and PlayPauseAnimation. */
    method PauseAnimation()
      modifies this
      ensures pause && animGOUpdateEnabled == old(animGOUpdateEnabled)
      ensures State() == old(State()) && prevAnimationTime == old(prevAnimationTime)
      ensures events == old(events)
    {
      SetPause(true);
    }

    method UnpauseAnimation()
      modifies this
      ensures !pause && animGOUpdateEnabled
      ensures State() == old(State()) && prevAnimationTime == old(prevAnimationTime)
      ensures events == old(events)
    {
      SetPause(false);
    }

    method PlayPauseAnimation()
      modifies this
      ensures pause == !old(pause)
      ensures animGOUpdateEnabled == (old(pause) || old(animGOUpdateEnabled))
      ensures State() == old(State()) && prevAnimationTime == old(prevAnimationTime)
      ensures events == old(events)
    {
      SetPause(!pause);
    }

    /** StopAnimation: stopped, unpaused, back at the start. */
    method StopAnimation()
      modifies this
      ensures !isRunning && !pause && animationTime == 0.0 && animGOUpdateEnabled
      ensures reverse == old(reverse) && prevAnimationTime == old(prevAnimationTime)
      ensures events == old(events)
    {
      isRunning := false;
      SetPause(false);
      animationTime := 0.0;
    }

    method HandleFireOnAnimationStartedEvent()
      modifies this
      ensures events == old(events) + StartedEvents(animationTime)
      ensures State() == old(State()) && pause == old(pause) && animGOUpdateEnabled == old(animGOUpdateEnabled)
      ensures prevAnimationTime == old(prevAnimationTime)
    {
      if animationTime == 0.0 {
        events := events + [AnimationStarted];
      }
    }

    method UpdateAnimationTime(ease: real -> real, deltaTime: real)
      modifies this
      ensures State() == old(State()).(time := Advanced(old(State()), ease, deltaTime))
      ensures pause == old(pause) && animGOUpdateEnabled == old(animGOUpdateEnabled)
      ensures prevAnimationTime == old(prevAnimationTime)
      ensures events == old(events)
    {
      var timeStep := ease(animationTime);
      if reverse {
        animationTime := animationTime - timeStep * deltaTime;
      } else {
        animationTime := animationTime + timeStep * deltaTime;
      }
    }

    method HandleClampWrapMode()
      modifies this
      ensures State() == ClampWrap(wrapMode, old(State()))
      ensures pause == old(pause) && animGOUpdateEnabled == old(animGOUpdateEnabled)
      ensures prevAnimationTime == old(prevAnimationTime)
      ensures events == old(events)
    {
      if animationTime > 1.0 && wrapMode == Clamp {
        animationTime := 1.0;
        isRunning := false;
      }
    }

    method HandleLoopWrapMode()
      modifies this
      ensures State() == LoopWrap(wrapMode, old(State()))
      ensures pause == old(pause) && animGOUpdateEnabled == old(animGOUpdateEnabled)
      ensures prevAnimationTime == old(prevAnimationTime)
      ensures events == old(events)
    {
      if animationTime > 1.0 && wrapMode == Loop {
        animationTime := 0.0;
      }
    }

    method HandlePingPongWrapMode()
      modifies this
      ensures State() == PingPongWrap(wrapMode, old(State()))
      ensures pause == old(pause) && animGOUpdateEnabled == old(animGOUpdateEnabled)
      ensures prevAnimationTime == old(prevAnimationTime)
      ensures events == old(events)
    {
      if animationTime > 1.0 && wrapMode == PingPong {
        reverse := true;
      }
      if animationTime < 0.0 && wrapMode == PingPong {
        reverse := false;
      }
    }

    /** One pass of EaseTime's loop: nothing while paused, otherwise the
        AnimationStarted check and a tick. */
    method EaseTimeFrame(ease: real -> real, deltaTime: real)
      modifies this
      ensures old(pause) ==> State() == old(State()) && events == old(events)
      ensures !old(pause) ==>
        State() == Tick(wrapMode, ease, old(State()), deltaTime) &&
        events == old(events) + StartedEvents(old(animationTime))
      ensures pause == old(pause) && animGOUpdateEnabled == old(animGOUpdateEnabled)
      ensures prevAnimationTime == old(prevAnimationTime)
    {
      if !pause {
        HandleFireOnAnimationStartedEvent();
        UpdateAnimationTime(ease, deltaTime);
        HandleClampWrapMode();
        HandleLoopWrapMode();
        HandlePingPongWrapMode();
      }
    }

    /** The EaseTime coroutine: running, unpaused, updating the animated
        object, then one loop pass per frame until a pass leaves it not
        running. */
    method EaseTime(ease: real -> real, deltaTimes: seq<real>)
      modifies this
      ensures var p := Play(wrapMode, ease, Playback(old(animationTime), old(reverse), true), deltaTimes);
        State() == p.state && events == old(events) + p.fired
      ensures !pause && animGOUpdateEnabled
      ensures prevAnimationTime == old(prevAnimationTime)
    {
      isRunning := true;
      SetPause(false);
      animGOUpdateEnabled := true;
      EaseTimeLoop(ease, deltaTimes);
    }

    /** EaseTime's loop, entered while running and unpaused: at the start of
        the coroutine, or when it resumes after a yield. */
    method EaseTimeLoop(ease: real -> real, deltaTimes: seq<real>)
      requires isRunning && !pause && animGOUpdateEnabled
      modifies this
      ensures var p := Play(wrapMode, ease, old(State()), deltaTimes);
        State() == p.state && events == old(events) + p.fired
      ensures !pause && animGOUpdateEnabled
      ensures prevAnimationTime == old(prevAnimationTime)
    {
      ghost var p := Play(wrapMode, ease, State(), deltaTimes);
      ghost var fired: seq<Event> := [];
      var i := 0;
      while i < |deltaTimes| && isRunning
        invariant 0 <= i <= |deltaTimes|
        invariant !pause && animGOUpdateEnabled
        invariant prevAnimationTime == old(prevAnimationTime)
        invariant events == old(events) + fired
        invariant p == After(fired, if isRunning then Play(wrapMode, ease, State(), deltaTimes[i..]) else Played(State(), []))
        decreases |deltaTimes| - i
      {
        ghost var fired0 := fired;
        ghost var t := animationTime;
        fired := EaseTimeStep(ease, deltaTimes, i, fired);
        assert old(events) + fired == old(events) + fired0 + StartedEvents(t);
        i := i + 1;
      }
    }

    /** One pass of EaseTime's loop while running: frame i, and what is
        left of the run after it. */
    method EaseTimeStep(ease: real -> real, deltaTimes: seq<real>, i: nat, ghost fired: seq<Event>)
      returns (ghost fired': seq<Event>)
      requires i < |deltaTimes| && isRunning && !pause
      modifies this
      ensures events == old(events) + StartedEvents(old(animationTime))
      ensures fired' == fired + StartedEvents(old(animationTime))
      ensures After(fired, Play(wrapMode, ease, old(State()), deltaTimes[i..])) ==
        After(fired', if isRunning then Play(wrapMode, ease, State(), deltaTimes[i + 1..]) else Played(State(), []))
      ensures pause == old(pause) && animGOUpdateEnabled == old(animGOUpdateEnabled)
      ensures prevAnimationTime == old(prevAnimationTime)
    {
      PlayFrom(wrapMode, ease, State(), deltaTimes, i);
      EaseTimeFrame(ease, deltaTimes[i]);
      fired' := fired + StartedEvents(old(animationTime));
      AfterAfter(fired, StartedEvents(old(animationTime)),
        if isRunning then Play(wrapMode, ease, State(), deltaTimes[i + 1..]) else Played(State(), []));
    }

    /** HandleFireNodeReachedEventForFirstNode: node 0 is reported at the
        start only when the time is exactly 0. */
    method HandleFireNodeReachedEventForFirstNode()
      modifies this
      ensures events == old(events) + if animationTime == 0.0 then [NodeReached(0, 0.0)] else []
      ensures State() == old(State()) && pause == old(pause) && animGOUpdateEnabled == old(animGOUpdateEnabled)
      ensures prevAnimationTime == old(prevAnimationTime)
    {
      if animationTime == 0.0 {
        events := events + [NodeReached(0, 0.0)];
      }
    }

    /** StartAnimation: nothing without a PathData asset; otherwise the
        first-node notification and the EaseTime coroutine. */
    method StartAnimation(ease: real -> real, deltaTimes: seq<real>)
      modifies this
      ensures !pathDataAssigned ==> (State() == old(State()) && events == old(events) &&
        pause == old(pause) && animGOUpdateEnabled == old(animGOUpdateEnabled))
      ensures pathDataAssigned ==>
        var p := Play(wrapMode, ease, Playback(old(animationTime), old(reverse), true), deltaTimes);
        State() == p.state && !pause && animGOUpdateEnabled &&
        events == old(events) + (if old(animationTime) == 0.0 then [NodeReached(0, 0.0)] else []) + p.fired
      ensures prevAnimationTime == old(prevAnimationTime)
    {
      if !pathDataAssigned {
        return;
      }
      HandleFireNodeReachedEventForFirstNode();
      EaseTime(ease, deltaTimes);
    }

    /** HandleStartAnimation: in play mode with AutoPlay set, start, then
        mark the animator running. Starting the coroutine runs it up to its
        first yield, that is its first frame; IsRunning is then set, and the
        coroutine resumes with the later frames only if it yielded. So the
        animator ends marked running after a run that stopped on its first
        frame, or when there is no PathData asset, and otherwise ends as the
        whole run does. */
    method HandleStartAnimation(isPlaying: bool, autoPlay: bool, ease: real -> real, deltaTimes: seq<real>)
      modifies this
      ensures !(isPlaying && autoPlay) ==> (State() == old(State()) && events == old(events) &&
        pause == old(pause) && animGOUpdateEnabled == old(animGOUpdateEnabled))
      ensures isPlaying && autoPlay && !pathDataAssigned ==>
        State() == old(State()).(running := true) && events == old(events) &&
        pause == old(pause) && animGOUpdateEnabled == old(animGOUpdateEnabled)
      ensures isPlaying && autoPlay && pathDataAssigned ==>
        var s0 := Playback(old(animationTime), old(reverse), true);
        var p := Play(wrapMode, ease, s0, deltaTimes);
        animationTime == p.state.time && reverse == p.state.reverse &&
        isRunning == (p.state.running || StopsOnFirstFrame(wrapMode, ease, s0, deltaTimes)) &&
        !pause && animGOUpdateEnabled &&
        events == old(events) + (if old(animationTime) == 0.0 then [NodeReached(0, 0.0)] else []) + p.fired
      ensures prevAnimationTime == old(prevAnimationTime)
    {
      if isPlaying && autoPlay {
        var first := if |deltaTimes| == 0 then 0 else 1;
        ghost var s0 := Playback(animationTime, reverse, true);
        if 0 < |deltaTimes| {
          PlayFirstFrame(wrapMode, ease, s0, deltaTimes);
        }
        StartAnimation(ease, deltaTimes[..first]);
        var yielded := isRunning;
        isRunning := true;
        if pathDataAssigned && yielded {
          EaseTimeLoop(ease, deltaTimes[first..]);
        }
      }
    }

    /** HandlePlayPause, in play mode: pause a running animation, unpause a
        paused one, otherwise start, from 0 when the animation has ended. */
    method HandlePlayPause(isPlaying: bool, ease: real -> real, deltaTimes: seq<real>)
      modifies this
      ensures !isPlaying ==> (State() == old(State()) && events == old(events) &&
        pause == old(pause) && animGOUpdateEnabled == old(animGOUpdateEnabled))
      ensures isPlaying && old(isRunning) ==>
        State() == old(State()) && events == old(events) && pause == !old(pause) &&
        animGOUpdateEnabled == (old(pause) || old(animGOUpdateEnabled))
      ensures isPlaying && !old(isRunning) && !pathDataAssigned ==>
        State() == old(State()).(time := if old(animationTime) >= 1.0 then 0.0 else old(animationTime)) &&
        events == old(events) && pause == old(pause) && animGOUpdateEnabled == old(animGOUpdateEnabled)
      ensures isPlaying && !old(isRunning) && pathDataAssigned ==>
        var t0 := if old(animationTime) >= 1.0 then 0.0 else old(animationTime);
        var p := Play(wrapMode, ease, Playback(t0, old(reverse), true), deltaTimes);
        State() == p.state && !pause && animGOUpdateEnabled &&
        events == old(events) + (if t0 == 0.0 then [NodeReached(0, 0.0)] else []) + p.fired
      ensures prevAnimationTime == old(prevAnimationTime)
    {
      if !isPlaying {
        return;
      }
      if isRunning && !pause {
        SetPause(true);
      } else if isRunning && pause {
        SetPause(false);
      } else if !isRunning && animationTime >= 1.0 {
        animationTime := 0.0;
        StartAnimation(ease, deltaTimes);
      } else {
        StartAnimation(ease, deltaTimes);
      }
    }

    /** HandleFireNodeReachedEvent: one NodeReached, in index order, for
        every node time in (prevAnimationTime, AnimationTime]; then the
        current time becomes the previous one. */
    method HandleFireNodeReachedEvent(nodeTimestamps: seq<real>)
      modifies this
      ensures events == old(events) +
        ReachedEvents(Crossed(nodeTimestamps, old(prevAnimationTime), animationTime, |nodeTimestamps|), animationTime)
      ensures prevAnimationTime == animationTime
      ensures State() == old(State()) && pause == old(pause) && animGOUpdateEnabled == old(animGOUpdateEnabled)
    {
      for i := 0 to |nodeTimestamps|
        invariant events == old(events) +
          ReachedEvents(Crossed(nodeTimestamps, prevAnimationTime, animationTime, i), animationTime)
      {
        if prevAnimationTime < nodeTimestamps[i] && animationTime >= nodeTimestamps[i] {
          ReachedEventsAppend(Crossed(nodeTimestamps, prevAnimationTime, animationTime, i), i, animationTime);
          events := events + [NodeReached(i, animationTime)];
        }
      }
      prevAnimationTime := animationTime;
    }

    /** HandleUpdatingAnimGOInPlayMode: in play mode, while updating the
        animated object is enabled, the node notifications of this frame. */
    method HandleUpdatingAnimGOInPlayMode(isPlaying: bool, nodeTimestamps: seq<real>)
      modifies this
      ensures isPlaying && old(animGOUpdateEnabled) ==>
        events == old(events) +
          ReachedEvents(Crossed(nodeTimestamps, old(prevAnimationTime), animationTime, |nodeTimestamps|), animationTime) &&
        prevAnimationTime == animationTime
      ensures !(isPlaying && old(animGOUpdateEnabled)) ==>
        events == old(events) && prevAnimationTime == old(prevAnimationTime)
      ensures State() == old(State()) && pause == old(pause) && animGOUpdateEnabled == old(animGOUpdateEnabled)
    {
      if !isPlaying {
        return;
      }
      if !animGOUpdateEnabled {
        return;
      }
      HandleFireNodeReachedEvent(nodeTimestamps);
    }

    /** CalculateForwardPointPosition: the path position ForwardPointOffset
        ahead of the current time. */
    method CalculateForwardPointPosition(path: Path, forwardPointOffset: real) returns (localPosition: Vec3)
      ensures localPosition == path.ops.vectorAt(path.nodes, animationTime + forwardPointOffset)
    {
      var forwardPointTimestamp := animationTime + forwardPointOffset;
      localPosition := path.GetVectorAtTime(forwardPointTimestamp);
    }
  }
}
