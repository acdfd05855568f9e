/** The component version of PathData: the asset that owns the animated
    object's path, the rotation path, the ease curve and the tilting curve,
    and that repairs the last three whenever nodes of the first are added,
    removed or retimed.

    Raising an event is a synchronous call of the handler PathData
    subscribes to it (NodeAdded, NodeRemoved, NodeTimeChanged; the
    NodePositionChanged and NodeTiltChanged handlers are empty); every raised
    event is also recorded in the ghost trace `events`, which stands for the
    subscribers outside PathData. */
module ComponentPathData {
  import opened Timeline
  import opened Curves
  import opened Paths
  import opened Loops
  import opened Sync
  import opened Retiming
  import opened Edits
  import opened Handlers
  import opened PathDefaults

  datatype Event =
    | NodeAdded
    | NodePositionChanged
    | NodeRemoved
    | NodeTiltChanged
    | NodeTimeChanged
    | PathReset
    | RotationPathReset
    | RotationPointPositionChanged

  /** The same event raised n times. */
  function Repeated(e: Event, n: nat): (r: seq<Event>)
    ensures |r| == n && forall i :: 0 <= i < n ==> r[i] == e
  {
    seq(n, _ => e)
  }

  // ---------------------------------------------------------------------
  // The synchronisation invariant across one node edit

  /** Four collections are synchronised when the rotation path and both
      curves have exactly the path's node times and those times are pairwise
      at least Eps apart. */
  predicate Mirrored(nodes: seq<Node>, rot: seq<Node>, ease: seq<Key>, tilt: seq<Key>) {
    Times(rot) == Times(nodes) && Times(ease) == Times(nodes) && Times(tilt) == Times(nodes) &&
    Separated(Times(nodes))
  }

  /** CreateNewNode / CreateNodeAtTime followed by the NodeAdded cascade:
      from synchronised collections, a node at least Eps away from every
      other node leaves them synchronised, one entry longer each. */
  lemma NodeAddedKeepsMirrored(pathOps: PathOps, curveOps: CurveOps, nodes: seq<Node>,
                               rot: seq<Node>, ease: seq<Key>, tilt: seq<Key>, e: Node)
    requires Sorted(nodes) && Mirrored(nodes, rot, ease, tilt)
    requires !AnyWithin(Times(nodes), e.time)
    ensures var nodes' := Insert(nodes, e); var nts := Times(nodes');
      |nodes'| == |nodes| + 1 &&
      Mirrored(nodes', RotationWithAddedNodes(pathOps, nts, rot),
        CurveWithAddedKeys(curveOps, nts, ease), CurveWithAddedKeys(curveOps, nts, tilt))
  {
    NotWithinNoTime(nodes, e.time);
    InsertFresh(nodes, e);
    SeparatedInsert(nodes, e);
    CascadeAddCurve(curveOps, nodes, ease, e);
    CascadeAddCurve(curveOps, nodes, tilt, e);
    CascadeAddRotation(pathOps, nodes, rot, e);
  }

  /** RemoveNode(i) followed by the NodeRemoved cascade: from synchronised
      collections, key i and rotation node i are the ones removed, and the
      collections are synchronised again, one entry shorter each. */
  lemma NodeRemovedKeepsMirrored(curveOps: CurveOps, nodes: seq<Node>,
                                 rot: seq<Node>, ease: seq<Key>, tilt: seq<Key>, i: nat)
    requires Mirrored(nodes, rot, ease, tilt) && i < |nodes|
    ensures var nodes' := RemoveAt(nodes, i); var nts := Times(nodes');
      |nodes'| == |nodes| - 1 &&
      RotationWithRemovedNodes(nts, rot) == RemoveAt(rot, i) &&
      CurveWithRemovedKeys(curveOps, nts, ease) == SmoothAll(curveOps, RemoveAt(ease, i)) &&
      CurveWithRemovedKeys(curveOps, nts, tilt) == SmoothAll(curveOps, RemoveAt(tilt, i)) &&
      Mirrored(nodes', RotationWithRemovedNodes(nts, rot),
        CurveWithRemovedKeys(curveOps, nts, ease), CurveWithRemovedKeys(curveOps, nts, tilt))
  {
    TimesRemoveAt(nodes, i);
    SeparatedRemove(nodes, i);
    CascadeRemoveCurve(curveOps, nodes, ease, i);
    CascadeRemoveCurve(curveOps, nodes, tilt, i);
    CascadeRemoveRotation(nodes, rot, i);
  }

  // ---------------------------------------------------------------------
  // Positions

  /** The first n nodes moved by delta; their times, and every later node,
      unchanged. */
  function Offset(nodes: seq<Node>, delta: Vec3, n: nat): (r: seq<Node>)
    ensures |r| == |nodes|
  {
    seq(|nodes|, j requires 0 <= j < |nodes| =>
      if j < n then Timed(nodes[j].time, nodes[j].data.Plus(delta)) else nodes[j])
  }

  /** Moving nodes never changes their times. */
  lemma OffsetTimes(nodes: seq<Node>, delta: Vec3, n: nat)
    ensures Times(Offset(nodes, delta, n)) == Times(nodes)
  {
    var r := Offset(nodes, delta, n);
    forall j | 0 <= j < |nodes| ensures r[j].time == nodes[j].time {
    }
  }

  /** Offsetting every node by delta and then by -delta gives the nodes
      back. */
  lemma OffsetInverse(nodes: seq<Node>, delta: Vec3)
    ensures Offset(Offset(nodes, delta, |nodes|), delta.Negated(), |nodes|) == nodes
  {
    var r := Offset(Offset(nodes, delta, |nodes|), delta.Negated(), |nodes|);
    forall j | 0 <= j < |nodes| ensures r[j] == nodes[j] {
      var p := nodes[j].data;
      assert r[j].data == p.Plus(delta).Plus(delta.Negated());
    }
  }

  /** The first nodes of rot given the positions ps, in order; times and
      the remaining nodes unchanged. */
  function Repositioned(rot: seq<Node>, ps: seq<Vec3>): (r: seq<Node>)
    ensures |r| == |rot|
  {
    seq(|rot|, j requires 0 <= j < |rot| => if j < |ps| then Timed(rot[j].time, ps[j]) else rot[j])
  }

  /** A rotation path with the path's node times, given the path's node
      positions, is a copy of the path. */
  lemma RepositionedCopies(rot: seq<Node>, nodes: seq<Node>)
    requires Times(rot) == Times(nodes)
    ensures Repositioned(rot, Positions(nodes)) == nodes
  {
    var r := Repositioned(rot, Positions(nodes));
    assert |rot| == |Times(rot)| == |nodes|;
    forall j | 0 <= j < |nodes| ensures r[j] == nodes[j] {
      assert Times(rot)[j] == Times(nodes)[j];
    }
  }

  // ---------------------------------------------------------------------
  // DistributeTimestamps' loop

  /** DistributeTimestamps' loop over the interior nodes, with the section
      lengths given: a running sum of section length times timeForMeter
      (1 / total length), applied to node i with ChangeNodeTimestamp; the
      loop breaks at the first sum above 1. */
  method DistributeNodeTimestamps(path: Path, sectionLengths: seq<real>, timeForMeter: real)
    requires path.Valid() && |path.nodes| <= |sectionLengths| + 1
    modifies path
    ensures path.Valid()
    ensures path.nodes == Iterate(DistStepper(sectionLengths, timeForMeter), old(path.nodes), LoopEnd(|old(path.nodes)|))
  {
    ghost var orig := path.nodes;
    var prevTimestamp := 0.0;
    var i := 1;
    while i < path.KeysNo() - 1
      invariant 1 <= i <= LoopEnd(|orig|) && path.Valid() && |path.nodes| == |orig|
      invariant path.nodes == Iterate(DistStepper(sectionLengths, timeForMeter), orig, i)
      invariant Reached(sectionLengths, timeForMeter, i - 1)
      invariant prevTimestamp == PrefixStamp(sectionLengths, timeForMeter, i - 1)
    {
      var newTimestamp, stop := DistributeNodeTimestamp(path, sectionLengths, timeForMeter, orig, i, prevTimestamp);
      prevTimestamp := newTimestamp;
      if stop {
        DistributeStops(orig, sectionLengths, timeForMeter, i, LoopEnd(|orig|));
        return;
      }
      i := i + 1;
    }
    assert i == LoopEnd(|orig|);
  }

  /** The body of DistributeTimestamps' loop at node i: the new running sum,
      and whether the loop breaks (the sum is above 1, the node is left as
      it is) or goes on (the node gets the sum as its time). */
  method DistributeNodeTimestamp(path: Path, sectionLengths: seq<real>, timeForMeter: real,
                                 ghost orig: seq<Node>, i: nat, prevTimestamp: real)
    returns (newTimestamp: real, stop: bool)
    requires path.Valid() && |orig| <= |sectionLengths| + 1 && 1 <= i < |orig| - 1
    requires path.nodes == Iterate(DistStepper(sectionLengths, timeForMeter), orig, i)
    requires Reached(sectionLengths, timeForMeter, i - 1)
    requires prevTimestamp == PrefixStamp(sectionLengths, timeForMeter, i - 1)
    modifies path
    ensures path.Valid() && newTimestamp == PrefixStamp(sectionLengths, timeForMeter, i)
    ensures stop <==> !Reached(sectionLengths, timeForMeter, i)
    ensures stop ==> path.nodes == old(path.nodes)
    ensures !stop ==> path.nodes == Iterate(DistStepper(sectionLengths, timeForMeter), orig, i + 1)
  {
    var sectionLength := sectionLengths[i - 1];
    var sectionTimeInterval := sectionLength * timeForMeter;
    newTimestamp := prevTimestamp + sectionTimeInterval;
    StampStep(sectionLengths, timeForMeter, i, prevTimestamp, sectionLength, sectionTimeInterval, newTimestamp);
    stop := newTimestamp > 1.0;
    if !stop {
      DistIterateStep(orig, sectionLengths, timeForMeter, i);
      path.ChangeNodeTimestamp(i, newTimestamp);
    }
  }

  /** ResetRotationPathValues' loop: rotation node i moved to positions[i]. */
  method MoveRotationPointsTo(rot: Path, positions: array<Vec3>)
    requires rot.Valid() && positions.Length <= |rot.nodes|
    modifies rot
    ensures rot.Valid()
    ensures rot.nodes == Repositioned(old(rot.nodes), positions[..])
  {
    ghost var orig := rot.nodes;
    for i := 0 to positions.Length
      invariant rot.Valid()
      invariant rot.nodes == Repositioned(orig, positions[..i])
    {
      rot.MovePointToPosition(i, positions[i]);
      assert positions[..i + 1] == positions[..i] + [positions[i]];
    }
    assert positions[..positions.Length] == positions[..];
  }

  /** OffsetRotationPathPosition's loop: the first n rotation nodes moved by
      moveDelta. */
  method OffsetPoints(rot: Path, moveDelta: Vec3, n: nat)
    requires rot.Valid() && n <= |rot.nodes|
    modifies rot
    ensures rot.Valid()
    ensures rot.nodes == Offset(old(rot.nodes), moveDelta, n)
  {
    ghost var orig := rot.nodes;
    for i := 0 to n
      invariant rot.Valid()
      invariant rot.nodes == Offset(orig, moveDelta, i)
    {
      var oldPosition := rot.GetVectorAtKey(i);
      var newPosition := oldPosition.Plus(moveDelta);
      rot.MovePointToPosition(i, newPosition);
    }
  }

  // ---------------------------------------------------------------------
  // The asset

  class PathData {
    /** Evaluation of every AnimationPath and AnimationCurve the asset creates. */
    const pathOps: PathOps
    const curveOps: CurveOps

    var animatedObjectPath: Path?
    var rotationPath: Path?
    var easeCurve: Curve?
    var tiltingCurve: Curve?

    ghost var events: seq<Event>

    /** The collections that exist are well formed and distinct. */
    ghost predicate Present()
      reads this, animatedObjectPath, rotationPath, easeCurve, tiltingCurve
    {
      (animatedObjectPath != null ==> animatedObjectPath.Valid() && animatedObjectPath.ops == pathOps) &&
      (rotationPath != null ==> rotationPath.Valid() && rotationPath.ops == pathOps) &&
      (easeCurve != null ==> easeCurve.Valid() && easeCurve.ops == curveOps) &&
      (tiltingCurve != null ==> tiltingCurve.Valid() && tiltingCurve.ops == curveOps) &&
      (animatedObjectPath == null || animatedObjectPath != rotationPath) &&
      (easeCurve == null || easeCurve != tiltingCurve)
    }

    /** All four collections exist. */
    ghost predicate Valid()
      reads this, animatedObjectPath, rotationPath, easeCurve, tiltingCurve
    {
      animatedObjectPath != null && rotationPath != null && easeCurve != null && tiltingCurve != null &&
      Present()
    }

    ghost predicate Synchronised()
      reads this, animatedObjectPath, rotationPath, easeCurve, tiltingCurve
    {
      Valid() && Mirrored(animatedObjectPath.nodes, rotationPath.nodes, easeCurve.keys, tiltingCurve.keys)
    }

    /** The state AssignDefaultValues gives empty collections. */
    ghost predicate HasDefaults()
      reads this, animatedObjectPath, rotationPath, easeCurve, tiltingCurve
    {
      Valid() &&
      animatedObjectPath.nodes == [Timed(0.0, Vec3(0.0, 0.0, 0.0)), Timed(1.0, Vec3(1.0, 0.0, 1.0))] &&
      rotationPath.nodes == [Timed(0.0, Vec3(0.0, 0.0, 0.0)), Timed(1.0, Vec3(1.0, 0.0, 1.0))] &&
      easeCurve.keys == [MakeKey(0.0, 0.05), MakeKey(1.0, 0.05)] &&
      tiltingCurve.keys == [MakeKey(0.0, 0.0), MakeKey(1.0, 0.0)]
    }

    twostate predicate SameObjects()
      reads this
    {
      animatedObjectPath == old(animatedObjectPath) && rotationPath == old(rotationPath) &&
      easeCurve == old(easeCurve) && tiltingCurve == old(tiltingCurve)
    }

    // -------------------------------------------------------------------
    // Creation and defaults

    /** A new asset: no collections yet, then OnEnable. */
    constructor (pathOps: PathOps, curveOps: CurveOps)
      ensures HasDefaults() && Synchronised() && events == []
      ensures fresh(animatedObjectPath) && fresh(rotationPath) && fresh(easeCurve) && fresh(tiltingCurve)
    {
      this.pathOps := pathOps;
      this.curveOps := curveOps;
      animatedObjectPath := null;
      rotationPath := null;
      easeCurve := null;
      tiltingCurve := null;
      events := [];
      new;
      OnEnable();
      DefaultsHold();
    }

    /** The defaults added to empty collections are the default state, and
        it is synchronised. */
    lemma DefaultsHold()
      requires Valid()
      requires animatedObjectPath.nodes == WithDefaultNodes([]) && rotationPath.nodes == WithDefaultNodes([])
      requires easeCurve.keys == WithDefaultEaseKeys([]) && tiltingCurve.keys == WithDefaultTiltingKeys([])
      ensures HasDefaults() && Synchronised()
    {
      DefaultsOnEmpty();
      DefaultsSynchronised();
    }

    /** OnEnable(): the missing collections created empty, then the default
        nodes and keys added to all four (refused where an entry already
        has that exact time). */
    method OnEnable()
      requires Present()
      modifies this, animatedObjectPath, rotationPath, easeCurve, tiltingCurve
      ensures Valid() && events == old(events)
      ensures old(animatedObjectPath) != null ==> animatedObjectPath == old(animatedObjectPath)
      ensures old(rotationPath) != null ==> rotationPath == old(rotationPath)
      ensures old(easeCurve) != null ==> easeCurve == old(easeCurve)
      ensures old(tiltingCurve) != null ==> tiltingCurve == old(tiltingCurve)
      ensures old(animatedObjectPath) == null ==> fresh(animatedObjectPath)
      ensures old(rotationPath) == null ==> fresh(rotationPath)
      ensures old(easeCurve) == null ==> fresh(easeCurve)
      ensures old(tiltingCurve) == null ==> fresh(tiltingCurve)
      ensures animatedObjectPath.nodes ==
        WithDefaultNodes(if old(animatedObjectPath) == null then [] else old(animatedObjectPath.nodes))
      ensures rotationPath.nodes ==
        WithDefaultNodes(if old(rotationPath) == null then [] else old(rotationPath.nodes))
      ensures easeCurve.keys ==
        WithDefaultEaseKeys(if old(easeCurve) == null then [] else old(easeCurve.keys))
      ensures tiltingCurve.keys ==
        WithDefaultTiltingKeys(if old(tiltingCurve) == null then [] else old(tiltingCurve.keys))
    {
      HandleInstantiateReferenceTypes();
      AssignDefaultValues();
    }

    /** HandleInstantiateReferenceTypes(): each missing collection created
        empty; existing ones kept as they are. */
    method HandleInstantiateReferenceTypes()
      requires Present()
      modifies this
      ensures Valid() && events == old(events)
      ensures old(animatedObjectPath) != null ==> animatedObjectPath == old(animatedObjectPath)
      ensures old(rotationPath) != null ==> rotationPath == old(rotationPath)
      ensures old(easeCurve) != null ==> easeCurve == old(easeCurve)
      ensures old(tiltingCurve) != null ==> tiltingCurve == old(tiltingCurve)
      ensures old(animatedObjectPath) == null ==> fresh(animatedObjectPath) && animatedObjectPath.nodes == []
      ensures old(rotationPath) == null ==> fresh(rotationPath) && rotationPath.nodes == []
      ensures old(easeCurve) == null ==> fresh(easeCurve) && easeCurve.keys == []
      ensures old(tiltingCurve) == null ==> fresh(tiltingCurve) && tiltingCurve.keys == []
    {
      var path := PathOrNew(animatedObjectPath);
      var rot := PathOrNew(rotationPath);
      var ease := CurveOrNew(easeCurve);
      var tilt := CurveOrNew(tiltingCurve);
      animatedObjectPath, rotationPath, easeCurve, tiltingCurve := path, rot, ease, tilt;
    }

    /** A missing path is created, with its curves instantiated and no
        nodes; an existing one is kept. */
    method PathOrNew(path: Path?) returns (r: Path)
      ensures path != null ==> r == path
      ensures path == null ==> fresh(r) && r.Valid() && r.ops == pathOps && r.nodes == []
    {
      if path == null {
        r := new Path(pathOps);
        r.InstantiateAnimationPathCurves();
      } else {
        r := path;
      }
    }

    /** A missing curve is created empty; an existing one is kept. */
    method CurveOrNew(curve: Curve?) returns (r: Curve)
      ensures curve != null ==> r == curve
      ensures curve == null ==> fresh(r) && r.Valid() && r.ops == curveOps && r.keys == []
    {
      if curve == null {
        r := new Curve(curveOps);
      } else {
        r := curve;
      }
    }

    /** AssignDefaultValues(): nodes (0, (0,0,0)) and (1, (1,0,1)) on both
        paths, keys (0, 0.05) and (1, 0.05) on the ease curve, keys (0, 0)
        and (1, 0) on the tilting curve, added directly (no event). */
    method AssignDefaultValues()
      requires Valid()
      modifies animatedObjectPath, rotationPath, easeCurve, tiltingCurve
      ensures Valid()
      ensures animatedObjectPath.nodes == WithDefaultNodes(old(animatedObjectPath.nodes))
      ensures rotationPath.nodes == WithDefaultNodes(old(rotationPath.nodes))
      ensures easeCurve.keys == WithDefaultEaseKeys(old(easeCurve.keys))
      ensures tiltingCurve.keys == WithDefaultTiltingKeys(old(tiltingCurve.keys))
    {
      animatedObjectPath.CreateNewNode(0.0, Vec3(0.0, 0.0, 0.0));
      animatedObjectPath.CreateNewNode(1.0, Vec3(1.0, 0.0, 1.0));
      rotationPath.CreateNewNode(0.0, Vec3(0.0, 0.0, 0.0));
      rotationPath.CreateNewNode(1.0, Vec3(1.0, 0.0, 1.0));
      var _ := easeCurve.AddKey(MakeKey(0.0, DefaultEaseCurveValue));
      var _ := easeCurve.AddKey(MakeKey(1.0, DefaultEaseCurveValue));
      var _ := tiltingCurve.AddKey(MakeKey(0.0, 0.0));
      var _ := tiltingCurve.AddKey(MakeKey(1.0, 0.0));
    }

    // -------------------------------------------------------------------
    // Adding and removing nodes

    /** OnNodeAdded(): NodeAdded raised; its handler PathData_NodeAdded
        brings both curves and the rotation path up to the path's nodes. */
    method OnNodeAdded()
      requires Valid()
      modifies this, rotationPath, easeCurve, tiltingCurve
      ensures Valid() && SameObjects() && events == old(events) + [NodeAdded]
      ensures easeCurve.keys == CurveWithAddedKeys(curveOps, Times(animatedObjectPath.nodes), old(easeCurve.keys))
      ensures tiltingCurve.keys == CurveWithAddedKeys(curveOps, Times(animatedObjectPath.nodes), old(tiltingCurve.keys))
      ensures rotationPath.nodes ==
        RotationWithAddedNodes(pathOps, Times(animatedObjectPath.nodes), old(rotationPath.nodes))
    {
      events := events + [NodeAdded];
      UpdateCurveWithAddedKeys(animatedObjectPath, easeCurve);
      UpdateCurveWithAddedKeys(animatedObjectPath, tiltingCurve);
      UpdateRotationPathWithAddedKeys(animatedObjectPath, rotationPath);
    }

    /** CreateNewNode(timestamp, position). */
    method CreateNewNode(timestamp: real, position: Vec3)
      requires Valid()
      modifies this, animatedObjectPath, rotationPath, easeCurve, tiltingCurve
      ensures Valid() && SameObjects() && events == old(events) + [NodeAdded]
      ensures animatedObjectPath.nodes == Insert(old(animatedObjectPath.nodes), Timed(timestamp, position))
      ensures easeCurve.keys == CurveWithAddedKeys(curveOps, Times(animatedObjectPath.nodes), old(easeCurve.keys))
      ensures tiltingCurve.keys == CurveWithAddedKeys(curveOps, Times(animatedObjectPath.nodes), old(tiltingCurve.keys))
      ensures rotationPath.nodes ==
        RotationWithAddedNodes(pathOps, Times(animatedObjectPath.nodes), old(rotationPath.nodes))
      ensures old(Synchronised()) && !AnyWithin(Times(old(animatedObjectPath.nodes)), timestamp) ==>
        Synchronised() && |animatedObjectPath.nodes| == |old(animatedObjectPath.nodes)| + 1
    {
      ghost var nodes, rot, ease, tilt := animatedObjectPath.nodes, rotationPath.nodes, easeCurve.keys, tiltingCurve.keys;
      animatedObjectPath.CreateNewNode(timestamp, position);
      OnNodeAdded();
      if Mirrored(nodes, rot, ease, tilt) && !AnyWithin(Times(nodes), timestamp) {
        NodeAddedKeepsMirrored(pathOps, curveOps, nodes, rot, ease, tilt, Timed(timestamp, position));
      }
    }

    /** CreateNodeAtTime(timestamp): a node where the path already runs at
        that time. */
    method CreateNodeAtTime(timestamp: real)
      requires Valid()
      modifies this, animatedObjectPath, rotationPath, easeCurve, tiltingCurve
      ensures Valid() && SameObjects() && events == old(events) + [NodeAdded]
      ensures animatedObjectPath.nodes ==
        Insert(old(animatedObjectPath.nodes), Timed(timestamp, pathOps.vectorAt(old(animatedObjectPath.nodes), timestamp)))
      ensures easeCurve.keys == CurveWithAddedKeys(curveOps, Times(animatedObjectPath.nodes), old(easeCurve.keys))
      ensures tiltingCurve.keys == CurveWithAddedKeys(curveOps, Times(animatedObjectPath.nodes), old(tiltingCurve.keys))
      ensures rotationPath.nodes ==
        RotationWithAddedNodes(pathOps, Times(animatedObjectPath.nodes), old(rotationPath.nodes))
      ensures old(Synchronised()) && !AnyWithin(Times(old(animatedObjectPath.nodes)), timestamp) ==>
        Synchronised() && |animatedObjectPath.nodes| == |old(animatedObjectPath.nodes)| + 1
    {
      ghost var nodes, rot, ease, tilt := animatedObjectPath.nodes, rotationPath.nodes, easeCurve.keys, tiltingCurve.keys;
      animatedObjectPath.AddNodeAtTime(timestamp);
      OnNodeAdded();
      if Mirrored(nodes, rot, ease, tilt) && !AnyWithin(Times(nodes), timestamp) {
        NodeAddedKeepsMirrored(pathOps, curveOps, nodes, rot, ease, tilt,
          Timed(timestamp, pathOps.vectorAt(nodes, timestamp)));
      }
    }

    /** OnNodeRemoved(): NodeRemoved raised; its handler PathData_NodeRemoved
        removes from both curves and the rotation path the first entry no
        node matches. */
    method OnNodeRemoved()
      requires Valid()
      modifies this, rotationPath, easeCurve, tiltingCurve
      ensures Valid() && SameObjects() && events == old(events) + [NodeRemoved]
      ensures easeCurve.keys == CurveWithRemovedKeys(curveOps, Times(animatedObjectPath.nodes), old(easeCurve.keys))
      ensures tiltingCurve.keys == CurveWithRemovedKeys(curveOps, Times(animatedObjectPath.nodes), old(tiltingCurve.keys))
      ensures rotationPath.nodes == RotationWithRemovedNodes(Times(animatedObjectPath.nodes), old(rotationPath.nodes))
    {
      events := events + [NodeRemoved];
      UpdateCurveWithRemovedKeys(animatedObjectPath, easeCurve);
      UpdateCurveWithRemovedKeys(animatedObjectPath, tiltingCurve);
      UpdateRotationPathWithRemovedKeys(animatedObjectPath, rotationPath);
    }

    /** RemoveNode(nodeIndex). An index past the last node is an error in
        the source. */
    method RemoveNode(nodeIndex: nat)
      requires Valid() && nodeIndex < |animatedObjectPath.nodes|
      modifies this, animatedObjectPath, rotationPath, easeCurve, tiltingCurve
      ensures Valid() && SameObjects() && events == old(events) + [NodeRemoved]
      ensures animatedObjectPath.nodes == RemoveAt(old(animatedObjectPath.nodes), nodeIndex)
      ensures easeCurve.keys == CurveWithRemovedKeys(curveOps, Times(animatedObjectPath.nodes), old(easeCurve.keys))
      ensures tiltingCurve.keys == CurveWithRemovedKeys(curveOps, Times(animatedObjectPath.nodes), old(tiltingCurve.keys))
      ensures rotationPath.nodes == RotationWithRemovedNodes(Times(animatedObjectPath.nodes), old(rotationPath.nodes))
      ensures old(Synchronised()) ==>
        Synchronised() && |animatedObjectPath.nodes| == |old(animatedObjectPath.nodes)| - 1 &&
        rotationPath.nodes == RemoveAt(old(rotationPath.nodes), nodeIndex)
    {
      ghost var nodes, rot, ease, tilt := animatedObjectPath.nodes, rotationPath.nodes, easeCurve.keys, tiltingCurve.keys;
      animatedObjectPath.RemoveNode(nodeIndex);
      OnNodeRemoved();
      if Mirrored(nodes, rot, ease, tilt) {
        NodeRemovedKeepsMirrored(curveOps, nodes, rot, ease, tilt, nodeIndex);
      }
    }

    /** RemoveAllNodes(): RemoveNode(0) as many times as there were nodes. */
    method RemoveAllNodes()
      requires Valid()
      modifies this, animatedObjectPath, rotationPath, easeCurve, tiltingCurve
      ensures Valid() && SameObjects()
      ensures animatedObjectPath.nodes == []
      ensures events == old(events) + Repeated(NodeRemoved, |old(animatedObjectPath.nodes)|)
      ensures old(Synchronised()) ==>
        Synchronised() && rotationPath.nodes == [] && easeCurve.keys == [] && tiltingCurve.keys == []
    {
      var nodesNo := animatedObjectPath.KeysNo();
      for i := 0 to nodesNo
        invariant Valid() && SameObjects()
        invariant |animatedObjectPath.nodes| == nodesNo - i
        invariant events == old(events) + Repeated(NodeRemoved, i)
        invariant old(Synchronised()) ==> Synchronised()
      {
        RemoveNode(0);
      }
    }

    // -------------------------------------------------------------------
    // Retiming

    /** DistributeTimestamps(), with the section lengths (section k joins
        nodes k and k + 1) and the path's total length given as inputs. The
        source divides by the total length without a check, and its
        NodeTimeChanged handler reads node i's time for every interior key
        i of each curve and of the rotation path. */
    method DistributeTimestamps(sectionLengths: seq<real>, pathLength: real)
      requires Valid() && pathLength != 0.0
      requires |animatedObjectPath.nodes| <= |sectionLengths| + 1
      requires |easeCurve.keys| <= |animatedObjectPath.nodes| + 1
      requires |tiltingCurve.keys| <= |animatedObjectPath.nodes| + 1
      requires |rotationPath.nodes| <= |animatedObjectPath.nodes| + 1
      modifies this, animatedObjectPath, rotationPath, easeCurve, tiltingCurve
      ensures Valid() && SameObjects() && events == old(events) + [NodeTimeChanged]
      ensures animatedObjectPath.nodes == Distributed(old(animatedObjectPath.nodes), sectionLengths, pathLength)
      ensures |animatedObjectPath.nodes| == |old(animatedObjectPath.nodes)|
      ensures easeCurve.keys ==
        CurveRetimed(NotFloatsEqual, curveOps, Times(animatedObjectPath.nodes), old(easeCurve.keys))
      ensures tiltingCurve.keys ==
        CurveRetimed(NotFloatsEqual, curveOps, Times(animatedObjectPath.nodes), old(tiltingCurve.keys))
      ensures rotationPath.nodes == RotationRetimed(Times(animatedObjectPath.nodes), old(rotationPath.nodes))
    {
      var timeForMeter := 1.0 / pathLength;
      DistributeNodeTimestamps(animatedObjectPath, sectionLengths, timeForMeter);
      DistStepsLength(old(animatedObjectPath.nodes), sectionLengths, timeForMeter, LoopEnd(|old(animatedObjectPath.nodes)|));
      OnNodeTimeChanged();
    }

    /** OnNodeTimeChanged(): NodeTimeChanged raised; its handler
        PathData_NodeTimeChanged retimes both curves and the rotation path. */
    method OnNodeTimeChanged()
      requires Valid()
      requires |easeCurve.keys| <= |animatedObjectPath.nodes| + 1
      requires |tiltingCurve.keys| <= |animatedObjectPath.nodes| + 1
      requires |rotationPath.nodes| <= |animatedObjectPath.nodes| + 1
      modifies this, rotationPath, easeCurve, tiltingCurve
      ensures Valid() && SameObjects() && events == old(events) + [NodeTimeChanged]
      ensures easeCurve.keys ==
        CurveRetimed(NotFloatsEqual, curveOps, Times(animatedObjectPath.nodes), old(easeCurve.keys))
      ensures tiltingCurve.keys ==
        CurveRetimed(NotFloatsEqual, curveOps, Times(animatedObjectPath.nodes), old(tiltingCurve.keys))
      ensures rotationPath.nodes == RotationRetimed(Times(animatedObjectPath.nodes), old(rotationPath.nodes))
    {
      events := events + [NodeTimeChanged];
      UpdateCurveTimestamps(NotFloatsEqual, animatedObjectPath, easeCurve);
      UpdateCurveTimestamps(NotFloatsEqual, animatedObjectPath, tiltingCurve);
      UpdateRotationPathTimestamps(animatedObjectPath, rotationPath);
    }

    // -------------------------------------------------------------------
    // Positions

    /** MoveNodeToPosition(nodeIndex, position): the node keeps its time. */
    method MoveNodeToPosition(nodeIndex: nat, position: Vec3)
      requires Valid() && nodeIndex < |animatedObjectPath.nodes|
      modifies this, animatedObjectPath
      ensures Valid() && SameObjects() && events == old(events) + [NodePositionChanged]
      ensures animatedObjectPath.nodes == SetData(old(animatedObjectPath.nodes), nodeIndex, position)
      ensures old(Synchronised()) ==> Synchronised()
    {
      animatedObjectPath.MovePointToPosition(nodeIndex, position);
      events := events + [NodePositionChanged];
    }

    /** OffsetNodePositions(moveDelta): every node moved by moveDelta, one
        NodePositionChanged per node. */
    method OffsetNodePositions(moveDelta: Vec3)
      requires Valid()
      modifies this, animatedObjectPath
      ensures Valid() && SameObjects()
      ensures animatedObjectPath.nodes == Offset(old(animatedObjectPath.nodes), moveDelta, |old(animatedObjectPath.nodes)|)
      ensures events == old(events) + Repeated(NodePositionChanged, |old(animatedObjectPath.nodes)|)
      ensures old(Synchronised()) ==> Synchronised()
    {
      ghost var orig := animatedObjectPath.nodes;
      for i := 0 to animatedObjectPath.KeysNo()
        invariant Valid() && SameObjects()
        invariant animatedObjectPath.nodes == Offset(orig, moveDelta, i)
        invariant events == old(events) + Repeated(NodePositionChanged, i)
      {
        var oldPosition := animatedObjectPath.GetVectorAtKey(i);
        var newPosition := oldPosition.Plus(moveDelta);
        animatedObjectPath.MovePointToPosition(i, newPosition);
        events := events + [NodePositionChanged];
      }
      OffsetTimes(orig, moveDelta, |orig|);
    }

    /** OffsetRotationPathPosition(moveDelta): the loop runs over the PATH's
        node count, so the rotation path needs at least that many nodes. */
    method OffsetRotationPathPosition(moveDelta: Vec3)
      requires Valid() && |animatedObjectPath.nodes| <= |rotationPath.nodes|
      modifies rotationPath
      ensures Valid()
      ensures rotationPath.nodes == Offset(old(rotationPath.nodes), moveDelta, |animatedObjectPath.nodes|)
      ensures old(Synchronised()) ==> Synchronised()
    {
      ghost var orig := rotationPath.nodes;
      OffsetPoints(rotationPath, moveDelta, animatedObjectPath.KeysNo());
      OffsetTimes(orig, moveDelta, |animatedObjectPath.nodes|);
    }

    /** GetNodePositions(nodesNo): the first nodesNo node positions, or all
        of them when nodesNo is negative (the default -1). More than the
        node count is an error in the source. */
    method GetNodePositions(nodesNo: int) returns (result: array<Vec3>)
      requires Valid() && nodesNo <= |animatedObjectPath.nodes|
      ensures fresh(result)
      ensures nodesNo >= 0 ==> result[..] == Positions(animatedObjectPath.nodes)[..nodesNo]
      ensures nodesNo < 0 ==> result[..] == Positions(animatedObjectPath.nodes)
    {
      var returnNodesNo := if nodesNo > -1 then nodesNo else animatedObjectPath.KeysNo();
      result := new Vec3[returnNodesNo];
      for i := 0 to returnNodesNo
        invariant forall j :: 0 <= j < i ==> result[j] == animatedObjectPath.nodes[j].data
      {
        result[i] := animatedObjectPath.GetVectorAtKey(i);
      }
    }

    // -------------------------------------------------------------------
    // Key values

    /** UpdateEaseCurveValues(delta): delta added to every ease value. */
    method UpdateEaseCurveValues(delta: real)
      requires Valid()
      modifies easeCurve
      ensures Valid()
      ensures Shape(easeCurve.keys) == ShiftedShape(Shape(old(easeCurve.keys)), delta, |old(easeCurve.keys)|)
      ensures old(Synchronised()) ==> Synchronised()
    {
      UpdateCurveValues(easeCurve, delta);
    }

    /** UpdateEaseValue(keyIndex, newValue). */
    method UpdateEaseValue(keyIndex: nat, newValue: real)
      requires Valid() && keyIndex < |easeCurve.keys|
      modifies easeCurve
      ensures Valid()
      ensures Shape(easeCurve.keys) == Shape(old(easeCurve.keys))[keyIndex := (old(easeCurve.keys)[keyIndex].time, newValue)]
      ensures old(Synchronised()) ==> Synchronised()
    {
      UpdateKeyValue(easeCurve, keyIndex, newValue);
    }

    /** UpdateTiltingCurveValues(delta): delta added to every tilting value,
        then NodeTiltChanged. */
    method UpdateTiltingCurveValues(delta: real)
      requires Valid()
      modifies this, tiltingCurve
      ensures Valid() && SameObjects() && events == old(events) + [NodeTiltChanged]
      ensures Shape(tiltingCurve.keys) == ShiftedShape(Shape(old(tiltingCurve.keys)), delta, |old(tiltingCurve.keys)|)
      ensures old(Synchronised()) ==> Synchronised()
    {
      UpdateCurveValues(tiltingCurve, delta);
      events := events + [NodeTiltChanged];
    }

    /** UpdateTiltingValue(keyIndex, newValue): the value changed, the curve
        smoothed, its extreme tangents zeroed, then NodeTiltChanged. */
    method UpdateTiltingValue(keyIndex: nat, newValue: real)
      requires Valid() && keyIndex < |tiltingCurve.keys|
      modifies this, tiltingCurve
      ensures Valid() && SameObjects() && events == old(events) + [NodeTiltChanged]
      ensures var keys := tiltingCurve.keys;
        Shape(keys) == Shape(old(tiltingCurve.keys))[keyIndex := (old(tiltingCurve.keys)[keyIndex].time, newValue)] &&
        keys[0].data.outTangent == 0.0 && keys[|keys| - 1].data.inTangent == 0.0
      ensures old(Synchronised()) ==> Synchronised()
    {
      UpdateKeyValue(tiltingCurve, keyIndex, newValue);
      EaseCurveExtremeNodes(tiltingCurve);
      events := events + [NodeTiltChanged];
    }

    /** ChangeRotationAtTimestamp(timestamp, newPosition):
        RotationPointPositionChanged is raised only when some rotation node
        was within Eps of timestamp. */
    method ChangeRotationAtTimestamp(timestamp: real, newPosition: Vec3)
      requires Valid()
      modifies this, rotationPath
      ensures Valid() && SameObjects()
      ensures rotationPath.nodes == RotationChanged(old(rotationPath.nodes), timestamp, newPosition)
      ensures events == old(events) +
        if AnyWithin(Times(old(rotationPath.nodes)), timestamp) then [RotationPointPositionChanged] else []
    {
      var found := Edits.ChangeRotationAtTimestamp(rotationPath, timestamp, newPosition);
      if found {
        events := events + [RotationPointPositionChanged];
      }
    }

    // -------------------------------------------------------------------
    // Resets

    /** ResetEaseCurve(): a new ease curve with a key at every node time. */
    method ResetEaseCurve()
      requires Valid()
      modifies this
      ensures Valid() && fresh(easeCurve) && events == old(events)
      ensures animatedObjectPath == old(animatedObjectPath) && rotationPath == old(rotationPath)
      ensures tiltingCurve == old(tiltingCurve)
      ensures easeCurve.keys == CurveWithAddedKeys(curveOps, Times(animatedObjectPath.nodes), [])
      ensures Times(easeCurve.keys) == Times(animatedObjectPath.nodes)
    {
      easeCurve := new Curve(curveOps);
      UpdateCurveWithAddedKeys(animatedObjectPath, easeCurve);
      CurveFromNodes(curveOps, animatedObjectPath.nodes);
    }

    /** ResetTiltingCurve(): a new tilting curve with a key at every node
        time. */
    method ResetTiltingCurve()
      requires Valid()
      modifies this
      ensures Valid() && fresh(tiltingCurve) && events == old(events)
      ensures animatedObjectPath == old(animatedObjectPath) && rotationPath == old(rotationPath)
      ensures easeCurve == old(easeCurve)
      ensures tiltingCurve.keys == CurveWithAddedKeys(curveOps, Times(animatedObjectPath.nodes), [])
      ensures Times(tiltingCurve.keys) == Times(animatedObjectPath.nodes)
    {
      tiltingCurve := new Curve(curveOps);
      UpdateCurveWithAddedKeys(animatedObjectPath, tiltingCurve);
      CurveFromNodes(curveOps, animatedObjectPath.nodes);
    }

    /** ForceInstantiatePathsAndCurves(): four new, empty collections. */
    method ForceInstantiatePathsAndCurves()
      modifies this
      ensures Valid() && events == old(events)
      ensures fresh(animatedObjectPath) && fresh(rotationPath) && fresh(easeCurve) && fresh(tiltingCurve)
      ensures animatedObjectPath.nodes == [] && rotationPath.nodes == []
      ensures easeCurve.keys == [] && tiltingCurve.keys == []
    {
      var path := PathOrNew(null);
      var rot := PathOrNew(null);
      var ease := CurveOrNew(null);
      var tilt := CurveOrNew(null);
      animatedObjectPath, rotationPath, easeCurve, tiltingCurve := path, rot, ease, tilt;
    }

    /** ResetPath(): four new collections with the default nodes and keys,
        then PathReset. */
    method ResetPath()
      modifies this
      ensures HasDefaults() && Synchronised() && events == old(events) + [PathReset]
      ensures fresh(animatedObjectPath) && fresh(rotationPath) && fresh(easeCurve) && fresh(tiltingCurve)
    {
      ForceInstantiatePathsAndCurves();
      AssignDefaultValues();
      events := events + [PathReset];
      DefaultsHold();
    }

    /** ResetRotationPathValues(): rotation node i moved to path node i's
        position, for every path node. */
    method ResetRotationPathValues()
      requires Valid() && |animatedObjectPath.nodes| <= |rotationPath.nodes|
      modifies rotationPath
      ensures Valid()
      ensures rotationPath.nodes == Repositioned(old(rotationPath.nodes), Positions(animatedObjectPath.nodes))
    {
      var animPathNodePositions := GetNodePositions(-1);
      MoveRotationPointsTo(rotationPath, animPathNodePositions);
    }

    /** ResetRotationPath(): the rotation path emptied, given a node at
        every path node time and then the path's positions: it ends up a
        copy of the path. */
    method ResetRotationPath()
      requires Valid()
      modifies this, rotationPath
      ensures Valid() && SameObjects() && events == old(events) + [RotationPathReset]
      ensures rotationPath.nodes == animatedObjectPath.nodes
      ensures old(Synchronised()) ==> Synchronised()
    {
      rotationPath.InstantiateAnimationPathCurves();
      UpdateRotationPathWithAddedKeys(animatedObjectPath, rotationPath);
      RotationFromNodes(pathOps, animatedObjectPath.nodes);
      ghost var rot := rotationPath.nodes;
      ResetRotationPathValues();
      RepositionedCopies(rot, animatedObjectPath.nodes);
      events := events + [RotationPathReset];
    }
  }
}
