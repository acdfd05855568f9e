/** The older PathData (namespace ATP.AnimationPathTools): the same four
    collections, but no node editing of its own. Callers edit the path and
    then call the public repair methods themselves; those add at most one
    missing key per call, and only RotationPointPositionChanged and
    NodeTiltChanged are raised, recorded in the ghost trace `events`. */
module LegacyPathData {
  import opened Timeline
  import opened Curves
  import opened Paths
  import opened Sync
  import opened Retiming
  import opened Edits
  import opened Handlers
  import opened PathDefaults

  datatype Event = RotationPointPositionChanged | NodeTiltChanged

  class PathData {
    const pathOps: PathOps
    const curveOps: CurveOps

    var animatedObjectPath: Path?
    var rotationPath: Path?
    var easeCurve: Curve?
    var tiltingCurve: Curve?

    ghost var events: seq<Event>

    /** All four collections exist, are well formed and are distinct. */
    ghost predicate Valid()
      reads this, animatedObjectPath, rotationPath, easeCurve, tiltingCurve
    {
      animatedObjectPath != null && rotationPath != null && easeCurve != null && tiltingCurve != null &&
      animatedObjectPath.Valid() && animatedObjectPath.ops == pathOps &&
      rotationPath.Valid() && rotationPath.ops == pathOps &&
      easeCurve.Valid() && easeCurve.ops == curveOps &&
      tiltingCurve.Valid() && tiltingCurve.ops == curveOps &&
      animatedObjectPath != rotationPath && easeCurve != tiltingCurve
    }

    /** The default state: two nodes on each path, two keys on each curve. */
    ghost predicate HasDefaults()
      reads this, animatedObjectPath, rotationPath, easeCurve, tiltingCurve
    {
      Valid() &&
      animatedObjectPath.nodes == [Timed(0.0, Vec3(0.0, 0.0, 0.0)), Timed(1.0, Vec3(1.0, 0.0, 1.0))] &&
      rotationPath.nodes == [Timed(0.0, Vec3(0.0, 0.0, 0.0)), Timed(1.0, Vec3(1.0, 0.0, 1.0))] &&
      easeCurve.keys == [MakeKey(0.0, 0.05), MakeKey(1.0, 0.05)] &&
      tiltingCurve.keys == [MakeKey(0.0, 0.0), MakeKey(1.0, 0.0)]
    }

    /** Every collection has the path's node times, pairwise at least Eps
        apart. */
    ghost predicate Synchronised()
      reads this, animatedObjectPath, rotationPath, easeCurve, tiltingCurve
    {
      Valid() &&
      Times(rotationPath.nodes) == Times(animatedObjectPath.nodes) &&
      Times(easeCurve.keys) == Times(animatedObjectPath.nodes) &&
      Times(tiltingCurve.keys) == Times(animatedObjectPath.nodes) &&
      Separated(Times(animatedObjectPath.nodes))
    }

    twostate predicate SameObjects()
      reads this
    {
      animatedObjectPath == old(animatedObjectPath) && rotationPath == old(rotationPath) &&
      easeCurve == old(easeCurve) && tiltingCurve == old(tiltingCurve)
    }

    // -------------------------------------------------------------------
    // Creation and defaults

    /** A new asset: no collections yet, then OnEnable. */
    constructor (pathOps: PathOps, curveOps: CurveOps)
      ensures HasDefaults() && Synchronised() && events == []
      ensures fresh(animatedObjectPath) && fresh(rotationPath) && fresh(easeCurve) && fresh(tiltingCurve)
    {
      this.pathOps := pathOps;
      this.curveOps := curveOps;
      animatedObjectPath := null;
      rotationPath := null;
      easeCurve := null;
      tiltingCurve := null;
      events := [];
      new;
      OnEnable();
    }

    /** OnEnable(): nothing when the path already exists (a loaded asset);
        otherwise new collections with the defaults. */
    method OnEnable()
      modifies this
      ensures events == old(events)
      ensures old(animatedObjectPath) != null ==>
        SameObjects() && unchanged(this)
      ensures old(animatedObjectPath) == null ==>
        HasDefaults() && Synchronised() &&
        fresh(animatedObjectPath) && fresh(rotationPath) && fresh(easeCurve) && fresh(tiltingCurve)
    {
      if animatedObjectPath != null {
        return;
      }
      InstantiateReferenceTypes();
      AssignDefaultValues();
      DefaultsHold();
    }

    /** Reset(): new collections with the defaults, whatever was there. */
    method Reset()
      modifies this
      ensures HasDefaults() && Synchronised() && events == old(events)
      ensures fresh(animatedObjectPath) && fresh(rotationPath) && fresh(easeCurve) && fresh(tiltingCurve)
    {
      InstantiateReferenceTypes();
      AssignDefaultValues();
      DefaultsHold();
    }

    lemma DefaultsHold()
      requires Valid()
      requires animatedObjectPath.nodes == WithDefaultNodes([]) && rotationPath.nodes == WithDefaultNodes([])
      requires easeCurve.keys == WithDefaultEaseKeys([]) && tiltingCurve.keys == WithDefaultTiltingKeys([])
      ensures HasDefaults() && Synchronised()
    {
      DefaultsOnEmpty();
      DefaultsSynchronised();
    }

    /** InstantiateReferenceTypes(): four new, empty collections. */
    method InstantiateReferenceTypes()
      modifies this
      ensures Valid() && events == old(events)
      ensures fresh(animatedObjectPath) && fresh(rotationPath) && fresh(easeCurve) && fresh(tiltingCurve)
      ensures animatedObjectPath.nodes == [] && rotationPath.nodes == []
      ensures easeCurve.keys == [] && tiltingCurve.keys == []
    {
      var path := NewAnimationPath();
      var rot := NewAnimationPath();
      var ease := new Curve(curveOps);
      var tilt := new Curve(curveOps);
      animatedObjectPath, rotationPath, easeCurve, tiltingCurve := path, rot, ease, tilt;
    }

    /** A new path with its curves instantiated and no nodes. */
    method NewAnimationPath() returns (path: Path)
      ensures fresh(path) && path.Valid() && path.ops == pathOps && path.nodes == []
    {
      path := new Path(pathOps);
      path.InstantiateAnimationPathCurves();
    }

    /** AssignDefaultValues(): the same defaults as the component version. */
    method AssignDefaultValues()
      requires Valid()
      modifies animatedObjectPath, rotationPath, easeCurve, tiltingCurve
      ensures Valid()
      ensures animatedObjectPath.nodes == WithDefaultNodes(old(animatedObjectPath.nodes))
      ensures rotationPath.nodes == WithDefaultNodes(old(rotationPath.nodes))
      ensures easeCurve.keys == WithDefaultEaseKeys(old(easeCurve.keys))
      ensures tiltingCurve.keys == WithDefaultTiltingKeys(old(tiltingCurve.keys))
    {
      animatedObjectPath.CreateNewNode(0.0, Vec3(0.0, 0.0, 0.0));
      animatedObjectPath.CreateNewNode(1.0, Vec3(1.0, 0.0, 1.0));
      rotationPath.CreateNewNode(0.0, Vec3(0.0, 0.0, 0.0));
      rotationPath.CreateNewNode(1.0, Vec3(1.0, 0.0, 1.0));
      var _ := easeCurve.AddKey(MakeKey(0.0, DefaultEaseCurveValue));
      var _ := easeCurve.AddKey(MakeKey(1.0, DefaultEaseCurveValue));
      var _ := tiltingCurve.AddKey(MakeKey(0.0, 0.0));
      var _ := tiltingCurve.AddKey(MakeKey(1.0, 0.0));
    }

    // -------------------------------------------------------------------
    // Key values

    /** UpdateEaseValues(delta): delta added to every ease value, one key at
        a time. */
    method UpdateEaseValues(delta: real)
      requires Valid()
      modifies easeCurve
      ensures Valid()
      ensures Shape(easeCurve.keys) == ShiftedShape(Shape(old(easeCurve.keys)), delta, |old(easeCurve.keys)|)
      ensures Times(easeCurve.keys) == Times(old(easeCurve.keys))
    {
      UpdateCurveValues(easeCurve, delta);
    }

    /** UpdateEaseValue(keyIndex, newValue). */
    method UpdateEaseValue(keyIndex: nat, newValue: real)
      requires Valid() && keyIndex < |easeCurve.keys|
      modifies easeCurve
      ensures Valid()
      ensures Shape(easeCurve.keys) == Shape(old(easeCurve.keys))[keyIndex := (old(easeCurve.keys)[keyIndex].time, newValue)]
      ensures Times(easeCurve.keys) == Times(old(easeCurve.keys))
    {
      UpdateKeyValue(easeCurve, keyIndex, newValue);
    }

    /** UpdateNodeTilting(keyIndex, newValue): the value changed, the curve
        smoothed, its extreme tangents zeroed, then NodeTiltChanged. */
    method UpdateNodeTilting(keyIndex: nat, newValue: real)
      requires Valid() && keyIndex < |tiltingCurve.keys|
      modifies this, tiltingCurve
      ensures Valid() && SameObjects() && events == old(events) + [NodeTiltChanged]
      ensures var keys := tiltingCurve.keys;
        Shape(keys) == Shape(old(tiltingCurve.keys))[keyIndex := (old(tiltingCurve.keys)[keyIndex].time, newValue)] &&
        keys[0].data.outTangent == 0.0 && keys[|keys| - 1].data.inTangent == 0.0
      ensures Times(tiltingCurve.keys) == Times(old(tiltingCurve.keys))
    {
      UpdateKeyValue(tiltingCurve, keyIndex, newValue);
      EaseCurveExtremeNodes(tiltingCurve);
      events := events + [NodeTiltChanged];
    }

    /** ChangeRotationAtTimestamp(timestamp, newPosition): as in the
        component version; the event only when a node was within Eps. */
    method ChangeRotationAtTimestamp(timestamp: real, newPosition: Vec3)
      requires Valid()
      modifies this, rotationPath
      ensures Valid() && SameObjects()
      ensures rotationPath.nodes == RotationChanged(old(rotationPath.nodes), timestamp, newPosition)
      ensures events == old(events) +
        if AnyWithin(Times(old(rotationPath.nodes)), timestamp) then [RotationPointPositionChanged] else []
    {
      var found := Edits.ChangeRotationAtTimestamp(rotationPath, timestamp, newPosition);
      if found {
        events := events + [RotationPointPositionChanged];
      }
    }

    /** GetRotationPointPositions(): the rotation node positions in order. */
    method GetRotationPointPositions() returns (rotationPointPositions: array<Vec3>)
      requires Valid()
      ensures fresh(rotationPointPositions) && rotationPointPositions[..] == Positions(rotationPath.nodes)
    {
      var rotationPointsNo := rotationPath.KeysNo();
      rotationPointPositions := new Vec3[rotationPointsNo];
      for i := 0 to rotationPointsNo
        invariant forall j :: 0 <= j < i ==> rotationPointPositions[j] == rotationPath.nodes[j].data
      {
        rotationPointPositions[i] := rotationPath.GetVectorAtKey(i);
      }
    }

    // -------------------------------------------------------------------
    // Repairs, called by the editor after it edits the path

    /** UpdateCurveWithAddedKeys(curve): at most one key added, at the first
        node time (in path order) with no key within Eps. */
    method UpdateCurveWithAddedKeys(curve: Curve)
      requires Valid() && curve.Valid()
      modifies curve
      ensures Valid() && curve.Valid()
      ensures curve.keys == CurveWithFirstMissingKey(curve.ops, Times(animatedObjectPath.nodes), old(curve.keys))
    {
      UpdateCurveWithFirstAddedKey(animatedObjectPath, curve);
    }

    /** UpdateCurveWithRemovedKeys(curve): at most one key removed, the
        first one no node time is within Eps of. */
    method UpdateCurveWithRemovedKeys(curve: Curve)
      requires Valid() && curve.Valid()
      modifies curve
      ensures Valid() && curve.Valid()
      ensures curve.keys == CurveWithRemovedKeys(curve.ops, Times(animatedObjectPath.nodes), old(curve.keys))
    {
      Handlers.UpdateCurveWithRemovedKeys(animatedObjectPath, curve);
    }

    /** UpdateRotationPathWithRemovedKeys(): at most one rotation node
        removed, the first one no node time is within Eps of. */
    method UpdateRotationPathWithRemovedKeys()
      requires Valid()
      modifies rotationPath
      ensures Valid()
      ensures rotationPath.nodes == RotationWithRemovedNodes(Times(animatedObjectPath.nodes), old(rotationPath.nodes))
    {
      Handlers.UpdateRotationPathWithRemovedKeys(animatedObjectPath, rotationPath);
    }

    /** UpdateCurveTimestamps(curve): interior key i moved to node i's time
        when |node i's time - key i's VALUE| > Eps. The source reads node
        i's time for every interior key i. */
    method UpdateCurveTimestamps(curve: Curve)
      requires Valid() && curve.Valid() && |curve.keys| <= |animatedObjectPath.nodes| + 1
      modifies curve
      ensures Valid() && curve.Valid()
      ensures curve.keys == CurveRetimed(ExceedsEps, curve.ops, Times(animatedObjectPath.nodes), old(curve.keys))
    {
      Handlers.UpdateCurveTimestamps(ExceedsEps, animatedObjectPath, curve);
    }
  }
}
