/** PathData's repair passes as the loops the source runs over the curve
    and path objects, each proved to leave exactly the collection that the
    matching function of Sync or Retiming describes. Both PathData versions
    call these; the two versions differ only where a method here says so. */
module Handlers {
  import opened Timeline
  import opened Curves
  import opened Paths
  import opened Loops
  import opened Sync
  import opened Retiming
  import opened Edits

  /** GetPathTimestamps(): a fresh array of the node times, filled by index. */
  method GetPathTimestamps(path: Path) returns (result: array<real>)
    ensures fresh(result) && result[..] == Times(path.nodes)
  {
    result := new real[path.KeysNo()];
    for i := 0 to path.KeysNo()
      invariant forall j :: 0 <= j < i ==> result[j] == path.nodes[j].time
    {
      result[i] := path.GetTimeAtKey(i);
    }
  }

  /** A new array holding the key times, in order. */
  method GetCurveTimestamps(curve: Curve) returns (curveTimestamps: array<real>)
    ensures fresh(curveTimestamps) && curveTimestamps[..] == Times(curve.keys)
  {
    curveTimestamps := new real[curve.Length()];
    for i := 0 to curve.Length()
      invariant forall j :: 0 <= j < i ==> curveTimestamps[j] == curve.keys[j].time
    {
      curveTimestamps[i] := curve.keys[i].time;
    }
  }

  /** AddKeyToCurve(curve, t): a key at t with the value the curve has there. */
  method AddKeyToCurve(curve: Curve, timestamp: real)
    requires curve.Valid()
    modifies curve
    ensures curve.Valid()
    ensures curve.keys == Insert(old(curve.keys), MakeKey(timestamp, curve.ops.evaluate(old(curve.keys), timestamp)))
  {
    var value := curve.Evaluate(timestamp);
    var _ := curve.AddKey(MakeKey(timestamp, value));
  }

  // ---------------------------------------------------------------------
  // Added nodes

  /** UpdateCurveWithAddedKeys(curve), component version: for each node
      timestamp in path order, a key is added and the curve smoothed unless
      some key time taken before the loop is within Eps of it. */
  method UpdateCurveWithAddedKeys(path: Path, curve: Curve)
    requires curve.Valid()
    modifies curve
    ensures curve.Valid()
    ensures curve.keys == CurveWithAddedKeys(curve.ops, Times(path.nodes), old(curve.keys))
  {
    var nodeTimestamps := GetPathTimestamps(path);
    var curveTimestamps := GetCurveTimestamps(curve);
    AddKeysIfMissing(curve, nodeTimestamps, curveTimestamps);
  }

  /** UpdateCurveWithAddedKeys' loop over the node timestamps. */
  method AddKeysIfMissing(curve: Curve, nodeTimestamps: array<real>, curveTimestamps: array<real>)
    requires curve.Valid()
    modifies curve
    ensures curve.Valid()
    ensures curve.keys == AddMissingKeys(curve.ops, nodeTimestamps[..], curveTimestamps[..], old(curve.keys), nodeTimestamps.Length)
  {
    ghost var orig := curve.keys;
    for j := 0 to nodeTimestamps.Length
      invariant curve.Valid()
      invariant curve.keys == AddMissingKeys(curve.ops, nodeTimestamps[..], curveTimestamps[..], orig, j)
    {
      AddKeyIfMissing(curve, curveTimestamps, nodeTimestamps[j]);
    }
  }

  /** The body of UpdateCurveWithAddedKeys' loop for one node timestamp. */
  method AddKeyIfMissing(curve: Curve, curveTimestamps: array<real>, nodeTimestamp: real)
    requires curve.Valid()
    modifies curve
    ensures curve.Valid()
    ensures curve.keys == MissingKeyStep(curve.ops, curveTimestamps[..], old(curve.keys), nodeTimestamp)
  {
    var valueExists := AnyWithin(curveTimestamps[..], nodeTimestamp);
    if valueExists {
      return;
    }
    AddKeyToCurve(curve, nodeTimestamp);
    SmoothCurve(curve);
  }

  /** UpdateCurveWithAddedKeys(curve), older version: the loop breaks after
      the first key it adds. */
  method UpdateCurveWithFirstAddedKey(path: Path, curve: Curve)
    requires curve.Valid()
    modifies curve
    ensures curve.Valid()
    ensures curve.keys == CurveWithFirstMissingKey(curve.ops, Times(path.nodes), old(curve.keys))
  {
    var nodeTimestamps := GetPathTimestamps(path);
    var curveTimestamps := GetCurveTimestamps(curve);
    AddFirstKeyIfMissing(curve, nodeTimestamps, curveTimestamps);
  }

  /** The older version's loop: add, smooth and break at the first node
      timestamp no key time is within Eps of. */
  method AddFirstKeyIfMissing(curve: Curve, nodeTimestamps: array<real>, curveTimestamps: array<real>)
    requires curve.Valid() && curveTimestamps[..] == Times(curve.keys)
    modifies curve
    ensures curve.Valid()
    ensures curve.keys == CurveWithFirstMissingKey(curve.ops, nodeTimestamps[..], old(curve.keys))
  {
    ghost var added := false;
    for j := 0 to nodeTimestamps.Length
      invariant curve.Valid() && curve.keys == old(curve.keys) && !added
      invariant forall k :: 0 <= k < j ==> AnyWithin(curveTimestamps[..], nodeTimestamps[k])
    {
      var nodeTimestamp := nodeTimestamps[j];
      var valueExists := AnyWithin(curveTimestamps[..], nodeTimestamp);
      if valueExists {
        continue;
      }
      FirstUnmatchedAt(nodeTimestamps[..], curveTimestamps[..], j);
      AddKeyToCurve(curve, nodeTimestamp);
      SmoothCurve(curve);
      added := true;
      break;
    }
    if !added {
      FirstUnmatchedAt(nodeTimestamps[..], curveTimestamps[..], nodeTimestamps.Length);
    }
  }

  /** UpdateRotationPathWithAddedKeys(): for each node timestamp that no
      rotation time taken before the loop is within Eps of,
      CreateRotationPoint. */
  method UpdateRotationPathWithAddedKeys(path: Path, rot: Path)
    requires rot.Valid() && path != rot
    modifies rot
    ensures rot.Valid()
    ensures rot.nodes == RotationWithAddedNodes(rot.ops, Times(path.nodes), old(rot.nodes))
  {
    var pathTimestamps := GetPathTimestamps(path);
    var rotationPathTimestamps := rot.GetTimestamps();
    AddRotationPointsIfMissing(rot, pathTimestamps, rotationPathTimestamps);
  }

  /** UpdateRotationPathWithAddedKeys' loop over the node timestamps. */
  method AddRotationPointsIfMissing(rot: Path, pathTimestamps: array<real>, rotationPathTimestamps: array<real>)
    requires rot.Valid()
    modifies rot
    ensures rot.Valid()
    ensures rot.nodes == AddMissingNodes(rot.ops, pathTimestamps[..], rotationPathTimestamps[..], old(rot.nodes), pathTimestamps.Length)
  {
    ghost var orig := rot.nodes;
    for j := 0 to pathTimestamps.Length
      invariant rot.Valid()
      invariant rot.nodes == AddMissingNodes(rot.ops, pathTimestamps[..], rotationPathTimestamps[..], orig, j)
    {
      AddRotationPointIfMissing(rot, rotationPathTimestamps, pathTimestamps[j]);
    }
  }

  /** The body of UpdateRotationPathWithAddedKeys' loop for one node
      timestamp. */
  method AddRotationPointIfMissing(rot: Path, rotationPathTimestamps: array<real>, pathTimestamp: real)
    requires rot.Valid()
    modifies rot
    ensures rot.Valid()
    ensures rot.nodes == if AnyWithin(rotationPathTimestamps[..], pathTimestamp) then old(rot.nodes)
      else CreateRotationPoint(rot.ops, old(rot.nodes), pathTimestamp)
  {
    var keyExists := AnyWithin(rotationPathTimestamps[..], pathTimestamp);
    if !keyExists {
      CreateRotationPointAt(rot, pathTimestamp);
    }
  }

  /** CreateRotationPoint(nodeTimestamp): a rotation node at that time,
      placed where the rotation path runs at that time. */
  method CreateRotationPointAt(rot: Path, nodeTimestamp: real)
    requires rot.Valid()
    modifies rot
    ensures rot.Valid()
    ensures rot.nodes == CreateRotationPoint(rot.ops, old(rot.nodes), nodeTimestamp)
  {
    var rotationValue := rot.GetVectorAtTime(nodeTimestamp);
    rot.CreateNewNode(nodeTimestamp, rotationValue);
  }

  // ---------------------------------------------------------------------
  // Removed nodes

  /** UpdateCurveWithRemovedKeys(curve), both versions: the first key whose
      time no node timestamp is within Eps of is removed, then the loop
      breaks. */
  method UpdateCurveWithRemovedKeys(path: Path, curve: Curve)
    requires curve.Valid()
    modifies curve
    ensures curve.Valid()
    ensures curve.keys == CurveWithRemovedKeys(curve.ops, Times(path.nodes), old(curve.keys))
  {
    var nodeTimestamps := GetPathTimestamps(path);
    var curveTimestamps := GetCurveTimestamps(curve);
    RemoveFirstUnmatchedKey(curve, nodeTimestamps, curveTimestamps);
  }

  /** UpdateCurveWithRemovedKeys' loop over the key times. */
  method RemoveFirstUnmatchedKey(curve: Curve, nodeTimestamps: array<real>, curveTimestamps: array<real>)
    requires curve.Valid() && curveTimestamps[..] == Times(curve.keys)
    modifies curve
    ensures curve.Valid()
    ensures curve.keys == CurveWithRemovedKeys(curve.ops, nodeTimestamps[..], old(curve.keys))
  {
    ghost var removed := false;
    for i := 0 to curveTimestamps.Length
      invariant curve.Valid() && curve.keys == old(curve.keys) && !removed
      invariant forall k :: 0 <= k < i ==> AnyWithin(nodeTimestamps[..], curveTimestamps[k])
    {
      var keyExists := AnyWithin(nodeTimestamps[..], curveTimestamps[i]);
      if keyExists {
        continue;
      }
      FirstUnmatchedAt(curveTimestamps[..], nodeTimestamps[..], i);
      curve.RemoveKey(i);
      SmoothCurve(curve);
      removed := true;
      break;
    }
    if !removed {
      FirstUnmatchedAt(curveTimestamps[..], nodeTimestamps[..], curveTimestamps.Length);
    }
  }

  /** UpdateRotationPathWithRemovedKeys(), both versions: the first rotation
      node whose time no node timestamp is within Eps of is removed. */
  method UpdateRotationPathWithRemovedKeys(path: Path, rot: Path)
    requires rot.Valid() && path != rot
    modifies rot
    ensures rot.Valid()
    ensures rot.nodes == RotationWithRemovedNodes(Times(path.nodes), old(rot.nodes))
  {
    var pathTimestamps := GetPathTimestamps(path);
    var rotationCurvesTimestamps := rot.GetTimestamps();
    RemoveFirstUnmatchedNode(rot, pathTimestamps, rotationCurvesTimestamps);
  }

  /** UpdateRotationPathWithRemovedKeys' loop over the rotation times. */
  method RemoveFirstUnmatchedNode(rot: Path, pathTimestamps: array<real>, rotationCurvesTimestamps: array<real>)
    requires rot.Valid() && rotationCurvesTimestamps[..] == Times(rot.nodes)
    modifies rot
    ensures rot.Valid()
    ensures rot.nodes == RotationWithRemovedNodes(pathTimestamps[..], old(rot.nodes))
  {
    ghost var removed := false;
    for i := 0 to rotationCurvesTimestamps.Length
      invariant rot.Valid() && rot.nodes == old(rot.nodes) && !removed
      invariant forall k :: 0 <= k < i ==> AnyWithin(pathTimestamps[..], rotationCurvesTimestamps[k])
    {
      var keyExists := AnyWithin(pathTimestamps[..], rotationCurvesTimestamps[i]);
      if keyExists {
        continue;
      }
      FirstUnmatchedAt(rotationCurvesTimestamps[..], pathTimestamps[..], i);
      rot.RemoveNode(i);
      removed := true;
      break;
    }
    if !removed {
      FirstUnmatchedAt(rotationCurvesTimestamps[..], pathTimestamps[..], rotationCurvesTimestamps.Length);
    }
  }

  // ---------------------------------------------------------------------
  // Retimed nodes

  /** UpdateCurveTimestamps(curve): interior key i whose VALUE differs from
      node i's time (by the version's test) is moved to that time, and the
      curve smoothed. A curve with more than one key beyond the node count
      would read past the end of the node timestamps: the source fails
      there. */
  method UpdateCurveTimestamps(test: MismatchTest, path: Path, curve: Curve)
    requires curve.Valid() && |curve.keys| <= |path.nodes| + 1
    modifies curve
    ensures curve.Valid()
    ensures curve.keys == CurveRetimed(test, curve.ops, Times(path.nodes), old(curve.keys))
  {
    var pathNodeTimestamps := GetPathTimestamps(path);
    RetimeKeys(test, curve, pathNodeTimestamps);
  }

  /** UpdateCurveTimestamps' loop over the interior keys. */
  method RetimeKeys(test: MismatchTest, curve: Curve, pathNodeTimestamps: array<real>)
    requires curve.Valid() && |curve.keys| <= pathNodeTimestamps.Length + 1
    modifies curve
    ensures curve.Valid()
    ensures curve.keys == CurveRetimed(test, curve.ops, old(pathNodeTimestamps[..]), old(curve.keys))
  {
    ghost var orig := curve.keys;
    ghost var pathTs := pathNodeTimestamps[..];
    ghost var step := KeyStepper(test, curve.ops, pathTs);
    var i := 1;
    while i < curve.Length() - 1
      invariant curve.Valid() && 1 <= i <= LoopEnd(|orig|)
      invariant curve.keys == Iterate(step, orig, i)
      invariant |curve.keys| == |orig|
    {
      RetimeKey(test, curve, pathNodeTimestamps, pathTs, orig, i);
      i := i + 1;
    }
    assert i == LoopEnd(|orig|);
  }

  /** The body of UpdateCurveTimestamps' loop for key i: MoveKey to node i's
      time and SmoothCurve when the key's value fails the test; iteration i
      of the loop that began with the keys orig. */
  method RetimeKey(test: MismatchTest, curve: Curve, pathNodeTimestamps: array<real>,
                   ghost pathTs: seq<real>, ghost orig: seq<Key>, i: nat)
    requires 1 <= i < |orig| && i < pathNodeTimestamps.Length && i < |pathTs| && pathNodeTimestamps[i] == pathTs[i]
    requires curve.Valid() && curve.keys == Iterate(KeyStepper(test, curve.ops, pathTs), orig, i)
    modifies curve
    ensures curve.Valid()
    ensures curve.keys == Iterate(KeyStepper(test, curve.ops, pathTs), orig, i + 1)
  {
    KeyIterateStep(test, curve.ops, pathTs, orig, i);
    if Mismatch(test, pathNodeTimestamps[i], curve.keys[i].data.value) {
      curve.MoveKey(i, pathNodeTimestamps[i]);
      SmoothCurve(curve);
    }
  }

  /** UpdateRotationPathTimestamps(): interior rotation node i whose time
      (taken before the loop) is not FloatsEqual to node i's time is moved to
      node i's time. */
  method UpdateRotationPathTimestamps(path: Path, rot: Path)
    requires rot.Valid() && path != rot && |rot.nodes| <= |path.nodes| + 1
    modifies rot
    ensures rot.Valid()
    ensures rot.nodes == RotationRetimed(Times(path.nodes), old(rot.nodes))
  {
    var nodeTimestamps := GetPathTimestamps(path);
    var rotationCurvesTimestamps := rot.GetTimestamps();
    RetimeRotationPoints(rot, nodeTimestamps, rotationCurvesTimestamps);
  }

  /** UpdateRotationPathTimestamps' loop over the interior rotation nodes. */
  method RetimeRotationPoints(rot: Path, nodeTimestamps: array<real>, rotationCurvesTimestamps: array<real>)
    requires rot.Valid() && |rot.nodes| <= nodeTimestamps.Length + 1
    requires rotationCurvesTimestamps[..] == Times(rot.nodes)
    modifies rot
    ensures rot.Valid()
    ensures rot.nodes == RotationRetimed(old(nodeTimestamps[..]), old(rot.nodes))
  {
    ghost var orig := rot.nodes;
    ghost var nodeTs, rotTs := nodeTimestamps[..], rotationCurvesTimestamps[..];
    ghost var step := NodeStepper(nodeTs, rotTs);
    var i := 1;
    while i < rot.KeysNo() - 1
      invariant rot.Valid() && 1 <= i <= LoopEnd(|orig|)
      invariant rot.nodes == Iterate(step, orig, i)
      invariant |rot.nodes| == |orig|
    {
      RetimeRotationPoint(rot, nodeTimestamps, rotationCurvesTimestamps, nodeTs, rotTs, orig, i);
      i := i + 1;
    }
    assert i == LoopEnd(|orig|);
  }

  /** The body of UpdateRotationPathTimestamps' loop for rotation node i;
      iteration i of the loop that began with the nodes orig. */
  method RetimeRotationPoint(rot: Path, nodeTimestamps: array<real>, rotationCurvesTimestamps: array<real>,
                             ghost nodeTs: seq<real>, ghost rotTs: seq<real>, ghost orig: seq<Node>, i: nat)
    requires 1 <= i < |orig| && i < nodeTimestamps.Length && i < rotationCurvesTimestamps.Length
    requires i < |nodeTs| && i < |rotTs| && nodeTimestamps[i] == nodeTs[i] && rotationCurvesTimestamps[i] == rotTs[i]
    requires rot.Valid() && rot.nodes == Iterate(NodeStepper(nodeTs, rotTs), orig, i)
    modifies rot
    ensures rot.Valid()
    ensures rot.nodes == Iterate(NodeStepper(nodeTs, rotTs), orig, i + 1)
  {
    NodeIterateStep(nodeTs, rotTs, orig, i);
    if !FloatsEqual(nodeTimestamps[i], rotationCurvesTimestamps[i]) {
      rot.ChangeNodeTimestamp(i, nodeTimestamps[i]);
    }
  }
}
