# AnimationPathAnimator: path-data synchronisation and playback rules

This project models three parts of the AnimationPathAnimator Unity package.

- **PathData, the synchronisation engine.** The component version lives in `APAnimatorComponent/PathData.cs`, and an older version in the root `PathData.cs`.
  - A path asset owns four collections: the animated-object path, the rotation path, the ease curve and the tilting curve.
  - Node times are kept in ascending order.
  - When nodes of the animated-object path are added, removed or retimed, handlers repair the other three collections so that their timestamps mirror the path's.
  - Both versions are classes whose methods change the collections in place, and whose handler loops are loops with invariants.
  - The component version adds every missing key in one call. The older version adds at most one key per call.
    - module `ComponentPathData`: the component version;
    - module `LegacyPathData`: the older version;
    - module `Handlers`: the repair handlers shared by both;
    - module `Edits`: value edits, tangent smoothing and rotation edits;
    - module `Sync`: pure specification functions of the handlers, with their properties;
    - module `Retiming`: the retiming loops written as folds;
    - module `PathDefaults`: the default contents;
    - module `Loops`: the generic loop fold.
- **APAnimator playback** (`APAnimatorComponent/APAnimator.cs`, module `APAnimatorPlayback`).
  - A class holds the playback fields:
    - `animationTime`, `reverse`, `isRunning`, `pause`, `prevAnimationTime` and `animGOUpdateEnabled`.
  - Its methods model:
    - the per-frame handlers;
    - the `EaseTime` coroutine, run as a loop over the frames' delta times;
    - the play, pause and stop transitions;
    - the node-reached notifications.
  - These methods are proved against pure functions:
    - `Tick` for one frame;
    - `Play` for a whole run;
    - `Crossed` for the nodes passed in a frame.
  - The properties of those functions are proved as lemmas.
- **Legacy AnimationPathAnimator time rules** (`AnimationPathAnimator.cs`, module `LegacyAnimator`).
  - The inspector-value limits.
  - The start time.
  - The duration-based ease loop, proved against `EaseSteps`.
  - The default curves and the rotation-target choice.

## Assumptions about the external types

Unity's `AnimationCurve` and the repository's `AnimationPath` are not part of this model. They are modelled by the classes `Curves.Curve` and `Paths.Path`, using the following assumptions:

- The entries are a sequence sorted by time, with every time different (module `Timeline`).
- `AddKey` on curves, and `CreateNewNode` / `AddNodeAtTime` on paths:
  - refused, leaving the sequence unchanged, when an entry already has exactly that time (`AddKey` then returns -1);
  - otherwise the entry goes before the first later entry.
- `RemoveKey(i)` deletes entry i.
- `MoveKey(i, key)` on curves, and `ChangeNodeTimestamp(i, t)` on paths: the entry is taken out and put back with the new time, unless another entry already has exactly that time. In that case nothing changes.
- `MovePointToPosition(i, position)` on paths replaces node i's position and keeps every time.
- Unity's `AddKey(time, value)` overload, which the defaults and the added-keys repair call, is modelled as adding a key with zero tangents (`Curves.MakeKey`). Unity computes smooth tangents there instead; every repair smooths the curve afterwards, and no stated property depends on the inserted tangents.
- `Evaluate` and `GetVectorAtTime` are uninterpreted functions, held in `CurveOps` and `PathOps`. Every property holds for all of them.
- `SmoothTangents(i, w)` gives key i equal in- and out-tangents, chosen by an uninterpreted function, and changes nothing else.
- Path node tangents are not modelled, so smoothing a path changes nothing in the model.
- `Utilities.FloatsEqual(a, b, FloatPrecision)` is `|a - b| < 0.001` (`Timeline.FloatsEqual`, `Timeline.Eps`).
- Floats are mathematical reals.

## Model

| member | source | states |
|---|---|---|
| Curves.Curve.AddKey | APAnimatorComponent/PathData.cs:480-486 | the key is inserted in time order, or refused with -1 when a key already has that exact time; the index returned holds the new key and the curve stays sorted |
| Curves.Curve.RemoveKey | APAnimatorComponent/PathData.cs:617-642 | removing key i keeps the curve sorted and deletes exactly that key |
| Curves.Curve.MoveKey | APAnimatorComponent/PathData.cs:550-572 | moving a key to a new time keeps the curve sorted with the same number of keys |
| Curves.SmoothAllShape | APAnimatorComponent/PathData.cs:540-544 | smoothing every key's tangents leaves every (time, value) pair as it was and keeps the curve sorted |
| Curves.SmoothPrefixShape | PathData.cs:148-152 | after smoothing the first n keys, every key keeps its time and value, and keys from n on are untouched |
| Paths.Path.CreateNewNode | APAnimatorComponent/PathData.cs:279-283 | the node is inserted in time order unless a node has that exact time; the path stays sorted |
| Paths.Path.AddNodeAtTime | APAnimatorComponent/PathData.cs:285-289 | the new node sits where the path ran at that time before the insertion |
| Paths.Path.ChangeNodeTimestamp | APAnimatorComponent/PathData.cs:291-329 | retiming a node keeps the path sorted with the same number of nodes |
| Paths.Path.MovePointToPosition | APAnimatorComponent/PathData.cs:331-338 | a node moved in space keeps its time; every node time is unchanged |
| Paths.Path.GetTimestamps | APAnimatorComponent/PathData.cs:790-801 | a fresh array holding the node times in order |
| Timeline.InsertSorted | APAnimatorComponent/PathData.cs:480-486 | inserting keeps entries sorted; with a new time the multiset grows by exactly the new entry, with an existing time nothing changes |
| Timeline.MoveKeepsEnds | APAnimatorComponent/PathData.cs:550-572 | moving an interior entry to a time between the first and last entries never displaces either end |
| Timeline.RetargetStep | APAnimatorComponent/PathData.cs:644-666 | when no new time overtakes a neighbour, moving entry i of a partly retimed sequence retimes it in place and keeps the sequence sorted |
| PathDefaults.DefaultsOnEmpty | APAnimatorComponent/PathData.cs:201-225 | on empty collections the defaults are exactly the nodes (0,(0,0,0)) and (1,(1,0,1)), ease keys (0,0.05),(1,0.05) and tilting keys (0,0),(1,0) |
| PathDefaults.DefaultsSynchronised | APAnimatorComponent/PathData.cs:177-182 | the default collections all have timestamps [0, 1], sorted and at least Eps apart |
| PathDefaults.DefaultsAgain | PathData.cs:238-270 | adding the defaults a second time changes nothing, because every default time already exists |
| Handlers.GetPathTimestamps | APAnimatorComponent/PathData.cs:790-801 | a fresh array of the path's node times, in order |
| Handlers.GetCurveTimestamps | APAnimatorComponent/PathData.cs:596-599 | a fresh array of the curve's key times, in order |
| Handlers.AddKeyToCurve | APAnimatorComponent/PathData.cs:480-486 | a key at the timestamp whose value is the curve's evaluation there before the insertion; the curve stays sorted |
| Handlers.UpdateCurveWithAddedKeys | APAnimatorComponent/PathData.cs:593-615 | the loop over every node timestamp yields exactly `CurveWithAddedKeys`: one smoothed new key for each node time no pre-loop key time was within Eps of |
| Handlers.AddKeysIfMissing | APAnimatorComponent/PathData.cs:602-614 | the foreach loop equals n steps of the per-timestamp fold `AddMissingKeys` |
| Handlers.AddKeyIfMissing | APAnimatorComponent/PathData.cs:603-613 | one iteration: a key is added only when no snapshot key time is within Eps of the node time |
| Handlers.UpdateCurveWithFirstAddedKey | PathData.cs:329-350 | the older loop adds, smooths and stops at the first node time, in path order, that no key is within Eps of (`CurveWithFirstMissingKey`) |
| Handlers.AddFirstKeyIfMissing | PathData.cs:338-349 | the loop with its `break` equals `CurveWithFirstMissingKey` over the node-time array |
| Handlers.UpdateRotationPathWithAddedKeys | APAnimatorComponent/PathData.cs:668-688 | one rotation node for every node time that no pre-loop rotation time was within Eps of (`RotationWithAddedNodes`); sorted kept |
| Handlers.AddRotationPointsIfMissing | APAnimatorComponent/PathData.cs:675-687 | the loop equals the fold `AddMissingNodes` over the node times |
| Handlers.AddRotationPointIfMissing | APAnimatorComponent/PathData.cs:677-686 | one iteration: nothing when a snapshot rotation time is within Eps, otherwise `CreateRotationPoint` |
| Handlers.CreateRotationPointAt | APAnimatorComponent/PathData.cs:492-501 | a rotation node at the timestamp, placed where the rotation path runs at that time |
| Handlers.UpdateCurveWithRemovedKeys | APAnimatorComponent/PathData.cs:617-642 | the loop with its `break` equals `CurveWithRemovedKeys`: only the lowest-index key with no node time within Eps is removed, then the curve smoothed |
| Handlers.RemoveFirstUnmatchedKey | PathData.cs:374-396 | the older version's loop gives the same single removal |
| Handlers.UpdateRotationPathWithRemovedKeys | APAnimatorComponent/PathData.cs:690-713 | only the first rotation node with no node time within Eps is removed (`RotationWithRemovedNodes`) |
| Handlers.RemoveFirstUnmatchedNode | PathData.cs:125-146 | the older version's loop gives the same single removal |
| Handlers.UpdateCurveTimestamps | APAnimatorComponent/PathData.cs:550-572 | the loop over interior keys equals `CurveRetimed`; it needs a node time for every interior key index, which the source reads unchecked |
| Handlers.RetimeKeys | PathData.cs:352-372 | the older loop (test `> Eps`) equals `CurveRetimed` with that test |
| Handlers.RetimeKey | APAnimatorComponent/PathData.cs:555-570 | iteration i extends the fold by one `KeyStep` |
| Handlers.UpdateRotationPathTimestamps | APAnimatorComponent/PathData.cs:644-666 | the loop over interior rotation nodes equals `RotationRetimed` |
| Handlers.RetimeRotationPoints | APAnimatorComponent/PathData.cs:652-665 | the loop equals the fold of `NodeStep` over the interior indices |
| Handlers.RetimeRotationPoint | APAnimatorComponent/PathData.cs:653-664 | iteration i extends the fold by one `NodeStep` |
| Sync.FirstUnmatched | APAnimatorComponent/PathData.cs:626-641 | the index of the first timestamp with no partner within Eps: all earlier ones are matched and that one is not |
| Sync.AddKeyStepProps | APAnimatorComponent/PathData.cs:480-486 | one add-and-smooth keeps sortedness and every existing (time, value), adds a key at t whose value is the pre-insertion evaluation, and changes nothing else |
| Sync.AddMissingKeysKeeps | APAnimatorComponent/PathData.cs:602-614 | after n iterations every old key survives, sortedness is kept, every new key sits at one of the first n node times, and at most n keys were added |
| Sync.AddMissingKeysCover | APAnimatorComponent/PathData.cs:602-614 | after n iterations each of the first n node times has a key within Eps, and no key time is lost |
| Sync.CurveWithAddedKeysProps | APAnimatorComponent/PathData.cs:593-615 | afterwards every node time has a key within Eps; pre-existing keys keep time and value; new keys sit at node times; sorted kept; at most one key per node added |
| Sync.AddedKeyValue | APAnimatorComponent/PathData.cs:480-486 | an inserted key's value is the curve's evaluation at that time just before the insertion |
| Sync.CurveWithFirstMissingKey | PathData.cs:329-350 | at most one key is added, and none at all when every node time already has a key within Eps |
| Sync.FirstMissingKeyAdded | PathData.cs:338-349 | when node time i is the first unmatched one, exactly one key is added, at that time, with the curve's evaluation there; all old keys are kept |
| Sync.CurveWithRemovedKeysProps | APAnimatorComponent/PathData.cs:617-642 | the curve is unchanged exactly when every key has a node within Eps; otherwise exactly the lowest-index unmatched key is removed, and every other key keeps its time and value |
| Sync.RotationWithRemovedNodesProps | APAnimatorComponent/PathData.cs:690-713 | the rotation path is unchanged exactly when every node is matched; otherwise exactly the first unmatched node is removed |
| Sync.AddMissingNodesKeeps | APAnimatorComponent/PathData.cs:675-687 | after n iterations every old rotation node is kept, sorted is kept, and new nodes sit at the first n node times |
| Sync.AddMissingNodesCover | APAnimatorComponent/PathData.cs:675-687 | after n iterations each of the first n node times has a rotation node within Eps |
| Sync.RotationWithAddedNodesProps | APAnimatorComponent/PathData.cs:668-688 | every node time has a rotation node within Eps; existing rotation nodes are untouched; new ones sit at node times |
| Sync.RotationPointPosition | APAnimatorComponent/PathData.cs:492-501 | a new rotation node is placed where the rotation path ran at that time before the insertion, and nothing is lost |
| Sync.AddMissingOnly | APAnimatorComponent/PathData.cs:602-614 | when exactly one node time is unmatched, the loop adds exactly that one key |
| Sync.AddMissingNodesOnly | APAnimatorComponent/PathData.cs:675-687 | when exactly one node time is unmatched, the loop adds exactly that one rotation node |
| Sync.CurveFromNodes | APAnimatorComponent/PathData.cs:380-383 | an empty curve updated with the added keys has exactly the nodes' times |
| Sync.RotationFromNodes | APAnimatorComponent/PathData.cs:392-399 | an emptied rotation path updated with the added nodes has exactly the nodes' times |
| Sync.InsertedTimestamps | APAnimatorComponent/PathData.cs:279-283 | inserting a node at least Eps from every other adds just its time; every other new time is an old one |
| Sync.CascadeAddCurve | APAnimatorComponent/PathData.cs:149-153 | when a curve mirrors the path's times, the NodeAdded repair of a new node (at least Eps from all) makes it mirror them again |
| Sync.CascadeAddCurveFirstMissing | PathData.cs:329-350 | the single-key repair also restores the mirror after one new node |
| Sync.CascadeAddRotation | APAnimatorComponent/PathData.cs:149-153 | the same for the rotation path |
| Sync.RemovedTimestamps | APAnimatorComponent/PathData.cs:158-162 | with node times at least Eps apart, the only old time without a remaining partner is the removed node's |
| Sync.CascadeRemoveCurve | APAnimatorComponent/PathData.cs:158-162 | when a curve mirrors the path, the NodeRemoved repair removes exactly key i (then smooths), so it mirrors the path again |
| Sync.CascadeRemoveRotation | APAnimatorComponent/PathData.cs:158-162 | the NodeRemoved repair removes exactly rotation node i |
| Sync.SeparatedInsert | APAnimatorComponent/PathData.cs:279-283 | inserting a time at least Eps from all others keeps all times pairwise Eps apart |
| Sync.SeparatedRemove | APAnimatorComponent/PathData.cs:374-378 | removing a node keeps the times pairwise Eps apart |
| Sync.NearNodeNotMirrored | APAnimatorComponent/PathData.cs:593-615 | a node added closer than Eps to an existing one (0.0005 beside 0) gets no key: the curve is then one key short of the path |
| Edits.SmoothCurve | APAnimatorComponent/PathData.cs:540-544 | the loop smooths every key in index order; times and values are unchanged |
| Edits.ReplacedInPlace | APAnimatorComponent/PathData.cs:444-455 | removing key i and adding a key with the same time is an in-place update at index i |
| Edits.ReplacedShape | PathData.cs:112-123 | replacing then smoothing changes only key i's (time, value) entry |
| Edits.ShiftedShapeInverse | PathData.cs:90-106 | raising every value by delta and then by -delta gives the original (time, value) pairs back |
| Edits.UpdateCurveValues | APAnimatorComponent/PathData.cs:574-587 | every key's value is raised by delta, and key count and times are unchanged |
| Edits.UpdateKeyValue | APAnimatorComponent/PathData.cs:444-455 | only key keyIndex's value changes, to newValue; every time and every other key's value is kept |
| Edits.ExtremesEased | APAnimatorComponent/PathData.cs:503-516 | the first key's out-tangent and the last key's in-tangent become 0; other tangents, every time and every value are kept |
| Edits.EaseCurveExtremeNodes | PathData.cs:222-235 | the method's new keys are `ExtremesEased` of the old ones |
| Edits.DropStable | APAnimatorComponent/PathData.cs:239-277 | once the index reaches the node count, further iterations of the removal loop change nothing |
| Edits.DropNone | APAnimatorComponent/PathData.cs:239-277 | with no snapshot time within Eps of the target, nothing is removed |
| Edits.DropWitness | APAnimatorComponent/PathData.cs:239-277 | a removal happens only when some snapshot time is within Eps of the target |
| Edits.DropFoundIff | PathData.cs:185-217 | the found flag is set exactly when some rotation node's time is within Eps of the target |
| Edits.DropSorted | APAnimatorComponent/PathData.cs:239-277 | removing nodes keeps the rotation path sorted |
| Edits.DropAfterUnique | APAnimatorComponent/PathData.cs:239-277 | when one node j matches, it is the one removed and later iterations remove nothing |
| Edits.RotationUnchanged | APAnimatorComponent/PathData.cs:239-277 | with no rotation time within Eps of the target, the rotation path is unchanged |
| Edits.RotationChangedUnique | APAnimatorComponent/PathData.cs:239-277 | with exactly one match, that node is replaced by (timestamp, newPosition); the count and order are kept |
| Edits.RotationChangedSorted | PathData.cs:185-217 | the result is always sorted |
| Edits.ChangeRotationAtTimestamp | APAnimatorComponent/PathData.cs:239-277 | found is true exactly when some rotation time is within Eps; the new rotation path is `RotationChanged` |
| Retiming.MismatchTests | PathData.cs:352-372 | the older test (difference > Eps) implies the newer one (not FloatsEqual); they differ only at a distance of exactly Eps |
| Retiming.CurveRetimedInPlace | APAnimatorComponent/PathData.cs:550-572 | ends kept; an interior key i whose value fails the test against node time i moves to that time at the same index; every key keeps its value (no key may overtake another) |
| Retiming.CurveRetimedKeepsEnds | PathData.cs:352-372 | with the node times between the end keys, the first and last keys keep their time and value and the curve stays sorted |
| Retiming.ValueComparedNotTime | APAnimatorComponent/PathData.cs:557-560 | the test compares the key's value, not its time: a key at 0.3 with value 0.5 and node time 0.5 is not retimed |
| Retiming.RotationRetimedInPlace | APAnimatorComponent/PathData.cs:644-666 | interior rotation node i gets node i's time when it is not within Eps of it; ends and positions are kept; afterwards every interior node is within Eps of its node (no node may overtake another) |
| Retiming.RotationRetimedKeepsEnds | APAnimatorComponent/PathData.cs:644-666 | the first and last rotation nodes are never retimed, and the path stays sorted |
| Retiming.NotReachedLater | APAnimatorComponent/PathData.cs:314-322 | once a prefix stamp exceeds 1, no later node is reached |
| Retiming.DistributeStops | APAnimatorComponent/PathData.cs:314-322 | after the first stamp above 1 the loop changes nothing more |
| Retiming.DistributedInPlace | APAnimatorComponent/PathData.cs:291-329 | interior node i that the loop reaches gets the sum of section lengths 1..i over the total length; ends, positions and the nodes from the first stamp above 1 on keep their values (no node may overtake another) |
| Retiming.DistributedKeepsEnds | APAnimatorComponent/PathData.cs:291-329 | with non-negative lengths and the end nodes at or beyond 0 and 1, the first and last nodes never change and the path stays sorted |
| Retiming.PrefixStampNonNegative | APAnimatorComponent/PathData.cs:311-318 | with non-negative lengths the running sum is never negative |
| Loops.IterateInvariant | APAnimatorComponent/PathData.cs:554-571 | a property kept by every interior iteration holds after the loop (used by all retiming loops) |
| ComponentPathData.Repeated | APAnimatorComponent/PathData.cs:340-352 | the same event n times, in a sequence of length n |
| ComponentPathData.NodeAddedKeepsMirrored | APAnimatorComponent/PathData.cs:149-153 | when all four collections have the path's times (pairwise Eps apart), adding a node at least Eps from every other leaves them synchronised, one entry longer each |
| ComponentPathData.NodeRemovedKeepsMirrored | APAnimatorComponent/PathData.cs:158-162 | under the same invariant, removing node i removes exactly entry i of each collection (curves smoothed), so they stay synchronised |
| ComponentPathData.OffsetTimes | APAnimatorComponent/PathData.cs:340-352 | moving nodes never changes their times |
| ComponentPathData.OffsetInverse | APAnimatorComponent/PathData.cs:340-352 | offsetting every node by delta and then by -delta gives the nodes back |
| ComponentPathData.RepositionedCopies | APAnimatorComponent/PathData.cs:532-538 | a rotation path with the path's times, given the path's positions, is a copy of the path |
| ComponentPathData.DistributeNodeTimestamps | APAnimatorComponent/PathData.cs:291-329 | the loop with its `prevTimestamp` accumulator equals the fold of `DistStep` up to the loop end |
| ComponentPathData.DistributeNodeTimestamp | APAnimatorComponent/PathData.cs:304-325 | one iteration computes the next prefix stamp, and stops (changing nothing) exactly when that stamp is above 1 |
| ComponentPathData.MoveRotationPointsTo | APAnimatorComponent/PathData.cs:532-538 | rotation node i moves to position i; times and the remaining nodes are kept |
| ComponentPathData.OffsetPoints | APAnimatorComponent/PathData.cs:354-364 | the first n rotation nodes are moved by the delta; times and later nodes are kept |
| ComponentPathData.PathData.constructor | APAnimatorComponent/PathData.cs:94-99 | a new asset holds the default state, synchronised, in four fresh collections |
| ComponentPathData.PathData.DefaultsHold | APAnimatorComponent/PathData.cs:177-182 | the defaults added to empty collections are the default state, and they are synchronised |
| ComponentPathData.PathData.OnEnable | APAnimatorComponent/PathData.cs:94-99 | missing collections are created fresh; existing ones are kept; the defaults are added to each (refused where the times exist) |
| ComponentPathData.PathData.HandleInstantiateReferenceTypes | APAnimatorComponent/PathData.cs:184-199 | each missing collection is created empty; existing ones are kept as they are |
| ComponentPathData.PathData.AssignDefaultValues | APAnimatorComponent/PathData.cs:177-182 | each collection gets its two default entries, added with its own add operation |
| ComponentPathData.PathData.OnNodeAdded | APAnimatorComponent/PathData.cs:105-108 | NodeAdded raised; both curves and the rotation path get the added-keys repair against the path's times |
| ComponentPathData.PathData.CreateNewNode | APAnimatorComponent/PathData.cs:279-283 | the node is inserted, the cascade runs and NodeAdded is recorded; a synchronised asset with a new time at least Eps from all stays synchronised and grows by one node |
| ComponentPathData.PathData.CreateNodeAtTime | APAnimatorComponent/PathData.cs:285-289 | as CreateNewNode, with the node placed where the path already runs at that time |
| ComponentPathData.PathData.OnNodeRemoved | APAnimatorComponent/PathData.cs:115-118 | NodeRemoved raised; both curves and the rotation path get the removed-keys repair |
| ComponentPathData.PathData.RemoveNode | APAnimatorComponent/PathData.cs:374-378 | node i is removed and the cascade runs; a synchronised asset stays synchronised, one node shorter, with rotation node i removed |
| ComponentPathData.PathData.RemoveAllNodes | APAnimatorComponent/PathData.cs:366-372 | the path is emptied with one NodeRemoved per old node; a synchronised asset ends with all four collections empty |
| ComponentPathData.PathData.DistributeTimestamps | APAnimatorComponent/PathData.cs:291-329 | the nodes become `Distributed`, NodeTimeChanged fires whatever happened, and both curves and the rotation path are retimed to the new times |
| ComponentPathData.PathData.OnNodeTimeChanged | APAnimatorComponent/PathData.cs:167-171 | NodeTimeChanged raised; both curves and the rotation path retimed against the path's times |
| ComponentPathData.PathData.MoveNodeToPosition | APAnimatorComponent/PathData.cs:331-338 | the node moves, keeping its time; NodePositionChanged fires; synchronisation is kept |
| ComponentPathData.PathData.OffsetNodePositions | APAnimatorComponent/PathData.cs:340-352 | every node moves by the delta with one NodePositionChanged per node; times and synchronisation kept |
| ComponentPathData.PathData.OffsetRotationPathPosition | APAnimatorComponent/PathData.cs:354-364 | the first (path node count) rotation nodes move by the delta; synchronisation kept |
| ComponentPathData.PathData.GetNodePositions | APAnimatorComponent/PathData.cs:767-780 | the first nodesNo node positions, or all of them when nodesNo is negative, in a fresh array |
| ComponentPathData.PathData.UpdateEaseCurveValues | APAnimatorComponent/PathData.cs:440-442 | every ease value is raised by delta; synchronisation kept |
| ComponentPathData.PathData.UpdateEaseValue | APAnimatorComponent/PathData.cs:444-455 | only ease key keyIndex's value changes; synchronisation kept |
| ComponentPathData.PathData.UpdateTiltingCurveValues | APAnimatorComponent/PathData.cs:457-461 | every tilting value is raised by delta, then NodeTiltChanged; synchronisation kept |
| ComponentPathData.PathData.UpdateTiltingValue | APAnimatorComponent/PathData.cs:463-478 | only tilting key keyIndex's value changes, the extreme tangents become 0, NodeTiltChanged fires; synchronisation kept |
| ComponentPathData.PathData.ChangeRotationAtTimestamp | APAnimatorComponent/PathData.cs:239-277 | the rotation path becomes `RotationChanged`; RotationPointPositionChanged fires exactly when a rotation time was within Eps |
| ComponentPathData.PathData.ResetEaseCurve | APAnimatorComponent/PathData.cs:380-383 | a fresh ease curve with exactly one key per node time; the other collections are the same objects |
| ComponentPathData.PathData.ResetTiltingCurve | APAnimatorComponent/PathData.cs:401-404 | a fresh tilting curve with exactly one key per node time |
| ComponentPathData.PathData.ForceInstantiatePathsAndCurves | APAnimatorComponent/PathData.cs:518-527 | four fresh, empty collections |
| ComponentPathData.PathData.ResetPath | APAnimatorComponent/PathData.cs:385-390 | four fresh collections in the default state, synchronised, then PathReset |
| ComponentPathData.PathData.ResetRotationPathValues | APAnimatorComponent/PathData.cs:532-538 | rotation node i moves to path node i's position, for every path node |
| ComponentPathData.PathData.ResetRotationPath | APAnimatorComponent/PathData.cs:392-399 | the rotation path becomes a copy of the path and RotationPathReset fires; synchronisation kept |
| LegacyPathData.PathData.constructor | PathData.cs:66-72 | a new asset holds the default state, synchronised, in four fresh collections |
| LegacyPathData.PathData.OnEnable | PathData.cs:66-72 | nothing changes when the path already exists; otherwise four fresh collections in the default state |
| LegacyPathData.PathData.Reset | PathData.cs:180-183 | four fresh collections in the default state, whatever was there |
| LegacyPathData.PathData.DefaultsHold | PathData.cs:238-243 | the defaults on empty collections are the default state, synchronised |
| LegacyPathData.PathData.InstantiateReferenceTypes | PathData.cs:278-285 | four fresh, empty collections |
| LegacyPathData.PathData.NewAnimationPath | PathData.cs:272-276 | a fresh, empty path |
| LegacyPathData.PathData.AssignDefaultValues | PathData.cs:238-270 | the default entries added to each collection with its own add operation |
| LegacyPathData.PathData.UpdateEaseValues | PathData.cs:90-106 | every ease value raised by delta; key count and times unchanged |
| LegacyPathData.PathData.UpdateEaseValue | PathData.cs:112-123 | only ease key keyIndex's value changes; times kept |
| LegacyPathData.PathData.UpdateNodeTilting | PathData.cs:287-300 | only tilting key keyIndex's value changes, the extreme tangents become 0, NodeTiltChanged fires; times kept |
| LegacyPathData.PathData.ChangeRotationAtTimestamp | PathData.cs:185-217 | the rotation path becomes `RotationChanged`; the event fires exactly when a rotation time was within Eps |
| LegacyPathData.PathData.GetRotationPointPositions | PathData.cs:310-323 | the rotation node positions in order, in a fresh array |
| LegacyPathData.PathData.UpdateCurveWithAddedKeys | PathData.cs:329-350 | at most one key added, at the first node time in path order with no key within Eps (`CurveWithFirstMissingKey`) |
| LegacyPathData.PathData.UpdateCurveWithRemovedKeys | PathData.cs:374-396 | at most one key removed, the first that no node time is within Eps of |
| LegacyPathData.PathData.UpdateRotationPathWithRemovedKeys | PathData.cs:125-146 | at most one rotation node removed, the first with no node time within Eps |
| LegacyPathData.PathData.UpdateCurveTimestamps | PathData.cs:352-372 | the curve becomes `CurveRetimed` with the `> Eps` test over the node times |
| APAnimatorPlayback.ClampWrap | APAnimatorComponent/APAnimator.cs:685-692 | in Clamp mode a time past 1 becomes 1 and running stops; otherwise nothing changes |
| APAnimatorPlayback.LoopWrap | APAnimatorComponent/APAnimator.cs:729-735 | in Loop mode a time past 1 becomes 0; otherwise nothing changes |
| APAnimatorPlayback.PingPongWrap | APAnimatorComponent/APAnimator.cs:740-752 | in PingPong mode a time past 1 sets reverse, one below 0 clears it; the time is never changed |
| APAnimatorPlayback.Tick | APAnimatorComponent/APAnimator.cs:652-666 | one unpaused frame per wrap mode: the time moves by ease(t)·dt (backward when reversed), then Clamp, Loop and PingPong act as stated |
| APAnimatorPlayback.PlayFrom | APAnimatorComponent/APAnimator.cs:625-646 | a run from frame i is one tick and then, if still running, the run from frame i+1 |
| APAnimatorPlayback.ForwardPlayStaysInRange | APAnimatorComponent/APAnimator.cs:625-666 | in Clamp and Loop mode, going forward from [0,1] with non-negative ease and delta times, the time stays in [0,1] and never reverses |
| APAnimatorPlayback.OnlyClampStops | APAnimatorComponent/APAnimator.cs:729-752 | in Loop and PingPong mode a running animation is still running after any number of frames |
| APAnimatorPlayback.ClampStopsAtEnd | APAnimatorComponent/APAnimator.cs:685-692 | in Clamp mode a stopped run has time exactly 1 |
| APAnimatorPlayback.PingPongTurnsBack | APAnimatorComponent/APAnimator.cs:740-752 | in PingPong mode, after a frame past either end, a positive step moves the time back toward [0,1] |
| APAnimatorPlayback.CrossedMembers | APAnimatorComponent/APAnimator.cs:697-716 | exactly the indices whose timestamp is in (prev, now] are reported, each once, in ascending order |
| APAnimatorPlayback.CrossedEmpty | APAnimatorComponent/APAnimator.cs:697-716 | when no timestamp is in (prev, now], nothing is reported |
| APAnimatorPlayback.NoneWhenNotAdvancing | APAnimatorComponent/APAnimator.cs:697-716 | a time that did not increase reports no node |
| APAnimatorPlayback.CrossedSplit | APAnimatorComponent/APAnimator.cs:697-716 | over ascending timestamps, the nodes crossed from prev to now are those crossed to a middle time and then from it: how frames divide the time does not matter |
| APAnimatorPlayback.ReachedEvents | APAnimatorComponent/APAnimator.cs:707-710 | one NodeReached per crossed index, with the current time |
| APAnimatorPlayback.NearestForward | APAnimatorComponent/APAnimator.cs:941-953 | the first timestamp after time, or 1.0 when there is none; so the result is after time or is 1 |
| APAnimatorPlayback.NearestBackward | APAnimatorComponent/APAnimator.cs:959-971 | the last timestamp before time, or 0 when there is none; so the result is before time or is 0 |
| APAnimatorPlayback.ForwardIsNearest | APAnimatorComponent/APAnimator.cs:941-953 | over ascending timestamps no later timestamp lies between time and the forward result |
| APAnimatorPlayback.BackwardIsNearest | APAnimatorComponent/APAnimator.cs:959-971 | over ascending timestamps no earlier timestamp lies between the backward result and time |
| APAnimatorPlayback.APAnimator.constructor | APAnimatorComponent/APAnimator.cs:44-60 | a component at time 0, stopped, forward, unpaused |
| APAnimatorPlayback.APAnimator.SetPause | APAnimatorComponent/APAnimator.cs:144-157 | the Pause setter stores the value, and setting false also enables updating the animated object |
| APAnimatorPlayback.APAnimator.PauseAnimation | APAnimatorComponent/APAnimator.cs:292-294 | paused, everything else kept |
| APAnimatorPlayback.APAnimator.UnpauseAnimation | APAnimatorComponent/APAnimator.cs:389-391 | unpaused and object updating enabled, everything else kept |
| APAnimatorPlayback.APAnimator.PlayPauseAnimation | APAnimatorComponent/APAnimator.cs:299-301 | pause toggled, with updating enabled when it was paused |
| APAnimatorPlayback.APAnimator.StopAnimation | APAnimatorComponent/APAnimator.cs:376-384 | stopped, unpaused, time 0, object updating enabled |
| APAnimatorPlayback.APAnimator.HandleFireOnAnimationStartedEvent | APAnimatorComponent/APAnimator.cs:722-724 | AnimationStarted recorded exactly when the time is 0 |
| APAnimatorPlayback.APAnimator.UpdateAnimationTime | APAnimatorComponent/APAnimator.cs:652-666 | the time moves by ease(t)·deltaTime, backward when reversed; nothing else changes |
| APAnimatorPlayback.APAnimator.HandleClampWrapMode | APAnimatorComponent/APAnimator.cs:685-692 | the state becomes `ClampWrap` of the old state |
| APAnimatorPlayback.APAnimator.HandleLoopWrapMode | APAnimatorComponent/APAnimator.cs:729-735 | the state becomes `LoopWrap` of the old state |
| APAnimatorPlayback.APAnimator.HandlePingPongWrapMode | APAnimatorComponent/APAnimator.cs:740-752 | the state becomes `PingPongWrap` of the old state |
| APAnimatorPlayback.APAnimator.EaseTimeFrame | APAnimatorComponent/APAnimator.cs:632-640 | paused: nothing changes; otherwise the AnimationStarted check and one `Tick` |
| APAnimatorPlayback.APAnimator.EaseTime | APAnimatorComponent/APAnimator.cs:625-646 | the coroutine runs exactly `Play` from the current time: final state and events raised as `Play` gives them; unpaused, updating enabled |
| APAnimatorPlayback.APAnimator.EaseTimeLoop | APAnimatorComponent/APAnimator.cs:630-645 | the coroutine's loop, entered or resumed while running, runs exactly `Play` from the current state: final state and events |
| APAnimatorPlayback.APAnimator.EaseTimeStep | APAnimatorComponent/APAnimator.cs:630-644 | one running frame consumes one step of `Play` |
| APAnimatorPlayback.APAnimator.HandleFireNodeReachedEventForFirstNode | APAnimatorComponent/APAnimator.cs:827-833 | NodeReached for node 0 only when the time is exactly 0 |
| APAnimatorPlayback.APAnimator.StartAnimation | APAnimatorComponent/APAnimator.cs:364-371 | nothing without a PathData asset; otherwise the first-node notification and then the whole `Play` run |
| APAnimatorPlayback.APAnimator.HandleStartAnimation | APAnimatorComponent/APAnimator.cs:674-679 | in play mode with AutoPlay: without an asset, only marked running; with one, the coroutine's first frame, then marked running, then the later frames if it yielded, so time, direction and events are those of `Play` and it ends running exactly when `Play` does or the first frame stopped the run; otherwise nothing |
| APAnimatorPlayback.PlayFirstFrame | APAnimatorComponent/APAnimator.cs:630-645 | a run up to its first yield is its first tick; the whole run is that tick followed, if still running, by the run over the later frames |
| APAnimatorPlayback.ClampStopsOnThirdFrame | APAnimatorComponent/APAnimator.cs:685-691 | a Clamp run at ease 0.5 over three one-second frames from 0 does not stop on its first frame and ends stopped at time 1 |
| APAnimatorPlayback.APAnimator.HandlePlayPause | APAnimatorComponent/APAnimator.cs:757-779 | running: pause toggled; not running: time reset to 0 if it was at least 1, then started |
| APAnimatorPlayback.APAnimator.HandleFireNodeReachedEvent | APAnimatorComponent/APAnimator.cs:697-716 | one NodeReached per index crossed in (prev, now], in index order, with the current time; then prev becomes now |
| APAnimatorPlayback.APAnimator.HandleUpdatingAnimGOInPlayMode | APAnimatorComponent/APAnimator.cs:784-793 | in play mode with updating enabled, this frame's node notifications; otherwise nothing |
| APAnimatorPlayback.APAnimator.CalculateForwardPointPosition | APAnimatorComponent/APAnimator.cs:1005-1013 | the path position ForwardPointOffset ahead of the current time |
| LegacyAnimator.ClampedDuration | AnimationPathAnimator.cs:143-148 | at least 1: below 1 it becomes 1, otherwise it is unchanged |
| LegacyAnimator.ClampedRatio | AnimationPathAnimator.cs:149-155 | in [0,1]: values inside are unchanged, values below become 0, values above become 1 |
| LegacyAnimator.ClampIdempotent | AnimationPathAnimator.cs:143-155 | applying the limits twice is applying them once |
| LegacyAnimator.EndsOnEmpty | AnimationPathAnimator.cs:202-208 | default curves on an empty curve are exactly the keys (0, first) and (1, last) with zero tangents |
| LegacyAnimator.EaseStepsExit | AnimationPathAnimator.cs:290-302 | the do-while runs at least one step when a frame exists; every step adds its delta time; the ratio is the ease value at time/duration; it exits at the first ratio of at least 1 |
| LegacyAnimator.RotationTarget | AnimationPathAnimator.cs:320-333 | a target exists exactly when the path is initialised and an object assigned; it is the followed object when there is one, else the forward point |
| LegacyAnimator.AnimationPathAnimator.constructor | AnimationPathAnimator.cs:72-125 | duration 20, ratio 0, time 0, not playing, three fresh empty curves |
| LegacyAnimator.AnimationPathAnimator.OnValidate | AnimationPathAnimator.cs:143-156 | duration and ratio brought into range as `ClampedDuration` and `ClampedRatio` state |
| LegacyAnimator.AnimationPathAnimator.InitializeEaseCurve | AnimationPathAnimator.cs:304-310 | ease keys (0,0) and (1,1) added |
| LegacyAnimator.AnimationPathAnimator.InitializeRotationCurve | AnimationPathAnimator.cs:312-318 | tilting keys (0,0) and (1,0) added |
| LegacyAnimator.AnimationPathAnimator.InitializeLookForwardCurve | AnimationPathAnimator.cs:202-208 | look-forward keys (0,0.03) and (1,0.03) added |
| LegacyAnimator.AnimationPathAnimator.InitializeCurves | AnimationPathAnimator.cs:187-189 | the three default curves initialised |
| LegacyAnimator.AnimationPathAnimator.EaseTime | AnimationPathAnimator.cs:290-302 | the do-while loop ends with the time and ratio `EaseSteps` gives |
| LegacyAnimator.AnimationPathAnimator.Start | AnimationPathAnimator.cs:186-200 | curves initialised, playing set, time = ratio × duration, and in play mode the EaseTime run from there |
| LegacyAnimator.AnimationPathAnimator.StartPlayback | AnimationPathAnimator.cs:191-199 | playing set, time = ratio × duration, then the EaseTime run in play mode |
| LegacyAnimator.AnimationPathAnimator.RotateObject | AnimationPathAnimator.cs:320-342 | the target is `RotationTarget`; without a followed object it is the path at ratio + lookForward(ratio) |

## Left out

- Unity's `AnimationCurve` evaluation and tangent smoothing, the `AnimationPath` evaluation, and its arc-length sampling. These are not part of this model and are uninterpreted, as described above. `DistributeTimestamps` takes the section lengths and the total length as inputs. The source measures each section inside the loop, on the path as it has been retimed so far; `sectionLengths[k]` stands for the length measured at iteration k+1, not a length taken before the loop.
- Path node tangents, `SetLinearAnimObjPathTangents`, `SetNodeTangents`, `SmoothAllNodeTangents` and their callers. Node tangents are not in the node model; smoothing a path is a no-op here.
- Coroutines.
  - The `EaseTime` coroutines are loops over a given sequence of frame delta times (`Time.deltaTime` as input).
  - `StartAnimation` runs the coroutine's frames in the same call.
  - `CountdownToStopAnimGOUpdate`, `HandleStartCountdownCoroutine` and the `AnimationEnded` event are not modelled: they count host frames.
- The ease curve used by APAnimator is a `real -> real` parameter. The node timestamps are a sequence parameter.
- Events. C# event wiring (`SubscribeToEvents`) is a direct call to the internal handler. Raised events are recorded in a ghost trace `events`.
- ComponentPathData.PathData.OnNodeAdded, OnNodeRemoved and OnNodeTimeChanged: the model covers a single subscription, as on a freshly created asset. The component subscribes in both `OnAfterDeserialize` and `OnEnable` (APAnimatorComponent/PathData.cs:87-99), and C# `+=` does not remove duplicates, so on a deserialised asset each handler runs twice per event. The handlers are not idempotent: the removed-keys repair removes one unmatched key per call, so a second call can remove a second key, and the retiming repairs run again on keys an overtaking move reordered. The model does not capture this second run.
- Game-object work: quaternion and `Slerp`/`LookAt` rotation, `TransformPoint`, `Vector3.Lerp` smoothing, `UpdateGO` and the `Animate*`/`Update*` transform updates, gizmo drawing, `ExportNodes`, `Resources.Load`, `Debug.Log`.
- Inspector-only operations: `HandleShortcuts` and keyboard input, the setters `SetWrap*`, `SetRotation*`, `SetTangent*`, `ResetInspectorOptions`.
- The one-line getters: `GetEaseValueAtIndex`, `GetNodeTimestamp`, `GetRotationAtTime` and the like. The collection fields model them.
- Floats are reals: no IEEE rounding.
- APAnimatorPlayback.APAnimator: the wrap mode and whether a PathData asset is assigned are fixed at construction, because nothing in the modelled core changes them.
- LegacyAnimator.AnimationPathAnimator.EaseTime: requires a non-zero duration. Division by 0 gives IEEE infinity in the source, which reals cannot express; `OnValidate` keeps the duration at least 1 in practice.
- ComponentPathData.PathData.DistributeTimestamps: requires a non-zero total path length. The source divides 1 by the length as a float (APAnimatorComponent/PathData.cs:297). A length of 0 gives IEEE infinity, and when the section lengths are 0 as well (all nodes at one point), each stamp is 0 × infinity = NaN. `NaN > 1` is false, so the source then sets every interior node's time to NaN (:322-325). Reals cannot express infinity or NaN. The requirement of a section length for every node is on the model's own input: the source measures each section itself.
- LegacyPathData.PathData: the collections may be null only until `OnEnable` or `Reset` has run. The component version handles a missing collection field by field (`HandleInstantiateReferenceTypes`), and the older one only through `Valid()`.
- Source paths that end in an exception become preconditions:
  - `EaseCurveExtremeNodes` on an empty curve;
  - an index past the end in `RemoveNode`, `UpdateEaseValue`, `UpdateTiltingValue`, `UpdateNodeTilting` and `MoveNodeToPosition`;
  - `GetNodePositions` asked for more nodes than exist;
  - `UpdateCurveTimestamps` / `UpdateRotationPathTimestamps` with more than one interior entry beyond the node count;
  - `OffsetRotationPathPosition` / `ResetRotationPathValues` with fewer rotation nodes than path nodes.
- Retiming.CurveRetimedInPlace, Retiming.RotationRetimedInPlace and Retiming.DistributedInPlace: stated only when no new time overtakes a neighbouring entry. When one does, `MoveKey` reorders the keys. Then only the KeepsEnds lemmas apply (sorted, first and last entries unchanged).
- ComponentPathData.PathData.CreateNewNode and CreateNodeAtTime keep synchronisation only for a node at least Eps from every existing node. A node closer than Eps gets no key in the dependent collections (`Sync.NearNodeNotMirrored`).
- APAnimatorPlayback.APAnimator.HandleStartAnimation: starting a coroutine runs it up to its first yield, which is its first frame, and `IsRunning` is set true right after that (APAnimatorComponent/APAnimator.cs:675-677). The model runs that first frame, sets the flag, and then resumes the loop with the later frames only if the first frame yielded. So the animator ends marked running when no PathData asset is assigned or the run stopped on its first frame; otherwise it ends as the whole run does (`ClampStopsOnThirdFrame` shows a run that stops later). The host's other per-frame work, which runs between the resumed frames, is not interleaved.
- The editor scripts, `AnimationEvents` (message dispatch), `AnimatorEventsData` and `ReloadLevel` are not part of this model.
