# setpoint_publisher: a Dafny model of the waypoint sequencer

`SetpointPublisher` is a ROS node. It drives an agent through an ordered list of
setpoints read from a text file. Each line of the file holds one setpoint:
position x, y, z and orientation quaternion x, y, z, w. The node keeps an
index to the active setpoint and a `TransformStamped` message. When a
position arrives, the node compares it with the first three values of the
active row. The position comes from a pose subscription, or from a tf lookup
on every loop cycle. If the Euclidean distance is strictly below
`setpoint_radius` and the active row is not the last, the index moves on by
one and the message is re-rendered from the new row. The loop republishes
that message on every cycle with a fresh stamp.

The model is functional. The object's two mutable fields `setpoint_index`
and `setpoint_msg` form an immutable `State`. The table and the radius form
a `Config`. Every operation is a pure function returning
`Outcome<State> = Returned(after) | Raised(fault, after)`. `after` holds the
fields as the call leaves them, because assignments made before a Python
exception persist in the object.

Modules:

- `Messages` (`messages.dfy`): the message fields the node touches, pose
  component access, and the `Outcome` type.
- `Geometry` (`geometry.dfy`): the zipped sum of squares behind `distance`,
  and the strict radius test without the square root.
- `Tokens` (`tokens.dfy`): `line.strip("\n").split()` from
  `getSetpointsFromFile`.
- `Sequencer` (`sequencer.dfy`): `evaluate`, `changeActiveSetpoint`,
  `updateSetpointMsg`, `callback`, `updateUsingTF`, `publishSetpointMsg`, and
  runs over sequences of inputs.

Modelling choices:

- Rows are lists of reals of any length. The code never checks for seven
  values. `row[0:3]` keeps only the values that exist, and `zip` in
  `distance` pairs only as many components as the shorter side has. A row
  with fewer than seven values raises `IndexError` part-way through
  `updateSetpointMsg`, after the index has already moved.
- `sqrt(s) < radius` is modelled as `radius > 0 && s < radius * radius` over
  `real`. `Geometry.EuclideanTest` proves the two agree for every
  non-negative `d` with `d * d == s`.
- `changeActiveSetpoint` is a single field assignment. It appears as
  `ChangeActiveSetpoint` inside `Evaluate` and has no contract of its own.
- What the code does not do, and the model therefore does not do either:
  - there is no "done" flag and no completion signal, and the last setpoint
    simply absorbs every position;
  - there is no distance-mode selection, and all paired axes count;
  - the message is not rendered from row 0 at construction, and row 0 is
    never rendered at all;
  - publishing restamps the stored message but does not re-render it;
  - no observed-pose side channel is published;
  - loading does not reject short rows or an empty table. An empty table
    raises `IndexError` on the first evaluation instead.

## Model

| member | source | states |
|---|---|---|
| Geometry.SquaredDistance | src/setpoint_publisher/setpoint_publisher.py:35-36 | the sum of squared differences over the zipped pairs is never negative, so the square root is always defined |
| Geometry.EuclideanTest | src/setpoint_publisher/setpoint_publisher.py:43 | for any d >= 0 with d*d equal to the squared distance, `d < radius` holds exactly when radius > 0 and the squared distance is below radius squared |
| Geometry.BoundaryIsOutside | src/setpoint_publisher/setpoint_publisher.py:43 | a distance exactly equal to the radius fails the strict test |
| Geometry.ZipPairsPrefixes | src/setpoint_publisher/setpoint_publisher.py:36 | the distance depends only on the first min(len a, len b) components of each side, as `zip` truncates |
| Geometry.UnpairedAxesIgnored | src/setpoint_publisher/setpoint_publisher.py:36 | changing components of the longer side beyond the shorter side's length never changes the distance |
| Geometry.ZeroDistanceIff | src/setpoint_publisher/setpoint_publisher.py:36 | the distance is zero if and only if the paired components are equal |
| Geometry.ThreeAxes | src/setpoint_publisher/setpoint_publisher.py:36 | with three paired components the distance is the usual 3-D sum of squares |
| Tokens.Split | src/setpoint_publisher/setpoint_publisher.py:32 | `split()` yields only non-empty tokens free of whitespace |
| Tokens.KeepsNonSpace | src/setpoint_publisher/setpoint_publisher.py:32 | the tokens, concatenated in order, are exactly the line's non-whitespace characters |
| Tokens.SplitLayout | src/setpoint_publisher/setpoint_publisher.py:32 | for any line made of tokens separated by non-empty whitespace runs, with optional leading and trailing whitespace, splitting returns exactly those tokens |
| Tokens.SplitJoin | src/setpoint_publisher/setpoint_publisher.py:32 | splitting inverts joining well-formed tokens with single spaces |
| Tokens.StripIsRedundant | src/setpoint_publisher/setpoint_publisher.py:32 | stripping newlines before `split()` never changes the tokens |
| Tokens.LineTokens | src/setpoint_publisher/setpoint_publisher.py:32 | a line's tokens are well-formed, keep all its non-whitespace characters in order, and equal the plain split of the unstripped line |
| Tokens.FileTokens | src/setpoint_publisher/setpoint_publisher.py:31-32 | one token row per line read, each the split of that line, so a blank line gives an empty row |
| Messages.WithComponent | src/setpoint_publisher/setpoint_publisher.py:54-60 | one field assignment sets its pose component and leaves the other six, the header and the child frame alone |
| Sequencer.Initial | src/setpoint_publisher/setpoint_publisher.py:10-11 | the constructor starts at index 0 with an all-zero pose, not row 0 |
| Sequencer.RenderFrom | src/setpoint_publisher/setpoint_publisher.py:54-60 | assigning components i..6 in order copies each one the row has, raises IndexError at the first one it lacks, and keeps all other fields |
| Sequencer.Render | src/setpoint_publisher/setpoint_publisher.py:52-60 | rendering succeeds exactly for rows of at least seven values; every component the row has is copied, missing ones keep their old value, and header and child frame are untouched |
| Sequencer.UpdateSetpointMsg | src/setpoint_publisher/setpoint_publisher.py:52-60 | the index is unchanged; an index past the table raises IndexError; on success the pose equals the active row's first seven values |
| Sequencer.Evaluate | src/setpoint_publisher/setpoint_publisher.py:40-50 | the index stays or moves up by exactly one; it moves exactly when the position is strictly inside the radius of the active row and that row is not the last; otherwise the whole state is unchanged; after a move the new row is rendered and frames and stamp are kept |
| Sequencer.Callback | src/setpoint_publisher/setpoint_publisher.py:62-65 | an incoming transform moves the index by at most one; it advances exactly when its translation is strictly inside the radius of the active row and that row is not the last; otherwise the state is unchanged |
| Sequencer.CallbackReadsTranslationOnly | src/setpoint_publisher/setpoint_publisher.py:62-65 | two incoming transforms with the same translation lead to the same outcome, whatever their rotation, header or frames |
| Sequencer.UpdateUsingTF | src/setpoint_publisher/setpoint_publisher.py:67-73 | any of the three lookup exceptions returns with the state unchanged; a successful lookup evaluates its position |
| Sequencer.Publish | src/setpoint_publisher/setpoint_publisher.py:77-79 | publishing sets the stamp, keeps index, pose and frames, and sends the stored message |
| Sequencer.RenderCopiesRow | src/setpoint_publisher/setpoint_publisher.py:52-60 | after rendering a row of at least seven values, the message's pose components are exactly the row's first seven values |
| Sequencer.RenderIdempotent | src/setpoint_publisher/setpoint_publisher.py:52-60 | rendering the same row twice equals rendering it once |
| Sequencer.NoAdvanceOutsideRadius | src/setpoint_publisher/setpoint_publisher.py:43-47 | a position not strictly inside the radius leaves index and message unchanged |
| Sequencer.BoundaryDoesNotAdvance | src/setpoint_publisher/setpoint_publisher.py:43 | a position whose Euclidean distance equals the radius exactly does not advance |
| Sequencer.AdvanceIffCloserThanRadius | src/setpoint_publisher/setpoint_publisher.py:43-45 | below the last setpoint, the index advances if and only if the Euclidean distance is below the radius |
| Sequencer.LastIsAbsorbing | src/setpoint_publisher/setpoint_publisher.py:44 | at the last index every position, even one inside the radius, leaves the state unchanged |
| Sequencer.ShortRowComparesFewerAxes | src/setpoint_publisher/setpoint_publisher.py:36-43 | for a row shorter than three values only that many position axes decide capture, and an empty row captures every position once the radius is positive |
| Sequencer.FullRowUsesThreeAxes | src/setpoint_publisher/setpoint_publisher.py:36-43 | for a row of at least three values capture is the 3-D squared-distance test |
| Sequencer.OnTargetCaptured | src/setpoint_publisher/setpoint_publisher.py:36-43 | a position equal to the active point on the paired axes is captured if and only if the radius is positive |
| Sequencer.PublishIdempotent | src/setpoint_publisher/setpoint_publisher.py:77-79 | two publishes with no evaluation between them send the identical pose and frames; only the stamp differs |
| Sequencer.FeedStaysInBounds | src/setpoint_publisher/setpoint_publisher.py:44-45 | along any run of inputs the index stays within the table, never decreases, and rises by at most one per input |
| Sequencer.FeedMonotone | src/setpoint_publisher/setpoint_publisher.py:44-50 | the index after any prefix of a run is at most the index after the whole run |
| Sequencer.FailuresAreInvisible | src/setpoint_publisher/setpoint_publisher.py:69-73 | a run with failed lookups ends in the same state as the run with those failures removed |
| Sequencer.FeedFromLast | src/setpoint_publisher/setpoint_publisher.py:44 | from the last index every run leaves the state unchanged |
| Sequencer.FeedShowsActive | src/setpoint_publisher/setpoint_publisher.py:44-46 | along any run the message keeps the zero pose while the index is 0, and afterwards shows the active row whenever it has seven values |
| Sequencer.RunFromInitial | src/setpoint_publisher/setpoint_publisher.py:10-11 | from the constructor's state and a non-empty table, every run keeps the index in range and the message consistent with it |
| Sequencer.EvaluateAsWritten | src/setpoint_publisher/setpoint_publisher.py:41 | as written, every evaluation raises NameError and leaves the state unchanged |
| Sequencer.AsWrittenNeverAdvances | src/setpoint_publisher/setpoint_publisher.py:41 | on a two-row table with the position on row 0, the code as written raises and stays at index 0, while the intended code advances to index 1 |

## Findings

| source | as written | input that shows it | evidently intended | confidence | as-written member | corrected member |
|---|---|---|---|---|---|---|
| src/setpoint_publisher/setpoint_publisher.py:41 | `active_setpoint = this.setpoints[self.setpoint_index]`: `this` is not bound in Python, so every call raises NameError before the distance test | table [[0,0,0,0,0,0,1],[5,0,0,0,0,0,1]], radius 0.1, position (0,0,0) | `self.setpoints[self.setpoint_index]`, as on line 53 | high; not executed | Sequencer.AsWrittenNeverAdvances | Sequencer.Evaluate |

## Left out

- ROS plumbing is left out: parameter reading, `init_node`, `Publisher`,
  `Subscriber`, `Rate`, `is_shutdown` and the `run` loop (lines 12-27 and
  81-93). These are framework calls. The radius parameter becomes
  `Config.radius`, and the clock reading becomes the `now` argument of
  `Publish`.
- The startup `sleep`, and the debug and throttled logging (lines 18, 37 and
  47), have no effect on state.
- Opening and reading the file, and `float()` on each token (lines 31-32),
  are left out. The table is a parameter, and only the whitespace split is
  modelled.
- IEEE floating point and `sqrt` are replaced by exact `real` arithmetic and
  the squared comparison.
- The tf listener is left out. A lookup is a `LookupResult` argument that
  holds a pose or one of the three absorbed exceptions. Any other exception
  from `lookupTransform` would propagate and is not modelled.
- The `RuntimeError` branch of `updateUsingTF` (lines 74-75) is left out.
  With `use_tf` set, `tflistener` is always a listener object. Without it,
  the attribute does not exist at all.
- Concurrency is left out. The subscriber callback runs on its own thread,
  and `callback` is modelled as a sequential call.
- Tokens.IsSpace follows Python 3 text semantics. Under Python 2 the file
  yields byte strings, which split on the six ASCII whitespace characters only.
- Message header `seq` is not modelled, and `stamp` is an opaque integer.
- Sequencer.Feed: after an exception the run continues from the fields the
  exception left. This matches a subscriber callback, whose exception the
  framework logs. In the tf loop the exception would end `run`, which the
  run model does not capture, though each of its prefixes is covered.
