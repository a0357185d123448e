/** The waypoint sequencer of `SetpointPublisher`, as pure functions over an
    immutable state record.

    The Python object keeps `setpoint_index` and `setpoint_msg` as mutable
    fields; here they form a `State` value that every operation takes and
    returns (inside an `Outcome`, which also reports an exception). The table
    read from the setpoint file and the capture radius are fixed for the
    object's lifetime and form the `Config`.

    A table row is a list of reals of any length, exactly as parsed from one
    line of the file: the code never checks that a row holds seven numbers.

    Line 41 of the source reads `this.setpoints`, an unbound name in Python;
    `Evaluate` models the evident intent `self.setpoints` (the form line 53
    uses), and `EvaluateAsWritten` models the line as written. */
module Sequencer {
  import opened Messages
  import opened Geometry

  type Row = seq<real>

  datatype Config = Config(setpoints: seq<Row>, radius: real)

  datatype State = State(index: nat, msg: TransformStamped)

  /** The result of one transform lookup: a position and orientation, or one of
      the three lookup exceptions the caller absorbs. */
  datatype LookupError = LookupException | ConnectivityException | ExtrapolationException

  datatype LookupResult =
    | Found(position: Vector3, orientation: Quaternion)
    | Failed(error: LookupError)

  /** The state the constructor leaves: index 0 and an unrendered message. */
  function Initial(): (st: State)
    ensures st.index == 0
    ensures PoseRow(st.msg) == [0.0, 0.0, 0.0, 0.0, 0.0, 0.0, 0.0]
  {
    State(0, EmptyMessage())
  }

  function AsList(p: Vector3): seq<real>
  {
    [p.x, p.y, p.z]
  }

  /** `row[0:3]`: Python slicing stops at the end of a shorter row. */
  function Head3(row: Row): (h: Row)
    ensures |h| == Min(|row|, 3)
    ensures h == row[..|h|]
  {
    row[..Min(|row|, 3)]
  }

  /** The strict capture test of line 43 against the active row. */
  predicate Captured(cfg: Config, row: Row, p: Vector3)
  {
    Inside(SquaredDistance(AsList(p), Head3(row)), cfg.radius)
  }

  // Rendering: `updateSetpointMsg` assigns the seven fields one at a time
  // from `row[0]` to `row[6]`; a row shorter than seven raises IndexError at
  // the first missing component, after the earlier fields were written.

  function RenderFrom(row: Row, msg: TransformStamped, i: nat): (r: Outcome<TransformStamped>)
    requires i <= PoseComponents
    ensures r.Returned? <==> (i == PoseComponents || |row| >= PoseComponents)
    ensures r.Raised? ==> r.fault == IndexError
    ensures forall j :: 0 <= j < PoseComponents ==>
              Component(r.after, j) == (if i <= j < |row| then row[j] else Component(msg, j))
    ensures r.after.header == msg.header && r.after.childFrameId == msg.childFrameId
    decreases PoseComponents - i
  {
    if i == PoseComponents then Returned(msg)
    else if i >= |row| then Raised(IndexError, msg)
    else RenderFrom(row, WithComponent(msg, i, row[i]), i + 1)
  }

  /** The field assignments of `updateSetpointMsg` for one row. */
  function Render(row: Row, msg: TransformStamped): (r: Outcome<TransformStamped>)
    ensures r.Returned? <==> |row| >= PoseComponents
    ensures r.Raised? ==> r.fault == IndexError
    ensures forall j :: 0 <= j < PoseComponents ==>
              Component(r.after, j) == (if j < |row| then row[j] else Component(msg, j))
    ensures r.after.header == msg.header && r.after.childFrameId == msg.childFrameId
  {
    RenderFrom(row, msg, 0)
  }

  /** `updateSetpointMsg`: render the active row into the message. */
  function UpdateSetpointMsg(cfg: Config, st: State): (r: Outcome<State>)
    ensures r.after.index == st.index
    ensures st.index >= |cfg.setpoints| ==> r == Raised(IndexError, st)
    ensures st.index < |cfg.setpoints| ==>
              r.Returned? == (|cfg.setpoints[st.index]| >= PoseComponents)
    ensures r.Returned? ==> PoseRow(r.after.msg) == cfg.setpoints[st.index][..PoseComponents]
    ensures r.after.msg.header == st.msg.header
    ensures r.after.msg.childFrameId == st.msg.childFrameId
  {
    if st.index >= |cfg.setpoints| then Raised(IndexError, st)
    else
      var row := cfg.setpoints[st.index];
      match Render(row, st.msg)
      case Returned(m) =>
        RenderCopiesRow(row, st.msg);
        Returned(st.(msg := m))
      case Raised(f, m) => Raised(f, st.(msg := m))
  }

  /** `evaluate(position)`: advance by one setpoint when the position is
      strictly inside the radius of the active one and it is not the last. */
  function Evaluate(cfg: Config, st: State, p: Vector3): (r: Outcome<State>)
    // the index is read before anything else: an empty table, or an index past
    // its end, raises IndexError and changes nothing
    ensures st.index >= |cfg.setpoints| ==> r == Raised(IndexError, st)
    // never moves back, never skips
    ensures r.after.index == st.index || r.after.index == st.index + 1
    // advances exactly when captured and not at the last setpoint
    ensures st.index < |cfg.setpoints| ==>
              (r.after.index == st.index + 1 <==>
                 st.index < |cfg.setpoints| - 1 && Captured(cfg, cfg.setpoints[st.index], p))
    // no advance: nothing at all changes
    ensures r.after.index == st.index ==> r.after == st
    ensures r.after.index == st.index && st.index < |cfg.setpoints| ==> r.Returned?
    // advance: the new active row is rendered, frames and stamp untouched
    ensures r.after.index == st.index + 1 ==>
              r.after.index < |cfg.setpoints|
              && (r.Returned? <==> |cfg.setpoints[r.after.index]| >= PoseComponents)
              && (r.Raised? ==> r.fault == IndexError)
              && (r.Returned? ==> PoseRow(r.after.msg) == cfg.setpoints[r.after.index][..PoseComponents])
              && r.after.msg.header == st.msg.header
              && r.after.msg.childFrameId == st.msg.childFrameId
  {
    if st.index >= |cfg.setpoints| then Raised(IndexError, st)
    else
      var active := cfg.setpoints[st.index];
      if Captured(cfg, active, p) && st.index < |cfg.setpoints| - 1 then
        UpdateSetpointMsg(cfg, ChangeActiveSetpoint(st, st.index + 1))
      else Returned(st)
  }

  /** `changeActiveSetpoint`: only the index changes. */
  function ChangeActiveSetpoint(st: State, newIndex: nat): State
  {
    st.(index := newIndex)
  }

  /** `callback(msg)`: evaluate the translation of an incoming transform. */
  function Callback(cfg: Config, st: State, incoming: TransformStamped): (r: Outcome<State>)
    ensures r.after.index == st.index || r.after.index == st.index + 1
    ensures st.index < |cfg.setpoints| ==>
              (r.after.index == st.index + 1 <==>
                 st.index < |cfg.setpoints| - 1
                 && Captured(cfg, cfg.setpoints[st.index], incoming.transform.translation))
    ensures r.after.index == st.index ==> r.after == st
  {
    Evaluate(cfg, st, incoming.transform.translation)
  }

  /** Only the translation of an incoming transform matters: its rotation,
      header and child frame never influence the sequencer. */
  lemma CallbackReadsTranslationOnly(cfg: Config, st: State, m1: TransformStamped, m2: TransformStamped)
    requires m1.transform.translation == m2.transform.translation
    ensures Callback(cfg, st, m1) == Callback(cfg, st, m2)
  {
  }

  /** `updateUsingTF`: a failed lookup returns before evaluating. */
  function UpdateUsingTF(cfg: Config, st: State, lookup: LookupResult): (r: Outcome<State>)
    ensures lookup.Failed? ==> r == Returned(st)
    ensures lookup.Found? ==> r == Evaluate(cfg, st, lookup.position)
  {
    match lookup
    case Failed(_) => Returned(st)
    case Found(position, _) => Evaluate(cfg, st, position)
  }

  /** `publishSetpointMsg`: restamp the stored message and send it. Returns the
      new state and the message sent. */
  function Publish(st: State, now: int): (r: (State, TransformStamped))
    ensures r.0.index == st.index
    ensures r.1 == r.0.msg
    ensures r.1.header.stamp == now
    ensures r.1.header.frameId == st.msg.header.frameId
    ensures r.1.childFrameId == st.msg.childFrameId
    ensures r.1.transform == st.msg.transform
  {
    var m := st.msg.(header := st.msg.header.(stamp := now));
    (st.(msg := m), m)
  }

  // ---------------------------------------------------------------------
  // Properties

  /** Rendering a row of at least seven values makes the message's pose
      exactly the row's first seven values. */
  lemma RenderCopiesRow(row: Row, msg: TransformStamped)
    requires |row| >= PoseComponents
    ensures PoseRow(Render(row, msg).after) == row[..PoseComponents]
  {
  }

  /** Rendering the same row twice is the same as rendering it once. */
  lemma RenderIdempotent(row: Row, msg: TransformStamped)
    ensures Render(row, Render(row, msg).after) == Render(row, msg)
  {
  }

  /** A position at or beyond the radius leaves the state unchanged. */
  lemma NoAdvanceOutsideRadius(cfg: Config, st: State, p: Vector3)
    requires st.index < |cfg.setpoints|
    requires !Captured(cfg, cfg.setpoints[st.index], p)
    ensures Evaluate(cfg, st, p) == Returned(st)
  {
  }

  /** A Euclidean distance exactly equal to the radius does not advance. */
  lemma BoundaryDoesNotAdvance(cfg: Config, st: State, p: Vector3, d: real)
    requires st.index < |cfg.setpoints|
    requires d >= 0.0 && d * d == SquaredDistance(AsList(p), Head3(cfg.setpoints[st.index]))
    requires d == cfg.radius
    ensures Evaluate(cfg, st, p) == Returned(st)
  {
  }

  /** With the Euclidean distance `d`, the source's test `d < radius` decides
      the advance. */
  lemma AdvanceIffCloserThanRadius(cfg: Config, st: State, p: Vector3, d: real)
    requires st.index < |cfg.setpoints| - 1
    requires d >= 0.0 && d * d == SquaredDistance(AsList(p), Head3(cfg.setpoints[st.index]))
    ensures Evaluate(cfg, st, p).after.index == st.index + 1 <==> d < cfg.radius
  {
    EuclideanTest(SquaredDistance(AsList(p), Head3(cfg.setpoints[st.index])), d, cfg.radius);
  }

  /** At the last setpoint nothing ever changes, whatever the position. */
  lemma LastIsAbsorbing(cfg: Config, st: State, p: Vector3)
    requires |cfg.setpoints| > 0 && st.index == |cfg.setpoints| - 1
    ensures Evaluate(cfg, st, p) == Returned(st)
  {
  }

  /** Only the first `|row|` axes of the position matter for a row shorter
      than three values; an empty row is captured by every position once the
      radius is positive. */
  lemma ShortRowComparesFewerAxes(cfg: Config, row: Row, p: Vector3, q: Vector3)
    requires |row| < 3
    requires AsList(p)[..|row|] == AsList(q)[..|row|]
    ensures Captured(cfg, row, p) <==> Captured(cfg, row, q)
    ensures |row| == 0 ==> (Captured(cfg, row, p) <==> cfg.radius > 0.0)
  {
    assert Head3(row) == row;
    UnpairedAxesIgnored(AsList(p), AsList(q), row);
  }

  /** With a full row the test uses the ordinary 3-D squared distance. */
  lemma FullRowUsesThreeAxes(cfg: Config, row: Row, p: Vector3)
    requires |row| >= 3
    ensures Captured(cfg, row, p) <==>
              Inside(Sq(p.x - row[0]) + Sq(p.y - row[1]) + Sq(p.z - row[2]), cfg.radius)
  {
    ThreeAxes(AsList(p), Head3(row));
  }

  /** A position exactly on the active point is captured iff the radius is positive. */
  lemma OnTargetCaptured(cfg: Config, row: Row, p: Vector3)
    requires AsList(p)[..Min(3, |row|)] == row[..Min(3, |row|)]
    ensures Captured(cfg, row, p) <==> cfg.radius > 0.0
  {
    ZeroDistanceIff(AsList(p), Head3(row));
    assert Head3(row)[..Min(3, |row|)] == row[..Min(3, |row|)];
  }

  /** Publishing twice with no evaluation in between sends the same pose and
      frames; only the stamp differs. */
  lemma PublishIdempotent(st: State, t1: int, t2: int)
    ensures Publish(Publish(st, t1).0, t2).1 == Publish(st, t1).1.(header := Publish(st, t1).1.header.(stamp := t2))
  {
  }

  // ---------------------------------------------------------------------
  // Runs: a sequence of lookup results fed to `updateUsingTF`, or of incoming
  // positions fed to `callback`. After an exception the object keeps the
  // fields it had when the exception left `evaluate`, and the next input is
  // processed from there.

  function Feed(cfg: Config, st: State, inputs: seq<LookupResult>): State
    decreases |inputs|
  {
    if |inputs| == 0 then st
    else Feed(cfg, UpdateUsingTF(cfg, st, inputs[0]).after, inputs[1..])
  }

  /** Bounds and monotonicity: from an index in range, every run keeps the
      index in range, never lowers it, and raises it by at most one per input. */
  lemma {:induction false} FeedStaysInBounds(cfg: Config, st: State, inputs: seq<LookupResult>)
    requires st.index < |cfg.setpoints|
    ensures st.index <= Feed(cfg, st, inputs).index < |cfg.setpoints|
    ensures Feed(cfg, st, inputs).index <= st.index + |inputs|
    decreases |inputs|
  {
    if |inputs| > 0 {
      FeedStaysInBounds(cfg, UpdateUsingTF(cfg, st, inputs[0]).after, inputs[1..]);
    }
  }

  /** Feeding a prefix and then the rest is feeding the whole. */
  lemma {:induction false} FeedAppend(cfg: Config, st: State, xs: seq<LookupResult>, ys: seq<LookupResult>)
    ensures Feed(cfg, st, xs + ys) == Feed(cfg, Feed(cfg, st, xs), ys)
    decreases |xs|
  {
    if |xs| > 0 {
      assert (xs + ys)[0] == xs[0];
      assert (xs + ys)[1..] == xs[1..] + ys;
      FeedAppend(cfg, UpdateUsingTF(cfg, st, xs[0]).after, xs[1..], ys);
    } else {
      assert xs + ys == ys;
    }
  }

  /** The index never decreases along a run: every prefix ends at or below
      the index the whole run ends at. */
  lemma FeedMonotone(cfg: Config, st: State, inputs: seq<LookupResult>, k: nat)
    requires st.index < |cfg.setpoints|
    requires k <= |inputs|
    ensures Feed(cfg, st, inputs[..k]).index <= Feed(cfg, st, inputs).index
  {
    assert inputs == inputs[..k] + inputs[k..];
    FeedAppend(cfg, st, inputs[..k], inputs[k..]);
    FeedStaysInBounds(cfg, st, inputs[..k]);
    FeedStaysInBounds(cfg, Feed(cfg, st, inputs[..k]), inputs[k..]);
  }

  /** The inputs with every failed lookup removed. */
  function Successes(inputs: seq<LookupResult>): (s: seq<LookupResult>)
    ensures |s| <= |inputs|
    ensures forall k :: 0 <= k < |s| ==> s[k].Found?
  {
    if |inputs| == 0 then []
    else if inputs[0].Failed? then Successes(inputs[1..])
    else [inputs[0]] + Successes(inputs[1..])
  }

  /** Lookup failures are invisible: a run behaves as if they never happened. */
  lemma {:induction false} FailuresAreInvisible(cfg: Config, st: State, inputs: seq<LookupResult>)
    ensures Feed(cfg, st, inputs) == Feed(cfg, st, Successes(inputs))
    decreases |inputs|
  {
    if |inputs| > 0 {
      var st1 := UpdateUsingTF(cfg, st, inputs[0]).after;
      FailuresAreInvisible(cfg, st1, inputs[1..]);
      if inputs[0].Found? {
        var s := [inputs[0]] + Successes(inputs[1..]);
        assert s[0] == inputs[0] && s[1..] == Successes(inputs[1..]);
      }
    }
  }

  /** Once at the last setpoint, every run leaves the state as it is. */
  lemma {:induction false} FeedFromLast(cfg: Config, st: State, inputs: seq<LookupResult>)
    requires |cfg.setpoints| > 0 && st.index == |cfg.setpoints| - 1
    ensures Feed(cfg, st, inputs) == st
    decreases |inputs|
  {
    if |inputs| > 0 {
      LastIsAbsorbing(cfg, st, if inputs[0].Found? then inputs[0].position else Vector3(0.0, 0.0, 0.0));
      FeedFromLast(cfg, UpdateUsingTF(cfg, st, inputs[0]).after, inputs[1..]);
    }
  }

  /** What the stored message shows: before the first advance it is still the
      constructor's zero pose (row 0 is never rendered); afterwards it shows
      the active row whenever that row has all seven values. */
  ghost predicate ShowsActive(cfg: Config, st: State)
  {
    && st.index < |cfg.setpoints|
    && (st.index == 0 ==> st.msg.transform == EmptyMessage().transform)
    && (st.index > 0 && |cfg.setpoints[st.index]| >= PoseComponents ==>
          PoseRow(st.msg) == cfg.setpoints[st.index][..PoseComponents])
  }

  lemma {:induction false} FeedShowsActive(cfg: Config, st: State, inputs: seq<LookupResult>)
    requires ShowsActive(cfg, st)
    ensures ShowsActive(cfg, Feed(cfg, st, inputs))
    decreases |inputs|
  {
    if |inputs| > 0 {
      var st1 := UpdateUsingTF(cfg, st, inputs[0]).after;
      assert ShowsActive(cfg, st1);
      FeedShowsActive(cfg, st1, inputs[1..]);
    }
  }

  /** From the constructor's state and a non-empty table, every run keeps the
      index in range and the message showing the active row. */
  lemma RunFromInitial(cfg: Config, inputs: seq<LookupResult>)
    requires |cfg.setpoints| > 0
    ensures Feed(cfg, Initial(), inputs).index < |cfg.setpoints|
    ensures ShowsActive(cfg, Feed(cfg, Initial(), inputs))
  {
    FeedStaysInBounds(cfg, Initial(), inputs);
    FeedShowsActive(cfg, Initial(), inputs);
  }

  // ---------------------------------------------------------------------
  // Line 41 as written: `this` is unbound, so every call raises NameError
  // before reading the table, and no position ever advances the index.

  function EvaluateAsWritten(cfg: Config, st: State, p: Vector3): (r: Outcome<State>)
    ensures r.Raised? && r.fault == NameError
    ensures r.after == st
  {
    Raised(NameError, st)
  }

  /** A concrete input on which the corrected `Evaluate` advances while the code
      as written raises and stays at index 0. */
  lemma AsWrittenNeverAdvances()
    ensures var cfg := Config([[0.0, 0.0, 0.0, 0.0, 0.0, 0.0, 1.0],
                               [5.0, 0.0, 0.0, 0.0, 0.0, 0.0, 1.0]], 0.1);
            var p := Vector3(0.0, 0.0, 0.0);
            && EvaluateAsWritten(cfg, Initial(), p) == Raised(NameError, Initial())
            && Evaluate(cfg, Initial(), p).after.index == 1
  {
  }
}
