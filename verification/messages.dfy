/** The parts of the ROS `geometry_msgs/TransformStamped` message that the
    setpoint publisher reads or writes, as immutable values, and the error
    outcome of a Python call that may raise.

    A freshly constructed message has every numeric field 0 (including the
    quaternion's `w`) and empty frame identifiers. */
module Messages {

  datatype Vector3 = Vector3(x: real, y: real, z: real)

  datatype Quaternion = Quaternion(x: real, y: real, z: real, w: real)

  datatype Transform = Transform(translation: Vector3, rotation: Quaternion)

  /** `stamp` is the publication time, an opaque clock reading supplied by the caller. */
  datatype Header = Header(stamp: int, frameId: string)

  datatype TransformStamped = TransformStamped(header: Header, childFrameId: string, transform: Transform)

  /** The number of pose components a setpoint row supplies: translation x, y, z
      followed by rotation x, y, z, w. */
  const PoseComponents: nat := 7

  /** The message as built by the constructor with no arguments. */
  function EmptyMessage(): TransformStamped
  {
    TransformStamped(
      Header(0, ""), "",
      Transform(Vector3(0.0, 0.0, 0.0), Quaternion(0.0, 0.0, 0.0, 0.0)))
  }

  /** Pose component `i` of `m`, in the row order translation x, y, z,
      rotation x, y, z, w. */
  function Component(m: TransformStamped, i: nat): real
    requires i < PoseComponents
  {
    var t := m.transform;
    match i
    case 0 => t.translation.x
    case 1 => t.translation.y
    case 2 => t.translation.z
    case 3 => t.rotation.x
    case 4 => t.rotation.y
    case 5 => t.rotation.z
    case _ => t.rotation.w
  }

  /** The seven pose components of `m` as a row. */
  function PoseRow(m: TransformStamped): (row: seq<real>)
    ensures |row| == PoseComponents
    ensures forall i :: 0 <= i < PoseComponents ==> row[i] == Component(m, i)
  {
    [Component(m, 0), Component(m, 1), Component(m, 2), Component(m, 3),
     Component(m, 4), Component(m, 5), Component(m, 6)]
  }

  /** One field assignment `m.transform.<field> = v`. */
  function WithComponent(m: TransformStamped, i: nat, v: real): (r: TransformStamped)
    requires i < PoseComponents
    ensures Component(r, i) == v
    ensures forall j :: 0 <= j < PoseComponents && j != i ==> Component(r, j) == Component(m, j)
    ensures r.header == m.header && r.childFrameId == m.childFrameId
  {
    var t := m.transform;
    var tr := t.translation;
    var ro := t.rotation;
    var t' := match i
      case 0 => t.(translation := tr.(x := v))
      case 1 => t.(translation := tr.(y := v))
      case 2 => t.(translation := tr.(z := v))
      case 3 => t.(rotation := ro.(x := v))
      case 4 => t.(rotation := ro.(y := v))
      case 5 => t.(rotation := ro.(z := v))
      case _ => t.(rotation := ro.(w := v));
    m.(transform := t')
  }

  /** Python exceptions the modelled code can raise. */
  datatype Fault =
    | IndexError   // a list subscript past the end of the setpoint table or a row
    | NameError    // an unbound name

  /** The result of a call on the publisher object: `after` holds the object's
      fields when control leaves the call, normally or by an exception (field
      assignments made before a raise persist). */
  datatype Outcome<T> = Returned(after: T) | Raised(fault: Fault, after: T)
}
