/** The orientation of a contraption: angles in degrees about the three axes plus a second yaw.
    The composed rotation matrix is floating-point trigonometry and is not part of this model. */
module Rotation {

  datatype ContraptionRotationState = ContraptionRotationState(
    xRotation: real,
    yRotation: real,
    zRotation: real,
    secondYRotation: real)
  {
    /** Tilted out of the horizontal plane: a rotation about the x or the z axis. */
    predicate HasVerticalRotation()
      ensures HasVerticalRotation() ==> this != NoRotation && this.(yRotation := 0.0) != NoRotation
    {
      xRotation != 0.0 || zRotation != 0.0
    }

    /** The yaw added on top of the composed rotation. */
    function YawOffset(): (yaw: real)
    {
      secondYRotation
    }
  }

  /** The identity orientation. */
  const NoRotation := ContraptionRotationState(0.0, 0.0, 0.0, 0.0)

  /** Turning a contraption about the vertical axis never tilts it, and a tilt about either
      horizontal axis always does. */
  lemma VerticalRotationIgnoresYaw(s: ContraptionRotationState, yaw: real, secondYaw: real)
    ensures s.(yRotation := yaw, secondYRotation := secondYaw).HasVerticalRotation()
            == s.HasVerticalRotation()
    ensures !NoRotation.HasVerticalRotation()
    ensures s.xRotation != 0.0 ==> s.HasVerticalRotation()
    ensures s.zRotation != 0.0 ==> s.HasVerticalRotation()
    ensures s.xRotation == 0.0 && s.zRotation == 0.0 ==> !s.HasVerticalRotation()
  {
  }
}
