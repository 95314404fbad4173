/** The on-screen geometry types of hmdriver2/proto.py. Only their shape is
    modelled: how a rectangle is parsed from text and how its centre is
    computed are collaborators of the core and are passed in as functions. */
module Proto {

  import opened Wrappers

  /** A screen rectangle: top-left corner, then bottom-right corner. */
  datatype Bounds = Bounds(left: int, top: int, right: int, bottom: int)

  /** A screen coordinate. */
  datatype Point = Point(x: int, y: int)

  /** An exception raised inside a collaborator that is not part of this
      model; the core lets it propagate unchanged. */
  datatype Raised = Raised

  /** `parse_bounds`: maps the optional `bounds` attribute of a node to a
      rectangle or to `None`, or raises. */
  type BoundsParser = Option<string> -> Result<Option<Bounds>, Raised>

  /** `Bounds.get_center`. */
  type CenterOf = Bounds -> Point
}
