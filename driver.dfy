/** The automation driver seen from the core: the one hierarchy capture
    and the four device actions it forwards. The driver's transport is not
    part of this model; each request is recorded in a ghost log instead. */
module DeviceDriver {

  import opened Wrappers
  import opened Hierarchy

  /** One request sent to the device. */
  datatype Call =
    | DumpHierarchy
    | Click(x: int, y: int)
    | DoubleClick(x: int, y: int)
    | LongClick(x: int, y: int)
    | InputText(text: string)

  class Driver {
    /** What `dump_hierarchy` would report for the current screen; `None`
        when the capture yields nothing. */
    var screen: Option<Snapshot>
    /** Every request sent to the device so far, oldest first. */
    ghost var log: seq<Call>

    constructor (screen: Option<Snapshot>)
      ensures this.screen == screen && log == []
    {
      this.screen := screen;
      log := [];
    }

    method DumpHierarchy() returns (h: Option<Snapshot>)
      modifies this`log
      ensures h == screen
      ensures log == old(log) + [Call.DumpHierarchy]
    {
      h := screen;
      log := log + [Call.DumpHierarchy];
    }

    method Click(x: int, y: int)
      modifies this`log
      ensures log == old(log) + [Call.Click(x, y)]
    {
      log := log + [Call.Click(x, y)];
    }

    method DoubleClick(x: int, y: int)
      modifies this`log
      ensures log == old(log) + [Call.DoubleClick(x, y)]
    {
      log := log + [Call.DoubleClick(x, y)];
    }

    method LongClick(x: int, y: int)
      modifies this`log
      ensures log == old(log) + [Call.LongClick(x, y)]
    {
      log := log + [Call.LongClick(x, y)];
    }

    method InputText(text: string)
      modifies this`log
      ensures log == old(log) + [Call.InputText(text)]
    {
      log := log + [Call.InputText(text)];
    }
  }
}
