/** Resolving a device path to an open capture device. */
module Devices {
  import opened Wrappers
  import opened Errors

  /**
   A filesystem path as its sequence of components; Rust compares paths
   component by component, so this is the equality the lookup uses.
   */
  datatype Path = Path(components: seq<string>)

  /** An enumerated device node: its path and its device index. */
  datatype Node = Node(path: Path, index: nat)

  /** `find`: the position of the first node whose path equals `path`. */
  function FindFirst(nodes: seq<Node>, path: Path): (r: Option<nat>)
    ensures r.None? <==> forall i :: 0 <= i < |nodes| ==> nodes[i].path != path
    ensures r.Some? ==> r.value < |nodes| && nodes[r.value].path == path
    ensures r.Some? ==> forall j :: 0 <= j < r.value ==> nodes[j].path != path
    decreases |nodes|
  {
    if |nodes| == 0 then None
    else if nodes[0].path == path then Some(0)
    else
      match FindFirst(nodes[1..], path)
      case None => None
      case Some(i) => Some(i + 1)
  }

  /** A lookup outcome and the device index opened, if any. */
  datatype Lookup<H> = Lookup(result: Result<H, DeviceError>, openedIndex: Option<nat>)

  /**
   `get_device`: `DeviceNotFound` exactly when no node has the path, and then nothing
   is opened; otherwise the first matching node's index is opened, and an open
   failure becomes `CouldNotOpen` with its cause.
   */
  function GetDevice<H>(nodes: seq<Node>, path: Path, open: nat -> Result<H, IoError>): (r: Lookup<H>)
    ensures (r.result.Failure? && r.result.error == DeviceNotFound) <==>
      forall n :: n in nodes ==> n.path != path
    ensures r.openedIndex.None? <==> forall n :: n in nodes ==> n.path != path
    ensures r.openedIndex.Some? ==> exists i ::
      && 0 <= i < |nodes| && nodes[i].path == path
      && (forall j :: 0 <= j < i ==> nodes[j].path != path)
      && r.openedIndex == Some(nodes[i].index)
    ensures r.openedIndex.Some? ==> open(r.openedIndex.value).Success? ==>
      r.result == Success(open(r.openedIndex.value).value)
    ensures r.openedIndex.Some? ==> open(r.openedIndex.value).Failure? ==>
      r.result == Failure(CouldNotOpen(open(r.openedIndex.value).error))
  {
    match FindFirst(nodes, path)
    case None => Lookup(Failure(DeviceNotFound), None)
    case Some(i) =>
      var index := nodes[i].index;
      match open(index)
      case Success(dev) => Lookup(Success(dev), Some(index))
      case Failure(e) => Lookup(Failure(CouldNotOpen(e)), Some(index))
  }
}
