/**
 * The callbacks both detection backends of `riparr.detection` fire: `on_insert(device)` and
 * `on_remove(device)`. A backend run is modelled by the sequence of callbacks it makes, in
 * order; what the callbacks do is the caller's business.
 */
module DiscEvents {
  import opened Lists

  datatype DiscEvent = Inserted(device: string) | Removed(device: string)

  /** The test for the events of one device. */
  function OfDevice(d: string): DiscEvent -> bool
  {
    (e: DiscEvent) => e.device == d
  }

  /** The callbacks made for device `d`, in order. */
  function ForDevice(es: seq<DiscEvent>, d: string): seq<DiscEvent>
  {
    Filter(es, OfDevice(d))
  }

  /** How many insert callbacks `es` holds. */
  function Inserts(es: seq<DiscEvent>): (n: nat)
    ensures n <= |es|
    ensures n == 0 <==> forall i :: 0 <= i < |es| ==> !es[i].Inserted?
    ensures n == |es| <==> forall i :: 0 <= i < |es| ==> es[i].Inserted?
  {
    if es == [] then 0 else Inserts(es[..|es| - 1]) + (if es[|es| - 1].Inserted? then 1 else 0)
  }
}
