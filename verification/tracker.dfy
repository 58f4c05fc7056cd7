/** Device discovery of the pose bridge: `find_first_tracker_index`. */
module Tracker {
  import opened Wrappers

  /** OpenVR's `ETrackedDeviceClass`. */
  datatype DeviceClass = Invalid | Hmd | Controller | GenericTracker | TrackingReference | DisplayRedirect

  /** OpenVR's `k_unMaxTrackedDeviceCount`. */
  const MaxTrackedDeviceCount: nat := 64

  /** The first index in `[from, MaxTrackedDeviceCount)` whose device class is
      a generic tracker, if any. */
  function FindTrackerFrom(classOf: nat -> DeviceClass, from: nat): (r: Option<nat>)
    requires from <= MaxTrackedDeviceCount
    ensures r.Some? ==> from <= r.value < MaxTrackedDeviceCount && classOf(r.value) == GenericTracker
    ensures r.Some? ==> forall j :: from <= j < r.value ==> classOf(j) != GenericTracker
    ensures r.None? <==> forall j :: from <= j < MaxTrackedDeviceCount ==> classOf(j) != GenericTracker
    decreases MaxTrackedDeviceCount - from
  {
    if from == MaxTrackedDeviceCount then None
    else if classOf(from) == GenericTracker then Some(from)
    else FindTrackerFrom(classOf, from + 1)
  }

  /** `find_first_tracker_index`: the smallest device index below the maximum
      device count whose class is a generic tracker; `None` exactly when no
      such index exists. `classOf` is `vr_sys.getTrackedDeviceClass`. */
  function FindFirstTracker(classOf: nat -> DeviceClass): (r: Option<nat>)
    ensures r.Some? ==> r.value < MaxTrackedDeviceCount && classOf(r.value) == GenericTracker
    ensures r.Some? ==> forall j :: 0 <= j < r.value ==> classOf(j) != GenericTracker
    ensures r.None? <==> forall j :: 0 <= j < MaxTrackedDeviceCount ==> classOf(j) != GenericTracker
  {
    FindTrackerFrom(classOf, 0)
  }
}
