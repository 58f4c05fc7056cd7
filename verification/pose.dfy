/** The pose bridge: the `latest_pose_data` record written by the tracker
    thread, and the `/pose` GET handler that reads it.

    The OpenVR session is a `Session` value describing what the hardware did;
    `Rotation.from_matrix(...).as_quat()` is the parameter `fromMatrix`.
    Matrix entries are only copied, so they have an opaque type `T`. */
module PoseBridge {
  import opened Wrappers
  import opened Text
  import opened Tracker
  import opened Url

  type Matrix<T> = seq<seq<T>>

  /** `latest_pose_data`. */
  datatype PoseState<T> = PoseState(timestamp: real, matrix: Option<Matrix<T>>, isValid: bool, serial: string)

  /** The record before the tracker thread writes anything: time 0, nothing
      the handler would serve, and no serial to report. */
  function Initial<T>(): (r: PoseState<T>)
    ensures r.timestamp == 0.0 && !Servable(r) && r.serial == ""
    ensures r.matrix.None? && !r.isValid
  {
    PoseState(0.0, None, false, "")
  }

  /** One poll: the time read before the query, the tracker's
      `mDeviceToAbsoluteTracking` rows and its `bPoseIsValid`. */
  datatype Sample<T> = Sample(time: real, matrix: Matrix<T>, valid: bool)

  /** A poll tick writes timestamp, matrix and validity together. */
  function Tick<T>(s: PoseState<T>, sample: Sample<T>): (r: PoseState<T>)
    ensures r.timestamp == sample.time && r.matrix == Some(sample.matrix) && r.isValid == sample.valid
    ensures r.serial == s.serial
  {
    s.(timestamp := sample.time, matrix := Some(sample.matrix), isValid := sample.valid)
  }

  /** The serial is recorded once the tracker has been found. */
  function SetSerial<T>(s: PoseState<T>, serial: string): (r: PoseState<T>)
    ensures r.serial == serial
    ensures r.timestamp == s.timestamp && r.matrix == s.matrix && r.isValid == s.isValid
  {
    s.(serial := serial)
  }

  /** Every failure path clears the validity flag and nothing else. */
  function MarkInvalid<T>(s: PoseState<T>): (r: PoseState<T>)
    ensures r.timestamp == s.timestamp && r.matrix == s.matrix && r.serial == s.serial
    ensures !r.isValid
  {
    s.(isValid := false)
  }

  /** The exceptions `ViveTrackerThread.run` catches. */
  datatype Fault = OpenVRError(message: string) | UnexpectedError(message: string)

  /** How the polling loop ended: the shutdown event, or an exception. */
  datatype Stop = Shutdown | Crashed(fault: Fault)

  /** What the hardware did during one run of the tracker thread: whether
      `openvr.init`/`VRSystem` raised, the device classes, the serial property
      read, the polls completed before the loop stopped, and how it stopped. */
  datatype Session<T> = Session(
    startup: Option<Fault>,
    classOf: nat -> DeviceClass,
    serial: Result<string, Fault>,
    samples: seq<Sample<T>>,
    stop: Stop)

  /** `s` followed by the record after each of `samples` in turn. */
  function Poll<T>(s: PoseState<T>, samples: seq<Sample<T>>): (r: seq<PoseState<T>>)
    ensures |r| == |samples| + 1 && r[0] == s
    ensures forall i :: 0 <= i < |samples| ==> r[i + 1] == Tick(r[i], samples[i])
    decreases |samples|
  {
    if |samples| == 0 then [s] else [s] + Poll(Tick(s, samples[0]), samples[1..])
  }

  /** The tracker thread found a tracker and read its serial. */
  predicate Discovered<T>(session: Session<T>)
  {
    session.startup.None? && FindFirstTracker(session.classOf).Some? && session.serial.Success?
  }

  /** `ViveTrackerThread.run`: the successive values of `latest_pose_data`,
      one per locked write, starting from `s0`. */
  function Run<T>(s0: PoseState<T>, session: Session<T>): (trace: seq<PoseState<T>>)
    ensures |trace| >= 2 && trace[0] == s0
    ensures !Discovered(session) ==> trace == [s0, MarkInvalid(s0)]
    ensures Discovered(session) ==>
      |trace| == |session.samples| + 2 + (if session.stop.Crashed? then 1 else 0)
    ensures Discovered(session) ==> trace[1] == SetSerial(s0, session.serial.value)
    ensures Discovered(session) ==>
      forall i :: 0 <= i < |session.samples| ==> trace[i + 2] == Tick(trace[i + 1], session.samples[i])
    ensures Discovered(session) && session.stop.Crashed? ==>
      trace[|trace| - 1] == MarkInvalid(trace[|trace| - 2])
    ensures Discovered(session) && session.stop.Shutdown? ==>
      trace[|trace| - 1] == Poll(SetSerial(s0, session.serial.value), session.samples)[|session.samples|]
  {
    if !Discovered(session) then [s0, MarkInvalid(s0)]
    else
      var polled := Poll(SetSerial(s0, session.serial.value), session.samples);
      var last := polled[|polled| - 1];
      [s0] + polled + (if session.stop.Crashed? then [MarkInvalid(last)] else [])
  }

  /** One locked write of the tracker thread. */
  ghost predicate IsWrite<T>(before: PoseState<T>, after: PoseState<T>)
  {
    || (after.matrix.Some? && after == Tick(before, Sample(after.timestamp, after.matrix.value, after.isValid)))
    || after == SetSerial(before, after.serial)
    || after == MarkInvalid(before)
  }

  lemma {:induction false} PollSerial<T>(s: PoseState<T>, samples: seq<Sample<T>>)
    ensures forall i :: 0 <= i < |Poll(s, samples)| ==> Poll(s, samples)[i].serial == s.serial
    decreases |samples|
  {
    if |samples| > 0 {
      PollSerial(Tick(s, samples[0]), samples[1..]);
    }
  }

  /** The record changes only through the three writes: a poll tick, setting
      the serial, and marking it invalid. */
  lemma RunOnlyWrites<T>(s0: PoseState<T>, session: Session<T>)
    ensures var trace := Run(s0, session);
      forall i :: 0 < i < |trace| ==> IsWrite(trace[i - 1], trace[i])
  {
    var trace := Run(s0, session);
    if Discovered(session) {
      var s1 := SetSerial(s0, session.serial.value);
      var polled := Poll(s1, session.samples);
      assert trace[1] == s1;
      forall i | 1 < i <= |polled|
        ensures IsWrite(trace[i - 1], trace[i])
      {
        assert trace[i] == polled[i - 1] == Tick(polled[i - 2], session.samples[i - 2]);
      }
    }
  }

  /** The serial is written once, right after discovery: every later record
      carries the same serial, which is the tracker's when discovery
      succeeded and the initial one otherwise. */
  lemma RunSerialWrittenOnce<T>(s0: PoseState<T>, session: Session<T>)
    ensures var trace := Run(s0, session);
      && trace[1].serial == (if Discovered(session) then session.serial.value else s0.serial)
      && forall i :: 1 <= i < |trace| ==> trace[i].serial == trace[1].serial
  {
    if Discovered(session) {
      PollSerial(SetSerial(s0, session.serial.value), session.samples);
    }
  }

  /** A run that fails — at startup, for want of a tracker, reading the
      serial, or in the loop — leaves the record invalid, with the timestamp
      and matrix of the record before the failure. */
  lemma RunFailureInvalidates<T>(s0: PoseState<T>, session: Session<T>)
    requires !Discovered(session) || session.stop.Crashed?
    ensures var trace := Run(s0, session);
      var last := trace[|trace| - 1];
      var before := trace[|trace| - 2];
      && !last.isValid
      && last.timestamp == before.timestamp && last.matrix == before.matrix && last.serial == before.serial
  {
  }

  /** A run stopped by the shutdown event after at least one poll leaves the
      last poll's time, matrix and validity in the record. */
  lemma RunShutdownKeepsLastPoll<T>(s0: PoseState<T>, session: Session<T>)
    requires Discovered(session) && session.stop.Shutdown? && |session.samples| > 0
    ensures var last := Run(s0, session)[|Run(s0, session)| - 1];
      var sample := session.samples[|session.samples| - 1];
      && last.timestamp == sample.time && last.matrix == Some(sample.matrix)
      && last.isValid == sample.valid && last.serial == session.serial.value
  {
    var polled := Poll(SetSerial(s0, session.serial.value), session.samples);
    PollSerial(SetSerial(s0, session.serial.value), session.samples);
    assert polled[|polled| - 1] == Tick(polled[|polled| - 2], session.samples[|session.samples| - 1]);
  }

  // ---------------------------------------------------------------------------
  // The `/pose` handler
  // ---------------------------------------------------------------------------

  datatype Vec3<T> = Vec3(x: T, y: T, z: T)

  /** SciPy's `as_quat` order: vector part first, scalar last. */
  datatype ScalarLastQuat<T> = Xyzw(x: T, y: T, z: T, w: T)

  /** The wire order of the reply: scalar first. */
  datatype WireQuat<T> = Wxyz(w: T, x: T, y: T, z: T)

  /** The reply's reordering of the converter's output. */
  function ToWire<T>(q: ScalarLastQuat<T>): (r: WireQuat<T>)
    ensures FromWire(r) == q
  {
    Wxyz(q.w, q.x, q.y, q.z)
  }

  /** The converse reordering: a client rebuilding SciPy's order. */
  function FromWire<T>(q: WireQuat<T>): (r: ScalarLastQuat<T>)
  {
    Xyzw(q.x, q.y, q.z, q.w)
  }

  /** Reordering is a bijection: no component is lost or duplicated. */
  lemma WireOrderIsBijection<T>(q: WireQuat<T>, p: ScalarLastQuat<T>)
    ensures ToWire(FromWire(q)) == q
    ensures ToWire(p) == q <==> p == FromWire(q)
  {
  }

  /** The JSON payload of a reply. */
  datatype Body<T> =
    | PoseBody(timestamp: real, position: Vec3<T>, rotation: WireQuat<T>, serial: string)
    | ErrorBody(error: string, knownSerial: Option<string>)
    | FaultBody(error: string, details: string)
    | TextBody(text: string)

  datatype Response<T> = Response(status: int, contentType: string, body: Body<T>)

  const PoseRoute := "/pose"
  const UnavailableMessage := "Tracker pose not available or invalid"
  const FaultMessage := "Internal server error processing pose data"
  const NotFoundText := "Endpoint not found. Use /pose"
  const IndexErrorMessage := "list index out of range"

  /** The rows and columns the handler indexes: `m[0][3]`, `m[1][3]`, `m[2][3]`. */
  predicate HasPoseShape<T>(m: Matrix<T>)
  {
    |m| >= 3 && |m[0]| >= 4 && |m[1]| >= 4 && |m[2]| >= 4
  }

  /** The translation column of the 3x4 pose matrix. */
  function Position<T>(m: Matrix<T>): Vec3<T>
    requires HasPoseShape(m)
  {
    Vec3(m[0][3], m[1][3], m[2][3])
  }

  /** `[row[:3] for row in pose_matrix[:3]]`. */
  function RotationBlock<T>(m: Matrix<T>): (r: Matrix<T>)
    requires HasPoseShape(m)
    ensures |r| == 3 && forall i :: 0 <= i < 3 ==> r[i] == m[i][..3]
  {
    [m[0][..3], m[1][..3], m[2][..3]]
  }

  /** The record holds a pose the handler will try to serve. */
  predicate Servable<T>(s: PoseState<T>)
  {
    s.isValid && s.matrix.Some? && |s.matrix.value| > 0
  }

  /** The reply of `do_GET` once the routed path is known, with `snap` the
      record as read under the lock. */
  function Respond<T>(path: string, snap: PoseState<T>,
                      fromMatrix: Matrix<T> -> Result<ScalarLastQuat<T>, string>): (r: Response<T>)
    ensures path != PoseRoute ==> r == Response(404, "text/plain", TextBody(NotFoundText))
    ensures r.status == 200 ==>
      && path == PoseRoute && Servable(snap) && HasPoseShape(snap.matrix.value)
      && fromMatrix(RotationBlock(snap.matrix.value)).Success?
      && r == Response(200, "application/json",
                       PoseBody(snap.timestamp, Position(snap.matrix.value),
                                ToWire(fromMatrix(RotationBlock(snap.matrix.value)).value), snap.serial))
    ensures path == PoseRoute && !Servable(snap) ==>
      r == Response(404, "application/json",
                    ErrorBody(UnavailableMessage, if snap.serial == "" then None else Some(snap.serial)))
    ensures path == PoseRoute && Servable(snap) ==>
      (r.status == 200 <==>
         HasPoseShape(snap.matrix.value) && fromMatrix(RotationBlock(snap.matrix.value)).Success?)
    ensures path == PoseRoute && Servable(snap) && !HasPoseShape(snap.matrix.value) ==>
      r == Response(500, "application/json", FaultBody(FaultMessage, IndexErrorMessage))
    ensures (&& path == PoseRoute && Servable(snap) && HasPoseShape(snap.matrix.value)
             && fromMatrix(RotationBlock(snap.matrix.value)).Failure?) ==>
      r == Response(500, "application/json",
                    FaultBody(FaultMessage, fromMatrix(RotationBlock(snap.matrix.value)).error))
    ensures r.status == 500 <==> r.body.FaultBody?
  {
    if path != PoseRoute then Response(404, "text/plain", TextBody(NotFoundText))
    else if Servable(snap) then
      var m := snap.matrix.value;
      if !HasPoseShape(m) then Response(500, "application/json", FaultBody(FaultMessage, IndexErrorMessage))
      else
        match fromMatrix(RotationBlock(m))
        case Failure(e) => Response(500, "application/json", FaultBody(FaultMessage, e))
        case Success(q) =>
          Response(200, "application/json", PoseBody(snap.timestamp, Position(m), ToWire(q), snap.serial))
    else
      Response(404, "application/json",
               ErrorBody(UnavailableMessage, if |snap.serial| > 0 then Some(snap.serial) else None))
  }

  /** `do_GET`: the reply depends on the target only through its `urlparse`
      path; `None` when `urlparse` raises and no reply is written. */
  function Get<T>(target: string, snap: PoseState<T>,
                  fromMatrix: Matrix<T> -> Result<ScalarLastQuat<T>, string>): Option<Response<T>>
  {
    match RequestPath(target)
    case None => None
    case Some(path) => Some(Respond(path, snap, fromMatrix))
  }

  lemma PoseRouteIsPlain()
    ensures PlainPath(PoseRoute)
  {
    assert PoseRoute[1] == 'p';
  }

  /** Before the tracker thread writes anything, `/pose` is a 404 without a
      serial. */
  lemma InitialPoseUnavailable<T>(fromMatrix: Matrix<T> -> Result<ScalarLastQuat<T>, string>)
    ensures Get(PoseRoute, Initial<T>(), fromMatrix) ==
      Some(Response(404, "application/json", ErrorBody(UnavailableMessage, None)))
  {
    PoseRouteIsPlain();
    PlainPathRoutesToItself(PoseRoute);
  }

  /** A query string or fragment after `/pose` changes nothing in the reply. */
  lemma QueryIgnored<T>(rest: string, snap: PoseState<T>,
                        fromMatrix: Matrix<T> -> Result<ScalarLastQuat<T>, string>)
    requires Suffix(rest)
    ensures Get(PoseRoute + rest, snap, fromMatrix) == Get(PoseRoute, snap, fromMatrix)
  {
    PoseRouteIsPlain();
    QueryAndFragmentIgnored(PoseRoute, rest);
    PlainPathRoutesToItself(PoseRoute);
  }

  /** `;params` after `/pose` are dropped by `urlparse`: `/pose;v=1` is
      answered like `/pose`. */
  lemma ParamsOnRouteIgnored<T>(params: string, snap: PoseState<T>,
                                fromMatrix: Matrix<T> -> Result<ScalarLastQuat<T>, string>)
    requires PlainParams(params)
    ensures Get(PoseRoute + ";" + params, snap, fromMatrix) == Get(PoseRoute, snap, fromMatrix)
  {
    PoseRouteIsPlain();
    ParamsIgnored(PoseRoute, params);
    PlainPathRoutesToItself(PoseRoute);
  }

  /** An absolute target whose network location opens `[` without closing
      it makes `urlparse` raise, and no reply is written. */
  lemma UnmatchedBracketNoReply<T>(host: string, snap: PoseState<T>,
                                   fromMatrix: Matrix<T> -> Result<ScalarLastQuat<T>, string>)
    requires forall i :: 0 <= i < |host| ==> host[i] !in {'/', '?', '#', ']', '\t', '\r', '\n'}
    ensures Get("http://[" + host + PoseRoute, snap, fromMatrix) == None
  {
    PoseRouteIsPlain();
    UnmatchedBracketRaises(host, PoseRoute);
  }

  /** After a tick with a valid, well-shaped matrix whose rotation converts,
      `/pose` serves column 3 as the position, the converter's quaternion
      reordered to w, x, y, z, the tick's time and the recorded serial. */
  lemma TickThenGet<T>(s: PoseState<T>, sample: Sample<T>,
                       fromMatrix: Matrix<T> -> Result<ScalarLastQuat<T>, string>)
    requires sample.valid && HasPoseShape(sample.matrix)
    requires fromMatrix(RotationBlock(sample.matrix)).Success?
    ensures var q := fromMatrix(RotationBlock(sample.matrix)).value;
      var m := sample.matrix;
      Get(PoseRoute, Tick(s, sample), fromMatrix) ==
        Some(Response(200, "application/json",
          PoseBody(sample.time, Vec3(m[0][3], m[1][3], m[2][3]), Wxyz(q.w, q.x, q.y, q.z), s.serial)))
  {
    PoseRouteIsPlain();
    PlainPathRoutesToItself(PoseRoute);
  }

  /** When the tracker thread gives up, `/pose` answers 404 from then on,
      naming the serial exactly when one was recorded. */
  lemma FailedRunUnavailable<T>(s0: PoseState<T>, session: Session<T>,
                                fromMatrix: Matrix<T> -> Result<ScalarLastQuat<T>, string>)
    requires !Discovered(session) || session.stop.Crashed?
    ensures var trace := Run(s0, session);
      var last := trace[|trace| - 1];
      Get(PoseRoute, last, fromMatrix) ==
        Some(Response(404, "application/json",
          ErrorBody(UnavailableMessage,
            if Discovered(session) && session.serial.value != "" then Some(session.serial.value)
            else if !Discovered(session) && s0.serial != "" then Some(s0.serial)
            else None)))
  {
    PoseRouteIsPlain();
    PlainPathRoutesToItself(PoseRoute);
    RunFailureInvalidates(s0, session);
    RunSerialWrittenOnce(s0, session);
  }
}
