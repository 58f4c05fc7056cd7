# Latest-value sensor bridges — a Dafny model

This project models the decision logic of two "latest-value" sensor bridges and one small feature-record helper:

- **Capture bridge** (`custom_classes/server.py`, `ImageServer`). A `/capture` POST carries a frame, either as a multipart file or as a raw `image/*` body, plus an optional `X-Metadata` JSON header. As written, the handler's class test refuses every multipart upload (see "## Findings"). That branch as written is `PayloadAsWritten`. The rest of the capture model uses the corrected test `IsUpload`, which reads the upload. The handler decodes the frame, stamps the metadata with the server's receipt time under `epoch`, and publishes the pair into a single-slot mailbox. A later publish overwrites the earlier one. `get_next_image` empties the slot and clears the ready event. In the model the mailbox is the value `Mailbox(slot, ready)`, and every operation is a pure function from the old mailbox to a reply and a new mailbox.
- **Pose bridge** (`scripts/htc_vive/server.py`). A tracker thread finds the first OpenVR generic tracker, records its serial, and overwrites `latest_pose_data` on every poll. It marks the record invalid on every failure path. The `/pose` GET handler routes on the `urlparse` path of the request target. It answers 200 with the position (column 3 of the pose matrix) and the rotation quaternion reordered from SciPy's x, y, z, w to w, x, y, z. Otherwise it answers 404 (with the serial when one is known), 500 when the stored matrix cannot be converted, or a plain-text 404 for any other path. The thread's run is the value `Run(s0, session)`: the sequence of records it writes, for a `Session` that says what the hardware did.
- **FeatureLogger** (`custom_classes/experiment.py`): the dataclass defaults, the keyed `update` and the `get_features` projection. Also the plot gate (`enabled` and `step % plot_frequency == 0`) and the curvature extraction of `run_episode_steps`.

The following external capabilities are parameters of the model:

- image decoding (`Image.open` and `np.array`), the channel mean of `get_next_image`, and `Rotation.from_matrix(...).as_quat()`. Each may raise, so each returns a `Result` whose failure carries the exception's message.
- `json.loads`. It has three outcomes (`Parsed`, `Malformed` for a `JSONDecodeError`, and `Raised` for any other exception), because the handler treats a decode error differently from other exceptions.
- `getTrackedDeviceClass`. It is a total function from device index to class, because the model does not let it fail.

Position and quaternion values are only copied or permuted, so their type is a parameter `T`.

Files: `wrappers.dfy` (Option/Result), `text.dfy` (the `str` operations used), `json.dfy` (JSON values and Python's item-assignment errors), `capture.dfy`, `tracker.dfy`, `url.dfy` (the request path as `http.server` and `urllib.parse.urlparse` compute it, Python 3.11.4 and later), `pose.dfy` and `features.dfy`.

## Model

| member | source | states |
|---|---|---|
| CaptureBridge.Init | custom_classes/server.py:16-20 | A new server has no frame and a clear event, so "event set iff a frame is waiting" holds at the start. |
| CaptureBridge.PayloadAsWritten | custom_classes/server.py:43-49 | For a multipart request, a form that fails to parse gives its error. The `file` field's contents are read only when it is FastAPI's `UploadFile`; anything else gives "No file uploaded". |
| CaptureBridge.StarletteUploadRefusedAsWritten | custom_classes/server.py:44-49 | A multipart upload of the class `request.form()` builds is refused with "No file uploaded" as written, and read by the corrected test. |
| CaptureBridge.Payload | custom_classes/server.py:40-63 | Uses the corrected class test `IsUpload`; the code as written is `PayloadAsWritten`. The bytes to decode are chosen on the lowered content type. Multipart: a form error gives its message, an uploaded `file` field gives its contents, and anything else gives "No file uploaded". `image/*`: the body itself, or "No image data in request body" when it is empty. Any other type: "Unsupported content type: " followed by the lowered type. |
| CaptureBridge.ParsedMetadata | custom_classes/server.py:68-80 | Metadata is parsed only when `x-metadata` is non-empty and `x-metadata-content-type` is exactly `application/json`; otherwise it is the empty dict. Invalid JSON becomes `{"error": "Invalid X-Metadata format", "raw": header}`. Any other parser exception propagates to the error reply. |
| CaptureBridge.Stamp | custom_classes/server.py:82 | Stamping succeeds exactly for a dict. The result has the parsed keys plus `epoch`, `epoch` is the receipt time (overriding any sent value), and every other key keeps its value. |
| CaptureBridge.Accept | custom_classes/server.py:36-91 | Uses the corrected class test `IsUpload` through `Payload`, so a multipart upload is accepted where the code as written refuses it. A request is accepted exactly when the payload is read, decodes, and its metadata parses to a dict. Each error case gives its exact message: the unsupported lowered content type, the form's error, "No file uploaded", "No image data in request body", the decoder's error, a non-decode exception of the JSON parser, and Python's item-assignment `TypeError` for metadata that is not a dict. An accepted frame carries the decoded payload and the parsed keys, with `epoch` set to the receipt time. |
| CaptureBridge.Capture | custom_classes/server.py:84-91 | Uses the corrected class test `IsUpload` through `Accept`. The reply is a success exactly when the request is accepted, and then the accepted frame replaces the slot. An error reply carries the message of the failure and leaves the mailbox unchanged. The event/slot invariant is preserved. |
| CaptureBridge.Publish | custom_classes/server.py:84-86 | Publishing puts the frame in the slot and sets the event, so the invariant holds afterwards. |
| CaptureBridge.Take | custom_classes/server.py:110-116 | With the event set, taking returns the stored metadata and the reduced stored image. Afterwards the slot is empty and the event is clear, even when the reduction raises, and the failure carries the reduction's message. |
| CaptureBridge.ReplayKeepsValid | custom_classes/server.py:84-115 | The invariant "event set iff a frame is waiting" holds after any interleaving of captures and takes that starts from a valid mailbox. |
| CaptureBridge.LatestWins | custom_classes/server.py:84-86 | After a run of POSTs with no take, the slot holds the frame of the last accepted POST and the event is set. All earlier frames are dropped. |
| CaptureBridge.RejectedPostsChangeNothing | custom_classes/server.py:39-91 | A run of rejected POSTs leaves the mailbox exactly as it was. |
| CaptureBridge.CaptureThenTake | custom_classes/server.py:82-116 | A take after a successful capture returns that capture's metadata, with `epoch` equal to its receipt time, and empties the mailbox. |
| CaptureBridge.ContentTypeCaseInsensitive | custom_classes/server.py:41-50 | Lowering the `content-type` header first changes nothing: dispatch is case-insensitive. |
| CaptureBridge.PlainTextRefused | custom_classes/server.py:58-63 | A `text/plain` POST gets "Unsupported content type: text/plain" and publishes nothing. |
| Tracker.FindTrackerFrom | scripts/htc_vive/server.py:37-42 | The search from a given index returns the first generic-tracker index below the device maximum, or None exactly when there is none. |
| Tracker.FindFirstTracker | scripts/htc_vive/server.py:33-42 | Returns the smallest index below `k_unMaxTrackedDeviceCount` whose class is GenericTracker, or None exactly when no index has that class. |
| PoseBridge.Initial | scripts/htc_vive/server.py:20-25 | The record starts at time 0 with no matrix, invalid, and with an empty serial, so nothing is servable. |
| PoseBridge.Tick | scripts/htc_vive/server.py:91-94 | A poll tick sets timestamp, matrix and validity together from the poll, and keeps the serial. |
| PoseBridge.SetSerial | scripts/htc_vive/server.py:74-75 | Recording the serial sets it and changes no other field. |
| PoseBridge.MarkInvalid | scripts/htc_vive/server.py:66-68 | A failure path clears `is_valid` and changes no other field. |
| PoseBridge.Poll | scripts/htc_vive/server.py:77-106 | The polling loop writes one record per completed poll, each the previous record after that poll's tick. |
| PoseBridge.Run | scripts/htc_vive/server.py:53-118 | Without a started session, a tracker and its serial, the run writes only an invalidation. Otherwise it writes the serial, then one tick per completed poll, each applied to the previous record, and one final invalidation exactly when the loop crashed. After a shutdown the last record is the last poll's. |
| PoseBridge.RunOnlyWrites | scripts/htc_vive/server.py:53-118 | In every run of the tracker thread, each change of the record is a poll tick, the serial write or an invalidation. |
| PoseBridge.RunSerialWrittenOnce | scripts/htc_vive/server.py:70-75 | The serial is written once, right after discovery. Every later record keeps it. It is the tracker's serial when discovery succeeded, and the initial serial otherwise. |
| PoseBridge.RunFailureInvalidates | scripts/htc_vive/server.py:61-118 | Each failure leaves the last record invalid, with the timestamp, matrix and serial it had before. The failures are: a startup error, no tracker, a serial read error, and an exception in the loop. |
| PoseBridge.RunShutdownKeepsLastPoll | scripts/htc_vive/server.py:77-94 | A run stopped by shutdown leaves the last poll's time, matrix and validity, plus the discovered serial. |
| PoseBridge.ToWire | scripts/htc_vive/server.py:188-195 | The wire quaternion is a pure reordering of the converter's x, y, z, w output: reordering back recovers it. |
| PoseBridge.RotationBlock | scripts/htc_vive/server.py:186 | The rotation block is the first three entries of each of the first three rows. |
| PoseBridge.Respond | scripts/htc_vive/server.py:151-238 | Any path other than `/pose` gives 404 text "Endpoint not found. Use /pose". A record that is invalid or has no matrix gives 404 "Tracker pose not available or invalid", with `serial_number` exactly when the serial is non-empty. A 200 happens exactly when the matrix has the indexed shape and converts. It carries the stored timestamp and serial, position `m[0][3], m[1][3], m[2][3]`, and the reordered quaternion. A matrix too small to index gives a 500 fault whose details are "list index out of range". A conversion failure gives a 500 fault whose details are the converter's message. |
| PoseBridge.InitialPoseUnavailable | scripts/htc_vive/server.py:224-232 | Before the tracker thread writes anything, `/pose` answers 404 without a serial. |
| PoseBridge.QueryIgnored | scripts/htc_vive/server.py:168-170 | A query string (such as `?epoch=`) or fragment after `/pose` does not change the reply. |
| PoseBridge.ParamsOnRouteIgnored | scripts/htc_vive/server.py:149-151 | `;params` after `/pose` (`/pose;v=1`) are dropped by `urlparse`, so the reply is the one for `/pose`. |
| PoseBridge.UnmatchedBracketNoReply | scripts/htc_vive/server.py:149 | A target such as `http://[x/pose` makes `urlparse` raise `ValueError`, and no reply is written. |
| PoseBridge.TickThenGet | scripts/htc_vive/server.py:177-206 | After a valid, well-shaped tick whose rotation converts, `/pose` serves the tick's time, column 3 as position, `w=q[3], x=q[0], y=q[1], z=q[2]`, and the recorded serial. |
| PoseBridge.FailedRunUnavailable | scripts/htc_vive/server.py:224-232 | Once the tracker thread gives up, `/pose` answers 404, naming the serial exactly when a non-empty one was recorded. |
| Url.QueryAndFragmentIgnored | scripts/htc_vive/server.py:149 | For a plain origin-form path followed by nothing, a query or a fragment, the routed path is that path. |
| Url.ParamsIgnored | scripts/htc_vive/server.py:149 | For a plain path followed by `;` and parameters that stay in the last segment, the routed path is the plain path. |
| Url.UnmatchedBracketRaises | scripts/htc_vive/server.py:149 | An `http` target whose network location opens `[` without closing it routes no path, because `urlsplit` raises. |
| Url.DoubleSlashCollapsed | scripts/htc_vive/server.py:149 | A target written as `//` followed by a plain path (such as `//pose`) routes to the plain path, because `http.server` first collapses the leading slashes while keeping the rest of the target. |
| Url.UrlParsePath | scripts/htc_vive/server.py:149 | `urlparse(...).path` exists exactly when `urlsplit` does not raise. It is a prefix of the split path. It is the whole split path when the scheme takes no params or the path has no `;`. Otherwise it is cut at the first `;` after the last `/`, when there is one: a `;` kept in the result always has a `/` after it. |
| Features.NewLogger | custom_classes/experiment.py:17-22 | A new logger has `column_points` `[]`, `mean_depth` `0.0`, and None in the other four fields. |
| Features.Update | custom_classes/experiment.py:24-28 | Each field named by a keyword takes that keyword's value. Every other field keeps its value. |
| Features.UpdateIgnoresUnknownKeys | custom_classes/experiment.py:24-28 | Keywords that name no field leave the logger unchanged. |
| Features.UpdateLaterWins | custom_classes/experiment.py:24-28 | Two updates equal one update with the merged keywords, where the later value wins. Repeating an update changes nothing. |
| Features.GetFeatures | custom_classes/experiment.py:30-43 | Returns exactly the six field keys. `column_points`, `center_edge`, `fitted_circle` and `mean_depth` pass through. `point_normal` is wrapped in a one-element list (so `[None]` when absent). `[0, 0]` replaces absent principal curvatures; otherwise the stored value is returned. |
| Features.NewLoggerFeatures | custom_classes/experiment.py:17-43 | A fresh logger reports `[]`, None, None, `[None]`, `[0, 0]` and `0.0`. |
| Features.UpdateThenGetFeatures | custom_classes/experiment.py:24-43 | After an update, `get_features` reports the updated value of each pass-through field. |
| Features.Curvature | custom_classes/experiment.py:93-97 | The curvature is 0 when the entry is absent or None, and the first entry when the entry is a non-empty list. The extraction raises exactly when the entry is present and not None but is an empty list or not a list. |
| Features.CurvatureOfLogger | custom_classes/experiment.py:30-43 | A composition the episode loop does not make (it reads the sensor module's `plotting_data`, line 84): were the features a logger's `get_features()`, the curvature would be 0 for a logger without principal curvatures and their first entry for a non-empty list. |
| Features.PyMod | custom_classes/experiment.py:72 | Python's `%` takes the sign of the divisor and is zero exactly when the divisor divides the dividend. |
| Features.PlotGate | custom_classes/experiment.py:69-73 | Step `s` plots exactly when a config exists, `enabled` is true, the frequency (default 1) is non-zero and divides `s`. The modulo raises only when plotting is enabled with frequency 0. |
| Features.PlotGateEvery | custom_classes/experiment.py:69-73 | With a positive frequency `n`, an enabled gate opens at `s` exactly when `s % n == 0`. With no frequency it opens at every step. |

## Left out

- CaptureBridge.Accept: with `Payload`, `Capture` and the replay lemmas, it uses the corrected upload class test. The code as written refuses multipart uploads with "No file uploaded", and only `PayloadAsWritten` models that.
- Features.CurvatureOfLogger: the episode loop reads the curvature from `sensor_module.plotting_data`. Its producer is not part of this model, so the link to `FeatureLogger` is hypothetical.

- Threads, the locks, `threading.Event` blocking, daemon threads, `atexit`, join timeouts and shutdown ordering are not modelled. `Take` requires the event to be set instead of waiting. In `Replay`, a consumer that finds the event clear leaves the mailbox unchanged.
- `do_GET` reads `serial_number` outside the lock (lines 204 and 230). The model reads it from the same snapshot as the other fields.
- FastAPI/uvicorn startup, `start`/`stop`, CORS middleware, `do_OPTIONS`, response headers, `json.dumps` and the log prints are not modelled. Only status, content type and payload are kept.
- PIL decoding, `json.loads`, `np.mean(..., axis=2)` and SciPy's rotation conversion are parameters. Their numerics (floating point, channel averaging, quaternion maths) are not modelled.
- The OpenVR session (`init`, `getDeviceToAbsoluteTrackingPose`, `shutdown` in `finally`) and the 10 ms sleep are not modelled. A `Session` value records what the hardware did. Its `classOf` cannot raise.
- Text.Lower: lowers only the ASCII letters A-Z. Python's `str.lower` also lowers other Unicode letters.
- Url.UrlParsePath: models the ValueError for an unmatched square bracket in the network location. Two newer `urlsplit` checks are not modelled: bracketed-host validation and the NFKC check of non-ASCII network locations.
- Request headers are a map with lower-case names. Repeated headers and multi-valued form fields are not modelled; the form is given as the field `form.get` returns.
- Features.Update: Python's `hasattr` also matches method and dunder names, which `setattr` would then shadow. The model ignores every key except the six data fields.
- Features.Curvature: arrays must be written as `List`. An `Other` value (an opaque numpy object) is treated as not indexable.
- Features.PlotGate: `enabled` is given as its truth value and `plot_frequency` as an integer. An empty config dict is treated like a missing one; both give no plot.
- The rest of `run_episode_steps` (model steps, data loading, `plot_combined_figure` and its arguments), `custom_classes/plotting.py`, `custom_classes/monty_class.py`, `custom_classes/motor_policy.py`, `custom_classes/config.py`, `configs/__init__.py` and `scripts/debugging/tracker_callibration.py` are not part of this model. They are rendering, file I/O, or calls into a framework that is not shown.
- Timestamps are reals. The model does not represent `time.time()` float precision.

## Findings

| source | as written | input that shows it | evidently intended | confidence | as-written member | corrected member |
|---|---|---|---|---|---|---|
| custom_classes/server.py:46 | `isinstance(file_upload, UploadFile)` with `UploadFile` imported from `fastapi`, a subclass of Starlette's `UploadFile`. | A multipart POST with a `file` part. `request.form()` builds Starlette's `UploadFile` for it, which is not an instance of the FastAPI subclass. | Accept every uploaded file, as the handler goes on to read it. | not executed; medium, because it rests on the class `request.form()` builds in the Starlette versions FastAPI uses | CaptureBridge.StarletteUploadRefusedAsWritten | CaptureBridge.Payload |
