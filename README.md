# Camera acquisition, timers and the recording controller, in Dafny

This project models three parts of the nvuelab camera-recording code and
proves properties of them:

- **Camera helpers** (`nvuelab/utils/camera.py`, module `CameraUtils` in
  `camera.dfy`). A FLIR camera is a `Camera` object with three trigger
  nodes (mode, source, activation), a streaming flag and a log of the
  commands sent to it: node writes, `Init`/`DeInit`, the begin and end of
  acquisition, the software trigger, `GetNextImage` and the release of an
  image it delivered. Queries (`IsStreaming`, reading the trigger mode,
  an image's status and size) change nothing and are not logged. The model covers:
  - `configure_trigger`: the fixed, ordered node writes for `"hardware"`
    and `"software"`, and none for any other name. `TriggerTarget` is an
    independent statement of the node state each name asks for.
  - `restart_camera`, which ends acquisition only while streaming.
  - `get_frame_info`, a begin/grab/end bracket whose `finally` always ends
    acquisition.
  - The `while True` prompt loop in `init` that keeps asking until the
    index is in range.
- **Timer and phase bookkeeping** (`nvuelab/utils/clocks.py`, module
  `Clocks` in `clocks.dfy`). `Timer` is a class whose `start`, `stop`,
  `restart` and `reset` update its fields in place.
  - Every wall-clock read is a parameter `now`. A ghost field `clock`
    records the latest reading, and the methods require the clock not to
    run backwards.
  - `get_elapsed_time` and `get_remaining_time` are functions of `now`.
  - `create_phase_name` and `resolve_file_path` are functions.
  - `save_timer_state` is its one-key dictionary update on the table it
    loaded.
- **The recording controller** (`tests/gui_v6.py`, module `AcquisitionGui`
  in `gui.dfy`). The script's globals are the fields of one `Controller`:
  - the idle event;
  - the video writer, as the frames written to it;
  - the writers already released;
  - the image queue;
  - the frame the label shows;
  - the camera;
  - the released-image log.

  The acquisition thread `camera_acquisition` runs as a sequential loop
  over the answers the device gives on successive passes:
  - `Complete(frame)`, `Incomplete` or `Failed` (a `SpinnakerException`)
    for `GetNextImage`;
  - `NotStreaming` for `IsStreaming()` answering false.

  The loop runs while the idle flag is clear. At the first `NotStreaming`
  it breaks, and the thread ends acquisition and finishes. When the
  answers run out first, the thread is still in its loop. `stop_recording`
  and `on_close` set the flag and then `join` the thread. The loop's next
  test then finds the flag set, and the thread ends acquisition; in the
  model, `JoinWorker` does this. The field `workerAlive` says whether the
  thread is still in `camera_acquisition`. Images are numbered in the order the loop retrieves them. The
  invariant `Valid` states that the released-image log is exactly
  `0, 1, …, n-1`, so every retrieved image is released once and only once, given the SDK behaviour stated under "## Left out".

`base.dfy` holds the shared `Option` type (Python's `None`).

The pure specifications (`ApplyAll`, `TriggerTarget`, `Polled`, `Frames`,
`Retrieved`, `Feed`, `Ids`, `CameraChoice`, `CreatePhaseName`) carry the
properties as lemmas. The methods that change state are proved against
them.

## Model

| member | source | states |
|---|---|---|
| CameraUtils.TriggerWritesReachTarget | nvuelab/utils/camera.py:67-86 | The writes of `"hardware"` (mode Off, source Line2, activation RisingEdge, mode On) and of `"software"` (mode Off, source Software, mode On) bring any node state to its target. Both write source and activation only while the mode is Off and leave the mode On. Any other name writes nothing, so it does not force the mode Off. |
| CameraUtils.ConfigureTriggerIdempotent | nvuelab/utils/camera.py:67-86 | Applying the writes of a trigger name twice in a row gives the node state of applying them once. |
| CameraUtils.SoftwareKeepsActivation | nvuelab/utils/camera.py:78-84 | The software configuration never writes the activation node, so the activation keeps its earlier value. |
| CameraUtils.ApplyAllFrame | nvuelab/utils/camera.py:67-86 | A trigger node that no write of a sequence touches keeps its value. |
| CameraUtils.Camera.constructor | nvuelab/utils/camera.py:25-26 | `cam.Init()` gives a camera that is not streaming, holds its initial trigger nodes and has logged only `Init`. |
| CameraUtils.Camera.WriteNode | nvuelab/utils/camera.py:70-84 | One node write changes exactly that node and logs it. A source or activation write requires the mode to be Off, the device rule the configuration respects. |
| CameraUtils.Camera.ConfigureTrigger | nvuelab/utils/camera.py:67-86 | The nodes end at `TriggerTarget` of the old nodes, and the log grows by exactly the writes for that name, in order. The streaming flag is unchanged. |
| CameraUtils.Camera.RestartCamera | nvuelab/utils/camera.py:35-39 | Logs `EndAcquisition` if and only if the camera was streaming. Afterwards it is not streaming, and the nodes are unchanged. |
| CameraUtils.RestartTwice | nvuelab/utils/camera.py:35-39 | A second restart sends no further command: two restarts log what one does. |
| CameraUtils.Camera.GetFrameInfo | nvuelab/utils/camera.py:42-64 | The camera is not streaming on every exit. The result is the size exactly when the grabbed image is complete, `None` for an incomplete one, and the exception when the grab raises. The nodes end configured for software triggering. The log is restart, the software writes, `BeginAcquisition`, the trigger, `GetNextImage`, `EndAcquisition`. It holds no `ReleaseImage`, because the grabbed image is never released. |
| CameraUtils.Camera.ReleaseImage | tests/gui_v6.py:142-143 | Releasing a delivered image logs `ReleaseImage` and changes neither the nodes nor the streaming flag. |
| CameraUtils.ChooseIndex | nvuelab/utils/camera.py:9-23 | Index 0 when there is at most one camera. Otherwise the loop exits only with `0 <= index < size`, and the index is the first answer in range: every earlier answer was out of range or not a number. |
| CameraUtils.Init | nvuelab/utils/camera.py:4-32 | The index is 0 for at most one camera and below the size otherwise. A fresh, initialised, non-streaming camera is returned exactly when one exists. |
| Clocks.Timer.constructor | nvuelab/utils/clocks.py:21-26 | The dataclass defaults: zero times and not running. The duration and units are the given ones, 0 and `"seconds"` by default. |
| Clocks.Timer.Start | nvuelab/utils/clocks.py:28-33 | A no-op while running. Otherwise the start time becomes `now` and the timer runs, so the elapsed time at any `t` is `t - now`. |
| Clocks.Timer.Stop | nvuelab/utils/clocks.py:35-41 | A no-op unless running. Otherwise the elapsed time becomes `now - start`, the end time becomes the later reading, and the timer stops. The elapsed time reported at `now` is then frozen, and it never exceeds end minus start. |
| Clocks.Timer.Restart | nvuelab/utils/clocks.py:43-46 | Start time becomes `now` and elapsed time 0. The running flag, the end time and the duration are unchanged. |
| Clocks.Timer.Reset | nvuelab/utils/clocks.py:48-53 | Start and elapsed time become 0 and the timer stops. The end time, duration and units are unchanged. The elapsed time reads 0 at every instant. |
| Clocks.Timer.ElapsedTime | nvuelab/utils/clocks.py:55-60 | `now - start` while running, the stored elapsed time otherwise. Never negative for a reading no earlier than the timer's last. |
| Clocks.Timer.RemainingTime | nvuelab/utils/clocks.py:62-75 | A value exactly when running with a positive duration. The value lies in `[0, duration]` once `now >= start`. It is 0 exactly when the elapsed time has reached the duration, and before that, remaining plus elapsed equals the duration. |
| Clocks.ResolveFilePath | nvuelab/utils/clocks.py:89-94 | A given path is returned unchanged. No path gives `experiment-times.toml` in the working directory. |
| Clocks.CreatePhaseName | nvuelab/utils/clocks.py:97-100 | The name ends with the timestamp. It is preceded by `phase + "_"` for a non-empty phase, and by `recording-` for `None` or an empty phase. |
| Clocks.PhaseNameInjective | nvuelab/utils/clocks.py:97-100 | Two names built from equally long timestamps are equal only if the timestamps are equal and the phases agree. A named phase never collides with the default name. |
| Clocks.SaveTimerState | nvuelab/utils/clocks.py:103-124 | The path is the resolved one. The table written is the loaded one (empty when there is no file) with exactly the phase's key set to the timer's record; every other entry is kept. |
| AcquisitionGui.Polled | tests/gui_v6.py:117-133 | The passes the loop makes are a prefix of the device's answers. None of them is `NotStreaming`, and the loop stops at the first `NotStreaming`. |
| AcquisitionGui.PolledUpTo | tests/gui_v6.py:117-133 | A loop that stopped at index `i`, seeing no `NotStreaming` before it and either the end or a `NotStreaming` at it, made exactly the passes `Polled` names. |
| AcquisitionGui.FramesAreTheCompleteOnes | tests/gui_v6.py:121-131 | A frame is queued and recorded exactly when some pass returned it as a complete image; incomplete images and raised calls contribute nothing. |
| AcquisitionGui.PassCallsCount | tests/gui_v6.py:119-143 | One pass sends one `ReleaseImage` per image it retrieved. It sends one `GetNextImage` unless the camera was not streaming. |
| AcquisitionGui.ReleasesMatchRetrievals | tests/gui_v6.py:117-143 | The commands of a run of passes hold one `ReleaseImage` per image retrieved, so none is leaked or released twice. When the camera streams throughout, they hold one `GetNextImage` per pass. |
| AcquisitionGui.IdsDistinct | tests/gui_v6.py:140-143 | The released-image log `Ids(n)` lists image `i` at position `i`, so no image number appears twice. |
| AcquisitionGui.CameraChoice | tests/gui_v6.py:58-76 | No cameras aborts with no choice. One camera picks index 0. Several cameras take the dialog's index, which lies in `0..n-1`, and cancelling aborts. |
| AcquisitionGui.Controller.constructor | tests/gui_v6.py:16-22 | The start state: idle, no SDK instance, no camera, no writer, empty queue, nothing released. |
| AcquisitionGui.Controller.InitCamera | tests/gui_v6.py:51-80 | `init_camera` without line 79. The SDK instance is taken. With a camera chosen, it is a fresh camera, initialised and configured for hardware triggering, whose log holds `Init` and the four hardware writes. Without one, the camera and everything else are kept. |
| AcquisitionGui.Controller.SaveVideo | tests/gui_v6.py:36-48 | Any previous writer is released, with its frames, into the recordings. Exactly one fresh, empty writer is then open. |
| AcquisitionGui.Controller.JoinWorker | tests/gui_v6.py:166-167 | With the idle flag set, joining a thread still in its loop lets it end acquisition: `EndAcquisition` is logged once and the camera stops streaming. A thread that has finished leaves everything unchanged. |
| AcquisitionGui.Controller.SignalAndJoin | tests/gui_v6.py:179-183 | The idle flag is set and the thread has finished. `EndAcquisition` is logged only if the thread was still in its loop. When the flag was already set, nothing changes. |
| AcquisitionGui.Controller.StartRecordingThread | tests/gui_v6.py:161-175 | When not idle: reports failure and changes nothing in the controller or the camera. Otherwise: idle is cleared, the camera is restarted and begins streaming, the previous writer is released, a fresh writer is open, and the loop is spawned. |
| AcquisitionGui.Controller.Grab | tests/gui_v6.py:118-137 | The `try` block of a pass. A handle is valid afterwards exactly when an image (complete or not) was retrieved, and it is then the next image number. A complete frame is queued and fed to the open writer. `GetNextImage` is logged unless the camera was not streaming. |
| AcquisitionGui.Controller.Pass | tests/gui_v6.py:118-143 | One pass of the loop body with its `finally`. A complete frame is queued and fed to the open writer. Each retrieved image is released exactly once, keeping `Valid`, and the log grows by the pass's `GetNextImage` and `ReleaseImage`. A raised call leaves the old released handle, which the `IsValid` guard skips. `NotStreaming` stops the loop with no `GetNextImage`. |
| AcquisitionGui.Controller.AcquisitionLoop | tests/gui_v6.py:117-143 | The loop makes exactly the passes `Polled` names and reports whether it left by its `break`. The queue and the open writer grew by their complete frames, and every image retrieved was released. The log grew by the passes' commands. Streaming and the other fields are unchanged. |
| AcquisitionGui.Controller.CameraAcquisition | tests/gui_v6.py:111-146 | After the loop, the queue grew by exactly the complete frames of the passes made, and the open writer by the same frames in the same order. The image count grew by the images retrieved, each released once. The thread has finished exactly when it met `NotStreaming`: it then logged `EndAcquisition` after the passes' commands, and the camera no longer streams. Otherwise it is still in its loop, and the streaming flag is as before. The idle flag and the other fields are unchanged. |
| AcquisitionGui.Controller.UpdateGui | tests/gui_v6.py:149-158 | One tick empties the queue. The label shows the last frame dequeued, or what it showed before when the queue was empty. |
| AcquisitionGui.Controller.StopRecording | tests/gui_v6.py:176-200 | Afterwards: idle is set, the thread has finished, and the camera is not streaming. `EndAcquisition` was logged once if the thread was still in its loop or the camera streamed, and not otherwise. No writer is open, the previous one having been released. A second call changes nothing. |
| AcquisitionGui.Controller.OnClose | tests/gui_v6.py:201-218 | Idle is set, the thread has finished, and the writer is released (the field keeps the released handle). The camera ends acquisition once if the thread was in its loop or it streamed, then is deinitialised and dropped. The SDK instance is released. |
| AcquisitionGui.StartSession | tests/gui_v6.py:161-175 | Opening the window, taking a single camera (without line 79) and pressing record leave a configured, streaming camera with an empty writer open and the loop running. The camera logged `Init`, the four hardware writes and `BeginAcquisition`. |
| AcquisitionGui.RecordingSession | tests/gui_v6.py:161-200 | A start, one loop run, a GUI tick and a stop record exactly the complete frames the loop saw, in order. The label shows the last of them, and the released log is `0..n-1` for the `n` images retrieved. |
| AcquisitionGui.SessionCommands | tests/gui_v6.py:161-200 | A session sends the camera its configuration, one `BeginAcquisition`, the passes' commands and exactly one `EndAcquisition`, whether the loop met `NotStreaming` or was stopped. |
| AcquisitionGui.StreamLossBlocksRestart | tests/gui_v6.py:117-175 | When the loop meets `NotStreaming`, the thread finishes and the camera stops streaming, but the idle flag stays clear, so the next start is rejected. After a stop, a start succeeds again. |

## Left out

- The PySpin SDK appears only as the abstract operations of `Camera`. The model leaves out:
  - its error behaviour beyond a raised `GetNextImage`, e.g. `EndAcquisition` on a camera that is not streaming, which the device may refuse;
  - `GetTLDeviceNodeMap`, `get_camera_info` and `print_camera_list`, which read device strings and print them;
  - `ReleaseInstance` and the `del` statements, which become the cleared `hasSystem` and `cam` fields.
- Image data is not modelled: a frame is an opaque value. OpenCV `resize`/`cvtColor`, PIL and ImageTk conversions, all Tk widgets and buttons, the directory dialog and `root.after` scheduling are user interface. The record button, enabled only once `init_camera` succeeded, appears as the requirement that a camera exists before a start.
- `display_first_frame` is not modelled. At `tests/gui_v6.py:95` it calls `get_frame_info(cam, plot=True)` and unpacks three values, while `nvuelab/utils/camera.py` defines `get_frame_info` with one parameter and two results. As written, that call raises `TypeError` inside the `try` of `init_camera` (lines 53-90). So `configure_trigger` (line 80), the save path (line 82) and enabling the record button (line 85) are never reached, and `video_label`, which `update_gui` uses at line 155, stays `None`. `InitCamera` leaves line 79's camera side out entirely: it models neither that `TypeError` nor the commands a completed `get_frame_info` would send (the software writes, `BeginAcquisition`, the trigger, an unreleased `GetNextImage`, `EndAcquisition`). So the exact logs of `InitCamera`, `StartSession` and `SessionCommands` hold none of them. `Camera.GetFrameInfo` models the helper's own behaviour.
- The video writer's file name, frame rate and frame size, and `nvuelab/utils/video.py`, are left out. A writer is the sequence of frames written to it, and releasing it moves that sequence into `recordings`.
- The loop and display model keep the effects `display_first_frame` has on the GUI globals while leaving out its camera commands. These effects are the frame size 1920x1080 (`tests/gui_v6.py:96-97`), which line 128 resizes to, and the label `video_label` (lines 102-105), which `update_gui` draws on at line 155. Without them, `FRAME_WIDTH` and `FRAME_HEIGHT` stay 0 (lines 22-23). Then the `cv.resize` at line 128 raises an OpenCV error that the `except PySpin.SpinnakerException` at line 135 does not catch. The first complete image would then end the thread: `finally` releases it, nothing is queued or written, and the `EndAcquisition` at line 146 is skipped. The model does not capture that path.
- AcquisitionGui.Controller.InitCamera: a second `init_camera` during a recording is not modelled faithfully. The Initialize button stays enabled (line 227). In the source, `GetByIndex` (line 76) names the same device, which is still streaming since line 170, and the running loop keeps using it. The model instead installs a fresh, non-streaming `Camera` with a new log, so that device's history is split across two objects.
- The release-once property assumes that `image_result.IsValid()` turns false once `Release()` has run (`tests/gui_v6.py:142-143`); `Pass` sets the handle invalid after releasing it. If the SDK kept it true, a pass whose `GetNextImage` raised would release the previous image a second time in `finally`. That call would be outside the `except`, so its exception would leave the loop and skip `EndAcquisition` at line 146. The model does not capture that path.
- Threads: the acquisition thread runs sequentially over a finite sequence of device answers. When the answers run out, it waits in its loop until a handler sets the idle flag and joins it. Interleavings of the loop with the GUI thread, such as a GUI tick or a stop during a pass, are not modelled.
- The `streaming` field of `Camera` follows only the program's own `BeginAcquisition` and `EndAcquisition`. A device that stops streaming by itself appears only as a `NotStreaming` answer to the loop, and the field is not tied to it.
- `print`, message boxes, `time.time()`, `datetime.now()`, `strftime` and `format_timestamp` become parameters or are dropped. The timestamp of `create_phase_name` is a parameter of `CreatePhaseName`, and the formatting of a time is the function parameter `format` of `SaveTimerState`.
- `int()` parsing in `init` is modelled as a parsed answer, or `None` for text `int()` rejects.
- The exception paths are not modelled. These are the handler of `init_camera`, the TOML file handling in `save_timer_state` (reading, writing, `FileNotFoundError`, `PermissionError`, `TomlDecodeError`, `IOError`), and the SDK errors `init` would raise for a missing camera.
- Times are exact reals, not floats, and the clock is taken not to run backwards. `get_remaining_time` returns the integer `0` on expiry, which the model gives as `0.0`.
- Clocks.Timer.constructor: only `duration` and `durationUnits` are parameters. The dataclass also accepts `start_time`, `end_time`, `elapsed_time` and `is_running`, which the model always starts at their defaults.
- Clocks.Timer.Stop: the two clock reads of `stop` are the parameters `now` and `later`, required to be in order.
- CameraUtils.ChooseIndex: requires that some answer is in range when there are several cameras, because otherwise the source keeps prompting forever.
- `Timer.print_time` prints only. The earlier GUI prototypes, the hardware test scripts and `setup.py` are not part of this model.
