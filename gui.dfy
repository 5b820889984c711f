/**
 * The acquisition and recording controller of tests/gui_v6.py.
 *
 * The script's module globals (the idle event, the video writer, the image
 * queue, the acquisition thread, the camera) become the fields of one
 * `Controller`. The acquisition thread runs as a sequential loop over the
 * answers the device gives on each pass while the idle flag stays clear.
 * When the answers run out the thread is still in its loop; a handler that
 * sets the flag and joins the thread lets the loop's next test find the
 * flag set, after which the thread ends acquisition. Images are numbered in
 * the order the loop retrieves them, and the controller keeps the numbers
 * of the images it has released.
 */
module AcquisitionGui {
  import opened Base
  import opened CameraUtils

  /** A frame as put on the display queue and handed to the video writer; its pixels are opaque here. */
  datatype Frame = Frame(pixels: seq<int>)

  /** What one pass of the acquisition loop finds. */
  datatype Retrieval =
    | Complete(frame: Frame)  // `GetNextImage` returned a complete image
    | Incomplete              // `GetNextImage` returned an incomplete image
    | Failed                  // `GetNextImage` raised a `SpinnakerException`
    | NotStreaming            // `IsStreaming()` answered false

  /**
   * The handle held in `image_result`: which image, and whether `IsValid()`
   * still holds. The model takes `IsValid()` to turn false once `Release()`
   * has run on the handle.
   */
  datatype Image = Image(id: nat, valid: bool)

  // ---------------------------------------------------------------------------
  // Specification of one run of the acquisition loop

  /** The passes the loop makes: everything before the first `NotStreaming`. */
  function Polled(rs: seq<Retrieval>): (p: seq<Retrieval>)
    ensures |p| <= |rs| && p == rs[..|p|]
    ensures forall i :: 0 <= i < |p| ==> !p[i].NotStreaming?
    ensures |p| < |rs| ==> rs[|p|].NotStreaming?
  {
    if rs == [] || rs[0].NotStreaming? then [] else [rs[0]] + Polled(rs[1..])
  }

  /** The frames of the complete images, in order. */
  function Frames(rs: seq<Retrieval>): (fs: seq<Frame>)
    ensures |fs| <= |rs|
  {
    if rs == [] then []
    else (if rs[0].Complete? then [rs[0].frame] else []) + Frames(rs[1..])
  }

  /** How many images the passes obtain (complete or not); a raised call obtains none. */
  function Retrieved(rs: seq<Retrieval>): (n: nat)
    ensures |Frames(rs)| <= n <= |rs|
  {
    if rs == [] then 0
    else (if rs[0].Complete? || rs[0].Incomplete? then 1 else 0) + Retrieved(rs[1..])
  }

  /** What an open writer holds after `fs` more frames; no writer stays no writer. */
  function Feed(writer: Option<seq<Frame>>, fs: seq<Frame>): (w: Option<seq<Frame>>)
    ensures w.Some? <==> writer.Some?
    ensures w.Some? ==> |w.value| == |writer.value| + |fs| && w.value[|writer.value|..] == fs
    ensures fs == [] ==> w == writer
    ensures writer == Some([]) ==> w == Some(fs)
  {
    match writer
    case None => None
    case Some(frames) => assert frames + [] == frames; Some(frames + fs)
  }

  lemma FeedAppend(writer: Option<seq<Frame>>, a: seq<Frame>, b: seq<Frame>)
    ensures Feed(Feed(writer, a), b) == Feed(writer, a + b)
  {
    if writer.Some? {
      assert writer.value + a + b == writer.value + (a + b);
    }
  }

  /** The numbers of the first `n` images, in order. */
  function Ids(n: nat): (ids: seq<nat>)
    ensures |ids| == n
  {
    if n == 0 then [] else Ids(n - 1) + [n - 1]
  }

  /** No number appears twice in `Ids(n)`, so no image is released twice. */
  lemma {:induction false} IdsDistinct(n: nat)
    ensures forall i, j :: 0 <= i < j < n ==> Ids(n)[i] != Ids(n)[j]
    ensures forall i :: 0 <= i < n ==> Ids(n)[i] == i
  {
    if n > 0 {
      IdsDistinct(n - 1);
    }
  }

  /**
   * The commands one pass sends: `GetNextImage` unless the camera is not
   * streaming, then, in `finally`, the release of the image it obtained.
   */
  function PassCalls(r: Retrieval): seq<Call>
  {
    match r
    case NotStreaming => []
    case Failed => [Call.GetNextImage]
    case _ => [Call.GetNextImage, Call.ReleaseImage]
  }

  /** The commands of a run of passes, in order. */
  function Requests(rs: seq<Retrieval>): seq<Call>
  {
    if rs == [] then [] else PassCalls(rs[0]) + Requests(rs[1..])
  }

  /** How often `c` occurs in `cs`. */
  function Count(cs: seq<Call>, c: Call): nat
  {
    if cs == [] then 0 else (if cs[0] == c then 1 else 0) + Count(cs[1..], c)
  }

  lemma {:induction false} CountAppend(a: seq<Call>, b: seq<Call>, c: Call)
    ensures Count(a + b, c) == Count(a, c) + Count(b, c)
    decreases |a|
  {
    if a == [] {
      assert a + b == b;
    } else {
      assert (a + b)[1..] == a[1..] + b;
      CountAppend(a[1..], b, c);
    }
  }

  /** One pass releases the image it obtained, and asks for one unless the camera is not streaming. */
  lemma PassCallsCount(r: Retrieval)
    ensures Count(PassCalls(r), Call.ReleaseImage) == Retrieved([r])
    ensures Count(PassCalls(r), Call.GetNextImage) == if r.NotStreaming? then 0 else 1
  {
    assert [r][1..] == [];
    var cs := PassCalls(r);
    if r.Complete? || r.Incomplete? {
      assert cs[1..] == [Call.ReleaseImage] && cs[1..][1..] == [];
      assert Count(cs[1..], Call.ReleaseImage) == 1 && Count(cs[1..], Call.GetNextImage) == 0;
    } else if r.Failed? {
      assert cs[1..] == [];
    }
  }

  /**
   * The passes release exactly the images they obtain: a run of passes
   * sends one `ReleaseImage` per image retrieved, and one `GetNextImage`
   * per pass when the camera streams throughout.
   */
  lemma {:induction false} ReleasesMatchRetrievals(rs: seq<Retrieval>)
    ensures Count(Requests(rs), Call.ReleaseImage) == Retrieved(rs)
    ensures NotStreaming !in rs ==> Count(Requests(rs), Call.GetNextImage) == |rs|
    decreases |rs|
  {
    if rs != [] {
      var head := PassCalls(rs[0]);
      ReleasesMatchRetrievals(rs[1..]);
      PassCallsCount(rs[0]);
      CountAppend(head, Requests(rs[1..]), Call.ReleaseImage);
      CountAppend(head, Requests(rs[1..]), Call.GetNextImage);
      assert Retrieved(rs) == Retrieved([rs[0]]) + Retrieved(rs[1..]);
      if NotStreaming !in rs {
        assert rs[0] in rs;
        assert forall r :: r in rs[1..] ==> r in rs;
      }
    }
  }

  /** The loop's passes are exactly the prefix up to the first `NotStreaming`. */
  lemma {:induction false} PolledUpTo(rs: seq<Retrieval>, i: nat)
    requires i <= |rs|
    requires NotStreaming !in rs[..i]
    requires i == |rs| || rs[i].NotStreaming?
    ensures Polled(rs) == rs[..i]
    decreases i
  {
    if i == 0 {
    } else {
      assert rs[0] == rs[..i][0];
      assert rs[1..][..i - 1] == rs[..i][1..];
      PolledUpTo(rs[1..], i - 1);
      assert rs[..i] == [rs[0]] + rs[1..][..i - 1];
    }
  }

  /** A frame is recorded exactly when some pass returned it complete. */
  lemma {:induction false} FramesAreTheCompleteOnes(rs: seq<Retrieval>)
    ensures forall f :: f in Frames(rs) <==> Complete(f) in rs
    decreases |rs|
  {
    if rs != [] {
      FramesAreTheCompleteOnes(rs[1..]);
      assert rs == [rs[0]] + rs[1..];
    }
  }

  /**
   * One more pass extends the specification of the loop by that pass alone:
   * the invariant of `CameraAcquisition` carried across one pass.
   */
  lemma StepLoop(rs: seq<Retrieval>, i: nat, queue0: seq<Frame>, writer0: Option<seq<Frame>>, log0: seq<Call>)
    requires i < |rs| && NotStreaming !in rs[..i] && !rs[i].NotStreaming?
    ensures NotStreaming !in rs[..i + 1]
    ensures queue0 + Frames(rs[..i]) + Frames([rs[i]]) == queue0 + Frames(rs[..i + 1])
    ensures Feed(Feed(writer0, Frames(rs[..i])), Frames([rs[i]])) == Feed(writer0, Frames(rs[..i + 1]))
    ensures Retrieved(rs[..i + 1]) == Retrieved(rs[..i]) + Retrieved([rs[i]])
    ensures log0 + Requests(rs[..i]) + PassCalls(rs[i]) == log0 + Requests(rs[..i + 1])
  {
    var done, r := rs[..i], rs[i];
    assert rs[..i + 1] == done + [r];
    FramesAppend(done, [r]);
    RetrievedAppend(done, [r]);
    RequestsSnoc(done, r);
    FeedAppend(writer0, Frames(done), Frames([r]));
  }

  /** One more pass adds its own commands to the log. */
  lemma RequestsSnoc(done: seq<Retrieval>, r: Retrieval)
    ensures Requests(done + [r]) == Requests(done) + PassCalls(r)
  {
    RequestsAppend(done, [r]);
    assert [r][1..] == [];
    assert Requests([r]) == PassCalls(r) + [];
  }

  lemma {:induction false} FramesAppend(a: seq<Retrieval>, b: seq<Retrieval>)
    ensures Frames(a + b) == Frames(a) + Frames(b)
    decreases |a|
  {
    if a == [] {
      assert a + b == b;
    } else {
      var head := if a[0].Complete? then [a[0].frame] else [];
      assert (a + b)[0] == a[0];
      assert (a + b)[1..] == a[1..] + b;
      FramesAppend(a[1..], b);
      assert Frames(a + b) == head + (Frames(a[1..]) + Frames(b));
      assert head + (Frames(a[1..]) + Frames(b)) == (head + Frames(a[1..])) + Frames(b);
    }
  }

  lemma {:induction false} RequestsAppend(a: seq<Retrieval>, b: seq<Retrieval>)
    ensures Requests(a + b) == Requests(a) + Requests(b)
    decreases |a|
  {
    if a == [] {
      assert a + b == b;
    } else {
      assert (a + b)[0] == a[0];
      assert (a + b)[1..] == a[1..] + b;
      RequestsAppend(a[1..], b);
      assert PassCalls(a[0]) + (Requests(a[1..]) + Requests(b)) == (PassCalls(a[0]) + Requests(a[1..])) + Requests(b);
    }
  }

  lemma {:induction false} RetrievedAppend(a: seq<Retrieval>, b: seq<Retrieval>)
    ensures Retrieved(a + b) == Retrieved(a) + Retrieved(b)
    decreases |a|
  {
    if a == [] {
      assert a + b == b;
    } else {
      assert (a + b)[1..] == a[1..] + b;
      RetrievedAppend(a[1..], b);
    }
  }

  /** The camera choice of `init_camera`; the dialog only lets through indices in range. */
  function CameraChoice(n: nat, answer: Option<int>): (index: Option<nat>)
    requires 1 < n && answer.Some? ==> 0 <= answer.value < n
    ensures index.None? <==> n == 0 || (1 < n && answer.None?)
    ensures index.Some? ==> index.value < n
    ensures n == 1 ==> index == Some(0)
    ensures 1 < n && answer.Some? ==> index == Some(answer.value as nat)
  {
    if n == 0 then None
    else if n > 1 then (match answer case None => None case Some(i) => Some(i as nat))
    else Some(0)
  }

  // ---------------------------------------------------------------------------
  // The controller

  class Controller {
    /** `system` holds an SDK instance. */
    var hasSystem: bool
    var cam: Camera?
    /** `idle_event` is set. */
    var idle: bool
    /** `acquisition_thread` is not `None`. */
    var workerSpawned: bool
    /** The acquisition thread is still inside `camera_acquisition`. */
    var workerAlive: bool
    /** `video_writer`, with the frames written to it so far. */
    var writer: Option<seq<Frame>>
    /** The writers released so far, oldest first, each with its frames. */
    var recordings: seq<seq<Frame>>
    /** `image_queue`. */
    var queue: seq<Frame>
    /** The frame `video_label` shows. */
    var display: Option<Frame>
    /** How many images the acquisition loop has retrieved; they are numbered from 0. */
    var nextImage: nat
    /** The numbers of the images released, in release order. */
    var released: seq<nat>
    /** `on_close` has run and the window is gone. */
    var closed: bool

    /**
     * Every image retrieved so far has been released exactly once, in the
     * order retrieved; a running acquisition has a camera; a live thread
     * was spawned and runs with the idle flag clear.
     */
    ghost predicate Valid()
      reads this
    {
      && released == Ids(nextImage)
      && (!idle ==> cam != null)
      && (workerAlive ==> workerSpawned && !idle)
    }

    /** The fields only the GUI handlers change: the acquisition thread keeps all of them. */
    twostate predicate HandlerFieldsKept()
      reads this
    {
      && idle == old(idle) && hasSystem == old(hasSystem) && closed == old(closed)
      && workerSpawned == old(workerSpawned) && recordings == old(recordings) && display == old(display)
    }

    /** The state when the script's main window opens: idle, nothing initialised. */
    constructor ()
      ensures Valid() && idle && !closed && !hasSystem && cam == null && !workerSpawned && !workerAlive
      ensures writer.None? && recordings == [] && queue == [] && display.None?
      ensures nextImage == 0 && released == []
    {
      hasSystem, cam, idle, workerSpawned, workerAlive := false, null, true, false, false;
      writer, recordings, queue, display := None, [], [], None;
      nextImage, released, closed := 0, [], false;
    }

    /**
     * `init_camera` without its call of `display_first_frame`, which is
     * left out entirely (neither the error it raises nor the commands a
     * grab would send): with a camera chosen, take it, initialise it and
     * configure hardware triggering; with none (no device, or the dialog
     * cancelled) keep everything but the SDK instance.
     */
    method InitCamera(numCameras: nat, answer: Option<int>, initial: TriggerNodes) returns (selected: Option<nat>)
      requires Valid() && !closed
      requires 1 < numCameras && answer.Some? ==> 0 <= answer.value < numCameras
      modifies this
      ensures Valid() && hasSystem
      ensures selected == CameraChoice(numCameras, answer)
      ensures selected.None? ==> cam == old(cam)
      ensures selected.Some? ==> fresh(cam) && !cam.streaming
                                 && cam.Nodes() == TriggerNodes(On, Line2, RisingEdge)
                                 && cam.log == [Call.Init] + WriteCalls(HardwareWrites)
      ensures idle == old(idle) && workerSpawned == old(workerSpawned) && workerAlive == old(workerAlive)
      ensures closed == old(closed) && writer == old(writer) && recordings == old(recordings)
      ensures queue == old(queue) && display == old(display)
      ensures nextImage == old(nextImage) && released == old(released)
    {
      hasSystem := true;
      selected := CameraChoice(numCameras, answer);
      if selected.Some? {
        var c := new Camera(initial);
        c.ConfigureTrigger("hardware");
        cam := c;
      }
    }

    /** `save_video`: release the current writer, if any, and open a fresh one. */
    method SaveVideo()
      modifies this
      ensures writer == Some([])
      ensures recordings == old(recordings) + (if old(writer).Some? then [old(writer).value] else [])
      ensures hasSystem == old(hasSystem) && cam == old(cam) && idle == old(idle) && closed == old(closed)
      ensures workerSpawned == old(workerSpawned) && workerAlive == old(workerAlive)
      ensures queue == old(queue) && display == old(display)
      ensures nextImage == old(nextImage) && released == old(released)
    {
      if writer.Some? {
        recordings := recordings + [writer.value];
        writer := None;
      }
      if writer.None? {
        writer := Some([]);
      }
    }

    /** `idle_event.set()`, then `acquisition_thread.join()` when a thread was ever started. */
    method SignalAndJoin()
      requires Valid()
      modifies this, cam
      ensures Valid() && idle && !workerAlive && cam == old(cam)
      ensures cam != null ==> cam.streaming == (old(cam.streaming) && !old(workerAlive)) && cam.Nodes() == old(cam.Nodes())
      ensures cam != null ==> cam.log == old(cam.log) + (if old(workerAlive) then [Call.EndAcquisition] else [])
      ensures old(idle) ==> unchanged(this) && (cam != null ==> unchanged(cam))
      ensures hasSystem == old(hasSystem) && closed == old(closed) && workerSpawned == old(workerSpawned)
      ensures writer == old(writer) && recordings == old(recordings) && queue == old(queue) && display == old(display)
      ensures nextImage == old(nextImage) && released == old(released)
    {
      idle := true;
      if workerSpawned {
        JoinWorker();
      }
    }

    /**
     * `acquisition_thread.join()` once the idle flag is set: a thread still
     * in its loop finds the flag set at its next test, leaves the loop and
     * ends acquisition; a thread that has already left does nothing more.
     */
    method JoinWorker()
      requires idle && (workerAlive ==> cam != null)
      modifies this, cam
      ensures !workerAlive && cam == old(cam)
      ensures cam != null ==> cam.Nodes() == old(cam.Nodes())
      ensures old(workerAlive) ==> !cam.streaming && cam.log == old(cam.log) + [Call.EndAcquisition]
      ensures !old(workerAlive) ==> unchanged(this) && (cam != null ==> unchanged(cam))
      ensures idle == old(idle) && hasSystem == old(hasSystem) && closed == old(closed)
      ensures workerSpawned == old(workerSpawned) && recordings == old(recordings) && display == old(display)
      ensures writer == old(writer) && queue == old(queue) && nextImage == old(nextImage) && released == old(released)
    {
      if workerAlive {
        cam.EndAcquisition();
        workerAlive := false;
      }
    }

    /**
     * `start_recording_thread`: rejected ("already streaming") unless idle,
     * with nothing changed; otherwise join the previous thread (which has
     * left its loop, since the flag is set), clear the idle flag, restart
     * the camera, begin acquisition, replace the writer and spawn the loop.
     */
    method StartRecordingThread() returns (started: bool)
      requires Valid() && !closed && cam != null
      modifies this, cam
      ensures Valid() && cam == old(cam)
      ensures started == old(idle)
      ensures !started ==> unchanged(this) && unchanged(cam)
      ensures started ==> !idle && workerSpawned && workerAlive && cam.streaming && writer == Some([])
      ensures started ==> recordings == old(recordings) + (if old(writer).Some? then [old(writer).value] else [])
      ensures started ==> cam.log == old(cam.log) + (if old(cam.streaming) then [Call.EndAcquisition] else [])
                                                  + [Call.BeginAcquisition]
      ensures cam.Nodes() == old(cam.Nodes())
      ensures hasSystem == old(hasSystem) && closed == old(closed) && queue == old(queue) && display == old(display)
      ensures nextImage == old(nextImage) && released == old(released)
    {
      if !idle {
        started := false;
        return;
      }
      if workerSpawned {
        JoinWorker();
      }
      idle := false;
      cam.RestartCamera();
      cam.BeginAcquisition();
      SaveVideo();
      workerSpawned, workerAlive := true, true;
      started := true;
    }

    /** The `try` block of one pass: grab an image, queue a complete frame and feed it to the writer. */
    method Grab(r: Retrieval, imageResult: Option<Image>) returns (next: Option<Image>, stop: bool)
      requires cam != null && (imageResult.Some? ==> !imageResult.value.valid)
      modifies this, cam
      ensures cam == old(cam) && released == old(released)
      ensures stop == r.NotStreaming?
      ensures next.Some? && next.value.valid <==> r.Complete? || r.Incomplete?
      ensures next.Some? && next.value.valid ==> next.value.id == old(nextImage)
      ensures (next.Some? && next.value.valid) || next == imageResult
      ensures queue == old(queue) + Frames([r])
      ensures writer == Feed(old(writer), Frames([r]))
      ensures nextImage == old(nextImage) + Retrieved([r])
      ensures cam.log == old(cam.log) + (if r.NotStreaming? then [] else [Call.GetNextImage])
      ensures cam.streaming == old(cam.streaming) && cam.Nodes() == old(cam.Nodes())
      ensures HandlerFieldsKept() && workerAlive == old(workerAlive)
    {
      assert [r][1..] == [];
      assert Frames([r]) == if r.Complete? then [r.frame] else [];
      next := imageResult;
      stop := false;
      match r {
        case NotStreaming =>
          stop := true;
        case Failed =>
          cam.GetNextImage();
        case Incomplete =>
          cam.GetNextImage();
          next := Some(Image(nextImage, true));
          nextImage := nextImage + 1;
        case Complete(frame) =>
          cam.GetNextImage();
          next := Some(Image(nextImage, true));
          nextImage := nextImage + 1;
          queue := queue + [frame];
          if writer.Some? {
            writer := Some(writer.value + [frame]);
          }
      }
    }

    /**
     * One pass of the loop body of `camera_acquisition`, `try` and `finally`
     * together. `imageResult` is what `image_result` holds on entry: nothing
     * yet, or an image an earlier pass has already released. A complete
     * frame goes to the display queue and to the open writer; a retrieved
     * image is released in `finally`; a raised call leaves the old, invalid
     * handle in place, which the guard then skips.
     */
    method Pass(r: Retrieval, imageResult: Option<Image>) returns (next: Option<Image>, stop: bool)
      requires Valid() && cam != null
      requires imageResult.Some? ==> !imageResult.value.valid
      modifies this, cam
      ensures Valid() && cam == old(cam)
      ensures next.Some? ==> !next.value.valid
      ensures stop == r.NotStreaming?
      ensures queue == old(queue) + Frames([r])
      ensures writer == Feed(old(writer), Frames([r]))
      ensures nextImage == old(nextImage) + Retrieved([r])
      ensures cam.log == old(cam.log) + PassCalls(r)
      ensures cam.streaming == old(cam.streaming) && cam.Nodes() == old(cam.Nodes())
      ensures HandlerFieldsKept() && workerAlive == old(workerAlive)
    {
      next, stop := Grab(r, imageResult);
      // finally: release the handle only if it is still valid
      if next.Some? && next.value.valid {
        cam.ReleaseImage();
        released := released + [next.value.id];
        next := Some(next.value.(valid := false));
      }
    }

    /**
     * `camera_acquisition`, run by the live thread on the answers `results`
     * the device gives pass by pass while the idle flag stays clear.
     * Incomplete images and raised calls add nothing; each complete frame
     * goes to the display queue and, when a writer is open, to the writer,
     * so both receive the same frames in the same order. Every image
     * retrieved is released exactly once (`Valid`). At the first
     * `NotStreaming` the thread leaves the loop and ends acquisition; when
     * the answers run out first it is still in its loop, and ends
     * acquisition once a handler sets the flag and joins it. The idle flag
     * is never touched.
     */
    method CameraAcquisition(results: seq<Retrieval>)
      requires Valid() && workerAlive && cam != null
      modifies this, cam
      ensures Valid() && cam == old(cam)
      ensures queue == old(queue) + Frames(Polled(results))
      ensures writer == Feed(old(writer), Frames(Polled(results)))
      ensures nextImage == old(nextImage) + Retrieved(Polled(results))
      ensures workerAlive <==> |Polled(results)| == |results|
      ensures cam.log == old(cam.log) + Requests(Polled(results)) + (if workerAlive then [] else [Call.EndAcquisition])
      ensures cam.streaming == (workerAlive && old(cam.streaming)) && cam.Nodes() == old(cam.Nodes())
      ensures idle == old(idle) && hasSystem == old(hasSystem) && closed == old(closed)
      ensures workerSpawned == old(workerSpawned) && recordings == old(recordings) && display == old(display)
    {
      var lost := AcquisitionLoop(results);
      if lost {
        // the loop's `break`; the code after it ends acquisition
        cam.EndAcquisition();
        workerAlive := false;
      }
    }

    /** The `while` loop of `camera_acquisition`; `lost` tells whether it left by its `break`. */
    method AcquisitionLoop(results: seq<Retrieval>) returns (lost: bool)
      requires Valid() && workerAlive && cam != null
      modifies this, cam
      ensures Valid() && workerAlive && cam == old(cam)
      ensures lost <==> |Polled(results)| < |results|
      ensures queue == old(queue) + Frames(Polled(results))
      ensures writer == Feed(old(writer), Frames(Polled(results)))
      ensures nextImage == old(nextImage) + Retrieved(Polled(results))
      ensures cam.log == old(cam.log) + Requests(Polled(results))
      ensures cam.streaming == old(cam.streaming) && cam.Nodes() == old(cam.Nodes())
      ensures HandlerFieldsKept()
    {
      ghost var queue0, writer0, next0, log0 := queue, writer, nextImage, cam.log;
      ghost var streaming0, nodes0 := cam.streaming, cam.Nodes();
      var imageResult: Option<Image> := None;
      var i := 0;
      lost := false;
      assert results[..0] == [];
      // `idle` stays clear throughout this call (`workerAlive` and `Valid`);
      // the exit on a set flag happens later, in `JoinWorker`.
      while !idle && i < |results|
        invariant 0 <= i <= |results|
        invariant NotStreaming !in results[..i]
        invariant Valid() && workerAlive && cam == old(cam)
        invariant imageResult.Some? ==> !imageResult.value.valid
        invariant queue == queue0 + Frames(results[..i])
        invariant writer == Feed(writer0, Frames(results[..i]))
        invariant nextImage == next0 + Retrieved(results[..i])
        invariant cam.log == log0 + Requests(results[..i])
        invariant cam.streaming == streaming0 && cam.Nodes() == nodes0
        invariant HandlerFieldsKept()
      {
        var stop;
        imageResult, stop := Pass(results[i], imageResult);
        if stop {
          lost := true;
          break;
        }
        StepLoop(results, i, queue0, writer0, log0);
        i := i + 1;
      }
      PolledUpTo(results, i);
    }

    /** `update_gui`, one tick: drain the queue; the display ends on the last frame taken. */
    method UpdateGui()
      modifies this
      ensures queue == [] && (old(Valid()) ==> Valid())
      ensures display == if old(queue) == [] then old(display) else Some(old(queue)[|old(queue)| - 1])
      ensures hasSystem == old(hasSystem) && cam == old(cam) && idle == old(idle) && closed == old(closed)
      ensures workerSpawned == old(workerSpawned) && workerAlive == old(workerAlive)
      ensures writer == old(writer) && recordings == old(recordings)
      ensures nextImage == old(nextImage) && released == old(released)
    {
      while queue != []
        invariant |queue| <= |old(queue)| && queue == old(queue)[|old(queue)| - |queue|..]
        invariant display == if |queue| == |old(queue)| then old(display)
                           else Some(old(queue)[|old(queue)| - |queue| - 1])
        invariant hasSystem == old(hasSystem) && cam == old(cam) && idle == old(idle) && closed == old(closed)
        invariant workerSpawned == old(workerSpawned) && workerAlive == old(workerAlive)
        invariant writer == old(writer) && recordings == old(recordings)
        invariant nextImage == old(nextImage) && released == old(released)
        decreases |queue|
      {
        var frame := queue[0];
        queue := queue[1..];
        display := Some(frame);
      }
    }

    /**
     * `stop_recording`: set the idle flag, join the thread (which ends
     * acquisition if still in its loop), end acquisition if the camera
     * still streams, release the writer. Exactly one `EndAcquisition` is
     * sent when a thread was running or the camera streamed, and a second
     * call changes nothing.
     */
    method StopRecording()
      requires Valid()
      modifies this, cam
      ensures Valid() && idle && !workerAlive && writer.None? && cam == old(cam)
      ensures recordings == old(recordings) + (if old(writer).Some? then [old(writer).value] else [])
      ensures cam != null ==> !cam.streaming && cam.Nodes() == old(cam.Nodes())
                              && cam.log == old(cam.log) + (if old(workerAlive) || old(cam.streaming)
                                                            then [Call.EndAcquisition] else [])
      ensures old(idle) && old(writer).None? && (cam == null || !old(cam.streaming)) ==>
                unchanged(this) && (cam != null ==> unchanged(cam))
      ensures hasSystem == old(hasSystem) && closed == old(closed) && workerSpawned == old(workerSpawned)
      ensures queue == old(queue) && display == old(display) && nextImage == old(nextImage) && released == old(released)
    {
      SignalAndJoin();
      if cam != null && cam.streaming {
        cam.EndAcquisition();
      }
      if writer.Some? {
        recordings := recordings + [writer.value];
        writer := None;
      }
    }

    /**
     * `on_close`: set the idle flag, join the thread, release the writer
     * (the field keeps the released handle), end acquisition if streaming,
     * then deinitialise and drop the camera and release the SDK instance.
     */
    method OnClose()
      requires Valid() && !closed
      modifies this, cam
      ensures Valid() && closed && idle && !workerAlive && cam == null && !hasSystem
      ensures writer == old(writer)
      ensures recordings == old(recordings) + (if old(writer).Some? then [old(writer).value] else [])
      ensures old(cam) != null ==> !old(cam).streaming && old(cam).Nodes() == old(cam.Nodes())
      ensures old(cam) != null ==> old(cam).log == old(cam.log) + (if old(workerAlive) || old(cam.streaming)
                                                                   then [Call.EndAcquisition] else [])
                                                                + [Call.DeInit]
      ensures workerSpawned == old(workerSpawned) && queue == old(queue) && display == old(display)
      ensures nextImage == old(nextImage) && released == old(released)
    {
      SignalAndJoin();
      if writer.Some? {
        recordings := recordings + [writer.value];
      }
      if cam != null {
        if cam.streaming {
          cam.EndAcquisition();
        }
        cam.DeInit();
        cam := null;
      }
      // `system.ReleaseInstance()` when there is one
      hasSystem := false;
      closed := true;
    }
  }

  // ---------------------------------------------------------------------------
  // Whole sessions

  /**
   * The script from its window opening to the first press of the record
   * button, on a single camera and without `display_first_frame`: the
   * camera is taken, configured for hardware triggering and streams, an
   * empty writer is open and the loop is running.
   */
  method StartSession(initial: TriggerNodes) returns (c: Controller)
    ensures fresh(c) && fresh(c.cam) && c.Valid() && !c.closed && c.hasSystem
    ensures !c.idle && c.workerSpawned && c.workerAlive && c.cam.streaming
    ensures c.writer == Some([]) && c.recordings == [] && c.queue == [] && c.display.None?
    ensures c.nextImage == 0 && c.released == []
    ensures c.cam.log == [Call.Init] + WriteCalls(HardwareWrites) + [Call.BeginAcquisition]
  {
    c := new Controller();
    var _ := c.InitCamera(1, None, initial);
    var started := c.StartRecordingThread();
  }

  /**
   * One recording session on a single camera: start, the loop's passes,
   * one GUI tick, stop. The file written holds exactly the complete frames
   * the loop saw, in order; the display shows the last of them; and every
   * image the loop retrieved was released exactly once.
   */
  method RecordingSession(initial: TriggerNodes, results: seq<Retrieval>)
    returns (recorded: seq<Frame>, shown: Option<Frame>, releasedIds: seq<nat>)
    ensures recorded == Frames(Polled(results))
    ensures shown == if recorded == [] then None else Some(recorded[|recorded| - 1])
    ensures releasedIds == Ids(Retrieved(Polled(results)))
  {
    var c := StartSession(initial);
    ghost var frames := Frames(Polled(results));
    c.CameraAcquisition(results);
    assert c.writer == Some(frames) && c.queue == frames;
    c.UpdateGui();
    c.StopRecording();
    assert c.recordings == [frames];
    recorded := c.recordings[|c.recordings| - 1];
    shown := c.display;
    releasedIds := c.released;
  }

  /**
   * The commands the camera receives in such a session: its configuration,
   * one begin of acquisition, the passes' commands and a single end of
   * acquisition, whether the loop ended on a lost stream or was stopped.
   */
  method SessionCommands(initial: TriggerNodes, results: seq<Retrieval>) returns (commands: seq<Call>)
    ensures commands == [Call.Init] + WriteCalls(HardwareWrites) + [Call.BeginAcquisition]
                        + Requests(Polled(results)) + [Call.EndAcquisition]
  {
    var c := StartSession(initial);
    ghost var passed := c.cam.log + Requests(Polled(results));
    c.CameraAcquisition(results);
    if c.workerAlive {
      assert c.cam.log == passed && c.cam.streaming;
    } else {
      assert c.cam.log == passed + [Call.EndAcquisition] && !c.cam.streaming;
    }
    c.StopRecording();
    commands := c.cam.log;
  }

  /**
   * When the loop ends because the camera stopped streaming, the thread
   * has finished and acquisition has ended, yet nothing sets the idle
   * flag, so the next start is rejected until the stop button is used;
   * after stopping, a start succeeds again.
   */
  method StreamLossBlocksRestart(initial: TriggerNodes, results: seq<Retrieval>)
    returns (first: bool, finished: bool, second: bool, afterStop: bool)
    requires exists k :: 0 <= k < |results| && results[k].NotStreaming?
    ensures first && finished && !second && afterStop
  {
    var c := StartSession(initial);
    first := !c.idle && c.workerAlive;
    c.CameraAcquisition(results);
    finished := !c.workerAlive && !c.cam.streaming;
    second := c.StartRecordingThread();
    c.StopRecording();
    afterStop := c.StartRecordingThread();
  }
}
