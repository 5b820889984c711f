/**
 * Camera helpers of nvuelab/utils/camera.py: trigger configuration, restarting
 * acquisition, grabbing one frame to learn its size, and choosing the camera
 * index at start-up.
 *
 * The device is an object whose trigger nodes and streaming flag change in
 * place. Every command sent to it (node writes, `Init` and `DeInit`, begin
 * and end of acquisition, the software trigger, `GetNextImage`, and the
 * release of an image it delivered) is appended to a log, so that the order
 * of the commands can be stated and proved. Queries (`IsStreaming`, reading
 * the trigger mode, an image's status and size) are not logged.
 */
module CameraUtils {
  import opened Base

  datatype TriggerMode = Off | On
  datatype TriggerSource = Software | Line0 | Line1 | Line2 | Line3
  datatype TriggerActivation = RisingEdge | FallingEdge | AnyEdge | LevelHigh | LevelLow

  /** The three trigger nodes of the device's node map. */
  datatype TriggerNodes = TriggerNodes(mode: TriggerMode, source: TriggerSource, activation: TriggerActivation)

  /** One `SetValue` on a trigger node. */
  datatype Write =
    | ModeWrite(mode: TriggerMode)
    | SourceWrite(source: TriggerSource)
    | ActivationWrite(activation: TriggerActivation)

  /** A command sent to the device, as recorded in its log. */
  datatype Call =
    | NodeWrite(write: Write)
    | Init
    | DeInit
    | BeginAcquisition
    | EndAcquisition
    | ExecuteSoftwareTrigger
    | GetNextImage
    | ReleaseImage

  /** What `GetNextImage` hands back: an image (complete or not) with its size, or an exception. */
  datatype GrabOutcome = Grabbed(complete: bool, width: nat, height: nat) | GrabRaised

  /** The outcome of `get_frame_info`: the size, `None`, or the exception propagated after `finally`. */
  datatype FrameInfo = Size(width: nat, height: nat) | NoSize | Raised

  // ---------------------------------------------------------------------------
  // Trigger configuration as a specification on values

  /** The effect of one node write. */
  function Apply(n: TriggerNodes, w: Write): TriggerNodes
  {
    match w
    case ModeWrite(m) => n.(mode := m)
    case SourceWrite(s) => n.(source := s)
    case ActivationWrite(a) => n.(activation := a)
  }

  /** The effect of a sequence of node writes, first to last. */
  function ApplyAll(n: TriggerNodes, ws: seq<Write>): TriggerNodes
    decreases |ws|
  {
    if ws == [] then n else ApplyAll(Apply(n, ws[0]), ws[1..])
  }

  /** The log entries of a sequence of node writes. */
  function WriteCalls(ws: seq<Write>): (cs: seq<Call>)
    ensures |cs| == |ws|
    ensures forall i :: 0 <= i < |ws| ==> cs[i] == NodeWrite(ws[i])
  {
    seq(|ws|, i requires 0 <= i < |ws| => NodeWrite(ws[i]))
  }

  const HardwareWrites: seq<Write> :=
    [ModeWrite(Off), SourceWrite(Line2), ActivationWrite(RisingEdge), ModeWrite(On)]

  const SoftwareWrites: seq<Write> :=
    [ModeWrite(Off), SourceWrite(Software), ModeWrite(On)]

  /** The writes `configure_trigger` performs for a trigger name, in order. */
  function TriggerWrites(trigger: string): seq<Write>
  {
    if trigger == "hardware" then HardwareWrites
    else if trigger == "software" then SoftwareWrites
    else []
  }

  /**
   * The node state a trigger name asks for, stated independently of the
   * writes: hardware triggering on a rising edge of line 2, software
   * triggering with the activation left as it was, or no change at all.
   */
  function TriggerTarget(n: TriggerNodes, trigger: string): TriggerNodes
  {
    if trigger == "hardware" then TriggerNodes(On, Line2, RisingEdge)
    else if trigger == "software" then n.(mode := On, source := Software)
    else n
  }

  /** Every source or activation write of `ws`, applied from `n`, finds the trigger mode Off. */
  predicate WritesWhileOff(n: TriggerNodes, ws: seq<Write>)
    decreases |ws|
  {
    ws == [] || ((ws[0].ModeWrite? || n.mode == Off) && WritesWhileOff(Apply(n, ws[0]), ws[1..]))
  }

  /** Applying `a` then `b` is applying `a + b`. */
  lemma {:induction false} ApplyAllAppend(n: TriggerNodes, a: seq<Write>, b: seq<Write>)
    ensures ApplyAll(n, a + b) == ApplyAll(ApplyAll(n, a), b)
    decreases |a|
  {
    if a == [] {
      assert a + b == b;
    } else {
      assert (a + b)[1..] == a[1..] + b;
      ApplyAllAppend(Apply(n, a[0]), a[1..], b);
    }
  }

  /** A node that no write of `ws` touches keeps its value. */
  lemma {:induction false} ApplyAllFrame(n: TriggerNodes, ws: seq<Write>)
    ensures (forall i :: 0 <= i < |ws| ==> !ws[i].ModeWrite?) ==> ApplyAll(n, ws).mode == n.mode
    ensures (forall i :: 0 <= i < |ws| ==> !ws[i].SourceWrite?) ==> ApplyAll(n, ws).source == n.source
    ensures (forall i :: 0 <= i < |ws| ==> !ws[i].ActivationWrite?) ==> ApplyAll(n, ws).activation == n.activation
    decreases |ws|
  {
    if ws != [] {
      ApplyAllFrame(Apply(n, ws[0]), ws[1..]);
      assert forall i :: 0 <= i < |ws| - 1 ==> ws[1..][i] == ws[i + 1];
    }
  }

  /**
   * The writes of a known trigger name reach its target from any starting
   * state, write source and activation only while the mode is Off, and end
   * with the mode On; an unknown name writes nothing.
   */
  lemma TriggerWritesReachTarget(n: TriggerNodes, trigger: string)
    ensures ApplyAll(n, TriggerWrites(trigger)) == TriggerTarget(n, trigger)
    ensures trigger == "hardware" || trigger == "software" ==>
      WritesWhileOff(n, TriggerWrites(trigger)) && TriggerTarget(n, trigger).mode == On
    ensures trigger != "hardware" && trigger != "software" ==> TriggerWrites(trigger) == []
  {
    var ws := TriggerWrites(trigger);
    if ws != [] {
      var n1 := Apply(n, ws[0]);
      var n2 := Apply(n1, ws[1]);
      var n3 := Apply(n2, ws[2]);
      assert ws[1..][1..] == ws[2..];
      assert ws[2..][1..] == ws[3..];
      if trigger == "hardware" {
        assert ws[3..][1..] == [];
        assert ApplyAll(n, ws) == Apply(n3, ws[3]);
        assert WritesWhileOff(n3, ws[3..]);
      } else {
        assert ApplyAll(n, ws) == n3;
      }
    }
  }

  /**
   * Configuring the same trigger twice, that is, performing its writes twice
   * over, leaves the nodes as configuring it once.
   */
  lemma {:induction false} ConfigureTriggerIdempotent(n: TriggerNodes, trigger: string)
    ensures ApplyAll(n, TriggerWrites(trigger) + TriggerWrites(trigger)) == ApplyAll(n, TriggerWrites(trigger))
  {
    var ws := TriggerWrites(trigger);
    ApplyAllAppend(n, ws, ws);
    TriggerWritesReachTarget(n, trigger);
    TriggerWritesReachTarget(TriggerTarget(n, trigger), trigger);
  }

  /** The software configuration never writes the activation node, so it survives. */
  lemma {:induction false} SoftwareKeepsActivation(n: TriggerNodes)
    ensures ApplyAll(n, TriggerWrites("software")).activation == n.activation
  {
    var ws := TriggerWrites("software");
    assert forall i :: 0 <= i < |ws| ==> !ws[i].ActivationWrite?;
    ApplyAllFrame(n, ws);
  }

  // ---------------------------------------------------------------------------
  // The device

  /** An initialised camera: its trigger nodes, whether it streams, and the calls made on it. */
  class Camera {
    var mode: TriggerMode
    var source: TriggerSource
    var activation: TriggerActivation
    var streaming: bool
    var log: seq<Call>

    function Nodes(): TriggerNodes
      reads this
    {
      TriggerNodes(mode, source, activation)
    }

    /** `cam.Init()` on a device whose trigger nodes hold `initial`. */
    constructor (initial: TriggerNodes)
      ensures Nodes() == initial && !streaming && log == [Call.Init]
    {
      mode, source, activation := initial.mode, initial.source, initial.activation;
      streaming := false;
      log := [Call.Init];
    }

    /**
     * One `SetValue` on a trigger node. The device refuses a source or
     * activation write while the trigger mode is On, which is why the
     * configuration turns the mode Off first.
     */
    method WriteNode(w: Write)
      requires w.ModeWrite? || mode == Off
      modifies this
      ensures Nodes() == Apply(old(Nodes()), w)
      ensures streaming == old(streaming) && log == old(log) + [NodeWrite(w)]
    {
      match w {
        case ModeWrite(m) => mode := m;
        case SourceWrite(s) => source := s;
        case ActivationWrite(a) => activation := a;
      }
      log := log + [NodeWrite(w)];
    }

    method BeginAcquisition()
      modifies this
      ensures streaming && Nodes() == old(Nodes()) && log == old(log) + [Call.BeginAcquisition]
    {
      streaming := true;
      log := log + [Call.BeginAcquisition];
    }

    method EndAcquisition()
      modifies this
      ensures !streaming && Nodes() == old(Nodes()) && log == old(log) + [Call.EndAcquisition]
    {
      streaming := false;
      log := log + [Call.EndAcquisition];
    }

    method ExecuteSoftwareTrigger()
      modifies this
      ensures streaming == old(streaming) && Nodes() == old(Nodes())
      ensures log == old(log) + [Call.ExecuteSoftwareTrigger]
    {
      log := log + [Call.ExecuteSoftwareTrigger];
    }

    /** Records the `GetNextImage` call; what it returns is an input of the caller. */
    method GetNextImage()
      modifies this
      ensures streaming == old(streaming) && Nodes() == old(Nodes())
      ensures log == old(log) + [Call.GetNextImage]
    {
      log := log + [Call.GetNextImage];
    }

    /** `Release()` of an image the device delivered. */
    method ReleaseImage()
      modifies this
      ensures streaming == old(streaming) && Nodes() == old(Nodes())
      ensures log == old(log) + [Call.ReleaseImage]
    {
      log := log + [Call.ReleaseImage];
    }

    method DeInit()
      modifies this
      ensures streaming == old(streaming) && Nodes() == old(Nodes())
      ensures log == old(log) + [Call.DeInit]
    {
      log := log + [Call.DeInit];
    }

    /**
     * `configure_trigger`: the writes of `TriggerWrites(trigger)` in order,
     * which bring the nodes to `TriggerTarget`; an unknown name writes nothing.
     */
    method ConfigureTrigger(trigger: string)
      modifies this
      ensures streaming == old(streaming)
      ensures Nodes() == TriggerTarget(old(Nodes()), trigger)
      ensures log == old(log) + WriteCalls(TriggerWrites(trigger))
    {
      if trigger == "hardware" {
        WriteNode(ModeWrite(Off));
        WriteNode(SourceWrite(Line2));
        WriteNode(ActivationWrite(RisingEdge));
        WriteNode(ModeWrite(On));
      } else if trigger == "software" {
        WriteNode(ModeWrite(Off));
        WriteNode(SourceWrite(Software));
        WriteNode(ModeWrite(On));
      }
    }

    /** `restart_camera`: ends acquisition exactly when the camera is streaming. */
    method RestartCamera()
      modifies this
      ensures !streaming && Nodes() == old(Nodes())
      ensures log == old(log) + (if old(streaming) then [Call.EndAcquisition] else [])
    {
      if streaming {
        EndAcquisition();
      }
    }

    /**
     * `get_frame_info`: restart, configure software triggering, begin, fire
     * the trigger, grab one image and, on every path, end acquisition. The
     * log shows no `ReleaseImage`: the grabbed image is never released.
     */
    method GetFrameInfo(grab: GrabOutcome) returns (info: FrameInfo)
      modifies this
      ensures !streaming
      ensures info.Size? <==> grab.Grabbed? && grab.complete
      ensures info.Size? ==> info == Size(grab.width, grab.height)
      ensures info.Raised? <==> grab.GrabRaised?
      ensures Nodes() == TriggerTarget(old(Nodes()), "software")
      ensures log == old(log) + (if old(streaming) then [Call.EndAcquisition] else [])
                     + WriteCalls(SoftwareWrites)
                     + [Call.BeginAcquisition, Call.ExecuteSoftwareTrigger, Call.GetNextImage, Call.EndAcquisition]
    {
      RestartCamera();
      ConfigureTrigger("software");
      BeginAcquisition();
      if mode == On {
        ExecuteSoftwareTrigger();
      }
      GetNextImage();
      match grab {
        case GrabRaised =>
          info := Raised;
        case Grabbed(complete, width, height) =>
          info := if complete then Size(width, height) else NoSize;
      }
      EndAcquisition();
    }
  }

  /** Restarting twice sends commands only the first time. */
  method RestartTwice(cam: Camera)
    modifies cam
    ensures !cam.streaming
    ensures cam.log == old(cam.log) + (if old(cam.streaming) then [Call.EndAcquisition] else [])
  {
    cam.RestartCamera();
    cam.RestartCamera();
  }

  // ---------------------------------------------------------------------------
  // Camera selection in `init`

  /** A typed answer that names a camera: a number (not `None`, which is text `int()` rejects) in range. */
  predicate InRange(answer: Option<int>, size: nat)
  {
    answer.Some? && 0 <= answer.value < size
  }

  /**
   * The prompt loop of `init`: index 0 unless several cameras are present,
   * in which case the first answer in range. The loop does not end until
   * the operator gives one, so only such answer sequences are considered.
   */
  method ChooseIndex(size: nat, answers: seq<Option<int>>) returns (index: int)
    requires size > 1 ==> exists k :: 0 <= k < |answers| && InRange(answers[k], size)
    ensures size <= 1 ==> index == 0
    ensures size > 1 ==> 0 <= index < size
    ensures size > 1 ==> exists k :: 0 <= k < |answers| && answers[k] == Some(index)
                          && forall j :: 0 <= j < k ==> !InRange(answers[j], size)
  {
    index := 0;
    if size > 1 {
      var k := 0;
      while true
        invariant 0 <= k < |answers|
        invariant exists j :: k <= j < |answers| && InRange(answers[j], size)
        invariant forall j :: 0 <= j < k ==> !InRange(answers[j], size)
        decreases |answers| - k
      {
        if InRange(answers[k], size) {
          index := answers[k].value;
          break;
        }
        k := k + 1;
      }
    }
  }

  /**
   * `init`: choose the index, then take and initialise that camera. With no
   * camera at all the index 0 names nothing and no camera is returned.
   */
  method Init(size: nat, answers: seq<Option<int>>, initial: TriggerNodes) returns (index: int, cam: Camera?)
    requires size > 1 ==> exists k :: 0 <= k < |answers| && InRange(answers[k], size)
    ensures 0 <= index && (size > 0 ==> index < size) && (size <= 1 ==> index == 0)
    ensures cam == null <==> size == 0
    ensures cam != null ==> fresh(cam) && cam.Nodes() == initial && !cam.streaming && cam.log == [Call.Init]
  {
    index := ChooseIndex(size, answers);
    if index < size {
      cam := new Camera(initial);
    } else {
      cam := null;
    }
  }
}
