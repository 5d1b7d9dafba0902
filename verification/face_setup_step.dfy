/** The face step, `src/components/employee/steps/FaceSetupStep.jsx`: it
    optionally starts the camera, samples face descriptors on every tick of
    a polling interval, averages them, and after ten samples derives a face
    identifier, records it for the employee and hands it to the wizard.
    Model loading, the camera, the detector's per-tick answers and the
    server's reply are inputs; the interval is a loop over its ticks. */
module FaceEnrollment {
  import opened Wrappers
  import opened Json
  import opened Http
  import opened Constants
  import opened Wizard
  import opened FaceService

  /** The step's `status`. */
  datatype FaceStatus = Initial | Preparing | Scanning | Processing | Success | Error

  const InitErrorMessage: string := "Erreur lors de l'initialisation de la caméra"
  const SaveErrorMessage: string := "Erreur lors de l'enregistrement"

  /** The number of successful detections after which the identifier is
      derived. */
  const SamplesNeeded: nat := 10

  /** A face descriptor: the detector's 128 components, as exact reals. */
  type Descriptor = s: seq<real> | |s| == 128 witness seq(128, i => 0.0)

  /** `old.map((val, i) => (val + fresh[i]) / 2)`. */
  function Average(a: Descriptor, b: Descriptor): (r: Descriptor)
    ensures forall i :: 0 <= i < 128 ==> r[i] == (a[i] + b[i]) / 2.0
  {
    seq(128, i requires 0 <= i < 128 => (a[i] + b[i]) / 2.0)
  }

  /** The interval callback's local state: `detectionCount` and
      `accumulatedDescriptor`. */
  datatype Accumulation = Accumulation(count: nat, acc: Option<Descriptor>)

  /** The state `startDetection` begins with. */
  const Fresh: Accumulation := Accumulation(0, None)

  /** One tick. When the guard fails or nothing is detected, nothing
      changes; otherwise the first descriptor is kept as it is and each
      later one is averaged into the accumulator, and the count grows. */
  function Tick(a: Accumulation, detection: Option<Descriptor>, guard: bool): (r: Accumulation)
    ensures r.count == a.count + 1 <==> guard && detection.Some?
    ensures r.count == a.count || r.count == a.count + 1
    ensures r.count == a.count ==> r == a
    ensures r.count > a.count ==> r.acc.Some?
  {
    if !guard || detection.None? then a
    else
      var next := if a.acc.None? then detection.value else Average(a.acc.value, detection.value);
      Accumulation(a.count + 1, Some(next))
  }

  /** The state after the ticks of `ticks`, stopping once the count reaches
      `SamplesNeeded` (the interval is cleared then, so later ticks never
      fire). */
  function Feed(a: Accumulation, ticks: seq<Option<Descriptor>>, guard: bool): (r: Accumulation)
    ensures a.count <= r.count
    ensures a.count <= SamplesNeeded ==> r.count <= SamplesNeeded
    ensures !guard ==> r == a
    decreases |ticks|
  {
    if ticks == [] || a.count >= SamplesNeeded then a
    else Feed(Tick(a, ticks[0], guard), ticks[1..], guard)
  }

  /** The number of ticks on which the detector found a face. */
  function Detections(ticks: seq<Option<Descriptor>>): (n: nat)
    ensures n <= |ticks|
  {
    if ticks == [] then 0 else (if ticks[0].Some? then 1 else 0) + Detections(ticks[1..])
  }

  function Min(a: nat, b: nat): nat
  {
    if a < b then a else b
  }

  /** With the guard passing, the count is the number of detections, capped
      at ten: a tick without a face counts for nothing, and every tick with
      one counts exactly once. */
  lemma {:induction false} FeedCount(a: Accumulation, ticks: seq<Option<Descriptor>>)
    requires a.count <= SamplesNeeded
    ensures Feed(a, ticks, true).count == Min(a.count + Detections(ticks), SamplesNeeded)
    decreases |ticks|
  {
    if ticks != [] && a.count < SamplesNeeded {
      FeedCount(Tick(a, ticks[0], true), ticks[1..]);
    }
  }

  /** The accumulator holds a descriptor exactly when something was counted. */
  lemma {:induction false} FeedKeepsAccumulator(a: Accumulation, ticks: seq<Option<Descriptor>>, guard: bool)
    requires a.count > 0 <==> a.acc.Some?
    ensures Feed(a, ticks, guard).count > 0 <==> Feed(a, ticks, guard).acc.Some?
    ensures Feed(a, ticks, guard).count >= a.count
    decreases |ticks|
  {
    if ticks != [] && a.count < SamplesNeeded {
      FeedKeepsAccumulator(Tick(a, ticks[0], guard), ticks[1..], guard);
    }
  }

  /** With the guard failing, no tick changes anything. */
  lemma {:induction false} StaleGuardAccumulatesNothing(a: Accumulation, ticks: seq<Option<Descriptor>>)
    ensures Feed(a, ticks, false) == a
    decreases |ticks|
  {
    if ticks != [] && a.count < SamplesNeeded {
      StaleGuardAccumulatesNothing(Tick(a, ticks[0], false), ticks[1..]);
    }
  }

  /** Three detections give `((v1 + v2) / 2 + v3) / 2`, component by
      component: the first sample is kept as it is, and every later one is
      averaged with the running value, so later samples weigh more. */
  lemma ThreeSamples(v1: Descriptor, v2: Descriptor, v3: Descriptor)
    ensures Feed(Fresh, [Some(v1), Some(v2), Some(v3)], true).count == 3
    ensures Feed(Fresh, [Some(v1), Some(v2), Some(v3)], true).acc.Some?
    ensures forall i :: 0 <= i < 128 ==>
      Feed(Fresh, [Some(v1), Some(v2), Some(v3)], true).acc.value[i] == ((v1[i] + v2[i]) / 2.0 + v3[i]) / 2.0
  {
    var ticks := [Some(v1), Some(v2), Some(v3)];
    var a1 := Tick(Fresh, Some(v1), true);
    var a2 := Tick(a1, Some(v2), true);
    var a3 := Tick(a2, Some(v3), true);
    assert ticks[1..] == [Some(v2), Some(v3)];
    assert ticks[1..][1..] == [Some(v3)];
    assert [Some(v3)][1..] == [];
    assert Feed(Fresh, ticks, true) == Feed(a1, [Some(v2), Some(v3)], true);
    assert Feed(a1, [Some(v2), Some(v3)], true) == Feed(a2, [Some(v3)], true);
    assert Feed(a2, [Some(v3)], true) == Feed(a3, [], true) == a3;
    assert a3.acc == Some(Average(Average(v1, v2), v3));
  }

  /** The path the identifier is posted to: `UPDATE_FACE(data.employee.id)`,
      or the `TypeError` reading `id` throws. */
  function FaceUrl(data: Object): (r: Result<string, string>)
    ensures r.Ok? <==> "employee" in data && !data["employee"].JNull?
  {
    match NestedProperty(data, "employee", "id")
    case Err(e) => Err(e)
    case Ok(id) => Ok(ApiBaseUrl + UpdateFacePath(JsString(id)))
  }

  /** The button the step shows. */
  datatype FaceAction = StartAction | SkipAction | ContinueAction | RetryAction

  /** The initial screen starts or skips according to the checkbox; the
      preparing, scanning and processing screens show no button. */
  function ActionFor(s: FaceStatus, wantsFaceRecognition: bool): (a: Option<FaceAction>)
    ensures a == Some(SkipAction) <==> s == Initial && !wantsFaceRecognition
    ensures a == Some(ContinueAction) <==> s == Success
    ensures a == Some(RetryAction) <==> s == Error
    ensures a.None? <==> s in {Preparing, Scanning, Processing}
  {
    match s
    case Initial => Some(if wantsFaceRecognition then StartAction else SkipAction)
    case Preparing => None
    case Scanning => None
    case Processing => None
    case Success => Some(ContinueAction)
    case Error => Some(RetryAction)
  }

  /** The interval's callback run over `ticks`, one detector answer per
      tick, until ten samples are counted or the ticks run out. */
  method RunTicks(start: Accumulation, ticks: seq<Option<Descriptor>>, guard: bool) returns (r: Accumulation)
    requires start.count > 0 <==> start.acc.Some?
    ensures r == Feed(start, ticks, guard)
    ensures r.count > 0 <==> r.acc.Some?
  {
    var count: nat, acc: Option<Descriptor> := start.count, start.acc;
    var i := 0;
    while i < |ticks| && count < SamplesNeeded
      invariant 0 <= i <= |ticks|
      invariant count > 0 <==> acc.Some?
      invariant Feed(start, ticks, guard) == Feed(Accumulation(count, acc), ticks[i..], guard)
    {
      assert ticks[i..][1..] == ticks[i + 1..];
      var detection := ticks[i];
      if guard && detection.Some? {
        if acc.None? {
          acc := Some(detection.value);
        } else {
          acc := Some(Average(acc.value, detection.value));
        }
        count := count + 1;
      }
      i := i + 1;
    }
    if i == |ticks| {
      assert ticks[i..] == [];
    }
    return Accumulation(count, acc);
  }

  /** The step's state. `intervalActive`, `detectionCount` and `accumulated`
      are the polling interval and its callback's locals; `guardStatus` is
      the value the callback compares with `'scanning'`, which is the
      `status` of the render whose button started the scan. */
  class FaceSetupStep {
    var status: FaceStatus
    var error: string
    var wantsFaceRecognition: bool
    var intervalActive: bool
    var guardStatus: FaceStatus
    var detectionCount: nat
    var accumulated: Option<Descriptor>
    var requests: seq<Request>
    var callbacks: seq<Callback>
    const service: FaceRecognitionService

    /** A running interval has not yet reached ten samples, and the
        accumulator holds a descriptor exactly when a sample was counted. */
    predicate Valid()
      reads this
    {
      (detectionCount > 0 <==> accumulated.Some?) &&
      (intervalActive ==> detectionCount < SamplesNeeded)
    }

    constructor(service: FaceRecognitionService)
      ensures this.service == service && Valid()
      ensures status == Initial && error == "" && !wantsFaceRecognition && !intervalActive
      ensures requests == [] && callbacks == []
    {
      this.service := service;
      status := Initial;
      error := "";
      wantsFaceRecognition := false;
      intervalActive := false;
      guardStatus := Initial;
      detectionCount := 0;
      accumulated := None;
      requests := [];
      callbacks := [];
    }

    /** The checkbox. */
    method SetWantsFaceRecognition(checked: bool)
      modifies this
      ensures wantsFaceRecognition == checked
      ensures status == old(status) && callbacks == old(callbacks) && requests == old(requests)
      ensures intervalActive == old(intervalActive) && detectionCount == old(detectionCount) && accumulated == old(accumulated)
    {
      wantsFaceRecognition := checked;
    }

    /** What `startFaceRecognition` leaves behind: the models count as
        loaded once all three loads succeed or were loaded before; with the
        camera running the step is scanning, with a fresh interval whose
        guard compares the status seen when the button was pressed; either
        failure gives the initialisation error message and leaves the
        interval and the camera as they were. Nothing is posted or handed
        to the wizard, and the camera is never stopped here. */
    twostate predicate StartEffect(detector: Outcome, landmarks: Outcome, recognition: Outcome, media: Result<nat, string>)
      reads this, service
    {
      var loaded := old(service.isInitialized) || (detector.Done? && landmarks.Done? && recognition.Done?);
      (loaded && media.Ok? ==>
        status == Scanning && error == old(error) && service.stream == Some(media.value) &&
        intervalActive && detectionCount == 0 && accumulated == None && guardStatus == old(status)) &&
      (!(loaded && media.Ok?) ==>
        status == Error && error == InitErrorMessage &&
        intervalActive == old(intervalActive) && detectionCount == old(detectionCount) &&
        accumulated == old(accumulated) && guardStatus == old(guardStatus) &&
        service.stream == old(service.stream)) &&
      wantsFaceRecognition == old(wantsFaceRecognition) && service.isInitialized == loaded &&
      service.stopped == old(service.stopped) &&
      requests == old(requests) && callbacks == old(callbacks)
    }

    /** `startFaceRecognition`: preparing, then as `StartEffect` says. */
    method StartFaceRecognition(detector: Outcome, landmarks: Outcome, recognition: Outcome, media: Result<nat, string>)
      requires Valid()
      modifies this, service
      ensures Valid()
      ensures StartEffect(detector, landmarks, recognition, media)
    {
      var clicked := status;
      status := Preparing;
      var init := service.Initialize(detector, landmarks, recognition);
      if init.Failed? {
        status := Error;
        error := InitErrorMessage;
        return;
      }
      var stream := service.StartVideo(media);
      if stream.Err? {
        status := Error;
        error := InitErrorMessage;
        return;
      }
      status := Scanning;
      // startDetection
      intervalActive := true;
      guardStatus := clicked;
      detectionCount := 0;
      accumulated := None;
    }

    /** `processDetection(descriptor)`: processing, then the identifier is
        derived and posted for the employee; only on success is the camera
        stopped and the identifier handed to the wizard. Any failure,
        including a missing employee, gives the same saving error message. */
    method ProcessDetection(descriptor: Descriptor, render: real -> HexRendering, data: Object, reply: Reply)
      modifies this, service
      ensures var faceId := GenerateFaceId(descriptor, render);
        (FaceUrl(data).Ok? ==> requests == old(requests) + [Post(FaceUrl(data).value, JObj(map["face_id" := JStr(faceId)]))]) &&
        (FaceUrl(data).Err? ==> requests == old(requests)) &&
        (FaceUrl(data).Ok? && reply.Resolved? ==>
          status == Success && error == old(error) && service.stream == None &&
          callbacks == old(callbacks) + [OnUpdate(map["faceId" := JStr(faceId)])]) &&
        (!(FaceUrl(data).Ok? && reply.Resolved?) ==>
          status == Error && error == SaveErrorMessage && callbacks == old(callbacks) &&
          service.stream == old(service.stream) && service.stopped == old(service.stopped))
      ensures FaceUrl(data).Ok? && reply.Resolved? ==>
        service.stopped == old(service.stopped) + (if old(service.stream).Some? then [old(service.stream).value] else [])
      ensures service.isInitialized == old(service.isInitialized)
      ensures intervalActive == old(intervalActive) && detectionCount == old(detectionCount) && accumulated == old(accumulated)
      ensures guardStatus == old(guardStatus) && wantsFaceRecognition == old(wantsFaceRecognition)
    {
      status := Processing;
      var faceId := GenerateFaceId(descriptor, render);
      var url := FaceUrl(data);
      if url.Err? {
        status := Error;
        error := SaveErrorMessage;
        return;
      }
      requests := requests + [Post(url.value, JObj(map["face_id" := JStr(faceId)]))];
      if reply.Rejected? {
        status := Error;
        error := SaveErrorMessage;
        return;
      }
      service.StopVideo();
      status := Success;
      callbacks := callbacks + [OnUpdate(map["faceId" := JStr(faceId)])];
    }

    /** The interval's ticks, one detector answer per tick. While fewer than
        ten samples are counted the interval keeps running; the tick that
        counts the tenth clears it and processes the accumulated
        descriptor. */
    method RunDetection(ticks: seq<Option<Descriptor>>, render: real -> HexRendering, data: Object, reply: Reply)
      requires Valid()
      modifies this, service
      ensures Valid()
      ensures !old(intervalActive) ==>
        status == old(status) && detectionCount == old(detectionCount) && accumulated == old(accumulated) &&
        requests == old(requests) && callbacks == old(callbacks) && !intervalActive
      ensures var a := Feed(Accumulation(old(detectionCount), old(accumulated)), ticks, old(guardStatus) == Scanning);
        old(intervalActive) ==>
          detectionCount == a.count && accumulated == a.acc &&
          (a.count < SamplesNeeded ==>
            intervalActive && status == old(status) && requests == old(requests) && callbacks == old(callbacks) &&
            service.stream == old(service.stream)) &&
          (a.count >= SamplesNeeded ==>
            !intervalActive && a.acc.Some? &&
            (FaceUrl(data).Ok? ==>
              requests == old(requests) +
                [Post(FaceUrl(data).value, JObj(map["face_id" := JStr(GenerateFaceId(a.acc.value, render))]))]) &&
            (FaceUrl(data).Err? ==> requests == old(requests)) &&
            (status == Success <==> FaceUrl(data).Ok? && reply.Resolved?) &&
            (status != Success ==>
              status == Error && error == SaveErrorMessage && callbacks == old(callbacks) &&
              service.stream == old(service.stream)) &&
            (status == Success ==>
              service.stream == None &&
              callbacks == old(callbacks) + [OnUpdate(map["faceId" := JStr(GenerateFaceId(a.acc.value, render))])]))
      ensures service.isInitialized == old(service.isInitialized)
      ensures !old(intervalActive) ==> service.stream == old(service.stream)
      ensures guardStatus == old(guardStatus) && wantsFaceRecognition == old(wantsFaceRecognition)
      ensures status != Success ==> service.stopped == old(service.stopped)
      ensures status != Error ==> error == old(error)
      ensures status == Success && old(status) != Success ==>
        service.stopped == old(service.stopped) + (if old(service.stream).Some? then [old(service.stream).value] else [])
    {
      if !intervalActive {
        return;
      }
      var a := RunTicks(Accumulation(detectionCount, accumulated), ticks, guardStatus == Scanning);
      var count, acc := a.count, a.acc;
      detectionCount, accumulated := count, acc;
      if count >= SamplesNeeded {
        intervalActive := false;
        ProcessDetection(acc.value, render, data, reply);
      }
    }

    /** Pressing the button the current screen shows: skipping and
        continuing both go to the review step, starting and retrying both
        run `startFaceRecognition`. A scan a press starts has a guard that
        holds the status of the screen that showed the button, which is
        never scanning; `ScanFromButtonNeverCounts` says what that does to
        the interval. */
    method Press(detector: Outcome, landmarks: Outcome, recognition: Outcome, media: Result<nat, string>)
      requires Valid()
      modifies this, service
      ensures Valid()
      ensures ActionFor(old(status), old(wantsFaceRecognition)) in {Some(SkipAction), Some(ContinueAction)} ==>
        callbacks == old(callbacks) + [OnComplete(Review)] && status == old(status) && requests == old(requests)
      ensures ActionFor(old(status), old(wantsFaceRecognition)) in {Some(StartAction), Some(RetryAction)} ==>
        StartEffect(detector, landmarks, recognition, media) && old(status) in {Initial, Error}
      ensures ActionFor(old(status), old(wantsFaceRecognition)) in {Some(StartAction), Some(RetryAction)} ==>
        status in {Scanning, Error} && callbacks == old(callbacks) && requests == old(requests)
      ensures status == Scanning && old(status) != Scanning ==> guardStatus in {Initial, Error}
      ensures ActionFor(old(status), old(wantsFaceRecognition)).None? ==>
        status == old(status) && callbacks == old(callbacks) && requests == old(requests)
      ensures ActionFor(old(status), old(wantsFaceRecognition)) !in {Some(StartAction), Some(RetryAction)} ==>
        error == old(error) && wantsFaceRecognition == old(wantsFaceRecognition) &&
        intervalActive == old(intervalActive) && guardStatus == old(guardStatus) &&
        detectionCount == old(detectionCount) && accumulated == old(accumulated) && unchanged(service)
    {
      match ActionFor(status, wantsFaceRecognition) {
        case None =>
        case Some(SkipAction) =>
          callbacks := callbacks + [OnComplete(Review)];
        case Some(ContinueAction) =>
          callbacks := callbacks + [OnComplete(Review)];
        case Some(StartAction) =>
          StartFaceRecognition(detector, landmarks, recognition, media);
        case Some(RetryAction) =>
          StartFaceRecognition(detector, landmarks, recognition, media);
      }
    }

    /** The unmount cleanup: the camera is stopped and a running interval
        cleared, whatever the status. */
    method Unmount()
      modifies this, service
      ensures service.stream == None && !intervalActive
      ensures old(service.stream).Some? ==> service.stopped == old(service.stopped) + [old(service.stream).value]
      ensures old(service.stream).None? ==> service.stopped == old(service.stopped)
      ensures status == old(status) && requests == old(requests) && callbacks == old(callbacks)
      ensures error == old(error) && wantsFaceRecognition == old(wantsFaceRecognition) && guardStatus == old(guardStatus)
      ensures detectionCount == old(detectionCount) && accumulated == old(accumulated)
      ensures service.isInitialized == old(service.isInitialized)
    {
      service.StopVideo();
      if intervalActive {
        intervalActive := false;
      }
    }
  }

  /** A scan started from the initial or the error screen, as every scan
      is, runs with a guard that never passes: however many faces the
      detector finds, nothing is counted and no identifier is derived. */
  lemma ScanFromButtonNeverCounts(clicked: FaceStatus, a: Accumulation, ticks: seq<Option<Descriptor>>)
    requires clicked == Initial || clicked == Error
    ensures Feed(a, ticks, clicked == Scanning) == a
  {
    StaleGuardAccumulatesNothing(a, ticks);
  }

  /** Ten detections reach the threshold when the guard passes, which is
      what the interval was written to do. */
  lemma TenDetectionsSuffice(ticks: seq<Option<Descriptor>>)
    requires Detections(ticks) >= SamplesNeeded
    ensures Feed(Fresh, ticks, true).count == SamplesNeeded
    ensures Feed(Fresh, ticks, true).acc.Some?
  {
    FeedCount(Fresh, ticks);
    FeedKeepsAccumulator(Fresh, ticks, true);
  }
}
