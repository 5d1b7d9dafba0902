/** The face-recognition service, `src/services/face.service.js`: two
    resource flags (whether the detection models are loaded, and the
    camera stream held) and the derivation of a face identifier from a
    descriptor. Model loading, the camera and the detector are inputs; the
    floating-point rendering of one descriptor component is a parameter. */
module FaceService {
  import opened Wrappers

  /** What `Math.abs(x).toString(16)` returns for some `x`: never empty. */
  type HexRendering = s: string | s != [] witness "0"

  function Abs(x: real): real
  {
    if x < 0.0 then -x else x
  }

  /** One component's fragment: at most the first two characters of the
      hexadecimal rendering of `|n * 100|`. */
  function Fragment(n: real, render: real -> HexRendering): (f: string)
    ensures 1 <= |f| <= 2
    ensures f <= render(Abs(n * 100.0))
    ensures |f| == 2 || f == render(Abs(n * 100.0))
  {
    var s := render(Abs(n * 100.0));
    if |s| <= 2 then s else s[..2]
  }

  /** The fragments of every component, in component order. */
  function Fragments(d: seq<real>, render: real -> HexRendering): string
  {
    if d == [] then "" else Fragments(d[..|d| - 1], render) + Fragment(d[|d| - 1], render)
  }

  /** `generateFaceId(descriptor)`: `FACE-` followed by the fragments. The
      service's fields play no part, so equal descriptors (and equal
      renderings) give equal identifiers. */
  function GenerateFaceId(d: seq<real>, render: real -> HexRendering): (id: string)
    ensures 5 <= |id| && id[..5] == "FACE-"
  {
    "FACE-" + Fragments(d, render)
  }

  /** Each component contributes one or two characters. */
  lemma {:induction false} FragmentsLength(d: seq<real>, render: real -> HexRendering)
    ensures |d| <= |Fragments(d, render)| <= 2 * |d|
  {
    if d != [] {
      FragmentsLength(d[..|d| - 1], render);
    }
  }

  /** The identifier's length lies between `5 + |d|` and `5 + 2|d|`. */
  lemma FaceIdLength(d: seq<real>, render: real -> HexRendering)
    ensures 5 + |d| <= |GenerateFaceId(d, render)| <= 5 + 2 * |d|
  {
    FragmentsLength(d, render);
  }

  /** Components are rendered in order: one more component appends its
      fragment and changes nothing before it. */
  lemma FaceIdAppend(d: seq<real>, n: real, render: real -> HexRendering)
    ensures GenerateFaceId(d + [n], render) == GenerateFaceId(d, render) + Fragment(n, render)
  {
    assert (d + [n])[..|d|] == d;
  }

  /** Only magnitudes are rendered: flipping the sign of every component
      leaves the identifier unchanged. */
  lemma {:induction false} FaceIdIgnoresSign(d: seq<real>, render: real -> HexRendering)
    ensures GenerateFaceId(seq(|d|, i requires 0 <= i < |d| => -d[i]), render) == GenerateFaceId(d, render)
  {
    FragmentsIgnoreSign(d, render);
  }

  lemma {:induction false} FragmentsIgnoreSign(d: seq<real>, render: real -> HexRendering)
    ensures Fragments(seq(|d|, i requires 0 <= i < |d| => -d[i]), render) == Fragments(d, render)
  {
    var neg := seq(|d|, i requires 0 <= i < |d| => -d[i]);
    if d != [] {
      var front := d[..|d| - 1];
      assert neg[..|d| - 1] == seq(|front|, i requires 0 <= i < |front| => -front[i]);
      FragmentsIgnoreSign(front, render);
      assert Abs(neg[|d| - 1] * 100.0) == Abs(d[|d| - 1] * 100.0);
    }
  }

  /** The service singleton. A stream is identified by a number; `stopped`
      lists the streams whose tracks were stopped, in order. */
  class FaceRecognitionService {
    var isInitialized: bool
    var stream: Option<nat>
    var stopped: seq<nat>

    constructor()
      ensures !isInitialized && stream == None && stopped == []
    {
      isInitialized := false;
      stream := None;
      stopped := [];
    }

    /** `initialize()`: nothing to do once initialized; otherwise the three
        models are loaded together and the flag is set only when all three
        loads succeed. A failure is reported as one of the failed loads. */
    method Initialize(detector: Outcome, landmarks: Outcome, recognition: Outcome) returns (r: Outcome)
      modifies this
      ensures old(isInitialized) ==> r == Done && isInitialized
      ensures !old(isInitialized) ==> (r.Done? <==> detector.Done? && landmarks.Done? && recognition.Done?)
      ensures isInitialized == (old(isInitialized) || r.Done?)
      ensures r.Failed? ==> r == detector || r == landmarks || r == recognition
      ensures stream == old(stream) && stopped == old(stopped)
    {
      if isInitialized {
        return Done;
      }
      if detector.Failed? {
        return detector;
      }
      if landmarks.Failed? {
        return landmarks;
      }
      if recognition.Failed? {
        return recognition;
      }
      isInitialized := true;
      return Done;
    }

    /** `startVideo()`: the stream the camera grants replaces the field,
        and a stream held before is not stopped. A refusal leaves the field
        as it was. */
    method StartVideo(media: Result<nat, string>) returns (r: Result<nat, string>)
      modifies this
      ensures r == media
      ensures media.Ok? ==> stream == Some(media.value)
      ensures media.Err? ==> stream == old(stream)
      ensures stopped == old(stopped) && isInitialized == old(isInitialized)
    {
      if media.Err? {
        return media;
      }
      stream := Some(media.value);
      return media;
    }

    /** `stopVideo()`: stops the held stream's tracks and forgets it; with no
        stream held it does nothing, so calling it again is harmless. */
    method StopVideo()
      modifies this
      ensures stream == None
      ensures old(stream).Some? ==> stopped == old(stopped) + [old(stream).value]
      ensures old(stream).None? ==> stopped == old(stopped)
      ensures isInitialized == old(isInitialized)
    {
      if stream.Some? {
        stopped := stopped + [stream.value];
        stream := None;
      }
    }
  }
}
