/** One decode cycle over a grey frame: find the ROIs, decode each crop and
    tag its results with the crop's top-left corner, then, when the ROIs gave
    fewer than two results, decode the whole frame and tag those results with
    (0, 0). The threaded scanner always allows the whole-frame pass; the
    single-threaded one allows it only on every tenth frame. Any decoder call
    may raise, which ends the cycle without a batch. */
module DecodeCycle {
  import opened ScanTypes
  import opened RoiDetector

  /** The whole-frame pass is wanted when the ROIs gave fewer results than this. */
  const FullFrameBelow: nat := 2
  /** The single-threaded scanner allows the whole-frame pass on frames whose
      counter is a multiple of this. */
  const FullFramePeriod: int := 10

  /** The top-left corner of an ROI: the origin of the results decoded in it. */
  function RoiOrigin(r: Rect): Point
  {
    Point(r.x, r.y)
  }

  /** Each result paired with origin `o`, in the decoder's order. */
  function TagAll(ds: seq<RawResult>, o: Point): (r: seq<Tagged>)
    ensures |r| == |ds|
  {
    seq(|ds|, i requires 0 <= i < |ds| => Tagged(ds[i], o))
  }

  /** The results of decoding every ROI in turn, each tagged with its ROI's
      origin; None when some decoder call raised. */
  function RoiResults(frame: Frame, rois: seq<Rect>, decoder: Decoder): Option<seq<Tagged>>
    decreases |rois|
  {
    if rois == [] then Some([])
    else
      match RoiResults(frame, rois[..|rois| - 1], decoder)
      case None => None
      case Some(rs) =>
        var roi := rois[|rois| - 1];
        match decoder(Crop(frame, roi))
        case Raised => None
        case Decoded(ds) => Some(rs + TagAll(ds, RoiOrigin(roi)))
  }

  /** The result-count test of the whole-frame fallback (`len(results) < 2`). */
  predicate WantsFullFrame(roiResultCount: nat)
  {
    roiResultCount < FullFrameBelow
  }

  /** Whether the single-threaded scanner allows the whole-frame pass on the
      frame with this counter value. */
  predicate PeriodicGate(frameCounter: int)
  {
    frameCounter % FullFramePeriod == 0
  }

  /** The single-threaded scanner's gate opens on exactly one frame out of
      any ten consecutive counter values. */
  lemma PeriodicGateOncePerTen(n: int)
    ensures exists k :: n <= k < n + FullFramePeriod && PeriodicGate(k)
    ensures forall k, l :: n <= k < l < n + FullFramePeriod && PeriodicGate(k) ==> !PeriodicGate(l)
  {
    var k := n + (FullFramePeriod - n % FullFramePeriod) % FullFramePeriod;
    assert PeriodicGate(k);
    forall k, l | n <= k < l < n + FullFramePeriod && PeriodicGate(k)
      ensures !PeriodicGate(l)
    {
      assert l == k + (l - k);
      assert 0 < l - k < FullFramePeriod;
    }
  }

  /** Whether a cycle with gate `gate` runs the whole-frame decode: only when
      every ROI decode returned and together they gave fewer than two results. */
  predicate FullFrameRuns(frame: Frame, rois: seq<Rect>, decoder: Decoder, gate: bool)
  {
    var rr := RoiResults(frame, rois, decoder);
    rr.Some? && gate && WantsFullFrame(|rr.value|)
  }

  /** The batch of a whole cycle; None when a decoder call raised. */
  function CycleResults(frame: Frame, rois: seq<Rect>, decoder: Decoder, gate: bool): Option<seq<Tagged>>
  {
    match RoiResults(frame, rois, decoder)
    case None => None
    case Some(rs) =>
      if gate && WantsFullFrame(|rs|) then
        match decoder(Whole(frame))
        case Raised => None
        case Decoded(ds) => Some(rs + TagAll(ds, Point(0, 0)))
      else Some(rs)
  }

  /** What a cycle adds to the result queue: its batch, when there is one and
      it is not empty, and nothing otherwise. */
  function Published(batch: Option<seq<Tagged>>): (r: seq<seq<Tagged>>)
    ensures |r| <= 1
    ensures r != [] <==> batch.Some? && batch.value != []
    ensures batch.Some? && batch.value != [] ==> r == [batch.value]
    ensures forall b :: b in r ==> b != []
  {
    if batch.Some? && batch.value != [] then [batch.value] else []
  }

  /** `decode_worker`'s body (and the inline decoding of the single-threaded
      loop) after the frame is taken: the ROI search, a decode per ROI whose
      results are appended with the ROI's origin, and the gated whole-frame
      pass. `ranFull` tells whether the whole frame was decoded. A raising
      decoder call abandons the cycle. */
  method DecodeFrame(frame: Frame, contours: seq<Contour>, decoder: Decoder, gate: bool)
    returns (batch: Option<seq<Tagged>>, ranFull: bool)
    ensures batch == CycleResults(frame, AdmittedRects(contours, frame.width, frame.height), decoder, gate)
    ensures ranFull == FullFrameRuns(frame, AdmittedRects(contours, frame.width, frame.height), decoder, gate)
  {
    var rois := FindRois(contours, frame.width, frame.height);
    var results: seq<Tagged> := [];
    ranFull := false;
    for i := 0 to |rois|
      invariant RoiResults(frame, rois[..i], decoder) == Some(results)
    {
      assert rois[..i + 1][..i] == rois[..i];
      var roi := rois[i];
      var decoded := decoder(Crop(frame, roi));
      if decoded.Raised? {
        RoiResultsAbandoned(frame, rois, i + 1, decoder);
        return None, false;
      }
      ghost var before := results;
      for j := 0 to |decoded.results|
        invariant results == before + TagAll(decoded.results[..j], RoiOrigin(roi))
      {
        assert TagAll(decoded.results[..j + 1], RoiOrigin(roi))
            == TagAll(decoded.results[..j], RoiOrigin(roi)) + [Tagged(decoded.results[j], RoiOrigin(roi))];
        results := results + [Tagged(decoded.results[j], RoiOrigin(roi))];
      }
      assert decoded.results[..|decoded.results|] == decoded.results;
    }
    assert rois[..|rois|] == rois;
    if gate && WantsFullFrame(|results|) {
      ranFull := true;
      var decodedFull := decoder(Whole(frame));
      if decodedFull.Raised? {
        return None, ranFull;
      }
      results := results + TagAll(decodedFull.results, Point(0, 0));
    }
    batch := Some(results);
  }

  /** Once a decoder call on one of the first k ROIs raised, the whole ROI
      pass yields nothing. */
  lemma {:induction false} RoiResultsAbandoned(frame: Frame, rois: seq<Rect>, k: nat, decoder: Decoder)
    requires k <= |rois|
    requires RoiResults(frame, rois[..k], decoder) == None
    ensures RoiResults(frame, rois, decoder) == None
    decreases |rois| - k
  {
    if k < |rois| {
      assert rois[..k + 1][..k] == rois[..k];
      RoiResultsAbandoned(frame, rois, k + 1, decoder);
    } else {
      assert rois[..k] == rois;
    }
  }

  /** The ROI pass yields a list exactly when no decoder call on an ROI raised. */
  lemma {:induction false} RoiResultsSucceedIff(frame: Frame, rois: seq<Rect>, decoder: Decoder)
    ensures RoiResults(frame, rois, decoder).Some?
        <==> forall j :: 0 <= j < |rois| ==> decoder(Crop(frame, rois[j])).Decoded?
  {
    if rois != [] {
      var init := rois[..|rois| - 1];
      RoiResultsSucceedIff(frame, init, decoder);
      assert forall j :: 0 <= j < |init| ==> init[j] == rois[j];
    }
  }

  /** The number of results the decoder returns for the crops of `rois`
      together; a raising call contributes none. */
  function DecodedCount(frame: Frame, rois: seq<Rect>, decoder: Decoder): nat
    decreases |rois|
  {
    if rois == [] then 0
    else
      var n := match decoder(Crop(frame, rois[|rois| - 1]))
        case Raised => 0
        case Decoded(ds) => |ds|;
      DecodedCount(frame, rois[..|rois| - 1], decoder) + n
  }

  /** The ROI pass holds exactly as many results as the decoder returned for
      all ROIs together, which is the count the fallback test compares with 2. */
  lemma {:induction false} RoiResultsCount(frame: Frame, rois: seq<Rect>, decoder: Decoder)
    requires RoiResults(frame, rois, decoder).Some?
    ensures |RoiResults(frame, rois, decoder).value| == DecodedCount(frame, rois, decoder)
    ensures FullFrameRuns(frame, rois, decoder, true) <==> DecodedCount(frame, rois, decoder) < FullFrameBelow
  {
    if rois != [] {
      RoiResultsCount(frame, rois[..|rois| - 1], decoder);
    }
  }

  /** `t` is one of the results the decoder returned for the crop at `roi`,
      tagged with that ROI's origin. */
  predicate DecodedIn(frame: Frame, decoder: Decoder, roi: Rect, t: Tagged)
  {
    && t.origin == RoiOrigin(roi)
    && decoder(Crop(frame, roi)).Decoded?
    && t.result in decoder(Crop(frame, roi)).results
  }

  /** Every ROI result carries the origin of the ROI it was decoded in, and is
      one of the results the decoder returned for that ROI's crop. */
  lemma {:induction false} RoiResultsOrigins(frame: Frame, rois: seq<Rect>, decoder: Decoder)
    requires RoiResults(frame, rois, decoder).Some?
    ensures var rs := RoiResults(frame, rois, decoder).value;
      forall k :: 0 <= k < |rs| ==> exists j :: 0 <= j < |rois| && DecodedIn(frame, decoder, rois[j], rs[k])
  {
    if rois != [] {
      var init := rois[..|rois| - 1];
      var roi := rois[|rois| - 1];
      RoiResultsOrigins(frame, init, decoder);
      var front := RoiResults(frame, init, decoder).value;
      var ds := decoder(Crop(frame, roi)).results;
      var rs := RoiResults(frame, rois, decoder).value;
      assert rs == front + TagAll(ds, RoiOrigin(roi));
      forall k | 0 <= k < |rs|
        ensures exists j :: 0 <= j < |rois| && DecodedIn(frame, decoder, rois[j], rs[k])
      {
        if k < |front| {
          var j :| 0 <= j < |init| && DecodedIn(frame, decoder, init[j], front[k]);
          assert init[j] == rois[j];
        } else {
          assert rs[k] == Tagged(ds[k - |front|], RoiOrigin(roi));
          assert DecodedIn(frame, decoder, rois[|rois| - 1], rs[k]);
        }
      }
    }
  }

  /** Nothing the decoder finds in an ROI is lost: each of its results is in
      the ROI pass, tagged with that ROI's origin. */
  lemma {:induction false} RoiResultsComplete(frame: Frame, rois: seq<Rect>, decoder: Decoder, j: nat, d: RawResult)
    requires RoiResults(frame, rois, decoder).Some?
    requires j < |rois|
    requires decoder(Crop(frame, rois[j])).Decoded? && d in decoder(Crop(frame, rois[j])).results
    ensures Tagged(d, RoiOrigin(rois[j])) in RoiResults(frame, rois, decoder).value
  {
    var init := rois[..|rois| - 1];
    var roi := rois[|rois| - 1];
    var front := RoiResults(frame, init, decoder).value;
    var ds := decoder(Crop(frame, roi)).results;
    assert RoiResults(frame, rois, decoder).value == front + TagAll(ds, RoiOrigin(roi));
    if j < |init| {
      assert init[j] == rois[j];
      RoiResultsComplete(frame, init, decoder, j, d);
    } else {
      var i :| 0 <= i < |ds| && ds[i] == d;
      assert TagAll(ds, RoiOrigin(roi))[i] == Tagged(d, RoiOrigin(roi));
    }
  }

  /** The layout of a cycle's batch: the ROI results come first, unchanged;
      after them come the whole-frame results tagged (0, 0) when the fallback
      ran, and nothing when it did not. */
  lemma CycleResultsLayout(frame: Frame, rois: seq<Rect>, decoder: Decoder, gate: bool)
    requires CycleResults(frame, rois, decoder, gate).Some?
    ensures RoiResults(frame, rois, decoder).Some?
    ensures var b, rs := CycleResults(frame, rois, decoder, gate).value, RoiResults(frame, rois, decoder).value;
      && rs <= b
      && (FullFrameRuns(frame, rois, decoder, gate) <==> gate && |rs| < 2)
      && (FullFrameRuns(frame, rois, decoder, gate) ==>
            decoder(Whole(frame)).Decoded? && b[|rs|..] == TagAll(decoder(Whole(frame)).results, Point(0, 0)))
      && (!FullFrameRuns(frame, rois, decoder, gate) ==> b == rs)
      && (forall k :: |rs| <= k < |b| ==> b[k].origin == Point(0, 0))
  {
  }

  /** The single-threaded variant's batch is a prefix of the threaded one's
      for the same frame and decoder: closing the gate only drops the
      whole-frame results at the end. */
  lemma GatedBatchIsPrefix(frame: Frame, rois: seq<Rect>, decoder: Decoder)
    requires CycleResults(frame, rois, decoder, true).Some?
    ensures CycleResults(frame, rois, decoder, false) == RoiResults(frame, rois, decoder)
    ensures CycleResults(frame, rois, decoder, false).value <= CycleResults(frame, rois, decoder, true).value
  {
  }
}
