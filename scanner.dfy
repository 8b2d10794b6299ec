/** The two scanner variants around the shared core.

    `ThreadedScanner` is main.py's scanner: the display loop submits each
    grey frame to a one-slot decode queue (newest frame wins), a worker takes
    frames from that slot, decodes them and puts non-empty batches on a result
    queue, and the display loop takes at most one batch per tick and feeds it
    to the registry. The worker thread is modelled as a step the caller runs.

    `SingleThreadScanner` is test.py's scanner: it decodes each frame inline,
    allows the whole-frame pass only on every tenth frame, and has no
    exception handler around decoding. */
module Scanner {
  import opened ScanTypes
  import opened RoiDetector
  import opened DecodeCycle
  import opened Registry

  class ThreadedScanner {
    const registry: CodeRegistry
    /** The decode queue of capacity one. */
    var decodeSlot: Option<Frame>
    /** The result queue: published batches, oldest first. */
    var resultQueue: seq<seq<Tagged>>

    ghost predicate Valid()
      reads this, registry
    {
      registry.Valid()
    }

    constructor ()
      ensures Valid() && fresh(registry)
      ensures registry.State() == Cleared() && decodeSlot == None && resultQueue == []
    {
      registry := new CodeRegistry();
      decodeSlot := None;
      resultQueue := [];
    }

    /** Drains the decode queue, then puts the new frame in it: any frame the
        worker has not taken yet is discarded. */
    method Submit(gray: Frame)
      modifies this
      ensures decodeSlot == Some(gray)
      ensures resultQueue == old(resultQueue)
    {
      while decodeSlot.Some?
        invariant resultQueue == old(resultQueue)
        decreases if decodeSlot.Some? then 1 else 0
      {
        decodeSlot := None;
      }
      decodeSlot := Some(gray);
    }

    /** One round of the decode worker. With an empty decode queue the worker
        waits, and nothing changes. Otherwise it takes the frame, decodes it
        with the whole-frame fallback always allowed, and puts the batch on
        the result queue when it is not empty; a raising decoder call is
        swallowed, and the queue is left as it was. */
    method WorkerCycle(extract: Frame -> seq<Contour>, decoder: Decoder)
      modifies this
      ensures old(decodeSlot).None? ==> decodeSlot == None && resultQueue == old(resultQueue)
      ensures old(decodeSlot).Some? ==>
        var f := old(decodeSlot).value;
        && decodeSlot == None
        && resultQueue == old(resultQueue)
             + Published(CycleResults(f, AdmittedRects(extract(f), f.width, f.height), decoder, true))
    {
      if decodeSlot.None? {
        return;
      }
      var gray := decodeSlot.value;
      decodeSlot := None;
      var batch, _ := DecodeFrame(gray, extract(gray), decoder, true);
      if batch.Some? && batch.value != [] {
        resultQueue := resultQueue + [batch.value];
      }
    }

    /** Takes the oldest batch off the result queue without waiting; an empty
        queue gives an empty batch. */
    method PollResults() returns (results: seq<Tagged>)
      modifies this
      ensures old(resultQueue) == [] ==> results == [] && resultQueue == []
      ensures old(resultQueue) != [] ==> results == old(resultQueue)[0] && resultQueue == old(resultQueue)[1..]
      ensures decodeSlot == old(decodeSlot)
    {
      if resultQueue == [] {
        results := [];
      } else {
        results := resultQueue[0];
        resultQueue := resultQueue[1..];
      }
    }

    /** One pass of the display loop: submit the frame, take at most one
        batch of results, register them and prune the tracked entries. */
    method Tick(gray: Frame, now: real, utf8: TextDecoder)
      requires Valid()
      modifies this, registry
      ensures Valid()
      ensures decodeSlot == Some(gray)
      ensures resultQueue == if old(resultQueue) == [] then [] else old(resultQueue)[1..]
      ensures registry.State() == AfterTick(
        old(registry.State()),
        Resolve(if old(resultQueue) == [] then [] else old(resultQueue)[0], utf8),
        now)
    {
      Submit(gray);
      var results := PollResults();
      registry.ObserveBatch(results, now, utf8);
      registry.Expire(now);
    }

    /** Clears the registry and drains both queues. */
    method ResetScan()
      requires Valid()
      modifies this, registry
      ensures Valid()
      ensures registry.State() == Cleared() && decodeSlot == None && resultQueue == []
    {
      registry.Reset();
      while decodeSlot.Some?
        invariant Valid() && registry.State() == Cleared()
        decreases if decodeSlot.Some? then 1 else 0
      {
        decodeSlot := None;
      }
      while resultQueue != []
        invariant Valid() && registry.State() == Cleared() && decodeSlot == None
        decreases |resultQueue|
      {
        resultQueue := resultQueue[1..];
      }
    }
  }

  /** Newest frame wins: of two frames submitted before the worker runs, the
      worker decodes only the second, and the first is dropped silently. */
  method NewestFrameWins(s: ThreadedScanner, a: Frame, b: Frame, extract: Frame -> seq<Contour>, decoder: Decoder)
    modifies s
    ensures s.decodeSlot == None
    ensures s.resultQueue == old(s.resultQueue)
      + Published(CycleResults(b, AdmittedRects(extract(b), b.width, b.height), decoder, true))
  {
    s.Submit(a);
    s.Submit(b);
    s.WorkerCycle(extract, decoder);
  }

  /** Resetting twice leaves the same state as resetting once. */
  method ResetScanIsIdempotent(s: ThreadedScanner)
    requires s.Valid()
    modifies s, s.registry
    ensures s.Valid()
    ensures s.registry.State() == Cleared() && s.decodeSlot == None && s.resultQueue == []
  {
    s.ResetScan();
    ghost var once := (s.registry.State(), s.decodeSlot, s.resultQueue);
    s.ResetScan();
    assert (s.registry.State(), s.decodeSlot, s.resultQueue) == once;
  }

  class SingleThreadScanner {
    const registry: CodeRegistry
    var frameCounter: int

    ghost predicate Valid()
      reads this, registry
    {
      registry.Valid()
    }

    constructor ()
      ensures Valid() && fresh(registry)
      ensures registry.State() == Cleared() && frameCounter == 0
    {
      registry := new CodeRegistry();
      frameCounter := 0;
    }

    /** One pass of the single-threaded loop: count the frame, decode it
        inline (the whole-frame pass allowed only when the counter is a
        multiple of ten), register the results and prune the tracked entries.
        A raising decoder call escapes the loop: `crashed` is then true and
        the registry is left as it was. */
    method Tick(gray: Frame, now: real, extract: Frame -> seq<Contour>, decoder: Decoder, utf8: TextDecoder)
      returns (crashed: bool)
      requires Valid()
      modifies this, registry
      ensures Valid()
      ensures frameCounter == old(frameCounter) + 1
      ensures var batch := CycleResults(gray, AdmittedRects(extract(gray), gray.width, gray.height),
                                        decoder, PeriodicGate(frameCounter));
        && crashed == batch.None?
        && (crashed ==> registry.State() == old(registry.State()))
        && (!crashed ==> registry.State() == AfterTick(old(registry.State()), Resolve(batch.value, utf8), now))
    {
      frameCounter := frameCounter + 1;
      var batch, _ := DecodeFrame(gray, extract(gray), decoder, PeriodicGate(frameCounter));
      if batch.None? {
        return true;
      }
      registry.ObserveBatch(batch.value, now, utf8);
      registry.Expire(now);
      crashed := false;
    }

    /** Clears the seen set, the tracked entries and the counter; the frame
        counter is kept. */
    method ResetScan()
      requires Valid()
      modifies registry
      ensures Valid()
      ensures registry.State() == Cleared()
    {
      registry.Reset();
    }
  }
}
