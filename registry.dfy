/** The code registry and tracker: the set of payloads seen since the last
    reset, the running count of them, and, per payload, the last polygon it
    was seen at and when. A payload seen for the first time is added, counted
    and announced (printed with its ordinal and beeped); every observation
    overwrites the payload's tracked entry; entries older than half a second
    are pruned; a reset clears everything. */
module Registry {
  import opened ScanTypes
  import opened Geometry

  /** Age, in seconds, beyond which a tracked entry is pruned. */
  const TrackTimeout: real := 0.5

  /** The tracked entry of a payload: its last polygon and last-seen time. */
  datatype Track = Track(polygon: seq<Point>, lastSeen: real)

  /** One decoded payload as text, with its polygon in frame coordinates. */
  datatype Observation = Observation(code: string, polygon: seq<Point>)

  /** The registry's state as a value. `announced` lists the payloads that
      were announced (printed with their ordinal, and beeped) since the last
      reset, in order: the k-th was printed with ordinal k + 1. */
  datatype RegistryState = RegistryState(
    seen: set<string>,
    counter: int,
    tracked: map<string, Track>,
    announced: seq<string>)

  predicate Distinct(s: seq<string>)
  {
    forall i, j :: 0 <= i < j < |s| ==> s[i] != s[j]
  }

  /** The registry's invariant: the counter is the number of payloads seen,
      and every seen payload was announced exactly once. */
  ghost predicate Consistent(s: RegistryState)
  {
    && s.counter == |s.seen|
    && |s.announced| == s.counter
    && Distinct(s.announced)
    && (forall c :: c in s.announced <==> c in s.seen)
  }

  /** The state after a reset. */
  function Cleared(): RegistryState
  {
    RegistryState({}, 0, map[], [])
  }

  /** The state after one observation at time `now`. */
  function Observed(s: RegistryState, o: Observation, now: real): RegistryState
  {
    var counted :=
      if o.code in s.seen then s
      else s.(seen := s.seen + {o.code}, counter := s.counter + 1, announced := s.announced + [o.code]);
    counted.(tracked := counted.tracked[o.code := Track(o.polygon, now)])
  }

  /** The state after observing `obs` in order, all at time `now`. */
  function ObservedAll(s: RegistryState, obs: seq<Observation>, now: real): RegistryState
    decreases |obs|
  {
    if obs == [] then s
    else Observed(ObservedAll(s, obs[..|obs| - 1], now), obs[|obs| - 1], now)
  }

  /** The payloads that occur in `obs`. */
  function Codes(obs: seq<Observation>): set<string>
  {
    set i | 0 <= i < |obs| :: obs[i].code
  }

  /** The polygon of the last observation of `code` in `obs`, if any. */
  function LastPolygon(obs: seq<Observation>, code: string): Option<seq<Point>>
    decreases |obs|
  {
    if obs == [] then None
    else if obs[|obs| - 1].code == code then Some(obs[|obs| - 1].polygon)
    else LastPolygon(obs[..|obs| - 1], code)
  }

  /** An entry is expired at `now` when it is older than the timeout. */
  predicate IsExpired(t: Track, now: real)
  {
    now - t.lastSeen > TrackTimeout
  }

  /** The tracked map without the entries expired at `now`. */
  function Unexpired(tracked: map<string, Track>, now: real): map<string, Track>
  {
    map c | c in tracked && !IsExpired(tracked[c], now) :: tracked[c]
  }

  /** The observations a batch of tagged decoder results gives: the payload
      bytes decoded to text, and the polygon resolved to frame coordinates. */
  function Resolve(results: seq<Tagged>, utf8: TextDecoder): (obs: seq<Observation>)
    ensures |obs| == |results|
  {
    seq(|results|, i requires 0 <= i < |results| =>
      Observation(utf8(results[i].result.data), AbsolutePolygon(results[i])))
  }

  /** The registry after one display tick: the batch observed, then expiry. */
  function AfterTick(s: RegistryState, obs: seq<Observation>, now: real): RegistryState
  {
    var r := ObservedAll(s, obs, now);
    r.(tracked := Unexpired(r.tracked, now))
  }

  /** A payload is counted only on first sight: a new one raises the counter
      by exactly one and is announced once; a seen one changes neither the
      seen set, the counter nor the announcements. The invariant is kept. */
  lemma ObservedCountsFirstSightOnly(s: RegistryState, o: Observation, now: real)
    requires Consistent(s)
    ensures var r := Observed(s, o, now);
      && Consistent(r)
      && r.seen == s.seen + {o.code}
      && (o.code !in s.seen ==> r.counter == s.counter + 1 && r.announced == s.announced + [o.code])
      && (o.code in s.seen ==> r.counter == s.counter && r.announced == s.announced)
  {
  }

  /** Observing overwrites the observed payload's entry with the new polygon
      and time and leaves every other entry as it was. */
  lemma ObservedOverwritesOneEntry(s: RegistryState, o: Observation, now: real)
    ensures var r := Observed(s, o, now);
      && r.tracked.Keys == s.tracked.Keys + {o.code}
      && r.tracked[o.code] == Track(o.polygon, now)
      && (forall c :: c in s.tracked && c != o.code ==> r.tracked[c] == s.tracked[c])
  {
  }

  /** The payloads of a sequence are those of its front and its last one. */
  lemma CodesSnoc(obs: seq<Observation>)
    requires obs != []
    ensures Codes(obs) == Codes(obs[..|obs| - 1]) + {obs[|obs| - 1].code}
  {
  }

  /** Over any sequence of observations the invariant holds throughout, the
      earlier announcements stay, the seen set gains exactly the sequence's
      payloads, and the counter grows by the number of distinct payloads in
      the sequence that had not been seen before. */
  lemma {:induction false} ObservedAllCountsDistinctNewCodes(s: RegistryState, obs: seq<Observation>, now: real)
    requires Consistent(s)
    ensures var r := ObservedAll(s, obs, now);
      && Consistent(r)
      && r.seen == s.seen + Codes(obs)
      && s.announced <= r.announced
      && r.counter == s.counter + |Codes(obs) - s.seen|
    decreases |obs|
  {
    var r := ObservedAll(s, obs, now);
    if obs == [] {
      assert Codes(obs) == {};
    } else {
      var init := obs[..|obs| - 1];
      var o := obs[|obs| - 1];
      ObservedAllCountsDistinctNewCodes(s, init, now);
      var mid := ObservedAll(s, init, now);
      assert r == Observed(mid, o, now);
      ObservedCountsFirstSightOnly(mid, o, now);
      CodesSnoc(obs);
      assert mid.announced <= r.announced;
    }
    UnionCardinality(s.seen, Codes(obs));
  }

  /** Adding a set of payloads to a set adds as many elements as there are
      payloads not yet in it. */
  lemma UnionCardinality(a: set<string>, b: set<string>)
    ensures |a + b| == |a| + |b - a|
  {
  }

  /** Between resets each distinct payload is announced exactly once, however
      often it is observed: from the cleared state the announcements are
      exactly the distinct payloads of the sequence, without repetition, and
      the counter is their number. */
  lemma EachDistinctCodeAnnouncedOnce(obs: seq<Observation>, now: real)
    ensures var r := ObservedAll(Cleared(), obs, now);
      && Distinct(r.announced)
      && (forall c :: c in r.announced <==> c in Codes(obs))
      && r.counter == |r.announced| == |Codes(obs)|
  {
    ObservedAllCountsDistinctNewCodes(Cleared(), obs, now);
    assert Codes(obs) - {} == Codes(obs);
  }

  /** After a sequence of observations every payload in it is tracked with
      the polygon of its last observation and the time `now`; every other
      entry is untouched, and no entry appears that was not observed. */
  lemma {:induction false} ObservedAllTracksLastObservation(s: RegistryState, obs: seq<Observation>, now: real)
    ensures var r := ObservedAll(s, obs, now);
      && r.tracked.Keys == s.tracked.Keys + Codes(obs)
      && (forall c :: c in Codes(obs) ==>
            LastPolygon(obs, c).Some? && r.tracked[c] == Track(LastPolygon(obs, c).value, now))
      && (forall c :: c in s.tracked && c !in Codes(obs) ==> r.tracked[c] == s.tracked[c])
    decreases |obs|
  {
    if obs != [] {
      var init := obs[..|obs| - 1];
      var o := obs[|obs| - 1];
      ObservedAllTracksLastObservation(s, init, now);
      CodesSnoc(obs);
    }
  }

  /** Expiry at the boundary: an entry exactly half a second old is kept, one
      any older is pruned. */
  lemma ExpiryBoundary(p: seq<Point>, now: real, older: real)
    requires older > TrackTimeout
    ensures !IsExpired(Track(p, now - TrackTimeout), now)
    ensures IsExpired(Track(p, now - older), now)
  {
  }

  /** Expiry removes exactly the entries older than the timeout and leaves
      the survivors unchanged; pruning twice at the same time prunes nothing
      more; pruning later keeps no entry that pruning earlier removed. */
  lemma UnexpiredIsExact(tracked: map<string, Track>, now: real, later: real)
    requires now <= later
    ensures var r := Unexpired(tracked, now);
      && (forall c :: c in r <==> c in tracked && now - tracked[c].lastSeen <= TrackTimeout)
      && (forall c :: c in r ==> r[c] == tracked[c])
      && Unexpired(r, now) == r
      && Unexpired(tracked, later).Keys <= r.Keys
  {
  }

  /** After a display tick every payload decoded in it survives expiry, with
      the polygon of its last observation in the batch; every other entry
      survives exactly when it is at most half a second old, unchanged. */
  lemma AfterTickKeepsObservedCodes(s: RegistryState, obs: seq<Observation>, now: real)
    ensures var r := AfterTick(s, obs, now);
      && (forall c :: c in Codes(obs) ==>
            c in r.tracked && LastPolygon(obs, c).Some?
            && r.tracked[c] == Track(LastPolygon(obs, c).value, now))
      && (forall c :: c in s.tracked && c !in Codes(obs) ==>
            (c in r.tracked <==> !IsExpired(s.tracked[c], now)))
      && (forall c :: c in r.tracked ==> c in Codes(obs) || (c in s.tracked && r.tracked[c] == s.tracked[c]))
  {
    ObservedAllTracksLastObservation(s, obs, now);
  }

  /** After a reset every payload, including one seen before it, counts as
      new again: it is announced with ordinal 1. */
  lemma ClearedCountsAnyCodeAsNew(o: Observation, now: real)
    ensures o.code !in Cleared().seen
    ensures Observed(Cleared(), o, now).counter == 1
    ensures Observed(Cleared(), o, now).announced == [o.code]
  {
  }

  /** The repeated-payload scenario: a payload seen at t and again 0.2 s later
      is counted and announced once, and its tracked polygon is the later one,
      which survives expiry at the later time. */
  lemma RepeatedCodeScenario(code: string, p1: seq<Point>, p2: seq<Point>, t: real)
    ensures var r := ObservedAll(Cleared(), [Observation(code, p1), Observation(code, p2)], t + 0.2);
      r.counter == 1 && r.announced == [code]
    ensures var r := AfterTick(AfterTick(Cleared(), [Observation(code, p1)], t), [Observation(code, p2)], t + 0.2);
      r.counter == 1 && r.announced == [code] && r.tracked == map[code := Track(p2, t + 0.2)]
  {
    var o1, o2 := Observation(code, p1), Observation(code, p2);
    var t2 := t + 0.2;
    assert [o1, o2][..1] == [o1];
    assert [o1][..0] == [] && [o2][..0] == [];
    var s1 := Observed(Cleared(), o1, t2);
    assert ObservedAll(Cleared(), [o1], t2) == s1;
    assert ObservedAll(Cleared(), [o1, o2], t2) == Observed(s1, o2, t2);
    var a1 := AfterTick(Cleared(), [o1], t);
    assert ObservedAll(Cleared(), [o1], t) == Observed(Cleared(), o1, t);
    assert a1.seen == {code} && a1.counter == 1 && a1.announced == [code];
    assert ObservedAll(a1, [o2], t2) == Observed(a1, o2, t2);
    var a2 := AfterTick(a1, [o2], t2);
    assert a2.tracked.Keys == {code};
  }

  /** The registry as the scanner keeps it: fields updated in place. */
  class CodeRegistry {
    var seenCodes: set<string>
    var codeCounter: int
    var tracked: map<string, Track>
    /** The announcements (print and beep) since the last reset. */
    ghost var announced: seq<string>

    ghost function State(): RegistryState
      reads this
    {
      RegistryState(seenCodes, codeCounter, tracked, announced)
    }

    ghost predicate Valid()
      reads this
    {
      Consistent(State())
    }

    constructor ()
      ensures Valid() && State() == Cleared()
    {
      seenCodes := {};
      codeCounter := 0;
      tracked := map[];
      announced := [];
    }

    /** Registers one decoded payload: counted and announced when new,
        tracked with its polygon and `now` in any case. */
    method Observe(code: string, poly: seq<Point>, now: real) returns (isNew: bool)
      requires Valid()
      modifies this
      ensures Valid()
      ensures isNew <==> code !in old(seenCodes)
      ensures State() == Observed(old(State()), Observation(code, poly), now)
    {
      ObservedCountsFirstSightOnly(State(), Observation(code, poly), now);
      isNew := code !in seenCodes;
      if isNew {
        seenCodes := seenCodes + {code};
        codeCounter := codeCounter + 1;
        announced := announced + [code];
      }
      tracked := tracked[code := Track(poly, now)];
    }

    /** Processes one batch of tagged results in order: decodes each payload
        to text, resolves its polygon in frame coordinates and observes it. */
    method ObserveBatch(results: seq<Tagged>, now: real, utf8: TextDecoder)
      requires Valid()
      modifies this
      ensures Valid()
      ensures State() == ObservedAll(old(State()), Resolve(results, utf8), now)
    {
      ghost var obs := Resolve(results, utf8);
      for i := 0 to |results|
        invariant Valid()
        invariant State() == ObservedAll(old(State()), obs[..i], now)
      {
        assert obs[..i + 1][..i] == obs[..i];
        var code := utf8(results[i].result.data);
        var poly := AbsolutePolygon(results[i]);
        var _ := Observe(code, poly, now);
      }
      assert obs[..|results|] == obs;
    }

    /** Prunes the tracked entries older than the timeout: first collects the
        expired payloads, then deletes them one by one. */
    method Expire(now: real)
      requires Valid()
      modifies this
      ensures Valid()
      ensures seenCodes == old(seenCodes) && codeCounter == old(codeCounter) && announced == old(announced)
      ensures tracked == Unexpired(old(tracked), now)
    {
      var expired: set<string> := {};
      var pending := tracked.Keys;
      while pending != {}
        invariant tracked == old(tracked)
        invariant pending <= tracked.Keys
        invariant expired == set c | c in tracked.Keys - pending && IsExpired(tracked[c], now)
        decreases pending
      {
        var c :| c in pending;
        if now - tracked[c].lastSeen > TrackTimeout {
          expired := expired + {c};
        }
        pending := pending - {c};
      }
      var rest := expired;
      while rest != {}
        invariant rest <= expired
        invariant seenCodes == old(seenCodes) && codeCounter == old(codeCounter) && announced == old(announced)
        invariant tracked == old(tracked) - (expired - rest)
        decreases rest
      {
        var c :| c in rest;
        tracked := tracked - {c};
        rest := rest - {c};
      }
      assert tracked.Keys == Unexpired(old(tracked), now).Keys;
    }

    /** Clears the seen set, the tracked entries and the counter. */
    method Reset()
      modifies this
      ensures Valid()
      ensures State() == Cleared()
    {
      seenCodes := {};
      tracked := map[];
      codeCounter := 0;
      announced := [];
    }
  }

  /** After `Reset`, observing a payload the registry had already seen
      reports it as new, counts it as the first and announces it once. */
  method ResetThenObserveIsNew(reg: CodeRegistry, code: string, poly: seq<Point>, now: real)
    returns (isNew: bool)
    requires reg.Valid() && code in reg.seenCodes
    modifies reg
    ensures isNew
    ensures reg.codeCounter == 1 && reg.seenCodes == {code}
    ensures reg.State().announced == [code]
  {
    reg.Reset();
    isNew := reg.Observe(code, poly, now);
  }
}
