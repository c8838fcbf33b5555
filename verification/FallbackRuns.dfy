/** Every interleaving of fallback requests, stops and late answers. */
module FallbackRuns {
  import opened Wrappers
  import opened FallbackLedger

  datatype Phase = Waiting | Compensating | Over

  /** `begun` and `answered` are positions in the history; `stops` counts compensating stops. */
  datatype Request = Request(video: string, begun: nat, phase: Phase, answered: nat, response: Response,
                             outcome: Outcome, stops: nat)

  datatype State = State(ledger: Ledger, requests: seq<Request>)

  datatype Event =
    | Asks(video: string)
    | Stops(which: Option<string>)
    | Answers(id: nat, response: Response)
    | StopSettles(id: nat)

  function Asked(s: State, video: string, now: nat): State
    requires WellFormed(s.ledger)
  {
    State(Begin(s.ledger, video), s.requests + [Request(video, now, Waiting, now, Failed, Rejected, 0)])
  }

  function Concluded(s: State, id: nat): State
    requires WellFormed(s.ledger) && id < |s.requests|
  {
    State(Finish(s.ledger, s.requests[id].video, id), s.requests[id := s.requests[id].(phase := Over)])
  }

  function Answered(s: State, id: nat, response: Response, now: nat): State
    requires WellFormed(s.ledger) && id < |s.requests| == |s.ledger.marks|
  {
    var (outcome, stop) := Settle(s.ledger.marks[id], response);
    var r := s.requests[id].(answered := now, response := response, outcome := outcome);
    if stop.Some? then s.(requests := s.requests[id := r.(phase := Compensating, stops := r.stops + 1)])
    else Concluded(s.(requests := s.requests[id := r]), id)
  }

  predicate Shaped(s: State) { WellFormed(s.ledger) && |s.ledger.marks| == |s.requests| }

  function Step(s: State, e: Event, now: nat): (t: State)
    requires Shaped(s)
    ensures Shaped(t)
  {
    match e
    case Asks(video) => Asked(s, video, now)
    case Stops(which) => s.(ledger := Stop(s.ledger, which))
    case Answers(id, response) =>
      if id < |s.requests| && s.requests[id].phase.Waiting? then Answered(s, id, response, now) else s
    case StopSettles(id) =>
      if id < |s.requests| && s.requests[id].phase.Compensating? then Concluded(s, id) else s
  }

  function After(history: seq<Event>): (s: State)
    ensures Shaped(s)
  {
    if history == [] then State(Ledger(map[], []), [])
    else Step(After(history[..|history| - 1]), history[|history| - 1], |history| - 1)
  }

  // ---- what a caller may rely on -------------------------------------------------------------------

  predicate Cancels(e: Event, video: string) {
    e == Asks(video) || e == Stops(Some(video)) || e == Stops(None)
  }

  /** A later request for the video, a stop for it, or a stop of everything. */
  ghost predicate CancelledSince(history: seq<Event>, begun: nat, video: string) {
    exists j :: begun < j < |history| && Cancels(history[j], video)
  }

  lemma CancelledExtends(history: seq<Event>, e: Event, begun: nat, video: string)
    requires begun < |history|
    ensures CancelledSince(history + [e], begun, video) <==> CancelledSince(history, begun, video) || Cancels(e, video)
  {
    var h := history + [e];
    if Cancels(e, video) {
      assert h[|history|] == e;
    }
    if CancelledSince(history, begun, video) {
      var j :| begun < j < |history| && Cancels(history[j], video);
      assert Cancels(h[j], video);
    }
    if CancelledSince(h, begun, video) {
      var j :| begun < j < |h| && Cancels(h[j], video);
      assert j < |history| ==> Cancels(history[j], video);
    }
  }

  ghost predicate RequestInv(history: seq<Event>, l: Ledger, i: nat, r: Request)
    requires i < |l.marks|
  {
    && r.begun < |history| && history[r.begun] == Asks(r.video)
    && (r.phase.Waiting? ==>
          && r.stops == 0
          && (l.marks[i] <==> CancelledSince(history, r.begun, r.video))
          && (!l.marks[i] ==> r.video in l.current && l.current[r.video] == i))
    && (!r.phase.Waiting? ==>
          && r.begun < r.answered < |history| && history[r.answered] == Answers(i, r.response)
          && var (outcome, stop) := Settle(CancelledSince(history[..r.answered], r.begun, r.video), r.response);
             r.outcome == outcome && r.stops == (if stop.Some? then 1 else 0))
  }

  ghost predicate Inv(history: seq<Event>, s: State) {
    && Shaped(s)
    && (forall i :: 0 <= i < |s.requests| ==> RequestInv(history, s.ledger, i, s.requests[i]))
    && (forall v :: v in s.ledger.current ==>
          s.requests[s.ledger.current[v]].video == v && !s.requests[s.ledger.current[v]].phase.Over?)
  }

  /** A request whose own record and mark are left alone, in a step that does not concern it. */
  lemma Bystander(history: seq<Event>, e: Event, l: Ledger, m: Ledger, i: nat, r: Request)
    requires i < |l.marks| <= |m.marks| && RequestInv(history, l, i, r)
    requires r.phase.Waiting? ==> (m.marks[i] <==> l.marks[i] || Cancels(e, r.video))
    requires r.phase.Waiting? && !m.marks[i] && r.video in l.current && l.current[r.video] == i
             ==> r.video in m.current && m.current[r.video] == i
    ensures RequestInv(history + [e], m, i, r)
  {
    CancelledExtends(history, e, r.begun, r.video);
    if !r.phase.Waiting? {
      assert (history + [e])[..r.answered] == history[..r.answered];
    }
  }

  lemma AsksKeeps(history: seq<Event>, s: State, video: string)
    requires Inv(history, s)
    ensures Inv(history + [Asks(video)], Asked(s, video, |history|))
  {
    var e, t, n := Asks(video), Asked(s, video, |history|), |s.requests|;
    forall i | 0 <= i < |t.requests|
      ensures RequestInv(history + [e], t.ledger, i, t.requests[i])
    {
      if i < n {
        assert RequestInv(history, s.ledger, i, s.requests[i]);
        Bystander(history, e, s.ledger, t.ledger, i, s.requests[i]);
      } else {
        assert !CancelledSince(history + [e], |history|, video);
      }
    }
  }

  lemma StopsKeeps(history: seq<Event>, s: State, which: Option<string>)
    requires Inv(history, s)
    ensures Inv(history + [Stops(which)], s.(ledger := Stop(s.ledger, which)))
  {
    var e, t := Stops(which), s.(ledger := Stop(s.ledger, which));
    forall i | 0 <= i < |t.requests|
      ensures RequestInv(history + [e], t.ledger, i, t.requests[i])
    {
      var r := s.requests[i];
      assert RequestInv(history, s.ledger, i, r);
      Bystander(history, e, s.ledger, t.ledger, i, r);
    }
  }

  lemma ConcludesKeeps(history: seq<Event>, e: Event, s: State, id: nat, r: Request)
    requires Inv(history, s) && id < |s.requests| && !s.requests[id].phase.Over?
    requires r.video == s.requests[id].video && RequestInv(history + [e], s.ledger, id, r.(phase := Over))
    requires e.Answers? || e.StopSettles?
    ensures Inv(history + [e], Concluded(s.(requests := s.requests[id := r]), id))
  {
    var t := Concluded(s.(requests := s.requests[id := r]), id);
    forall i | 0 <= i < |t.requests|
      ensures RequestInv(history + [e], t.ledger, i, t.requests[i])
    {
      if i != id {
        assert RequestInv(history, s.ledger, i, s.requests[i]);
        Bystander(history, e, s.ledger, t.ledger, i, s.requests[i]);
      }
    }
  }

  lemma AnswersKeeps(history: seq<Event>, s: State, id: nat, response: Response)
    requires Inv(history, s) && id < |s.requests| && s.requests[id].phase.Waiting?
    ensures Inv(history + [Answers(id, response)], Answered(s, id, response, |history|))
  {
    var e, t := Answers(id, response), Answered(s, id, response, |history|);
    assert RequestInv(history, s.ledger, id, s.requests[id]);
    assert (history + [e])[..|history|] == history;
    var (outcome, stop) := Settle(s.ledger.marks[id], response);
    var r := s.requests[id].(answered := |history|, response := response, outcome := outcome);
    if stop.None? {
      ConcludesKeeps(history, e, s, id, r);
    } else {
      forall i | 0 <= i < |t.requests|
        ensures RequestInv(history + [e], t.ledger, i, t.requests[i])
      {
        if i != id {
          assert RequestInv(history, s.ledger, i, s.requests[i]);
          Bystander(history, e, s.ledger, t.ledger, i, s.requests[i]);
        }
      }
    }
  }

  lemma StepKeeps(history: seq<Event>, s: State, e: Event)
    requires Inv(history, s)
    ensures Inv(history + [e], Step(s, e, |history|))
  {
    match e
    case Asks(video) => AsksKeeps(history, s, video);
    case Stops(which) => StopsKeeps(history, s, which);
    case Answers(id, response) =>
      if id < |s.requests| && s.requests[id].phase.Waiting? {
        AnswersKeeps(history, s, id, response);
      } else {
        UnaffectedKeeps(history, s, e);
      }
    case StopSettles(id) =>
      if id < |s.requests| && s.requests[id].phase.Compensating? {
        var r := s.requests[id];
        assert RequestInv(history, s.ledger, id, r);
        Bystander(history, e, s.ledger, s.ledger, id, r);
        assert s.requests[id := r] == s.requests;
        ConcludesKeeps(history, e, s, id, r);
      } else {
        UnaffectedKeeps(history, s, e);
      }
  }

  lemma UnaffectedKeeps(history: seq<Event>, s: State, e: Event)
    requires Inv(history, s) && (e.Answers? || e.StopSettles?)
    ensures Inv(history + [e], s)
  {
    forall i | 0 <= i < |s.requests|
      ensures RequestInv(history + [e], s.ledger, i, s.requests[i])
    {
      assert RequestInv(history, s.ledger, i, s.requests[i]);
      Bystander(history, e, s.ledger, s.ledger, i, s.requests[i]);
    }
  }

  lemma {:induction false} AlwaysInv(history: seq<Event>)
    ensures Inv(history, After(history))
  {
    if history != [] {
      var before := history[..|history| - 1];
      AlwaysInv(before);
      StepKeeps(before, After(before), history[|history| - 1]);
      assert before + [history[|history| - 1]] == history;
    }
  }

  // ---- main results -----------------------------------------------------------------------------------

  /** On every interleaving a request resolves as started exactly if its answer was ok and, since
      it began, no later request for its video, no stop for it and no general stop came; a success
      absorbed that way sends one compensating stop if it names a session, and nothing else does. */
  lemma ResolvesOkIff(history: seq<Event>, i: nat)
    requires i < |After(history).requests| && !After(history).requests[i].phase.Waiting?
    ensures var r := After(history).requests[i];
      r.begun < r.answered < |history|
      && history[r.begun] == Asks(r.video) && history[r.answered] == Answers(i, r.response)
      && var cancelled := CancelledSince(history[..r.answered], r.begun, r.video);
      && (r.outcome.Resolved? <==> r.response.Answer?)
      && (r.outcome.Resolved? && r.outcome.ok <==> r.response.Answer? && r.response.ok && !cancelled)
      && (r.stops == if r.response.Answer? && r.response.ok && cancelled && r.response.sessionId.Some? then 1 else 0)
  {
    AlwaysInv(history);
    assert RequestInv(history, After(history).ledger, i, After(history).requests[i]);
  }

  predicate Active(s: State, i: int)
    requires Shaped(s)
  {
    0 <= i < |s.requests| && s.requests[i].phase.Waiting? && !s.ledger.marks[i]
  }

  /** Per video at most one request in flight is unmarked, it is the ledger's entry, and
      hasActiveFallback reports exactly that. */
  lemma OneActivePerVideo(history: seq<Event>, video: string)
    ensures var s := After(history);
      && (forall i, j :: Active(s, i) && Active(s, j) && s.requests[i].video == s.requests[j].video ==> i == j)
      && (video in s.ledger.current && !s.ledger.marks[s.ledger.current[video]]
          <==> exists i :: Active(s, i) && s.requests[i].video == video)
  {
    AlwaysInv(history);
    var s := After(history);
    forall i | Active(s, i)
      ensures s.requests[i].video in s.ledger.current && s.ledger.current[s.requests[i].video] == i
    {
      assert RequestInv(history, s.ledger, i, s.requests[i]);
    }
    if video in s.ledger.current && !s.ledger.marks[s.ledger.current[video]] {
      var i := s.ledger.current[video];
      assert RequestInv(history, s.ledger, i, s.requests[i]);
      if s.requests[i].phase.Compensating? { CompensatingIsMarked(history, i); }
      assert Active(s, i) && s.requests[i].video == video;
    }
  }

  /** Only a marked request sends a compensating stop, and marks are never taken back. */
  lemma {:induction false} CompensatingIsMarked(history: seq<Event>, i: nat)
    requires i < |After(history).requests| && After(history).requests[i].phase.Compensating?
    ensures After(history).ledger.marks[i]
  {
    var n := |history| - 1;
    var s := After(history[..n]);
    if i < |s.requests| && s.requests[i].phase.Compensating? {
      CompensatingIsMarked(history[..n], i);
    }
  }

  /** An older request that settles never takes a newer one's entry away. */
  lemma NewerEntryStays(s: State, e: Event, now: nat, video: string)
    requires Shaped(s) && video in s.ledger.current && (e.Answers? || e.StopSettles?) && e.id != s.ledger.current[video]
    ensures video in Step(s, e, now).ledger.current && Step(s, e, now).ledger.current[video] == s.ledger.current[video]
  {
  }

  /** Once every request is over the ledger is empty. */
  lemma NothingLeftBehind(history: seq<Event>)
    requires forall i :: 0 <= i < |After(history).requests| ==> After(history).requests[i].phase.Over?
    ensures After(history).ledger.current == map[]
  {
    AlwaysInv(history);
    assert forall v :: v !in After(history).ledger.current;
  }
}
