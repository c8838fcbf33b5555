/** The ledger of in-flight native fallback requests, src/core/native-session-client.ts. */
module FallbackLedger {
  import opened Wrappers

  // ---- the ledger as a value ---------------------------------------------------------------------

  /** Requests are numbered as they begin: the current one per video, and the stop marks of all. */
  datatype Ledger = Ledger(current: map<string, nat>, marks: seq<bool>)

  predicate WellFormed(l: Ledger) { forall v :: v in l.current ==> l.current[v] < |l.marks| }

  function Mark(l: Ledger, v: string): (r: Ledger)
    requires WellFormed(l)
    ensures WellFormed(r)
  {
    if v in l.current then l.(marks := l.marks[l.current[v] := true]) else l
  }

  /** A second request supersedes the one in flight. */
  function Begin(l: Ledger, v: string): (r: Ledger)
    requires WellFormed(l)
    ensures WellFormed(r)
  {
    Ledger(l.current[v := |l.marks|], Mark(l, v).marks + [false])
  }

  function MarkAll(l: Ledger): (r: Ledger)
    requires WellFormed(l)
    ensures WellFormed(r)
  {
    l.(marks := seq(|l.marks|, i requires 0 <= i < |l.marks| => l.marks[i] || i in l.current.Values))
  }

  function Stop(l: Ledger, video: Option<string>): (r: Ledger)
    requires WellFormed(l)
    ensures WellFormed(r)
  {
    if video.Some? then Mark(l, video.value) else MarkAll(l)
  }

  /** A settled request leaves the ledger unless a newer one has taken its place. */
  function Finish(l: Ledger, v: string, id: nat): (r: Ledger)
    requires WellFormed(l)
    ensures WellFormed(r)
  {
    if v in l.current && l.current[v] == id then l.(current := l.current - {v}) else l
  }

  datatype Response = Failed | Answer(ok: bool, sessionId: Option<string>)

  datatype Outcome = Rejected | Resolved(ok: bool, sessionId: Option<string>)

  /** What the request resolves to, and the session a compensating stop goes out for. */
  function Settle(marked: bool, response: Response): (Outcome, Option<string>) {
    match response
    case Failed => (Rejected, None)
    case Answer(ok, sessionId) =>
      if marked then (Resolved(false, None), if ok then sessionId else None)
      else (Resolved(ok, sessionId), None)
  }

  // ---- the class -----------------------------------------------------------------------------------

  class PendingFallback {
    ghost const id: nat
    var stopRequested: bool

    constructor (ghost id: nat)
      ensures !stopRequested && this.id == id
    {
      this.id := id;
      stopRequested := false;
    }
  }

  class NativeSessionClient {
    var pendingFallbacks: map<string, PendingFallback>
    ghost var entries: seq<PendingFallback>

    ghost predicate Valid()
      reads this, entries
    {
      && (forall i :: 0 <= i < |entries| ==> entries[i].id == i)
      && (forall v :: v in pendingFallbacks ==> pendingFallbacks[v] in entries)
    }

    ghost function State(): (l: Ledger)
      requires Valid()
      reads this, entries
      ensures WellFormed(l)
    {
      Ledger(map v | v in pendingFallbacks :: pendingFallbacks[v].id,
             seq(|entries|, i requires 0 <= i < |entries| reads this, entries => entries[i].stopRequested))
    }

    constructor ()
      ensures Valid() && State() == Ledger(map[], [])
    {
      pendingFallbacks, entries := map[], [];
    }

    /** requestFallback up to its first await. */
    method BeginRequest(videoId: string) returns (pending: PendingFallback)
      requires Valid()
      modifies this, entries
      ensures Valid() && entries == old(entries) + [pending] && fresh(pending)
      ensures State() == Begin(old(State()), videoId)
    {
      ghost var before := State();
      MarkCurrent(videoId);
      ghost var marked := State();
      pending := new PendingFallback(|entries|);
      assert State() == marked;
      pendingFallbacks := pendingFallbacks[videoId := pending];
      entries := entries + [pending];
      assert State().marks == marked.marks + [false];
      assert State().current == Begin(before, videoId).current;
    }

    method MarkCurrent(videoId: string)
      requires Valid()
      modifies entries
      ensures Valid() && State() == Mark(old(State()), videoId)
    {
      ghost var before := State();
      if videoId in pendingFallbacks {
        pendingFallbacks[videoId].stopRequested := true;
      }
      assert State().marks == Mark(before, videoId).marks;
    }

    /** From the response to the compensating stop, if one goes out. */
    method Answered(pending: PendingFallback, response: Response) returns (r: (Outcome, Option<string>))
      requires Valid() && pending in entries
      ensures r == Settle(State().marks[pending.id], response)
    {
      assert entries[pending.id] == pending;
      match response
      case Failed => r := (Rejected, None);
      case Answer(ok, sessionId) =>
        if ok && pending.stopRequested {
          return (Resolved(false, None), sessionId);
        }
        if !ok && pending.stopRequested {
          return (Resolved(false, None), None);
        }
        r := (Resolved(ok, sessionId), None);
    }

    /** The finally block. */
    method Settled(pending: PendingFallback, videoId: string)
      requires Valid() && pending in entries
      modifies this`pendingFallbacks
      ensures Valid() && entries == old(entries)
      ensures State() == Finish(old(State()), videoId, pending.id)
    {
      ghost var before := State();
      assert videoId in pendingFallbacks ==> entries[pendingFallbacks[videoId].id] == pendingFallbacks[videoId];
      if videoId in pendingFallbacks && pendingFallbacks[videoId] == pending {
        pendingFallbacks := pendingFallbacks - {videoId};
      }
      assert State().current == Finish(before, videoId, pending.id).current;
    }

    method StopSession(videoId: Option<string>)
      requires Valid()
      modifies entries
      ensures Valid() && State() == Stop(old(State()), videoId)
    {
      ghost var before := State();
      if videoId.Some? {
        MarkCurrent(videoId.value);
      } else {
        var rest := pendingFallbacks.Keys;
        while |rest| > 0
          invariant rest <= pendingFallbacks.Keys && Valid()
          invariant State().current == before.current && |State().marks| == |before.marks|
          invariant forall i :: 0 <= i < |entries| ==> (entries[i].stopRequested <==>
            before.marks[i] || exists v :: v in pendingFallbacks.Keys - rest && pendingFallbacks[v] == entries[i])
          decreases |rest|
        {
          HasKey(rest);
          var v :| v in rest;
          pendingFallbacks[v].stopRequested := true;
          rest := rest - {v};
        }
        MarkedAll(before);
      }
    }

    ghost method MarkedAll(before: Ledger)
      requires Valid() && WellFormed(before) && State().current == before.current && |State().marks| == |before.marks|
      requires forall i :: 0 <= i < |entries| ==> (entries[i].stopRequested <==>
        before.marks[i] || exists v :: v in pendingFallbacks && pendingFallbacks[v] == entries[i])
      ensures State() == MarkAll(before)
    {
      forall i | 0 <= i < |entries|
        ensures (exists v :: v in pendingFallbacks && pendingFallbacks[v] == entries[i]) <==> i in before.current.Values
      {
        if i in before.current.Values {
          var v :| v in before.current && before.current[v] == i;
          assert v in State().current && pendingFallbacks[v] == entries[i];
        }
        if v :| v in pendingFallbacks && pendingFallbacks[v] == entries[i] {
          assert State().current[v] == i;
        }
      }
      assert State().marks == MarkAll(before).marks;
    }

    method HasPendingFallback(videoId: string) returns (r: bool)
      requires Valid()
      ensures r <==> videoId in State().current
    {
      r := videoId in pendingFallbacks;
    }

    method HasActiveFallback(videoId: string) returns (r: bool)
      requires Valid()
      ensures r <==> videoId in State().current && !State().marks[State().current[videoId]]
    {
      r := videoId in pendingFallbacks && !pendingFallbacks[videoId].stopRequested;
    }
  }

  lemma HasKey(s: set<string>)
    requires |s| > 0
    ensures exists v :: v in s
  {
    assert (forall v :: v !in s) ==> s == {};
  }
}
