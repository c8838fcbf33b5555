/** Every run of the native client: backpressure, wakeups, and who shares an upload buffer. */
module NativeClientRuns {
  import opened Wrappers
  import opened NativeClient

  datatype Kind = Planar | Rgba(byteLength: nat)

  /** Callers by number: parked in the gate, woken but not yet back in the loop, running (with
      their upload claim, if the path makes one), or over. */
  datatype State = State(gate: Gate, kinds: seq<Kind>, woken: set<int>, running: map<int, Option<nat>>,
                         over: set<int>, uploads: Uploads)

  const FRESH := State(Gate(0, [], false), [], {}, map[], {},
                       Uploads(0, [None, None, None, None, None, None, None, None], [], map[]))

  datatype Event = Call(kind: Kind) | Resume(id: int) | Settle(id: int) | Dispose

  predicate Shaped(s: State) { |s.uploads.buffers| == MAX_IN_FLIGHT }

  function Admit(s: State, id: nat): State
    requires Shaped(s) && id < |s.kinds|
  {
    var (gate, entry) := Enter(s.gate, id);
    var t := s.(gate := gate);
    match entry
    case Parks => t
    case Throws => t.(over := t.over + {id})
    case Enters =>
      match s.kinds[id]
      case Planar => t.(running := t.running[id := None])
      case Rgba(n) => t.(running := t.running[id := Some(|t.uploads.lengths|)], uploads := ClaimAndFill(t.uploads, n).0)
  }

  function SettleStep(s: State, id: int): State {
    var (gate, next) := Leave(s.gate);
    s.(gate := gate, running := s.running - {id}, over := s.over + {id},
       woken := if next.None? then s.woken else s.woken + {next.value})
  }

  function Members(w: seq<int>): set<int> { set i | i in w }

  function Step(s: State, e: Event): State
    requires Shaped(s)
  {
    match e
    case Call(kind) => Admit(s.(kinds := s.kinds + [kind]), |s.kinds|)
    case Resume(id) => if id in s.woken && 0 <= id < |s.kinds| then Admit(s.(woken := s.woken - {id}), id) else s
    case Settle(id) => if id in s.running then SettleStep(s, id) else s
    case Dispose => s.(gate := Gate(s.gate.inFlight, [], true), woken := s.woken + Members(s.gate.waiters))
  }

  // ---- backpressure ---------------------------------------------------------------------------------

  ghost predicate Distinct(w: seq<int>) { forall i, j :: 0 <= i < j < |w| ==> w[i] != w[j] }

  function One(b: bool): int { if b then 1 else 0 }

  /** In how many places a caller is. */
  function Places(s: State, id: int): int {
    One(id in s.gate.waiters) + One(id in s.woken) + One(id in s.running) + One(id in s.over)
  }

  ghost predicate GateInv(s: State) {
    && Shaped(s) && Distinct(s.gate.waiters)
    && s.gate.inFlight == |s.running| <= MAX_IN_FLIGHT
    && (s.gate.waiters != [] ==> !s.gate.disposed && s.gate.inFlight + |s.woken| >= MAX_IN_FLIGHT)
    && (forall id :: Places(s, id) == One(0 <= id < |s.kinds|))
  }

  lemma AdmitKeeps(s: State, id: nat)
    requires Shaped(s) && Distinct(s.gate.waiters) && id < |s.kinds|
    requires s.gate.inFlight == |s.running| <= MAX_IN_FLIGHT
    requires s.gate.waiters != [] ==> !s.gate.disposed && s.gate.inFlight + |s.woken| + 1 >= MAX_IN_FLIGHT
    requires forall i :: Places(s, i) + One(i == id) == One(0 <= i < |s.kinds|)
    ensures GateInv(Admit(s, id))
  {
    hide ClaimAndFill;
    var t := Admit(s, id);
    assert Places(s, id) == 0;
    assert Shaped(t) by { ClaimKeepsShape(s, id); }
    forall i
      ensures Places(t, i) == Places(s, i) + One(i == id)
    {
      assert i in s.gate.waiters + [id] <==> i in s.gate.waiters || i == id;
    }
  }

  lemma ClaimKeepsShape(s: State, id: nat)
    requires Shaped(s) && id < |s.kinds|
    ensures Shaped(Admit(s, id))
  {
  }

  lemma SettleMovesOn(s: State, id: int, i: int)
    requires Distinct(s.gate.waiters) && id in s.running
    requires Places(s, i) <= 1 && Places(s, id) <= 1
    ensures Places(SettleStep(s, id), i) == Places(s, i)
  {
    var w := s.gate.waiters;
    if w != [] {
      assert i in w <==> i == w[0] || i in w[1..];
      assert w[0] !in w[1..];
    }
  }

  lemma WakesOne(s: State, id: int)
    requires id in s.running
    ensures |SettleStep(s, id).running| == |s.running| - 1
    ensures s.gate.waiters != [] && s.gate.waiters[0] !in s.woken ==> |SettleStep(s, id).woken| == |s.woken| + 1
    ensures s.gate.waiters == [] ==> SettleStep(s, id).woken == s.woken
  {
    var rest := s.running - {id};
    assert s.running == rest[id := s.running[id]];
    assert |s.running| == |rest| + 1;
  }

  lemma SettleKeeps(s: State, id: int)
    requires GateInv(s) && id in s.running
    ensures GateInv(SettleStep(s, id))
  {
    WakesOne(s, id);
    if s.gate.waiters != [] { assert Places(s, s.gate.waiters[0]) <= 1; }
    assert Places(s, id) <= 1;
    forall i
      ensures Places(SettleStep(s, id), i) == Places(s, i)
    {
      assert Places(s, i) <= 1;
      SettleMovesOn(s, id, i);
    }
  }

  lemma DisposeKeeps(s: State)
    requires GateInv(s)
    ensures GateInv(Step(s, Dispose))
  {
    var t := Step(s, Dispose);
    forall i
      ensures Places(t, i) == Places(s, i)
    {
      assert Places(s, i) <= 1;
    }
  }

  lemma StepKeepsGate(s: State, e: Event)
    requires GateInv(s)
    ensures GateInv(Step(s, e))
  {
    hide Admit, SettleStep;
    match e
    case Call(kind) =>
      var t := s.(kinds := s.kinds + [kind]);
      forall i
        ensures Places(t, i) + One(i == |s.kinds|) == One(0 <= i < |t.kinds|)
      {
        assert Places(t, i) == Places(s, i);
      }
      AdmitKeeps(t, |s.kinds|);
    case Resume(id) =>
      if id in s.woken && 0 <= id < |s.kinds| {
        var t := s.(woken := s.woken - {id});
        forall i
          ensures Places(t, i) + One(i == id) == One(0 <= i < |t.kinds|)
        {
          assert Places(s, i) == One(0 <= i < |s.kinds|);
        }
        AdmitKeeps(t, id);
      }
    case Settle(id) => if id in s.running { SettleKeeps(s, id); }
    case Dispose => DisposeKeeps(s);
  }

  // ---- upload buffers ---------------------------------------------------------------------------------

  /** The claim that allocated the buffer claim `c` got. */
  function Origin(lengths: seq<nat>, c: nat): (o: nat)
    requires c < |lengths|
    ensures o <= c && (c - o) % MAX_IN_FLIGHT == 0
  {
    if c >= MAX_IN_FLIGHT && lengths[c - MAX_IN_FLIGHT] == lengths[c] then Origin(lengths, c - MAX_IN_FLIGHT) else c
  }

  lemma {:induction false} OriginStable(lengths: seq<nat>, n: nat, c: nat)
    requires c < |lengths|
    ensures Origin(lengths + [n], c) == Origin(lengths, c)
  {
    if c >= MAX_IN_FLIGHT && lengths[c - MAX_IN_FLIGHT] == lengths[c] { OriginStable(lengths, n, c - MAX_IN_FLIGHT); }
  }

  /** Eight, sixteen, ... claims later, with every claim of that slot in between of the same size. */
  ghost predicate SameChain(lengths: seq<nat>, c: nat, d: nat) {
    && c <= d < |lengths| && (d - c) % MAX_IN_FLIGHT == 0
    && forall k :: c <= k <= d && (k - c) % MAX_IN_FLIGHT == 0 ==> lengths[k] == lengths[c]
  }

  /** Two claims get one buffer exactly if they are in one chain. */
  lemma {:induction false} SharedIff(lengths: seq<nat>, c: nat, d: nat)
    requires c <= d < |lengths|
    ensures Origin(lengths, c) == Origin(lengths, d) <==> SameChain(lengths, c, d)
    decreases d
  {
    if c < d {
      var b := d - MAX_IN_FLIGHT;
      if c <= b {
        SharedIff(lengths, c, b);
        if lengths[b] == lengths[d] {
          assert SameChain(lengths, c, d) <==> SameChain(lengths, c, b) by { ChainStep(lengths, c, d); }
        }
      }
    }
  }

  lemma ChainStep(lengths: seq<nat>, c: nat, d: nat)
    requires c <= d - MAX_IN_FLIGHT && d < |lengths| && lengths[d - MAX_IN_FLIGHT] == lengths[d]
    ensures SameChain(lengths, c, d) <==> SameChain(lengths, c, d - MAX_IN_FLIGHT)
  {
    var b := d - MAX_IN_FLIGHT;
    if SameChain(lengths, c, b) {
      forall k | c <= k <= d && (k - c) % MAX_IN_FLIGHT == 0
        ensures lengths[k] == lengths[c]
      {
        assert k <= b || k == d;
        assert lengths[b] == lengths[c];
      }
    }
  }

  /** Where the rotation stands: the last eight claims fill the slots. */
  ghost predicate Rotation(u: Uploads) {
    var n := |u.lengths|;
    && |u.buffers| == MAX_IN_FLIGHT && u.slot == n % MAX_IN_FLIGHT
    && (forall c: nat :: c < n <= c + MAX_IN_FLIGHT ==>
          u.buffers[SlotOf(c)] == Some(Buffer(Origin(u.lengths, c), u.lengths[c])))
    && (forall c: nat :: n <= c < MAX_IN_FLIGHT ==> u.buffers[SlotOf(c)] == None)
  }

  /** And each buffer holds the bytes of the latest claim that got it. */
  ghost predicate Writers(u: Uploads) { forall c: nat :: c < |u.lengths| ==> LastWriter(u, c) }

  function SlotOf(c: nat): (k: nat)
    ensures k < MAX_IN_FLIGHT
  {
    (c + 1) % MAX_IN_FLIGHT
  }

  ghost predicate LastWriter(u: Uploads, c: nat)
    requires c < |u.lengths|
  {
    var o := Origin(u.lengths, c);
    && o in u.writer && u.writer[o] < |u.lengths| && Origin(u.lengths, u.writer[o]) == o
    && forall d: nat :: d < |u.lengths| && Origin(u.lengths, d) == o ==> d <= u.writer[o]
  }

  lemma SlotTurns(m: nat)
    ensures (m % MAX_IN_FLIGHT + 1) % MAX_IN_FLIGHT == SlotOf(m)
    ensures m >= MAX_IN_FLIGHT ==> SlotOf(m - MAX_IN_FLIGHT) == SlotOf(m)
    ensures (m + 1) % MAX_IN_FLIGHT == SlotOf(m)
  {
  }

  lemma ClaimGets(u: Uploads, n: nat)
    requires Rotation(u)
    ensures var (v, b) := ClaimAndFill(u, n);
      v.lengths == u.lengths + [n] && b == Buffer(Origin(v.lengths, |u.lengths|), n)
      && v.writer == u.writer[b.name := |u.lengths|] && v.slot == (u.slot + 1) % MAX_IN_FLIGHT
      && v.buffers == u.buffers[SlotOf(|u.lengths|) := Some(b)]
  {
    hide SlotOf;
    var m := |u.lengths|;
    SlotTurns(m);
    if m >= MAX_IN_FLIGHT {
      OriginStable(u.lengths, n, m - MAX_IN_FLIGHT);
    } else {
      assert u.buffers[SlotOf(m)] == None;
    }
  }

  lemma SlotsApart(c: nat, d: nat)
    requires c < d < c + MAX_IN_FLIGHT
    ensures SlotOf(c) != SlotOf(d)
  {
  }

  lemma ClaimRotates(u: Uploads, n: nat)
    requires Rotation(u)
    ensures Rotation(ClaimAndFill(u, n).0)
  {
    hide ClaimAndFill, Origin, SlotOf;
    ClaimGets(u, n);
    var v, m := ClaimAndFill(u, n).0, |u.lengths|;
    forall c: nat | c <= m < c + MAX_IN_FLIGHT
      ensures v.buffers[SlotOf(c)] == Some(Buffer(Origin(v.lengths, c), v.lengths[c]))
    {
      if c < m {
        SlotsApart(c, m);
        OriginStable(u.lengths, n, c);
      }
    }
    forall c: nat | m < c < MAX_IN_FLIGHT
      ensures v.buffers[SlotOf(c)] == None
    {
      SlotsApart(m, c);
    }
  }

  lemma ClaimWrites(u: Uploads, n: nat)
    requires |u.buffers| == MAX_IN_FLIGHT && Rotation(u) && Writers(u)
    ensures Writers(ClaimAndFill(u, n).0)
  {
    hide ClaimAndFill, Rotation, Origin;
    ClaimGets(u, n);
    var v := ClaimAndFill(u, n).0;
    forall c: nat | c < |u.lengths|
      ensures Origin(v.lengths, c) == Origin(u.lengths, c)
    {
      OriginStable(u.lengths, n, c);
    }
    forall c: nat | c < |v.lengths|
      ensures LastWriter(v, c)
    {
      assert c < |u.lengths| ==> LastWriter(u, c);
    }
  }

  ghost predicate Carries(running: map<int, Option<nat>>, c: nat) { exists id :: id in running && running[id] == Some(c) }

  ghost predicate HasClaim(s: State, c: nat) { Carries(s.running, c) }

  ghost predicate ClaimInv(s: State) {
    && Rotation(s.uploads) && Writers(s.uploads)
    && (forall id :: id in s.running && s.running[id].Some? ==> s.running[id].value < |s.uploads.lengths|)
    && (forall i, j :: i in s.running && j in s.running && s.running[i].Some? && s.running[i] == s.running[j] ==> i == j)
  }

  lemma StepKeepsClaims(s: State, e: Event)
    requires ClaimInv(s) && Shaped(s)
    ensures ClaimInv(Step(s, e))
  {
    hide Rotation, Writers, ClaimAndFill;
    match e
    case Call(kind) => AdmitKeepsClaims(s.(kinds := s.kinds + [kind]), |s.kinds|);
    case Resume(id) => if id in s.woken && 0 <= id < |s.kinds| { AdmitKeepsClaims(s.(woken := s.woken - {id}), id); }
    case Settle(_) =>
    case Dispose =>
  }

  lemma AdmitKeepsClaims(s: State, id: nat)
    requires ClaimInv(s) && Shaped(s) && id < |s.kinds|
    ensures ClaimInv(Admit(s, id))
  {
    hide Rotation, Writers, ClaimAndFill;
    if Enter(s.gate, id).1.Enters? && s.kinds[id].Rgba? {
      ClaimGets(s.uploads, s.kinds[id].byteLength);
      ClaimRotates(s.uploads, s.kinds[id].byteLength);
      ClaimWrites(s.uploads, s.kinds[id].byteLength);
    }
  }

  // ---- every run ------------------------------------------------------------------------------------

  lemma StepShaped(s: State, e: Event)
    requires Shaped(s)
    ensures Shaped(Step(s, e))
  {
  }

  function Run(s: State, events: seq<Event>): (t: State)
    requires Shaped(s)
    ensures Shaped(t)
    decreases |events|
  {
    if events == [] then s else StepShaped(s, events[0]); Run(Step(s, events[0]), events[1..])
  }

  lemma {:induction false} RunKeeps(s: State, events: seq<Event>)
    requires GateInv(s) && ClaimInv(s)
    ensures GateInv(Run(s, events)) && ClaimInv(Run(s, events))
    decreases |events|
  {
    hide Step, GateInv, ClaimInv;
    if events != [] {
      GateIsShaped(s);
      StepKeepsGate(s, events[0]);
      StepKeepsClaims(s, events[0]);
      RunKeeps(Step(s, events[0]), events[1..]);
    }
  }

  lemma GateIsShaped(s: State)
    requires GateInv(s)
    ensures Shaped(s)
  {
  }

  lemma FreshKeeps()
    ensures GateInv(FRESH) && ClaimInv(FRESH)
  {
  }

  /** On every run: at most eight requests in flight; no wakeup is lost, so a caller is parked
      only while eight others hold or are about to claim the slots; none is parked after dispose;
      and every caller is in exactly one place, so when nothing runs nobody is stuck. */
  lemma NoLostWakeup(events: seq<Event>)
    ensures var s := Run(FRESH, events);
      && s.gate.inFlight == |s.running| <= MAX_IN_FLIGHT
      && (s.gate.waiters != [] ==> !s.gate.disposed && s.gate.inFlight + |s.woken| >= MAX_IN_FLIGHT)
      && (forall id :: Places(s, id) == One(0 <= id < |s.kinds|))
      && (s.running == map[] && s.woken == {} ==> forall id :: 0 <= id < |s.kinds| ==> id in s.over)
  {
    FreshKeeps();
    RunKeeps(FRESH, events);
    var s := Run(FRESH, events);
    if s.running == map[] && s.woken == {} {
      forall id | 0 <= id < |s.kinds|
        ensures id in s.over
      {
        assert Places(s, id) == 1;
      }
    }
  }

  function BufferOf(s: State, c: nat): nat
    requires c < |s.uploads.lengths|
  {
    Origin(s.uploads.lengths, c)
  }

  /** On every run two requests in flight write one upload buffer exactly if the later claim came
      eight, sixteen, ... after the earlier and no size changed in that slot in between; and a
      request still finds its own bytes exactly if no later claim did that. */
  lemma AliasIff(events: seq<Event>, c: nat, d: nat)
    requires c < d < |Run(FRESH, events).uploads.lengths|
    ensures var s := Run(FRESH, events);
      && (BufferOf(s, c) == BufferOf(s, d) <==> SameChain(s.uploads.lengths, c, d))
      && BufferOf(s, c) in s.uploads.writer
      && (s.uploads.writer[BufferOf(s, c)] == c
          <==> forall k: nat :: c < k < |s.uploads.lengths| ==> !SameChain(s.uploads.lengths, c, k))
  {
    FreshKeeps();
    RunKeeps(FRESH, events);
    var s := Run(FRESH, events);
    OwnBytesIff(s, c);
    SharedIff(s.uploads.lengths, c, d);
  }

  lemma OwnBytesIff(s: State, c: nat)
    requires ClaimInv(s) && c < |s.uploads.lengths|
    ensures BufferOf(s, c) in s.uploads.writer
    ensures s.uploads.writer[BufferOf(s, c)] == c
            <==> forall k: nat :: c < k < |s.uploads.lengths| ==> !SameChain(s.uploads.lengths, c, k)
  {
    var u := s.uploads;
    assert LastWriter(u, c);
    forall k: nat | c < k < |u.lengths|
      ensures Origin(u.lengths, c) == Origin(u.lengths, k) <==> SameChain(u.lengths, c, k)
    {
      SharedIff(u.lengths, c, k);
    }
    var w := u.writer[Origin(u.lengths, c)];
    assert c <= w;
  }

  // ---- settling in claim order ----------------------------------------------------------------------

  /** No request settles while an earlier claim is still in flight. */
  ghost predicate SettlesFirst(s: State, e: Event) {
    e.Settle? && e.id in s.running && s.running[e.id].Some? ==>
      forall c: nat :: c < s.running[e.id].value ==> !HasClaim(s, c)
  }

  ghost predicate InOrder(s: State, events: seq<Event>)
    requires Shaped(s)
    decreases |events|
  {
    events == []
    || (SettlesFirst(s, events[0]) && (StepShaped(s, events[0]); InOrder(Step(s, events[0]), events[1..])))
  }

  /** The claims in flight are the latest ones, without a gap. */
  ghost predicate Window(s: State) {
    forall c: nat, d: nat :: HasClaim(s, c) && c < d < |s.uploads.lengths| ==> HasClaim(s, d)
  }

  lemma AdmitKeepsWindow(s: State, id: nat)
    requires ClaimInv(s) && Window(s) && Shaped(s) && id < |s.kinds| && id !in s.running
    ensures Window(Admit(s, id))
  {
    hide Rotation, Writers;
    var t := Admit(s, id);
    forall c: nat, d: nat | HasClaim(t, c) && c < d < |t.uploads.lengths|
      ensures HasClaim(t, d)
    {
      if d == |s.uploads.lengths| {
        assert t.running[id] == Some(d);
      } else {
        var i :| i in t.running && t.running[i] == Some(c);
        assert i in s.running && s.running[i] == Some(c);
        assert HasClaim(s, c) && HasClaim(s, d);
        var j :| j in s.running && s.running[j] == Some(d);
        assert j in t.running && t.running[j] == Some(d);
      }
    }
  }

  lemma SettleKeepsWindow(s: State, id: int)
    requires ClaimInv(s) && Window(s) && id in s.running && SettlesFirst(s, Settle(id))
    ensures Window(SettleStep(s, id))
  {
    hide Rotation, Writers;
    var t := SettleStep(s, id);
    forall c: nat, d: nat | HasClaim(t, c) && c < d < |t.uploads.lengths|
      ensures HasClaim(t, d)
    {
      var i :| i in t.running && t.running[i] == Some(c);
      assert i in s.running && HasClaim(s, c);
      assert HasClaim(s, d);
      var j :| j in s.running && s.running[j] == Some(d);
      assert j in t.running && t.running[j] == Some(d);
    }
  }

  lemma StepKeepsWindow(s: State, e: Event)
    requires GateInv(s) && ClaimInv(s) && Window(s) && SettlesFirst(s, e)
    ensures Window(Step(s, e))
  {
    hide Rotation, Writers, Window, Admit, SettleStep;
    match e
    case Call(kind) =>
      var t := s.(kinds := s.kinds + [kind]);
      SameWindow(s, t);
      assert Places(s, |s.kinds|) == 0;
      AdmitKeepsWindow(t, |s.kinds|);
    case Resume(id) =>
      if id in s.woken && 0 <= id < |s.kinds| {
        var t := s.(woken := s.woken - {id});
        SameWindow(s, t);
        assert Places(s, id) == 1;
        AdmitKeepsWindow(t, id);
      }
    case Settle(id) => if id in s.running { SettleKeepsWindow(s, id); }
    case Dispose => SameWindow(s, Step(s, e));
  }

  lemma SameWindow(s: State, t: State)
    requires Window(s) && t.running == s.running && t.uploads == s.uploads
    ensures Window(t)
  {
    assert forall c :: HasClaim(t, c) <==> HasClaim(s, c);
  }

  lemma {:induction false} RunKeepsWindow(s: State, events: seq<Event>)
    requires GateInv(s) && ClaimInv(s) && Window(s) && InOrder(s, events)
    ensures Window(Run(s, events)) && GateInv(Run(s, events)) && ClaimInv(Run(s, events))
    decreases |events|
  {
    hide Step, GateInv, ClaimInv, Window, SettlesFirst;
    if events != [] {
      GateIsShaped(s);
      StepKeepsGate(s, events[0]);
      StepKeepsClaims(s, events[0]);
      StepKeepsWindow(s, events[0]);
      RunKeepsWindow(Step(s, events[0]), events[1..]);
    }
  }

  /** `n` different claims in flight take `n` requests. */
  lemma {:induction false} ClaimsTakeRequests(running: map<int, Option<nat>>, c: nat, n: nat)
    requires forall k: nat :: c <= k < c + n ==> Carries(running, k)
    ensures n <= |running|
    decreases n
  {
    if n > 0 {
      var last := c + n - 1;
      assert Carries(running, last);
      var id :| id in running && running[id] == Some(last);
      var rest := running - {id};
      assert running == rest[id := Some(last)];
      forall k: nat | c <= k < last
        ensures Carries(rest, k)
      {
        assert Carries(running, k);
        var j :| j in running && running[j] == Some(k);
        assert j in rest && rest[j] == Some(k);
      }
      ClaimsTakeRequests(rest, c, n - 1);
    }
  }

  /** If requests settle in the order of their claims, everything in flight owns its buffer and
      finds its own bytes in it. */
  lemma OrderlyNeverAliases(events: seq<Event>, c: nat)
    requires InOrder(FRESH, events) && HasClaim(Run(FRESH, events), c)
    ensures var s := Run(FRESH, events);
      && c < |s.uploads.lengths| && BufferOf(s, c) in s.uploads.writer && s.uploads.writer[BufferOf(s, c)] == c
      && forall d: nat :: HasClaim(s, d) && d != c ==> d < |s.uploads.lengths| && BufferOf(s, d) != BufferOf(s, c)
  {
    hide Run, GateInv, ClaimInv, Window, InOrder, Carries;
    FreshKeeps();
    FreshWindow();
    RunKeepsWindow(FRESH, events);
    var s := Run(FRESH, events);
    OwnsItsBuffer(s, c);
    forall d: nat | HasClaim(s, d) && d != c
      ensures d < |s.uploads.lengths| && BufferOf(s, d) != BufferOf(s, c)
    {
      OwnsItsBuffer(s, d);
    }
  }

  lemma FreshWindow()
    ensures Window(FRESH)
  {
  }

  lemma OwnsItsBuffer(s: State, c: nat)
    requires GateInv(s) && ClaimInv(s) && Window(s) && HasClaim(s, c)
    ensures c < |s.uploads.lengths| && BufferOf(s, c) in s.uploads.writer && s.uploads.writer[BufferOf(s, c)] == c
  {
    hide Rotation, Writers, Window, Carries, GateInv, LastWriter, Origin;
    InWindow(s, c);
    OwnBytesIff(s, c);
  }

  lemma InWindow(s: State, c: nat)
    requires GateInv(s) && ClaimInv(s) && Window(s) && HasClaim(s, c)
    ensures c < |s.uploads.lengths| <= c + MAX_IN_FLIGHT
  {
    hide Rotation, Writers;
    var n := |s.uploads.lengths|;
    forall k: nat | c <= k < n
      ensures Carries(s.running, k)
    {
      assert c < k ==> HasClaim(s, k);
    }
    ClaimsTakeRequests(s.running, c, n - c);
  }

  // ---- out of order ------------------------------------------------------------------------------------

  /** `n` more frames of one size, each answered before the next. */
  function Quick(first: nat, n: nat, byteLength: nat): seq<Event>
    decreases n
  {
    if n == 0 then [] else [Call(Rgba(byteLength)), Settle(first)] + Quick(first + 1, n - 1, byteLength)
  }

  /** One request slower than the eight frames after it loses its bytes to the eighth, whatever
      the size: the rotation alone does not protect it. */
  lemma SlowRequestIsOverwritten(byteLength: nat)
    ensures var s := Run(FRESH, [Call(Rgba(byteLength))] + Quick(1, 7, byteLength) + [Call(Rgba(byteLength))]);
      HasClaim(s, 0) && HasClaim(s, 8) && |s.uploads.lengths| == 9
      && BufferOf(s, 0) == BufferOf(s, 8) && BufferOf(s, 0) in s.uploads.writer && s.uploads.writer[BufferOf(s, 0)] == 8
  {
    var call := Call(Rgba(byteLength));
    var events := [call] + Quick(1, 7, byteLength);
    AfterSeven(byteLength);
    RunAppend(FRESH, events, [call]);
    FreshKeeps();
    RunKeeps(FRESH, events + [call]);
    EighthTakesOver(Run(FRESH, events), byteLength);
  }

  lemma AfterSeven(byteLength: nat)
    ensures OneSlow(Run(FRESH, [Call(Rgba(byteLength))] + Quick(1, 7, byteLength)), 8, byteLength)
  {
    hide Quick;
    var first := [Call(Rgba(byteLength))];
    var s0 := Run(FRESH, first);
    RunOne(FRESH, Call(Rgba(byteLength)));
    FirstCall(byteLength);
    QuickKeepsSlow(s0, 1, 7, byteLength);
    RunAppend(FRESH, first, Quick(1, 7, byteLength));
  }

  lemma RunOne(s: State, e: Event)
    requires Shaped(s)
    ensures Run(s, [e]) == Step(s, e)
  {
    assert [e][1..] == [];
  }

  lemma FirstCall(byteLength: nat)
    ensures OneSlow(Step(FRESH, Call(Rgba(byteLength))), 1, byteLength)
  {
    var s := Step(FRESH, Call(Rgba(byteLength)));
    assert s.running == map[0 := Some(0)];
    assert s.uploads.lengths == [byteLength];
    assert [byteLength] == seq(1, _ => byteLength);
  }

  lemma EighthTakesOver(s: State, byteLength: nat)
    requires OneSlow(s, 8, byteLength) && ClaimInv(Run(s, [Call(Rgba(byteLength))]))
    ensures var t := Run(s, [Call(Rgba(byteLength))]);
      HasClaim(t, 0) && HasClaim(t, 8) && |t.uploads.lengths| == 9
      && BufferOf(t, 0) == BufferOf(t, 8) && BufferOf(t, 0) in t.uploads.writer && t.uploads.writer[BufferOf(t, 0)] == 8
  {
    hide Rotation, Origin;
    var t := Run(s, [Call(Rgba(byteLength))]);
    RunOne(s, Call(Rgba(byteLength)));
    assert t.uploads.lengths == s.uploads.lengths + [byteLength];
    assert t.running[0] == Some(0) && t.running[8] == Some(8);
    assert SameChain(t.uploads.lengths, 0, 8);
    SharedIff(t.uploads.lengths, 0, 8);
    assert LastWriter(t.uploads, 0);
  }

  /** Only claim 0 in flight, all frames so far of one size. */
  ghost predicate OneSlow(s: State, n: nat, byteLength: nat) {
    && Shaped(s) && s.running == map[0 := Some(0)] && s.gate == Gate(1, [], false) && |s.kinds| == n
    && s.uploads.lengths == seq(n, _ => byteLength)
  }

  lemma {:induction false} QuickKeepsSlow(s: State, first: nat, n: nat, byteLength: nat)
    requires OneSlow(s, first, byteLength) && 0 < first
    ensures OneSlow(Run(s, Quick(first, n, byteLength)), first + n, byteLength)
    decreases n
  {
    if n > 0 {
      var call, settle := Call(Rgba(byteLength)), Settle(first);
      var t := Step(s, call);
      var u := Step(t, settle);
      assert u.running == map[0 := Some(0)];
      assert u.uploads.lengths == seq(first + 1, _ => byteLength);
      var rest := Quick(first + 1, n - 1, byteLength);
      assert Quick(first, n, byteLength) == [call] + ([settle] + rest);
      RunAppend(s, [call], [settle] + rest);
      RunAppend(t, [settle], rest);
      assert Run(s, [call]) == t && Run(t, [settle]) == u;
      QuickKeepsSlow(u, first + 1, n - 1, byteLength);
    }
  }

  lemma {:induction false} RunAppend(s: State, a: seq<Event>, b: seq<Event>)
    requires Shaped(s)
    ensures Run(s, a + b) == Run(Run(s, a), b)
    decreases |a|
  {
    if a == [] {
      assert a + b == b;
    } else {
      StepShaped(s, a[0]);
      assert (a + b)[0] == a[0] && (a + b)[1..] == a[1..] + b;
      RunAppend(Step(s, a[0]), a[1..], b);
    }
  }

  // ---- the gate in numbers ----------------------------------------------------------------------------

  /** A caller enters exactly while the client stands and fewer than eight requests are under way, parks
      behind those already parked while eight are, and is refused once the client is disposed. Whoever
      leaves wakes the caller parked longest. */
  lemma GateIs(g: Gate, caller: int)
    ensures var (h, entry) := Enter(g, caller);
      && (entry == Enters <==> !g.disposed && g.inFlight < 8) && (entry == Throws <==> g.disposed)
      && h == (if entry == Enters then Gate(g.inFlight + 1, g.waiters, false)
               else if entry == Parks then Gate(g.inFlight, g.waiters + [caller], false) else g)
    ensures var (h, next) := Leave(Gate(g.inFlight, [caller] + g.waiters, g.disposed));
      next == Some(caller) && h == Gate(g.inFlight - 1, g.waiters, g.disposed)
    ensures Leave(Gate(g.inFlight, [], g.disposed)) == (Gate(g.inFlight - 1, [], g.disposed), None)
  {
    assert ([caller] + g.waiters)[1..] == g.waiters;
  }
}
