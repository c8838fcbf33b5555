/** The readback staging slots of src/core/realesrgan-staging-slots.ts. */
module StagingSlots {
  import opened Arith
  import opened Wrappers

  // ---- the slots as a value -------------------------------------------------------------------

  datatype Pending = Pending(slot: nat, frame: int)

  datatype Slots = Slots(busy: seq<bool>, cursor: nat, pending: Option<Pending>)

  /** The candidate `i` places behind the cursor. */
  function Candidate(count: nat, cursor: nat, i: nat): nat
    requires 0 < count
  {
    (cursor + i) % count
  }

  function FirstFree(busy: seq<bool>, cursor: nat, i: nat): (r: Option<nat>)
    ensures r.Some? ==> r.value < |busy| && !busy[r.value]
    decreases |busy| - i
  {
    if i >= |busy| then None
    else if !busy[Candidate(|busy|, cursor, i)] then Some(Candidate(|busy|, cursor, i))
    else FirstFree(busy, cursor, i + 1)
  }

  /** A claim is refused only when every slot is busy. */
  lemma RefusedIffAllBusy(busy: seq<bool>, cursor: nat)
    requires cursor < |busy|
    ensures FirstFree(busy, cursor, 0).None? <==> forall k :: 0 <= k < |busy| ==> busy[k]
  {
    if FirstFree(busy, cursor, 0).None? {
      RefusedFrom(busy, cursor, 0);
      forall k | 0 <= k < |busy|
        ensures busy[k]
      {
        var i := CandidateReaches(|busy|, cursor, k);
      }
    }
  }

  lemma CandidateReaches(count: nat, cursor: nat, k: nat) returns (i: nat)
    requires cursor < count && k < count
    ensures i < count && Candidate(count, cursor, i) == k
  {
    i := if cursor <= k then k - cursor else count + k - cursor;
    DivModUnique(cursor + i, count, if cursor <= k then 0 else 1, k);
  }

  lemma {:induction false} RefusedFrom(busy: seq<bool>, cursor: nat, i: nat)
    requires cursor < |busy| && FirstFree(busy, cursor, i).None?
    ensures forall j :: i <= j < |busy| ==> busy[Candidate(|busy|, cursor, j)]
    decreases |busy| - i
  {
    if i < |busy| { RefusedFrom(busy, cursor, i + 1); }
  }

  function ClaimSlot(s: Slots): (Slots, Option<nat>) {
    match FirstFree(s.busy, s.cursor, 0)
    case None => (s, None)
    case Some(k) => (s.(busy := s.busy[k := true], cursor := (k + 1) % |s.busy|), Some(k))
  }

  function ReleaseSlot(s: Slots, slot: nat): Slots {
    if slot < |s.busy| then s.(busy := s.busy[slot := false]) else s
  }

  function MarkPending(s: Slots, slot: nat, frame: int): Slots {
    var freed := if s.pending.Some? then ReleaseSlot(s, s.pending.value.slot) else s;
    freed.(pending := Some(Pending(slot, frame)))
  }

  function TakePending(s: Slots): Slots { s.(pending := None) }

  function ReleasePending(s: Slots): Slots {
    if s.pending.Some? then ReleaseSlot(TakePending(s), s.pending.value.slot) else TakePending(s)
  }

  // ---- the class ----------------------------------------------------------------------------

  /** One claim object per slot, made once and reused. */
  class StagingClaim {
    const index: nat

    constructor (index: nat)
      ensures this.index == index
    {
      this.index := index;
    }
  }

  class RealEsrganStagingSlots {
    const claims: seq<StagingClaim>
    var busy: array<bool>
    var pending: Option<(StagingClaim, int)>
    var cursor: nat

    ghost predicate Valid()
      reads this, busy
    {
      && busy.Length == |claims|
      && (forall i :: 0 <= i < |claims| ==> claims[i].index == i)
      && (pending.Some? ==> pending.value.0 in claims)
      && (|claims| > 0 ==> cursor < |claims|)
    }

    ghost function State(): Slots
      reads this, busy
    {
      Slots(busy[..], cursor, if pending.None? then None else Some(Pending(pending.value.0.index, pending.value.1)))
    }

    constructor (count: nat)
      ensures Valid() && fresh(busy) && |claims| == count
      ensures State() == Slots(seq(count, _ => false), 0, None)
    {
      var made: seq<StagingClaim> := [];
      for i := 0 to count
        invariant |made| == i
        invariant forall k :: 0 <= k < i ==> made[k].index == k
      {
        var c := new StagingClaim(i);
        made := made + [c];
      }
      claims := made;
      busy := new bool[count](_ => false);
      pending := None;
      cursor := 0;
    }

    method Claim() returns (r: Option<StagingClaim>)
      requires Valid()
      modifies this`cursor, busy
      ensures Valid() && busy == old(busy)
      ensures State() == ClaimSlot(old(State())).0
      ensures (if r.None? then None else Some(r.value.index)) == ClaimSlot(old(State())).1
      ensures r.Some? ==> r.value in claims && !old(busy[r.value.index])
    {
      var count := |claims|;
      var i := 0;
      while i < count
        invariant 0 <= i <= count
        invariant busy[..] == old(busy[..]) && cursor == old(cursor)
        invariant FirstFree(busy[..], cursor, 0) == FirstFree(busy[..], cursor, i)
      {
        var candidate := (cursor + i) % count;
        if !busy[candidate] {
          busy[candidate] := true;
          cursor := (candidate + 1) % count;
          return Some(claims[candidate]);
        }
        i := i + 1;
      }
      return None;
    }

    /** A claim this object did not make is left alone; a second release changes nothing. */
    method Release(claim: StagingClaim)
      requires Valid()
      modifies busy
      ensures Valid()
      ensures State() == if claim in claims then ReleaseSlot(old(State()), claim.index) else old(State())
    {
      if claim !in claims {
        return;
      }
      busy[claim.index] := false;
    }

    method MarkPendingClaim(claim: StagingClaim, frame: int)
      requires Valid() && claim in claims
      modifies this`pending, busy
      ensures Valid() && busy == old(busy)
      ensures State() == MarkPending(old(State()), claim.index, frame)
    {
      var previous := pending;
      if previous.Some? {
        Release(previous.value.0);
      }
      pending := Some((claim, frame));
    }

    method TakePendingClaim() returns (r: Option<(StagingClaim, int)>)
      requires Valid()
      modifies this`pending
      ensures Valid() && r == old(pending)
      ensures State() == TakePending(old(State()))
    {
      r := pending;
      pending := None;
    }

    method ReleasePendingClaim() returns (r: Option<(StagingClaim, int)>)
      requires Valid()
      modifies this`pending, busy
      ensures Valid() && busy == old(busy) && r == old(pending)
      ensures State() == ReleasePending(old(State()))
    {
      r := TakePendingClaim();
      if r.Some? {
        Release(r.value.0);
      }
    }
  }

  // ---- which slot -----------------------------------------------------------------------------------

  /** How many places slot k lies behind the cursor, around the ring. */
  function Behind(k: nat, cursor: nat, count: nat): int { if cursor <= k then k - cursor else k - cursor + count }

  lemma CandidateIsBehind(count: nat, cursor: nat, i: nat)
    requires cursor < count && i < count
    ensures var k := Candidate(count, cursor, i); k < count && Behind(k, cursor, count) == i
  {
    if cursor + i < count {
      DivModUnique(cursor + i, count, 0, cursor + i);
    } else {
      DivModUnique(cursor + i, count, 1, cursor + i - count);
    }
  }

  lemma {:induction false} FirstFreeFrom(busy: seq<bool>, cursor: nat, i: nat)
    requires cursor < |busy| && FirstFree(busy, cursor, i).Some?
    ensures var k := FirstFree(busy, cursor, i).value;
      && i <= Behind(k, cursor, |busy|)
      && forall j :: 0 <= j < |busy| && i <= Behind(j, cursor, |busy|) < Behind(k, cursor, |busy|) ==> busy[j]
    decreases |busy| - i
  {
    CandidateIsBehind(|busy|, cursor, i);
    var at := Candidate(|busy|, cursor, i);
    if busy[at] {
      FirstFreeFrom(busy, cursor, i + 1);
      var k := FirstFree(busy, cursor, i).value;
      forall j | 0 <= j < |busy| && i <= Behind(j, cursor, |busy|) < Behind(k, cursor, |busy|)
        ensures busy[j]
      {
        if Behind(j, cursor, |busy|) == i { assert j == at; }
      }
    }
  }

  /** A claim takes the first free slot behind the cursor, around the ring, and the cursor goes on behind
      it, so that the slot just claimed is the last the next claim tries. */
  lemma ClaimIsNextFree(s: Slots)
    requires s.cursor < |s.busy| && ClaimSlot(s).1.Some?
    ensures var (t, r) := ClaimSlot(s);
      var k := r.value;
      && k < |s.busy| && !s.busy[k] && t.busy == s.busy[k := true] && t.pending == s.pending
      && t.cursor == (if k + 1 == |s.busy| then 0 else k + 1)
      && forall j :: 0 <= j < |s.busy| && Behind(j, s.cursor, |s.busy|) < Behind(k, s.cursor, |s.busy|) ==> s.busy[j]
  {
    FirstFreeFrom(s.busy, s.cursor, 0);
    var k := ClaimSlot(s).1.value;
    if k + 1 == |s.busy| {
      DivModUnique(k + 1, |s.busy|, 1, 0);
    } else {
      DivModUnique(k + 1, |s.busy|, 0, k + 1);
    }
  }

  /** A slot pending when another claim is recorded is free afterwards, not lost: recording and the leak
      recovery both free it, the normal path alone keeps it busy. */
  lemma PendingIsNotLost(s: Slots, slot: nat, frame: int, other: nat, next: int)
    requires slot < |s.busy| && s.busy[slot] && other < |s.busy| && s.busy[other] && slot != other
    ensures var t := MarkPending(s.(pending := None), slot, frame);
      && t == s.(pending := Some(Pending(slot, frame)))
      && MarkPending(t, other, next) == s.(busy := s.busy[slot := false], pending := Some(Pending(other, next)))
      && ReleasePending(t) == s.(busy := s.busy[slot := false], pending := None)
      && TakePending(t) == s.(pending := None)
  {
  }
}
