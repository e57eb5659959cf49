/** Packet epochs and replay protection of one peer over whole runs (adnl/adnl.go). */
module PeerEpoch {
  import opened Options
  import opened ReplayWindow

  const MIN32: int := -0x8000_0000
  const MAX32: int := 0x7FFF_FFFF

  type Int32 = x: int | MIN32 <= x <= MAX32 witness 0

  /** The fields of an inbound packet that drive the epoch logic. */
  datatype Packet = Packet(reinitDate: Option<Int32>, dstReinitDate: Option<Int32>, seqno: Option<int>)

  /** What preparing an inbound packet decides. */
  datatype Outcome = Dropped | RespondReinit | Passed

  /** The epoch, the highest number and the numbers accepted since the last reset. */
  datatype Peer = Peer(reinitTime: Int32, dstReinit: Int32, highest: int, seen: set<int>, version: nat) {
    function Epoch(): (Int32, Int32) {
      (reinitTime, dstReinit)
    }
  }

  /** Everything that may happen to the receive state, one critical section at a time.
      `limit` and `clock` are what the wall clock gave. */
  datatype Event =
    | Inbound(packet: Packet, limit: Int32)
    | PeerReinit(date: Int32)
    | LocalReinit(clock: Int32)

  predicate Before(a: (Int32, Int32), b: (Int32, Int32)) {
    a.0 < b.0 || (a.0 == b.0 && a.1 < b.1)
  }

  function NewPeer(clock: Int32): Peer {
    Peer(clock, 0, 0, {}, 0)
  }

  function ApplyPeerReinit(p: Peer, date: Int32): Peer {
    if date <= 0 || p.dstReinit >= date then p
    else p.(dstReinit := date, highest := 0, seen := {}, version := p.version + 1)
  }

  /** The local epoch moves to the clock, or by one when the clock has not moved past it (in 32 bits). */
  function NextLocal(current: Int32, clock: Int32): Int32 {
    if clock > current then clock else if current == MAX32 then MIN32 else current + 1
  }

  function Reinit(p: Peer, clock: Int32): Peer {
    Peer(NextLocal(p.reinitTime, clock), 0, 0, {}, p.version + 1)
  }

  /** The packet is turned away before the peer's epoch is looked at. */
  predicate TooNew(p: Peer, packet: Packet, limit: Int32) {
    || (packet.dstReinitDate.Some? && packet.dstReinitDate.value > p.reinitTime)
    || (packet.reinitDate.Some? && packet.reinitDate.value > limit)
  }

  function LearnReinit(p: Peer, packet: Packet): Peer {
    if packet.reinitDate.Some? then ApplyPeerReinit(p, packet.reinitDate.value) else p
  }

  predicate OldPeerEpoch(p: Peer, packet: Packet) {
    packet.reinitDate.Some? && 0 < packet.reinitDate.value < p.dstReinit
  }

  predicate OldLocalEpoch(p: Peer, packet: Packet) {
    packet.dstReinitDate.Some? && 0 < packet.dstReinitDate.value < p.reinitTime
  }

  function Prepare(p: Peer, packet: Packet, limit: Int32): (Peer, Outcome) {
    if TooNew(p, packet, limit) then (p, Dropped) else
    var q := LearnReinit(p, packet);
    if OldPeerEpoch(q, packet) then (q, Dropped)
    else if OldLocalEpoch(q, packet) then
      (if packet.reinitDate.Some? && q.dstReinit != packet.reinitDate.value
       then q.(dstReinit := packet.reinitDate.value, version := q.version + 1)
       else q, RespondReinit)
    else if packet.seqno.None? then (q, Passed)
    else
      var n := packet.seqno.value;
      var q' := q.(highest := Raise(q.highest, n));
      if Fresh(q.highest, q.seen, n) then (q'.(seen := q.seen + {n}), Passed) else (q', Dropped)
  }

  /** What becomes of a packet, by its dates, the peer's epoch and the window. A date of zero or below is no date here. */
  lemma OutcomeIff(p: Peer, packet: Packet, limit: Int32)
    ensures var mine := if packet.dstReinitDate.Some? then packet.dstReinitDate.value else 0;
            var theirs := if packet.reinitDate.Some? then packet.reinitDate.value else 0;
            var tooNew := (packet.dstReinitDate.Some? && mine > p.reinitTime) || (packet.reinitDate.Some? && theirs > limit);
            var outcome := Prepare(p, packet, limit).1;
            && (outcome == RespondReinit <==> !tooNew && !(0 < theirs < p.dstReinit) && 0 < mine < p.reinitTime)
            && (outcome == Passed <==>
                  && !tooNew && !(0 < theirs < p.dstReinit) && !(0 < mine < p.reinitTime)
                  && (packet.seqno.Some? ==>
                        var n, anew := packet.seqno.value, theirs > 0 && theirs > p.dstReinit;
                        if anew then n > 0 else n > 0 && n > p.highest - 1024 && n !in p.seen))
  {
  }

  /** An accepted number belongs to the epoch it is accepted under: a packet that names a date of its own or of ours names that
      of the epoch, and none from the future. */
  lemma AcceptedUnderItsEpoch(p: Peer, e: Event)
    requires Accepts(p, e) != []
    ensures Accepts(p, e) == [(p.reinitTime, Step(p, e).dstReinit, e.packet.seqno.value)]
    ensures e.packet.reinitDate.Some? ==> e.packet.reinitDate.value <= e.limit
    ensures e.packet.reinitDate.Some? && e.packet.reinitDate.value > 0 ==> e.packet.reinitDate.value == Step(p, e).dstReinit
    ensures e.packet.dstReinitDate.Some? && e.packet.dstReinitDate.value > 0 ==> e.packet.dstReinitDate.value == p.reinitTime
    ensures e.packet.seqno.value in Step(p, e).seen
  {
  }

  /** A local reinit takes the clock, or one second more than before in 32 bits, and forgets the peer's epoch and the window. */
  lemma LocalReinitIs(p: Peer, clock: Int32)
    ensures var q := Step(p, LocalReinit(clock));
            && q.reinitTime == (if clock > p.reinitTime then clock else (p.reinitTime + 1 + 0x8000_0000) % 0x1_0000_0000 - 0x8000_0000)
            && q.dstReinit == 0 && q.highest == 0 && q.seen == {}
  {
  }

  /** A date of the peer is taken exactly when it is positive and newer, and then empties the window. */
  lemma PeerReinitIs(p: Peer, date: Int32)
    ensures var q := Step(p, PeerReinit(date));
            if date > 0 && date > p.dstReinit then q.dstReinit == date && q.highest == 0 && q.seen == {} && q.reinitTime == p.reinitTime
            else q == p
  {
  }

  /** Every change of the epoch counts up the version once, and nothing else does. */
  lemma VersionCountsEpochs(p: Peer, e: Event)
    ensures Step(p, e).version == p.version + if Step(p, e).Epoch() == p.Epoch() then 0 else 1
  {
  }

  /** A packet that is not accepted leaves the window as it is, or empty under a newer epoch of the peer. */
  lemma RefusedMarksNothing(p: Peer, packet: Packet, limit: Int32)
    requires Prepare(p, packet, limit).1 != Passed
    ensures var q := Step(p, Inbound(packet, limit)); q.seen == p.seen || (q.seen == {} && q.dstReinit > p.dstReinit)
  {
  }

  function Step(p: Peer, e: Event): Peer {
    match e
    case Inbound(packet, limit) => Prepare(p, packet, limit).0
    case PeerReinit(date) => ApplyPeerReinit(p, date)
    case LocalReinit(clock) => Reinit(p, clock)
  }

  /** The epoch and number of a packet this event accepts, if it accepts a numbered one. */
  function Accepts(p: Peer, e: Event): seq<(Int32, Int32, int)> {
    if e.Inbound? && e.packet.seqno.Some? && Prepare(p, e.packet, e.limit).1 == Passed then
      var q := Step(p, e);
      [(q.reinitTime, q.dstReinit, e.packet.seqno.value)]
    else []
  }

  function Run(p: Peer, es: seq<Event>): Peer {
    if es == [] then p else Step(Run(p, es[..|es| - 1]), es[|es| - 1])
  }

  function Accepted(p: Peer, es: seq<Event>): seq<(Int32, Int32, int)> {
    if es == [] then []
    else Accepted(p, es[..|es| - 1]) + Accepts(Run(p, es[..|es| - 1]), es[|es| - 1])
  }

  /** The guards under which a step takes the epoch backwards: a packet for an older local epoch whose own
      reinit date is not positive and below the known one, and a local reinit at the largest date. */
  predicate Regresses(p: Peer, e: Event) {
    match e
    case Inbound(packet, limit) =>
      && !TooNew(p, packet, limit)
      && OldLocalEpoch(p, packet)
      && packet.reinitDate.Some?
      && packet.reinitDate.value <= 0
      && packet.reinitDate.value < p.dstReinit
    case PeerReinit(_) => false
    case LocalReinit(_) => p.reinitTime == MAX32
  }

  ghost predicate RegressFree(p: Peer, es: seq<Event>) {
    forall i :: 0 <= i < |es| ==> !Regresses(Run(p, es[..i]), es[i])
  }

  /** The numbers seen are the positive ones up to the highest. */
  predicate Wf(p: Peer) {
    p.highest >= 0 && forall s :: s in p.seen ==> 0 < s <= p.highest
  }

  lemma StepKeepsWf(p: Peer, e: Event)
    requires Wf(p)
    ensures Wf(Step(p, e))
  {
  }

  /** The epoch goes backwards in exactly the guarded cases. */
  lemma EpochFallsIff(p: Peer, e: Event)
    ensures Before(Step(p, e).Epoch(), p.Epoch()) <==> Regresses(p, e)
  {
  }

  /** A step that does not regress forgets nothing it accepted unless it raises the epoch. */
  lemma ResetRaises(p: Peer, e: Event)
    requires !Regresses(p, e)
    ensures Before(p.Epoch(), Step(p, e).Epoch()) || (p.seen <= Step(p, e).seen && p.highest <= Step(p, e).highest)
    ensures Before(p.Epoch(), Step(p, e).Epoch()) || p.Epoch() == Step(p, e).Epoch()
  {
  }

  /** `used` are triples of epochs up to the current one; those of the current epoch are in the window set. */
  ghost predicate Remembers(p: Peer, used: seq<(Int32, Int32, int)>) {
    forall i :: 0 <= i < |used| ==>
      var (r, d, n) := used[i];
      Before((r, d), p.Epoch()) || ((r, d) == p.Epoch() && n in p.seen)
  }

  ghost predicate Distinct<T>(s: seq<T>) {
    forall i, j :: 0 <= i < j < |s| ==> s[i] != s[j]
  }

  lemma StepRemembers(p: Peer, e: Event, used: seq<(Int32, Int32, int)>)
    requires Remembers(p, used) && !Regresses(p, e)
    ensures Remembers(Step(p, e), used + Accepts(p, e))
    ensures Distinct(used) ==> Distinct(used + Accepts(p, e))
  {
    ResetRaises(p, e);
    var q := Step(p, e);
    forall i | 0 <= i < |used|
      ensures var (r, d, n) := used[i]; Before((r, d), q.Epoch()) || ((r, d) == q.Epoch() && n in q.seen)
    {
      var (r, d, n) := used[i];
    }
    if Accepts(p, e) != [] {
      AcceptIsNew(p, e, used);
    }
  }

  /** A number is accepted under an epoch whose window has not held it. */
  lemma AcceptIsNew(p: Peer, e: Event, used: seq<(Int32, Int32, int)>)
    requires Remembers(p, used) && !Regresses(p, e) && Accepts(p, e) != []
    ensures Accepts(p, e)[0] !in used
    ensures e.packet.seqno.value in Step(p, e).seen
  {
    var n := e.packet.seqno.value;
    var q := LearnReinit(p, e.packet);
    assert n !in q.seen;
    forall i | 0 <= i < |used|
      ensures used[i] != Accepts(p, e)[0]
    {
      var (r, d, m) := used[i];
      assert q == p || Before(p.Epoch(), q.Epoch());
    }
  }

  /** Over every run without a regressing step the epoch never falls and no triple is accepted twice. */
  lemma {:induction false} NoReplay(p: Peer, es: seq<Event>, used: seq<(Int32, Int32, int)>)
    requires RegressFree(p, es) && Remembers(p, used)
    ensures !Before(Run(p, es).Epoch(), p.Epoch())
    ensures Remembers(Run(p, es), used + Accepted(p, es))
    ensures Distinct(used) ==> Distinct(used + Accepted(p, es))
  {
    if es == [] {
      assert used + [] == used;
    } else {
      var front, e := es[..|es| - 1], es[|es| - 1];
      assert forall i :: 0 <= i < |front| ==> es[..i] == front[..i];
      NoReplay(p, front, used);
      var m := Run(p, front);
      assert !Regresses(m, e);
      ResetRaises(m, e);
      StepRemembers(m, e, used + Accepted(p, front));
      assert used + Accepted(p, es) == (used + Accepted(p, front)) + Accepts(m, e);
    }
  }

  /** A fresh peer that only ever sees packets whose reinit date is absent or positive, and whose local
      epoch stays below the largest date, accepts each (local epoch, peer epoch, number) at most once. */
  lemma EachTripleOnce(clock: Int32, es: seq<Event>)
    requires forall i :: 0 <= i < |es| && es[i].Inbound? ==>
      es[i].packet.reinitDate.None? || es[i].packet.reinitDate.value > 0
    requires forall i :: 0 <= i < |es| && es[i].LocalReinit? ==> Run(NewPeer(clock), es[..i]).reinitTime < MAX32
    ensures Distinct(Accepted(NewPeer(clock), es))
  {
    NoReplay(NewPeer(clock), es, []);
    assert [] + Accepted(NewPeer(clock), es) == Accepted(NewPeer(clock), es);
  }

  /** The events that bring a peer back to epoch `(r, d)` and deliver `n` again. */
  function Again(p: Peer, r: Int32, d: Int32, n: int): seq<Event> {
    var again := Inbound(Packet(if d > 0 then Some(d) else None, None, Some(n)), d);
    if p.reinitTime == r then [again] else [LocalReinit(r), again]
  }

  /** A regressing step from which the epoch can be reached again with an empty window: below a known peer epoch any of
      them, and before the peer's epoch is known only the local reinit at the largest date. */
  predicate Reopens(p: Peer, e: Event) {
    Regresses(p, e) && (p.dstReinit > 0 || (p.dstReinit == 0 && e.LocalReinit?))
  }

  /** For a number accepted under the current epoch, a further run can accept the same triple again exactly
      when the step reopens the epoch. */
  lemma ReplayIffRegress(p: Peer, e: Event, n: int)
    requires Wf(p) && n in p.seen
    ensures Reopens(p, e) <==>
      exists es :: RegressFree(Step(p, e), es) && (p.reinitTime, p.dstReinit, n) in Accepted(Step(p, e), es)
  {
    var t := (p.reinitTime, p.dstReinit, n);
    var q := Step(p, e);
    if Reopens(p, e) {
      RegressReadmits(p, e, n);
    } else {
      forall es | RegressFree(q, es)
        ensures t !in Accepted(q, es)
      {
        if Regresses(p, e) {
          ShutStays(q, es, p.reinitTime, p.dstReinit, n);
        } else {
          KeptOut(p, e, n, es);
        }
      }
    }
  }

  lemma RemembersOne(p: Peer, e: Event, n: int)
    requires n in p.seen && !Regresses(p, e)
    ensures Remembers(Step(p, e), [(p.reinitTime, p.dstReinit, n)])
  {
    ResetRaises(p, e);
  }

  lemma KeptOut(p: Peer, e: Event, n: int, es: seq<Event>)
    requires n in p.seen && !Regresses(p, e) && RegressFree(Step(p, e), es)
    ensures (p.reinitTime, p.dstReinit, n) !in Accepted(Step(p, e), es)
  {
    hide Step, Remembers, RegressFree, Regresses, Accepted;
    var t := (p.reinitTime, p.dstReinit, n);
    var q := Step(p, e);
    RemembersOne(p, e, n);
    NoReplay(q, es, [t]);
    var all := [t] + Accepted(q, es);
    forall i | 0 <= i < |Accepted(q, es)|
      ensures Accepted(q, es)[i] != t
    {
      assert all[0] != all[i + 1];
    }
  }

  /** Without a known peer epoch `d`, the triple stays refused: the local epoch is past `r`, the peer's epoch is past
      `d` for good, or the window still holds `n`. */
  predicate Shut(p: Peer, r: Int32, d: Int32, n: int) {
    || p.reinitTime > r
    || (p.reinitTime == r && (p.dstReinit > 0 || n in p.seen))
    || (d < 0 <= p.dstReinit)
  }

  lemma {:induction false} ShutStays(p: Peer, es: seq<Event>, r: Int32, d: Int32, n: int)
    requires RegressFree(p, es) && Shut(p, r, d, n) && d <= 0
    ensures Shut(Run(p, es), r, d, n)
    ensures (r, d, n) !in Accepted(p, es)
  {
    if es != [] {
      var front, e := es[..|es| - 1], es[|es| - 1];
      assert forall i :: 0 <= i < |front| ==> es[..i] == front[..i];
      ShutStays(p, front, r, d, n);
      var m := Run(p, front);
      assert !Regresses(m, e);
      ShutStep(m, e, r, d, n);
    }
  }

  lemma ShutStep(p: Peer, e: Event, r: Int32, d: Int32, n: int)
    requires !Regresses(p, e) && Shut(p, r, d, n) && d <= 0
    ensures Shut(Step(p, e), r, d, n)
    ensures (r, d, n) !in Accepts(p, e)
  {
  }

  lemma RegressReadmits(p: Peer, e: Event, n: int)
    requires Wf(p) && n in p.seen && Reopens(p, e)
    ensures RegressFree(Step(p, e), Again(Step(p, e), p.reinitTime, p.dstReinit, n))
    ensures (p.reinitTime, p.dstReinit, n) in
      Accepted(Step(p, e), Again(Step(p, e), p.reinitTime, p.dstReinit, n))
  {
    var q := Step(p, e);
    var es := Again(q, p.reinitTime, p.dstReinit, n);
    var last := es[|es| - 1];
    var m := Run(q, es[..|es| - 1]);
    if |es| == 2 {
      assert es[..1] == [es[0]] && es[..1][..0] == [];
      assert m == Step(Run(q, []), es[0]);
    } else {
      assert es[..0] == [];
    }
    assert m.reinitTime == p.reinitTime && m.dstReinit <= p.dstReinit;
    assert Accepts(m, last) == [(p.reinitTime, p.dstReinit, n)];
    assert Accepted(q, es) == Accepted(q, es[..|es| - 1]) + Accepts(m, last);
    forall i | 0 <= i < |es|
      ensures !Regresses(Run(q, es[..i]), es[i])
    {
      if i == 0 {
        assert es[..0] == [];
      }
    }
  }

  /** Such a run: number 1 of peer epoch 5, then a packet for an older local epoch with reinit date 0, then number 1 again. */
  lemma TripleTwice()
    ensures var numbered := Inbound(Packet(Some(5), None, Some(1)), 5);
            var es := [numbered, Inbound(Packet(Some(0), Some(9), None), 5), numbered];
            Accepted(NewPeer(10), es) == [(10, 5, 1), (10, 5, 1)]
  {
    var numbered, older := Inbound(Packet(Some(5), None, Some(1)), 5), Inbound(Packet(Some(0), Some(9), None), 5);
    var es := [numbered, older, numbered];
    assert es[..2] == [numbered, older] && es[..2][..1] == [numbered] && [numbered][..0] == [];
    var p1 := Step(NewPeer(10), numbered);
    assert Run(NewPeer(10), [numbered]) == p1;
    assert Accepted(NewPeer(10), [numbered]) == [] + Accepts(NewPeer(10), numbered);
    assert p1 == Peer(10, 5, 1, {1}, 1);
    var p2 := Step(p1, older);
    assert p2 == Peer(10, 0, 1, {1}, 2);
    assert Run(NewPeer(10), es[..2]) == p2;
    assert Accepted(NewPeer(10), es[..2]) == Accepted(NewPeer(10), [numbered]) + [];
    assert Accepts(p2, numbered) == [(10, 5, 1)];
  }

  /** The other such run: number 1 before the peer's epoch is known and at the largest local date, which a local reinit
      leaves and a second one reaches again. */
  lemma TripleTwiceAtLargestDate()
    ensures var numbered := Inbound(Packet(None, None, Some(1)), 0);
            Accepted(NewPeer(MAX32), [numbered, LocalReinit(0), LocalReinit(MAX32), numbered]) == [(MAX32, 0, 1), (MAX32, 0, 1)]
  {
    var numbered := Inbound(Packet(None, None, Some(1)), 0);
    var p := Peer(MAX32, 0, 1, {1}, 0);
    var es := [numbered, LocalReinit(0), LocalReinit(MAX32), numbered];
    assert es[..3] == [numbered, LocalReinit(0), LocalReinit(MAX32)] && es[..3][..2] == [numbered, LocalReinit(0)];
    assert es[..3][..2][..1] == [numbered] && [numbered][..0] == [];
    assert Run(NewPeer(MAX32), [numbered]) == p;
    assert Accepted(NewPeer(MAX32), [numbered]) == [] + Accepts(NewPeer(MAX32), numbered);
    assert Run(NewPeer(MAX32), es[..3][..2]) == Peer(MIN32, 0, 0, {}, 1);
    assert Run(NewPeer(MAX32), es[..3]) == Peer(MAX32, 0, 0, {}, 2);
    assert Accepted(NewPeer(MAX32), es[..3]) == [(MAX32, 0, 1)];
  }

  /** The receive side of an ADNL peer. */
  class Adnl {
    var reinitTime: Int32
    var dstReinit: Int32
    var lifecycleVersion: nat
    const window: Window

    ghost predicate Valid()
      reads this, window, window.words
    {
      window.Valid()
    }

    ghost function View(): Peer
      reads this, window
    {
      Peer(reinitTime, dstReinit, window.confirmSeqno, window.seen, lifecycleVersion)
    }

    constructor (clock: Int32)
      ensures Valid() && fresh(window) && fresh(window.words)
      ensures View() == NewPeer(clock)
    {
      reinitTime, dstReinit, lifecycleVersion := clock, 0, 0;
      window := new Window();
    }

    method ApplyPeerReinitLocked(date: Int32)
      requires Valid()
      modifies this, window, window.words
      ensures Valid() && View() == Step(old(View()), PeerReinit(date))
    {
      if date <= 0 {
        return;
      }
      if dstReinit >= date {
        return;
      }
      dstReinit := date;
      lifecycleVersion := lifecycleVersion + 1;
      window.Reset();
    }

    method ReinitLocked(clock: Int32)
      requires Valid()
      modifies this, window, window.words
      ensures Valid() && View() == Step(old(View()), LocalReinit(clock))
    {
      var tm := clock;
      if tm <= reinitTime {
        tm := if reinitTime == MAX32 then MIN32 else reinitTime + 1;
      }
      lifecycleVersion := lifecycleVersion + 1;
      reinitTime := tm;
      dstReinit := 0;
      window.Reset();
    }

    method PreparePacketLocked(packet: Packet, limit: Int32) returns (outcome: Outcome)
      requires Valid()
      modifies this, window, window.words
      ensures Valid() && View() == Step(old(View()), Inbound(packet, limit))
      ensures outcome == Prepare(old(View()), packet, limit).1
    {
      if packet.dstReinitDate.Some? && packet.dstReinitDate.value > reinitTime {
        return Dropped;
      }
      if packet.reinitDate.Some? && packet.reinitDate.value > limit {
        return Dropped;
      }
      if packet.reinitDate.Some? && packet.reinitDate.value > dstReinit {
        ApplyPeerReinitLocked(packet.reinitDate.value);
      }
      if packet.reinitDate.Some? && packet.reinitDate.value > 0 && packet.reinitDate.value < dstReinit {
        return Dropped;
      }
      if packet.dstReinitDate.Some? && packet.dstReinitDate.value > 0 && packet.dstReinitDate.value < reinitTime {
        if packet.reinitDate.Some? && dstReinit != packet.reinitDate.value {
          dstReinit := packet.reinitDate.value;
          lifecycleVersion := lifecycleVersion + 1;
        }
        return RespondReinit;
      }
      if packet.seqno.Some? {
        var ok := window.Accept(packet.seqno.value);
        if !ok {
          return Dropped;
        }
      }
      return Passed;
    }
  }
}
