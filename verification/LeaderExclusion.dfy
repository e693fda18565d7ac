/** When at most one control plane instance leads: the database steps of LeaderSteps on one clock. */
module LeaderExclusion {
  import opened Sequences
  import opened LeaderSteps

  /** An event and the time it happens at. */
  datatype Timed = Timed(at: int, event: Event)

  /** A world, and for each instance the end of the lease it last became leader by. */
  datatype Watched = Watched(world: World, until: map<string, int>)

  /** The lease an instance becomes leader by: the one it wrote, or the one its final read found. */
  function Noted(s: Watched, e: Event, ttl: int): map<string, int> {
    if e.Step? && e.round in s.world.rounds then
      var p := s.world.rounds[e.round];
      match p.phase
      case Won(_) => s.until[p.me := p.now + ttl]
      case Seen(current) => if current.Some? then s.until[p.me := current.value.expiresAt] else s.until
      case _ => s.until
    else s.until
  }

  function Watch(s: Watched, e: Event, ttl: int): Watched {
    Watched(Next(s.world, e, ttl), Noted(s, e, ttl))
  }

  function WatchAll(s: Watched, run: seq<Timed>, ttl: int): Watched
    decreases |run|
  {
    if run == [] then s else WatchAll(Watch(s, run[0].event, ttl), run[1..], ttl)
  }

  /** Times do not fall, and a round reads the clock when it begins. */
  predicate Ordered(clock: int, run: seq<Timed>)
    decreases |run|
  {
    run == [] ||
    (clock <= run[0].at && (run[0].event.Begin? ==> run[0].event.now == run[0].at) && Ordered(run[0].at, run[1..]))
  }

  function LastTime(clock: int, run: seq<Timed>): int {
    if run == [] then clock else run[|run| - 1].at
  }

  /** The instance believes it leads, and the lease it became leader by has not run out. */
  predicate LeadsAt(s: Watched, me: string, t: int) {
    Leads(s.world, me) && me in s.until && s.until[me] > t
  }

  // ---- proper writes ----------------------------------------------------------------------

  /** The step creates or overwrites the lease row. */
  predicate Writes(w: World, e: Event) {
    && e.Step? && e.round in w.rounds
    && match w.rounds[e.round].phase
       case Creating => w.row.None?
       case Updating(guarded) => w.row.Some? && (!guarded || w.row.value.holder == w.rounds[e.round].me)
       case _ => false
  }

  /** A write meets no row, an expired row, or its own instance's row with no later end. */
  predicate Proper(w: World, e: Event, t: int, ttl: int) {
    Writes(w, e) ==>
      || w.row.None?
      || w.row.value.expiresAt <= t
      || (HeldBy(w, w.rounds[e.round].me) && w.row.value.expiresAt <= w.rounds[e.round].now + ttl)
  }

  predicate AllProper(w: World, run: seq<Timed>, ttl: int)
    decreases |run|
  {
    run == [] || (Proper(w, run[0].event, run[0].at, ttl) && AllProper(Next(w, run[0].event, ttl), run[1..], ttl))
  }

  /** A lease of an instance up to `end` that has not run out is covered by the row. */
  predicate Covered(w: World, me: string, end: int, t: int) {
    end > t ==> HeldBy(w, me) && w.row.value.expiresAt >= end
  }

  /** A round that is about to make its instance leader is covered. */
  predicate RoundCovered(w: World, p: Pending, t: int, ttl: int) {
    match p.phase
    case Won(_) => Covered(w, p.me, p.now + ttl, t)
    case Seen(current) =>
      current.Some? && current.value.holder == p.me ==> Covered(w, p.me, current.value.expiresAt, t)
    case _ => true
  }

  /** Whoever leads, or is about to, by a lease that has not run out holds the row for at least as long. */
  ghost predicate Backed(s: Watched, t: int, ttl: int) {
    && (forall i :: Leads(s.world, i) ==> i in s.until && Covered(s.world, i, s.until[i], t))
    && (forall r :: r in s.world.rounds ==> RoundCovered(s.world, s.world.rounds[r], t, ttl))
  }

  /** The next state of the row covers all that was covered. */
  lemma StaysCovered(w: World, e: Event, me: string, end: int, clock: int, t: int, ttl: int)
    requires Covered(w, me, end, clock) && clock <= t && Proper(w, e, t, ttl)
    ensures Covered(Next(w, e, ttl), me, end, t)
  {
  }

  /** The step of a round that only it changes: what it is about to claim is covered. */
  lemma OwnCovered(w: World, e: Event, clock: int, t: int, ttl: int)
    requires (e.Step? || e.Fail?) && e.round in w.rounds && e.round in Next(w, e, ttl).rounds
    requires RoundCovered(w, w.rounds[e.round], clock, ttl) && clock <= t && Proper(w, e, t, ttl)
    ensures RoundCovered(Next(w, e, ttl), Next(w, e, ttl).rounds[e.round], t, ttl)
  {
  }

  lemma RoundStaysCovered(w: World, e: Event, r: nat, clock: int, t: int, ttl: int)
    requires r in w.rounds && (e.Begin? ==> r != w.next) && (!e.Begin? ==> e.round != r)
    requires RoundCovered(w, w.rounds[r], clock, ttl) && clock <= t && Proper(w, e, t, ttl)
    ensures r in Next(w, e, ttl).rounds && Next(w, e, ttl).rounds[r] == w.rounds[r]
    ensures RoundCovered(Next(w, e, ttl), w.rounds[r], t, ttl)
  {
    var p := w.rounds[r];
    match p.phase
    case Won(_) => StaysCovered(w, e, p.me, p.now + ttl, clock, t, ttl);
    case Seen(current) =>
      if current.Some? && current.value.holder == p.me {
        StaysCovered(w, e, p.me, current.value.expiresAt, clock, t, ttl);
      }
    case _ =>
  }

  /** Who leads after a step led before, or has just ended a round that was covered. */
  lemma LeaderStaysCovered(s: Watched, e: Event, me: string, clock: int, t: int, ttl: int)
    requires Backed(s, clock, ttl) && clock <= t && Proper(s.world, e, t, ttl)
    requires Leads(Next(s.world, e, ttl), me)
    ensures var s' := Watch(s, e, ttl); me in s'.until && Covered(s'.world, me, s'.until[me], t)
  {
    var w, s' := s.world, Watch(s, e, ttl);
    if Completes(w, e, me) {
      assert RoundCovered(w, w.rounds[e.round], clock, ttl);
      StaysCovered(w, e, me, s'.until[me], clock, t, ttl);
    } else {
      assert Leads(w, me);
      StaysCovered(w, e, me, s.until[me], clock, t, ttl);
    }
  }

  lemma StepBacked(s: Watched, e: Event, clock: int, t: int, ttl: int)
    requires Backed(s, clock, ttl) && clock <= t && Proper(s.world, e, t, ttl)
    ensures Backed(Watch(s, e, ttl), t, ttl)
  {
    var w, s' := s.world, Watch(s, e, ttl);
    forall i | Leads(s'.world, i)
      ensures i in s'.until && Covered(s'.world, i, s'.until[i], t)
    {
      LeaderStaysCovered(s, e, i, clock, t, ttl);
    }
    forall r | r in s'.world.rounds
      ensures RoundCovered(s'.world, s'.world.rounds[r], t, ttl)
    {
      if e.Begin? && r == w.next {
      } else if !e.Begin? && e.round == r {
        OwnCovered(w, e, clock, t, ttl);
      } else {
        RoundStaysCovered(w, e, r, clock, t, ttl);
      }
    }
  }

  lemma {:induction false} RunBacked(s: Watched, run: seq<Timed>, clock: int, ttl: int)
    requires Backed(s, clock, ttl) && Ordered(clock, run) && AllProper(s.world, run, ttl)
    ensures Backed(WatchAll(s, run, ttl), LastTime(clock, run), ttl)
    decreases |run|
  {
    if run != [] {
      StepBacked(s, run[0].event, clock, run[0].at, ttl);
      RunBacked(Watch(s, run[0].event, ttl), run[1..], run[0].at, ttl);
      assert LastTime(run[0].at, run[1..]) == LastTime(clock, run);
    }
  }

  /** Nobody leads and no round is in flight. */
  ghost predicate Quiet(w: World) {
    w.rounds == map[] && forall i :: !Leads(w, i)
  }

  /**
   * Exclusivity. After any events on one clock, from a start at which nobody leads, whatever rounds overlap or fail:
   * if every write met no row, an expired row or its own instance's row with no later end, then at any time from
   * there on at most one instance leads by a lease that has not run out, and it is the holder of the row.
   */
  lemma Exclusive(w: World, run: seq<Timed>, clock: int, ttl: int, t: int, i: string, j: string)
    requires Quiet(w) && Ordered(clock, run) && AllProper(w, run, ttl) && LastTime(clock, run) <= t
    requires LeadsAt(WatchAll(Watched(w, map[]), run, ttl), i, t)
    requires LeadsAt(WatchAll(Watched(w, map[]), run, ttl), j, t)
    ensures i == j && HeldBy(WatchAll(Watched(w, map[]), run, ttl).world, i)
  {
    RunBacked(Watched(w, map[]), run, clock, ttl);
  }

  // ---- improper writes --------------------------------------------------------------------

  /**
   * A second leader. In any state, let a write of one instance go through and its round end: at any time from then on
   * it leads beside another instance exactly if that one led already by a lease that lasts as long, and the written
   * lease lasts as long too. In a state proper writes lead to, a write beside such a leader is improper.
   */
  lemma SecondLeaderIff(s: Watched, t: int, ttl: int, i: string, r: nat, later: int)
    requires r in s.world.rounds && s.world.rounds[r].me != i && Writes(s.world, Step(r)) && t <= later
    ensures var p, s' := s.world.rounds[r], Watch(Watch(s, Step(r), ttl), Step(r), ttl);
            LeadsAt(s', i, later) && LeadsAt(s', p.me, later) <==> LeadsAt(s, i, later) && later < p.now + ttl
    ensures Backed(s, t, ttl) && LeadsAt(s, i, t) ==> !Proper(s.world, Step(r), t, ttl)
  {
    var p, s1 := s.world.rounds[r], Watch(s, Step(r), ttl);
    assert s1.world.rounds[r] == p.(phase := s1.world.rounds[r].phase) && s1.world.rounds[r].phase.Won?;
    assert s1.until == s.until && s1.world.nodes == s.world.nodes;
    assert Backed(s, t, ttl) && LeadsAt(s, i, t) ==> Covered(s.world, i, s.until[i], t);
  }

  // ---- what makes a write proper ------------------------------------------------------------

  /** No instance begins a round before its last one is over. */
  ghost predicate NoOverlap(w: World, run: seq<Timed>, ttl: int)
    decreases |run|
  {
    run == [] ||
    var e := run[0].event;
    (e.Begin? ==> Idle(w, e.me)) && NoOverlap(Next(w, e, ttl), run[1..], ttl)
  }

  /** The row ends no later than a lease written now, and a round meets its own row ending no later than its own. */
  ghost predicate Timely(w: World, t: int, ttl: int) {
    && (w.row.Some? ==> w.row.value.expiresAt <= t + ttl)
    && (forall r :: r in w.rounds ==> r < w.next && w.rounds[r].now <= t)
    && (forall r :: r in w.rounds && HeldBy(w, w.rounds[r].me) ==> w.row.value.expiresAt <= w.rounds[r].now + ttl)
    && (forall r, q :: r in w.rounds && q in w.rounds && w.rounds[r].me == w.rounds[q].me ==> r == q)
  }

  lemma TimelyRounds(w: World, e: Event, ttl: int)
    requires forall r :: r in w.rounds ==> r < w.next
    ensures var v := Next(w, e, ttl);
            && (forall r :: r in v.rounds ==> r < v.next)
            && (forall r :: r in w.rounds && r in v.rounds ==>
                  v.rounds[r].me == w.rounds[r].me && v.rounds[r].now == w.rounds[r].now)
            && (forall r :: r in v.rounds && r !in w.rounds ==>
                  e.Begin? && r == w.next && v.rounds[r] == Pending(e.me, e.now, Begun))
  {
  }

  /** The row after a step is the old one, or the lease of the round that wrote. */
  lemma RowAfter(w: World, e: Event, ttl: int)
    ensures Next(w, e, ttl).row ==
            if Writes(w, e) then Some(Leader.Lease(w.rounds[e.round].me, w.rounds[e.round].now + ttl)) else w.row
  {
  }

  lemma OwnRowTimely(w: World, e: Event, clock: int, t: int, ttl: int, r: nat)
    requires Timely(w, clock, ttl) && clock <= t
    requires e.Begin? ==> e.now == t
    requires r in Next(w, e, ttl).rounds && HeldBy(Next(w, e, ttl), Next(w, e, ttl).rounds[r].me)
    ensures Next(w, e, ttl).row.value.expiresAt <= Next(w, e, ttl).rounds[r].now + ttl
  {
    TimelyRounds(w, e, ttl);
    RowAfter(w, e, ttl);
  }

  lemma StepTimely(w: World, e: Event, clock: int, t: int, ttl: int)
    requires Timely(w, clock, ttl) && clock <= t
    requires e.Begin? ==> e.now == t && Idle(w, e.me)
    ensures Timely(Next(w, e, ttl), t, ttl)
  {
    var v := Next(w, e, ttl);
    TimelyRounds(w, e, ttl);
    RowAfter(w, e, ttl);
    forall r | r in v.rounds && HeldBy(v, v.rounds[r].me)
      ensures v.row.value.expiresAt <= v.rounds[r].now + ttl
    {
      OwnRowTimely(w, e, clock, t, ttl, r);
    }
  }

  /** The unguarded update goes through to a row of another instance that has not expired. */
  predicate Grabs(w: World, e: Event, t: int) {
    && e.Step? && e.round in w.rounds && w.rounds[e.round].phase == Updating(false)
    && w.row.Some? && w.row.value.holder != w.rounds[e.round].me && w.row.value.expiresAt > t
  }

  /**
   * Where no instance's rounds overlap, creating a row and the guarded update are always proper, and the unguarded
   * update is improper exactly when the row it meets is another instance's and has not expired.
   */
  lemma ProperIff(w: World, e: Event, clock: int, t: int, ttl: int)
    requires Timely(w, clock, ttl) && clock <= t
    ensures Proper(w, e, t, ttl) <==> !Grabs(w, e, t)
  {
  }

  /** No unguarded update grabs a row that has not expired. */
  predicate NoneGrabs(w: World, run: seq<Timed>, ttl: int)
    decreases |run|
  {
    run == [] || (!Grabs(w, run[0].event, run[0].at) && NoneGrabs(Next(w, run[0].event, ttl), run[1..], ttl))
  }

  lemma {:induction false} ProperRun(w: World, run: seq<Timed>, clock: int, ttl: int)
    requires Timely(w, clock, ttl) && Ordered(clock, run) && NoOverlap(w, run, ttl)
    ensures AllProper(w, run, ttl) <==> NoneGrabs(w, run, ttl)
    decreases |run|
  {
    if run != [] {
      ProperIff(w, run[0].event, clock, run[0].at, ttl);
      StepTimely(w, run[0].event, clock, run[0].at, ttl);
      ProperRun(Next(w, run[0].event, ttl), run[1..], run[0].at, ttl);
    }
  }

  /**
   * The guard. If no instance's rounds overlap and the row at the start ends within one lease, exclusivity holds as
   * long as every update of an expired lease still finds it expired, or its own, when it is made.
   */
  lemma ExclusiveUnlessGrabbed(w: World, run: seq<Timed>, clock: int, ttl: int, t: int, i: string, j: string)
    requires Quiet(w) && (w.row.Some? ==> w.row.value.expiresAt <= clock + ttl)
    requires Ordered(clock, run) && NoOverlap(w, run, ttl) && NoneGrabs(w, run, ttl) && LastTime(clock, run) <= t
    requires LeadsAt(WatchAll(Watched(w, map[]), run, ttl), i, t)
    requires LeadsAt(WatchAll(Watched(w, map[]), run, ttl), j, t)
    ensures i == j && HeldBy(WatchAll(Watched(w, map[]), run, ttl).world, i)
  {
    ProperRun(w, run, clock, ttl);
    Exclusive(w, run, clock, ttl, t, i, j);
  }
}
