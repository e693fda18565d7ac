/** LeaderElection.renewLease as separate database steps: any interleaving, overlapping rounds, lost answers. */
module LeaderSteps {
  import opened Sequences
  import opened Leader

  /**
   * Where a round stands. `Won` means the write has committed but the fields are not set yet; `Seen` means the
   * final read has returned but the fields are not set yet.
   */
  datatype Phase =
    | Begun
    | Creating
    | CreateFailed
    | Updating(guarded: bool)
    | Won(created: bool)
    | Reading
    | Seen(current: Option<Lease>)

  datatype Pending = Pending(me: string, now: int, phase: Phase)

  /** The lease row, the instances' fields and the rounds in flight, numbered in the order they began. */
  datatype World = World(row: Option<Lease>, nodes: map<string, Node>, rounds: map<nat, Pending>, next: nat)

  datatype Event = Begin(me: string, now: int) | Step(round: nat) | Fail(round: nat)

  function At(w: World, round: nat, phase: Phase): World
    requires round in w.rounds
  {
    w.(rounds := w.rounds[round := w.rounds[round].(phase := phase)])
  }

  function Ended(w: World, round: nat): World {
    w.(rounds := w.rounds - {round})
  }

  function WithNode(w: World, me: string, node: Node): World {
    w.(nodes := w.nodes[me := node])
  }

  /** The next database or local step of a round. */
  function Stepped(w: World, round: nat, ttl: int): World
    requires round in w.rounds
  {
    var p := w.rounds[round];
    var node, lease := NodeOf(w.nodes, p.me), Lease(p.me, p.now + ttl);
    match p.phase
    case Begun =>
      if w.row.None? then At(w, round, Creating)
      else if Expired(w.row, p.now) || w.row.value.holder == p.me then At(w, round, Updating(!Expired(w.row, p.now)))
      else At(w, round, Reading)
    case Creating =>
      if w.row.None? then At(w.(row := Some(lease)), round, Won(true)) else At(w, round, CreateFailed)
    case CreateFailed => At(WithNode(w, p.me, node.(isLeader := false)), round, Reading)
    case Updating(guarded) =>
      if w.row.Some? && (!guarded || w.row.value.holder == p.me) then At(w.(row := Some(lease)), round, Won(false))
      else At(w, round, Reading)
    case Won(_) => Ended(WithNode(w, p.me, Elected(node, p.me)), round)
    case Reading => At(w, round, Seen(w.row))
    case Seen(current) => Ended(WithNode(w, p.me, Followed(node, p.me, current, p.now)), round)
  }

  /** The database call of a round fails, or its answer is lost. Only a failing create is caught. */
  function Failed(w: World, round: nat): World
    requires round in w.rounds
  {
    match w.rounds[round].phase
    case Creating => At(w, round, CreateFailed)
    case Won(true) => At(w, round, CreateFailed)
    case _ => Ended(w, round)
  }

  function Next(w: World, e: Event, ttl: int): World {
    match e
    case Begin(me, now) => w.(rounds := w.rounds[w.next := Pending(me, now, Begun)], next := w.next + 1)
    case Step(round) => if round in w.rounds then Stepped(w, round, ttl) else w
    case Fail(round) => if round in w.rounds then Failed(w, round) else w
  }

  function After(w: World, events: seq<Event>, ttl: int): World
    decreases |events|
  {
    if events == [] then w else After(Next(w, events[0], ttl), events[1..], ttl)
  }

  lemma {:induction false} AfterConcat(w: World, a: seq<Event>, b: seq<Event>, ttl: int)
    ensures After(w, a + b, ttl) == After(After(w, a, ttl), b, ttl)
    decreases |a|
  {
    if a == [] {
      assert a + b == b;
    } else {
      assert (a + b)[1..] == a[1..] + b;
      AfterConcat(Next(w, a[0], ttl), a[1..], b, ttl);
    }
  }

  predicate Leads(w: World, me: string) {
    NodeOf(w.nodes, me).isLeader
  }

  predicate HeldBy(w: World, holder: string) {
    w.row.Some? && w.row.value.holder == holder
  }

  // ---- who can change the holder ----------------------------------------------------------

  /** The steps that may change the holder: creating the missing row, and the update of an expired lease. */
  predicate Seizes(w: World, e: Event) {
    && e.Step? && e.round in w.rounds
    && match w.rounds[e.round].phase
       case Creating => w.row.None?
       case Updating(guarded) => !guarded && w.row.Some?
       case _ => false
  }

  /** A step gives the row a new holder exactly when it seizes for someone else; a renewal never does. */
  lemma OnlySeizuresChangeTheHolder(w: World, e: Event, ttl: int)
    ensures w.row.Some? ==> Next(w, e, ttl).row.Some?
    ensures (exists h :: HeldBy(Next(w, e, ttl), h) && !HeldBy(w, h)) <==>
            Seizes(w, e) && !HeldBy(w, w.rounds[e.round].me)
    ensures Next(w, e, ttl).row != w.row ==>
              && e.Step? && e.round in w.rounds
              && Next(w, e, ttl).row == Some(Lease(w.rounds[e.round].me, w.rounds[e.round].now + ttl))
  {
    var w' := Next(w, e, ttl);
    if Seizes(w, e) {
      assert HeldBy(w', w.rounds[e.round].me);
    }
  }

  // ---- stabilisation ----------------------------------------------------------------------

  /** The holder stays `h` from `w` through all of `events`. */
  predicate Held(w: World, events: seq<Event>, h: string, ttl: int)
    decreases |events|
  {
    HeldBy(w, h) && (events == [] || Held(Next(w, events[0], ttl), events[1..], h, ttl))
  }

  /** What a round begun under holder `h` can be doing while `h` stays. */
  predicate FreshPhase(p: Pending, h: string) {
    match p.phase
    case Begun => true
    case Updating(guarded) => guarded ==> p.me == h
    case Won(created) => !created && p.me == h
    case Reading => p.me != h
    case Seen(current) => p.me != h && current.Some? && current.value.holder == h
    case Creating => false
    case CreateFailed => false
  }

  ghost predicate FreshRounds(w: World, since: nat, h: string) {
    && since <= w.next
    && (forall r :: r in w.rounds ==> r < w.next)
    && (forall r :: r in w.rounds && r >= since ==> FreshPhase(w.rounds[r], h))
  }

  /** No round of `me` begun before `since` is still in flight. */
  ghost predicate NoStale(w: World, since: nat, me: string) {
    forall r :: r in w.rounds && w.rounds[r].me == me ==> r >= since
  }

  /** The event ends a round of `me` by setting its fields. */
  predicate Completes(w: World, e: Event, me: string) {
    && e.Step? && e.round in w.rounds && w.rounds[e.round].me == me
    && (w.rounds[e.round].phase.Won? || w.rounds[e.round].phase.Seen?)
  }

  /** Some event of the list completes a round of `me`. */
  predicate SomeCompletes(w: World, events: seq<Event>, me: string, ttl: int)
    decreases |events|
  {
    events != [] && (Completes(w, events[0], me) || SomeCompletes(Next(w, events[0], ttl), events[1..], me, ttl))
  }

  lemma FreshStays(w: World, e: Event, since: nat, h: string, ttl: int)
    requires HeldBy(w, h) && HeldBy(Next(w, e, ttl), h)
    requires FreshRounds(w, since, h)
    ensures FreshRounds(Next(w, e, ttl), since, h)
  {
  }

  lemma NoneTurnsStale(w: World, e: Event, since: nat, me: string, ttl: int)
    requires since <= w.next && NoStale(w, since, me)
    ensures NoStale(Next(w, e, ttl), since, me)
  {
  }

  /** The flag a completed round sets is whether its instance is the holder; no other step sets it. */
  lemma FreshFlag(w: World, e: Event, since: nat, h: string, me: string, ttl: int)
    requires HeldBy(w, h) && FreshRounds(w, since, h) && NoStale(w, since, me)
    ensures Completes(w, e, me) ==> (Leads(Next(w, e, ttl), me) <==> me == h)
    ensures !Completes(w, e, me) ==> (Leads(Next(w, e, ttl), me) <==> Leads(w, me))
  {
  }

  lemma FreshStep(w: World, e: Event, since: nat, h: string, me: string, ttl: int)
    requires HeldBy(w, h) && HeldBy(Next(w, e, ttl), h)
    requires FreshRounds(w, since, h)
    ensures FreshRounds(Next(w, e, ttl), since, h)
    ensures NoStale(w, since, me) ==> NoStale(Next(w, e, ttl), since, me)
    ensures NoStale(w, since, me) && Completes(w, e, me) ==> (Leads(Next(w, e, ttl), me) <==> me == h)
    ensures NoStale(w, since, me) && !Completes(w, e, me) ==> (Leads(Next(w, e, ttl), me) <==> Leads(w, me))
  {
    FreshStays(w, e, since, h, ttl);
    if NoStale(w, since, me) {
      NoneTurnsStale(w, e, since, me, ttl);
      FreshFlag(w, e, since, h, me, ttl);
    }
  }

  lemma {:induction false} FreshRun(w: World, events: seq<Event>, since: nat, h: string, ttl: int)
    requires Held(w, events, h, ttl) && FreshRounds(w, since, h)
    ensures FreshRounds(After(w, events, ttl), since, h) && HeldBy(After(w, events, ttl), h)
    decreases |events|
  {
    if events != [] {
      FreshStep(w, events[0], since, h, h, ttl);
      FreshRun(Next(w, events[0], ttl), events[1..], since, h, ttl);
    }
  }

  lemma {:induction false} SettledRun(w: World, events: seq<Event>, since: nat, h: string, me: string, ttl: int)
    requires Held(w, events, h, ttl) && FreshRounds(w, since, h) && NoStale(w, since, me)
    requires (Leads(w, me) <==> me == h) || SomeCompletes(w, events, me, ttl)
    ensures Leads(After(w, events, ttl), me) <==> me == h
    decreases |events|
  {
    if events != [] {
      FreshStep(w, events[0], since, h, me, ttl);
      SettledRun(Next(w, events[0], ttl), events[1..], since, h, me, ttl);
    }
  }

  lemma {:induction false} HeldSplit(w: World, a: seq<Event>, b: seq<Event>, h: string, ttl: int)
    requires Held(w, a + b, h, ttl)
    ensures Held(w, a, h, ttl) && Held(After(w, a, ttl), b, h, ttl)
    decreases |a|
  {
    if a == [] {
      assert a + b == b;
    } else {
      assert (a + b)[1..] == a[1..] + b && (a + b)[0] == a[0];
      HeldSplit(Next(w, a[0], ttl), a[1..], b, h, ttl);
    }
  }

  lemma {:induction false} CompletesConcat(w: World, a: seq<Event>, b: seq<Event>, me: string, ttl: int)
    requires SomeCompletes(w, a, me, ttl)
    ensures SomeCompletes(w, a + b, me, ttl)
    decreases |a|
  {
    assert (a + b)[1..] == a[1..] + b && (a + b)[0] == a[0];
    if !Completes(w, a[0], me) {
      CompletesConcat(Next(w, a[0], ttl), a[1..], b, me, ttl);
    }
  }

  /**
   * Stabilisation. Take any state and any interleaving of single steps, overlapping rounds and failures
   * from it during which the row keeps one holder. Once the rounds of an instance that were in flight at the
   * start are over, and the instance has then completed a round, it believes it leads exactly when it is the
   * holder, and this stays so.
   */
  lemma LeadershipStabilises(
    w: World, draining: seq<Event>, renewing: seq<Event>, later: seq<Event>, h: string, me: string, ttl: int)
    requires forall r :: r in w.rounds ==> r < w.next
    requires Held(w, draining + (renewing + later), h, ttl)
    requires NoStale(After(w, draining, ttl), w.next, me)
    requires SomeCompletes(After(w, draining, ttl), renewing, me, ttl)
    ensures Leads(After(w, draining + (renewing + later), ttl), me) <==> me == h
  {
    HeldSplit(w, draining, renewing + later, h, ttl);
    FreshRun(w, draining, w.next, h, ttl);
    CompletesConcat(After(w, draining, ttl), renewing, later, me, ttl);
    SettledRun(After(w, draining, ttl), renewing + later, w.next, h, me, ttl);
    AfterConcat(w, draining, renewing + later, ttl);
  }

  // ---- promotions -------------------------------------------------------------------------

  /** The event calls the promotion handler of `me`. */
  predicate Fires(w: World, e: Event, me: string, ttl: int) {
    NodeOf(Next(w, e, ttl).nodes, me).promotions > NodeOf(w.nodes, me).promotions
  }

  /** The round whose create commits and is yet reported as failed by the event. */
  function LostCreate(w: World, e: Event): set<nat> {
    if e.Fail? && e.round in w.rounds && w.rounds[e.round].phase == Won(true) then {e.round} else {}
  }

  /** The rounds to which that has happened by the end of a run. */
  function LostCreates(w: World, events: seq<Event>, lost: set<nat>, ttl: int): set<nat>
    decreases |events|
  {
    if events == [] then lost
    else LostCreates(Next(w, events[0], ttl), events[1..], lost + LostCreate(w, events[0]), ttl)
  }

  /** No round of `me` is in flight. */
  ghost predicate Idle(w: World, me: string) {
    forall r :: r in w.rounds ==> w.rounds[r].me != me
  }

  /** No round of `me` begins before its last one is over. */
  ghost predicate Sequential(w: World, events: seq<Event>, me: string, ttl: int)
    decreases |events|
  {
    events == [] ||
    ((events[0].Begin? && events[0].me == me ==> Idle(w, me))
     && Sequential(Next(w, events[0], ttl), events[1..], me, ttl))
  }

  /** A round past its own write that has not lost a create cannot find its instance in the row. */
  predicate SeesOthers(w: World, p: Pending) {
    match p.phase
    case Creating => !HeldBy(w, p.me)
    case CreateFailed => !HeldBy(w, p.me)
    case Reading => !HeldBy(w, p.me)
    case Seen(current) => current.None? || current.value.holder != p.me
    case _ => true
  }

  ghost predicate Unpromoted(w: World, me: string, lost: set<nat>) {
    && (forall r :: r in w.rounds ==> r < w.next)
    && (forall r, s :: r in w.rounds && s in w.rounds && w.rounds[r].me == me && w.rounds[s].me == me ==> r == s)
    && (forall r :: r in w.rounds && w.rounds[r].me == me && r !in lost ==> SeesOthers(w, w.rounds[r]))
  }

  lemma RoundsStep(w: World, e: Event, ttl: int)
    requires forall r :: r in w.rounds ==> r < w.next
    ensures var v := Next(w, e, ttl);
            && (forall r :: r in v.rounds ==> r < v.next)
            && (forall r :: r in w.rounds && r in v.rounds ==> v.rounds[r].me == w.rounds[r].me)
            && (forall r :: r in v.rounds && r !in w.rounds ==> e.Begin? && r == w.next && v.rounds[r].me == e.me)
  {
  }

  lemma OneRoundStep(w: World, e: Event, me: string, lost: set<nat>, ttl: int)
    requires Unpromoted(w, me, lost)
    requires e.Begin? && e.me == me ==> Idle(w, me)
    ensures var v := Next(w, e, ttl);
            forall r, s :: r in v.rounds && s in v.rounds && v.rounds[r].me == me && v.rounds[s].me == me ==> r == s
  {
    RoundsStep(w, e, ttl);
  }

  /** A step that another instance takes, or a failure, does not put this instance into the row. */
  lemma RowStep(w: World, e: Event, me: string, ttl: int)
    requires HeldBy(Next(w, e, ttl), me) && !HeldBy(w, me)
    ensures e.Step? && e.round in w.rounds && w.rounds[e.round].me == me
    ensures w.rounds[e.round].phase.Creating? || w.rounds[e.round].phase.Updating?
    ensures e.round in Next(w, e, ttl).rounds && Next(w, e, ttl).rounds[e.round].phase.Won?
  {
  }

  /** The one round of an instance goes on seeing others. */
  lemma OwnSees(w: World, e: Event, ttl: int, r: nat)
    requires e.Step? || e.Fail?
    requires e.round == r && r in w.rounds && SeesOthers(w, w.rounds[r]) && r !in LostCreate(w, e)
    requires r in Next(w, e, ttl).rounds
    ensures SeesOthers(Next(w, e, ttl), Next(w, e, ttl).rounds[r])
  {
  }

  lemma OthersSee(w: World, e: Event, ttl: int, r: nat)
    requires r in w.rounds && SeesOthers(w, w.rounds[r])
    requires e.Begin? || e.round != r
    requires forall r :: r in w.rounds ==> r < w.next
    requires !HeldBy(w, w.rounds[r].me) ==> !HeldBy(Next(w, e, ttl), w.rounds[r].me)
    requires r in Next(w, e, ttl).rounds
    ensures SeesOthers(Next(w, e, ttl), Next(w, e, ttl).rounds[r])
  {
    assert Next(w, e, ttl).rounds[r] == w.rounds[r];
  }

  lemma SeesStep(w: World, e: Event, me: string, lost: set<nat>, ttl: int, r: nat)
    requires Unpromoted(w, me, lost)
    requires r in Next(w, e, ttl).rounds && Next(w, e, ttl).rounds[r].me == me && r !in lost + LostCreate(w, e)
    ensures SeesOthers(Next(w, e, ttl), Next(w, e, ttl).rounds[r])
  {
    RoundsStep(w, e, ttl);
    if r in w.rounds {
      if !e.Begin? && e.round == r {
        OwnSees(w, e, ttl, r);
      } else {
        if HeldBy(Next(w, e, ttl), me) && !HeldBy(w, me) {
          RowStep(w, e, me, ttl);
        }
        OthersSee(w, e, ttl, r);
      }
    }
  }

  /** A final read finds the lease unexpired under the instance's own name for the first time. */
  predicate FirstLead(w: World, e: Event, me: string) {
    && e.Step? && e.round in w.rounds && w.rounds[e.round].me == me
    && w.rounds[e.round].phase.Seen? && w.rounds[e.round].phase.current.Some?
    && w.rounds[e.round].phase.current.value.holder == me
    && w.rounds[e.round].phase.current.value.expiresAt > w.rounds[e.round].now
    && !NodeOf(w.nodes, me).wasLeader
  }

  lemma FiresStep(w: World, e: Event, me: string, lost: set<nat>, ttl: int)
    requires Unpromoted(w, me, lost)
    ensures Fires(w, e, me, ttl) <==> FirstLead(w, e, me) && e.round in lost
  {
  }

  lemma UnpromotedStep(w: World, e: Event, me: string, lost: set<nat>, ttl: int)
    requires Unpromoted(w, me, lost)
    requires e.Begin? && e.me == me ==> Idle(w, me)
    ensures Unpromoted(Next(w, e, ttl), me, lost + LostCreate(w, e))
  {
    var v := Next(w, e, ttl);
    RoundsStep(w, e, ttl);
    OneRoundStep(w, e, me, lost, ttl);
    forall r | r in v.rounds && v.rounds[r].me == me && r !in lost + LostCreate(w, e)
      ensures SeesOthers(v, v.rounds[r])
    {
      SeesStep(w, e, me, lost, ttl, r);
    }
  }

  lemma {:induction false} PromotionsTracked(
    w: World, events: seq<Event>, e: Event, me: string, lost: set<nat>, ttl: int)
    requires Unpromoted(w, me, lost) && Sequential(w, events, me, ttl)
    ensures var v := After(w, events, ttl);
            Fires(v, e, me, ttl) <==> FirstLead(v, e, me) && e.round in LostCreates(w, events, lost, ttl)
    decreases |events|
  {
    if events == [] {
      FiresStep(w, e, me, lost, ttl);
    } else {
      UnpromotedStep(w, events[0], me, lost, ttl);
      PromotionsTracked(Next(w, events[0], ttl), events[1..], e, me, lost + LostCreate(w, events[0]), ttl);
    }
  }

  /**
   * When the promotion handler fires. Whatever the other instances do and whichever calls fail, if the rounds of an
   * instance do not overlap, its handler is called exactly by the end of a round whose create committed but was
   * reported as failed, and whose final read finds the lease unexpired under the instance's own name while it does
   * not remember being leader from an earlier final read.
   */
  lemma PromotedOnlyByLostCreates(w: World, events: seq<Event>, e: Event, me: string, ttl: int)
    requires Idle(w, me) && forall r :: r in w.rounds ==> r < w.next
    requires Sequential(w, events, me, ttl)
    ensures var v := After(w, events, ttl);
            Fires(v, e, me, ttl) <==> FirstLead(v, e, me) && e.round in LostCreates(w, events, {}, ttl)
  {
    PromotionsTracked(w, events, e, me, {}, ttl);
  }

  /** It does happen: a first round whose create commits but is reported as failed promotes. */
  lemma LostCreatePromotes(w: World, me: string, now: int, ttl: int)
    requires w.row.None? && w.next !in w.rounds && ttl > 0 && !NodeOf(w.nodes, me).wasLeader
    ensures var r := w.next;
            var events := [Begin(me, now), Step(r), Step(r), Fail(r), Step(r), Step(r)];
            Fires(After(w, events, ttl), Step(r), me, ttl)
  {
    var r := w.next;
    var w1 := Next(Next(w, Begin(me, now), ttl), Step(r), ttl);
    var w2 := Next(Next(w1, Step(r), ttl), Fail(r), ttl);
    assert w2.rounds[r].phase == CreateFailed && w2.row == Some(Lease(me, now + ttl));
    var w3 := Next(Next(w2, Step(r), ttl), Step(r), ttl);
    assert w3.rounds[r].phase == Seen(Some(Lease(me, now + ttl)));
    assert [Begin(me, now), Step(r), Step(r), Fail(r), Step(r), Step(r)]
        == [Begin(me, now), Step(r)] + ([Step(r), Fail(r)] + ([Step(r), Step(r)] + []));
    AfterTwo(w, Begin(me, now), Step(r), [Step(r), Fail(r)] + ([Step(r), Step(r)] + []), ttl);
    AfterTwo(w1, Step(r), Fail(r), [Step(r), Step(r)] + [], ttl);
    AfterTwo(w2, Step(r), Step(r), [], ttl);
  }

  // ---- what interleaving costs ------------------------------------------------------------

  /**
   * Without atomic rounds exclusivity is lost: two instances that both read an expired lease both update it
   * and both believe they lead.
   */
  lemma TwoLeaders(w: World, a: string, b: string, now: int, ttl: int)
    requires a != b && w.row.Some? && w.row.value.expiresAt <= now
    ensures var r, s := w.next, w.next + 1;
            var w' :=
              After(w, [Begin(a, now), Begin(b, now), Step(r), Step(s), Step(r), Step(s), Step(r), Step(s)], ttl);
            Leads(w', a) && Leads(w', b) && HeldBy(w', b)
  {
    var r, s := w.next, w.next + 1;
    var w1 := Next(Next(w, Begin(a, now), ttl), Begin(b, now), ttl);
    var w2 := Next(Next(w1, Step(r), ttl), Step(s), ttl);
    assert w2.rounds[r].phase == Updating(false) && w2.rounds[s].phase == Updating(false);
    var w3 := Next(Next(w2, Step(r), ttl), Step(s), ttl);
    assert w3.rounds[r].phase == Won(false) && w3.rounds[s].phase == Won(false) && HeldBy(w3, b);
    var both := [Step(r), Step(s)];
    assert [Begin(a, now), Begin(b, now), Step(r), Step(s), Step(r), Step(s), Step(r), Step(s)]
        == [Begin(a, now), Begin(b, now)] + (both + (both + both));
    AfterTwo(w, Begin(a, now), Begin(b, now), both + (both + both), ttl);
    AfterTwo(w1, Step(r), Step(s), both + both, ttl);
    AfterTwo(w2, Step(r), Step(s), both, ttl);
    AfterTwo(w3, Step(r), Step(s), [], ttl);
    assert both + [] == both;
  }

  lemma AfterTwo(w: World, x: Event, y: Event, rest: seq<Event>, ttl: int)
    ensures After(w, [x, y] + rest, ttl) == After(Next(Next(w, x, ttl), y, ttl), rest, ttl)
  {
    assert ([x, y] + rest)[1..] == [y] + rest && ([y] + rest)[1..] == rest;
  }

  /** The world after a whole round of `me`. */
  function AfterRound(w: World, me: string, now: int, ttl: int): World {
    var (row, node) := Round(w.row, NodeOf(w.nodes, me), me, now, ttl);
    w.(row := row, nodes := w.nodes[me := node], next := w.next + 1)
  }

  /** The world when a whole round of `me` has yet to set the fields. */
  function BeforeFields(w: World, me: string, now: int, ttl: int): World {
    var wins := Expired(w.row, now) || w.row.value.holder == me;
    w.(row := if wins then Some(Lease(me, now + ttl)) else w.row,
       rounds := w.rounds[w.next := Pending(me, now, if wins then Won(w.row.None?) else Seen(w.row))],
       next := w.next + 1)
  }

  lemma TwoSteps(w: World, me: string, now: int, ttl: int)
    requires w.next !in w.rounds
    ensures Next(Next(Next(w, Begin(me, now), ttl), Step(w.next), ttl), Step(w.next), ttl)
            == BeforeFields(w, me, now, ttl)
  {
    var w1 := Next(Next(w, Begin(me, now), ttl), Step(w.next), ttl);
    assert w1.rounds == w.rounds[w.next := w1.rounds[w.next]];
  }

  lemma LastStep(w: World, me: string, now: int, ttl: int)
    requires w.next !in w.rounds
    ensures Next(BeforeFields(w, me, now, ttl), Step(w.next), ttl) == AfterRound(w, me, now, ttl)
  {
    assert BeforeFields(w, me, now, ttl).rounds - {w.next} == w.rounds;
  }

  lemma ThreeSteps(w: World, me: string, now: int, ttl: int)
    requires w.next !in w.rounds
    ensures var step := Step(w.next);
            Next(Next(Next(Next(w, Begin(me, now), ttl), step, ttl), step, ttl), step, ttl)
            == AfterRound(w, me, now, ttl)
  {
    TwoSteps(w, me, now, ttl);
    LastStep(w, me, now, ttl);
  }

  /** A round that no other step interrupts does to the row and to its instance what the whole round does. */
  lemma AloneIsWhole(w: World, me: string, now: int, ttl: int)
    requires w.next !in w.rounds
    ensures After(w, [Begin(me, now), Step(w.next), Step(w.next), Step(w.next)], ttl) == AfterRound(w, me, now, ttl)
  {
    var step := Step(w.next);
    assert [Begin(me, now), step, step, step] == [Begin(me, now), step] + ([step, step] + []);
    AfterTwo(w, Begin(me, now), step, [step, step] + [], ttl);
    AfterTwo(Next(Next(w, Begin(me, now), ttl), step, ttl), step, step, [], ttl);
    ThreeSteps(w, me, now, ttl);
  }

  // ---- one round amid others --------------------------------------------------------------

  /**
   * One round in single steps while others change the row twice: behind its first read, and in front of its last
   * one if it gets that far.
   */
  function SteppedAmid(w: World, me: string, now: int, ttl: int, before: Interference, after: Interference): World
    requires w.next !in w.rounds
  {
    var r := w.next;
    var read := Next(Next(w, Begin(me, now), ttl), Step(r), ttl);
    var met := read.(row := before(read.row));
    var tried := if met.rounds[r].phase.Reading? then met else Next(met, Step(r), ttl);
    var settled := if tried.rounds[r].phase.CreateFailed? then Next(tried, Step(r), ttl) else tried;
    if settled.rounds[r].phase.Won? then Next(settled, Step(r), ttl)
    else Next(Next(settled.(row := after(settled.row)), Step(r), ttl), Step(r), ttl)
  }

  lemma AmidMissing(w: World, me: string, now: int, ttl: int, before: Interference, after: Interference)
    requires w.next !in w.rounds && w.row.None?
    ensures var done := SteppedAmid(w, me, now, ttl, before, after);
            (done.row, NodeOf(done.nodes, me))
            == RoundAmid(w.row, NodeOf(w.nodes, me), me, now, ttl, before, after)
  {
  }

  lemma AmidHeld(w: World, me: string, now: int, ttl: int, before: Interference, after: Interference)
    requires w.next !in w.rounds && w.row.Some?
    ensures var done := SteppedAmid(w, me, now, ttl, before, after);
            (done.row, NodeOf(done.nodes, me))
            == RoundAmid(w.row, NodeOf(w.nodes, me), me, now, ttl, before, after)
  {
  }

  /** A round whose write and final read meet the row as others have left it is that round of single steps. */
  lemma AmidIsSteps(w: World, me: string, now: int, ttl: int, before: Interference, after: Interference)
    requires w.next !in w.rounds
    ensures var done := SteppedAmid(w, me, now, ttl, before, after);
            (done.row, NodeOf(done.nodes, me))
            == RoundAmid(w.row, NodeOf(w.nodes, me), me, now, ttl, before, after)
  {
    if w.row.None? {
      AmidMissing(w, me, now, ttl, before, after);
    } else {
      AmidHeld(w, me, now, ttl, before, after);
    }
  }

  // ---- promotions twice -------------------------------------------------------------------

  /** The final read of a round of `me` finds no unexpired lease of its own. */
  predicate Loses(w: World, e: Event, me: string) {
    && e.Step? && e.round in w.rounds && w.rounds[e.round].me == me && w.rounds[e.round].phase.Seen?
    && var p := w.rounds[e.round];
       p.phase.current.None? || p.phase.current.value.holder != me || p.phase.current.value.expiresAt <= p.now
  }

  predicate SomeLoses(w: World, events: seq<Event>, me: string, ttl: int)
    decreases |events|
  {
    events != [] && (Loses(w, events[0], me) || SomeLoses(Next(w, events[0], ttl), events[1..], me, ttl))
  }

  /** An instance whose promotion handler has just been called remembers that it leads. */
  lemma PromotedRemembers(w: World, e: Event, me: string, ttl: int)
    requires NodeOf(Next(w, e, ttl).nodes, me).promotions > NodeOf(w.nodes, me).promotions
    ensures NodeOf(Next(w, e, ttl).nodes, me).wasLeader && Leads(Next(w, e, ttl), me)
    ensures NodeOf(Next(w, e, ttl).nodes, me).promotions == NodeOf(w.nodes, me).promotions + 1
  {
  }

  lemma RemembersUnlessLost(w: World, e: Event, me: string, ttl: int)
    requires NodeOf(w.nodes, me).wasLeader && !Loses(w, e, me)
    ensures NodeOf(Next(w, e, ttl).nodes, me).wasLeader
    ensures NodeOf(Next(w, e, ttl).nodes, me).promotions == NodeOf(w.nodes, me).promotions
  {
  }

  /** Between two calls of an instance's promotion handler some final read of it found that it did not lead. */
  lemma {:induction false} PromotedAgainOnlyAfterLoss(w: World, events: seq<Event>, me: string, ttl: int)
    requires NodeOf(w.nodes, me).wasLeader
    requires NodeOf(After(w, events, ttl).nodes, me).promotions > NodeOf(w.nodes, me).promotions
    ensures SomeLoses(w, events, me, ttl)
    decreases |events|
  {
    if !Loses(w, events[0], me) {
      RemembersUnlessLost(w, events[0], me, ttl);
      PromotedAgainOnlyAfterLoss(Next(w, events[0], ttl), events[1..], me, ttl);
    }
  }

  /** Whoever leads names itself as leader, in every interleaving. */
  ghost predicate LeadersNameThemselves(w: World) {
    forall i :: Leads(w, i) ==> NodeOf(w.nodes, i).leaderId == Some(i)
  }

  lemma StepNames(w: World, e: Event, ttl: int)
    requires LeadersNameThemselves(w)
    ensures LeadersNameThemselves(Next(w, e, ttl))
  {
    forall i | Leads(Next(w, e, ttl), i) ensures NodeOf(Next(w, e, ttl).nodes, i).leaderId == Some(i) {
      assert Leads(w, i) ==> NodeOf(w.nodes, i).leaderId == Some(i);
    }
  }

  lemma {:induction false} LeadersAreKnown(w: World, events: seq<Event>, ttl: int)
    requires LeadersNameThemselves(w)
    ensures LeadersNameThemselves(After(w, events, ttl))
    decreases |events|
  {
    if events != [] {
      StepNames(w, events[0], ttl);
      LeadersAreKnown(Next(w, events[0], ttl), events[1..], ttl);
    }
  }
}
