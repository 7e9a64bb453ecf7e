/**
 Claiming a warm unit.  Any number of claimants interleave: each reserves a unit in
 the backend, activates it through its sidecar, and discards it when activation
 fails.  Writes may land although their caller sees an error.
 */
module Claim {
  import opened Bytes

  type Unit = nat
  type Claimant = nat

  /** Who took a unit's gate, with or without success: a claimant of this protocol, or
      an older peer that does not reserve. */
  datatype Activator = By(c: Claimant) | Peer

  /** A unit: its reservation in the backend, its sidecar's one-shot gate, and whether
      it was discarded. */
  datatype UnitState = UnitState(owner: Option<Claimant>, active: Option<Activator>, discarded: Option<Claimant>)

  /** The pass a claimant is in: over warm units, on a created unit, over warm units
      again. */
  datatype Pass = Warm | Cold | WarmAgain

  /** Why activation failed. */
  datatype Failure = Poisoning | Trouble

  datatype Outcome = Returned(u: Unit) | Poisoned(u: Unit) | Exhausted | Failed

  /** Where a claimant stands in the protocol. */
  datatype Pc =
    | Listing(pass: Pass)
    | Reserving(pass: Pass, rest: seq<Unit>)
    | Posting(pass: Pass, u: Unit, rest: seq<Unit>)
    | Discarding(pass: Pass, u: Unit, rest: seq<Unit>, why: Failure)
    | Creating
    | Done(outcome: Outcome)

  /** What became of a unit a claimant reserved. */
  datatype Fate = Kept | Removed | Stuck | LeftToPeer

  /** A claimant, and the fate of each unit it knows it reserved. */
  datatype Self = Self(pc: Pc, reserved: set<Unit>, fates: map<Unit, Fate>)

  datatype State = State(units: map<Unit, UnitState>, claimants: map<Claimant, Self>)

  const FREE := UnitState(None, None, None)

  // ---- where a claimant goes next -----------------------------------------------------------

  /** After a unit did not work out in a way that lets the pass go on. */
  function NextUnit(pass: Pass, rest: seq<Unit>, cold: bool): (pc: Pc) {
    if pass == Cold then Done(Failed)
    else if rest != [] then Reserving(pass, rest)
    else if pass == Warm && cold then Creating
    else Done(Exhausted)
  }

  /** After losing a unit to someone else. */
  function AfterConflict(pass: Pass, rest: seq<Unit>, cold: bool): (pc: Pc) {
    if pass == Cold then Listing(WarmAgain) else NextUnit(pass, rest, cold)
  }

  function AfterDiscard(pass: Pass, u: Unit, rest: seq<Unit>, why: Failure, cold: bool): (pc: Pc) {
    if why == Poisoning then Done(Poisoned(u)) else NextUnit(pass, rest, cold)
  }

  // ---- steps -------------------------------------------------------------------------------------

  datatype Step =
    | Free(units: seq<Unit>)             // the backend lists units, possibly stale
    | FreeFails
    | ReserveWins
    | ReserveLoses
    | ReserveErrs(landed: bool)          // the write may have landed all the same
    | PostWins
    | PostLoses                          // the sidecar was claimed already, or is closing
    | PostPoisons                        // the sidecar took the claim but its artifacts failed
    | PostErrs(landed: bool)
    | DiscardDone
    | DiscardFails
    | Create(u: Unit)
    | CreateFails

  function Set(s: State, c: Claimant, self: Self): (r: State) { s.(claimants := s.claimants[c := self]) }

  function SetUnit(s: State, u: Unit, us: UnitState): (r: State) { s.(units := s.units[u := us]) }

  /** Claimant c takes a step; cold says that its pool creates units on demand. */
  ghost predicate Takes(s: State, t: State, c: Claimant, cold: bool, step: Step) {
    c in s.claimants
    && var self := s.claimants[c];
    match (step, self.pc)
    case (Free(units), Listing(pass)) =>
      (forall u <- units :: u in s.units) && t == Set(s, c, self.(pc := NextUnit(pass, units, cold)))
    case (FreeFails, Listing(_)) => t == Set(s, c, self.(pc := Done(Failed)))
    case (ReserveWins, Reserving(pass, rest)) =>
      rest != [] && rest[0] in s.units && s.units[rest[0]].owner == None && s.units[rest[0]].discarded == None
      && t == Set(SetUnit(s, rest[0], s.units[rest[0]].(owner := Some(c))), c,
                  self.(pc := Posting(pass, rest[0], rest[1..]), reserved := self.reserved + {rest[0]}))
    case (ReserveLoses, Reserving(pass, rest)) =>
      rest != [] && t == Set(s, c, self.(pc := AfterConflict(pass, rest[1..], cold)))
    case (ReserveErrs(landed), Reserving(pass, rest)) =>
      rest != [] && rest[0] in s.units
      && (landed ==> s.units[rest[0]].owner == None && s.units[rest[0]].discarded == None)
      && t == Set(if landed then SetUnit(s, rest[0], s.units[rest[0]].(owner := Some(c))) else s, c,
                  self.(pc := NextUnit(pass, rest[1..], cold)))
    case (PostWins, Posting(_, u, _)) =>
      u in s.units && s.units[u].active == None
      && t == Set(SetUnit(s, u, s.units[u].(active := Some(By(c)))), c,
                  self.(pc := Done(Returned(u)), fates := self.fates[u := Kept]))
    case (PostLoses, Posting(pass, u, rest)) =>
      t == Set(s, c, self.(pc := AfterConflict(pass, rest, cold), fates := self.fates[u := LeftToPeer]))
    case (PostPoisons, Posting(pass, u, rest)) =>
      u in s.units && s.units[u].active == None
      && t == Set(SetUnit(s, u, s.units[u].(active := Some(By(c)))), c, self.(pc := Discarding(pass, u, rest, Poisoning)))
    case (PostErrs(landed), Posting(pass, u, rest)) =>
      u in s.units && (landed ==> s.units[u].active == None)
      && t == Set(if landed then SetUnit(s, u, s.units[u].(active := Some(By(c)))) else s, c,
                  self.(pc := Discarding(pass, u, rest, Trouble)))
    case (DiscardDone, Discarding(pass, u, rest, why)) =>
      u in s.units
      && t == Set(SetUnit(s, u, s.units[u].(discarded := Some(c))), c,
                  self.(pc := AfterDiscard(pass, u, rest, why, cold), fates := self.fates[u := Removed]))
    case (DiscardFails, Discarding(pass, u, rest, why)) =>
      t == Set(s, c, self.(pc := AfterDiscard(pass, u, rest, why, cold), fates := self.fates[u := Stuck]))
    case (Create(u), Creating) =>
      u !in s.units && t == Set(SetUnit(s, u, FREE), c, self.(pc := Reserving(Cold, [u])))
    case (CreateFails, Creating) => t == Set(s, c, self.(pc := Done(Failed)))
    case _ => false
  }

  /** The environment: a new claimant, a new warm unit, or an older peer's claim. */
  ghost predicate Happens(s: State, t: State) {
    (exists c: Claimant :: c !in s.claimants && t == Set(s, c, Self(Listing(Warm), {}, map[])))
    || (exists u: Unit :: u !in s.units && t == SetUnit(s, u, FREE))
    || (exists u: Unit :: u in s.units && s.units[u].active == None && t == SetUnit(s, u, s.units[u].(active := Some(Peer))))
  }

  ghost predicate Next(s: State, t: State) {
    Happens(s, t) || exists c: Claimant, cold: bool, step: Step :: Takes(s, t, c, cold, step)
  }

  // ---- what every reachable state keeps --------------------------------------------------------

  /** The unit a claimant has reserved and not yet settled. */
  function InHand(pc: Pc): (r: set<Unit>) {
    match pc
    case Posting(_, u, _) => {u}
    case Discarding(_, u, _, _) => {u}
    case _ => {}
  }

  /** A claimant owns what it reserved and has settled all of it but what it has in
      hand; it keeps a unit exactly when it returned it. */
  ghost predicate SelfOk(units: map<Unit, UnitState>, c: Claimant, self: Self) {
    (forall u <- self.reserved :: u in units && units[u].owner == Some(c))
    && self.reserved == self.fates.Keys + InHand(self.pc) && self.fates.Keys !! InHand(self.pc)
    && (forall u <- self.fates :: self.fates[u] == Kept <==> self.pc == Done(Returned(u)))
    && (self.pc.Done? && self.pc.outcome.Returned? ==>
          self.pc.outcome.u in self.fates && units[self.pc.outcome.u].active == Some(By(c)))
    && (self.pc.Done? && self.pc.outcome.Poisoned? ==>
          self.pc.outcome.u in self.fates && units[self.pc.outcome.u].active == Some(By(c))
          && (self.fates[self.pc.outcome.u] == Removed || self.fates[self.pc.outcome.u] == Stuck))
    && (self.pc.Discarding? && self.pc.why == Poisoning ==> self.pc.u in units && units[self.pc.u].active == Some(By(c)))
    && (forall u <- self.reserved :: units[u].discarded == None <==> !(u in self.fates && self.fates[u] == Removed))
  }

  /** Only the claimant that knows it reserved a unit activates or discards it. */
  ghost predicate UnitOk(claimants: map<Claimant, Self>, us: UnitState, u: Unit) {
    (match us.active case Some(By(c)) => c in claimants && u in claimants[c].reserved case _ => true)
    && (us.discarded.Some? ==> us.discarded.value in claimants && u in claimants[us.discarded.value].reserved)
  }

  ghost predicate Inv(s: State) {
    (forall c <- s.claimants :: SelfOk(s.units, c, s.claimants[c])) && (forall u <- s.units :: UnitOk(s.claimants, s.units[u], u))
  }

  const INITIAL := State(map[], map[])

  /** One claimant moves and touches at most one unit, which no other claimant has
      reserved. */
  lemma {:induction false} LocalStep(s: State, t: State, c: Claimant, self: Self, u: Unit, us: UnitState)
    requires Inv(s) && c in s.claimants && u in s.units && t == Set(SetUnit(s, u, us), c, self)
    requires s.claimants[c].reserved <= self.reserved
    requires us != s.units[u] ==> forall d <- s.claimants :: d != c ==> u !in s.claimants[d].reserved
    requires SelfOk(t.units, c, self) && UnitOk(t.claimants, us, u)
    ensures Inv(t)
  {
    hide SelfOk;
    forall d <- t.claimants ensures SelfOk(t.units, d, t.claimants[d]) {
      if d != c { SameFor(s.units, t.units, d, s.claimants[d], u); }
    }
    forall v <- t.units ensures UnitOk(t.claimants, t.units[v], v) {
      if v != u { assert UnitOk(s.claimants, s.units[v], v); }
    }
  }

  /** A claimant does not notice changes to a unit it did not reserve. */
  lemma {:induction false} SameFor(before: map<Unit, UnitState>, after: map<Unit, UnitState>, d: Claimant, self: Self, u: Unit)
    requires SelfOk(before, d, self) && u in before && after.Keys == before.Keys
    requires forall v <- before :: v != u ==> after[v] == before[v]
    requires after[u] == before[u] || u !in self.reserved
    ensures SelfOk(after, d, self)
  {
  }

  lemma {:induction false} OwnerIs(s: State, c: Claimant, u: Unit)
    requires Inv(s) && c in s.claimants && (u in s.claimants[c].reserved || u in InHand(s.claimants[c].pc))
    ensures u in s.claimants[c].reserved && u in s.units && s.units[u].owner == Some(c)
  {
    assert SelfOk(s.units, c, s.claimants[c]);
  }

  /** A reserved unit has no other claimant. */
  lemma {:induction false} Exclusive(s: State, c: Claimant, u: Unit)
    requires Inv(s) && c in s.claimants && (u in s.claimants[c].reserved || u in InHand(s.claimants[c].pc))
    ensures u in s.units && s.units[u].owner == Some(c)
    ensures forall d <- s.claimants :: d != c ==> u !in s.claimants[d].reserved
    ensures s.units[u].active == None || s.units[u].active == Some(By(c)) || s.units[u].active == Some(Peer)
    ensures s.units[u].discarded.Some? ==> s.units[u].discarded == Some(c)
  {
    OwnerIs(s, c, u);
    forall d <- s.claimants ensures d != c ==> u !in s.claimants[d].reserved {
      if u in s.claimants[d].reserved { OwnerIs(s, d, u); }
    }
    hide SelfOk;
    var us := s.units[u];
    assert UnitOk(s.claimants, us, u);
    if us.active.Some? && us.active.value.By? { assert u in s.claimants[us.active.value.c].reserved; }
    if us.discarded.Some? { assert u in s.claimants[us.discarded.value].reserved; }
  }

  lemma {:induction false} Unowned(s: State, u: Unit)
    requires Inv(s) && u in s.units && s.units[u].owner == None
    ensures forall d <- s.claimants :: u !in s.claimants[d].reserved
  {
    forall d <- s.claimants ensures u !in s.claimants[d].reserved { assert SelfOk(s.units, d, s.claimants[d]); }
  }

  lemma {:induction false} SelfStep(s: State, t: State, c: Claimant, self: Self)
    requires Inv(s) && c in s.claimants && t == Set(s, c, self) && s.claimants[c].reserved <= self.reserved
    requires SelfOk(s.units, c, self)
    ensures Inv(t)
  {
    forall d <- t.claimants ensures SelfOk(t.units, d, t.claimants[d]) {
      if d != c { assert SelfOk(s.units, d, s.claimants[d]); }
    }
    forall v <- t.units ensures UnitOk(t.claimants, t.units[v], v) { assert UnitOk(s.claimants, s.units[v], v); }
  }

  /** Moving on without a unit in hand. */
  lemma {:induction false} MovesOn(s: State, t: State, c: Claimant, pc: Pc)
    requires Inv(s) && c in s.claimants && t == Set(s, c, s.claimants[c].(pc := pc))
    requires InHand(s.claimants[c].pc) == InHand(pc) == {} && !s.claimants[c].pc.Done?
    requires pc.Done? ==> pc.outcome.Exhausted? || pc.outcome.Failed?
    ensures Inv(t)
  {
    assert SelfOk(s.units, c, s.claimants[c]);
    SelfStep(s, t, c, s.claimants[c].(pc := pc));
  }

  /** Taking over a free unit, knowingly or not. */
  lemma {:induction false} TakesOver(s: State, t: State, c: Claimant, u: Unit, pc: Pc, known: bool)
    requires Inv(s) && c in s.claimants && InHand(s.claimants[c].pc) == {} && !s.claimants[c].pc.Done?
    requires u in s.units && s.units[u].owner == None && s.units[u].discarded == None
    requires t == Set(SetUnit(s, u, s.units[u].(owner := Some(c))), c,
                      s.claimants[c].(pc := pc, reserved := s.claimants[c].reserved + (if known then {u} else {})))
    requires InHand(pc) == (if known then {u} else {}) && !pc.Discarding? && (pc.Done? ==> pc.outcome.Exhausted? || pc.outcome.Failed?)
    ensures Inv(t)
  {
    hide SelfOk;
    SelfTakesOver(s.units, c, s.claimants[c], u, pc, known);
    Unowned(s, u);
    assert UnitOk(s.claimants, s.units[u], u);
    assert UnitOk(t.claimants, t.units[u], u);
    hide UnitOk, Inv;
    LocalStep(s, t, c, t.claimants[c], u, t.units[u]);
  }

  lemma {:induction false} SelfTakesOver(units: map<Unit, UnitState>, c: Claimant, self: Self, u: Unit, pc: Pc, known: bool)
    requires SelfOk(units, c, self) && InHand(self.pc) == {} && !self.pc.Done?
    requires u in units && units[u].owner == None && units[u].discarded == None
    requires InHand(pc) == (if known then {u} else {}) && !pc.Discarding? && (pc.Done? ==> pc.outcome.Exhausted? || pc.outcome.Failed?)
    ensures SelfOk(units[u := units[u].(owner := Some(c))], c, self.(pc := pc, reserved := self.reserved + (if known then {u} else {})))
  {
  }

  lemma {:induction false} ReserveStep(s: State, t: State, c: Claimant, cold: bool, step: Step)
    requires Inv(s) && Takes(s, t, c, cold, step) && (step.ReserveWins? || step.ReserveErrs?)
    ensures Inv(t)
  {
    hide Inv;
    if step == ReserveErrs(false) {
      MovesOn(s, t, c, t.claimants[c].pc);
    } else {
      var reserved := s.claimants[c].reserved;
      assert reserved + {} == reserved;
      TakesOver(s, t, c, s.claimants[c].pc.rest[0], t.claimants[c].pc, step.ReserveWins?);
    }
  }

  /** Settling the unit in hand. */
  lemma {:induction false} Settles(s: State, t: State, c: Claimant, u: Unit, us: UnitState, fate: Fate, pc: Pc)
    requires Inv(s) && c in s.claimants && InHand(s.claimants[c].pc) == {u} && u in s.units
    requires t == Set(SetUnit(s, u, us), c, s.claimants[c].(pc := pc, fates := s.claimants[c].fates[u := fate]))
    requires InHand(pc) == {} && us.owner == s.units[u].owner
    requires fate == Kept <==> pc == Done(Returned(u))
    requires pc.Done? && pc.outcome.Returned? ==> pc.outcome.u == u && us.active == Some(By(c))
    requires pc.Done? && pc.outcome.Poisoned? ==> pc.outcome.u == u && us.active == Some(By(c)) && (fate == Removed || fate == Stuck)
    requires us.active == s.units[u].active || us.active == Some(By(c))
    requires if fate == Removed then us.discarded == Some(c) else us.discarded == s.units[u].discarded
    ensures Inv(t)
  {
    hide SelfOk;
    var self := s.claimants[c];
    OwnerIs(s, c, u);
    Exclusive(s, c, u);
    SelfSettles(s.units, c, self, u, us, fate, pc);
    assert UnitOk(s.claimants, s.units[u], u);
    assert UnitOk(t.claimants, us, u);
    hide UnitOk, Inv;
    LocalStep(s, t, c, t.claimants[c], u, us);
  }

  lemma {:induction false} SelfSettles(units: map<Unit, UnitState>, c: Claimant, self: Self, u: Unit, us: UnitState, fate: Fate, pc: Pc)
    requires SelfOk(units, c, self) && InHand(self.pc) == {u} && u in units && InHand(pc) == {} && us.owner == units[u].owner
    requires fate == Kept <==> pc == Done(Returned(u))
    requires pc.Done? && pc.outcome.Returned? ==> pc.outcome.u == u && us.active == Some(By(c))
    requires pc.Done? && pc.outcome.Poisoned? ==> pc.outcome.u == u && us.active == Some(By(c)) && (fate == Removed || fate == Stuck)
    requires if fate == Removed then us.discarded == Some(c) else us.discarded == units[u].discarded
    ensures SelfOk(units[u := us], c, self.(pc := pc, fates := self.fates[u := fate]))
  {
    assert self.fates[u := fate].Keys == self.fates.Keys + {u};
    assert u in InHand(self.pc);
  }

  /** Activation failed: the unit stays in hand, activated or not. */
  lemma {:induction false} StaysInHand(s: State, t: State, c: Claimant, u: Unit, landed: bool, pc: Pc)
    requires Inv(s) && c in s.claimants && InHand(s.claimants[c].pc) == {u} == InHand(pc) && u in s.units
    requires !pc.Done? && s.claimants[c].pc.Posting? && (pc.Discarding? && pc.why == Poisoning ==> landed)
    requires t == Set(if landed then SetUnit(s, u, s.units[u].(active := Some(By(c)))) else s, c, s.claimants[c].(pc := pc))
    ensures Inv(t)
  {
    hide SelfOk;
    OwnerIs(s, c, u);
    Exclusive(s, c, u);
    assert SetUnit(s, u, s.units[u]) == s;
    SelfStays(s.units, c, s.claimants[c], u, t.units[u], pc);
    assert UnitOk(s.claimants, s.units[u], u);
    assert UnitOk(t.claimants, t.units[u], u);
    hide UnitOk, Inv;
    LocalStep(s, t, c, t.claimants[c], u, t.units[u]);
  }

  lemma {:induction false} SelfStays(units: map<Unit, UnitState>, c: Claimant, self: Self, u: Unit, us: UnitState, pc: Pc)
    requires SelfOk(units, c, self) && u in units && {u} == InHand(self.pc) == InHand(pc) && !self.pc.Done? && !pc.Done?
    requires pc.Discarding? && pc.why == Poisoning ==> us.active == Some(By(c))
    requires us.owner == units[u].owner && us.discarded == units[u].discarded
    ensures SelfOk(units[u := us], c, self.(pc := pc))
  {
  }

  lemma {:induction false} PostStep(s: State, t: State, c: Claimant, cold: bool, step: Step)
    requires Inv(s) && Takes(s, t, c, cold, step) && (step.PostWins? || step.PostLoses? || step.PostPoisons? || step.PostErrs?)
    ensures Inv(t)
  {
    hide Inv;
    var u := s.claimants[c].pc.u;
    OwnerIs(s, c, u);
    assert SetUnit(s, u, s.units[u]) == s;
    if step.PostWins? {
      Settles(s, t, c, u, t.units[u], Kept, Done(Returned(u)));
    } else if step.PostLoses? {
      Settles(s, t, c, u, s.units[u], LeftToPeer, t.claimants[c].pc);
    } else {
      StaysInHand(s, t, c, u, step == PostErrs(true) || step.PostPoisons?, t.claimants[c].pc);
    }
  }

  /** Who poisoned a unit took its gate. */
  lemma {:induction false} PoisonIsOwn(s: State, c: Claimant)
    requires Inv(s) && c in s.claimants
    ensures var pc := s.claimants[c].pc;
      pc.Discarding? && pc.why == Poisoning ==> pc.u in s.units && s.units[pc.u].active == Some(By(c))
  {
    assert SelfOk(s.units, c, s.claimants[c]);
  }

  lemma {:induction false} DiscardStep(s: State, t: State, c: Claimant, cold: bool, step: Step)
    requires Inv(s) && Takes(s, t, c, cold, step) && (step.DiscardDone? || step.DiscardFails?)
    ensures Inv(t)
  {
    hide Inv;
    var u := s.claimants[c].pc.u;
    OwnerIs(s, c, u);
    assert SetUnit(s, u, s.units[u]) == s;
    PoisonIsOwn(s, c);
    Settles(s, t, c, u, t.units[u], if step.DiscardDone? then Removed else Stuck, t.claimants[c].pc);
  }

  lemma {:induction false} TakesKeeps(s: State, t: State, c: Claimant, cold: bool, step: Step)
    requires Inv(s) && Takes(s, t, c, cold, step)
    ensures Inv(t)
  {
    hide Inv;
    if step.ReserveWins? || step.ReserveErrs? {
      ReserveStep(s, t, c, cold, step);
    } else if step.PostWins? || step.PostLoses? || step.PostPoisons? || step.PostErrs? {
      PostStep(s, t, c, cold, step);
    } else if step.DiscardDone? || step.DiscardFails? {
      DiscardStep(s, t, c, cold, step);
    } else if step.Create? {
      NewUnit(s, step.u);
      MovesOn(SetUnit(s, step.u, FREE), t, c, t.claimants[c].pc);
    } else {
      MovesOn(s, t, c, t.claimants[c].pc);
    }
  }

  lemma {:induction false} NewUnit(s: State, u: Unit)
    requires Inv(s) && u !in s.units
    ensures Inv(SetUnit(s, u, FREE))
  {
    var t := SetUnit(s, u, FREE);
    forall d <- t.claimants ensures SelfOk(t.units, d, t.claimants[d]) { assert SelfOk(s.units, d, s.claimants[d]); }
    forall v <- t.units ensures UnitOk(t.claimants, t.units[v], v) {
      if v != u { assert UnitOk(s.claimants, s.units[v], v); }
    }
  }

  lemma {:induction false} Joins(s: State, t: State, c: Claimant)
    requires Inv(s) && c !in s.claimants && t == Set(s, c, Self(Listing(Warm), {}, map[]))
    ensures Inv(t)
  {
    forall d <- t.claimants ensures SelfOk(t.units, d, t.claimants[d]) {
      if d != c { assert SelfOk(s.units, d, s.claimants[d]); }
    }
    forall v <- t.units ensures UnitOk(t.claimants, t.units[v], v) { assert UnitOk(s.claimants, s.units[v], v); }
  }

  lemma {:induction false} HappensKeeps(s: State, t: State)
    requires Inv(s) && Happens(s, t)
    ensures Inv(t)
  {
    hide Inv;
    if u: Unit :| u !in s.units && t == SetUnit(s, u, FREE) {
      NewUnit(s, u);
    } else if c: Claimant :| c !in s.claimants && t == Set(s, c, Self(Listing(Warm), {}, map[])) {
      Joins(s, t, c);
    } else {
      var u: Unit :| u in s.units && s.units[u].active == None && t == SetUnit(s, u, s.units[u].(active := Some(Peer)));
      PeerActivates(s, t, u);
    }
  }

  lemma {:induction false} PeerActivates(s: State, t: State, u: Unit)
    requires Inv(s) && u in s.units && s.units[u].active == None && t == SetUnit(s, u, s.units[u].(active := Some(Peer)))
    ensures Inv(t)
  {
    forall d <- t.claimants ensures SelfOk(t.units, d, t.claimants[d]) {
      var self := s.claimants[d];
      assert SelfOk(s.units, d, self);
      assert self.pc.Done? && self.pc.outcome.Returned? ==> self.pc.outcome.u != u;
    }
    forall v <- t.units ensures UnitOk(t.claimants, t.units[v], v) { assert UnitOk(s.claimants, s.units[v], v); }
  }

  lemma {:induction false} NextKeeps(s: State, t: State)
    requires Inv(s) && Next(s, t)
    ensures Inv(t)
  {
    hide Inv, Takes, Happens;
    if Happens(s, t) {
      HappensKeeps(s, t);
    } else {
      var c, cold, step :| Takes(s, t, c, cold, step);
      TakesKeeps(s, t, c, cold, step);
    }
  }

  // ---- over whole runs --------------------------------------------------------------------------

  ghost predicate Linked(run: seq<State>, i: nat)
    requires i + 1 < |run|
  {
    Next(run[i], run[i + 1])
  }

  ghost predicate Run(run: seq<State>) {
    |run| > 0 && run[0] == INITIAL && forall i :: 0 <= i < |run| - 1 ==> Linked(run, i)
  }

  lemma {:induction false} RunKeeps(run: seq<State>, i: nat)
    requires Run(run) && i < |run|
    ensures Inv(run[i])
    decreases i
  {
    hide Next;
    if i > 0 {
      RunKeeps(run, i - 1);
      assert Linked(run, i - 1);
      NextKeeps(run[i - 1], run[i]);
    }
  }

  /** The gate is taken at most once: that is never undone and never passes on. */
  lemma {:induction false} ActiveStays(s: State, t: State, u: Unit)
    requires Next(s, t) && u in s.units
    ensures u in t.units && (s.units[u].active.Some? ==> t.units[u].active == s.units[u].active)
  {
  }

  lemma {:induction false} ActivatedOnce(run: seq<State>, i: nat, j: nat, u: Unit)
    requires Run(run) && i <= j < |run| && u in run[i].units && run[i].units[u].active.Some?
    ensures u in run[j].units && run[j].units[u].active == run[i].units[u].active
    decreases j
  {
    hide Next;
    if i < j {
      ActivatedOnce(run, i, j - 1, u);
      assert Linked(run, j - 1);
      ActiveStays(run[j - 1], run[j], u);
    }
  }

  /** A unit that a claim returned was reserved and activated by that claimant, is not
      discarded, and was returned to nobody else. */
  lemma {:induction false} ReturnedIsOwn(run: seq<State>, i: nat, c: Claimant, u: Unit)
    requires Run(run) && i < |run| && c in run[i].claimants && run[i].claimants[c].pc == Done(Returned(u))
    ensures u in run[i].claimants[c].reserved && u in run[i].units && run[i].units[u] == UnitState(Some(c), Some(By(c)), None)
    ensures forall d <- run[i].claimants :: d != c ==> run[i].claimants[d].pc != Done(Returned(u))
  {
    var s := run[i];
    RunKeeps(run, i);
    assert SelfOk(s.units, c, s.claimants[c]);
    forall d <- s.claimants ensures d != c ==> s.claimants[d].pc != Done(Returned(u)) {
      assert SelfOk(s.units, d, s.claimants[d]);
    }
  }

  /** A claim that reports a poisoned unit took that unit's gate, and nobody else ever
      gets the unit: it is discarded, or reported as undiscardable. */
  lemma {:induction false} PoisonedIsOwn(run: seq<State>, i: nat, c: Claimant, u: Unit)
    requires Run(run) && i < |run| && c in run[i].claimants && run[i].claimants[c].pc == Done(Poisoned(u))
    ensures u in run[i].units && run[i].units[u].owner == Some(c) && run[i].units[u].active == Some(By(c))
    ensures u in run[i].claimants[c].fates && (run[i].claimants[c].fates[u] == Removed || run[i].claimants[c].fates[u] == Stuck)
    ensures forall d <- run[i].claimants :: run[i].claimants[d].pc != Done(Returned(u))
  {
    var s := run[i];
    RunKeeps(run, i);
    assert SelfOk(s.units, c, s.claimants[c]);
    forall d <- s.claimants ensures s.claimants[d].pc != Done(Returned(u)) {
      assert SelfOk(s.units, d, s.claimants[d]);
    }
  }

  /** No claimant discards a unit that another claimant activated. */
  lemma {:induction false} DiscardsOwn(run: seq<State>, i: nat, t: State, c: Claimant, cold: bool, d: Claimant)
    requires Run(run) && i < |run| && Takes(run[i], t, c, cold, DiscardDone) && d != c
    ensures var u := run[i].claimants[c].pc.u; u in run[i].units && run[i].units[u].active != Some(By(d))
  {
    RunKeeps(run, i);
    hide Inv;
    Exclusive(run[i], c, run[i].claimants[c].pc.u);
  }

  /** A finished claim has settled every unit it reserved, one way each, and kept one
      exactly when it returned it. */
  lemma {:induction false} FinishedIsSettled(run: seq<State>, i: nat, c: Claimant)
    requires Run(run) && i < |run| && c in run[i].claimants && run[i].claimants[c].pc.Done?
    ensures var self := run[i].claimants[c]; self.fates.Keys == self.reserved
    ensures var self := run[i].claimants[c]; forall u <- self.reserved :: self.fates[u] == Kept <==> self.pc.outcome == Returned(u)
    ensures var self := run[i].claimants[c];
      forall u <- self.reserved :: self.fates[u] == Removed <==> u in run[i].units && run[i].units[u].discarded == Some(c)
  {
    var s := run[i];
    RunKeeps(run, i);
    assert SelfOk(s.units, c, s.claimants[c]);
    forall u <- s.claimants[c].reserved ensures s.units[u].discarded.Some? ==> s.units[u].discarded == Some(c) {
      Exclusive(s, c, u);
    }
  }

  lemma {:induction false} TakesFate(s: State, t: State, d: Claimant, cold: bool, step: Step, c: Claimant, u: Unit)
    requires Takes(s, t, d, cold, step) && c in s.claimants && u in s.claimants[c].fates && u !in InHand(s.claimants[c].pc)
    ensures c in t.claimants && u in t.claimants[c].fates && t.claimants[c].fates[u] == s.claimants[c].fates[u]
  {
  }

  /** A settled unit stays settled the same way. */
  lemma {:induction false} FateStays(s: State, t: State, c: Claimant, u: Unit)
    requires Inv(s) && Next(s, t) && c in s.claimants && u in s.claimants[c].fates
    ensures c in t.claimants && u in t.claimants[c].fates && t.claimants[c].fates[u] == s.claimants[c].fates[u]
  {
    hide Takes, Happens, Inv;
    NotInHand(s, c, u);
    if Happens(s, t) {
      HappensFate(s, t, c);
    } else {
      var d, cold, step :| Takes(s, t, d, cold, step);
      TakesFate(s, t, d, cold, step, c, u);
    }
  }

  lemma {:induction false} NotInHand(s: State, c: Claimant, u: Unit)
    requires Inv(s) && c in s.claimants && u in s.claimants[c].fates
    ensures u !in InHand(s.claimants[c].pc)
  {
    assert SelfOk(s.units, c, s.claimants[c]);
  }

  lemma {:induction false} HappensFate(s: State, t: State, c: Claimant)
    requires Happens(s, t) && c in s.claimants
    ensures c in t.claimants && t.claimants[c] == s.claimants[c]
  {
  }

  // ---- a claim ends --------------------------------------------------------------------------------

  function Stage(pc: Pc): (n: nat) {
    match pc
    case Done(_) => 0
    case Creating => 4
    case Listing(pass) => (match pass case Warm => 6 case Cold => 3 case WarmAgain => 2)
    case _ => (match pc.pass case Warm => 5 case Cold => 3 case WarmAgain => 1)
  }

  function Left(pc: Pc): (n: nat) {
    match pc
    case Reserving(_, rest) => 3 * |rest|
    case Posting(_, _, rest) => 3 * |rest| + 2
    case Discarding(_, _, rest, _) => 3 * |rest| + 1
    case _ => 0
  }

  /** Every step of a claimant brings its claim closer to the end, whatever the backend
      and the sidecars answer. */
  lemma {:induction false} Progress(s: State, t: State, c: Claimant, cold: bool, step: Step)
    requires Takes(s, t, c, cold, step) && s.claimants[c].pc != Listing(Cold)
    ensures var a, b := s.claimants[c].pc, t.claimants[c].pc;
      b != Listing(Cold) && (Stage(b) < Stage(a) || (Stage(b) == Stage(a) && Left(b) < Left(a)))
  {
  }

  // ---- a claim does not give up early ----------------------------------------------------------

  /** How trying a unit ended when it did not get the claim its unit. */
  datatype Miss = LostRace | ReserveFailed | TakenByPeer | Discarded | NotDiscarded

  datatype Attempt = Attempt(u: Unit, miss: Miss)

  /** What a claimant has done: what its last listing gave, the attempts since then on
      what is listed, the unit it created, and what became of that one. */
  datatype Log = Log(listed: Option<seq<Unit>>, tried: seq<Attempt>, made: Option<Unit>, lost: Option<Miss>)

  const NOTHING := Log(None, [], None, None)

  function Noted(log: Log, pass: Pass, u: Unit, miss: Miss): (r: Log) {
    if pass == Cold then log.(lost := Some(miss)) else log.(tried := log.tried + [Attempt(u, miss)])
  }

  /** The log after a step taken at pc. */
  function Logged(log: Log, pc: Pc, step: Step): (r: Log) {
    match (step, pc)
    case (Free(units), _) => log.(listed := Some(units), tried := [])
    case (Create(u), _) => log.(made := Some(u))
    case (ReserveLoses, Reserving(pass, rest)) => if rest == [] then log else Noted(log, pass, rest[0], LostRace)
    case (ReserveErrs(_), Reserving(pass, rest)) => if rest == [] then log else Noted(log, pass, rest[0], ReserveFailed)
    case (PostLoses, Posting(pass, u, _)) => Noted(log, pass, u, TakenByPeer)
    case (DiscardDone, Discarding(pass, u, _, _)) => Noted(log, pass, u, Discarded)
    case (DiscardFails, Discarding(pass, u, _, _)) => Noted(log, pass, u, NotDiscarded)
    case _ => log
  }

  /** A step of a run: a claimant's, or the environment's. */
  datatype Label = Moves(c: Claimant, step: Step) | Outside

  ghost predicate StepAt(run: seq<State>, labels: seq<Label>, cold: Claimant -> bool, i: nat)
    requires |run| == |labels| + 1 && i < |labels|
  {
    match labels[i]
    case Moves(c, step) => Takes(run[i], run[i + 1], c, cold(c), step)
    case Outside => Happens(run[i], run[i + 1])
  }

  /** The run takes these steps; cold says whose pools create units on demand. */
  ghost predicate RunBy(run: seq<State>, labels: seq<Label>, cold: Claimant -> bool) {
    |run| == |labels| + 1 && run[0] == INITIAL && forall i :: 0 <= i < |labels| ==> StepAt(run, labels, cold, i)
  }

  /** What claimant c has done in the first i steps of the run. */
  function LogOf(run: seq<State>, labels: seq<Label>, c: Claimant, i: nat): (log: Log)
    requires i <= |labels| && |run| == |labels| + 1
    decreases i
  {
    if i == 0 then NOTHING
    else
      var before := LogOf(run, labels, c, i - 1);
      if labels[i - 1].Moves? && labels[i - 1].c == c && c in run[i - 1].claimants
      then Logged(before, run[i - 1].claimants[c].pc, labels[i - 1].step) else before
  }

  function UnitsOf(tried: seq<Attempt>): (r: seq<Unit>) { seq(|tried|, k requires 0 <= k < |tried| => tried[k].u) }

  /** Everything listed is tried, or still ahead. */
  predicate Covers(log: Log, ahead: seq<Unit>) { log.listed == Some(UnitsOf(log.tried) + ahead) }

  /** Someone else had the unit the claimant created. */
  predicate LostMade(log: Log) { log.made.Some? && (log.lost == Some(LostRace) || log.lost == Some(TakenByPeer)) }

  predicate InPass(pass: Pass, ahead: seq<Unit>, log: Log, cold: bool) {
    match pass
    case Warm => log.made == None && log.lost == None && Covers(log, ahead)
    case WarmAgain => cold && LostMade(log) && Covers(log, ahead)
    case Cold => cold && log.lost == None && Covers(log, []) && |ahead| == 1 && log.made == Some(ahead[0])
  }

  predicate OnTrack(pc: Pc, log: Log, cold: bool) {
    match pc
    case Listing(pass) => (pass == Warm && log == NOTHING) || (pass == WarmAgain && cold && LostMade(log))
    case Reserving(pass, rest) => InPass(pass, rest, log, cold)
    case Posting(pass, u, rest) => InPass(pass, [u] + rest, log, cold)
    case Discarding(pass, u, rest, _) => InPass(pass, [u] + rest, log, cold)
    case Creating => cold && log.made == None && log.lost == None && Covers(log, [])
    case Done(outcome) =>
      outcome == Exhausted ==> Covers(log, []) && (if cold then LostMade(log) else log.made == None)
  }

  lemma {:induction false} CoversNext(log: Log, ahead: seq<Unit>, miss: Miss)
    requires Covers(log, ahead) && ahead != []
    ensures Covers(log.(tried := log.tried + [Attempt(ahead[0], miss)]), ahead[1..])
  {
    assert UnitsOf(log.tried + [Attempt(ahead[0], miss)]) == UnitsOf(log.tried) + [ahead[0]];
    assert UnitsOf(log.tried) + ahead == UnitsOf(log.tried) + [ahead[0]] + ahead[1..];
  }

  /** Having tried the next unit, a pass has the others ahead of it. */
  lemma {:induction false} PassGoesOn(log: Log, pass: Pass, ahead: seq<Unit>, miss: Miss, cold: bool)
    requires InPass(pass, ahead, log, cold) && ahead != []
    ensures var after := Noted(log, pass, ahead[0], miss);
      OnTrack(NextUnit(pass, ahead[1..], cold), after, cold)
      && (miss == LostRace || miss == TakenByPeer ==> OnTrack(AfterConflict(pass, ahead[1..], cold), after, cold))
  {
    if pass != Cold { CoversNext(log, ahead, miss); }
  }

  lemma {:induction false} StaysOnTrack(s: State, t: State, c: Claimant, cold: bool, step: Step, log: Log)
    requires Takes(s, t, c, cold, step) && OnTrack(s.claimants[c].pc, log, cold)
    ensures OnTrack(t.claimants[c].pc, Logged(log, s.claimants[c].pc, step), cold)
  {
    match s.claimants[c].pc
    case Reserving(pass, rest) =>
      if rest != [] {
        assert rest == [rest[0]] + rest[1..];
        PassGoesOn(log, pass, rest, LostRace, cold);
        PassGoesOn(log, pass, rest, ReserveFailed, cold);
      }
    case Posting(pass, u, rest) =>
      assert ([u] + rest)[1..] == rest;
      PassGoesOn(log, pass, [u] + rest, TakenByPeer, cold);
    case Discarding(pass, u, rest, _) =>
      assert ([u] + rest)[1..] == rest;
      PassGoesOn(log, pass, [u] + rest, Discarded, cold);
      PassGoesOn(log, pass, [u] + rest, NotDiscarded, cold);
    case Listing(_) => if step.Free? { assert UnitsOf([]) + step.units == step.units; }
    case _ =>
  }

  /** What an attempt says of a unit is what became of it. */
  predicate FateIs(fates: map<Unit, Fate>, u: Unit, miss: Miss) {
    match miss
    case TakenByPeer => u in fates && fates[u] == LeftToPeer
    case Discarded => u in fates && fates[u] == Removed
    case NotDiscarded => u in fates && fates[u] == Stuck
    case _ => true
  }

  predicate FatesAre(fates: map<Unit, Fate>, log: Log) {
    (forall a <- log.tried :: FateIs(fates, a.u, a.miss))
    && (log.made.Some? && log.lost.Some? ==> FateIs(fates, log.made.value, log.lost.value))
  }

  lemma {:induction false} NotedFates(before: map<Unit, Fate>, after: map<Unit, Fate>, log: Log, pass: Pass, u: Unit, miss: Miss)
    requires FatesAre(before, log) && forall v <- before :: v in after && after[v] == before[v]
    requires FateIs(after, u, miss) && (pass == Cold ==> log.made == Some(u))
    ensures FatesAre(after, Noted(log, pass, u, miss))
  {
  }

  lemma {:induction false} LoggedFates(s: State, t: State, c: Claimant, cold: bool, step: Step, log: Log)
    requires Inv(s) && Takes(s, t, c, cold, step)
    requires OnTrack(s.claimants[c].pc, log, cold) && FatesAre(s.claimants[c].fates, log)
    ensures FatesAre(t.claimants[c].fates, Logged(log, s.claimants[c].pc, step))
  {
    hide Covers, Inv;
    var before, after := s.claimants[c].fates, t.claimants[c].fates;
    forall v <- before ensures v in after && after[v] == before[v] {
      NotInHand(s, c, v);
      TakesFate(s, t, c, cold, step, c, v);
    }
    match s.claimants[c].pc
    case Reserving(pass, rest) =>
      if step.ReserveLoses? || step.ReserveErrs? {
        NotedFates(before, after, log, pass, rest[0], if step.ReserveLoses? then LostRace else ReserveFailed);
      }
    case Posting(pass, u, rest) => if step.PostLoses? { NotedFates(before, after, log, pass, u, TakenByPeer); }
    case Discarding(pass, u, rest, _) =>
      NotedFates(before, after, log, pass, u, if step.DiscardDone? then Discarded else NotDiscarded);
    case _ =>
  }

  /** At every point of a run every claimant is on track. */
  lemma {:induction false} RunOnTrack(run: seq<State>, labels: seq<Label>, cold: Claimant -> bool, c: Claimant, i: nat)
    requires RunBy(run, labels, cold) && i <= |labels|
    ensures Inv(run[i])
    ensures c !in run[i].claimants ==> LogOf(run, labels, c, i) == NOTHING
    ensures c in run[i].claimants ==> OnTrack(run[i].claimants[c].pc, LogOf(run, labels, c, i), cold(c))
    ensures c in run[i].claimants ==> FatesAre(run[i].claimants[c].fates, LogOf(run, labels, c, i))
    decreases i
  {
    if i > 0 {
      hide Inv, OnTrack, FatesAre, Takes, Happens;
      RunOnTrack(run, labels, cold, c, i - 1);
      var s, t, log := run[i - 1], run[i], LogOf(run, labels, c, i - 1);
      assert StepAt(run, labels, cold, i - 1);
      match labels[i - 1]
      case Moves(d, step) =>
        TakesKeeps(s, t, d, cold(d), step);
        if d == c {
          MoverIsThere(s, t, c, cold(c), step);
          StaysOnTrack(s, t, c, cold(c), step, log);
          LoggedFates(s, t, c, cold(c), step, log);
        } else {
          OthersStay(s, t, d, cold(d), step, c);
        }
      case Outside =>
        HappensKeeps(s, t);
        if c in s.claimants { HappensFate(s, t, c); } else { StartsOut(s, t, c, cold(c)); }
    }
  }

  lemma {:induction false} MoverIsThere(s: State, t: State, c: Claimant, cold: bool, step: Step)
    requires Takes(s, t, c, cold, step)
    ensures c in s.claimants && c in t.claimants
  {
  }

  lemma {:induction false} OthersStay(s: State, t: State, d: Claimant, cold: bool, step: Step, c: Claimant)
    requires Takes(s, t, d, cold, step) && d != c
    ensures (c in t.claimants <==> c in s.claimants) && (c in s.claimants ==> t.claimants[c] == s.claimants[c])
  {
  }

  lemma {:induction false} StartsOut(s: State, t: State, c: Claimant, cold: bool)
    requires Happens(s, t) && c !in s.claimants
    ensures c in t.claimants ==> OnTrack(t.claimants[c].pc, NOTHING, cold) && FatesAre(t.claimants[c].fates, NOTHING)
  {
  }

  /** A claim that reports exhaustion has tried, in order, every unit its last listing
      gave, and each attempt ended in the unit's own fate.  With a cold policy it also
      created a unit and lost that one to someone else; otherwise it created none. */
  lemma {:induction false} ExhaustedTriedAll(run: seq<State>, labels: seq<Label>, cold: Claimant -> bool, c: Claimant, i: nat)
    requires RunBy(run, labels, cold) && i <= |labels|
    requires c in run[i].claimants && run[i].claimants[c].pc == Done(Exhausted)
    ensures var log := LogOf(run, labels, c, i);
      log.listed == Some(UnitsOf(log.tried)) && forall a <- log.tried :: FateIs(run[i].claimants[c].fates, a.u, a.miss)
    ensures var log := LogOf(run, labels, c, i);
      if cold(c) then log.made.Some? && (log.lost == Some(LostRace) || log.lost == Some(TakenByPeer)) else log.made == None
    ensures Run(run)
  {
    RunOnTrack(run, labels, cold, c, i);
    var tried := UnitsOf(LogOf(run, labels, c, i).tried);
    assert tried + [] == tried;
    forall k | 0 <= k < |run| - 1 ensures Linked(run, k) { assert StepAt(run, labels, cold, k); }
  }
}
