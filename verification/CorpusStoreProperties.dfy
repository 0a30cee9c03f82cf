/** What publishing keeps under any interleaving and any crash: nothing published changes or disappears, every
    staged tree has one home, and whoever returns leaves its own inventory published. */
module CorpusStoreProperties {
  import opened Results
  import opened CorpusStore

  // ---------------------------------------------------------------- append only

  /** The same content: only permissions may have tightened. */
  predicate SameContent(a: Entry, b: Entry) {
    || a == b
    || (a.Held? && b.Held? && a.tree.owner == b.tree.owner && a.tree.files == b.tree.files
        && a.tree.readOnly <= b.tree.readOnly && (a.tree.sealed ==> b.tree.sealed))
  }

  /** Outside the private staging places nothing disappears and no content changes. */
  ghost predicate AppendOnly(s: State, t: State) {
    forall place :: place in s.places && !place.Staging? ==>
      place in t.places && SameContent(s.places[place], t.places[place])
  }

  lemma NextAppends(w: World, s: State, p: nat, move: Move)
    requires p in w.publishers && p in s.phases && Next(w, s, p, move).Some?
    ensures AppendOnly(s, Next(w, s, p, move).value)
  {
    hide SidecarMatches, InventoryOf;
  }

  lemma AppendOnlyChains(s: State, t: State, u: State)
    requires AppendOnly(s, t) && AppendOnly(t, u)
    ensures AppendOnly(s, u)
  {
  }

  // ---------------------------------------------------------------- how a step changes the places

  /** A place where a staged tree of `p` may come to rest. */
  predicate RestsAt(w: World, p: nat, place: Place)
    requires p in w.publishers
  {
    || place == Destination(w.publishers[p].destination)
    || (place.Stale? && place.name == w.publishers[p].name)
  }

  ghost predicate Keeps(s: State, t: State) {
    t.places == s.places
  }

  ghost predicate Moves(w: World, s: State, t: State, p: nat, to: Place)
    requires p in w.publishers
  {
    && Staging(p) in s.places && to !in s.places && RestsAt(w, p, to)
    && t.places == Rename(s.places, Staging(p), to)
    && p in s.phases && (s.phases[p].Vacant? || s.phases[p].Matched?) && p in t.phases && !t.phases[p].Waiting()
  }

  ghost predicate Marks(s: State, t: State, place: Place) {
    && place in s.places && !place.Staging? && place in t.places && SameContent(s.places[place], t.places[place])
    && s.places[place].Held? && t.places == s.places[place := t.places[place]]
  }

  /** A step leaves the places alone, moves the publisher's own tree to a free place, or marks a published tree. */
  lemma StepKinds(w: World, s: State, p: nat, move: Move)
    requires p in w.publishers && p in s.phases && Next(w, s, p, move).Some?
    ensures var t := Next(w, s, p, move).value;
            && (forall q :: q != p ==>
                  (q in t.phases <==> q in s.phases) && (q in s.phases ==> t.phases[q] == s.phases[q]))
            && p in t.phases && !s.phases[p].Over() && (t.phases[p].Waiting() ==> s.phases[p].Waiting())
            && (Keeps(s, t) || (exists to :: Moves(w, s, t, p, to)) || (exists place :: Marks(s, t, place)))
  {
    hide SidecarMatches, InventoryOf, SafeTree;
    var t := Next(w, s, p, move).value;
    var destination := Destination(w.publishers[p].destination);
    match move
    case Publish =>
      assert Keeps(s, t) || Moves(w, s, t, p, destination);
    case Preserve(time) =>
      assert Keeps(s, t) || Moves(w, s, t, p, Stale(time, w.publishers[p].name));
    case Seal(path) =>
      assert Keeps(s, t) || Marks(s, t, destination);
    case Finish =>
      assert Marks(s, t, destination);
    case _ =>
  }

  // ---------------------------------------------------------------- every staged tree has one home

  ghost predicate Owns(s: State, place: Place, p: nat) {
    place in s.places && s.places[place].Held? && s.places[place].tree.owner == Some(p)
  }

  /** The tree `p` staged is here, unchanged, and nowhere else. */
  ghost predicate HomeAt(w: World, s: State, p: nat, home: Place)
    requires p in w.staged && p in w.publishers
  {
    && Owns(s, home, p) && s.places[home].tree.files == w.staged[p]
    && (home == Staging(p) || RestsAt(w, p, home))
    && forall place :: Owns(s, place, p) ==> place == home
  }

  /** Every staged tree has exactly one home: staging, its destination, or set aside under its name. */
  ghost predicate OneHomeEach(w: World, s: State) {
    forall p :: p in w.staged && p in w.publishers ==> exists home :: HomeAt(w, s, p, home)
  }

  /** Private places hold nothing but what their publisher staged; until it moves its tree, the publisher finds it
      there. */
  ghost predicate StagingPrivate(w: World, s: State) {
    && (forall p :: Staging(p) in s.places ==>
          s.places[Staging(p)].NotADirectory? || (p in w.staged && Owns(s, Staging(p), p)))
    && (forall p :: p in w.staged && p in s.phases && s.phases[p].Waiting() ==> Owns(s, Staging(p), p))
  }

  lemma MoveKeepsHome(w: World, s: State, t: State, p: nat, to: Place, q: nat)
    requires p in w.publishers && q in w.publishers && q in w.staged && p in w.staged
    requires StagingPrivate(w, s) && Moves(w, s, t, p, to)
    requires exists home :: HomeAt(w, s, q, home)
    ensures exists home :: HomeAt(w, t, q, home)
  {
    assert Owns(s, Staging(p), p);
    var home :| HomeAt(w, s, q, home);
    var next := if q == p then to else home;
    forall place | Owns(t, place, q)
      ensures place == next
    {
      if place != to { assert Owns(s, place, q); }
    }
    assert HomeAt(w, t, q, next);
  }

  lemma MarkKeepsHome(w: World, s: State, t: State, place: Place, q: nat)
    requires q in w.publishers && q in w.staged && Marks(s, t, place)
    requires exists home :: HomeAt(w, s, q, home)
    ensures exists home :: HomeAt(w, t, q, home)
  {
    var home :| HomeAt(w, s, q, home);
    forall other | Owns(t, other, q)
      ensures other == home
    {
      assert Owns(s, other, q);
    }
    assert HomeAt(w, t, q, home);
  }

  lemma KeepKeepsHome(w: World, s: State, t: State, q: nat)
    requires q in w.publishers && q in w.staged && Keeps(s, t)
    requires exists home :: HomeAt(w, s, q, home)
    ensures exists home :: HomeAt(w, t, q, home)
  {
    var home :| HomeAt(w, s, q, home);
    forall other | Owns(t, other, q)
      ensures other == home
    {
      assert Owns(s, other, q);
    }
    assert HomeAt(w, t, q, home);
  }

  /** Publishers past their check have staged a safe tree that carries the expected sidecar. */
  ghost predicate CheckedStaged(w: World, p: nat, phase: Phase)
    requires p in w.publishers
  {
    phase.Checked? || phase.Locked? || phase.Vacant? || phase.Matched? ==>
      && p in w.staged && SidecarMatches(w.codec, w.staged[p], w.publishers[p].expected)
      && InventoryOf(w.codec, w.staged[p]) == Some(phase.inventory)
  }

  lemma StepKeepsHomes(w: World, s: State, p: nat, move: Move)
    requires p in w.publishers && p in s.phases && Next(w, s, p, move).Some?
    requires OneHomeEach(w, s) && StagingPrivate(w, s) && CheckedStaged(w, p, s.phases[p])
    ensures OneHomeEach(w, Next(w, s, p, move).value)
  {
    hide HomeAt, Next, Keeps, Marks, Moves, StagingPrivate;
    var t := Next(w, s, p, move).value;
    StepKinds(w, s, p, move);
    forall q | q in w.staged && q in w.publishers
      ensures exists home :: HomeAt(w, t, q, home)
    {
      if to :| Moves(w, s, t, p, to) {
        MoversChecked(w, s, t, p, to);
        MoveKeepsHome(w, s, t, p, to, q);
      } else if place :| Marks(s, t, place) {
        MarkKeepsHome(w, s, t, place, q);
      } else {
        KeepKeepsHome(w, s, t, q);
      }
    }
  }

  lemma MoversChecked(w: World, s: State, t: State, p: nat, to: Place)
    requires p in w.publishers && Moves(w, s, t, p, to) && CheckedStaged(w, p, s.phases[p])
    ensures p in w.staged
  {
  }

  lemma StepKeepsPrivate(w: World, s: State, p: nat, move: Move)
    requires p in w.publishers && p in s.phases && Next(w, s, p, move).Some?
    requires StagingPrivate(w, s)
    ensures StagingPrivate(w, Next(w, s, p, move).value)
  {
    hide Next;
    var t := Next(w, s, p, move).value;
    StepKinds(w, s, p, move);
    forall q
      ensures Staging(q) in t.places ==>
                Staging(q) in s.places && t.places[Staging(q)] == s.places[Staging(q)]
      ensures q in t.phases && t.phases[q].Waiting() ==>
                q in s.phases && s.phases[q].Waiting()
                && (Staging(q) in s.places ==> Staging(q) in t.places && t.places[Staging(q)] == s.places[Staging(q)])
    {
    }
    forall q | Staging(q) in t.places && t.places[Staging(q)].Held?
      ensures q in w.staged && Owns(t, Staging(q), q)
    {
      assert Owns(s, Staging(q), q);
    }
    forall q | q in w.staged && q in t.phases && t.phases[q].Waiting()
      ensures Owns(t, Staging(q), q)
    {
      assert Owns(s, Staging(q), q);
    }
  }

  // ---------------------------------------------------------------- the lock

  /** Exactly the publisher that holds the lock is between taking and leaving it. */
  ghost predicate LockHeld(s: State) {
    && (forall p :: p in s.phases && s.phases[p].Critical() ==> s.lock == Some(p))
    && (s.lock.Some? ==> s.lock.value in s.phases && s.phases[s.lock.value].Critical())
  }

  lemma StepKeepsLock(w: World, s: State, p: nat, move: Move)
    requires p in w.publishers && p in s.phases && Next(w, s, p, move).Some? && LockHeld(s)
    ensures LockHeld(Next(w, s, p, move).value)
  {
    hide SidecarMatches, InventoryOf, SafeTree;
  }

  // ---------------------------------------------------------------- delivery

  /** The destination holds a tree with the publisher's own inventory and its expected sidecar. */
  ghost predicate Delivered(w: World, s: State, p: nat)
    requires p in w.publishers
  {
    var destination := Destination(w.publishers[p].destination);
    && p in w.staged && destination in s.places && s.places[destination].Held?
    && SidecarMatches(w.codec, s.places[destination].tree.files, w.publishers[p].expected)
    && InventoryOf(w.codec, s.places[destination].tree.files) == InventoryOf(w.codec, w.staged[p])
    && InventoryOf(w.codec, w.staged[p]).Some?
  }

  /** Every path of the published tree, and its root, is read-only. */
  ghost predicate SealedUp(w: World, s: State, p: nat)
    requires p in w.publishers
  {
    var destination := Destination(w.publishers[p].destination);
    && destination in s.places && s.places[destination].Held?
    && s.places[destination].tree.files.Keys <= s.places[destination].tree.readOnly && s.places[destination].tree.sealed
  }

  ghost predicate PhaseHolds(w: World, s: State, p: nat)
    requires p in w.publishers && p in s.phases
  {
    var phase := s.phases[p];
    && CheckedStaged(w, p, phase)
    && (phase.Vacant? ==> Destination(w.publishers[p].destination) !in s.places)
    && (phase.Matched? || phase.Sealing? || phase.Returned? ==> Delivered(w, s, p))
    && (phase == Returned(Published) ==> SealedUp(w, s, p))
  }

  lemma DeliveredStays(w: World, s: State, t: State, p: nat)
    requires p in w.publishers && AppendOnly(s, t)
    ensures Delivered(w, s, p) ==> Delivered(w, t, p)
    ensures SealedUp(w, s, p) ==> SealedUp(w, t, p)
  {
    hide SidecarMatches, InventoryOf;
    var destination := Destination(w.publishers[p].destination);
    assert destination in s.places ==>
        destination in t.places && SameContent(s.places[destination], t.places[destination]);
  }

  /** A step of one publisher keeps what holds of another. */
  lemma StepKeepsOthers(w: World, s: State, p: nat, move: Move, q: nat)
    requires p in w.publishers && p in s.phases && Next(w, s, p, move).Some? && LockHeld(s)
    requires q in w.publishers && q in s.phases && q != p && PhaseHolds(w, s, q)
    ensures var t := Next(w, s, p, move).value; q in t.phases && PhaseHolds(w, t, q)
  {
    hide Delivered, SealedUp, CheckedStaged, AppendOnly;
    var t := Next(w, s, p, move).value;
    NextAppends(w, s, p, move);
    DeliveredStays(w, s, t, q);
    StepKinds(w, s, p, move);
    if s.phases[q].Vacant? { OthersCannotPublish(w, s, p, move, q); }
  }

  /** While one publisher has seen its destination free, no other creates a destination. */
  lemma OthersCannotPublish(w: World, s: State, p: nat, move: Move, q: nat)
    requires p in w.publishers && p in s.phases && Next(w, s, p, move).Some? && LockHeld(s)
    requires q in s.phases && q != p && s.phases[q].Critical()
    ensures forall d :: Destination(d) in Next(w, s, p, move).value.places ==> Destination(d) in s.places
  {
    hide SidecarMatches, InventoryOf, SafeTree;
    assert !s.phases[p].Critical();
  }

  /** What a publisher reads in its private place is what it staged. */
  lemma StagedIsHome(w: World, s: State, p: nat)
    requires p in w.publishers && p in s.phases && OneHomeEach(w, s) && StagingPrivate(w, s)
    requires Staging(p) in s.places && s.places[Staging(p)].Held?
    ensures p in w.staged && s.places[Staging(p)].tree.files == w.staged[p]
  {
    assert Owns(s, Staging(p), p);
    var home :| HomeAt(w, s, p, home);
  }

  lemma CheckHolds(w: World, s: State, p: nat)
    requires p in w.publishers && p in s.phases && OneHomeEach(w, s) && StagingPrivate(w, s) && s.phases[p].Ready?
    ensures PhaseHolds(w, CheckNext(w, s, p), p)
  {
    hide SidecarMatches, InventoryOf, OneHomeEach, StagingPrivate;
    if Staging(p) in s.places && s.places[Staging(p)].Held? { StagedIsHome(w, s, p); }
  }

  lemma PublishHolds(w: World, s: State, p: nat)
    requires p in w.publishers && p in s.phases && OneHomeEach(w, s) && StagingPrivate(w, s) && s.phases[p].Vacant?
    requires PhaseHolds(w, s, p)
    ensures PhaseHolds(w, PublishNext(w, s, p), p) && PublishNext(w, s, p).phases[p] == Sealing
  {
    hide SidecarMatches, InventoryOf, OneHomeEach;
    assert Owns(s, Staging(p), p);
    StagedIsHome(w, s, p);
  }

  /** A step keeps what holds of the publisher that makes it. */
  lemma StepKeepsOwn(w: World, s: State, p: nat, move: Move)
    requires p in w.publishers && p in s.phases && Next(w, s, p, move).Some?
    requires OneHomeEach(w, s) && StagingPrivate(w, s)
    requires PhaseHolds(w, s, p)
    ensures PhaseHolds(w, Next(w, s, p, move).value, p)
  {
    hide SidecarMatches, InventoryOf, SafeTree, OneHomeEach, StagingPrivate, AppendOnly, CheckNext, PublishNext;
    NextAppends(w, s, p, move);
    DeliveredStays(w, s, Next(w, s, p, move).value, p);
    if s.phases[p].Ready? { CheckHolds(w, s, p); }
    if s.phases[p].Vacant? { PublishHolds(w, s, p); }
  }

  // ---------------------------------------------------------------- whole runs

  ghost predicate Invariant(w: World, s: State) {
    && s.phases.Keys == w.publishers.Keys && w.staged.Keys <= w.publishers.Keys
    && OneHomeEach(w, s) && StagingPrivate(w, s) && LockHeld(s)
    && forall p :: p in s.phases ==> PhaseHolds(w, s, p)
  }

  lemma InitialHolds(w: World, s: State)
    requires Initial(w, s)
    ensures Invariant(w, s)
  {
    forall p | p in w.staged && p in w.publishers
      ensures exists home :: HomeAt(w, s, p, home)
    {
      assert HomeAt(w, s, p, Staging(p));
    }
  }

  /** Every step of every publisher keeps the invariant. */
  lemma StepHolds(w: World, s: State, t: State)
    requires Invariant(w, s) && Step(w, s, t)
    ensures Invariant(w, t) && AppendOnly(s, t)
  {
    hide OneHomeEach, StagingPrivate, LockHeld, PhaseHolds, AppendOnly, Next;
    var p, move :| p in w.publishers && p in s.phases && Next(w, s, p, move) == Some(t);
    PhaseChecked(w, s, p);
    StepKinds(w, s, p, move);
    NextAppends(w, s, p, move);
    StepKeepsHomes(w, s, p, move);
    StepKeepsPrivate(w, s, p, move);
    StepKeepsLock(w, s, p, move);
    StepKeepsOwn(w, s, p, move);
    forall q | q in t.phases
      ensures PhaseHolds(w, t, q)
    {
      if q != p { StepKeepsOthers(w, s, p, move, q); }
    }
  }

  lemma PhaseChecked(w: World, s: State, p: nat)
    requires p in w.publishers && p in s.phases && PhaseHolds(w, s, p)
    ensures CheckedStaged(w, p, s.phases[p])
  {
  }

  /** A run: any interleaving of the publishers' steps, crashes included. */
  ghost predicate Run(w: World, states: seq<State>) {
    && states != [] && Initial(w, states[0])
    && forall i, j :: 0 <= i < |states| && j == i + 1 < |states| ==> Step(w, states[i], states[j])
  }

  lemma {:induction false} RunHolds(w: World, states: seq<State>, i: nat)
    requires Run(w, states) && i < |states|
    ensures Invariant(w, states[i])
  {
    hide Initial, Step, Invariant;
    if i == 0 {
      InitialHolds(w, states[0]);
    } else {
      RunHolds(w, states, i - 1);
      StepHolds(w, states[i - 1], states[i]);
    }
  }

  /** Nothing published or set aside ever disappears or changes content. */
  lemma {:induction false} RunAppends(w: World, states: seq<State>, i: nat, j: nat)
    requires Run(w, states) && i <= j < |states|
    ensures AppendOnly(states[i], states[j])
  {
    hide Initial, Step, Invariant;
    if i == j {
    } else {
      RunAppends(w, states, i, j - 1);
      RunHolds(w, states, j - 1);
      StepHolds(w, states[j - 1], states[j]);
      AppendOnlyChains(states[i], states[j - 1], states[j]);
    }
  }

  /** From the moment a publisher returns, its destination holds its own inventory; when it published, read-only. */
  lemma ReturnedStaysDelivered(w: World, states: seq<State>, i: nat, j: nat, p: nat)
    requires Run(w, states) && i <= j < |states| && p in states[i].phases && states[i].phases[p].Returned?
    ensures p in w.publishers && Delivered(w, states[j], p)
    ensures states[i].phases[p].outcome.Published? ==> SealedUp(w, states[j], p)
  {
    hide Run, Delivered, SealedUp, AppendOnly;
    RunHolds(w, states, i);
    assert PhaseHolds(w, states[i], p);
    RunAppends(w, states, i, j);
    DeliveredStays(w, states[i], states[j], p);
  }

  /** At any moment of any run each staged tree lies unchanged in exactly one place of its own. */
  lemma StagedTreeHasOneHome(w: World, states: seq<State>, i: nat, p: nat) returns (home: Place)
    requires Run(w, states) && i < |states| && p in w.staged
    ensures p in w.publishers && HomeAt(w, states[i], p, home)
  {
    hide Run, HomeAt;
    RunHolds(w, states, i);
    home :| HomeAt(w, states[i], p, home);
  }

  /** No two publishers are in the locked section at once, and a crash gives the lock back. */
  lemma LockExcludes(w: World, states: seq<State>, i: nat, p: nat, q: nat)
    requires Run(w, states) && i < |states| && p in states[i].phases && q in states[i].phases
    requires states[i].phases[p].Critical() && states[i].phases[q].Critical()
    ensures p == q && states[i].lock == Some(p)
  {
    hide Run;
    RunHolds(w, states, i);
  }

  /** Having seen its destination free, a publisher's rename succeeds unless it crashes first. */
  lemma FreeDestinationIsPublished(w: World, states: seq<State>, i: nat, p: nat)
    requires Run(w, states) && i < |states| && p in states[i].phases && states[i].phases[p].Vacant?
    ensures p in w.publishers
    ensures var t := Next(w, states[i], p, Publish); t.Some? && t.value.phases[p] == Sealing
  {
    hide Run;
    RunHolds(w, states, i);
    PublishHolds(w, states[i], p);
  }
}
