/** One undisturbed publication, as the program runs it: its every effect is a step of the shared protocol. */
module CorpusPublisher {
  import opened Results
  import opened Json
  import opened CorpusStore

  /** Consecutive states are one step apart. */
  ghost predicate Chain(w: World, states: seq<State>) {
    && states != []
    && forall i, j :: 0 <= i < |states| && j == i + 1 < |states| ==> Step(w, states[i], states[j])
  }

  lemma ChainStep(w: World, states: seq<State>, p: nat, move: Move, t: State)
    requires Chain(w, states) && p in w.publishers
    requires var s := states[|states| - 1]; p in s.phases && Next(w, s, p, move) == Some(t)
    ensures Chain(w, states + [t])
  {
    hide Next;
    var longer := states + [t];
    assert Step(w, states[|states| - 1], t);
    forall i, j | 0 <= i < |longer| && j == i + 1 < |longer|
      ensures Step(w, longer[i], longer[j])
    {
      assert j < |states| ==> longer[i] == states[i] && longer[j] == states[j];
    }
  }

  /** The paths of a tree, each once. */
  method Paths(files: Files) returns (paths: seq<string>)
    ensures forall path :: path in paths <==> path in files
  {
    paths := [];
    var left := files.Keys;
    while left != {}
      invariant left <= files.Keys && forall path :: path in paths <==> path in files.Keys - left
    {
      var path :| path in left;
      paths, left := paths + [path], left - {path};
    }
  }

  method Inventoried(codec: Codec, files: Files) returns (inventory: Option<Inventory>)
    ensures inventory == InventoryOf(codec, files)
  {
    var paths := Paths(files);
    inventory := TreeInventory(codec, files, paths);
  }

  /** The publisher staged a tree as it must be. */
  ghost predicate StagedSoundly(w: World, s: State, p: nat)
    requires p in w.publishers
  {
    && Staging(p) in s.places && s.places[Staging(p)].Held?
    && Sound(w.codec, s.places[Staging(p)].tree.files, w.publishers[p].expected)
  }

  /** A tree as it must be, with the regular files of the staged one, is published already. */
  ghost predicate PublishedAlike(w: World, s: State, p: nat)
    requires p in w.publishers && Staging(p) in s.places && s.places[Staging(p)].Held?
  {
    var destination := Destination(w.publishers[p].destination);
    && destination in s.places && s.places[destination].Held?
    && Sound(w.codec, s.places[destination].tree.files, w.publishers[p].expected)
    && SameRegular(w.codec, s.places[Staging(p)].tree.files, s.places[destination].tree.files)
  }

  /** The tree with every path and the root read-only. */
  ghost function ReadOnly(tree: Tree): Entry {
    Held(tree.(readOnly := tree.readOnly + tree.files.Keys, sealed := true))
  }

  /** The tree with these paths read-only. */
  ghost function MarkedTo(tree: Tree, paths: seq<string>): Tree {
    tree.(readOnly := tree.readOnly + set path | path in paths)
  }

  lemma NothingMarked(places: map<Place, Entry>, place: Place)
    requires place in places && places[place].Held?
    ensures places[place := Held(MarkedTo(places[place].tree, []))] == places
  {
    var tree := places[place].tree;
    assert tree.readOnly + (set path | path in []) == tree.readOnly;
  }

  lemma OneMoreMarked(tree: Tree, paths: seq<string>, path: string)
    ensures MarkedTo(tree, paths + [path])
            == MarkedTo(tree, paths).(readOnly := MarkedTo(tree, paths).readOnly + {path})
  {
    assert (set q | q in paths + [path]) == (set q | q in paths) + {path};
  }

  lemma AllMarked(tree: Tree, paths: seq<string>)
    requires forall path :: path in paths <==> path in tree.files
    ensures Held(MarkedTo(tree, paths).(sealed := true)) == ReadOnly(tree)
  {
    assert (set path | path in paths) == tree.files.Keys;
  }

  lemma AlikeMeans(w: World, s: State, p: nat)
    requires p in w.publishers && Staging(p) in s.places && s.places[Staging(p)].Held?
    requires InventoryOf(w.codec, s.places[Staging(p)].tree.files).Some?
    requires Destination(w.publishers[p].destination) in s.places
    ensures PublishedAlike(w, s, p) <==>
              var existing := s.places[Destination(w.publishers[p].destination)];
              && existing.Held? && SidecarMatches(w.codec, existing.tree.files, w.publishers[p].expected)
              && InventoryOf(w.codec, existing.tree.files) == InventoryOf(w.codec, s.places[Staging(p)].tree.files)
  {
    hide SidecarMatches, InventoryOf, Sound, SameRegular;
    var existing := s.places[Destination(w.publishers[p].destination)];
    if existing.Held? {
      SoundMeans(w.codec, existing.tree.files, w.publishers[p].expected);
      if InventoryOf(w.codec, existing.tree.files).Some? {
        InventoriesMatch(w.codec, s.places[Staging(p)].tree.files, existing.tree.files);
      }
    }
  }

  lemma NothingAlike(w: World, s: State, p: nat)
    requires p in w.publishers && Staging(p) in s.places && s.places[Staging(p)].Held?
    requires Destination(w.publishers[p].destination) !in s.places
    ensures !PublishedAlike(w, s, p)
  {
  }

  class Store {
    const world: World
    var state: State

    constructor (world: World, state: State)
      ensures this.world == world && this.state == state
    {
      this.world, this.state := world, state;
    }

    /** Make a move of the protocol. */
    method Advance(ghost trace: seq<State>, p: nat, ghost move: Move, next: State) returns (ghost longer: seq<State>)
      requires Chain(world, trace) && trace[|trace| - 1] == state && p in world.publishers && p in state.phases
      requires Next(world, state, p, move) == Some(next)
      modifies this`state
      ensures Chain(world, longer) && longer == trace + [next] && state == next
    {
      hide Next;
      ChainStep(world, trace, p, move, next);
      state := next;
      longer := trace + [next];
    }

    /** Make the published tree read-only, path by path and the root last. */
    method MakeReadOnly(ghost before: seq<State>, p: nat) returns (ghost trace: seq<State>)
      requires before != [] && Chain(world, before) && before[|before| - 1] == state
      requires p in world.publishers && p in state.phases
      requires state.phases[p] == Sealing && state.lock == Some(p)
      requires Destination(world.publishers[p].destination) in state.places
      requires var entry := state.places[Destination(world.publishers[p].destination)];
               entry.Held? && SafeTree(entry.tree.files)
      modifies this`state
      ensures Chain(world, trace) && before <= trace && trace[|trace| - 1] == state
      ensures state.phases == old(state).phases[p := Returned(Published)] && state.lock == None
      ensures var destination := Destination(world.publishers[p].destination);
              var tree := old(state).places[destination].tree;
              state.places == old(state).places[destination := ReadOnly(tree)]
    {
      hide Chain;
      var destination := Destination(world.publishers[p].destination);
      var files := state.places[destination].tree.files;
      var paths := Paths(files);
      ghost var original := state.places[destination].tree;
      NothingMarked(state.places, destination);
      trace := before;
      for i := 0 to |paths|
        invariant Chain(world, trace) && before <= trace && trace != [] && trace[|trace| - 1] == state
        invariant p in state.phases && state.phases[p] == Sealing && state.lock == Some(p)
        invariant destination in state.places
        invariant state.phases == old(state).phases
        invariant state.places[destination].Held? && state.places[destination].tree.files == files
        invariant forall path :: path in paths[..i] ==> path in state.places[destination].tree.readOnly
        invariant state.places == old(state).places[destination := Held(MarkedTo(original, paths[..i]))]
      {
        var path := paths[i];
        assert path in paths && paths[..i + 1] == paths[..i] + [path];
        OneMoreMarked(original, paths[..i], path);
        var tree := state.places[destination].tree;
        var next := state.(places := state.places[destination := Held(tree.(readOnly := tree.readOnly + {path}))]);
        trace := Advance(trace, p, Seal(path), next);
      }
      assert paths[..|paths|] == paths;
      AllMarked(original, paths);
      var tree := state.places[destination].tree;
      var sealed := state.(places := state.places[destination := Held(tree.(sealed := true))]);
      var next := Leave(sealed, p, Returned(Published));
      trace := Advance(trace, p, Finish, next);
    }

    /** Something is published already: verify that it is identical and set the staged tree aside. */
    method Compare(ghost before: seq<State>, p: nat, time: nat, staged: Inventory)
      returns (outcome: Option<Outcome>, ghost trace: seq<State>)
      requires Chain(world, before) && before[|before| - 1] == state && p in world.publishers && p in state.phases
      requires state.phases[p] == Locked(staged) && state.lock == Some(p) && Staging(p) in state.places
      requires Destination(world.publishers[p].destination) in state.places
      modifies this`state
      ensures Chain(world, trace) && before <= trace && trace[|trace| - 1] == state
      ensures state.phases == old(state).phases[p := if outcome.Some? then Returned(outcome.value) else Raised]
      ensures state.lock == None && (outcome.Some? ==> outcome == Some(Reused))
      ensures outcome.Some? <==>
                var existing := old(state).places[Destination(world.publishers[p].destination)];
                && existing.Held? && SidecarMatches(world.codec, existing.tree.files, world.publishers[p].expected)
                && InventoryOf(world.codec, existing.tree.files) == Some(staged)
                && Stale(time, world.publishers[p].name) !in old(state).places
      ensures outcome.None? ==> state.places == old(state).places
      ensures outcome.Some? ==>
                state.places == (old(state).places - {Staging(p)})[Stale(time, world.publishers[p].name) :=
                                                                     old(state).places[Staging(p)]]
    {
      hide Chain, SidecarMatches, InventoryOf;
      var destination, expected := Destination(world.publishers[p].destination), world.publishers[p].expected;
      if state.places[destination].NotADirectory? {
        trace := Advance(before, p, Look, Leave(state, p, Raised));
        return None, trace;
      }
      var existing := Inventoried(world.codec, state.places[destination].tree.files);
      if !SidecarMatches(world.codec, state.places[destination].tree.files, expected) || existing != Some(staged) {
        trace := Advance(before, p, Look, Leave(state, p, Raised));
        return None, trace;
      }
      trace := Advance(before, p, Look, Turn(state, p, Matched(staged)));
      var preserved := Stale(time, world.publishers[p].name);
      if preserved in state.places {
        trace := Advance(trace, p, Preserve(time), Leave(state, p, Raised));
        return None, trace;
      }
      trace := Advance(trace, p, Preserve(time),
                       Leave(state.(places := Rename(state.places, Staging(p), preserved)), p, Returned(Reused)));
      outcome := Some(Reused);
    }

    /** Publish once under the lock, or verify an identical existing object. `None` is a raised error. */
    method PublishCorpus(p: nat, time: nat) returns (outcome: Option<Outcome>, ghost trace: seq<State>)
      requires p in world.publishers && p in state.phases && state.phases[p].Ready? && state.lock == None
      modifies this`state
      ensures Chain(world, trace) && trace[0] == old(state) && trace[|trace| - 1] == state
      ensures state.phases == old(state).phases[p := if outcome.Some? then Returned(outcome.value) else Raised]
      ensures state.lock == None
      ensures outcome == Some(Published) <==>
                && StagedSoundly(world, old(state), p)
                && Destination(world.publishers[p].destination) !in old(state).places
      ensures outcome == Some(Reused) <==>
                && StagedSoundly(world, old(state), p) && PublishedAlike(world, old(state), p)
                && Stale(time, world.publishers[p].name) !in old(state).places
      ensures outcome == None ==> state.places == old(state).places
      ensures outcome == Some(Published) ==>
                state.places == (old(state).places - {Staging(p)})[Destination(world.publishers[p].destination) :=
                                                                     ReadOnly(old(state).places[Staging(p)].tree)]
      ensures outcome == Some(Reused) ==>
                state.places == (old(state).places - {Staging(p)})[Stale(time, world.publishers[p].name) :=
                                                                     old(state).places[Staging(p)]]
    {
      hide Chain, SidecarMatches, InventoryOf, Sound, SameRegular, PublishedAlike;
      trace := [state];
      assert Chain(world, trace) by { SingleChain(world, state); }
      var staging, destination := Staging(p), Destination(world.publishers[p].destination);
      var expected := world.publishers[p].expected;
      if staging !in state.places || state.places[staging].NotADirectory? {
        trace := Advance(trace, p, Check, Turn(state, p, Raised));
        return None, trace;
      }
      var staged := Inventoried(world.codec, state.places[staging].tree.files);
      SoundMeans(world.codec, state.places[staging].tree.files, expected);
      if !SidecarMatches(world.codec, state.places[staging].tree.files, expected) || staged.None? {
        trace := Advance(trace, p, Check, Turn(state, p, Raised));
        return None, trace;
      }
      trace := Advance(trace, p, Check, Turn(state, p, Checked(staged.value)));
      trace := Advance(trace, p, Acquire, Turn(state, p, Locked(staged.value)).(lock := Some(p)));
      if destination in state.places {
        AlikeMeans(world, old(state), p);
        assert state.places == old(state).places;
        outcome, trace := Compare(trace, p, time, staged.value);
        return;
      }
      NothingAlike(world, old(state), p);
      trace := Advance(trace, p, Look, Turn(state, p, Vacant(staged.value)));
      InventoriedIsSafe(world.codec, state.places[staging].tree.files);
      trace := Advance(trace, p, Publish,
                       Turn(state.(places := Rename(state.places, staging, destination)), p, Sealing));
      trace := MakeReadOnly(trace, p);
      outcome := Some(Published);
    }
  }

  lemma SingleChain(w: World, s: State)
    ensures Chain(w, [s])
  {
  }

  lemma InventoriedIsSafe(codec: Codec, files: Files)
    requires InventoryOf(codec, files).Some?
    ensures SafeTree(files)
  {
  }
}
