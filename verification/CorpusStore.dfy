/** Publishing content-addressed corpora: any number of publishers, one lock, and a crash at any moment. */
module CorpusStore {
  import opened Results
  import opened Json
  import opened StateTree

  const MATERIALIZER := "materializer.json"

  datatype Node = Directory | File(content: Bytes) | Symlink | Special

  type Files = map<string, Node>

  datatype Recorded = Recorded(size: nat, hash: string)

  type Inventory = map<string, Recorded>

  // ---------------------------------------------------------------- one tree

  /** The tree binds the expected materializer document. */
  predicate SidecarMatches(codec: Codec, files: Files, expected: Json) {
    MATERIALIZER in files && files[MATERIALIZER].File? && codec.parse(files[MATERIALIZER].content) == Some(expected)
  }

  /** Only directories and regular files, the sidecar among them. */
  predicate SafeTree(files: Files) {
    && (forall path :: path in files ==> files[path].Directory? || files[path].File?)
    && MATERIALIZER in files && files[MATERIALIZER].File?
  }

  function Record(codec: Codec, content: Bytes): Recorded {
    Recorded(|content|, codec.hash(content))
  }

  function InventoryOf(codec: Codec, files: Files): Option<Inventory> {
    if !SafeTree(files) then None
    else Some(map path | path in files && files[path].File? :: Record(codec, files[path].content))
  }

  /** Walk a tree in the given order of its paths and record every regular file. */
  method TreeInventory(codec: Codec, files: Files, paths: seq<string>) returns (inventory: Option<Inventory>)
    requires forall path :: path in paths <==> path in files
    ensures inventory == InventoryOf(codec, files)
  {
    var entries: Inventory := map[];
    for i := 0 to |paths|
      invariant forall path :: path in paths[..i] ==> files[path].Directory? || files[path].File?
      invariant entries == map path | path in files && path in paths[..i] && files[path].File? ::
                              Record(codec, files[path].content)
    {
      var path := paths[i];
      assert path in paths;
      if files[path].Symlink? || files[path].Special? {
        return None;
      }
      assert paths[..i + 1] == paths[..i] + [path];
      if files[path].File? {
        entries := entries[path := Record(codec, files[path].content)];
      }
    }
    assert paths[..|paths|] == paths;
    assert entries == map path | path in files && files[path].File? :: Record(codec, files[path].content);
    if MATERIALIZER !in entries {
      return None;
    }
    return Some(entries);
  }

  /** A tree as it must be: nothing but directories and regular files, and the expected document as its sidecar. */
  ghost predicate Sound(codec: Codec, files: Files, expected: Json) {
    && (forall path :: path in files ==> files[path].Directory? || files[path].File?)
    && "materializer.json" in files && files["materializer.json"].File?
    && codec.parse(files["materializer.json"].content) == Some(expected)
  }

  ghost predicate RegularAt(files: Files, path: string) {
    path in files && files[path].File?
  }

  /** The same regular files, each of the same size and hash. */
  ghost predicate SameRegular(codec: Codec, a: Files, b: Files) {
    && (forall path :: RegularAt(a, path) <==> RegularAt(b, path))
    && forall path :: RegularAt(a, path) ==>
         |a[path].content| == |b[path].content| && codec.hash(a[path].content) == codec.hash(b[path].content)
  }

  lemma SoundMeans(codec: Codec, files: Files, expected: Json)
    ensures Sound(codec, files, expected) <==> SidecarMatches(codec, files, expected) && InventoryOf(codec, files).Some?
  {
  }

  lemma InventoriesMatch(codec: Codec, a: Files, b: Files)
    requires InventoryOf(codec, a).Some? && InventoryOf(codec, b).Some?
    ensures InventoryOf(codec, a) == InventoryOf(codec, b) <==> SameRegular(codec, a, b)
  {
    var x, y := InventoryOf(codec, a).value, InventoryOf(codec, b).value;
    forall path
      ensures path in x <==> RegularAt(a, path)
      ensures path in y <==> RegularAt(b, path)
    {
    }
    if x == y {
      forall path | RegularAt(a, path) ensures RegularAt(b, path) && x[path] == y[path] {
      }
    }
    if SameRegular(codec, a, b) {
      assert x == y;
    }
  }

  /** Trees with one inventory whose contents do not collide hold the same regular files. */
  lemma SameInventorySameContent(codec: Codec, a: Files, b: Files, path: string)
    requires InventoryOf(codec, a).Some? && InventoryOf(codec, a) == InventoryOf(codec, b)
    requires RegularAt(a, path) && RegularAt(b, path) && codec.hash(a[path].content) == codec.hash(b[path].content) ==>
               a[path].content == b[path].content
    ensures RegularAt(a, path) <==> RegularAt(b, path)
    ensures RegularAt(a, path) ==> a[path] == b[path]
  {
    hide InventoryOf;
    InventoriesMatch(codec, a, b);
  }

  // ---------------------------------------------------------------- the store

  /** A directory tree that carries the identity of the publisher that staged it. */
  datatype Tree = Tree(owner: Option<nat>, files: Files, readOnly: set<string>, sealed: bool)

  datatype Entry = Held(tree: Tree) | NotADirectory

  datatype Place = Staging(publisher: nat) | Destination(identity: string) | Stale(time: nat, name: string)

  datatype Outcome = Published | Reused

  /** Where a publisher is in its run; the phases from `Locked` to `Sealing` hold the lock. */
  datatype Phase =
    | Ready
    | Checked(inventory: Inventory)
    | Locked(inventory: Inventory)
    | Vacant(inventory: Inventory)
    | Matched(inventory: Inventory)
    | Sealing
    | Returned(outcome: Outcome)
    | Raised
    | Crashed
  {
    predicate Critical() {
      Locked? || Vacant? || Matched? || Sealing?
    }

    predicate Over() {
      Returned? || Raised? || Crashed?
    }

    /** The publisher has not moved its tree. */
    predicate Waiting() {
      Ready? || Checked? || Locked? || Vacant? || Matched?
    }
  }

  datatype State = State(places: map<Place, Entry>, lock: Option<nat>, phases: map<nat, Phase>)

  datatype Publisher = Publisher(name: string, destination: string, expected: Json)

  /** Who publishes, and the tree each of them staged privately. */
  datatype World = World(codec: Codec, publishers: map<nat, Publisher>, staged: map<nat, Files>)

  /** One step of one publisher. */
  datatype Move = Check | Acquire | Look | Publish | Preserve(time: nat) | Seal(path: string) | Finish | Crash

  function Turn(s: State, p: nat, phase: Phase): State {
    s.(phases := s.phases[p := phase])
  }

  /** Leave the locked section, in whatever way. */
  function Leave(s: State, p: nat, phase: Phase): State {
    s.(phases := s.phases[p := phase], lock := if s.lock == Some(p) then None else s.lock)
  }

  function Rename(places: map<Place, Entry>, from: Place, to: Place): map<Place, Entry>
    requires from in places
  {
    (places - {from})[to := places[from]]
  }

  function CheckNext(w: World, s: State, p: nat): State
    requires p in w.publishers
  {
    if Staging(p) !in s.places || s.places[Staging(p)].NotADirectory? then Turn(s, p, Raised)
    else
      var files := s.places[Staging(p)].tree.files;
      var inventory := InventoryOf(w.codec, files);
      if !SidecarMatches(w.codec, files, w.publishers[p].expected) || inventory.None? then Turn(s, p, Raised)
      else Turn(s, p, Checked(inventory.value))
  }

  function LookNext(w: World, s: State, p: nat, inventory: Inventory): State
    requires p in w.publishers
  {
    var destination := Destination(w.publishers[p].destination);
    if destination !in s.places then Turn(s, p, Vacant(inventory))
    else if s.places[destination].NotADirectory? then Leave(s, p, Raised)
    else
      var files := s.places[destination].tree.files;
      if SidecarMatches(w.codec, files, w.publishers[p].expected) && InventoryOf(w.codec, files) == Some(inventory)
      then Turn(s, p, Matched(inventory))
      else Leave(s, p, Raised)
  }

  function PublishNext(w: World, s: State, p: nat): State
    requires p in w.publishers
  {
    var destination := Destination(w.publishers[p].destination);
    if Staging(p) !in s.places || destination in s.places then Leave(s, p, Raised)
    else Turn(s.(places := Rename(s.places, Staging(p), destination)), p, Sealing)
  }

  /** Set a losing tree aside; a name that is already taken makes the rename fail. */
  function PreserveNext(w: World, s: State, p: nat, time: nat): State
    requires p in w.publishers
  {
    var aside := Stale(time, w.publishers[p].name);
    if Staging(p) !in s.places || aside in s.places then Leave(s, p, Raised)
    else Leave(s.(places := Rename(s.places, Staging(p), aside)), p, Returned(Reused))
  }

  function SealNext(w: World, s: State, p: nat, path: string): Option<State>
    requires p in w.publishers
  {
    var destination := Destination(w.publishers[p].destination);
    if destination !in s.places || s.places[destination].NotADirectory? then None
    else if path !in s.places[destination].tree.files then None
    else
      var tree := s.places[destination].tree;
      if tree.files[path].Symlink? then Some(Leave(s, p, Raised))
      else Some(s.(places := s.places[destination := Held(tree.(readOnly := tree.readOnly + {path}))]))
  }

  function FinishNext(w: World, s: State, p: nat): Option<State>
    requires p in w.publishers
  {
    var destination := Destination(w.publishers[p].destination);
    if destination !in s.places || s.places[destination].NotADirectory? then None
    else
      var tree := s.places[destination].tree;
      if !(tree.files.Keys <= tree.readOnly) then None
      else Some(Leave(s.(places := s.places[destination := Held(tree.(sealed := true))]), p, Returned(Published)))
  }

  /** The state after a publisher makes a move, if it can make it. */
  function Next(w: World, s: State, p: nat, move: Move): Option<State>
    requires p in w.publishers && p in s.phases
  {
    var phase := s.phases[p];
    match move
    case Check => if phase.Ready? then Some(CheckNext(w, s, p)) else None
    case Acquire =>
      if phase.Checked? && s.lock == None then Some(Turn(s, p, Locked(phase.inventory)).(lock := Some(p))) else None
    case Look => if phase.Locked? then Some(LookNext(w, s, p, phase.inventory)) else None
    case Publish => if phase.Vacant? then Some(PublishNext(w, s, p)) else None
    case Preserve(time) => if phase.Matched? then Some(PreserveNext(w, s, p, time)) else None
    case Seal(path) => if phase.Sealing? then SealNext(w, s, p, path) else None
    case Finish => if phase.Sealing? then FinishNext(w, s, p) else None
    case Crash => if !phase.Over() then Some(Leave(s, p, Crashed)) else None
  }

  // ---------------------------------------------------------------- single moves

  /** Whoever is over makes no move any more. */
  lemma OverIsFinal(w: World, s: State, p: nat, move: Move)
    requires p in w.publishers && p in s.phases
    requires s.phases[p] == Raised || s.phases[p] == Crashed || s.phases[p].Returned?
    ensures Next(w, s, p, move).None?
  {
    hide CheckNext, LookNext, PublishNext, PreserveNext, SealNext, FinishNext;
  }

  /** Whoever is not over may crash at any moment: the lock it holds is free again and every place is as it was. */
  lemma CrashMeans(w: World, s: State, p: nat)
    requires p in w.publishers && p in s.phases
    requires !(s.phases[p] == Raised || s.phases[p] == Crashed || s.phases[p].Returned?)
    ensures Next(w, s, p, Crash)
            == Some(State(s.places, if s.lock == Some(p) then None else s.lock, s.phases[p := Crashed]))
  {
  }

  /** The lock is taken only when it is free, by one that checked its tree. */
  lemma AcquireMeans(w: World, s: State, p: nat)
    requires p in w.publishers && p in s.phases
    ensures Next(w, s, p, Acquire).Some? <==> s.lock == None && s.phases[p].Checked?
    ensures s.lock == None && s.phases[p].Checked? ==>
              Next(w, s, p, Acquire)
              == Some(State(s.places, Some(p), s.phases[p := Locked(s.phases[p].inventory)]))
  {
  }

  /** Sealing makes one path of the published tree read-only, and raises at a symbolic link. */
  lemma SealMeans(w: World, s: State, p: nat, path: string)
    requires p in w.publishers && p in s.phases && s.phases[p] == Sealing
    requires Destination(w.publishers[p].destination) in s.places
    requires s.places[Destination(w.publishers[p].destination)].Held?
    ensures var destination := Destination(w.publishers[p].destination);
            var tree := s.places[destination].tree;
            Next(w, s, p, Seal(path))
            == if path !in tree.files then None
               else if tree.files[path].Symlink?
               then Some(State(s.places, if s.lock == Some(p) then None else s.lock, s.phases[p := Raised]))
               else Some(s.(places := s.places[destination := Held(tree.(readOnly := tree.readOnly + {path}))]))
  {
  }

  /** A publisher finishes only when every path of the published tree is read-only. */
  lemma FinishMeans(w: World, s: State, p: nat)
    requires p in w.publishers && p in s.phases && s.phases[p] == Sealing
    requires Destination(w.publishers[p].destination) in s.places
    requires s.places[Destination(w.publishers[p].destination)].Held?
    ensures Next(w, s, p, Finish).Some?
            <==> forall path :: path in s.places[Destination(w.publishers[p].destination)].tree.files ==>
                   path in s.places[Destination(w.publishers[p].destination)].tree.readOnly
  {
  }

  ghost predicate Step(w: World, s: State, t: State) {
    exists p, move :: p in w.publishers && p in s.phases && Next(w, s, p, move) == Some(t)
  }

  /** Every publisher is about to start, its tree (if it staged one) in its private place. */
  ghost predicate Initial(w: World, s: State) {
    && s.lock == None && s.phases.Keys == w.publishers.Keys && w.staged.Keys <= w.publishers.Keys
    && (forall p :: p in s.phases ==> s.phases[p] == Ready)
    && (forall p :: p in w.staged ==>
          Staging(p) in s.places && s.places[Staging(p)] == Held(Tree(Some(p), w.staged[p], {}, false)))
    && (forall place :: place in s.places && s.places[place].Held? && s.places[place].tree.owner.Some? ==>
          place.Staging? && place.publisher in w.staged)
    && (forall place :: place in s.places && place.Staging? ==>
          place.publisher in w.staged || s.places[place].NotADirectory?)
  }
}
