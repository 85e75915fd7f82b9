/** AtomicSharedPtr as a machine of interleaved steps.

    Every access to a shared reference count, every deletion and every write of a handle is a step of its own, and
    the steps of different threads interleave freely. A thread works on handles it owns; a handle can be handed
    to another thread between operations.
 */
module SharedPtr {
  import opened Prelude

  type Thread = nat
  type HandleId = nat
  type StateId = nat

  datatype Handle = Handle(owner: Thread, state: Option<StateId>)

  // A heap-allocated State: its count, and how often it has been deleted.
  datatype Cell = Cell(count: int, deletions: nat)

  // What follows a reset: nothing, the end of the handle, or the second half of an assignment from g.
  datatype Then = Finish | Drop | CopyFrom(g: HandleId) | MoveFrom(g: HandleId)

  datatype Pc =
    | Idle
    | Sub(h: HandleId, next: Then)
    | Delete(h: HandleId, next: Then)
    | Clear(h: HandleId, next: Then)
    | Take(h: HandleId, g: HandleId)
    | TakeOver(h: HandleId, g: HandleId)
    | Add(h: HandleId, g: HandleId)
    | Steal(h: HandleId, g: HandleId)

  datatype Config = Config(handles: map<HandleId, Handle>, cells: seq<Cell>, pcs: seq<Pc>)

  datatype Event =
    | Create(t: Thread, h: HandleId)
    | Make(t: Thread, h: HandleId)
    | CopyConstruct(t: Thread, h: HandleId, g: HandleId)
    | MoveConstruct(t: Thread, h: HandleId, g: HandleId)
    | Reset(t: Thread, h: HandleId)
    | Destroy(t: Thread, h: HandleId)
    | CopyAssign(t: Thread, h: HandleId, g: HandleId)
    | MoveAssign(t: Thread, h: HandleId, g: HandleId)
    | Give(t: Thread, h: HandleId, to: Thread)
    | Advance(t: Thread)

  // ----- steps -----

  predicate Owns(c: Config, t: Thread, h: HandleId) {
    h in c.handles && c.handles[h].owner == t
  }

  // What a caller must respect: new handles are new, and operations use handles of their own thread.
  predicate Enabled(c: Config, e: Event) {
    && e.t < |c.pcs|
    && match e
       case Create(t, h) => c.pcs[t].Idle? && h !in c.handles
       case Make(t, h) => c.pcs[t].Idle? && h !in c.handles
       case CopyConstruct(t, h, g) => c.pcs[t].Idle? && h !in c.handles && Owns(c, t, g)
       case MoveConstruct(t, h, g) => c.pcs[t].Idle? && h !in c.handles && Owns(c, t, g)
       case Reset(t, h) => c.pcs[t].Idle? && Owns(c, t, h)
       case Destroy(t, h) => c.pcs[t].Idle? && Owns(c, t, h)
       case CopyAssign(t, h, g) => c.pcs[t].Idle? && Owns(c, t, h) && Owns(c, t, g)
       case MoveAssign(t, h, g) => c.pcs[t].Idle? && Owns(c, t, h) && Owns(c, t, g)
       case Give(t, h, to) => c.pcs[t].Idle? && Owns(c, t, h) && to < |c.pcs|
       case Advance(t) => !c.pcs[t].Idle?
  }

  function At(c: Config, t: Thread, pc: Pc): Config
    requires t < |c.pcs|
  {
    c.(pcs := c.pcs[t := pc])
  }

  function Put(c: Config, h: HandleId, owner: Thread, state: Option<StateId>): Config {
    c.(handles := c.handles[h := Handle(owner, state)])
  }

  function WithCell(c: Config, s: StateId, cell: Cell): Config
    requires s < |c.cells|
  {
    c.(cells := c.cells[s := cell])
  }

  // The end of reset: h is empty, and the rest of the operation follows.
  function AfterReset(c: Config, t: Thread, h: HandleId, next: Then): Config
    requires t < |c.pcs|
  {
    match next
    case Finish => At(Put(c, h, t, None), t, Idle)
    case Drop => At(c.(handles := c.handles - {h}), t, Idle)
    case CopyFrom(g) => At(Put(c, h, t, None), t, Take(h, g))
    case MoveFrom(g) => At(Put(c, h, t, None), t, TakeOver(h, g))
  }

  // One step of the operation the thread is in.
  function Advanced(c: Config, t: Thread): Config
    requires t < |c.pcs| && PcOk(c, t, c.pcs[t]) && InHeap(c)
  {
    match c.pcs[t]
    case Idle => c
    case Sub(h, next) =>
      (match c.handles[h].state
       case None => AfterReset(c, t, h, next)
       case Some(s) =>
         var cell := c.cells[s];
         At(WithCell(c, s, cell.(count := cell.count - 1)), t,
            if cell.count == 1 then Delete(h, next) else Clear(h, next)))
    case Delete(h, next) =>
      var s := c.handles[h].state.value;
      At(WithCell(c, s, c.cells[s].(deletions := c.cells[s].deletions + 1)), t, Clear(h, next))
    case Clear(h, next) =>
      AfterReset(c, t, h, next)
    case Take(h, g) =>
      At(Put(c, h, t, c.handles[g].state), t, if c.handles[g].state.None? then Idle else Add(h, g))
    case TakeOver(h, g) =>
      At(Put(c, h, t, c.handles[g].state), t, Steal(h, g))
    case Add(h, g) =>
      var s := c.handles[h].state.value;
      At(WithCell(c, s, c.cells[s].(count := c.cells[s].count + 1)), t, Idle)
    case Steal(h, g) =>
      At(Put(c, g, t, None), t, Idle)
  }

  function Step(c: Config, e: Event): Config
    requires Enabled(c, e) && PcOk(c, e.t, c.pcs[e.t]) && InHeap(c)
  {
    match e
    case Create(t, h) => Put(c, h, t, None)
    case Make(t, h) => Put(c.(cells := c.cells + [Cell(1, 0)]), h, t, Some(|c.cells|))
    case CopyConstruct(t, h, g) =>
      At(Put(c, h, t, c.handles[g].state), t, if c.handles[g].state.None? then Idle else Add(h, g))
    case MoveConstruct(t, h, g) => At(Put(c, h, t, c.handles[g].state), t, Steal(h, g))
    case Reset(t, h) => At(c, t, Sub(h, Finish))
    case Destroy(t, h) => At(c, t, Sub(h, Drop))
    case CopyAssign(t, h, g) => if h == g then c else At(c, t, Sub(h, CopyFrom(g)))
    case MoveAssign(t, h, g) => if h == g then c else At(c, t, Sub(h, MoveFrom(g)))
    case Give(t, h, to) => Put(c, h, to, c.handles[h].state)
    case Advance(t) => Advanced(c, t)
  }

  // ----- invariant -----

  predicate InHeap(c: Config) {
    forall h :: h in c.handles ==>
      c.handles[h].owner < |c.pcs| && (c.handles[h].state.Some? ==> c.handles[h].state.value < |c.cells|)
  }

  // The handles of an operation belong to its thread, and hold what the operation's steps rely on.
  predicate PcOk(c: Config, t: Thread, pc: Pc) {
    match pc
    case Idle => true
    case Sub(h, next) => Owns(c, t, h) && ThenOk(c, t, h, next)
    case Delete(h, next) => Owns(c, t, h) && ThenOk(c, t, h, next) && c.handles[h].state.Some?
    case Clear(h, next) => Owns(c, t, h) && ThenOk(c, t, h, next) && c.handles[h].state.Some?
    case Take(h, g) => Owns(c, t, h) && Owns(c, t, g) && h != g && c.handles[h].state.None?
    case TakeOver(h, g) => Owns(c, t, h) && Owns(c, t, g) && h != g && c.handles[h].state.None?
    case Add(h, g) =>
      Owns(c, t, h) && Owns(c, t, g) && h != g && c.handles[h].state == c.handles[g].state && c.handles[h].state.Some?
    case Steal(h, g) => Owns(c, t, h) && Owns(c, t, g) && h != g && c.handles[h].state == c.handles[g].state
  }

  predicate ThenOk(c: Config, t: Thread, h: HandleId, next: Then) {
    match next
    case CopyFrom(g) => Owns(c, t, g) && h != g
    case MoveFrom(g) => Owns(c, t, g) && h != g
    case _ => true
  }

  // The handle whose pointer the operation has stopped counting, or has not begun to count.
  function Uncounted(pc: Pc): Option<HandleId> {
    match pc
    case Delete(h, _) => Some(h)
    case Clear(h, _) => Some(h)
    case Add(h, _) => Some(h)
    case Steal(_, g) => Some(g)
    case _ => None
  }

  predicate Counts(c: Config, h: HandleId, s: StateId) {
    && h in c.handles && c.handles[h].state == Some(s)
    && c.handles[h].owner < |c.pcs| && Uncounted(c.pcs[c.handles[h].owner]) != Some(h)
  }

  ghost function Counted(c: Config, s: StateId): set<HandleId> {
    set h | h in c.handles && Counts(c, h, s)
  }

  predicate Deletes(c: Config, t: Thread, s: StateId) {
    t < |c.pcs| && c.pcs[t].Delete? && c.pcs[t].h in c.handles && c.handles[c.pcs[t].h].state == Some(s)
  }

  ghost function Deleters(c: Config, s: StateId): set<Thread> {
    set t | 0 <= t < |c.pcs| && Deletes(c, t, s)
  }

  // The count is the number of counting handles. At zero the State is deleted, or exactly one thread is about to.
  ghost predicate CellOk(c: Config, s: StateId)
    requires s < |c.cells|
  {
    && c.cells[s].count == |Counted(c, s)|
    && c.cells[s].deletions + |Deleters(c, s)| == if c.cells[s].count == 0 then 1 else 0
  }

  ghost predicate Inv(c: Config) {
    && InHeap(c)
    && (forall t :: 0 <= t < |c.pcs| ==> PcOk(c, t, c.pcs[t]))
    && (forall s :: 0 <= s < |c.cells| ==> CellOk(c, s))
  }

  function Start(threads: nat): (c: Config)
    ensures Inv(c)
  {
    Config(map[], [], seq(threads, i => Idle))
  }

  // ----- how a step moves the counting handles -----

  // How one step changes who counts and who deletes: plus starts to, minus stops to.
  ghost predicate Moves(c: Config, d: Config, s: StateId, plus: set<HandleId>, minus: set<HandleId>) {
    && (forall h :: h in plus ==> !Counts(c, h, s))
    && (forall h :: h in minus ==> Counts(c, h, s) && h !in plus)
    && (forall h :: Counts(d, h, s) <==> h in plus || (Counts(c, h, s) && h !in minus))
  }

  ghost predicate MovesDeleter(c: Config, d: Config, s: StateId, plus: set<Thread>, minus: set<Thread>) {
    && (forall t :: t in plus ==> 0 <= t < |d.pcs| && !Deletes(c, t, s))
    && (forall t :: t in minus ==> 0 <= t && Deletes(c, t, s) && t !in plus)
    && (forall t: nat :: Deletes(d, t, s) <==> t in plus || (Deletes(c, t, s) && t !in minus))
  }

  lemma SetMoves(a: set<nat>, b: set<nat>, plus: set<nat>, minus: set<nat>)
    requires plus !! a && minus <= a && forall x: nat :: x in b <==> x in plus || (x in a && x !in minus)
    ensures |b| == |a| + |plus| - |minus|
  {
    assert b == plus + (a - minus);
  }

  lemma CountedMoves(c: Config, d: Config, s: StateId, plus: set<HandleId>, minus: set<HandleId>)
    requires Moves(c, d, s, plus, minus)
    ensures |Counted(d, s)| == |Counted(c, s)| + |plus| - |minus|
  {
    SetMoves(Counted(c, s), Counted(d, s), plus, minus);
  }

  lemma DeletersMove(c: Config, d: Config, s: StateId, plus: set<Thread>, minus: set<Thread>)
    requires MovesDeleter(c, d, s, plus, minus)
    ensures |Deleters(d, s)| == |Deleters(c, s)| + |plus| - |minus|
  {
    SetMoves(Deleters(c, s), Deleters(d, s), plus, minus);
  }

  // A cell that the step leaves alone stays in order when as many handles start as stop counting.
  lemma SameCell(c: Config, d: Config, s: StateId, plus: set<HandleId>, minus: set<HandleId>)
    requires Moves(c, d, s, plus, minus) && MovesDeleter(c, d, s, {}, {}) && |plus| == |minus|
    requires s < |c.cells| && CellOk(c, s) && s < |d.cells| && d.cells[s] == c.cells[s]
    ensures CellOk(d, s)
  {
    CountedMoves(c, d, s, plus, minus);
    DeletersMove(c, d, s, {}, {});
  }

  // ----- every step keeps the invariant -----

  // A new handle that is empty or not yet counted.
  lemma FreshKeepsCell(c: Config, d: Config, t: Thread, h: HandleId, pc: Pc, state: Option<StateId>, s: StateId)
    requires Inv(c) && t < |c.pcs| && c.pcs[t].Idle? && h !in c.handles && s < |c.cells|
    requires d == At(Put(c, h, t, state), t, pc)
    requires (pc.Idle? && state.None?) || (pc.Add? && pc.h == h)
    ensures CellOk(d, s)
  {
    SameCell(c, d, s, {}, {});
  }

  lemma BeginKeepsCell(c: Config, t: Thread, pc: Pc, s: StateId)
    requires Inv(c) && t < |c.pcs| && c.pcs[t].Idle? && pc.Sub? && s < |c.cells|
    ensures CellOk(At(c, t, pc), s)
  {
    SameCell(c, At(c, t, pc), s, {}, {});
  }

  lemma GiveKeepsCell(c: Config, t: Thread, h: HandleId, to: Thread, s: StateId)
    requires Inv(c) && Enabled(c, Give(t, h, to)) && s < |c.cells|
    ensures CellOk(Step(c, Give(t, h, to)), s)
  {
    assert PcOk(c, to, c.pcs[to]);
    SameCell(c, Step(c, Give(t, h, to)), s, {}, {});
  }

  lemma MakeKeepsCell(c: Config, t: Thread, h: HandleId, s: StateId)
    requires Inv(c) && Enabled(c, Make(t, h)) && s <= |c.cells|
    ensures s < |Step(c, Make(t, h)).cells| && CellOk(Step(c, Make(t, h)), s)
  {
    var d := Step(c, Make(t, h));
    if s < |c.cells| {
      SameCell(c, d, s, {}, {});
    } else {
      assert Counted(d, s) == {h};
      assert Deleters(d, s) == {};
    }
  }

  // h takes g's pointer over, and g is about to lose it.
  ghost predicate TakesOver(c: Config, d: Config, t: Thread, h: HandleId, g: HandleId) {
    && t < |c.pcs| && Owns(c, t, g) && h != g && (c.pcs[t].Idle? || c.pcs[t].TakeOver?)
    && (h !in c.handles || (Owns(c, t, h) && c.handles[h].state.None?))
    && d == At(Put(c, h, t, c.handles[g].state), t, Steal(h, g))
  }

  lemma TakeOverMoves(c: Config, d: Config, t: Thread, h: HandleId, g: HandleId, s: StateId)
    requires Inv(c) && TakesOver(c, d, t, h, g)
    ensures if c.handles[g].state == Some(s) then Moves(c, d, s, {h}, {g}) else Moves(c, d, s, {}, {})
  {
  }

  lemma TakeOverKeepsDeleters(c: Config, d: Config, t: Thread, h: HandleId, g: HandleId, s: StateId)
    requires Inv(c) && TakesOver(c, d, t, h, g)
    ensures MovesDeleter(c, d, s, {}, {})
  {
  }

  // A moved pointer is counted once: in its new place.
  lemma TakeOverKeepsCell(c: Config, d: Config, t: Thread, h: HandleId, g: HandleId, s: StateId)
    requires Inv(c) && s < |c.cells| && TakesOver(c, d, t, h, g)
    ensures CellOk(d, s)
  {
    TakeOverMoves(c, d, t, h, g, s);
    TakeOverKeepsDeleters(c, d, t, h, g, s);
    if c.handles[g].state == Some(s) {
      SameCell(c, d, s, {h}, {g});
    } else {
      SameCell(c, d, s, {}, {});
    }
  }

  // The fetch_sub: h stops counting, and the thread that takes the count to 0 is the one to delete.
  lemma SubMoves(c: Config, t: Thread, s: StateId)
    requires Inv(c) && t < |c.pcs| && c.pcs[t].Sub? && s < |c.cells| && c.handles[c.pcs[t].h].state == Some(s)
    ensures Moves(c, Advanced(c, t), s, {}, {c.pcs[t].h})
  {
  }

  lemma SubMovesDeleter(c: Config, t: Thread, s: StateId)
    requires Inv(c) && t < |c.pcs| && c.pcs[t].Sub? && s < |c.cells| && c.handles[c.pcs[t].h].state == Some(s)
    ensures MovesDeleter(c, Advanced(c, t), s, if c.cells[s].count == 1 then {t} else {}, {})
  {
  }

  lemma SubKeepsCell(c: Config, t: Thread, s: StateId)
    requires Inv(c) && t < |c.pcs| && c.pcs[t].Sub? && s < |c.cells|
    ensures s < |Advanced(c, t).cells| && CellOk(Advanced(c, t), s)
  {
    var d, h := Advanced(c, t), c.pcs[t].h;
    assert CellOk(c, s);
    if c.handles[h].state == Some(s) {
      assert h in Counted(c, s);
      SubMoves(c, t, s);
      SubMovesDeleter(c, t, s);
      CountedMoves(c, d, s, {}, {h});
      DeletersMove(c, d, s, if c.cells[s].count == 1 then {t} else {}, {});
    } else {
      SameCell(c, d, s, {}, {});
    }
  }

  lemma DeleteKeepsCell(c: Config, t: Thread, s: StateId)
    requires Inv(c) && t < |c.pcs| && c.pcs[t].Delete? && s < |c.cells|
    ensures s < |Advanced(c, t).cells| && CellOk(Advanced(c, t), s)
  {
    var d, h := Advanced(c, t), c.pcs[t].h;
    assert CellOk(c, s);
    if c.handles[h].state == Some(s) {
      CountedMoves(c, d, s, {}, {});
      DeletersMove(c, d, s, {}, {t});
    } else {
      SameCell(c, d, s, {}, {});
    }
  }

  lemma AddKeepsCell(c: Config, t: Thread, s: StateId)
    requires Inv(c) && t < |c.pcs| && c.pcs[t].Add? && s < |c.cells|
    ensures s < |Advanced(c, t).cells| && CellOk(Advanced(c, t), s)
  {
    var d, h, g := Advanced(c, t), c.pcs[t].h, c.pcs[t].g;
    assert CellOk(c, s);
    if c.handles[h].state == Some(s) {
      CountedMoves(c, d, s, {h}, {});
      DeletersMove(c, d, s, {}, {});
      assert g in Counted(c, s);
    } else {
      SameCell(c, d, s, {}, {});
    }
  }

  // h no longer counted, and ends up empty or gone.
  lemma EmptyingKeepsCell(c: Config, d: Config, t: Thread, h: HandleId, pc: Pc, s: StateId)
    requires Inv(c) && t < |c.pcs| && s < |c.cells| && Owns(c, t, h)
    requires Uncounted(c.pcs[t]) == if c.handles[h].state.None? then None else Some(h)
    requires !c.pcs[t].Delete? && !pc.Delete? && Uncounted(pc) == None
    requires d.pcs == c.pcs[t := pc] && d.cells == c.cells
    requires h in d.handles ==> d.handles[h] == Handle(t, None)
    requires forall x :: x != h ==>
        (x in d.handles <==> x in c.handles) && (x in c.handles ==> d.handles[x] == c.handles[x])
    ensures CellOk(d, s)
  {
    SameCell(c, d, s, {}, {});
  }

  lemma AfterResetKeepsCell(c: Config, t: Thread, s: StateId)
    requires Inv(c) && t < |c.pcs| && s < |c.cells|
    requires c.pcs[t].Clear? || (c.pcs[t].Sub? && c.handles[c.pcs[t].h].state.None?)
    ensures CellOk(AfterReset(c, t, c.pcs[t].h, c.pcs[t].next), s)
  {
    var d, h := AfterReset(c, t, c.pcs[t].h, c.pcs[t].next), c.pcs[t].h;
    EmptyingKeepsCell(c, d, t, h, d.pcs[t], s);
  }

  lemma TakeKeepsCell(c: Config, t: Thread, s: StateId)
    requires Inv(c) && t < |c.pcs| && s < |c.cells| && c.pcs[t].Take?
    ensures CellOk(Advanced(c, t), s)
  {
    SameCell(c, Advanced(c, t), s, {}, {});
  }

  lemma StealKeepsCell(c: Config, t: Thread, s: StateId)
    requires Inv(c) && t < |c.pcs| && s < |c.cells| && c.pcs[t].Steal?
    ensures CellOk(Advanced(c, t), s)
  {
    SameCell(c, Advanced(c, t), s, {}, {});
  }

  lemma AdvanceKeepsCell(c: Config, t: Thread, s: StateId)
    requires Inv(c) && t < |c.pcs| && !c.pcs[t].Idle? && s < |c.cells|
    ensures s < |Advanced(c, t).cells| && CellOk(Advanced(c, t), s)
  {
    match c.pcs[t]
    case Sub(h, _) => if c.handles[h].state.None? { AfterResetKeepsCell(c, t, s); } else { SubKeepsCell(c, t, s); }
    case Delete(_, _) => DeleteKeepsCell(c, t, s);
    case Clear(_, _) => AfterResetKeepsCell(c, t, s);
    case Take(_, _) => TakeKeepsCell(c, t, s);
    case TakeOver(h, g) => TakeOverKeepsCell(c, Advanced(c, t), t, h, g, s);
    case Add(_, _) => AddKeepsCell(c, t, s);
    case Steal(_, _) => StealKeepsCell(c, t, s);
  }

  lemma StartKeepsCell(c: Config, e: Event, s: StateId)
    requires Inv(c) && Enabled(c, e) && !e.Advance? && s < |Step(c, e).cells|
    ensures CellOk(Step(c, e), s)
  {
    var d := Step(c, e);
    match e
    case Create(t, h) => FreshKeepsCell(c, d, t, h, Idle, None, s);
    case Make(t, h) => MakeKeepsCell(c, t, h, s);
    case CopyConstruct(t, h, g) => FreshKeepsCell(c, d, t, h, d.pcs[t], c.handles[g].state, s);
    case MoveConstruct(t, h, g) => TakeOverKeepsCell(c, d, t, h, g, s);
    case Reset(t, h) => BeginKeepsCell(c, t, Sub(h, Finish), s);
    case Destroy(t, h) => BeginKeepsCell(c, t, Sub(h, Drop), s);
    case CopyAssign(t, h, g) => BeginKeepsCell(c, t, Sub(h, CopyFrom(g)), s);
    case MoveAssign(t, h, g) => BeginKeepsCell(c, t, Sub(h, MoveFrom(g)), s);
    case Give(t, h, to) => GiveKeepsCell(c, t, h, to, s);
  }

  // What a thread relies on stays true while its own handles stay as they are.
  lemma PcOkFrame(c: Config, d: Config, t: Thread, pc: Pc)
    requires PcOk(c, t, pc) && forall h :: Owns(c, t, h) ==> h in d.handles && d.handles[h] == c.handles[h]
    ensures PcOk(d, t, pc)
  {
  }

  // A step changes no handle of another thread.
  lemma AdvanceKeepsHandles(c: Config, t: Thread, u: Thread)
    requires Inv(c) && t < |c.pcs| && u != t
    ensures var d := Advanced(c, t); forall h :: Owns(c, u, h) ==> h in d.handles && d.handles[h] == c.handles[h]
  {
    assert PcOk(c, t, c.pcs[t]);
  }

  lemma StartKeepsHandles(c: Config, e: Event, u: Thread)
    requires Inv(c) && Enabled(c, e) && !e.Advance? && u != e.t
    ensures var d := Step(c, e); forall h :: Owns(c, u, h) ==> h in d.handles && d.handles[h] == c.handles[h]
  {
  }

  lemma StartKeepsPcs(c: Config, e: Event)
    requires Inv(c) && Enabled(c, e) && !e.Advance?
    ensures var d := Step(c, e); InHeap(d) && forall t :: 0 <= t < |d.pcs| ==> PcOk(d, t, d.pcs[t])
  {
    var d := Step(c, e);
    StartKeepsHeap(c, e);
    forall t: nat | t < |d.pcs| ensures PcOk(d, t, d.pcs[t]) {
      assert PcOk(c, t, c.pcs[t]);
      if t == e.t {
        StartKeepsOwnPc(c, e);
      } else {
        StartKeepsHandles(c, e, t);
        PcOkFrame(c, d, t, c.pcs[t]);
      }
    }
  }

  lemma StartKeepsHeap(c: Config, e: Event)
    requires Inv(c) && Enabled(c, e) && !e.Advance?
    ensures InHeap(Step(c, e)) && |Step(c, e).pcs| == |c.pcs|
    ensures forall t :: 0 <= t < |c.pcs| && t != e.t ==> Step(c, e).pcs[t] == c.pcs[t]
  {
  }

  lemma StartKeepsOwnPc(c: Config, e: Event)
    requires Inv(c) && Enabled(c, e) && !e.Advance? && e.t < |Step(c, e).pcs|
    ensures PcOk(Step(c, e), e.t, Step(c, e).pcs[e.t])
  {
  }

  lemma AdvanceKeepsPcs(c: Config, t: Thread)
    requires Inv(c) && t < |c.pcs|
    ensures var d := Advanced(c, t); InHeap(d) && forall u :: 0 <= u < |d.pcs| ==> PcOk(d, u, d.pcs[u])
  {
    var d := Advanced(c, t);
    AdvanceKeepsHeap(c, t);
    forall u: nat | u < |d.pcs| ensures PcOk(d, u, d.pcs[u]) {
      assert PcOk(c, u, c.pcs[u]);
      if u == t {
        AdvanceKeepsOwnPc(c, t);
      } else {
        AdvanceKeepsHandles(c, t, u);
        PcOkFrame(c, d, u, c.pcs[u]);
      }
    }
  }

  lemma AdvanceKeepsHeap(c: Config, t: Thread)
    requires Inv(c) && t < |c.pcs|
    ensures InHeap(Advanced(c, t)) && |Advanced(c, t).pcs| == |c.pcs|
    ensures forall u :: 0 <= u < |c.pcs| && u != t ==> Advanced(c, t).pcs[u] == c.pcs[u]
  {
    assert PcOk(c, t, c.pcs[t]);
  }

  lemma AdvanceKeepsOwnPc(c: Config, t: Thread)
    requires Inv(c) && t < |c.pcs| && t < |Advanced(c, t).pcs|
    ensures PcOk(Advanced(c, t), t, Advanced(c, t).pcs[t])
  {
    match c.pcs[t]
    case Idle =>
    case Sub(h, next) => if c.handles[h].state.None? { AfterResetPcOk(c, t, h, next); }
    case Delete(_, _) =>
    case Clear(h, next) => AfterResetPcOk(c, t, h, next);
    case Take(_, _) =>
    case TakeOver(_, _) =>
    case Add(_, _) =>
    case Steal(_, _) =>
  }

  lemma AfterResetPcOk(c: Config, t: Thread, h: HandleId, next: Then)
    requires t < |c.pcs| && Owns(c, t, h) && ThenOk(c, t, h, next)
    ensures PcOk(AfterReset(c, t, h, next), t, AfterReset(c, t, h, next).pcs[t])
  {
  }

  lemma StepKeepsInv(c: Config, e: Event)
    requires Inv(c) && Enabled(c, e)
    ensures Inv(Step(c, e))
  {
    var d := Step(c, e);
    if e.Advance? { AdvanceKeepsPcs(c, e.t); } else { StartKeepsPcs(c, e); }
    forall s: nat | s < |d.cells| ensures CellOk(d, s) {
      if e.Advance? { AdvanceKeepsCell(c, e.t, s); } else { StartKeepsCell(c, e, s); }
    }
  }

  // ----- every run -----

  ghost predicate IsRun(c: Config, events: seq<Event>)
    requires Inv(c)
    decreases |events|
  {
    events == [] || (Enabled(c, events[0]) && IsRun(Next(c, events[0]), events[1..]))
  }

  ghost function Next(c: Config, e: Event): (d: Config)
    requires Inv(c) && Enabled(c, e)
    ensures Inv(d)
  {
    StepKeepsInv(c, e);
    Step(c, e)
  }

  ghost function Reached(c: Config, events: seq<Event>): (d: Config)
    requires Inv(c) && IsRun(c, events)
    ensures Inv(d)
    decreases |events|
  {
    if events == [] then c else Reached(Next(c, events[0]), events[1..])
  }

  // ----- what an operation does to the handles of its thread -----

  // The handle is the thread's own and holds this pointer.
  predicate Holds(c: Config, t: Thread, h: HandleId, state: Option<StateId>) {
    Owns(c, t, h) && c.handles[h].state == state
  }

  // The thread is in its operation before each event of the run, whatever the other threads do in between.
  ghost predicate Busy(c: Config, events: seq<Event>, t: Thread)
    requires Inv(c) && IsRun(c, events)
    decreases |events|
  {
    events != [] ==> t < |c.pcs| && !c.pcs[t].Idle? && Busy(Next(c, events[0]), events[1..], t)
  }

  // What the thread's operation will have made of a handle when it ends; None: the handle is gone.
  function Outcome(c: Config, t: Thread, x: HandleId): Option<Option<StateId>>
    requires t < |c.pcs| && PcOk(c, t, c.pcs[t])
  {
    var now := if Owns(c, t, x) then Some(c.handles[x].state) else None;
    match c.pcs[t]
    case Idle => now
    case Sub(h, next) => AfterThen(c, t, h, next, x, now)
    case Delete(h, next) => AfterThen(c, t, h, next, x, now)
    case Clear(h, next) => AfterThen(c, t, h, next, x, now)
    case Take(h, g) => if x == h then Some(c.handles[g].state) else now
    case TakeOver(h, g) => if x == h then Some(c.handles[g].state) else if x == g then Some(None) else now
    case Add(h, g) => now
    case Steal(h, g) => if x == g then Some(None) else now
  }

  function AfterThen(c: Config, t: Thread, h: HandleId, next: Then, x: HandleId, now: Option<Option<StateId>>)
    : Option<Option<StateId>>
    requires ThenOk(c, t, h, next)
  {
    match next
    case Finish => if x == h then Some(None) else now
    case Drop => if x == h then None else now
    case CopyFrom(g) => if x == h then Some(c.handles[g].state) else now
    case MoveFrom(g) => if x == h then Some(c.handles[g].state) else if x == g then Some(None) else now
  }

  // The thread's own steps do not change the outcome, and drop a handle only with the last of them.
  lemma AdvanceKeepsOutcome(c: Config, t: Thread, x: HandleId)
    requires Inv(c) && t < |c.pcs| && !c.pcs[t].Idle? && Owns(c, t, x)
    ensures var d := Next(c, Advance(t));
      && t < |d.pcs| && Outcome(d, t, x) == Outcome(c, t, x)
      && (!Owns(d, t, x) ==> d.pcs[t].Idle? && x !in d.handles)
  {
    AdvanceKeepsHeap(c, t);
    assert PcOk(c, t, c.pcs[t]);
  }

  // Nor do the steps of the other threads.
  lemma OthersKeepOutcome(c: Config, e: Event, t: Thread, x: HandleId)
    requires Inv(c) && Enabled(c, e) && e.t != t && t < |c.pcs| && Owns(c, t, x)
    ensures var d := Next(c, e);
      t < |d.pcs| && Owns(d, t, x) && d.pcs[t] == c.pcs[t] && Outcome(d, t, x) == Outcome(c, t, x)
  {
    if e.Advance? {
      AdvanceKeepsHeap(c, e.t);
      AdvanceKeepsHandles(c, e.t, t);
    } else {
      StartKeepsHeap(c, e);
      StartKeepsHandles(c, e, t);
    }
    assert PcOk(c, t, c.pcs[t]);
  }

  lemma {:induction false} RunKeepsOutcome(c: Config, events: seq<Event>, t: Thread, x: HandleId)
    requires Inv(c) && t < |c.pcs| && IsRun(c, events) && Busy(c, events, t) && Owns(c, t, x)
    ensures var d := Reached(c, events);
      t < |d.pcs| && Outcome(d, t, x) == Outcome(c, t, x) && (!Owns(d, t, x) ==> x !in d.handles)
    decreases |events|
  {
    if events == [] {
    } else {
      var m := Next(c, events[0]);
      if events[0].t == t { AdvanceKeepsOutcome(c, t, x); } else { OthersKeepOutcome(c, events[0], t, x); }
      if Owns(m, t, x) {
        RunKeepsOutcome(m, events[1..], t, x);
      } else {
        assert events[1..] == [];
      }
    }
  }

  // What a finished operation has done, by the handles of its thread before it (c) and after it (d).
  ghost predicate Done(c: Config, d: Config, e: Event)
    requires Enabled(c, e)
  {
    match e
    case Create(t, h) => Holds(d, t, h, None)
    case Make(t, h) => Holds(d, t, h, Some(|c.cells|))
    case CopyConstruct(t, h, g) => Holds(d, t, h, c.handles[g].state) && Holds(d, t, g, c.handles[g].state)
    case MoveConstruct(t, h, g) => Holds(d, t, h, c.handles[g].state) && Holds(d, t, g, None)
    case Reset(t, h) => Holds(d, t, h, None)
    case Destroy(t, h) => h !in d.handles
    case CopyAssign(t, h, g) =>
      if h == g then d == c else Holds(d, t, h, c.handles[g].state) && Holds(d, t, g, c.handles[g].state)
    case MoveAssign(t, h, g) =>
      if h == g then d == c else Holds(d, t, h, c.handles[g].state) && Holds(d, t, g, None)
    case Give(t, h, to) => Holds(d, to, h, c.handles[h].state)
    case Advance(t) => true
  }

  ghost predicate Names(e: Event, x: HandleId) {
    match e
    case CopyConstruct(_, h, g) => x == h || x == g
    case MoveConstruct(_, h, g) => x == h || x == g
    case CopyAssign(_, h, g) => x == h || x == g
    case MoveAssign(_, h, g) => x == h || x == g
    case Advance(_) => false
    case _ => x == e.h
  }

  /** However the steps of other threads interleave with an operation, when it ends its target holds the State that
      the source held at its start, a copied source keeps it and a moved one is empty, a handle that is reset is
      empty and a destroyed one gone, and no other handle of the thread has changed. */
  lemma OperationDone(c: Config, e: Event, events: seq<Event>)
    requires Inv(c) && Enabled(c, e) && !e.Advance? && IsRun(Next(c, e), events) && Busy(Next(c, e), events, e.t)
    requires var d := Reached(Next(c, e), events); e.t < |d.pcs| && d.pcs[e.t].Idle?
    ensures var d := Reached(Next(c, e), events);
      Done(c, d, e) && forall x :: Owns(c, e.t, x) && !Names(e, x) ==> Holds(d, e.t, x, c.handles[x].state)
  {
    var t, m := e.t, Next(c, e);
    var d := Reached(m, events);
    StartKeepsHeap(c, e);
    forall x | Owns(m, t, x)
      ensures Outcome(d, t, x) == Outcome(m, t, x) && (!Owns(d, t, x) ==> x !in d.handles)
    {
      RunKeepsOutcome(m, events, t, x);
    }
  }

  // ----- how long an operation takes -----

  function StepsLeft(pc: Pc): nat {
    match pc
    case Idle => 0
    case Sub(_, next) => 3 + StepsAfter(next)
    case Delete(_, next) => 2 + StepsAfter(next)
    case Clear(_, next) => 1 + StepsAfter(next)
    case Take(_, _) => 2
    case TakeOver(_, _) => 2
    case _ => 1
  }

  function StepsAfter(next: Then): nat {
    if next.CopyFrom? || next.MoveFrom? then 2 else 0
  }

  // An operation ends after at most five steps of its own, whatever the others do: no thread waits for another.
  lemma AdvanceShortens(c: Config, t: Thread)
    requires Inv(c) && t < |c.pcs| && !c.pcs[t].Idle?
    ensures var d := Next(c, Advance(t)); t < |d.pcs| && StepsLeft(d.pcs[t]) < StepsLeft(c.pcs[t]) <= 5
  {
    AdvanceKeepsHeap(c, t);
  }

  // The State that the thread's next step reads, writes or deletes.
  function Touched(c: Config, t: Thread): Option<StateId>
    requires t < |c.pcs| && PcOk(c, t, c.pcs[t])
  {
    match c.pcs[t]
    case Sub(h, _) => c.handles[h].state
    case Delete(h, _) => c.handles[h].state
    case Add(h, _) => c.handles[h].state
    case _ => None
  }

  // No step touches a deleted State, and none is deleted twice.
  lemma StepsTouchLiveStates(c: Config, t: Thread)
    requires Inv(c) && t < |c.pcs| && Touched(c, t).Some?
    ensures Touched(c, t).value < |c.cells| && c.cells[Touched(c, t).value].deletions == 0
  {
    var s := Touched(c, t).value;
    assert CellOk(c, s);
    match c.pcs[t]
    case Sub(h, _) => assert h in Counted(c, s);
    case Delete(_, _) => assert t in Deleters(c, s);
    case Add(_, g) => assert g in Counted(c, s);
  }

  // A handle of a thread between operations points to a State that is not deleted and that it keeps alive.
  lemma HandlesPointToLiveStates(c: Config, h: HandleId)
    requires Inv(c) && h in c.handles && c.handles[h].state.Some? && c.pcs[c.handles[h].owner].Idle?
    ensures var s := c.handles[h].state.value; s < |c.cells| && c.cells[s].deletions == 0 && c.cells[s].count >= 1
  {
    var s := c.handles[h].state.value;
    assert CellOk(c, s) && h in Counted(c, s);
  }

  ghost predicate Quiet(c: Config) {
    forall t :: 0 <= t < |c.pcs| ==> c.pcs[t].Idle?
  }

  ghost function Holders(c: Config, s: StateId): set<HandleId> {
    set h | h in c.handles && c.handles[h].state == Some(s)
  }

  // In every reachable configuration a State is deleted at most once, and never while a handle counts. Between
  // operations its count is the number of its handles, and it is deleted exactly when it has none.
  lemma DeletedOnceByTheLast(threads: nat, events: seq<Event>, s: StateId)
    requires IsRun(Start(threads), events) && s < |Reached(Start(threads), events).cells|
    ensures var c := Reached(Start(threads), events);
      && c.cells[s].deletions <= 1
      && c.cells[s].count == |Counted(c, s)|
      && (Counted(c, s) != {} ==> c.cells[s].deletions == 0)
      && (Quiet(c) ==> c.cells[s].count == |Holders(c, s)| && (c.cells[s].deletions == 1 <==> Holders(c, s) == {}))
  {
    var c := Reached(Start(threads), events);
    assert CellOk(c, s);
    if Quiet(c) {
      assert Counted(c, s) == Holders(c, s);
      assert Deleters(c, s) == {};
    }
  }

  // Only the step that takes the last counting handle away leads to the deletion.
  lemma OnlyTheLastDropDeletes(c: Config, t: Thread)
    requires Inv(c) && t < |c.pcs| && c.pcs[t].Sub? && c.handles[c.pcs[t].h].state.Some?
    ensures Advanced(c, t).pcs[t].Delete? <==> Counted(c, c.handles[c.pcs[t].h].state.value) == {c.pcs[t].h}
  {
    var h := c.pcs[t].h;
    var s := c.handles[h].state.value;
    assert CellOk(c, s) && h in Counted(c, s);
    if c.cells[s].count == 1 {
      assert |Counted(c, s) - {h}| == 0;
      assert Counted(c, s) == {h};
    }
  }
}
