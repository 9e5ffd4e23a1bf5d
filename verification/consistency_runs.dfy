/**
 The consistency protocol over every run of application uploads, pushes,
 dispatches, downloads, creations and destructions, with identifiers reused.
 */
module ConsistencyRuns {
  import opened Options
  import opened Words
  import opened IdentifierDb
  import opened IdentifierRuns
  import opened Backend
  import opened Consistency

  datatype Event =
    | Create(id: nat, readonly: bool, system: bool, backing: Bytes)
    | TakeId(id: nat)      // another object of the accelerator takes an identifier
    | ReturnId(id: nat)
    | Write(id: nat, data: Bytes)
    | Push(id: nat, env: Env)
    | Launch(ids: seq<nat>, envs: seq<Env>, kernel: Kernel, enqueueOk: bool)
    | Fetch(id: nat, ptr: nat)
    | Destroy(id: nat)

  function NewSurface(readonly: bool, system: bool, backing: Bytes): Surface {
    Surface(readonly, system, 0, backing, false, false)
  }

  ghost predicate IsStep(w: World, e: Event, w': World) {
    match e
    case Create(id, readonly, system, backing) =>
      && IsAlloc(w.ids, w'.ids, Allocated(id)) && (system ==> w.local)
      && w' == w.(ids := w'.ids, surfaces := w.surfaces[id := NewSurface(readonly, system, backing)])
    case TakeId(id) =>
      IsAlloc(w.ids, w'.ids, Allocated(id)) && w' == w.(ids := w'.ids)
    case ReturnId(id) =>
      && id in w.ids.active && id !in w.surfaces
      && w' == w.(ids := w.ids.(active := w.ids.active - {id}, free := (w.ids.free + 1) % UINT))
    case Write(id, data) => Has(w, id) && w' == AppUpload(w, id, data)
    case Push(id, env) => Has(w, id) && GoodEnv(w.surfaces[id], env) && w' == PushSurface(w, id, env)
    case Launch(ids, envs, kernel, enqueueOk) =>
      |ids| > 0 && GoodEnvs(w, ids, envs) && w' == Attempt(PushAll(w, ids, envs, |ids|), ids, kernel, enqueueOk)
    case Fetch(id, ptr) => Has(w, id) && w' == DownloadSurface(w, id, ptr)
    case Destroy(id) => Has(w, id) && w' == DestroySurface(w, id)
  }

  /** What each event means for one plain memory. */
  function MemStep(mem: Memory, e: Event): Memory {
    match e
    case Create(id, readonly, _, backing) => mem[id := Cell(readonly, backing)]
    case Write(id, data) => if id in mem then mem[id := mem[id].(content := Overlay(mem[id].content, data))] else mem
    case Launch(ids, _, kernel, enqueueOk) => if enqueueOk then RunKernel(mem, IdSet(ids), kernel) else mem
    case Destroy(id) => mem - {id}
    case _ => mem
  }

  /** An event that the protocol can take without losing data or order. */
  ghost predicate Careful(w: World, e: Event) {
    match e
    case Write(id, data) =>
      && Has(w, id) && InStep(w.surfaces[id], w.table[id])
      && KeepsOrder(w.surfaces[id], w.table[id]) && KeepsTail(w.surfaces[id], w.table[id], data)
    case Fetch(id, _) => Has(w, id) && NothingToLose(w.surfaces[id], w.table[id])
    case Create(id, _, _, _) => id < |w.table|
    case _ => true
  }

  // ---------------------------------------------------------------------
  // One step
  // ---------------------------------------------------------------------

  /** A new surface is in step if and only if the backend's table has a slot for its identifier, */
  lemma CreateKeepsIff(w: World, e: Event, w': World)
    requires Inv(w) && e.Create? && IsStep(w, e, w')
    ensures Inv(w') <==> e.id < |w.table|
    ensures e.id < |w.table| ==> Abs(w') == MemStep(Abs(w), e)
  {
    assert e.id in w'.surfaces;
    if e.id < |w.table| { CreateKeeps(w, e, w'); }
  }

  /** that is, if and only if some identifier within the table was free. */
  lemma CreateFitsIff(w: World, e: Event, w': World)
    requires Inv(w) && e.Create? && IsStep(w, e, w')
    ensures e.id < |w.table| <==> exists id: nat :: id < |w.table| && id !in w.ids.active
  {}

  lemma CreateKeeps(w: World, e: Event, w': World)
    requires Inv(w) && e.Create? && IsStep(w, e, w') && e.id < |w.table|
    ensures Inv(w') && Abs(w') == MemStep(Abs(w), e)
  {
    CountedAlloc(w.ids, w'.ids, Allocated(e.id));
    hide Counted, IsAlloc;
    assert w.table[e.id] == VACANT;
    forall id | id in w'.surfaces
      ensures id < |w'.table| && InStep(w'.surfaces[id], w'.table[id]) && (w'.surfaces[id].system ==> w'.local)
    {
      if id != e.id { assert id in w.surfaces; }
    }
    CreateAbs(w, e, w');
  }

  lemma CreateAbs(w: World, e: Event, w': World)
    requires e.Create? && w'.surfaces == w.surfaces[e.id := NewSurface(e.readonly, e.system, e.backing)] && w'.table == w.table
    requires e.id < |w.table|
    ensures Abs(w') == MemStep(Abs(w), e)
  {}

  lemma IdsKeep(w: World, ids: Db)
    requires Inv(w) && Counted(ids) && ids.size == w.ids.size && w.surfaces.Keys <= ids.active
    ensures Inv(w.(ids := ids)) && Abs(w.(ids := ids)) == Abs(w)
  {}

  lemma DestroyKeeps(w: World, id: nat)
    requires Inv(w) && Has(w, id)
    ensures Inv(DestroySurface(w, id)) && Abs(DestroySurface(w, id)) == Abs(w) - {id}
  {
    var w' := DestroySurface(w, id);
    CountedStep(w.ids, ReleaseOp(id), ReleaseReply, w'.ids);
    hide Counted;
    assert w'.surfaces.Keys == w.surfaces.Keys - {id};
    assert InStep(w.surfaces[id], w.table[id]);
    forall i | 0 <= i < |w'.table| && i !in w'.surfaces ensures w'.table[i] == VACANT {
      if i != id { assert i !in w.surfaces; }
    }
    DestroyAbs(w, id);
  }

  lemma DestroyAbs(w: World, id: nat)
    requires Has(w, id)
    ensures Abs(DestroySurface(w, id)) == Abs(w) - {id}
  {}

  lemma PushedConsistent(w: World, w': World, ids: seq<nat>)
    requires HasAll(w, ids) && PushedSet(w.surfaces, w'.surfaces, IdSet(ids))
    ensures AllConsistent(w', ids)
  {}

  /** A dispatch: its arguments are pushed, and the kernel runs on the one memory. */
  lemma LaunchKeeps(w: World, e: Event, w': World)
    requires Inv(w) && e.Launch? && IsStep(w, e, w')
    ensures Inv(w') && Abs(w') == MemStep(Abs(w), e)
    ensures PushedSet(w.surfaces, w'.surfaces, IdSet(e.ids))
    ensures AttemptStatus(PushAll(w, e.ids, e.envs, |e.ids|), e.ids, e.enqueueOk) == if e.enqueueOk then SUCCESS else FAIL
  {
    hide Inv, Abs, RunKernel, PushAll, Attempt, AttemptStatus, GoodEnv;
    var mid := PushAll(w, e.ids, e.envs, |e.ids|);
    PushAllKeeps(w, e.ids, e.envs, |e.ids|);
    assert e.ids[..|e.ids|] == e.ids;
    PushedConsistent(w, mid, e.ids);
    AttemptAccepted(mid, e.ids, e.enqueueOk);
    AttemptRefines(mid, e.ids, e.kernel, e.enqueueOk);
  }

  /**
   The step theorem: client and backend stay in step and stand for the memory that
   the event leaves, if and only if the event is careful.
   */
  lemma StepRefinesIff(w: World, e: Event, w': World)
    requires Inv(w) && IsStep(w, e, w')
    ensures Inv(w') && Abs(w') == MemStep(Abs(w), e) <==> Careful(w, e)
  {
    InvFacts(w);
    match e {
      case Create(_, _, _, _) => CreateKeepsIff(w, e, w');
      case TakeId(id) =>
        CountedAlloc(w.ids, w'.ids, Allocated(id));
        TakeKeeps(w, e, w');
      case ReturnId(id) => ReturnKeeps(w, e, w');
      case Write(id, data) =>
        hide Inv, Abs;
        UploadRefinesIff(w, id, data);
      case Push(id, env) =>
        hide Inv, Abs;
        PushKeeps(w, id, env);
      case Launch(_, _, _, _) =>
        hide Inv, Abs;
        LaunchKeeps(w, e, w');
      case Fetch(id, ptr) =>
        hide Inv, Abs;
        DownloadRefinesIff(w, id, ptr);
      case Destroy(id) =>
        hide Inv, Abs;
        DestroyKeeps(w, id);
    }
  }

  lemma TakeKeeps(w: World, e: Event, w': World)
    requires Inv(w) && e.TakeId? && IsStep(w, e, w')
    ensures Inv(w') && Abs(w') == Abs(w)
  {
    CountedAlloc(w.ids, w'.ids, Allocated(e.id));
    IdsKeep(w, w'.ids);
  }

  lemma ReturnKeeps(w: World, e: Event, w': World)
    requires Inv(w) && e.ReturnId? && IsStep(w, e, w')
    ensures Inv(w') && Abs(w') == Abs(w)
  {
    CountedStep(w.ids, ReleaseOp(e.id), ReleaseReply, w'.ids);
    IdsKeep(w, w'.ids);
  }

  /** A world with one resident surface 0 whose copy holds `copy`. */
  function OneSurface(backing: Bytes, copy: Bytes, consistent: bool): World {
    World(true, Db(1, {0}, 0),
          map[0 := Surface(false, false, 1, backing, true, consistent)],
          [Slot(true, false, None, if consistent then 1 else 0, copy, 0, None)])
  }

  /** Downloading before the upload is pushed loses the upload. */
  lemma UnpushedDownloadLoses()
    ensures var w := OneSurface([1], [0], false);
            && Inv(w) && Has(w, 0) && Abs(w) == map[0 := Cell(false, [1])]
            && Abs(DownloadSurface(w, 0, 7)) == map[0 := Cell(false, [0])]
  {
    var w := OneSurface([1], [0], false);
    assert Span(0, 1) == {0};
    InvFacts(w);
    DownloadInStep(w.surfaces[0], w.table[0], 7);
  }

  /** A short upload after a kernel brings back what the kernel had overwritten beyond it. */
  lemma ShortUploadReverts()
    ensures var w := OneSurface([1, 1], [2, 2], true);
            && Inv(w) && Has(w, 0) && Abs(w) == map[0 := Cell(false, [2, 2])]
            && Abs(AppUpload(w, 0, [3])) == map[0 := Cell(false, [3, 1])]
  {
    var w := OneSurface([1, 1], [2, 2], true);
    assert Span(0, 1) == {0};
    InvFacts(w);
    assert Overlay([1, 1], [3]) == [3, 1];
  }

  // ---------------------------------------------------------------------
  // Nothing is refused
  // ---------------------------------------------------------------------

  /** Every backend call that a push makes returns SUCCESS. */
  ghost predicate PushTaken(w: World, id: nat, env: Env) {
    && Has(w, id)
    && var s, slot := w.surfaces[id], w.table[id];
       && (!s.resident ==> AllocSlot(slot, s.readonly, env.svmPtr, env.initial).1 == SUCCESS)
       && var w1 := AllocSurface(w, id, env);
          !s.consistent ==> PushSlot(w1.local, w1.surfaces[id], w1.table[id], env.ptr).1 == SUCCESS
  }

  /** Every backend call of the event is taken on its first attempt; only the device itself can fail. */
  ghost predicate Taken(w: World, e: Event) {
    match e
    case Push(id, env) => PushTaken(w, id, env)
    case Launch(ids, envs, _, enqueueOk) =>
      && HasAll(w, ids) && |envs| == |ids|
      && (forall n :: 0 <= n < |ids| ==> PushTaken(PushAll(w, ids, envs, n), ids[n], envs[n]))
      && AttemptStatus(PushAll(w, ids, envs, |ids|), ids, enqueueOk) == if enqueueOk then SUCCESS else FAIL
    case Fetch(id, ptr) =>
      && Has(w, id)
      && (!w.surfaces[id].readonly ==>
            MapCopyUnmap(w.table[id], w.surfaces[id].generation, w.table[id].content, ptr).1 == SUCCESS)
    case _ => true
  }

  lemma PushIsTaken(w: World, id: nat, env: Env)
    requires Inv(w) && Has(w, id) && GoodEnv(w.surfaces[id], env)
    ensures PushTaken(w, id, env)
  {
    InvFacts(w);
    if !w.surfaces[id].resident { AllocInStep(w.surfaces[id], w.table[id], env); }
    AllocKeeps(w, id, env);
    var w1 := AllocSurface(w, id, env);
    InvFacts(w1);
    hide Inv, Abs, AllocSurface, PushSlot;
    PushAccepted(w1.local, w1.surfaces[id], w1.table[id], env.ptr);
  }

  lemma LaunchIsTaken(w: World, e: Event, w': World)
    requires Inv(w) && e.Launch? && IsStep(w, e, w')
    ensures Taken(w, e)
  {
    hide Inv, Abs, PushTaken, PushSurface;
    LaunchKeeps(w, e, w');
    forall n | 0 <= n < |e.ids| ensures PushTaken(PushAll(w, e.ids, e.envs, n), e.ids[n], e.envs[n]) {
      PushAllKeeps(w, e.ids, e.envs, n);
      PushIsTaken(PushAll(w, e.ids, e.envs, n), e.ids[n], e.envs[n]);
    }
  }

  /** A download that finds a copy, or is skipped. */
  ghost predicate FetchesCopy(w: World, e: Event) {
    e.Fetch? ==> Has(w, e.id) && (w.surfaces[e.id].readonly || w.surfaces[e.id].resident)
  }

  /** While client and backend are in step, every backend call is taken, except the download of a surface that was never pushed. */
  lemma StepIsTakenIff(w: World, e: Event, w': World)
    requires Inv(w) && IsStep(w, e, w')
    ensures Taken(w, e) <==> FetchesCopy(w, e)
  {
    match e
    case Push(id, env) => PushIsTaken(w, id, env);
    case Launch(_, _, _, _) => LaunchIsTaken(w, e, w');
    case Fetch(id, ptr) =>
      InvFacts(w);
      if !w.surfaces[id].readonly && w.surfaces[id].resident { DownloadInStep(w.surfaces[id], w.table[id], ptr); }
    case _ =>
  }

  // ---------------------------------------------------------------------
  // Runs
  // ---------------------------------------------------------------------

  ghost predicate IsRun(ws: seq<World>, es: seq<Event>) {
    && |ws| == |es| + 1
    && forall i :: 0 <= i < |es| ==> IsStep(ws[i], es[i], ws[i + 1])
  }

  /** The plain memory after the first n events. */
  function MemAfter(mem: Memory, es: seq<Event>, n: nat): Memory
    requires n <= |es|
  {
    if n == 0 then mem else MemStep(MemAfter(mem, es, n - 1), es[n - 1])
  }

  /** After n events client and backend are in step and stand for the plain memory. */
  ghost predicate Refines(ws: seq<World>, es: seq<Event>, n: nat) {
    && n < |ws| && n <= |es|
    && Inv(ws[n]) && Abs(ws[n]) == MemAfter(Abs(ws[0]), es, n)
  }

  ghost predicate CarefulUpTo(ws: seq<World>, es: seq<Event>, n: nat)
    requires n <= |es| <= |ws|
  {
    forall i :: 0 <= i < n ==> Careful(ws[i], es[i])
  }

  /**
   One-copy refinement: a run behaves as one plain memory up to its n-th event if
   and only if each of these events is careful.
   */
  lemma {:induction false} RunRefinesIff(ws: seq<World>, es: seq<Event>, n: nat)
    requires IsRun(ws, es) && Inv(ws[0]) && n <= |es|
    ensures (forall i :: 0 <= i <= n ==> Refines(ws, es, i)) <==> CarefulUpTo(ws, es, n)
  {
    hide Inv, Abs, IsStep, Careful, MemStep;
    if n == 0 {
      assert Refines(ws, es, 0);
    } else {
      RunRefinesIff(ws, es, n - 1);
      if CarefulUpTo(ws, es, n - 1) {
        assert Refines(ws, es, n - 1);
        assert IsStep(ws[n - 1], es[n - 1], ws[n]);
        StepRefinesIff(ws[n - 1], es[n - 1], ws[n]);
        assert Refines(ws, es, n) <==> Careful(ws[n - 1], es[n - 1]);
      }
    }
  }

  /**
   In a careful run no backend call is ever refused, except the download of a surface
   that was never pushed, and every dispatch is accepted on its first attempt.
   */
  lemma RunIsTakenIff(ws: seq<World>, es: seq<Event>, n: nat)
    requires IsRun(ws, es) && Inv(ws[0]) && n < |es| && CarefulUpTo(ws, es, n)
    ensures Taken(ws[n], es[n]) <==> FetchesCopy(ws[n], es[n])
  {
    hide Inv, Abs, IsStep, Careful, MemStep, Taken, FetchesCopy;
    RunRefinesIff(ws, es, n);
    assert Refines(ws, es, n);
    assert IsStep(ws[n], es[n], ws[n + 1]);
    StepIsTakenIff(ws[n], es[n], ws[n + 1]);
  }

  // ---------------------------------------------------------------------
  // Which runs are careful
  // ---------------------------------------------------------------------

  /** Whether the history pushed the surface after it was last written or created. */
  predicate NextPushed(e: Event, id: nat, pushed: bool) {
    match e
    case Create(i, _, _, _) => i != id && pushed
    case Write(i, _) => i != id && pushed
    case Destroy(i) => i != id && pushed
    case Push(i, _) => i == id || pushed
    case Launch(ids, _, _, _) => id in ids || pushed
    case _ => pushed
  }

  predicate PushedSince(es: seq<Event>, n: nat, id: nat)
    requires n <= |es|
  {
    n > 0 && NextPushed(es[n - 1], id, PushedSince(es, n - 1, id))
  }

  function Writes(es: seq<Event>, n: nat): nat
    requires n <= |es|
  {
    if n == 0 then 0 else Writes(es, n - 1) + if es[n - 1].Write? then 1 else 0
  }

  /** The bit and the generation of a surface after one event. */
  ghost predicate BitsStep(before: map<nat, Surface>, e: Event, after: map<nat, Surface>, id: nat) {
    id in after ==>
      && (id !in before ==> e.Create? && e.id == id)
      && after[id].consistent == NextPushed(e, id, id in before && before[id].consistent)
      && after[id].generation <= (if id in before then before[id].generation else 0) + if e.Write? then 1 else 0
  }

  lemma PushBits(w: World, i: nat, env: Env, id: nat)
    requires Inv(w) && Has(w, i) && GoodEnv(w.surfaces[i], env)
    ensures BitsStep(w.surfaces, Push(i, env), PushSurface(w, i, env).surfaces, id)
  {
    PushKeeps(w, i, env);
    hide Inv, Abs, PushSurface;
  }

  lemma LaunchBits(w: World, e: Event, w': World, id: nat)
    requires Inv(w) && e.Launch? && IsStep(w, e, w')
    ensures BitsStep(w.surfaces, e, w'.surfaces, id)
  {
    LaunchKeeps(w, e, w');
    IdSetHas(e.ids, id);
    hide Inv, Abs, IsStep, IdSet;
  }

  lemma FetchBits(w: World, i: nat, ptr: nat, id: nat)
    requires Inv(w) && Has(w, i)
    ensures BitsStep(w.surfaces, Fetch(i, ptr), DownloadSurface(w, i, ptr).surfaces, id)
  {
    DownloadRefinesIff(w, i, ptr);
    hide Inv, Abs, DownloadSurface;
  }

  lemma PlainBits(w: World, e: Event, w': World, id: nat)
    requires Inv(w) && IsStep(w, e, w') && !e.Push? && !e.Launch? && !e.Fetch?
    ensures BitsStep(w.surfaces, e, w'.surfaces, id)
  {
    if e.Write? { assert (w.surfaces[e.id].generation + 1) % UINT <= w.surfaces[e.id].generation + 1; }
    hide Inv, Overlay, IsAlloc;
  }

  lemma StepBits(w: World, e: Event, w': World, id: nat)
    requires Inv(w) && IsStep(w, e, w')
    ensures BitsStep(w.surfaces, e, w'.surfaces, id)
  {
    hide Inv, BitsStep, PushSurface, DownloadSurface;
    match e
    case Push(i, env) => PushBits(w, i, env, id);
    case Launch(_, _, _, _) => LaunchBits(w, e, w', id);
    case Fetch(i, ptr) => FetchBits(w, i, ptr, id);
    case _ => PlainBits(w, e, w', id);
  }

  lemma IdSetHas(ids: seq<nat>, id: nat)
    ensures id in IdSet(ids) <==> id in ids
  {}

  /** An accelerator of `size` identifiers over a backend of `slots` surfaces. */
  function Start(local: bool, size: nat, slots: nat): World {
    World(local, Fresh(size), map[], seq(slots, _ => VACANT))
  }

  lemma StartInv(local: bool, size: nat, slots: nat)
    requires size <= UINT - 32
    ensures Inv(Start(local, size, slots)) && Abs(Start(local, size, slots)) == map[]
  {}

  predicate Follows(s: Surface, es: seq<Event>, n: nat, id: nat)
    requires n <= |es|
  {
    s.consistent == PushedSince(es, n, id) && s.generation <= Writes(es, n)
  }

  /** In a careful run the bit of a surface and a bound on its generation can be read off the history. */
  lemma {:induction false} BitsFollowHistory(ws: seq<World>, es: seq<Event>, n: nat, id: nat)
    requires IsRun(ws, es) && Inv(ws[0]) && ws[0].surfaces == map[] && n <= |es| && CarefulUpTo(ws, es, n)
    requires id in ws[n].surfaces
    ensures Follows(ws[n].surfaces[id], es, n, id)
  {
    hide Inv, Abs, IsStep, Careful, MemStep, NextPushed;
    if n > 0 {
      RunRefinesIff(ws, es, n - 1);
      assert Refines(ws, es, n - 1);
      assert IsStep(ws[n - 1], es[n - 1], ws[n]);
      StepBits(ws[n - 1], es[n - 1], ws[n], id);
      if id in ws[n - 1].surfaces {
        BitsFollowHistory(ws, es, n - 1, id);
      } else {
        CreatedUnpushed(es[n - 1], id, PushedSince(es, n - 1, id));
        CreatedUnpushed(es[n - 1], id, false);
      }
    }
  }

  lemma CreatedUnpushed(e: Event, id: nat, pushed: bool)
    requires e.Create? && e.id == id
    ensures !NextPushed(e, id, pushed)
  {}

  /**
   What an application can see to: uploads fill their surface, there are fewer than
   2^32 of them, a surface is downloaded only after its last upload was pushed, and
   a surface is created only on an identifier that the backend has a slot for.
   */
  ghost predicate Disciplined(ws: seq<World>, es: seq<Event>)
    requires |es| <= |ws|
  {
    && Writes(es, |es|) < UINT
    && (forall i :: 0 <= i < |es| ==> FillsSurface(ws[i], es[i]))
    && (forall i :: 0 <= i < |es| ==> FetchesPushed(es, i))
    && (forall i :: 0 <= i < |es| ==> HasSlot(ws[i], es[i]))
  }

  predicate HasSlot(w: World, e: Event) {
    e.Create? ==> e.id < |w.table|
  }

  predicate FillsSurface(w: World, e: Event) {
    e.Write? && e.id in w.surfaces ==> |e.data| >= |w.surfaces[e.id].backing|
  }

  predicate FetchesPushed(es: seq<Event>, i: nat)
    requires i < |es|
  {
    es[i].Fetch? ==> PushedSince(es, i, es[i].id)
  }

  lemma {:induction false} WritesGrow(es: seq<Event>, a: nat, b: nat)
    requires a <= b <= |es|
    ensures Writes(es, a) <= Writes(es, b)
    decreases b
  {
    if a < b { WritesGrow(es, a, b - 1); }
  }

  lemma DisciplinedStep(ws: seq<World>, es: seq<Event>, n: nat)
    requires IsRun(ws, es) && Disciplined(ws, es) && n < |es| && Inv(ws[n])
    requires forall id :: id in ws[n].surfaces ==> Follows(ws[n].surfaces[id], es, n, id)
    ensures Careful(ws[n], es[n])
  {
    InvFacts(ws[n]);
    hide Inv, Abs;
    assert IsStep(ws[n], es[n], ws[n + 1]);
    assert FillsSurface(ws[n], es[n]) && FetchesPushed(es, n) && HasSlot(ws[n], es[n]);
    if es[n].Write? {
      WritesGrow(es, n + 1, |es|);
      var s, slot := ws[n].surfaces[es[n].id], ws[n].table[es[n].id];
      assert |CellFor(s, slot).content| == |s.backing|;
      assert s.backing[|s.backing|..] == CellFor(s, slot).content[|s.backing|..];
    }
  }

  lemma {:induction false} DisciplinedIsCareful(ws: seq<World>, es: seq<Event>, n: nat)
    requires IsRun(ws, es) && Inv(ws[0]) && ws[0].surfaces == map[] && Disciplined(ws, es) && n <= |es|
    ensures CarefulUpTo(ws, es, n)
  {
    hide Inv, Abs, IsStep, Careful, MemStep, NextPushed, Disciplined;
    if n > 0 {
      DisciplinedIsCareful(ws, es, n - 1);
      RunRefinesIff(ws, es, n - 1);
      assert Refines(ws, es, n - 1);
      var w := ws[n - 1];
      forall id | id in w.surfaces ensures Follows(w.surfaces[id], es, n - 1, id) {
        BitsFollowHistory(ws, es, n - 1, id);
      }
      DisciplinedStep(ws, es, n - 1);
    }
  }

  /** A surface that is downloaded only after a push has a copy. */
  lemma FetchedIsResident(ws: seq<World>, es: seq<Event>, n: nat)
    requires IsRun(ws, es) && Inv(ws[0]) && ws[0].surfaces == map[] && Disciplined(ws, es) && n < |es|
    requires Inv(ws[n]) && CarefulUpTo(ws, es, n)
    ensures FetchesCopy(ws[n], es[n])
  {
    InvFacts(ws[n]);
    hide Inv, Abs, Careful, MemStep;
    assert IsStep(ws[n], es[n], ws[n + 1]) && FetchesPushed(es, n);
    if es[n].Fetch? {
      hide IsStep, Disciplined;
      BitsFollowHistory(ws, es, n, es[n].id);
      assert InStep(ws[n].surfaces[es[n].id], ws[n].table[es[n].id]);
    }
  }

  /**
   The main result: from an empty accelerator, every disciplined run, local or
   remote, behaves at every point as one plain memory, and nothing is refused.
   */
  lemma DisciplinedRun(local: bool, size: nat, slots: nat, ws: seq<World>, es: seq<Event>, n: nat)
    requires size <= UINT - 32 && IsRun(ws, es) && ws[0] == Start(local, size, slots) && Disciplined(ws, es) && n <= |es|
    ensures Inv(ws[n]) && Abs(ws[n]) == MemAfter(map[], es, n)
    ensures n < |es| ==> Taken(ws[n], es[n])
  {
    hide Inv, Abs, IsStep, Careful, MemStep, Disciplined, Taken;
    StartInv(local, size, slots);
    DisciplinedIsCareful(ws, es, n);
    RunRefinesIff(ws, es, n);
    assert Refines(ws, es, n);
    if n < |es| {
      RunIsTakenIff(ws, es, n);
      FetchedIsResident(ws, es, n);
    }
  }

  // ---------------------------------------------------------------------
  // More identifiers than slots
  // ---------------------------------------------------------------------

  /** The client's default number of identifiers, and the backend's number of slots. */
  const MAX_REF_OBJECTS: nat := 48
  const MAX_SURFACES: nat := 32

  /** An accelerator by default, whose first n identifiers are held by other objects. */
  ghost function Held(local: bool, n: nat): World
    requires n <= MAX_REF_OBJECTS
  {
    Start(local, MAX_REF_OBJECTS, MAX_SURFACES).(ids := Db(MAX_REF_OBJECTS, Span(0, n), MAX_REF_OBJECTS - n))
  }

  /** 32 identifiers that other objects take, one after the other, from the start. */
  lemma DefaultsFill(local: bool)
    ensures var ws := seq(33, n requires 0 <= n < 33 => Held(local, n));
            IsRun(ws, seq(32, (n: nat) => TakeId(n))) && ws[0] == Start(local, MAX_REF_OBJECTS, MAX_SURFACES)
  {
    forall n | 0 <= n < 32 ensures IsStep(Held(local, n), TakeId(n), Held(local, n + 1)) {
      assert Span(0, n) + {n} == Span(0, n + 1);
    }
    assert Span(0, 0) == {};
  }

  /** The next surface then gets identifier 32, beyond the backend's table. */
  lemma DefaultsOverflow(local: bool)
    ensures var w := Held(local, MAX_SURFACES);
            var e := Create(MAX_SURFACES, false, false, []);
            exists w' :: Inv(w) && IsStep(w, e, w') && !Inv(w')
  {
    var w := Held(local, MAX_SURFACES);
    var e := Create(MAX_SURFACES, false, false, []);
    var w' := w.(ids := Db(MAX_REF_OBJECTS, Span(0, MAX_SURFACES) + {MAX_SURFACES}, 15),
                 surfaces := map[MAX_SURFACES := NewSurface(false, false, [])]);
    SpanSize(MAX_SURFACES);
    assert w'.surfaces == w.surfaces[MAX_SURFACES := NewSurface(false, false, [])];
    assert IsStep(w, e, w');
    assert Inv(w);
    CreateKeepsIff(w, e, w');
  }

  // ---------------------------------------------------------------------
  // What the application reads
  // ---------------------------------------------------------------------

  /** Whether no kernel has had the surface as an argument since it was last created, written or downloaded. */
  predicate NextSettled(e: Event, id: nat, settled: bool) {
    match e
    case Create(i, _, _, _) => i == id || settled
    case Write(i, _) => i == id || settled
    case Fetch(i, _) => i == id || settled
    case Launch(ids, _, _, enqueueOk) => (id in ids ==> !enqueueOk) && settled
    case _ => settled
  }

  predicate Settled(es: seq<Event>, n: nat, id: nat)
    requires n <= |es|
  {
    n > 0 && NextSettled(es[n - 1], id, Settled(es, n - 1, id))
  }

  /** The backing of a surface is what the one memory holds. */
  ghost predicate Reads(w: World, id: nat) {
    id in w.surfaces && id in Abs(w) && w.surfaces[id].backing == Abs(w)[id].content
  }

  /** An event that leaves a surface's backing and memory alone. */
  lemma UntouchedReads(w: World, w': World, id: nat)
    requires Inv(w) && Inv(w') && Reads(w, id) && id in w'.surfaces && w'.surfaces[id].backing == w.surfaces[id].backing
    requires id in Abs(w') && id in Abs(w) && Abs(w')[id] == Abs(w)[id]
    ensures Reads(w', id)
  {}

  lemma UnpushedReads(w: World, id: nat)
    requires Inv(w) && id in w.surfaces && !w.surfaces[id].consistent
    ensures Reads(w, id)
  {
    InvFacts(w);
    assert Abs(w)[id] == CellFor(w.surfaces[id], w.table[id]);
  }

  /** Every event other than an upload, a download or a dispatch of the surface leaves its backing and its memory alone. */
  lemma UntouchedBacking(w: World, e: Event, w': World, id: nat)
    requires Inv(w) && IsStep(w, e, w') && !e.Launch?
    requires id in w.surfaces && id in w'.surfaces
    requires e.Create? || e.Write? || e.Fetch? ==> e.id != id
    ensures w'.surfaces[id].backing == w.surfaces[id].backing
    ensures id in Abs(w) ==> id in MemStep(Abs(w), e) && MemStep(Abs(w), e)[id] == Abs(w)[id]
  {
    if e.Push? { PushKeeps(w, e.id, e.env); }
    if e.Fetch? { DownloadRefinesIff(w, e.id, e.ptr); }
    hide Inv, Abs, InStep, GoodEnv, PushSurface, DownloadSurface, IsAlloc, Overlay, HasAll, GoodEnvs;
  }

  lemma UntouchedLaunch(w: World, e: Event, w': World, id: nat)
    requires Inv(w) && IsStep(w, e, w') && e.Launch? && id in w.surfaces && (id in e.ids ==> !e.enqueueOk)
    ensures id in w'.surfaces && w'.surfaces[id].backing == w.surfaces[id].backing
    ensures id in Abs(w) ==> id in MemStep(Abs(w), e) && MemStep(Abs(w), e)[id] == Abs(w)[id]
  {
    LaunchKeeps(w, e, w');
    IdSetHas(e.ids, id);
    hide Inv, Abs, IsStep, IdSet;
  }

  lemma StepReads(w: World, e: Event, w': World, id: nat, settled: bool)
    requires Inv(w) && IsStep(w, e, w') && Careful(w, e) && id in w'.surfaces
    requires settled && id in w.surfaces ==> Reads(w, id)
    requires NextSettled(e, id, settled)
    ensures Reads(w', id)
  {
    StepRefinesIff(w, e, w');
    StepBits(w, e, w', id);
    InvFacts(w);
    InvFacts(w');
    hide Inv, Abs, InStep, IsStep, Reads, MemStep, KeepsTail, KeepsOrder;
    if (e.Create? || e.Write?) && e.id == id {
      UnpushedReads(w', id);
    } else if e.Fetch? && e.id == id {
      FetchedReads(w, e, w');
    } else {
      if e.Launch? { UntouchedLaunch(w, e, w', id); } else { UntouchedBacking(w, e, w', id); }
      UntouchedReads(w, w', id);
    }
  }

  lemma FetchedReads(w: World, e: Event, w': World)
    requires Inv(w) && IsStep(w, e, w') && e.Fetch? && Careful(w, e)
    ensures Reads(w', e.id)
  {
    InvFacts(w);
    DownloadRefinesIff(w, e.id, e.ptr);
    assert Abs(w)[e.id] == CellFor(w.surfaces[e.id], w.table[e.id]);
    assert InStep(w.surfaces[e.id], w.table[e.id]);
  }

  /**
   In a careful run the application reads the one memory from every surface that
   no kernel was given since it was last created, written or downloaded.
   */
  lemma {:induction false} SettledReads(ws: seq<World>, es: seq<Event>, n: nat, id: nat)
    requires IsRun(ws, es) && Inv(ws[0]) && ws[0].surfaces == map[] && n <= |es| && CarefulUpTo(ws, es, n)
    requires id in ws[n].surfaces && Settled(es, n, id)
    ensures id in MemAfter(Abs(ws[0]), es, n)
    ensures var content := MemAfter(Abs(ws[0]), es, n)[id].content;
            forall size: nat ::
              && |AppDownload(ws[n].surfaces[id], size)| == (if size < |content| then size else |content|)
              && forall i :: 0 <= i < |AppDownload(ws[n].surfaces[id], size)| ==> AppDownload(ws[n].surfaces[id], size)[i] == content[i]
  {
    hide Inv, Abs, IsStep, Careful, MemStep, NextSettled;
    BackingFollows(ws, es, n, id);
    RunRefinesIff(ws, es, n);
    assert Refines(ws, es, n);
  }

  lemma {:induction false} BackingFollows(ws: seq<World>, es: seq<Event>, n: nat, id: nat)
    requires IsRun(ws, es) && Inv(ws[0]) && ws[0].surfaces == map[] && n <= |es| && CarefulUpTo(ws, es, n)
    requires id in ws[n].surfaces && Settled(es, n, id)
    ensures Reads(ws[n], id)
  {
    hide Inv, Abs, IsStep, Careful, MemStep, NextSettled, Reads;
    RunRefinesIff(ws, es, n - 1);
    assert Refines(ws, es, n - 1);
    assert IsStep(ws[n - 1], es[n - 1], ws[n]);
    if id in ws[n - 1].surfaces && Settled(es, n - 1, id) {
      BackingFollows(ws, es, n - 1, id);
    }
    StepReads(ws[n - 1], es[n - 1], ws[n], id, Settled(es, n - 1, id));
  }

  /** A dispatch followed by the downloads of its arguments: each argument then reads as the kernel left it. */
  lemma DispatchThenQuiesce(w: World, e: Event, w1: World, ptrs: seq<nat>)
    requires Inv(w) && e.Launch? && e.enqueueOk && IsStep(w, e, w1) && |ptrs| == |e.ids| && HasAll(w1, e.ids)
    ensures var w2 := DownloadAll(w1, e.ids, ptrs, |e.ids|);
            var mem := RunKernel(Abs(w), IdSet(e.ids), e.kernel);
            && Inv(w2) && Abs(w2) == mem
            && forall i :: 0 <= i < |e.ids| ==>
                 e.ids[i] in w2.surfaces && e.ids[i] in mem && w2.surfaces[e.ids[i]].backing == mem[e.ids[i]].content
  {
    hide Inv, Abs, RunKernel, DownloadSurface, DownloadAll, PushAll, Attempt, AttemptStatus, GoodEnv;
    LaunchKeeps(w, e, w1);
    PushedConsistent(w, w1, e.ids);
    QuiescedBacking(w1, e.ids, ptrs, |e.ids|);
  }
}
