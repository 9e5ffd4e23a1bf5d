/**
 What the consistency protocol delivers, byte by byte: what a dispatch leaves in
 the backings of its arguments, and what an upload is read back as.
 */
module ConsistencyEffects {
  import opened Options
  import opened IdentifierDb
  import opened Backend
  import opened Consistency
  import opened ConsistencyRuns

  // ---------------------------------------------------------------------
  // Kernels
  // ---------------------------------------------------------------------

  lemma ComputedBytes(mem: Memory, ids: seq<nat>, kernel: Kernel)
    ensures var mem2 := RunKernel(mem, IdSet(ids), kernel);
            var out := kernel(map t | t in ids && t in mem :: mem[t].content);
            && mem2.Keys == mem.Keys
            && forall s :: s in mem ==>
                 mem2[s] ==
                 if s in ids && !mem[s].readonly && s in out && |out[s]| == |mem[s].content|
                 then Cell(false, out[s])
                 else mem[s]
  {
    hide IdSet;
    forall s: nat ensures s in IdSet(ids) <==> s in ids {
      IdSetHas(ids, s);
    }
    var input := map t | t in ids && t in mem :: mem[t].content;
    assert KernelInput(mem, IdSet(ids)) == input;
    var mem2, out := RunKernel(mem, IdSet(ids), kernel), kernel(input);
    forall s | s in mem
      ensures mem2[s] ==
              if s in ids && !mem[s].readonly && s in out && |out[s]| == |mem[s].content| then Cell(false, out[s]) else mem[s]
    {
      assert s in IdSet(ids) <==> s in ids;
    }
  }

  /**
   The client holds what a kernel made of the memory before: each argument that is
   writable, and that the kernel put out at its own size, reads as the kernel computed
   it from the contents of its arguments; every other surface is worth what it was;
   and the backing of each argument holds what the argument is worth.
   */
  ghost predicate Delivered(mem: Memory, ids: seq<nat>, kernel: Kernel, w: World) {
    var out := kernel(map t | t in ids && t in mem :: mem[t].content);
    && Inv(w) && Abs(w).Keys == mem.Keys
    && (forall s :: s in mem ==>
          Abs(w)[s] ==
          if s in ids && !mem[s].readonly && s in out && |out[s]| == |mem[s].content|
          then Cell(false, out[s])
          else mem[s])
    && (forall s :: s in ids ==> s in Abs(w) && s in w.surfaces && w.surfaces[s].backing == Abs(w)[s].content)
  }

  lemma DeliveredIf(mem: Memory, ids: seq<nat>, kernel: Kernel, w: World)
    requires Inv(w) && Abs(w) == RunKernel(mem, IdSet(ids), kernel)
    requires forall i :: 0 <= i < |ids| ==> ids[i] in w.surfaces && ids[i] in Abs(w) && w.surfaces[ids[i]].backing == Abs(w)[ids[i]].content
    ensures Delivered(mem, ids, kernel, w)
  {
    hide Inv, Abs, RunKernel, IdSet;
    ComputedBytes(mem, ids, kernel);
  }

  /** A dispatch that the device takes, followed by the downloads of its arguments. */
  lemma LaunchDelivers(w: World, e: Event, w1: World, ptrs: seq<nat>)
    requires Inv(w) && e.Launch? && e.enqueueOk && IsStep(w, e, w1) && |ptrs| == |e.ids| && HasAll(w1, e.ids)
    ensures Delivered(Abs(w), e.ids, e.kernel, DownloadAll(w1, e.ids, ptrs, |e.ids|))
  {
    hide Inv, Abs, RunKernel, DownloadAll, IsStep, Delivered;
    DispatchThenQuiesce(w, e, w1, ptrs);
    DeliveredIf(Abs(w), e.ids, e.kernel, DownloadAll(w1, e.ids, ptrs, |e.ids|));
  }

  lemma FinishIsLaunch(w: World, ids: seq<nat>, envs: seq<Env>, kernel: Kernel, enqueueOk: bool)
    requires |ids| > 0 && GoodEnvs(w, ids, envs)
    ensures var sent := Attempt(PushAll(w, ids, envs, |ids|), ids, kernel, enqueueOk);
            HasAll(sent, ids) && IsStep(w, Launch(ids, envs, kernel, enqueueOk), sent)
  {}

  /** The steps of operation::finish: nothing is refused, and the kernel's results reach the client. */
  lemma FinishDelivers(w: World, ids: seq<nat>, envs: seq<Env>, kernel: Kernel, ptrs: seq<nat>)
    requires Inv(w) && |ids| > 0 && GoodEnvs(w, ids, envs) && |ptrs| == |ids|
    ensures var mid := PushAll(w, ids, envs, |ids|);
            var sent := Attempt(mid, ids, kernel, true);
            && AttemptStatus(mid, ids, true) == SUCCESS
            && HasAll(sent, ids)
            && Delivered(Abs(w), ids, kernel, DownloadAll(sent, ids, ptrs, |ids|))
  {
    hide Inv, Abs, DownloadAll, PushAll, Attempt, AttemptStatus, IsStep, Delivered;
    FinishIsLaunch(w, ids, envs, kernel, true);
    var sent := Attempt(PushAll(w, ids, envs, |ids|), ids, kernel, true);
    LaunchKeeps(w, Launch(ids, envs, kernel, true), sent);
    LaunchDelivers(w, Launch(ids, envs, kernel, true), sent, ptrs);
  }

  /** A kernel that puts out for surface 1 what it is given for surface 0. */
  function CopyKernel(): Kernel {
    (m: map<nat, Bytes>) => if 0 in m then m[1 := m[0]] else m
  }

  /** Two surfaces of one byte; the first is written, a kernel copies it to the second, and the second is downloaded. */
  function CopyEvents(): seq<Event> {
    var env := Env(None, [0], 7);
    [Create(0, false, false, [0]), Create(1, false, false, [0]), Write(0, [5]),
     Launch([0, 1], [env, env], CopyKernel(), true), Fetch(1, 7)]
  }

  /** The worlds of that run. */
  ghost function CopyWorlds(local: bool): seq<World> {
    var w0 := Start(local, 2, 2);
    var w1 := w0.(ids := Db(2, {0}, 1), surfaces := map[0 := NewSurface(false, false, [0])]);
    var w2 := w1.(ids := Db(2, {0, 1}, 0), surfaces := w1.surfaces[1 := NewSurface(false, false, [0])]);
    var w3 := AppUpload(w2, 0, [5]);
    var env := Env(None, [0], 7);
    var w4 := Attempt(PushAll(w3, [0, 1], [env, env], 2), [0, 1], CopyKernel(), true);
    [w0, w1, w2, w3, w4, DownloadSurface(w4, 1, 7)]
  }

  lemma CopyCreates(local: bool)
    ensures var ws, es := CopyWorlds(local), CopyEvents();
            IsStep(ws[0], es[0], ws[1]) && IsStep(ws[1], es[1], ws[2]) && IsStep(ws[2], es[2], ws[3])
  {
    hide AppUpload, Attempt, PushAll, DownloadSurface;
    var ws, es := CopyWorlds(local), CopyEvents();
    assert ws[1].surfaces == ws[0].surfaces[0 := NewSurface(false, false, [0])];
    assert ws[1].ids.active + {1} == {0, 1};
  }

  lemma CopyIsRun(local: bool)
    ensures IsRun(CopyWorlds(local), CopyEvents())
  {
    CopyCreates(local);
    var ws, es := CopyWorlds(local), CopyEvents();
    assert GoodEnvs(ws[3], [0, 1], [Env(None, [0], 7), Env(None, [0], 7)]);
    assert IsStep(ws[3], es[3], ws[4]);
    assert IsStep(ws[4], es[4], ws[5]);
  }

  lemma CopyEnds(local: bool)
    ensures 1 in CopyWorlds(local)[5].surfaces
  {
    hide AllocSurface, PushSlot, UploadSurface, TableAfter, AttemptStatus;
  }

  lemma CopyDisciplined(local: bool)
    ensures Disciplined(CopyWorlds(local), CopyEvents()) && Settled(CopyEvents(), 5, 1)
  {
    hide PushAll, Attempt, DownloadSurface, Overlay, Inv, Abs;
    var ws, es := CopyWorlds(local), CopyEvents();
    assert Writes(es, 2) == 0 && Writes(es, 4) == 1;
    assert ws[2].surfaces[0].backing == [0];
    assert NextPushed(es[3], 1, PushedSince(es, 3, 1));
    assert PushedSince(es, 4, 1);
    assert NextSettled(es[4], 1, Settled(es, 4, 1));
  }

  function CopyInput(): Memory {
    map[0 := Cell(false, [5]), 1 := Cell(false, [0])]
  }

  lemma CopyWritten()
    ensures MemAfter(map[], CopyEvents(), 3) == CopyInput()
  {
    var es := CopyEvents();
    var mem := MemAfter(map[], es, 2);
    assert MemAfter(map[], es, 1) == map[0 := Cell(false, [0])];
    assert mem == map[0 := Cell(false, [0]), 1 := Cell(false, [0])];
    assert Overlay([0], [5]) == [5];
    assert MemStep(mem, es[2]) == mem[0 := Cell(false, [5])];
  }

  lemma CopyComputed()
    ensures var mem := RunKernel(CopyInput(), IdSet([0, 1]), CopyKernel());
            1 in mem && mem[1] == Cell(false, [5])
  {
    var mem := CopyInput();
    ComputedBytes(mem, [0, 1], CopyKernel());
    hide RunKernel, IdSet;
    var input := map t | t in [0, 1] && t in mem :: mem[t].content;
    assert 0 in [0, 1] && 0 in input && input[0] == [5];
    assert CopyKernel()(input)[1] == [5];
    assert 1 in [0, 1];
  }

  lemma CopyMemory()
    ensures var mem := MemAfter(map[], CopyEvents(), 5);
            1 in mem && mem[1] == Cell(false, [5])
  {
    var es := CopyEvents();
    CopyWritten();
    CopyComputed();
    assert es[3].ids == [0, 1] && es[3].kernel == CopyKernel() && es[3].enqueueOk && es[4].Fetch?;
    hide CopyEvents, CopyKernel, CopyInput, RunKernel, IdSet;
    assert MemAfter(map[], es, 4) == RunKernel(CopyInput(), IdSet([0, 1]), CopyKernel());
  }

  /** The application reads, from the surface that the kernel wrote, what it had written to the other one. */
  lemma CopyRun(local: bool)
    ensures var ws, es := CopyWorlds(local), CopyEvents();
            && IsRun(ws, es) && ws[0] == Start(local, 2, 2)
            && 1 in ws[5].surfaces && AppDownload(ws[5].surfaces[1], 1) == [5]
  {
    var ws, es := CopyWorlds(local), CopyEvents();
    CopyIsRun(local);
    CopyDisciplined(local);
    CopyEnds(local);
    CopyMemory();
    StartInv(local, 2, 2);
    hide CopyWorlds, CopyEvents, IsRun, Disciplined, Inv, Abs, MemAfter, Settled;
    DisciplinedIsCareful(ws, es, 5);
    SettledReads(ws, es, 5, 1);
    assert AppDownload(ws[5].surfaces[1], 1)[0] == 5;
  }

  // ---------------------------------------------------------------------
  // Uploads
  // ---------------------------------------------------------------------

  /** An event that neither writes a surface nor hands it to a kernel. */
  predicate Leaves(e: Event, id: nat) {
    match e
    case Create(i, _, _, _) => i != id
    case Write(i, _) => i != id
    case Destroy(i) => i != id
    case Launch(ids, _, _, enqueueOk) => id in ids ==> !enqueueOk
    case _ => true
  }

  lemma LeavesSettled(e: Event, id: nat)
    requires Leaves(e, id)
    ensures NextSettled(e, id, true)
  {}

  lemma LeavesSurface(w: World, e: Event, w': World, id: nat)
    requires Inv(w) && IsStep(w, e, w') && Leaves(e, id) && id in w.surfaces
    ensures id in w'.surfaces
  {
    if e.Launch? { LaunchKeeps(w, e, w'); }
  }

  lemma LeavesBacking(w: World, e: Event, w': World, id: nat)
    requires Inv(w) && IsStep(w, e, w') && Careful(w, e) && Leaves(e, id) && Reads(w, id)
    ensures id in w'.surfaces && w'.surfaces[id].backing == w.surfaces[id].backing
  {
    LeavesSurface(w, e, w', id);
    if e.Fetch? && e.id == id {
      FetchedReads(w, e, w');
      StepRefinesIff(w, e, w');
    } else if e.Launch? {
      UntouchedLaunch(w, e, w', id);
    } else {
      UntouchedBacking(w, e, w', id);
    }
  }

  /** While nothing writes a surface or computes on it, its backing stays what an upload made it, whatever else happens. */
  lemma {:induction false} BackingStays(ws: seq<World>, es: seq<Event>, m: nat, n: nat, id: nat)
    requires IsRun(ws, es) && Inv(ws[0]) && ws[0].surfaces == map[] && m < n <= |es| && CarefulUpTo(ws, es, n)
    requires es[m].Write? && es[m].id == id && forall i :: m < i < n ==> Leaves(es[i], id)
    ensures id in ws[m + 1].surfaces && id in ws[n].surfaces && ws[n].surfaces[id].backing == ws[m + 1].surfaces[id].backing
    ensures Settled(es, n, id)
  {
    hide Inv, Abs, IsStep, Careful, Leaves, Reads, Settled, NextSettled;
    if n == m + 1 {
      assert IsStep(ws[m], es[m], ws[n]);
      WrittenSurface(ws[m], es[m], ws[n]);
      WrittenSettled(es, n, id);
    } else {
      var k := n - 1;
      BackingStays(ws, es, m, k, id);
      BackingFollows(ws, es, k, id);
      RunRefinesIff(ws, es, k);
      assert Refines(ws, es, k) && Leaves(es[k], id) && Careful(ws[k], es[k]) && IsStep(ws[k], es[k], ws[k + 1]);
      LeavesBacking(ws[k], es[k], ws[n], id);
      NextIsSettled(es, n, id);
    }
  }

  lemma WrittenSurface(w: World, e: Event, w': World)
    requires IsStep(w, e, w') && e.Write?
    ensures e.id in w'.surfaces
  {}

  lemma WrittenSettled(es: seq<Event>, n: nat, id: nat)
    requires 0 < n <= |es| && es[n - 1].Write? && es[n - 1].id == id
    ensures Settled(es, n, id)
  {}

  lemma NextIsSettled(es: seq<Event>, n: nat, id: nat)
    requires 0 < n <= |es| && Settled(es, n - 1, id) && Leaves(es[n - 1], id)
    ensures Settled(es, n, id)
  {
    LeavesSettled(es[n - 1], id);
  }

  /**
   What an upload is read back as, later in any careful run in which no other upload
   and no kernel touched the surface: the uploaded bytes as far as the surface goes,
   and what was there before beyond them.  A full upload is read back whole.
   */
  lemma UploadReadsBack(ws: seq<World>, es: seq<Event>, m: nat, n: nat, id: nat, data: Bytes)
    requires IsRun(ws, es) && Inv(ws[0]) && ws[0].surfaces == map[] && m < n <= |es| && CarefulUpTo(ws, es, n)
    requires es[m] == Write(id, data) && forall i :: m < i < n ==> Leaves(es[i], id)
    ensures id in ws[m].surfaces && id in ws[n].surfaces
    ensures var before, after := ws[m].surfaces[id].backing, AppDownload(ws[n].surfaces[id], |ws[m].surfaces[id].backing|);
            && |after| == |before|
            && (forall i :: 0 <= i < |after| ==> after[i] == if i < |data| then data[i] else before[i])
            && (|data| >= |before| ==> AppDownload(ws[n].surfaces[id], |data|) == data[..|before|])
  {
    BackingStays(ws, es, m, n, id);
    assert IsStep(ws[m], es[m], ws[m + 1]);
    UploadedBytes(ws[m], id, data);
    DownloadedBytes(ws[n].surfaces[id], |ws[m].surfaces[id].backing|);
    DownloadedBytes(ws[n].surfaces[id], |data|);
    assert |data| >= |ws[m].surfaces[id].backing| ==>
      AppDownload(ws[n].surfaces[id], |data|) == data[..|ws[m].surfaces[id].backing|];
  }
}
