/**
 The client's code: surfaces, the context's residency and consistency bits, and
 compute operations (common/inc/vmaccel.hpp, common/inc/vmaccel_compute.hpp).
 Each method is proved against the functions of the consistency protocol.
 */
module Client {
  import opened Options
  import opened Words
  import opened IdentifierDb
  import opened IdentifierRuns
  import opened Backend
  import opened Consistency
  import opened ConsistencyRuns
  import opened ConsistencyEffects
  import opened Operations

  /** An accelerator with its identifiers, its surfaces, and the one context's backend. */
  class Accelerator {
    const local: bool
    const refObjects: IdentifierDB
    const server: Server
    var surfaces: map<nat, Surface>

    ghost function View(): World
      reads this, refObjects, server
    {
      World(local, refObjects.View(), surfaces, server.surfaces)
    }

    ghost predicate Valid()
      reads this, refObjects, refObjects.bits, server
    {
      refObjects.Valid() && refObjects.Roomy()
    }

    constructor (local: bool, maxRefObjects: nat, maxSurfaces: nat)
      requires maxRefObjects <= UINT - 32
      ensures Valid() && View() == Start(local, maxRefObjects, maxSurfaces) && Inv(View())
      ensures fresh(refObjects) && fresh(refObjects.bits) && fresh(server)
    {
      this.local := local;
      refObjects := new IdentifierDB(maxRefObjects);
      server := new Server(maxSurfaces);
      surfaces := map[];
      new;
      StartInv(local, maxRefObjects, maxSurfaces);
    }

    /** surface::surface; its backing starts out with whatever the memory held. */
    method CreateSurface(readonly: bool, system: bool, backing: Bytes) returns (r: AllocOutcome)
      requires Valid() && Inv(View()) && (system ==> local)
      modifies `surfaces, refObjects, refObjects.bits
      ensures Valid() && !r.Corrupted?
      ensures Inv(View()) <==> r.Exhausted? || r.id < |server.surfaces|
      ensures r.Allocated? ==> IsStep(old(View()), Create(r.id, readonly, system, backing), View())
      ensures r.Exhausted? ==> View() == old(View()) && View().ids.active == Span(0, View().ids.size)
    {
      ghost var before := View();
      r := refObjects.AllocId();
      CountedAlloc(before.ids, refObjects.View(), r);
      if r.Allocated? {
        surfaces := surfaces[r.id := NewSurface(readonly, system, backing)];
        CreateKeepsIff(before, Create(r.id, readonly, system, backing), View());
      }
    }

    /** surface::upload: only the whole surface can be written. */
    method Upload(id: nat, wholeRegion: bool, data: Bytes) returns (status: Status)
      requires Has(View(), id)
      modifies `surfaces
      ensures status == if wholeRegion then SUCCESS else FAIL
      ensures View() == if wholeRegion then AppUpload(old(View()), id, data) else old(View())
      ensures wholeRegion ==>
                var before, after := old(surfaces)[id].backing, surfaces[id].backing;
                && |after| == |before|
                && forall i :: 0 <= i < |after| ==> after[i] == if i < |data| then data[i] else before[i]
    {
      if !wholeRegion {
        return FAIL;
      }
      var s := surfaces[id];
      var n := Min(|s.backing|, |data|);
      s := s.(backing := data[..n] + s.backing[n..]);
      s := s.(consistent := false);
      s := s.(generation := (s.generation + 1) % UINT);
      surfaces := surfaces[id := s];
      return SUCCESS;
    }

    /** surface::download: only the whole surface can be read, into a buffer of `size` bytes. */
    method Download(id: nat, wholeRegion: bool, size: nat) returns (status: Status, out: Bytes)
      requires Has(View(), id)
      ensures status == if wholeRegion then SUCCESS else FAIL
      ensures wholeRegion ==>
                && |out| == (if size < |surfaces[id].backing| then size else |surfaces[id].backing|)
                && forall i :: 0 <= i < |out| ==> out[i] == surfaces[id].backing[i]
      ensures out == if wholeRegion then AppDownload(surfaces[id], size) else []
    {
      if !wholeRegion {
        return FAIL, [];
      }
      var s := surfaces[id];
      return SUCCESS, s.backing[..Min(|s.backing|, size)];
    }

    /** clcontext::alloc_surface */
    method AllocResident(id: nat, env: Env)
      requires Has(View(), id)
      modifies `surfaces, server`surfaces
      ensures View() == AllocSurface(old(View()), id, env)
    {
      var s := surfaces[id];
      if s.resident {
        return;
      }
      var _ := server.SurfaceAlloc(id, s.readonly, env.svmPtr, env.initial);
      surfaces := surfaces[id := s.(resident := true)];
    }

    /** clcontext::upload_surface, not forced */
    method UploadResident(id: nat, ptr: nat)
      requires Has(View(), id)
      modifies `surfaces, server`surfaces
      ensures View() == UploadSurface(old(View()), id, ptr)
    {
      var s := surfaces[id];
      if s.consistent {
        return;
      }
      if local {
        var status, mapped := server.SurfaceMap(id, s.generation, Some(ptr));
        if status == SUCCESS {
          server.SurfaceUnmap(id, s.generation, s.backing);
          surfaces := surfaces[id := s.(consistent := true)];
        } else {
          assert surfaces == surfaces[id := s];
        }
      } else {
        var _ := server.UploadImage(id, s.generation, s.backing);
        surfaces := surfaces[id := s.(consistent := true)];
      }
    }

    /** clcontext::download_surface, not forced and through a mapping */
    method DownloadResident(id: nat, ptr: nat)
      requires Has(View(), id)
      modifies `surfaces, server`surfaces
      ensures View() == DownloadSurface(old(View()), id, ptr)
    {
      var s := surfaces[id];
      if s.readonly {
        return;
      }
      var status, mapped := server.SurfaceMap(id, s.generation, Some(ptr));
      if status == SUCCESS {
        var content := server.surfaces[id].content;
        surfaces := surfaces[id := s.(backing := content)];
        server.SurfaceUnmap(id, s.generation, content);
      } else {
        assert surfaces == surfaces[id := s];
      }
    }

    /** clcontext::destroy_surface */
    method DestroyResident(id: nat)
      requires Has(View(), id) && (surfaces[id].resident ==> server.surfaces[id].active)
      modifies `surfaces, server`surfaces
      ensures surfaces == old(surfaces)[id := old(surfaces)[id].(resident := false)]
      ensures server.surfaces == if old(surfaces)[id].resident then old(server.surfaces)[id := VACANT] else old(server.surfaces)
    {
      var s := surfaces[id];
      if s.resident {
        server.SurfaceDestroy(id);
        surfaces := surfaces[id := s.(resident := false)];
      } else {
        assert surfaces == surfaces[id := s.(resident := false)];
      }
    }

    /** surface::~surface */
    method Destroy(id: nat)
      requires Valid() && Has(View(), id) && id < refObjects.size && id in refObjects.active
      requires surfaces[id].resident ==> server.surfaces[id].active
      modifies `surfaces, server`surfaces, refObjects, refObjects.bits
      ensures Valid()
      ensures View() == DestroySurface(old(View()), id)
    {
      ghost var before := View();
      DestroyResident(id);
      hide ActiveIn;
      refObjects.ReleaseId(id);
      RemoveUpdated(before.surfaces, id, surfaces[id]);
      surfaces := surfaces - {id};
    }
  }

  /** What the protocol's invariant gives to the caller of Destroy. */
  lemma DestroyableFacts(w: World, id: nat)
    requires Inv(w) && id in w.surfaces
    ensures id < w.ids.size && id in w.ids.active && Has(w, id)
    ensures w.surfaces[id].resident ==> w.table[id].active
  {
    assert InStep(w.surfaces[id], w.table[id]);
  }

  lemma RemoveUpdated(surfaces: map<nat, Surface>, id: nat, s: Surface)
    ensures surfaces[id := s] - {id} == surfaces - {id}
  {}

  /** A compute operation bound to surfaces of one accelerator. */
  class Operation {
    const accel: Accelerator
    const bindings: seq<nat>
    const kernel: Kernel
    var prepared: bool
    var dispatched: bool
    var quiesced: bool

    ghost function State(): Flags
      reads this
    {
      Flags(prepared, dispatched, quiesced)
    }

    constructor (accel: Accelerator, bindings: seq<nat>, kernel: Kernel)
      ensures this.accel == accel && this.bindings == bindings && this.kernel == kernel
      ensures State() == Flags(false, false, false)
    {
      this.accel, this.bindings, this.kernel := accel, bindings, kernel;
      prepared, dispatched, quiesced := false, false, false;
    }

    method Prepare()
      modifies `prepared
      ensures IsCall(old(State()), PrepareCall, [], true, SUCCESS, State())
    {
      prepared := true;
    }

    /** The loop that makes every bound surface resident and pushes it. */
    method PrepareArgs(envs: seq<Env>)
      requires HasAll(accel.View(), bindings) && |envs| == |bindings|
      modifies accel`surfaces, accel.server`surfaces
      ensures accel.View() == PushAll(old(accel.View()), bindings, envs, |bindings|)
    {
      ghost var before := accel.View();
      for i := 0 to |bindings|
        invariant accel.View() == PushAll(before, bindings, envs, i)
      {
        assert Has(before, bindings[i]);
        accel.AllocResident(bindings[i], envs[i]);
        accel.UploadResident(bindings[i], envs[i].ptr);
      }
    }

    /** The retry loop. */
    method Attempts(enqueueOk: bool) returns (status: Status, ghost answers: seq<Status>)
      requires HasAll(accel.View(), bindings) && 0 < |bindings| < UINT
      modifies accel.server
      ensures IsAttempts(answers) && status == answers[|answers| - 1]
      ensures accel.server.enqueued == old(accel.server.enqueued) + Enqueues(answers)
      ensures status == AttemptStatus(old(accel.View()), bindings, enqueueOk)
      ensures accel.View() == Attempt(old(accel.View()), bindings, kernel, enqueueOk)
      ensures |answers| == if AwaitsUpload(old(accel.View()), bindings) then 100 else 1
    {
      ghost var before := accel.View();
      answers := [];
      var retryCount := 0;
      status := RESOURCE_UNAVAILABLE;
      while retryCount < RETRY_MAX_COUNT && status == RESOURCE_UNAVAILABLE
        invariant retryCount == |answers| <= RETRY_MAX_COUNT
        invariant forall i :: 0 <= i < |answers| ==> answers[i] == status
        invariant answers == [] ==> status == RESOURCE_UNAVAILABLE && accel.View() == before
        invariant answers != [] ==> status == AttemptStatus(before, bindings, enqueueOk)
        invariant answers != [] ==> accel.View() == Attempt(before, bindings, kernel, enqueueOk)
        invariant status != RESOURCE_UNAVAILABLE ==> |answers| == 1
        invariant accel.server.enqueued == old(accel.server.enqueued) + if status == SUCCESS then 1 else 0
      {
        status := AttemptOnce(enqueueOk);
        answers := answers + [status];
        retryCount := retryCount + 1;
      }
      AttemptsEnqueue(answers);
      AttemptRefusalIff(before, bindings, enqueueOk);
    }

    /** One attempt: the arguments carry the client's generations. */
    method AttemptOnce(enqueueOk: bool) returns (status: Status)
      requires HasAll(accel.View(), bindings) && 0 < |bindings| < UINT
      modifies accel.server
      ensures status == AttemptStatus(old(accel.View()), bindings, enqueueOk)
      ensures accel.View() == Attempt(old(accel.View()), bindings, kernel, enqueueOk)
      ensures accel.server.enqueued == old(accel.server.enqueued) + if status == SUCCESS then 1 else 0
    {
      hide TableAfter, DispatchStatus, LocksUpTo, UnlocksFrom, Stop;
      assert forall i :: 0 <= i < |bindings| ==> Has(accel.View(), bindings[i]);
      var args := Args(accel.surfaces, bindings);
      ArgsIds(accel.surfaces, bindings);
      status := accel.server.Dispatch(args, kernel, enqueueOk);
    }

    /** operation::dispatch, not forced. */
    method Dispatch(envs: seq<Env>, enqueueOk: bool) returns (status: Status, ghost answers: seq<Status>)
      requires HasAll(accel.View(), bindings) && 0 < |bindings| < UINT && |envs| == |bindings|
      modifies this, accel`surfaces, accel.server
      ensures IsDispatch(old(State()), answers, status, State())
      ensures accel.server.enqueued == old(accel.server.enqueued) + Enqueues(answers)
      ensures answers == [] ==> accel.View() == old(accel.View())
      ensures answers != [] ==>
                var mid := PushAll(old(accel.View()), bindings, envs, |bindings|);
                && status == AttemptStatus(mid, bindings, enqueueOk)
                && accel.View() == Attempt(mid, bindings, kernel, enqueueOk)
                && |answers| == if AwaitsUpload(mid, bindings) then 100 else 1
    {
      answers := [];
      if !prepared || dispatched {
        return FAIL, [];
      }
      PrepareArgs(envs);
      hide PushAll, Attempt, AttemptStatus, AwaitsUpload, Enqueues;
      status, answers := Attempts(enqueueOk);
      if status == SUCCESS {
        dispatched := true;
      }
    }

    /** operation::quiesce; `connected` says that the context has its client, or needs none. */
    method Quiesce(connected: bool, ptrs: seq<nat>) returns (status: Status)
      requires HasAll(accel.View(), bindings) && |ptrs| == |bindings|
      modifies this, accel`surfaces, accel.server`surfaces
      ensures IsQuiesce(old(State()), connected, status, State())
      ensures accel.View() ==
              if old(prepared) && old(dispatched) && !old(quiesced) && connected
              then DownloadAll(old(accel.View()), bindings, ptrs, |bindings|)
              else old(accel.View())
    {
      if quiesced {
        return SUCCESS;
      }
      if !prepared || !dispatched {
        return FAIL;
      }
      if !connected {
        return RESOURCE_UNAVAILABLE;
      }
      ghost var before := accel.View();
      for i := 0 to |bindings|
        invariant accel.View() == DownloadAll(before, bindings, ptrs, i)
        invariant State() == old(State())
      {
        assert Has(before, bindings[i]);
        accel.DownloadResident(bindings[i], ptrs[i]);
      }
      quiesced := true;
      return SUCCESS;
    }

    /** operation::finish */
    method Finish(envs: seq<Env>, enqueueOk: bool, connected: bool, ptrs: seq<nat>) returns (ghost answers: seq<Status>)
      requires HasAll(accel.View(), bindings) && 0 < |bindings| < UINT && |envs| == |bindings| == |ptrs|
      modifies this, accel`surfaces, accel.server
      ensures IsFinish(old(State()), answers, connected, State())
      ensures accel.server.enqueued == old(accel.server.enqueued) + Enqueues(answers)
      ensures !old(prepared) ==> accel.View() == old(accel.View())
      ensures old(prepared) && old(dispatched) ==>
                accel.View() ==
                if old(quiesced) || !connected then old(accel.View())
                else DownloadAll(old(accel.View()), bindings, ptrs, |bindings|)
      ensures old(prepared) && !old(dispatched) ==>
                var mid := PushAll(old(accel.View()), bindings, envs, |bindings|);
                var sent := Attempt(mid, bindings, kernel, enqueueOk);
                && HasAll(sent, bindings)
                && accel.View() ==
                   if AttemptStatus(mid, bindings, enqueueOk) == SUCCESS && !old(quiesced) && connected
                   then DownloadAll(sent, bindings, ptrs, |bindings|)
                   else sent
      ensures old(State()) == Flags(true, false, false) && connected && enqueueOk ==>
                Inv(old(accel.View())) && GoodEnvs(old(accel.View()), bindings, envs) ==>
                State() == Flags(true, true, true) && Delivered(Abs(old(accel.View())), bindings, kernel, accel.View())
    {
      hide PushAll, Attempt, AttemptStatus, AwaitsUpload, DownloadAll, Inv, Abs, GoodEnvs, Delivered;
      answers := [];
      ghost var before, flags := accel.View(), State();
      if prepared {
        var status, quiesceStatus := FAIL, FAIL;
        if !dispatched {
          status, answers := Dispatch(envs, enqueueOk);
          AttemptKeeps(before, bindings, envs, kernel, enqueueOk);
        }
        ghost var mid := State();
        if dispatched && !quiesced {
          quiesceStatus := Quiesce(connected, ptrs);
        }
        assert FinishesVia(old(State()), answers, connected, mid, status, quiesceStatus, State());
        if !flags.dispatched && enqueueOk && Inv(before) && GoodEnvs(before, bindings, envs) {
          FinishDelivers(before, bindings, envs, kernel, ptrs);
        }
      }
    }
  }

  lemma AttemptKeeps(w: World, ids: seq<nat>, envs: seq<Env>, kernel: Kernel, enqueueOk: bool)
    requires HasAll(w, ids) && |envs| == |ids|
    ensures HasAll(Attempt(PushAll(w, ids, envs, |ids|), ids, kernel, enqueueOk), ids)
  {}

  lemma ArgsIds(surfaces: map<nat, Surface>, ids: seq<nat>)
    requires forall i :: 0 <= i < |ids| ==> ids[i] in surfaces
    ensures ArgIds(Args(surfaces, ids)) == IdSet(ids)
  {
    var args := Args(surfaces, ids);
    forall id ensures id in ArgIds(args) <==> id in IdSet(ids) {
      if id in IdSet(ids) {
        var i :| 0 <= i < |ids| && ids[i] == id;
        assert args[i].sid == id;
      }
    }
  }
}
