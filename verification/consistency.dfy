/**
 The surface consistency protocol between the client (common/inc/vmaccel.hpp and
 common/inc/vmaccel_compute.hpp) and the backend's surface table.

 A surface has a backing buffer at the client and a copy at the backend.  The
 application writes and reads the backing; kernels work on the copy.  A bit per
 surface tells whether the copy is up to date, and a generation counter lets the
 backend refuse what comes out of order.  There is one context, since the
 backend's table is indexed by surface alone.
 */
module Consistency {
  import opened Options
  import opened Words
  import opened IdentifierDb
  import opened IdentifierRuns
  import opened Backend

  datatype Surface = Surface(
    readonly: bool,
    system: bool,        // lives in the system memory pool
    generation: nat,
    backing: Bytes,
    resident: bool,      // its bit in the context's residency database
    consistent: bool)    // the context's bit in its consistency database

  datatype World = World(local: bool, ids: Db, surfaces: map<nat, Surface>, table: seq<Slot>)

  /** What the device contributes when a surface becomes resident or is mapped. */
  datatype Env = Env(svmPtr: Option<nat>, initial: Bytes, ptr: nat)

  predicate Has(w: World, id: nat) {
    id in w.surfaces && id < |w.table|
  }

  function Update(w: World, id: nat, s: Surface, slot: Slot): World
    requires Has(w, id)
  {
    w.(surfaces := w.surfaces[id := s], table := w.table[id := slot])
  }

  // ---------------------------------------------------------------------
  // Calls
  // ---------------------------------------------------------------------

  /** `memcpy(to, from, MIN(width, size))` */
  function Overlay(to: Bytes, from: Bytes): Bytes {
    var n := Min(|to|, |from|);
    from[..n] + to[n..]
  }

  /** surface::upload of the whole region. */
  function Overwritten(s: Surface, data: Bytes): Surface {
    s.(backing := Overlay(s.backing, data), consistent := false, generation := (s.generation + 1) % UINT)
  }

  function AppUpload(w: World, id: nat, data: Bytes): World
    requires Has(w, id)
  {
    Update(w, id, Overwritten(w.surfaces[id], data), w.table[id])
  }

  function Prefix(content: Bytes, size: nat): Bytes {
    content[..Min(|content|, size)]
  }

  /** surface::download of the whole region into a buffer of `size` bytes. */
  function AppDownload(s: Surface, size: nat): Bytes {
    Prefix(s.backing, size)
  }

  /** clcontext::alloc_surface; the backend's status is not looked at. */
  function AllocSurface(w: World, id: nat, env: Env): World
    requires Has(w, id)
  {
    var s := w.surfaces[id];
    if s.resident then w
    else Update(w, id, s.(resident := true), AllocSlot(w.table[id], s.readonly, env.svmPtr, env.initial).0)
  }

  /** How a push reaches the backend: mapped on a local backend, as an image upload otherwise. */
  function PushSlot(local: bool, s: Surface, slot: Slot, ptr: nat): (Slot, Status) {
    if local then MapCopyUnmap(slot, s.generation, s.backing, ptr) else ImageUpload(slot, s.generation, s.backing)
  }

  /** clcontext::upload_surface, not forced.  After an image upload the bit is set whatever the status. */
  function UploadSurface(w: World, id: nat, ptr: nat): World
    requires Has(w, id)
  {
    var s := w.surfaces[id];
    if s.consistent then w
    else
      var (slot, status) := PushSlot(w.local, s, w.table[id], ptr);
      Update(w, id, s.(consistent := !w.local || status == SUCCESS), slot)
  }

  /** prepareComputeSurfaceArgs for one argument. */
  function PushSurface(w: World, id: nat, env: Env): World
    requires Has(w, id)
  {
    UploadSurface(AllocSurface(w, id, env), id, env.ptr)
  }

  /** clcontext::download_surface, not forced and through a mapping: read-only surfaces are skipped. */
  function DownloadSurface(w: World, id: nat, ptr: nat): World
    requires Has(w, id)
  {
    var s, slot := w.surfaces[id], w.table[id];
    if s.readonly then w
    else
      var (slot', status) := MapCopyUnmap(slot, s.generation, slot.content, ptr);
      Update(w, id, if status == SUCCESS then s.(backing := slot.content) else s, slot')
  }

  /** surface::~surface: the slot is cleared if the surface is resident, and the identifier is released. */
  function DestroySurface(w: World, id: nat): World
    requires Has(w, id)
  {
    w.(surfaces := w.surfaces - {id},
       table := if w.surfaces[id].resident then w.table[id := VACANT] else w.table,
       ids := w.ids.(active := w.ids.active - {id}, free := (w.ids.free + 1) % UINT))
  }

  ghost predicate HasAll(w: World, ids: seq<nat>) {
    forall i :: 0 <= i < |ids| ==> Has(w, ids[i])
  }

  /** The first n rounds of the loop of operation::dispatch that prepares the arguments. */
  ghost function PushAll(w: World, ids: seq<nat>, envs: seq<Env>, n: nat): (w': World)
    requires HasAll(w, ids) && n <= |ids| == |envs|
    ensures w'.surfaces.Keys == w.surfaces.Keys && |w'.table| == |w.table| && w'.ids == w.ids && w'.local == w.local
  {
    if n == 0 then w else PushSurface(PushAll(w, ids, envs, n - 1), ids[n - 1], envs[n - 1])
  }

  function Args(surfaces: map<nat, Surface>, ids: seq<nat>): seq<Arg>
    requires forall i :: 0 <= i < |ids| ==> ids[i] in surfaces
  {
    seq(|ids|, i requires 0 <= i < |ids| => SurfaceArg(ids[i], surfaces[ids[i]].generation, 0, true))
  }

  function IdSet(ids: seq<nat>): set<nat> {
    set i | 0 <= i < |ids| :: ids[i]
  }

  /** One attempt to hand the prepared operation to the backend. */
  function AttemptStatus(w: World, ids: seq<nat>, enqueueOk: bool): Status
    requires forall i :: 0 <= i < |ids| ==> ids[i] in w.surfaces
  {
    DispatchStatus(w.table, Args(w.surfaces, ids), enqueueOk)
  }

  function Attempt(w: World, ids: seq<nat>, kernel: Kernel, enqueueOk: bool): World
    requires forall i :: 0 <= i < |ids| ==> ids[i] in w.surfaces
  {
    if AttemptStatus(w, ids, enqueueOk) == SUCCESS then w.(table := TableAfter(w.table, IdSet(ids), kernel)) else w
  }

  /** The first n rounds of the loop of operation::quiesce. */
  ghost function DownloadAll(w: World, ids: seq<nat>, ptrs: seq<nat>, n: nat): (w': World)
    requires HasAll(w, ids) && n <= |ids| == |ptrs|
    ensures w'.surfaces.Keys == w.surfaces.Keys && |w'.table| == |w.table| && w'.ids == w.ids && w'.local == w.local
  {
    if n == 0 then w else DownloadSurface(DownloadAll(w, ids, ptrs, n - 1), ids[n - 1], ptrs[n - 1])
  }

  /**
   The bytes of an upload: it reaches the surface from its first byte on, as far as
   data and surface go, and changes nothing else; the copy is then out of date.
   */
  lemma UploadedBytes(w: World, id: nat, data: Bytes)
    requires Has(w, id)
    ensures var before, after := w.surfaces[id], AppUpload(w, id, data).surfaces[id];
            && |after.backing| == |before.backing|
            && (forall i :: 0 <= i < |after.backing| ==> after.backing[i] == if i < |data| then data[i] else before.backing[i])
            && after == before.(backing := after.backing, consistent := false, generation := after.generation)
            && after.generation == if before.generation % UINT == UINT - 1 then 0 else before.generation % UINT + 1
    ensures AppUpload(w, id, data) == w.(surfaces := w.surfaces[id := AppUpload(w, id, data).surfaces[id]])
  {
    assert w.table[id := w.table[id]] == w.table;
    NextGeneration(w.surfaces[id].generation);
  }

  lemma NextGeneration(g: nat)
    ensures (g + 1) % UINT == if g % UINT == UINT - 1 then 0 else g % UINT + 1
  {
    assert g == g / UINT * UINT + g % UINT;
  }

  /** The bytes of a download: the surface's first, as far as surface and buffer go. */
  lemma DownloadedBytes(s: Surface, size: nat)
    ensures |AppDownload(s, size)| == if size < |s.backing| then size else |s.backing|
    ensures forall i :: 0 <= i < |AppDownload(s, size)| ==> AppDownload(s, size)[i] == s.backing[i]
  {}

  /** The first argument whose copy is not of the generation that the client names. */
  ghost predicate FirstOutOfStep(w: World, ids: seq<nat>, k: nat)
    requires HasAll(w, ids)
  {
    && k < |ids| && w.table[ids[k]].generation != w.surfaces[ids[k]].generation
    && forall i :: 0 <= i < k ==> w.table[ids[i]].generation == w.surfaces[ids[i]].generation
  }

  /** An attempt that the client will repeat: the backend has yet to receive the upload of the first such argument. */
  ghost predicate AwaitsUpload(w: World, ids: seq<nat>)
    requires HasAll(w, ids)
  {
    exists k: nat :: FirstOutOfStep(w, ids, k) && w.surfaces[ids[k]].generation > w.table[ids[k]].generation
  }

  lemma AttemptRefusalIff(w: World, ids: seq<nat>, enqueueOk: bool)
    requires HasAll(w, ids)
    ensures AttemptStatus(w, ids, enqueueOk) == RESOURCE_UNAVAILABLE <==> AwaitsUpload(w, ids)
    ensures AttemptStatus(w, ids, enqueueOk) == SEMANTIC_ERROR <==>
            exists k: nat :: FirstOutOfStep(w, ids, k) && w.surfaces[ids[k]].generation < w.table[ids[k]].generation
  {
    var args := Args(w.surfaces, ids);
    forall i | 0 <= i < |args| ensures args[i].SurfaceArg? && args[i].sid < |w.table| && args[i].settable {
      assert Has(w, ids[i]);
    }
    RefusalIff(w.table, args, enqueueOk);
    forall k: nat ensures FirstToDiffer(w.table, args, k) <==> FirstOutOfStep(w, ids, k) {
      assert forall i :: 0 <= i < |ids| ==> args[i] == SurfaceArg(ids[i], w.surfaces[ids[i]].generation, 0, true);
    }
  }

  // ---------------------------------------------------------------------
  // The invariant and the one memory
  // ---------------------------------------------------------------------

  /** The client's surface and the backend's slot agree. */
  ghost predicate InStep(s: Surface, slot: Slot) {
    && s.generation < UINT
    && Unmapped(slot)
    && slot.generation <= s.generation
    && (s.consistent ==> s.resident && slot.generation == s.generation)
    && (s.resident ==> slot.active && slot.readonly == s.readonly && |slot.content| == |s.backing| && (slot.svmPtr.Some? ==> s.system))
    && (!s.resident ==> slot == VACANT)
    && (s.readonly && s.consistent ==> slot.content == s.backing)
  }

  ghost predicate Inv(w: World) {
    && Counted(w.ids)
    && w.surfaces.Keys <= w.ids.active
    && (forall id :: id in w.surfaces ==> id < |w.table| && InStep(w.surfaces[id], w.table[id]) && (w.surfaces[id].system ==> w.local))
    && (forall i :: 0 <= i < |w.table| && i !in w.surfaces ==> w.table[i] == VACANT)
  }

  /** The content a surface stands for: the copy if it is up to date, and otherwise the backing. */
  function CellFor(s: Surface, slot: Slot): Cell {
    Cell(s.readonly, if s.consistent then slot.content else s.backing)
  }

  type Memory = map<nat, Cell>

  /** The one memory that client and backend stand for. */
  function Abs(w: World): Memory {
    map id | id in w.surfaces && id < |w.table| :: CellFor(w.surfaces[id], w.table[id])
  }

  lemma InvFacts(w: World)
    requires Inv(w)
    ensures forall id :: id in w.surfaces ==> Has(w, id) && InStep(w.surfaces[id], w.table[id]) && (w.surfaces[id].system ==> w.local)
    ensures Abs(w).Keys == w.surfaces.Keys
  {
    assert forall id :: id in w.surfaces ==> id in Abs(w);
  }

  lemma UpdateInvIff(w: World, id: nat, s: Surface, slot: Slot)
    requires Inv(w) && id in w.surfaces && s.system == w.surfaces[id].system
    ensures Inv(Update(w, id, s, slot)) <==> InStep(s, slot)
  {
    hide InStep, Counted;
    var w' := Update(w, id, s, slot);
    assert w'.surfaces.Keys == w.surfaces.Keys && w'.surfaces[id] == s && w'.table[id] == slot;
    if InStep(s, slot) {
      forall i | i in w'.surfaces ensures InStep(w'.surfaces[i], w'.table[i]) {
        if i != id { assert w'.surfaces[i] == w.surfaces[i] && w'.table[i] == w.table[i]; }
      }
    }
    assert Inv(w') ==> InStep(w'.surfaces[id], w'.table[id]);
  }

  lemma UpdateAbs(w: World, id: nat, s: Surface, slot: Slot)
    requires Inv(w) && id in w.surfaces
    ensures Abs(Update(w, id, s, slot)) == Abs(w)[id := CellFor(s, slot)]
  {}

  lemma SameCell(w: World, id: nat, s: Surface, slot: Slot)
    requires Inv(w) && id in w.surfaces && CellFor(s, slot) == CellFor(w.surfaces[id], w.table[id])
    ensures Abs(Update(w, id, s, slot)) == Abs(w)
  {
    UpdateAbs(w, id, s, slot);
  }

  // ---------------------------------------------------------------------
  // Application uploads
  // ---------------------------------------------------------------------

  /** Clearing the bits of all contexts: the range release from 0 clears every bit of the database. */
  lemma UploadClearsAllBits(active: set<nat>, maxRefObjects: nat)
    requires 0 < maxRefObjects && active <= Span(0, maxRefObjects)
    ensures active - Touched(0, maxRefObjects - 1) == {}
  {
    TouchedExactly(0, maxRefObjects - 1);
  }

  /** An upload that neither wraps the generation nor comes after a push keeps the order of generations. */
  ghost predicate KeepsOrder(s: Surface, slot: Slot) {
    s.generation < UINT - 1 || slot.generation == 0
  }

  /** The part of the surface that the upload does not reach is the same at the client and in the memory. */
  ghost predicate KeepsTail(s: Surface, slot: Slot, data: Bytes)
    requires InStep(s, slot)
  {
    var n := Min(|s.backing|, |data|);
    s.backing[n..] == CellFor(s, slot).content[n..]
  }

  lemma OverwrittenInStepIff(s: Surface, slot: Slot, data: Bytes)
    requires InStep(s, slot)
    ensures InStep(Overwritten(s, data), slot) <==> KeepsOrder(s, slot)
  {
    assert (s.generation + 1) % UINT == if s.generation < UINT - 1 then s.generation + 1 else 0;
  }

  lemma OverlayAgreeIff(a: Bytes, b: Bytes, data: Bytes)
    requires |a| == |b|
    ensures Overlay(a, data) == Overlay(b, data) <==> a[Min(|a|, |data|)..] == b[Min(|a|, |data|)..]
  {
    var n := Min(|a|, |data|);
    assert Overlay(a, data)[n..] == a[n..];
    assert Overlay(b, data)[n..] == b[n..];
  }

  /**
   An application upload keeps client and backend in step, and writes the one
   memory, if and only if it keeps the order of generations and the part it leaves
   alone agrees.
   */
  lemma UploadRefinesIff(w: World, id: nat, data: Bytes)
    requires Inv(w) && id in w.surfaces && InStep(w.surfaces[id], w.table[id])
    ensures var s, slot, w', mem := w.surfaces[id], w.table[id], AppUpload(w, id, data), Abs(w);
            && (Inv(w') <==> KeepsOrder(s, slot))
            && id in mem
            && (Abs(w') == mem[id := mem[id].(content := Overlay(mem[id].content, data))] <==> KeepsTail(s, slot, data))
  {
    var s, slot := w.surfaces[id], w.table[id];
    InvFacts(w);
    assert Abs(w)[id] == CellFor(s, slot);
    UploadInvIff(w, id, data);
    UploadAbs(w, id, data);
    OverlayAgreeIff(s.backing, CellFor(s, slot).content, data);
    MapUpdateIff(Abs(w), id, Cell(s.readonly, Overlay(s.backing, data)), Cell(s.readonly, Overlay(CellFor(s, slot).content, data)));
  }

  lemma UploadInvIff(w: World, id: nat, data: Bytes)
    requires Inv(w) && Has(w, id)
    ensures Inv(AppUpload(w, id, data)) <==> KeepsOrder(w.surfaces[id], w.table[id])
  {
    OverwrittenInStepIff(w.surfaces[id], w.table[id], data);
    UpdateInvIff(w, id, Overwritten(w.surfaces[id], data), w.table[id]);
  }

  lemma UploadAbs(w: World, id: nat, data: Bytes)
    requires Inv(w) && Has(w, id)
    ensures Abs(AppUpload(w, id, data)) == Abs(w)[id := Cell(w.surfaces[id].readonly, Overlay(w.surfaces[id].backing, data))]
  {
    UpdateAbs(w, id, Overwritten(w.surfaces[id], data), w.table[id]);
  }

  lemma MapUpdateIff(m: Memory, id: nat, a: Cell, b: Cell)
    ensures m[id := a] == m[id := b] <==> a == b
  {
    assert m[id := a][id] == a && m[id := b][id] == b;
  }

  /** After a wrap the backend refuses the new content, and on a remote backend the surface is marked consistent all the same. */
  lemma WrappedPushIsRefused(w: World, id: nat, data: Bytes, ptr: nat)
    requires Inv(w) && Has(w, id) && w.surfaces[id].consistent && w.surfaces[id].generation == UINT - 1
    ensures var w1 := AppUpload(w, id, data);
            && PushSlot(w.local, w1.surfaces[id], w1.table[id], ptr).1 == SEMANTIC_ERROR
            && UploadSurface(w1, id, ptr).table[id].content == w.table[id].content
            && UploadSurface(w1, id, ptr).surfaces[id].consistent == !w.local
  {
    var w1 := AppUpload(w, id, data);
    MapCopyUnmapIsUpload(w1.table[id], w1.surfaces[id].generation, w1.surfaces[id].backing, ptr);
  }

  // ---------------------------------------------------------------------
  // Pushes
  // ---------------------------------------------------------------------

  /** A device that creates buffers of the right size, in shared memory only for system surfaces. */
  ghost predicate GoodEnv(s: Surface, env: Env) {
    |env.initial| == |s.backing| && (env.svmPtr.Some? ==> s.system)
  }

  lemma AllocInStep(s: Surface, slot: Slot, env: Env)
    requires InStep(s, slot) && !s.resident && GoodEnv(s, env)
    ensures AllocSlot(slot, s.readonly, env.svmPtr, env.initial).1 == SUCCESS
    ensures InStep(s.(resident := true), AllocSlot(slot, s.readonly, env.svmPtr, env.initial).0)
  {}

  lemma AllocKeeps(w: World, id: nat, env: Env)
    requires Inv(w) && Has(w, id) && GoodEnv(w.surfaces[id], env)
    ensures var w' := AllocSurface(w, id, env);
            && Inv(w') && Abs(w') == Abs(w)
            && Has(w', id) && w'.surfaces[id] == w.surfaces[id].(resident := true)
            && w'.local == w.local
  {
    var s, slot := w.surfaces[id], w.table[id];
    InvFacts(w);
    hide Inv, Abs;
    if s.resident {
      assert s == s.(resident := true);
    } else {
      var slot' := AllocSlot(slot, s.readonly, env.svmPtr, env.initial).0;
      AllocInStep(s, slot, env);
      UpdateInvIff(w, id, s.(resident := true), slot');
      SameCell(w, id, s.(resident := true), slot');
    }
  }

  /** The slot of a surface that becomes resident: the surface's own access, and the memory and address that the device gave. */
  lemma ResidentSlot(w: World, id: nat, env: Env)
    requires Inv(w) && Has(w, id) && !w.surfaces[id].resident
    ensures var w' := AllocSurface(w, id, env);
            && w'.table == w.table[id := Slot(true, w.surfaces[id].readonly, env.svmPtr, 0, env.initial, 0, None)]
            && w'.surfaces == w.surfaces[id := w.surfaces[id].(resident := true)]
  {
    assert InStep(w.surfaces[id], w.table[id]);
  }

  /** A push is never refused, and leaves copy and backing equal. */
  lemma PushAccepted(local: bool, s: Surface, slot: Slot, ptr: nat)
    requires InStep(s, slot) && s.resident && (s.system ==> local)
    ensures PushSlot(local, s, slot, ptr) == (slot.(generation := s.generation, content := s.backing), SUCCESS)
    ensures InStep(s.(consistent := true), PushSlot(local, s, slot, ptr).0)
  {
    MapCopyUnmapIsUpload(slot, s.generation, s.backing, ptr);
  }

  /** A lazy push leaves the one memory unchanged and the surface consistent. */
  lemma UploadSurfaceKeeps(w: World, id: nat, ptr: nat)
    requires Inv(w) && Has(w, id) && w.surfaces[id].resident
    ensures var w' := UploadSurface(w, id, ptr);
            && Inv(w') && Abs(w') == Abs(w)
            && Has(w', id) && w'.surfaces[id] == w.surfaces[id].(consistent := true)
  {
    var s, slot := w.surfaces[id], w.table[id];
    InvFacts(w);
    hide Inv, Abs, PushSlot;
    if s.consistent {
      assert s == s.(consistent := true);
    } else {
      PushAccepted(w.local, s, slot, ptr);
      var slot' := PushSlot(w.local, s, slot, ptr).0;
      UpdateInvIff(w, id, s.(consistent := true), slot');
      SameCell(w, id, s.(consistent := true), slot');
    }
  }

  /** What a push changes: two bits of one surface, and its slot. */
  ghost predicate Pushed(w: World, w': World, id: nat) {
    && Has(w, id) && Has(w', id)
    && w' == Update(w, id, w.surfaces[id].(resident := true, consistent := true), w'.table[id])
  }

  lemma PushKeeps(w: World, id: nat, env: Env)
    requires Inv(w) && Has(w, id) && GoodEnv(w.surfaces[id], env)
    ensures var w' := PushSurface(w, id, env);
            Inv(w') && Abs(w') == Abs(w) && Pushed(w, w', id)
  {
    hide Inv, Abs;
    var w1 := AllocSurface(w, id, env);
    AllocKeeps(w, id, env);
    UploadSurfaceKeeps(w1, id, env.ptr);
    var w' := UploadSurface(w1, id, env.ptr);
    var s' := w.surfaces[id].(resident := true, consistent := true);
    assert w'.surfaces == w.surfaces[id := s'];
    assert w'.table == w.table[id := w'.table[id]];
  }

  ghost predicate GoodEnvs(w: World, ids: seq<nat>, envs: seq<Env>) {
    && HasAll(w, ids) && |envs| == |ids|
    && forall i :: 0 <= i < |ids| ==> GoodEnv(w.surfaces[ids[i]], envs[i])
  }

  /** The surfaces after some were pushed: the given ones are resident and consistent, and nothing else changed. */
  ghost predicate PushedSet(before: map<nat, Surface>, after: map<nat, Surface>, ids: set<nat>) {
    && after.Keys == before.Keys
    && forall i :: i in before ==>
         after[i] == if i in ids then before[i].(resident := true, consistent := true) else before[i]
  }

  lemma {:induction false} PushAllKeeps(w: World, ids: seq<nat>, envs: seq<Env>, n: nat)
    requires Inv(w) && GoodEnvs(w, ids, envs) && n <= |ids|
    ensures var w' := PushAll(w, ids, envs, n);
            Inv(w') && Abs(w') == Abs(w) && PushedSet(w.surfaces, w'.surfaces, IdSet(ids[..n]))
  {
    hide Inv, Abs, PushSurface;
    if n > 0 {
      PushAllKeeps(w, ids, envs, n - 1);
      var mid := PushAll(w, ids, envs, n - 1);
      PushKeeps(mid, ids[n - 1], envs[n - 1]);
      IdSetGrows(ids, n);
    }
  }

  lemma IdSetGrows(ids: seq<nat>, n: nat)
    requires 0 < n <= |ids|
    ensures IdSet(ids[..n]) == IdSet(ids[..n - 1]) + {ids[n - 1]}
  {
    assert ids[..n][n - 1] == ids[n - 1];
    assert ids[..n - 1] == ids[..n][..n - 1];
  }

  // ---------------------------------------------------------------------
  // Dispatches
  // ---------------------------------------------------------------------

  ghost predicate AllConsistent(w: World, ids: seq<nat>) {
    forall i :: 0 <= i < |ids| ==> ids[i] in w.surfaces && w.surfaces[ids[i]].consistent
  }

  /** Arguments that were pushed are accepted on the first attempt. */
  lemma AttemptAccepted(w: World, ids: seq<nat>, enqueueOk: bool)
    requires Inv(w) && AllConsistent(w, ids)
    ensures AttemptStatus(w, ids, enqueueOk) == if enqueueOk then SUCCESS else FAIL
  {
    var args := Args(w.surfaces, ids);
    DispatchSucceedsIff(w.table, args, true);
    InvFacts(w);
    hide Inv;
    forall i | 0 <= i < |args|
      ensures args[i].SurfaceArg? && args[i].sid < |w.table| && args[i].settable && w.table[args[i].sid].generation == args[i].gen
    {
      assert InStep(w.surfaces[ids[i]], w.table[ids[i]]);
    }
  }

  /** What a kernel leaves of the table: contents of the same size, and only where it may write. */
  ghost predicate ContentsChanged(table: seq<Slot>, table': seq<Slot>, args: set<nat>) {
    && |table'| == |table|
    && forall i :: 0 <= i < |table| ==>
         && table'[i] == table[i].(content := table'[i].content)
         && |table'[i].content| == |table[i].content|
         && (table[i].readonly || i !in args ==> table'[i] == table[i])
  }

  lemma KernelChanges(table: seq<Slot>, args: set<nat>, kernel: Kernel)
    ensures ContentsChanged(table, TableAfter(table, args, kernel), args)
  {}

  lemma KernelInStep(s: Surface, slot: Slot, slot': Slot, written: bool)
    requires InStep(s, slot) && (written ==> s.consistent)
    requires slot' == slot.(content := slot'.content) && |slot'.content| == |slot.content|
    requires slot.readonly || !written ==> slot' == slot
    ensures InStep(s, slot')
  {}

  lemma KernelKeepsInv(w: World, table': seq<Slot>, args: set<nat>)
    requires Inv(w) && ContentsChanged(w.table, table', args)
    requires forall i :: i in args ==> i in w.surfaces && w.surfaces[i].consistent
    ensures Inv(w.(table := table'))
  {
    hide InStep, Counted;
    forall id | id in w.surfaces ensures InStep(w.surfaces[id], table'[id]) {
      KernelInStep(w.surfaces[id], w.table[id], table'[id], id in args);
    }
  }

  lemma SameKernelInput(w: World, args: set<nat>)
    requires Inv(w) && forall i :: i in args ==> i in w.surfaces && w.surfaces[i].consistent
    ensures KernelInput(Cells(w.table), args) == KernelInput(Abs(w), args)
  {
    InvFacts(w);
  }

  lemma KernelCell(s: Surface, slot: Slot, id: nat, out: map<nat, Bytes>)
    requires InStep(s, slot) && s.consistent
    ensures CellFor(s, slot.(content := Written(CellOf(slot), id, out).content)) == Written(CellFor(s, slot), id, out)
  {}

  /** Running a kernel on the copies of consistent surfaces is running it on the one memory. */
  lemma KernelRefines(w: World, args: set<nat>, kernel: Kernel)
    requires Inv(w) && forall i :: i in args ==> i in w.surfaces && w.surfaces[i].consistent
    ensures Abs(w.(table := TableAfter(w.table, args, kernel))) == RunKernel(Abs(w), args, kernel)
  {
    SameKernelInput(w, args);
    InvFacts(w);
    hide Inv, InStep, KernelInput, CellFor, Written;
    var w', mem := w.(table := TableAfter(w.table, args, kernel)), RunKernel(Abs(w), args, kernel);
    var out := kernel(KernelInput(Abs(w), args));
    forall id | id in w.surfaces ensures id in Abs(w') && id in mem && Abs(w')[id] == mem[id] {
      if id in args { KernelCell(w.surfaces[id], w.table[id], id, out); }
    }
    assert Abs(w').Keys == w.surfaces.Keys == mem.Keys;
  }

  /** A dispatch applies the kernel to the one memory. */
  lemma AttemptRefines(w: World, ids: seq<nat>, kernel: Kernel, enqueueOk: bool)
    requires Inv(w) && AllConsistent(w, ids)
    ensures var w' := Attempt(w, ids, kernel, enqueueOk);
            && Inv(w') && w'.surfaces == w.surfaces && w'.local == w.local
            && Abs(w') == if enqueueOk then RunKernel(Abs(w), IdSet(ids), kernel) else Abs(w)
  {
    AttemptAccepted(w, ids, enqueueOk);
    hide Inv, Abs, InStep, TableAfter, RunKernel, AttemptStatus, ContentsChanged;
    if enqueueOk {
      KernelChanges(w.table, IdSet(ids), kernel);
      KernelKeepsInv(w, TableAfter(w.table, IdSet(ids), kernel), IdSet(ids));
      KernelRefines(w, IdSet(ids), kernel);
    }
  }

  // ---------------------------------------------------------------------
  // Downloads
  // ---------------------------------------------------------------------

  lemma DownloadInStep(s: Surface, slot: Slot, ptr: nat)
    requires InStep(s, slot) && s.resident && !s.readonly
    ensures MapCopyUnmap(slot, s.generation, slot.content, ptr) == (slot.(generation := s.generation), SUCCESS)
    ensures InStep(s.(backing := slot.content), slot.(generation := s.generation))
  {
    MapCopyUnmapIsUpload(slot, s.generation, slot.content, ptr);
  }

  /** Nothing is downloaded from a surface that is read-only or has no copy. */
  lemma DownloadSkips(w: World, id: nat, ptr: nat)
    requires Has(w, id) && InStep(w.surfaces[id], w.table[id]) && (w.surfaces[id].readonly || !w.surfaces[id].resident)
    ensures DownloadSurface(w, id, ptr) == w == Update(w, id, w.surfaces[id], w.table[id])
  {
    assert w == Update(w, id, w.surfaces[id], w.table[id]);
  }

  /** A download leaves the memory alone when there is nothing unpushed that it could overwrite, or no copy to overwrite it with. */
  ghost predicate NothingToLose(s: Surface, slot: Slot) {
    s.readonly || !s.resident || s.consistent || s.backing == slot.content
  }

  /**
   A download keeps client and backend in step.  It leaves the one memory unchanged
   if and only if the surface is read-only, or not resident, or its copy is up to
   date, or an unpushed upload wrote what the copy already had.
   */
  lemma DownloadRefinesIff(w: World, id: nat, ptr: nat)
    requires Inv(w) && Has(w, id)
    ensures var s, slot, w' := w.surfaces[id], w.table[id], DownloadSurface(w, id, ptr);
            && Inv(w')
            && (Abs(w') == Abs(w) <==> NothingToLose(s, slot))
            && Has(w', id) && w'.surfaces[id] == (if s.readonly || !s.resident then s else s.(backing := slot.content))
            && w' == Update(w, id, w'.surfaces[id], w'.table[id])
  {
    var s, slot := w.surfaces[id], w.table[id];
    InvFacts(w);
    var w' := DownloadSurface(w, id, ptr);
    if s.readonly || !s.resident {
      DownloadSkips(w, id, ptr);
      hide Inv, Abs;
    } else {
      DownloadInStep(s, slot, ptr);
      var s', slot' := s.(backing := slot.content), slot.(generation := s.generation);
      UpdateInvIff(w, id, s', slot');
      UpdateAbs(w, id, s', slot');
      assert Abs(w)[id] == CellFor(s, slot);
      MapUpdateIff(Abs(w), id, CellFor(s', slot'), CellFor(s, slot));
      hide Inv, Abs;
      assert Abs(w)[id := CellFor(s, slot)] == Abs(w);
    }
  }

  /** After the download of a surface whose copy is up to date, its backing is what the one memory holds. */
  lemma DownloadedBacking(w: World, id: nat, ptr: nat)
    requires Inv(w) && Has(w, id) && w.surfaces[id].consistent
    ensures var w' := DownloadSurface(w, id, ptr);
            && Inv(w') && Abs(w') == Abs(w) && Has(w', id) && id in Abs(w)
            && w'.surfaces[id] == w.surfaces[id].(backing := Abs(w)[id].content)
            && w' == Update(w, id, w'.surfaces[id], w'.table[id])
  {
    InvFacts(w);
    assert InStep(w.surfaces[id], w.table[id]);
    assert Abs(w)[id] == CellFor(w.surfaces[id], w.table[id]);
    DownloadRefinesIff(w, id, ptr);
  }

  /** After quiescing pushed surfaces, the backing of each is what the one memory holds, and the memory has not changed. */
  lemma {:induction false} QuiescedBacking(w: World, ids: seq<nat>, ptrs: seq<nat>, n: nat)
    requires Inv(w) && HasAll(w, ids) && AllConsistent(w, ids) && n <= |ids| == |ptrs|
    ensures var w' := DownloadAll(w, ids, ptrs, n);
            && Inv(w') && Abs(w') == Abs(w) && AllConsistent(w', ids)
            && forall i :: 0 <= i < n ==> ids[i] in w'.surfaces && ids[i] in Abs(w) && w'.surfaces[ids[i]].backing == Abs(w)[ids[i]].content
  {
    hide Inv, Abs, DownloadSurface;
    if n > 0 {
      QuiescedBacking(w, ids, ptrs, n - 1);
      var mid := DownloadAll(w, ids, ptrs, n - 1);
      DownloadedBacking(mid, ids[n - 1], ptrs[n - 1]);
      hide DownloadAll, HasAll;
      var w' := DownloadSurface(mid, ids[n - 1], ptrs[n - 1]);
      forall i | 0 <= i < n ensures ids[i] in w'.surfaces && ids[i] in Abs(w) && w'.surfaces[ids[i]].backing == Abs(w)[ids[i]].content {
        if i < n - 1 { assert mid.surfaces[ids[i]].backing == Abs(w)[ids[i]].content; }
      }
    }
  }
}
