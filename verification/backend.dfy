/**
 The surface table of the OpenCL backend, backends/vmwopencl/src/vmwopencl_ops.c.
 A slot holds one surface: its generation, its device content and its mapping.
 Device calls take effect at once and in order; the ones that can fail are
 parameters.
 */
module Backend {
  import opened Options
  import opened IdentifierDb

  type Bytes = seq<bv8>

  datatype Status = SUCCESS | FAIL | SEMANTIC_ERROR | RESOURCE_UNAVAILABLE

  datatype Slot = Slot(
    active: bool,
    readonly: bool,
    svmPtr: Option<nat>,     // shared virtual memory, for surfaces in system memory
    generation: nat,
    content: Bytes,
    refCount: nat,
    ptr: Option<nat>)        // where the surface is mapped

  /** What `calloc` and `memset` leave. */
  const VACANT: Slot := Slot(false, false, None, 0, [], 0, None)

  // ---------------------------------------------------------------------
  // Calls on one slot
  // ---------------------------------------------------------------------

  /** surfacealloc: neither the generation nor the mapped address is reset. */
  function AllocSlot(slot: Slot, readonly: bool, svmPtr: Option<nat>, initial: Bytes): (Slot, Status) {
    if slot.active then (slot, RESOURCE_UNAVAILABLE)
    else (slot.(active := true, readonly := readonly, svmPtr := svmPtr, content := initial, refCount := 0), SUCCESS)
  }

  /** A slot is handed out once: until it is destroyed another surface is turned away, and the slot does not change. */
  lemma AllocAnswers(slot: Slot, readonly: bool, svmPtr: Option<nat>, initial: Bytes)
    ensures slot.active ==> AllocSlot(slot, readonly, svmPtr, initial) == (slot, RESOURCE_UNAVAILABLE)
    ensures !slot.active ==>
              AllocSlot(slot, readonly, svmPtr, initial) ==
              (Slot(true, readonly, svmPtr, slot.generation, initial, 0, slot.ptr), SUCCESS)
  {}

  /** imageupload of a whole surface; it is not supported for shared virtual memory. */
  function ImageUpload(slot: Slot, gen: nat, data: Bytes): (Slot, Status) {
    if slot.generation > gen then (slot, SEMANTIC_ERROR)
    else if slot.svmPtr.Some? then (slot, FAIL)
    else (slot.(generation := gen, content := data), SUCCESS)
  }

  /** What an image upload answers; only one that is taken changes the slot, and then it holds the new content and its generation. */
  lemma UploadAnswers(slot: Slot, gen: nat, data: Bytes)
    ensures ImageUpload(slot, gen, data).1 == SEMANTIC_ERROR <==> gen < slot.generation
    ensures ImageUpload(slot, gen, data).1 == FAIL <==> slot.generation <= gen && slot.svmPtr.Some?
    ensures ImageUpload(slot, gen, data).1 == SUCCESS <==> slot.generation <= gen && slot.svmPtr.None?
    ensures ImageUpload(slot, gen, data).1 == SUCCESS ==>
              var after := ImageUpload(slot, gen, data).0;
              after.content == data && after.generation == gen && after == slot.(content := after.content, generation := after.generation)
    ensures ImageUpload(slot, gen, data).1 != SUCCESS ==> ImageUpload(slot, gen, data).0 == slot
  {}

  /**
   surfacemap; `device` is what mapping the buffer on the device yields.  A slot that
   holds no buffer, as a vacant one, fails an assertion; past it, the answer is FAIL.
   */
  function MapSlot(slot: Slot, gen: nat, device: Option<nat>): (Slot, Status, Option<nat>) {
    if slot.generation > gen then (slot, SEMANTIC_ERROR, None)
    else if !slot.active then (slot, FAIL, None)
    else
      var counted := slot.(refCount := (slot.refCount + 1) % UINT);
      var ptr :=
        if counted.refCount != 1 then slot.ptr
        else if slot.svmPtr.Some? then slot.svmPtr
        else device;
      if counted.refCount == 1 && ptr.None? then (counted, FAIL, None)
      else (counted.(ptr := ptr), SUCCESS, ptr)
  }

  /** surfaceunmap stores the generation without looking at it. */
  function UnmapSlot(slot: Slot, gen: nat, data: Bytes): Slot {
    var count := (slot.refCount - 1) % UINT;
    slot.(content := data, refCount := count, ptr := if count == 0 then None else slot.ptr, generation := gen)
  }

  /** The device is told to unmap when the last mapping of a buffer goes. */
  predicate UnmapsDevice(slot: Slot) {
    slot.refCount == 1 && slot.svmPtr.None?
  }

  /**
   What a map answers: a caller behind the slot is out of order; the first map of a
   surface yields its shared memory if it has any and otherwise what the device
   gives, and fails if neither does; a later map yields the address there is.
   */
  lemma MapAnswers(slot: Slot, gen: nat, device: Option<nat>)
    ensures MapSlot(slot, gen, device).1 == SEMANTIC_ERROR <==> gen < slot.generation
    ensures slot.generation <= gen ==>
              (MapSlot(slot, gen, device).1 == FAIL <==>
               !slot.active || (slot.refCount % UINT == 0 && slot.svmPtr.None? && device.None?))
    ensures MapSlot(slot, gen, device).1 == SUCCESS && slot.refCount % UINT == 0 && slot.svmPtr.Some? ==>
              MapSlot(slot, gen, device).2 == slot.svmPtr
    ensures MapSlot(slot, gen, device).1 == SUCCESS && slot.refCount % UINT == 0 && slot.svmPtr.None? ==>
              MapSlot(slot, gen, device).2 == device
    ensures MapSlot(slot, gen, device).1 == SUCCESS && slot.refCount % UINT != 0 ==> MapSlot(slot, gen, device).2 == slot.ptr
    ensures MapSlot(slot, gen, device).1 == SUCCESS ==>
              MapSlot(slot, gen, device).0 == slot.(refCount := (slot.refCount + 1) % UINT, ptr := MapSlot(slot, gen, device).2)
  {
    FirstCount(slot.refCount);
  }

  /** The count becomes one exactly when it was zero. */
  lemma FirstCount(n: nat)
    ensures (n + 1) % UINT == 1 <==> n % UINT == 0
  {
    assert n == n / UINT * UINT + n % UINT;
    assert (n + 1) % UINT == if n % UINT == UINT - 1 then 0 else n % UINT + 1;
  }

  /** Map, copy, unmap, as one step. */
  function MapCopyUnmap(slot: Slot, gen: nat, data: Bytes, device: nat): (Slot, Status) {
    var (mapped, status, ptr) := MapSlot(slot, gen, Some(device));
    if status == SUCCESS then (UnmapSlot(mapped, gen, data), SUCCESS) else (mapped, status)
  }

  /** A slot that nobody has mapped. */
  predicate Unmapped(slot: Slot) {
    slot.refCount == 0 && slot.ptr.None?
  }

  /** On an unmapped surface, map-copy-unmap is an upload: same test, same outcome, and the surface is unmapped again. */
  lemma MapCopyUnmapIsUpload(slot: Slot, gen: nat, data: Bytes, device: nat)
    requires Unmapped(slot) && slot.active
    ensures slot.svmPtr.None? ==> MapCopyUnmap(slot, gen, data, device) == ImageUpload(slot, gen, data)
    ensures slot.generation <= gen ==>
              MapCopyUnmap(slot, gen, data, device) == (slot.(generation := gen, content := data), SUCCESS)
    ensures slot.generation > gen ==> MapCopyUnmap(slot, gen, data, device) == (slot, SEMANTIC_ERROR)
  {}

  // ---------------------------------------------------------------------
  // The order in which uploads are delivered does not matter
  // ---------------------------------------------------------------------

  /** A whole upload, as one image upload or as map, copy and unmap. */
  datatype Upload = Upload(gen: nat, data: Bytes, mapped: bool, device: nat)

  function Deliver(slot: Slot, u: Upload): Slot {
    if u.mapped then MapCopyUnmap(slot, u.gen, u.data, u.device).0 else ImageUpload(slot, u.gen, u.data).0
  }

  function DeliverAll(slot: Slot, us: seq<Upload>): Slot {
    if us == [] then slot else Deliver(DeliverAll(slot, us[..|us| - 1]), us[|us| - 1])
  }

  /** A surface that nobody holds mapped; shared virtual memory is written through a mapping. */
  ghost predicate Deliverable(slot: Slot, us: seq<Upload>) {
    slot.active && Unmapped(slot) && (slot.svmPtr.None? || forall i :: 0 <= i < |us| ==> us[i].mapped)
  }

  ghost predicate Distinct(us: seq<Upload>) {
    forall i, j :: 0 <= i < j < |us| ==> us[i].gen != us[j].gen
  }

  /** The generation and content that a set of uploads leaves on a slot, whatever their order. */
  ghost predicate Newest(slot: Slot, us: seq<Upload>, after: Slot) {
    && after == slot.(generation := after.generation, content := after.content)
    && slot.generation <= after.generation
    && (forall u :: u in us ==> u.gen <= after.generation)
    && ((after == slot && forall u :: u in us ==> u.gen < slot.generation)
        || exists u :: u in us && u.gen == after.generation && u.data == after.content)
  }

  lemma DeliverOne(slot: Slot, u: Upload)
    requires slot.active && Unmapped(slot) && (slot.svmPtr.None? || u.mapped)
    ensures Deliver(slot, u) == if slot.generation > u.gen then slot else slot.(generation := u.gen, content := u.data)
  {
    MapCopyUnmapIsUpload(slot, u.gen, u.data, u.device);
  }

  /** The slot ends with the content of the highest generation delivered. */
  lemma {:induction false} DeliverNewest(slot: Slot, us: seq<Upload>)
    requires Deliverable(slot, us)
    ensures Newest(slot, us, DeliverAll(slot, us))
  {
    hide Deliver;
    if us != [] {
      var front, last := us[..|us| - 1], us[|us| - 1];
      DeliverNewest(slot, front);
      var mid := DeliverAll(slot, front);
      DeliverOne(mid, last);
      assert us == front + [last];
      assert forall u :: u in us <==> u in front || u == last;
      assert last in us;
    }
  }

  /** With distinct generations, any two orders of the same uploads leave the same slot. */
  lemma OrderIndependent(slot: Slot, us: seq<Upload>, vs: seq<Upload>)
    requires Deliverable(slot, us) && Distinct(us) && multiset(us) == multiset(vs)
    ensures DeliverAll(slot, us) == DeliverAll(slot, vs)
  {
    hide Deliver;
    forall u: Upload ensures u in us <==> u in vs { assert u in us <==> u in multiset(us); }
    forall i | 0 <= i < |vs| ensures vs[i] in us { assert vs[i] in vs; }
    DeliverNewest(slot, us);
    DeliverNewest(slot, vs);
    NewestIsUnique(slot, us, vs, DeliverAll(slot, us), DeliverAll(slot, vs));
  }

  lemma NewestIsUnique(slot: Slot, us: seq<Upload>, vs: seq<Upload>, a: Slot, b: Slot)
    requires Distinct(us) && forall u :: u in us <==> u in vs
    requires Newest(slot, us, a) && Newest(slot, vs, b)
    ensures a == b
  {
    if u, v :| (u in us && u.gen == a.generation && u.data == a.content) && (v in us && v.gen == b.generation && v.data == b.content) {
      var i :| 0 <= i < |us| && us[i] == u;
      var j :| 0 <= j < |us| && us[j] == v;
      assert u.gen == v.gen;
    }
  }

  /** The stored generation never decreases while uploads are delivered. */
  lemma {:induction false} DeliverMonotone(slot: Slot, us: seq<Upload>, n: nat)
    requires Deliverable(slot, us) && n <= |us|
    ensures DeliverAll(slot, us[..n]).generation <= DeliverAll(slot, us).generation
    decreases |us| - n
  {
    hide Deliver;
    if n < |us| {
      assert us[..n + 1][..n] == us[..n];
      DeliverNewest(slot, us[..n]);
      DeliverOne(DeliverAll(slot, us[..n]), us[n]);
      DeliverMonotone(slot, us, n + 1);
    } else {
      assert us[..n] == us;
    }
  }

  // ---------------------------------------------------------------------
  // Mapping
  // ---------------------------------------------------------------------

  datatype MapCall = Map(gen: nat, device: Option<nat>) | Unmap(gen: nat, data: Bytes)

  ghost predicate IsMapStep(s: Slot, c: MapCall, ptr: Option<nat>, s': Slot) {
    match c
    case Map(gen, device) => MapSlot(s, gen, device) == (s', SUCCESS, ptr)
    case Unmap(gen, data) => ptr == None && s' == UnmapSlot(s, gen, data)
  }

  /** Slots, calls and returned addresses of a run of successful maps and matching unmaps. */
  ghost predicate IsMapRun(slots: seq<Slot>, calls: seq<MapCall>, ptrs: seq<Option<nat>>) {
    && |slots| == |calls| + 1 == |ptrs| + 1
    && Unmapped(slots[0])
    && (forall i :: 0 <= i < |calls| ==> IsMapStep(slots[i], calls[i], ptrs[i], slots[i + 1]))
    && (forall i :: 0 <= i < |calls| && calls[i].Unmap? ==> Outstanding(calls, i) > 0)
    && (forall i :: 0 <= i <= |calls| ==> Outstanding(calls, i) < UINT)
  }

  function Outstanding(calls: seq<MapCall>, n: nat): int
    requires n <= |calls|
  {
    if n == 0 then 0 else Outstanding(calls, n - 1) + if calls[n - 1].Map? then 1 else -1
  }

  /** The number of device map calls among the first n, and of device unmap calls. */
  function DeviceMaps(slots: seq<Slot>, calls: seq<MapCall>, n: nat): nat
    requires n <= |calls| <= |slots|
  {
    if n == 0 then 0
    else DeviceMaps(slots, calls, n - 1) +
         if calls[n - 1].Map? && slots[n - 1].refCount == 0 && slots[n - 1].svmPtr.None? then 1 else 0
  }

  function DeviceUnmaps(slots: seq<Slot>, calls: seq<MapCall>, n: nat): nat
    requires n <= |calls| <= |slots|
  {
    if n == 0 then 0
    else DeviceUnmaps(slots, calls, n - 1) + if calls[n - 1].Unmap? && UnmapsDevice(slots[n - 1]) then 1 else 0
  }

  /** What one map or unmap does to the count and the mapped address. */
  lemma MapStepFacts(s: Slot, c: MapCall, ptr: Option<nat>, s': Slot)
    requires IsMapStep(s, c, ptr, s') && (s.ptr.Some? <==> s.refCount > 0)
    requires if c.Map? then s.refCount + 1 < UINT else 0 < s.refCount < UINT
    ensures s'.refCount == if c.Map? then s.refCount + 1 else s.refCount - 1
    ensures s'.ptr.Some? <==> s'.refCount > 0
    ensures s'.svmPtr == s.svmPtr
    ensures c.Map? ==> ptr == s'.ptr
    ensures s.refCount > 0 && s'.refCount > 0 ==> s'.ptr == s.ptr
  {}

  /**
   Over every run of maps and matching unmaps: the count is the number of
   outstanding maps, the address is set exactly while the count is positive, and
   on the device a buffer is mapped once and unmapped once per epoch.
   */
  lemma {:induction false} MappingRun(slots: seq<Slot>, calls: seq<MapCall>, ptrs: seq<Option<nat>>, n: nat)
    requires IsMapRun(slots, calls, ptrs) && n < |slots|
    ensures slots[n].refCount == Outstanding(calls, n)
    ensures slots[n].ptr.Some? <==> slots[n].refCount > 0
    ensures slots[n].svmPtr == slots[0].svmPtr
    ensures DeviceMaps(slots, calls, n) ==
            DeviceUnmaps(slots, calls, n) + if slots[n].refCount > 0 && slots[n].svmPtr.None? then 1 else 0
  {
    if n > 0 {
      hide IsMapStep;
      MappingRun(slots, calls, ptrs, n - 1);
      assert IsMapStep(slots[n - 1], calls[n - 1], ptrs[n - 1], slots[n]);
      assert Outstanding(calls, n) < UINT && Outstanding(calls, n - 1) < UINT;
      MapStepFacts(slots[n - 1], calls[n - 1], ptrs[n - 1], slots[n]);
    }
  }

  lemma MapRunStep(slots: seq<Slot>, calls: seq<MapCall>, ptrs: seq<Option<nat>>, i: nat)
    requires IsMapRun(slots, calls, ptrs) && i < |calls|
    ensures calls[i].Map? ==> ptrs[i] == slots[i + 1].ptr && slots[i + 1].refCount > 0
    ensures slots[i].refCount > 0 && slots[i + 1].refCount > 0 ==> slots[i + 1].ptr == slots[i].ptr
  {
    hide IsMapStep;
    MappingRun(slots, calls, ptrs, i);
    assert IsMapStep(slots[i], calls[i], ptrs[i], slots[i + 1]);
    assert Outstanding(calls, i + 1) < UINT && Outstanding(calls, i) < UINT;
    MapStepFacts(slots[i], calls[i], ptrs[i], slots[i + 1]);
  }

  /** Overlapping mappers all get the same address. */
  lemma {:induction false} OverlappingMapsShare(slots: seq<Slot>, calls: seq<MapCall>, ptrs: seq<Option<nat>>, i: nat, j: nat)
    requires IsMapRun(slots, calls, ptrs) && i < j < |calls| && calls[i].Map? && calls[j].Map?
    requires forall k :: i < k <= j ==> slots[k].refCount > 0
    ensures ptrs[i].Some? && ptrs[j] == ptrs[i]
  {
    AddressStays(slots, calls, ptrs, i + 1, j);
    MappingRun(slots, calls, ptrs, i + 1);
    MapRunStep(slots, calls, ptrs, i);
    MapRunStep(slots, calls, ptrs, j);
  }

  lemma {:induction false} AddressStays(slots: seq<Slot>, calls: seq<MapCall>, ptrs: seq<Option<nat>>, a: nat, b: nat)
    requires IsMapRun(slots, calls, ptrs) && a <= b < |slots|
    requires forall k :: a <= k <= b ==> slots[k].refCount > 0
    ensures slots[b].ptr == slots[a].ptr
    decreases b
  {
    if a < b {
      AddressStays(slots, calls, ptrs, a, b - 1);
      MapRunStep(slots, calls, ptrs, b - 1);
    }
  }

  /** A map that fails on the device is still counted, and leaves no address. */
  lemma FailedMapIsCounted(gen: nat)
    ensures var (slot, status, ptr) := MapSlot(VACANT.(active := true), gen, None);
            status == FAIL && slot.refCount == 1 && slot.ptr == None
  {}

  /** A map that does not succeed leaves the slot as it was if and only if it is refused for its generation, or there is no buffer. */
  lemma FailedMapTracelessIff(slot: Slot, gen: nat, device: Option<nat>)
    requires MapSlot(slot, gen, device).1 != SUCCESS
    ensures MapSlot(slot, gen, device).0 == slot <==> gen < slot.generation || !slot.active
  {
    if gen >= slot.generation && slot.active {
      assert (slot.refCount + 1) % UINT != slot.refCount by {
        if slot.refCount < UINT - 1 { assert (slot.refCount + 1) % UINT == slot.refCount + 1; }
      }
    }
  }

  // ---------------------------------------------------------------------
  // Kernels
  // ---------------------------------------------------------------------

  /** What a kernel sees of a surface. */
  datatype Cell = Cell(readonly: bool, content: Bytes)

  /** A kernel computes new contents from the contents of its arguments. */
  type Kernel = map<nat, Bytes> -> map<nat, Bytes>

  function KernelInput(cells: map<nat, Cell>, args: set<nat>): map<nat, Bytes> {
    map s | s in args && s in cells :: cells[s].content
  }

  /** A kernel writes its arguments, keeps their sizes and cannot write a read-only buffer. */
  function Written(cell: Cell, s: nat, out: map<nat, Bytes>): Cell {
    if !cell.readonly && s in out && |out[s]| == |cell.content| then cell.(content := out[s]) else cell
  }

  function RunKernel(cells: map<nat, Cell>, args: set<nat>, kernel: Kernel): map<nat, Cell> {
    var out := kernel(KernelInput(cells, args));
    map s | s in cells :: if s in args then Written(cells[s], s, out) else cells[s]
  }

  function CellOf(slot: Slot): Cell {
    Cell(slot.readonly, slot.content)
  }

  function Cells(table: seq<Slot>): map<nat, Cell> {
    map s: nat | 0 <= s < |table| :: CellOf(table[s])
  }

  function TableAfter(table: seq<Slot>, args: set<nat>, kernel: Kernel): seq<Slot> {
    var out := kernel(KernelInput(Cells(table), args));
    seq(|table|, i requires 0 <= i < |table| =>
      if i in args then table[i].(content := Written(CellOf(table[i]), i, out).content) else table[i])
  }

  /**
   What a kernel leaves: of its arguments, those that are writable hold what it put
   out for them at their own size; everything else is as before.
   */
  lemma KernelWrites(cells: map<nat, Cell>, args: set<nat>, kernel: Kernel)
    ensures var out := kernel(map t | t in args && t in cells :: cells[t].content);
            && RunKernel(cells, args, kernel).Keys == cells.Keys
            && forall s :: s in cells ==>
                 RunKernel(cells, args, kernel)[s] ==
                 if s in args && !cells[s].readonly && s in out && |out[s]| == |cells[s].content|
                 then Cell(false, out[s])
                 else cells[s]
  {
    assert KernelInput(cells, args) == map t | t in args && t in cells :: cells[t].content;
  }

  /** On the backend's table a kernel changes contents only, and those as it does on cells. */
  lemma CellsAfter(table: seq<Slot>, args: set<nat>, kernel: Kernel)
    ensures Cells(TableAfter(table, args, kernel)) == RunKernel(Cells(table), args, kernel)
    ensures var out := kernel(map t: nat | t in args && t < |table| :: table[t].content);
            && |TableAfter(table, args, kernel)| == |table|
            && forall s: nat :: s < |table| ==>
                 TableAfter(table, args, kernel)[s] ==
                 if s in args && !table[s].readonly && s in out && |out[s]| == |table[s].content|
                 then table[s].(content := out[s])
                 else table[s]
  {
    assert KernelInput(Cells(table), args) == map t: nat | t in args && t < |table| :: table[t].content;
  }

  // ---------------------------------------------------------------------
  // Dispatch
  // ---------------------------------------------------------------------

  /** A kernel argument; `settable` says whether the device accepts it. */
  datatype Arg = SurfaceArg(sid: nat, gen: nat, inst: nat, settable: bool) | OtherArg

  datatype Mutex = SurfaceMutex(sid: nat) | InstanceMutex(sid: nat, inst: nat)

  datatype LockEvent = Lock(mutex: Mutex) | Unlock(mutex: Mutex)

  /** What one argument makes of the dispatch. */
  function ArgStatus(table: seq<Slot>, a: Arg): Status {
    if a.OtherArg? || a.sid >= |table| then FAIL
    else if table[a.sid].generation > a.gen then SEMANTIC_ERROR
    else if table[a.sid].generation < a.gen then RESOURCE_UNAVAILABLE
    else if !a.settable then FAIL
    else SUCCESS
  }

  /** The first argument, from i on, that stops the dispatch; the number of arguments if none does. */
  function Stop(table: seq<Slot>, args: seq<Arg>, i: nat): (k: nat)
    requires i <= |args|
    ensures i <= k <= |args|
    ensures forall j :: i <= j < k ==> ArgStatus(table, args[j]) == SUCCESS
    ensures k < |args| ==> ArgStatus(table, args[k]) != SUCCESS
    decreases |args| - i
  {
    if i == |args| || ArgStatus(table, args[i]) != SUCCESS then i else Stop(table, args, i + 1)
  }

  function Min(a: nat, b: nat): nat { if a < b then a else b }

  /** `MIN(argIndex, args_len - 1)`, compared as unsigned integers. */
  function CleanupFrom(argIndex: nat, len: nat): nat {
    Min(argIndex, (len - 1) % UINT)
  }

  /** The cleanup starts at an argument exactly when there is one: without arguments it would read past the list. */
  lemma CleanupStartsInside(argIndex: nat, len: nat)
    requires argIndex <= len < UINT
    ensures CleanupFrom(argIndex, len) < len <==> len > 0
    ensures len > 0 ==> CleanupFrom(argIndex, len) == if argIndex < len then argIndex else len - 1
  {}

  function LocksOf(a: Arg): seq<LockEvent> {
    if a.SurfaceArg? then [Lock(SurfaceMutex(a.sid)), Lock(InstanceMutex(a.sid, a.inst))] else []
  }

  function UnlocksOf(a: Arg): seq<LockEvent> {
    if a.SurfaceArg? then [Unlock(InstanceMutex(a.sid, a.inst)), Unlock(SurfaceMutex(a.sid))] else []
  }

  /** The lock calls for the first n arguments, in order, and the unlock calls for them, last argument first. */
  function LocksUpTo(args: seq<Arg>, n: nat): seq<LockEvent>
    requires n <= |args|
  {
    if n == 0 then [] else LocksUpTo(args, n - 1) + LocksOf(args[n - 1])
  }

  function UnlocksFrom(args: seq<Arg>, n: nat): seq<LockEvent>
    requires n <= |args|
  {
    if n == 0 then [] else UnlocksOf(args[n - 1]) + UnlocksFrom(args, n - 1)
  }

  function Depth(log: seq<LockEvent>, m: Mutex): int {
    if log == [] then 0
    else Depth(log[..|log| - 1], m) +
         match log[|log| - 1]
         case Lock(k) => if k == m then 1 else 0
         case Unlock(k) => if k == m then -1 else 0
  }

  lemma {:induction false} DepthConcat(a: seq<LockEvent>, b: seq<LockEvent>, m: Mutex)
    ensures Depth(a + b, m) == Depth(a, m) + Depth(b, m)
  {
    if b == [] {
      assert a + b == a;
    } else {
      assert (a + b)[..|a + b| - 1] == a + b[..|b| - 1];
      DepthConcat(a, b[..|b| - 1], m);
    }
  }

  lemma DepthPair(x: LockEvent, y: LockEvent, m: Mutex)
    ensures Depth([x, y], m) == Depth([x], m) + Depth([y], m)
  {
    assert [x, y] == [x] + [y];
    DepthConcat([x], [y], m);
  }

  lemma ArgBalances(a: Arg, m: Mutex)
    ensures Depth(LocksOf(a), m) + Depth(UnlocksOf(a), m) == 0
  {
    if a.SurfaceArg? {
      DepthPair(Lock(SurfaceMutex(a.sid)), Lock(InstanceMutex(a.sid, a.inst)), m);
      DepthPair(Unlock(InstanceMutex(a.sid, a.inst)), Unlock(SurfaceMutex(a.sid)), m);
    }
  }

  function Inverse(e: LockEvent): LockEvent {
    match e
    case Lock(m) => Unlock(m)
    case Unlock(m) => Lock(m)
  }

  /**
   Every lock is released, whichever argument stopped the dispatch and however
   often a surface occurs, and the releases are the locks in reverse order.
   */
  lemma {:induction false} DispatchBalances(args: seq<Arg>, n: nat)
    requires n <= |args|
    ensures |UnlocksFrom(args, n)| == |LocksUpTo(args, n)|
    ensures forall i :: 0 <= i < |LocksUpTo(args, n)| ==>
              UnlocksFrom(args, n)[i] == Inverse(LocksUpTo(args, n)[|LocksUpTo(args, n)| - 1 - i])
    ensures forall m :: Depth(LocksUpTo(args, n) + UnlocksFrom(args, n), m) == 0
  {
    if n > 0 {
      DispatchBalances(args, n - 1);
      var locks, unlocks := LocksUpTo(args, n - 1), UnlocksFrom(args, n - 1);
      forall m ensures Depth(LocksUpTo(args, n) + UnlocksFrom(args, n), m) == 0 {
        DepthConcat(LocksUpTo(args, n), UnlocksFrom(args, n), m);
        DepthConcat(locks, LocksOf(args[n - 1]), m);
        DepthConcat(UnlocksOf(args[n - 1]), unlocks, m);
        DepthConcat(locks, unlocks, m);
        ArgBalances(args[n - 1], m);
      }
    }
  }

  /** The surface arguments among the first n that take a mutex. */
  function Takers(args: seq<Arg>, n: nat, m: Mutex): set<nat>
    requires n <= |args|
  {
    set i: nat | i < n && args[i].SurfaceArg? && args[i].sid == m.sid && (m.InstanceMutex? ==> args[i].inst == m.inst)
  }

  lemma TakersStep(args: seq<Arg>, n: nat, m: Mutex)
    requires 0 < n <= |args|
    ensures |Takers(args, n, m)| == |Takers(args, n - 1, m)| + if n - 1 in Takers(args, n, m) then 1 else 0
  {
    var before := Takers(args, n - 1, m);
    assert n - 1 !in before;
    assert Takers(args, n, m) == if n - 1 in Takers(args, n, m) then before + {n - 1} else before;
  }

  /**
   While a dispatch holds its locks, the mutex of a surface is held once for each
   argument that names the surface and the mutex of an instance once for each that
   names the instance.
   */
  lemma {:induction false} LocksHeld(args: seq<Arg>, n: nat, m: Mutex)
    requires n <= |args|
    ensures Depth(LocksUpTo(args, n), m) == |Takers(args, n, m)|
  {
    if n > 0 {
      var a := args[n - 1];
      LocksHeld(args, n - 1, m);
      DepthConcat(LocksUpTo(args, n - 1), LocksOf(a), m);
      if a.SurfaceArg? {
        DepthPair(Lock(SurfaceMutex(a.sid)), Lock(InstanceMutex(a.sid, a.inst)), m);
        assert Depth([Lock(SurfaceMutex(a.sid))], m) == if SurfaceMutex(a.sid) == m then 1 else 0;
        assert Depth([Lock(InstanceMutex(a.sid, a.inst))], m) == if InstanceMutex(a.sid, a.inst) == m then 1 else 0;
      }
      TakersStep(args, n, m);
    }
  }

  /** An instance is locked directly after its surface. */
  lemma {:induction false} LockOrder(args: seq<Arg>, n: nat, j: nat)
    requires n <= |args| && j < |LocksUpTo(args, n)|
    ensures LocksUpTo(args, n)[j].Lock?
    ensures var m := LocksUpTo(args, n)[j].mutex;
            m.InstanceMutex? ==> j > 0 && LocksUpTo(args, n)[j - 1] == Lock(SurfaceMutex(m.sid))
  {
    if j < |LocksUpTo(args, n - 1)| { LockOrder(args, n - 1, j); }
  }

  function ArgIds(args: seq<Arg>): set<nat> {
    set i | 0 <= i < |args| && args[i].SurfaceArg? :: args[i].sid
  }

  /** The arguments that were locked when argument k stopped the dispatch. */
  function Locked(args: seq<Arg>, k: nat): nat {
    if k < |args| then k + 1 else |args|
  }

  /** dispatch: the outcome, and whether the kernel was handed to the device. */
  function DispatchStatus(table: seq<Slot>, args: seq<Arg>, enqueueOk: bool): Status {
    var k := Stop(table, args, 0);
    if k < |args| then ArgStatus(table, args[k]) else if enqueueOk then SUCCESS else FAIL
  }

  /** A dispatch succeeds exactly when the device takes the kernel and every argument names the generation the table holds. */
  lemma DispatchSucceedsIff(table: seq<Slot>, args: seq<Arg>, enqueueOk: bool)
    ensures DispatchStatus(table, args, enqueueOk) == SUCCESS <==>
            enqueueOk && forall i :: 0 <= i < |args| ==>
              args[i].SurfaceArg? && args[i].sid < |table| && args[i].settable && table[args[i].sid].generation == args[i].gen
  {
    var k := Stop(table, args, 0);
    if k == |args| {
      forall i | 0 <= i < |args|
        ensures args[i].SurfaceArg? && args[i].sid < |table| && args[i].settable && table[args[i].sid].generation == args[i].gen
      {
        assert ArgStatus(table, args[i]) == SUCCESS;
      }
    }
  }

  /** The first argument that names another generation than the table holds. */
  ghost predicate FirstToDiffer(table: seq<Slot>, args: seq<Arg>, k: nat)
    requires forall i :: 0 <= i < |args| ==> args[i].SurfaceArg? && args[i].sid < |table|
  {
    && k < |args| && table[args[k].sid].generation != args[k].gen
    && forall i :: 0 <= i < k ==> table[args[i].sid].generation == args[i].gen
  }

  /**
   Which refusal a dispatch gives: the first argument whose generation differs
   decides.  If its upload has yet to arrive the caller may try again; if the table
   is ahead of it the call was out of order.
   */
  lemma RefusalIff(table: seq<Slot>, args: seq<Arg>, enqueueOk: bool)
    requires forall i :: 0 <= i < |args| ==> args[i].SurfaceArg? && args[i].sid < |table| && args[i].settable
    ensures DispatchStatus(table, args, enqueueOk) == RESOURCE_UNAVAILABLE <==>
            exists k: nat :: FirstToDiffer(table, args, k) && args[k].gen > table[args[k].sid].generation
    ensures DispatchStatus(table, args, enqueueOk) == SEMANTIC_ERROR <==>
            exists k: nat :: FirstToDiffer(table, args, k) && args[k].gen < table[args[k].sid].generation
    ensures DispatchStatus(table, args, enqueueOk) == FAIL <==>
            !enqueueOk && forall i :: 0 <= i < |args| ==> table[args[i].sid].generation == args[i].gen
  {
    var k := Stop(table, args, 0);
    forall i | 0 <= i < k ensures table[args[i].sid].generation == args[i].gen {
      assert ArgStatus(table, args[i]) == SUCCESS;
    }
    assert k < |args| ==> FirstToDiffer(table, args, k);
    forall j: nat | FirstToDiffer(table, args, j) ensures j == k {}
  }

  /** An argument that is no surface of the table, or that the device does not take, fails the dispatch if all before it pass. */
  lemma UnusableArgument(table: seq<Slot>, args: seq<Arg>, enqueueOk: bool, k: nat)
    requires k < |args|
    requires forall i :: 0 <= i < k ==>
               args[i].SurfaceArg? && args[i].sid < |table| && args[i].settable && table[args[i].sid].generation == args[i].gen
    requires args[k].OtherArg? || args[k].sid >= |table| || (!args[k].settable && table[args[k].sid].generation == args[k].gen)
    ensures DispatchStatus(table, args, enqueueOk) == FAIL
  {
    var stop := Stop(table, args, 0);
    assert stop < k ==> ArgStatus(table, args[stop]) == SUCCESS;
    assert k < stop ==> ArgStatus(table, args[k]) == SUCCESS;
  }

  lemma ReleaseStep(log: seq<LockEvent>, args: seq<Arg>, n: nat)
    requires 0 < n <= |args|
    ensures (log + UnlocksOf(args[n - 1])) + UnlocksFrom(args, n - 1) == log + UnlocksFrom(args, n)
  {}

  // ---------------------------------------------------------------------
  // The code
  // ---------------------------------------------------------------------

  class Server {
    var surfaces: seq<Slot>
    var log: seq<LockEvent>
    var enqueued: nat

    constructor (numSurfaces: nat)
      ensures surfaces == seq(numSurfaces, _ => VACANT) && log == [] && enqueued == 0
    {
      surfaces, log, enqueued := seq(numSurfaces, _ => VACANT), [], 0;
    }

    method SurfaceAlloc(sid: nat, readonly: bool, svmPtr: Option<nat>, initial: Bytes) returns (status: Status)
      requires sid < |surfaces|
      modifies `surfaces
      ensures surfaces == old(surfaces)[sid := AllocSlot(old(surfaces)[sid], readonly, svmPtr, initial).0]
      ensures status == AllocSlot(old(surfaces)[sid], readonly, svmPtr, initial).1
    {
      var slot := surfaces[sid];
      if slot.active {
        return RESOURCE_UNAVAILABLE;
      }
      surfaces := surfaces[sid := slot.(active := true, readonly := readonly, svmPtr := svmPtr, content := initial, refCount := 0)];
      return SUCCESS;
    }

    method SurfaceDestroy(sid: nat)
      requires sid < |surfaces| && surfaces[sid].active
      modifies `surfaces
      ensures surfaces == old(surfaces)[sid := VACANT]
    {
      surfaces := surfaces[sid := VACANT];
    }

    method UploadImage(sid: nat, gen: nat, data: Bytes) returns (status: Status)
      requires sid < |surfaces|
      modifies `surfaces
      ensures surfaces == old(surfaces)[sid := ImageUpload(old(surfaces)[sid], gen, data).0]
      ensures status == ImageUpload(old(surfaces)[sid], gen, data).1
    {
      var slot := surfaces[sid];
      if slot.generation > gen {
        return SEMANTIC_ERROR;
      }
      if slot.svmPtr.Some? {
        return FAIL;
      }
      surfaces := surfaces[sid := slot.(content := data, generation := gen)];
      return SUCCESS;
    }

    method SurfaceMap(sid: nat, gen: nat, device: Option<nat>) returns (status: Status, ptr: Option<nat>)
      requires sid < |surfaces|
      modifies `surfaces
      ensures surfaces == old(surfaces)[sid := MapSlot(old(surfaces)[sid], gen, device).0]
      ensures status == MapSlot(old(surfaces)[sid], gen, device).1 && ptr == MapSlot(old(surfaces)[sid], gen, device).2
    {
      var slot := surfaces[sid];
      if slot.generation > gen {
        return SEMANTIC_ERROR, None;
      }
      if !slot.active {
        return FAIL, None;
      }
      slot := slot.(refCount := (slot.refCount + 1) % UINT);
      ptr := slot.ptr;
      if slot.refCount == 1 {
        ptr := if slot.svmPtr.Some? then slot.svmPtr else device;
        if ptr.None? {
          surfaces := surfaces[sid := slot];
          return FAIL, None;
        }
      }
      surfaces := surfaces[sid := slot.(ptr := ptr)];
      return SUCCESS, ptr;
    }

    method SurfaceUnmap(sid: nat, gen: nat, data: Bytes)
      requires sid < |surfaces|
      modifies `surfaces
      ensures surfaces == old(surfaces)[sid := UnmapSlot(old(surfaces)[sid], gen, data)]
    {
      var slot := surfaces[sid].(content := data);
      slot := slot.(refCount := (slot.refCount - 1) % UINT);
      if slot.refCount == 0 {
        slot := slot.(ptr := None);
      }
      surfaces := surfaces[sid := slot.(generation := gen)];
    }

    /** Takes the locks argument by argument, checks generations, enqueues the kernel, and releases the locks. */
    method Dispatch(args: seq<Arg>, kernel: Kernel, enqueueOk: bool) returns (status: Status)
      requires 0 < |args| < UINT
      requires forall i :: 0 <= i < |args| && args[i].SurfaceArg? ==> args[i].sid < |surfaces|
      modifies this
      ensures status == DispatchStatus(old(surfaces), args, enqueueOk)
      ensures surfaces == if status == SUCCESS then TableAfter(old(surfaces), ArgIds(args), kernel) else old(surfaces)
      ensures enqueued == old(enqueued) + if status == SUCCESS then 1 else 0
      ensures var n := Locked(args, Stop(old(surfaces), args, 0));
              log == old(log) + LocksUpTo(args, n) + UnlocksFrom(args, n)
    {
      hide Stop, LocksUpTo, UnlocksFrom, TableAfter, ArgStatus;
      var argIndex;
      status, argIndex := LockArgs(args);
      if status == SUCCESS {
        if enqueueOk {
          surfaces := TableAfter(surfaces, ArgIds(args), kernel);
          enqueued := enqueued + 1;
        } else {
          status := FAIL;
        }
      }
      CleanupStartsInside(argIndex, |args|);
      Release(args, CleanupFrom(argIndex, |args|) + 1);
    }

    /** The loop over the arguments: it locks each one and stops at the first that does not pass. */
    method LockArgs(args: seq<Arg>) returns (status: Status, argIndex: nat)
      modifies `log
      ensures argIndex == Stop(surfaces, args, 0)
      ensures status == if argIndex < |args| then ArgStatus(surfaces, args[argIndex]) else SUCCESS
      ensures log == old(log) + LocksUpTo(args, Locked(args, argIndex))
    {
      argIndex := 0;
      while argIndex < |args|
        invariant argIndex <= |args|
        invariant Stop(surfaces, args, 0) == Stop(surfaces, args, argIndex)
        invariant log == old(log) + LocksUpTo(args, argIndex)
      {
        var a := args[argIndex];
        log := log + LocksOf(a);
        assert log == old(log) + LocksUpTo(args, argIndex + 1);
        status := ArgStatus(surfaces, a);
        if status != SUCCESS {
          return;
        }
        argIndex := argIndex + 1;
      }
      status := SUCCESS;
    }

    /** The cleanup loop. */
    method Release(args: seq<Arg>, n: nat)
      requires n <= |args|
      modifies `log
      ensures log == old(log) + UnlocksFrom(args, n)
    {
      var i: nat := n;
      while i > 0
        invariant i <= n
        invariant log + UnlocksFrom(args, i) == old(log) + UnlocksFrom(args, n)
      {
        ReleaseStep(log, args, i);
        i := i - 1;
        log := log + UnlocksOf(args[i]);
      }
    }
  }
}
