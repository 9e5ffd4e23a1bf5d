/**
 The routines that move an XDR stream's cursor, for the descriptor: each tries the
 inlined path first and falls back to one field after another
 (accelerators/vmaccel/src/vmaccel_rpc_xdr.c).
 */
module XdrStream {
  import opened Options
  import opened IdentifierDb
  import opened Xdr
  import D = DescAmounts

  // ---------------------------------------------------------------------
  // Putting a value in front of something is putting its bytes in front
  // ---------------------------------------------------------------------

  /** `put` in front of any rest writes the same bytes. */
  ghost predicate Splits<T(!new)>(put: (T, Data) -> Data) {
    forall x, rest :: put(x, rest) == put(x, []) + rest
  }

  lemma {:induction false} ItemsSplit<T(!new)>(put: (T, Data) -> Data, items: seq<T>, rest: Data)
    requires Splits(put)
    ensures PutItems(put, items, rest) == PutItems(put, items, []) + rest
  {
    if items != [] {
      ItemsSplit(put, items[1..], rest);
      var tail := PutItems(put, items[1..], []);
      assert put(items[0], tail + rest) == put(items[0], []) + (tail + rest);
      assert put(items[0], tail) == put(items[0], []) + tail;
    }
  }

  lemma FormatsSplit()
    ensures Splits(PutFormat)
  {
    forall f, rest ensures PutFormat(f, rest) == PutFormat(f, []) + rest {
      FormatChain([], f, rest);
      FormatChain([], f, []);
    }
  }

  /** Writing a word and then the rest is writing the whole. */
  lemma Step(base: Data, n: Word, rest: Data)
    ensures (base + WordBytes(n)) + rest == base + PutWord(n, rest)
  {
    assert (base + WordBytes(n)) + rest == base + (WordBytes(n) + rest);
  }

  // ---------------------------------------------------------------------
  // Writing
  // ---------------------------------------------------------------------

  class Writer {
    var data: Data
    const limit: nat

    ghost predicate Valid()
      reads this
    {
      |data| <= limit
    }

    constructor (limit: nat)
      ensures Valid() && this.limit == limit && data == []
    {
      this.limit, data := limit, [];
    }

    /** xdr_u_int */
    method WriteUInt(n: Word) returns (ok: bool)
      requires Valid()
      modifies this
      ensures Valid()
      ensures ok <==> |old(data)| + 4 <= limit
      ensures data == if ok then old(data) + WordBytes(n) else old(data)
    {
      if |data| + 4 > limit {
        return false;
      }
      data := data + WordBytes(n);
      return true;
    }

    /** XDR_INLINE: the cursor moves over `size` bytes, if the stream can give them in one piece. */
    method Inline(size: nat, contiguous: bool) returns (buf: Option<nat>)
      requires Valid()
      modifies this
      ensures Valid()
      ensures buf == if contiguous && |old(data)| + size <= limit then Some(|old(data)|) else None
      ensures data == if buf.Some? then old(data) + Zeros(size) else old(data)
    {
      if !contiguous || |data| + size > limit {
        return None;
      }
      buf := Some(|data|);
      data := data + Zeros(size);
    }

    /** IXDR_PUT_U_LONG */
    method WriteAt(buf: nat, n: Word) returns (next: nat)
      requires Valid() && buf + 4 <= |data|
      modifies this
      ensures Valid() && |data| == |old(data)| && next == buf + 4
      ensures data[..next] == old(data)[..buf] + WordBytes(n)
    {
      data := data[..buf] + WordBytes(n) + data[buf + 4..];
      next := buf + 4;
    }

    /** xdr_VMAccelWorkloadDesc: the inlined path and the path by fields write the same bytes. */
    method WriteWorkload(w: D.Workload, contiguous: bool) returns (ok: bool)
      requires Valid()
      modifies this
      ensures Valid() && old(data) <= data
      ensures ok <==> |old(data)| + 36 <= limit
      ensures ok ==> data == old(data) + PutWorkload(w, [])
    {
      ghost var base := data;
      WorkloadWritten(base, w);
      hide WordBytes, PutWorkload;
      var buf := Inline(36, contiguous);
      if buf.None? {
        ok := WriteUInt(w.megaFlops); if !ok { return; }
        ok := WriteUInt(w.megaOps); if !ok { return; }
        ok := WriteUInt(w.llcSizeKB); if !ok { return; }
        ok := WriteUInt(w.llcBandwidthMBSec); if !ok { return; }
        ok := WriteUInt(w.localMemSizeKB); if !ok { return; }
        ok := WriteUInt(w.localMemBandwidthMBSec); if !ok { return; }
        ok := WriteUInt(w.nonLocalMemSizeKB); if !ok { return; }
        ok := WriteUInt(w.nonLocalMemBandwidthMBSec); if !ok { return; }
        ok := WriteUInt(w.interconnectBandwidthMBSec); if !ok { return; }
      } else {
        assert data[..buf.value] == base;
        var p := WriteAt(buf.value, w.megaFlops);
        p := WriteAt(p, w.megaOps);
        p := WriteAt(p, w.llcSizeKB);
        p := WriteAt(p, w.llcBandwidthMBSec);
        p := WriteAt(p, w.localMemSizeKB);
        p := WriteAt(p, w.localMemBandwidthMBSec);
        p := WriteAt(p, w.nonLocalMemSizeKB);
        p := WriteAt(p, w.nonLocalMemBandwidthMBSec);
        p := WriteAt(p, w.interconnectBandwidthMBSec);
        assert data[..p] == data;
        ok := true;
      }
    }

    /** The six limits at the end of xdr_VMAccelDesc, inlined or by fields. */
    method WriteLimits(m: Limits, contiguous: bool) returns (ok: bool)
      requires Valid()
      modifies this
      ensures Valid() && old(data) <= data
      ensures ok <==> |old(data)| + 24 <= limit
      ensures ok ==> data == old(data) + PutLimits(m, [])
    {
      ghost var base := data;
      LimitsWritten(base, m);
      hide WordBytes, PutLimits;
      var buf := Inline(24, contiguous);
      if buf.None? {
        ok := WriteUInt(m.maxContexts); if !ok { return; }
        ok := WriteUInt(m.maxQueues); if !ok { return; }
        ok := WriteUInt(m.maxEvents); if !ok { return; }
        ok := WriteUInt(m.maxFences); if !ok { return; }
        ok := WriteUInt(m.maxSurfaces); if !ok { return; }
        ok := WriteUInt(m.maxMappings); if !ok { return; }
      } else {
        assert data[..buf.value] == base;
        var p := WriteAt(buf.value, m.maxContexts);
        p := WriteAt(p, m.maxQueues);
        p := WriteAt(p, m.maxEvents);
        p := WriteAt(p, m.maxFences);
        p := WriteAt(p, m.maxSurfaces);
        p := WriteAt(p, m.maxMappings);
        assert data[..p] == data;
        ok := true;
      }
    }

    /** xdr_bytes: after the length, data longer than the maximum is refused. */
    method WriteBytes(bytes: Data, max: nat) returns (ok: bool)
      requires Valid() && |bytes| < UINT
      modifies this
      ensures Valid() && old(data) <= data
      ensures ok <==> |bytes| <= max && |old(data)| + |PutBytes(bytes, [])| <= limit
      ensures ok ==> data == old(data) + PutBytes(bytes, [])
    {
      var padding := Zeros(Padding(|bytes|));
      ok := WriteUInt(|bytes|);
      if !ok {
        return;
      }
      if |bytes| > max || |data| + |bytes| + |padding| > limit {
        return false;
      }
      assert (data + bytes) + padding == old(data) + PutBytes(bytes, []);
      data := data + bytes;
      data := data + padding;
    }

    /** xdr_VMAccelAddress */
    method WriteAddress(a: Address) returns (ok: bool)
      requires Valid() && |a.addr| < UINT
      modifies this
      ensures Valid() && old(data) <= data
      ensures ok <==> |a.addr| <= MAX_LOCATION_SIZE && |old(data)| + |PutAddress(a, [])| <= limit
      ensures ok ==> data == old(data) + PutAddress(a, [])
    {
      AddressChain(data, a, []);
      ok := WriteBytes(a.addr, MAX_LOCATION_SIZE);
      if !ok { return; }
      ok := WriteUInt(a.port); if !ok { return; }
      ok := WriteUInt(a.resourceType); if !ok { return; }
      ok := WriteUInt(a.subDevice);
    }

    /** xdr_VMAccelFormatDesc */
    method WriteFormat(f: FormatDesc) returns (ok: bool)
      requires Valid()
      modifies this
      ensures Valid() && old(data) <= data
      ensures ok <==> |old(data)| + 8 <= limit
      ensures ok ==> data == old(data) + WordBytes(f.format) + WordBytes(f.caps)
    {
      ok := WriteUInt(f.format);
      if !ok { return; }
      ok := WriteUInt(f.caps);
    }

    /** xdr_array over xdr_VMAccelFormatDesc */
    method WriteFormats(formats: seq<FormatDesc>) returns (ok: bool)
      requires Valid() && |formats| < UINT
      modifies this
      ensures Valid() && old(data) <= data
      ensures ok <==> |old(data)| + |PutArray(PutFormat, formats, [])| <= limit
      ensures ok ==> data == old(data) + PutArray(PutFormat, formats, [])
    {
      ghost var whole := old(data) + PutArray(PutFormat, formats, []);
      FormatsStart(data, formats);
      hide WordBytes, PutItems, PutArray;
      ok := WriteUInt(|formats|);
      if !ok { return; }
      var i := 0;
      while i < |formats|
        invariant 0 <= i <= |formats| && Valid() && old(data) <= data
        invariant data + PutItems(PutFormat, formats[i..], []) == whole
      {
        FormatStep(data, formats, i);
        ok := WriteFormat(formats[i]);
        if !ok { return; }
        i := i + 1;
      }
      return true;
    }

    /** xdr_VMAccelDesc */
    method WriteDesc(d: Desc, contiguousCapacity: bool, contiguousLimits: bool) returns (ok: bool)
      requires Valid() && Sized(d)
      modifies this
      ensures Valid()
      ensures ok <==> |d.parentAddr.addr| <= MAX_LOCATION_SIZE && |old(data)| + |PutDesc(d, [])| <= limit
      ensures ok ==> data == old(data) + PutDesc(d, [])
    {
      DescChain(data, d);
      PartSizes(d);
      hide WordBytes, PutAddress, PutArray, PutWorkload, PutLimits, PutDesc;
      ok := WriteUInt(d.parentId); if !ok { return; }
      ok := WriteAddress(d.parentAddr); if !ok { return; }
      ok := WriteUInt(d.typeMask); if !ok { return; }
      ok := WriteUInt(d.architecture); if !ok { return; }
      ok := WriteUInt(d.caps); if !ok { return; }
      ok := WriteFormats(d.formatCaps); if !ok { return; }
      ok := WriteWorkload(d.capacity, contiguousCapacity); if !ok { return; }
      ok := WriteLimits(d.limits, contiguousLimits);
    }
  }

  lemma PartSizes(d: Desc)
    requires Sized(d)
    ensures forall n :: |WordBytes(n)| == 4
    ensures |PutWorkload(d.capacity, [])| == 36 && |PutLimits(d.limits, [])| == 24
    ensures |PutDesc(d, [])| == 76 + |PutAddress(d.parentAddr, [])| + |PutArray(PutFormat, d.formatCaps, [])|
  {
    assert |PutWorkload(d.capacity, [])| == 36 && |PutLimits(d.limits, [])| == 24;
    DescChain([], d);
  }

  lemma FormatChain(base: Data, f: FormatDesc, rest: Data)
    ensures base + WordBytes(f.format) + WordBytes(f.caps) + rest == base + PutFormat(f, rest)
  {
    Step(base, f.format, PutWord(f.caps, rest));
    Step(base + WordBytes(f.format), f.caps, rest);
  }

  lemma FormatsStart(base: Data, formats: seq<FormatDesc>)
    requires |formats| < UINT
    ensures base + WordBytes(|formats|) + PutItems(PutFormat, formats[0..], []) == base + PutArray(PutFormat, formats, [])
    ensures formats[|formats|..] == [] && PutItems(PutFormat, [], []) == []
    ensures forall n :: |WordBytes(n)| == 4
  {
    assert formats[0..] == formats;
    Step(base, |formats|, PutItems(PutFormat, formats, []));
  }

  lemma FormatStep(base: Data, formats: seq<FormatDesc>, i: nat)
    requires i < |formats|
    ensures base + WordBytes(formats[i].format) + WordBytes(formats[i].caps) + PutItems(PutFormat, formats[i + 1..], [])
            == base + PutItems(PutFormat, formats[i..], [])
  {
    assert formats[i..][0] == formats[i] && formats[i..][1..] == formats[i + 1..];
    FormatChain(base, formats[i], PutItems(PutFormat, formats[i + 1..], []));
  }

  lemma BytesSplit(bytes: Data, rest: Data)
    requires |bytes| < UINT
    ensures PutBytes(bytes, rest) == PutBytes(bytes, []) + rest
  {
    var zeros := Zeros(Padding(|bytes|));
    assert bytes + (zeros + rest) == (bytes + (zeros + [])) + rest;
  }

  lemma AddressChain(base: Data, a: Address, rest: Data)
    requires |a.addr| < UINT
    ensures base + PutBytes(a.addr, []) + WordBytes(a.port) + WordBytes(a.resourceType) + WordBytes(a.subDevice) + rest
            == base + PutAddress(a, rest)
  {
    var t2 := PutWord(a.subDevice, rest);
    var t1 := PutWord(a.resourceType, t2);
    BytesSplit(a.addr, PutWord(a.port, t1));
    var b := base + PutBytes(a.addr, []);
    assert b + PutWord(a.port, t1) == base + PutAddress(a, rest);
    Step(b, a.port, t1);
    b := b + WordBytes(a.port);
    Step(b, a.resourceType, t2);
    b := b + WordBytes(a.resourceType);
    Step(b, a.subDevice, rest);
  }

  lemma LimitsChain(base: Data, m: Limits, rest: Data)
    ensures base + WordBytes(m.maxContexts) + WordBytes(m.maxQueues) + WordBytes(m.maxEvents) + WordBytes(m.maxFences)
                 + WordBytes(m.maxSurfaces) + WordBytes(m.maxMappings) + rest
            == base + PutLimits(m, rest)
  {
    var t5 := PutWord(m.maxMappings, rest);
    var t4 := PutWord(m.maxSurfaces, t5);
    var t3 := PutWord(m.maxFences, t4);
    var t2 := PutWord(m.maxEvents, t3);
    var t1 := PutWord(m.maxQueues, t2);
    var b := base;
    Step(b, m.maxContexts, t1);
    b := b + WordBytes(m.maxContexts);
    Step(b, m.maxQueues, t2);
    b := b + WordBytes(m.maxQueues);
    Step(b, m.maxEvents, t3);
    b := b + WordBytes(m.maxEvents);
    Step(b, m.maxFences, t4);
    b := b + WordBytes(m.maxFences);
    Step(b, m.maxSurfaces, t5);
    b := b + WordBytes(m.maxSurfaces);
    Step(b, m.maxMappings, rest);
  }

  lemma WorkloadChain(base: Data, w: D.Workload, rest: Data)
    ensures base + WordBytes(w.megaFlops) + WordBytes(w.megaOps) + WordBytes(w.llcSizeKB) + WordBytes(w.llcBandwidthMBSec)
                 + WordBytes(w.localMemSizeKB) + WordBytes(w.localMemBandwidthMBSec) + WordBytes(w.nonLocalMemSizeKB)
                 + WordBytes(w.nonLocalMemBandwidthMBSec) + WordBytes(w.interconnectBandwidthMBSec) + rest
            == base + PutWorkload(w, rest)
  {
    var t8 := PutWord(w.interconnectBandwidthMBSec, rest);
    var t7 := PutWord(w.nonLocalMemBandwidthMBSec, t8);
    var t6 := PutWord(w.nonLocalMemSizeKB, t7);
    var t5 := PutWord(w.localMemBandwidthMBSec, t6);
    var t4 := PutWord(w.localMemSizeKB, t5);
    var t3 := PutWord(w.llcBandwidthMBSec, t4);
    var t2 := PutWord(w.llcSizeKB, t3);
    var t1 := PutWord(w.megaOps, t2);
    var b := base;
    Step(b, w.megaFlops, t1);
    b := b + WordBytes(w.megaFlops);
    Step(b, w.megaOps, t2);
    b := b + WordBytes(w.megaOps);
    Step(b, w.llcSizeKB, t3);
    b := b + WordBytes(w.llcSizeKB);
    Step(b, w.llcBandwidthMBSec, t4);
    b := b + WordBytes(w.llcBandwidthMBSec);
    Step(b, w.localMemSizeKB, t5);
    b := b + WordBytes(w.localMemSizeKB);
    Step(b, w.localMemBandwidthMBSec, t6);
    b := b + WordBytes(w.localMemBandwidthMBSec);
    Step(b, w.nonLocalMemSizeKB, t7);
    b := b + WordBytes(w.nonLocalMemSizeKB);
    Step(b, w.nonLocalMemBandwidthMBSec, t8);
    b := b + WordBytes(w.nonLocalMemBandwidthMBSec);
    Step(b, w.interconnectBandwidthMBSec, rest);
  }

  lemma WorkloadWritten(base: Data, w: D.Workload)
    ensures base + WordBytes(w.megaFlops) + WordBytes(w.megaOps) + WordBytes(w.llcSizeKB) + WordBytes(w.llcBandwidthMBSec)
                 + WordBytes(w.localMemSizeKB) + WordBytes(w.localMemBandwidthMBSec) + WordBytes(w.nonLocalMemSizeKB)
                 + WordBytes(w.nonLocalMemBandwidthMBSec) + WordBytes(w.interconnectBandwidthMBSec)
            == base + PutWorkload(w, [])
    ensures forall n :: |WordBytes(n)| == 4
  {
    WorkloadChain(base, w, []);
  }

  lemma LimitsWritten(base: Data, m: Limits)
    ensures base + WordBytes(m.maxContexts) + WordBytes(m.maxQueues) + WordBytes(m.maxEvents) + WordBytes(m.maxFences)
                 + WordBytes(m.maxSurfaces) + WordBytes(m.maxMappings)
            == base + PutLimits(m, [])
    ensures forall n :: |WordBytes(n)| == 4
  {
    LimitsChain(base, m, []);
  }

  /** The parts of a descriptor, one after the other. */
  lemma DescChain(base: Data, d: Desc)
    requires Sized(d)
    ensures base + WordBytes(d.parentId) + PutAddress(d.parentAddr, []) + WordBytes(d.typeMask) + WordBytes(d.architecture)
                 + WordBytes(d.caps) + PutArray(PutFormat, d.formatCaps, []) + PutWorkload(d.capacity, []) + PutLimits(d.limits, [])
            == base + PutDesc(d, [])
  {
    hide WordBytes, PutArray, PutWorkload, PutLimits, PutAddress, PutWord;
    var limits := PutLimits(d.limits, []);
    var t6 := PutWorkload(d.capacity, limits);
    var t5 := PutArray(PutFormat, d.formatCaps, t6);
    var t4 := PutWord(d.caps, t5);
    var t3 := PutWord(d.architecture, t4);
    var t2 := PutWord(d.typeMask, t3);
    var t1 := PutAddress(d.parentAddr, t2);
    var b := base;
    Step(b, d.parentId, t1);
    b := b + WordBytes(d.parentId);
    AddressSplit(b, d.parentAddr, t2);
    b := b + PutAddress(d.parentAddr, []);
    Step(b, d.typeMask, t3);
    b := b + WordBytes(d.typeMask);
    Step(b, d.architecture, t4);
    b := b + WordBytes(d.architecture);
    Step(b, d.caps, t5);
    b := b + WordBytes(d.caps);
    FormatArraySplit(b, d.formatCaps, t6);
    b := b + PutArray(PutFormat, d.formatCaps, []);
    WorkloadSplit(b, d.capacity, limits);
  }

  lemma AddressSplit(base: Data, a: Address, rest: Data)
    requires |a.addr| < UINT
    ensures base + PutAddress(a, []) + rest == base + PutAddress(a, rest)
  {
    AddressChain(base, a, []);
    AddressChain(base, a, rest);
    hide WordBytes, PutBytes, PutAddress;
    assert base + PutBytes(a.addr, []) + WordBytes(a.port) + WordBytes(a.resourceType) + WordBytes(a.subDevice) + [] == base + PutAddress(a, []);
  }

  lemma FormatArraySplit(base: Data, formats: seq<FormatDesc>, rest: Data)
    requires |formats| < UINT
    ensures base + PutArray(PutFormat, formats, []) + rest == base + PutArray(PutFormat, formats, rest)
  {
    FormatsSplit();
    ItemsSplit(PutFormat, formats, rest);
    hide WordBytes;
    var items := PutItems(PutFormat, formats, []);
    assert base + (WordBytes(|formats|) + items) + rest == base + (WordBytes(|formats|) + (items + rest));
  }

  lemma WorkloadSplit(base: Data, w: D.Workload, rest: Data)
    ensures base + PutWorkload(w, []) + rest == base + PutWorkload(w, rest)
  {
    WorkloadChain(base, w, []);
    WorkloadChain(base, w, rest);
    hide WordBytes, PutWorkload;
    assert base + PutWorkload(w, []) + [] == base + PutWorkload(w, []);
  }

  // ---------------------------------------------------------------------
  // Reading
  // ---------------------------------------------------------------------

  /** A routine's outcome is what the format prescribes: a value and what is left, or a failure. */
  predicate Agrees<T(==)>(p: Parsed<T>, ok: bool, value: T, input: Data) {
    if ok then p == Done(value, input) else p.Stuck?
  }

  const NO_WORKLOAD: D.Workload := D.Workload(0, 0, 0, 0, 0, 0, 0, 0, 0)
  const NO_LIMITS: Limits := Limits(0, 0, 0, 0, 0, 0)
  const NO_ADDRESS: Address := Address([], 0, 0, 0)
  const NO_DESC: Desc := Desc(0, NO_ADDRESS, 0, 0, 0, [], NO_WORKLOAD, NO_LIMITS)

  /** IXDR_GET_U_LONG */
  function Take(buf: Data): (r: (Word, Data))
    requires |buf| >= 4
    ensures |r.1| == |buf| - 4
    ensures forall rest :: GetWord(buf + rest) == Done(r.0, r.1 + rest)
  {
    assert forall rest :: (buf + rest)[4..] == buf[4..] + rest;
    (GetWord(buf).value, GetWord(buf).rest)
  }

  class Reader {
    var input: Data

    constructor (input: Data)
      ensures this.input == input
    {
      this.input := input;
    }

    /** xdr_u_int */
    method ReadUInt() returns (ok: bool, n: Word)
      modifies this
      ensures Agrees(GetWord(old(input)), ok, n, input)
    {
      if |input| < 4 {
        return false, 0;
      }
      n, ok := GetWord(input).value, true;
      input := input[4..];
    }

    /** XDR_INLINE */
    method Inline(size: nat, contiguous: bool) returns (buf: Option<Data>)
      modifies this
      ensures buf.None? ==> input == old(input)
      ensures buf.Some? ==> |buf.value| == size && old(input) == buf.value + input
    {
      if !contiguous || |input| < size {
        return None;
      }
      buf := Some(input[..size]);
      input := input[size..];
    }

    /** xdr_VMAccelWorkloadDesc: the inlined path and the path by fields read the same value. */
    method ReadWorkload(contiguous: bool) returns (ok: bool, w: D.Workload)
      modifies this
      ensures Agrees(GetWorkload(old(input)), ok, w, input)
    {
      w := NO_WORKLOAD;
      hide GetWord;
      var buf := Inline(36, contiguous);
      if buf.None? {
        var n;
        ok, n := ReadUInt(); if !ok { return; } w := w.(megaFlops := n);
        ok, n := ReadUInt(); if !ok { return; } w := w.(megaOps := n);
        ok, n := ReadUInt(); if !ok { return; } w := w.(llcSizeKB := n);
        ok, n := ReadUInt(); if !ok { return; } w := w.(llcBandwidthMBSec := n);
        ok, n := ReadUInt(); if !ok { return; } w := w.(localMemSizeKB := n);
        ok, n := ReadUInt(); if !ok { return; } w := w.(localMemBandwidthMBSec := n);
        ok, n := ReadUInt(); if !ok { return; } w := w.(nonLocalMemSizeKB := n);
        ok, n := ReadUInt(); if !ok { return; } w := w.(nonLocalMemBandwidthMBSec := n);
        ok, n := ReadUInt(); if !ok { return; } w := w.(interconnectBandwidthMBSec := n);
      } else {
        var (megaFlops, b1) := Take(buf.value);
        var (megaOps, b2) := Take(b1);
        var (llcSizeKB, b3) := Take(b2);
        var (llcBandwidthMBSec, b4) := Take(b3);
        var (localMemSizeKB, b5) := Take(b4);
        var (localMemBandwidthMBSec, b6) := Take(b5);
        var (nonLocalMemSizeKB, b7) := Take(b6);
        var (nonLocalMemBandwidthMBSec, b8) := Take(b7);
        var (interconnectBandwidthMBSec, b9) := Take(b8);
        assert b9 + input == input;
        w := D.Workload(megaFlops, megaOps, llcSizeKB, llcBandwidthMBSec, localMemSizeKB, localMemBandwidthMBSec,
                        nonLocalMemSizeKB, nonLocalMemBandwidthMBSec, interconnectBandwidthMBSec);
        ok := true;
      }
    }

    /** The six limits at the end of xdr_VMAccelDesc, inlined or by fields. */
    method ReadLimits(contiguous: bool) returns (ok: bool, m: Limits)
      modifies this
      ensures Agrees(GetLimits(old(input)), ok, m, input)
    {
      m := NO_LIMITS;
      hide GetWord;
      var buf := Inline(24, contiguous);
      if buf.None? {
        var n;
        ok, n := ReadUInt(); if !ok { return; } m := m.(maxContexts := n);
        ok, n := ReadUInt(); if !ok { return; } m := m.(maxQueues := n);
        ok, n := ReadUInt(); if !ok { return; } m := m.(maxEvents := n);
        ok, n := ReadUInt(); if !ok { return; } m := m.(maxFences := n);
        ok, n := ReadUInt(); if !ok { return; } m := m.(maxSurfaces := n);
        ok, n := ReadUInt(); if !ok { return; } m := m.(maxMappings := n);
      } else {
        var (maxContexts, b1) := Take(buf.value);
        var (maxQueues, b2) := Take(b1);
        var (maxEvents, b3) := Take(b2);
        var (maxFences, b4) := Take(b3);
        var (maxSurfaces, b5) := Take(b4);
        var (maxMappings, b6) := Take(b5);
        assert b6 + input == input;
        m := Limits(maxContexts, maxQueues, maxEvents, maxFences, maxSurfaces, maxMappings);
        ok := true;
      }
    }

    /** xdr_bytes */
    method ReadBytes(max: nat) returns (ok: bool, bytes: Data)
      modifies this
      ensures Agrees(GetBytes(max, old(input)), ok, bytes, input)
    {
      var len;
      bytes := [];
      ok, len := ReadUInt();
      if !ok { return; }
      if len > max || |input| < len + Padding(len) {
        return false, [];
      }
      bytes := input[..len];
      input := input[len + Padding(len)..];
    }

    /** xdr_VMAccelAddress */
    method ReadAddress() returns (ok: bool, a: Address)
      modifies this
      ensures Agrees(GetAddress(old(input)), ok, a, input)
    {
      a := NO_ADDRESS;
      hide GetWord, GetBytes;
      var addr, n;
      ok, addr := ReadBytes(MAX_LOCATION_SIZE); if !ok { return; } a := a.(addr := addr);
      ok, n := ReadUInt(); if !ok { return; } a := a.(port := n);
      ok, n := ReadUInt(); if !ok { return; } a := a.(resourceType := n);
      ok, n := ReadUInt(); if !ok { return; } a := a.(subDevice := n);
    }

    /** xdr_array over xdr_VMAccelFormatDesc */
    method ReadFormats() returns (ok: bool, formats: seq<FormatDesc>)
      modifies this
      ensures Agrees(GetArray(GetFormat, old(input)), ok, formats, input)
    {
      formats := [];
      hide GetWord;
      var len;
      ok, len := ReadUInt();
      if !ok { return; }
      ghost var start := input;
      ContinuesStart(GetItems(GetFormat, len, start));
      while |formats| < len
        invariant |formats| <= len
        invariant Continues(GetItems(GetFormat, len, start), formats, GetItems(GetFormat, len - |formats|, input))
      {
        var format, caps;
        ghost var before := input;
        ok, format := ReadUInt(); if !ok { return; }
        ok, caps := ReadUInt(); if !ok { return; }
        assert GetFormat(before) == Done(FormatDesc(format, caps), input);
        ContinuesStep(GetItems(GetFormat, len, start), formats, FormatDesc(format, caps), before, len - |formats|);
        formats := formats + [FormatDesc(format, caps)];
      }
      assert formats + [] == formats;
      ok := true;
    }

    /** xdr_VMAccelDesc */
    method ReadDesc(contiguousCapacity: bool, contiguousLimits: bool) returns (ok: bool, d: Desc)
      modifies this
      ensures Agrees(GetDesc(old(input)), ok, d, input)
    {
      d := NO_DESC;
      hide GetWord, GetAddress, GetArray, GetWorkload, GetLimits;
      var n, a, formats, w, m;
      ok, n := ReadUInt(); if !ok { return; } d := d.(parentId := n);
      ok, a := ReadAddress(); if !ok { return; } d := d.(parentAddr := a);
      ok, n := ReadUInt(); if !ok { return; } d := d.(typeMask := n);
      ok, n := ReadUInt(); if !ok { return; } d := d.(architecture := n);
      ok, n := ReadUInt(); if !ok { return; } d := d.(caps := n);
      ok, formats := ReadFormats(); if !ok { return; } d := d.(formatCaps := formats);
      ok, w := ReadWorkload(contiguousCapacity); if !ok { return; } d := d.(capacity := w);
      ok, m := ReadLimits(contiguousLimits); if !ok { return; } d := d.(limits := m);
    }
  }

  /** Reading the whole array is reading some items and then the others. */
  predicate Continues<T(==)>(whole: Parsed<seq<T>>, sofar: seq<T>, others: Parsed<seq<T>>) {
    whole == if others.Stuck? then Stuck else Done(sofar + others.value, others.rest)
  }

  lemma ContinuesStart<T>(whole: Parsed<seq<T>>)
    ensures Continues(whole, [], whole)
  {
    if whole.Done? { assert [] + whole.value == whole.value; }
  }

  lemma ContinuesStep(whole: Parsed<seq<FormatDesc>>, sofar: seq<FormatDesc>, item: FormatDesc, input: Data, n: nat)
    requires n > 0 && Continues(whole, sofar, GetItems(GetFormat, n, input))
    requires GetFormat(input).Done? && GetFormat(input).value == item
    ensures Continues(whole, sofar + [item], GetItems(GetFormat, n - 1, GetFormat(input).rest))
  {
    var others := GetItems(GetFormat, n - 1, GetFormat(input).rest);
    if others.Done? { assert sofar + ([item] + others.value) == (sofar + [item]) + others.value; }
  }
}
