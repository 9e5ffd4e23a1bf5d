/**
 The bytes that the XDR routines put on the wire, in order: big-endian words, opaque
 data with its length and its padding, arrays with their length (RFC 4506).
 */
module XdrLayout {
  import opened Options
  import opened IdentifierDb
  import opened Xdr

  // ---------------------------------------------------------------------
  // Words and opaque data
  // ---------------------------------------------------------------------

  /** A word is four bytes, the most significant first. */
  lemma BigEndian(n: Word)
    ensures |WordBytes(n)| == 4
    ensures var a: nat, b: nat, c: nat, d: nat := WordBytes(n)[0], WordBytes(n)[1], WordBytes(n)[2], WordBytes(n)[3];
            n == a * 0x100_0000 + b * 0x1_0000 + c * 0x100 + d
  {
    WordParts(n);
  }

  /** Opaque data is its length, the bytes, and as few zeros as make a multiple of four. */
  lemma OpaqueLayout(bytes: Data, rest: Data)
    requires |bytes| < UINT
    ensures var zeros := Zeros(Padding(|bytes|));
            && PutBytes(bytes, rest) == WordBytes(|bytes|) + bytes + zeros + rest
            && |zeros| < 4 && (|bytes| + |zeros|) % 4 == 0 && forall i :: 0 <= i < |zeros| ==> zeros[i] == 0
  {
    hide WordBytes;
    assert WordBytes(|bytes|) + (bytes + (Zeros(Padding(|bytes|)) + rest)) == WordBytes(|bytes|) + bytes + Zeros(Padding(|bytes|)) + rest;
  }

  /** The bytes of a list of words, one after the other. */
  function Words(ns: seq<Word>): Data {
    if ns == [] then [] else WordBytes(ns[0]) + Words(ns[1..])
  }

  lemma {:induction false} WordsConcat(a: seq<Word>, b: seq<Word>)
    ensures Words(a + b) == Words(a) + Words(b)
  {
    hide WordBytes;
    if a == [] {
      assert a + b == b;
    } else {
      assert (a + b)[0] == a[0] && (a + b)[1..] == a[1..] + b;
      WordsConcat(a[1..], b);
      assert WordBytes(a[0]) + (Words(a[1..]) + Words(b)) == (WordBytes(a[0]) + Words(a[1..])) + Words(b);
    }
  }

  lemma Glue(a: seq<Word>, b: seq<Word>, rest: Data)
    ensures Words(a) + (Words(b) + rest) == Words(a + b) + rest
  {
    WordsConcat(a, b);
    assert Words(a) + (Words(b) + rest) == (Words(a) + Words(b)) + rest;
  }

  lemma OneWord(n: Word, rest: Data)
    ensures PutWord(n, rest) == Words([n]) + rest
  {
    assert [n][1..] == [];
    assert Words([n]) == WordBytes(n) + [];
  }

  lemma Before(n: Word, b: seq<Word>, rest: Data)
    ensures PutWord(n, Words(b) + rest) == Words([n] + b) + rest
  {
    OneWord(n, Words(b) + rest);
    Glue([n], b, rest);
  }

  // ---------------------------------------------------------------------
  // Structures and arrays
  // ---------------------------------------------------------------------

  /** What `put` writes for a value are the words that `words` gives. */
  ghost predicate WritesWords<T(!new)>(put: (T, Data) -> Data, words: T -> seq<Word>) {
    forall x, rest :: put(x, rest) == Words(words(x)) + rest
  }

  function FlatWords<T>(words: T -> seq<Word>, items: seq<T>): seq<Word> {
    if items == [] then [] else words(items[0]) + FlatWords(words, items[1..])
  }

  lemma {:induction false} ItemsLayout<T(!new)>(put: (T, Data) -> Data, words: T -> seq<Word>, items: seq<T>, rest: Data)
    requires WritesWords(put, words)
    ensures PutItems(put, items, rest) == Words(FlatWords(words, items)) + rest
  {
    if items == [] {
      assert Words([]) + rest == rest;
    } else {
      ItemsLayout(put, words, items[1..], rest);
      Glue(words(items[0]), FlatWords(words, items[1..]), rest);
    }
  }

  /** An array is its length and then its elements. */
  lemma ArrayLayout<T(!new)>(put: (T, Data) -> Data, words: T -> seq<Word>, items: seq<T>, rest: Data)
    requires WritesWords(put, words) && |items| < UINT
    ensures PutArray(put, items, rest) == Words([|items|] + FlatWords(words, items)) + rest
  {
    ItemsLayout(put, words, items, rest);
    Before(|items|, FlatWords(words, items), rest);
  }

  function SurfaceIdWords(s: SurfaceId): seq<Word> {
    [s.kind, s.handleType, s.id, s.instance, s.offset, s.generation]
  }

  function ItemWords(c: ContextItem): seq<Word> {
    [c.cid, c.id]
  }

  function ArgWords(a: KernelArg): seq<Word> {
    ItemWords(a.queue) + [a.index, a.kind, a.usage] + SurfaceIdWords(a.surf) + ItemWords(a.sampler)
  }

  lemma WordsWritten()
    ensures WritesWords(PutWord, n => [n])
  {
    hide PutWord;
    forall n: Word, rest ensures PutWord(n, rest) == Words([n]) + rest { OneWord(n, rest); }
  }

  lemma ItemLayout(c: ContextItem, rest: Data)
    ensures PutItem(c, rest) == Words(ItemWords(c)) + rest
  {
    OneWord(c.id, rest);
    Before(c.cid, [c.id], rest);
    assert [c.cid] + [c.id] == ItemWords(c);
  }

  lemma ThreeWords(a: Word, b: Word, c: Word, rest: Data)
    ensures PutWord(a, PutWord(b, PutWord(c, rest))) == Words([a, b, c]) + rest
  {
    hide PutWord;
    OneWord(c, rest);
    Before(b, [c], rest);
    assert [b] + [c] == [b, c];
    Before(a, [b, c], rest);
    assert [a] + [b, c] == [a, b, c];
  }

  lemma SurfaceIdLayout(s: SurfaceId, rest: Data)
    ensures PutSurfaceId(s, rest) == Words(SurfaceIdWords(s)) + rest
  {
    hide PutWord, Words;
    ThreeWords(s.instance, s.offset, s.generation, rest);
    ThreeWords(s.kind, s.handleType, s.id, Words([s.instance, s.offset, s.generation]) + rest);
    Glue([s.kind, s.handleType, s.id], [s.instance, s.offset, s.generation], rest);
    assert [s.kind, s.handleType, s.id] + [s.instance, s.offset, s.generation] == SurfaceIdWords(s);
  }

  lemma ArgLayout(a: KernelArg, rest: Data)
    ensures PutArg(a, rest) == Words(ArgWords(a)) + rest
  {
    hide PutWord, Words, PutItem, PutSurfaceId, ItemWords, SurfaceIdWords;
    var sampler, surf, middle, queue := ItemWords(a.sampler), SurfaceIdWords(a.surf), [a.index, a.kind, a.usage], ItemWords(a.queue);
    ItemLayout(a.sampler, rest);
    SurfaceIdLayout(a.surf, Words(sampler) + rest);
    Glue(surf, sampler, rest);
    ThreeWords(a.index, a.kind, a.usage, Words(surf + sampler) + rest);
    Glue(middle, surf + sampler, rest);
    ItemLayout(a.queue, Words(middle + (surf + sampler)) + rest);
    Glue(queue, middle + (surf + sampler), rest);
    assert queue + (middle + (surf + sampler)) == ArgWords(a);
  }

  lemma StructuresWritten()
    ensures WritesWords(PutArg, ArgWords) && WritesWords(PutSurfaceId, SurfaceIdWords)
  {
    hide PutArg, PutSurfaceId, ArgWords, SurfaceIdWords, Words;
    forall a, rest ensures PutArg(a, rest) == Words(ArgWords(a)) + rest { ArgLayout(a, rest); }
    forall s, rest ensures PutSurfaceId(s, rest) == Words(SurfaceIdWords(s)) + rest { SurfaceIdLayout(s, rest); }
  }

  lemma {:induction false} FlatSingles(ns: seq<Word>)
    ensures FlatWords(n => [n], ns) == ns
  {
    if ns != [] {
      FlatSingles(ns[1..]);
      assert [ns[0]] + ns[1..] == ns;
    }
  }

  lemma WordArrayLayout(ns: seq<Word>, rest: Data)
    requires |ns| < UINT
    ensures PutArray(PutWord, ns, rest) == Words([|ns|] + ns) + rest
  {
    WordsWritten();
    ArrayLayout(PutWord, n => [n], ns, rest);
    FlatSingles(ns);
  }

  /** A dispatch on the wire, word by word. */
  function DispatchWords(op: DispatchOp): seq<Word>
    requires SizedOp(op)
  {
    [op.queue.cid, op.queue.id, op.kernel.cid, op.kernel.id, op.dimension]
    + ([|op.globalWorkOffset|] + op.globalWorkOffset)
    + ([|op.globalWorkSize|] + op.globalWorkSize)
    + ([|op.localWorkSize|] + op.localWorkSize)
    + ([|op.args|] + FlatWords(ArgWords, op.args))
    + ([|op.refs|] + FlatWords(SurfaceIdWords, op.refs))
  }

  lemma DispatchTail(op: DispatchOp, rest: Data)
    requires SizedOp(op)
    ensures PutArray(PutArg, op.args, PutArray(PutSurfaceId, op.refs, rest))
            == Words([|op.args|] + FlatWords(ArgWords, op.args) + ([|op.refs|] + FlatWords(SurfaceIdWords, op.refs))) + rest
  {
    hide PutArray, PutArg, PutSurfaceId, ArgWords, SurfaceIdWords, Words;
    StructuresWritten();
    var args, refs := [|op.args|] + FlatWords(ArgWords, op.args), [|op.refs|] + FlatWords(SurfaceIdWords, op.refs);
    ArrayLayout(PutSurfaceId, SurfaceIdWords, op.refs, rest);
    ArrayLayout(PutArg, ArgWords, op.args, Words(refs) + rest);
    Glue(args, refs, rest);
  }

  lemma DispatchHead(op: DispatchOp, ns: seq<Word>, rest: Data)
    ensures PutItem(op.queue, PutItem(op.kernel, PutWord(op.dimension, Words(ns) + rest)))
            == Words([op.queue.cid, op.queue.id, op.kernel.cid, op.kernel.id, op.dimension] + ns) + rest
  {
    hide PutWord, Words, PutItem;
    var kernel, queue := ItemWords(op.kernel), ItemWords(op.queue);
    Before(op.dimension, ns, rest);
    ItemLayout(op.kernel, Words([op.dimension] + ns) + rest);
    Glue(kernel, [op.dimension] + ns, rest);
    ItemLayout(op.queue, Words(kernel + ([op.dimension] + ns)) + rest);
    Glue(queue, kernel + ([op.dimension] + ns), rest);
    assert queue + (kernel + ([op.dimension] + ns)) == [op.queue.cid, op.queue.id, op.kernel.cid, op.kernel.id, op.dimension] + ns;
  }

  /** The bytes of a dispatch are those words, each big-endian. */
  lemma DispatchLayout(op: DispatchOp, rest: Data)
    requires SizedOp(op)
    ensures PutDispatch(op, rest) == Words(DispatchWords(op)) + rest
  {
    hide PutArray, PutItem, PutWord, Words, FlatWords;
    var offset, size, local := [|op.globalWorkOffset|] + op.globalWorkOffset, [|op.globalWorkSize|] + op.globalWorkSize,
      [|op.localWorkSize|] + op.localWorkSize;
    var tail := [|op.args|] + FlatWords(ArgWords, op.args) + ([|op.refs|] + FlatWords(SurfaceIdWords, op.refs));
    DispatchTail(op, rest);
    WordArrayLayout(op.localWorkSize, Words(tail) + rest);
    Glue(local, tail, rest);
    WordArrayLayout(op.globalWorkSize, Words(local + tail) + rest);
    Glue(size, local + tail, rest);
    WordArrayLayout(op.globalWorkOffset, Words(size + (local + tail)) + rest);
    Glue(offset, size + (local + tail), rest);
    DispatchHead(op, offset + (size + (local + tail)), rest);
    assert [op.queue.cid, op.queue.id, op.kernel.cid, op.kernel.id, op.dimension] + (offset + (size + (local + tail))) == DispatchWords(op);
  }

  /**
   A return status is its error number in two's complement; if that is zero, a word
   follows that says whether there is a result, and then its nonce and its status.
   */
  lemma ReturnStatusLayout(r: ReturnStatus, rest: Data)
    requires SizedStatus(r)
    ensures PutReturnStatus(r, rest) ==
            WordBytes(if r.errno < 0 then r.errno + 0x1_0000_0000 else r.errno) +
            if r.errno != 0 then rest
            else if r.ret.None? then WordBytes(0) + rest
            else WordBytes(1) + (PutBytes(r.ret.value.nonce, []) + WordBytes(r.ret.value.status) + rest)
  {
    assert r.errno % UINT == if r.errno < 0 then r.errno + 0x1_0000_0000 else r.errno;
    if r.errno == 0 && r.ret.Some? {
      var s := r.ret.value;
      hide WordBytes;
      OpaqueLayout(s.nonce, PutWord(s.status, rest));
      OpaqueLayout(s.nonce, []);
      assert PutBytes(s.nonce, WordBytes(s.status) + rest) == PutBytes(s.nonce, []) + WordBytes(s.status) + rest;
    }
  }
}
