/**
 SPIR-V modules as streams of words: packing of literal strings
 (frontends/vmxc/src/vmxc_spirv_base.hpp) and the cloner that rebuilds a module
 from its parsed instructions (frontends/vmxc/src/vmxc_spirv_clone.cpp).
 */
module Spirv {
  type Word = bv32

  // ---------------------------------------------------------------------
  // Literal strings (section 2.2.1 of the SPIR-V specification)
  // ---------------------------------------------------------------------

  /** Byte k of a word, the low-order byte first. */
  function ByteOf(w: Word, k: nat): bv8
    requires k < 4
  {
    match k
    case 0 => (w & 0xFF) as bv8
    case 1 => ((w >> 8) & 0xFF) as bv8
    case 2 => ((w >> 16) & 0xFF) as bv8
    case _ => ((w >> 24) & 0xFF) as bv8
  }

  /** `new_byte << (8 * k)` */
  function ShiftByte(b: bv8, k: nat): Word
    requires k < 4
  {
    match k
    case 0 => b as bv32
    case 1 => (b as bv32) << 8
    case 2 => (b as bv32) << 16
    case _ => (b as bv32) << 24
  }

  /** `word |= new_byte << (8 * k)` */
  function OrIn(w: Word, b: bv8, k: nat): Word
    requires k < 4
  {
    w | ShiftByte(b, k)
  }

  /** A word is its four bytes, the low-order byte first. */
  lemma LittleEndian(w: Word)
    ensures w == (ByteOf(w, 0) as bv32) | ((ByteOf(w, 1) as bv32) << 8) | ((ByteOf(w, 2) as bv32) << 16) | ((ByteOf(w, 3) as bv32) << 24)
  {}

  /** Filling in a byte that is zero leaves the others alone. */
  lemma OrByte(w: Word, b: bv8, k: nat, m: nat)
    requires k < 4 && m < 4 && ByteOf(w, k) == 0
    ensures ByteOf(OrIn(w, b, k), m) == if m == k then b else ByteOf(w, m)
  {
    hide ByteOf, OrIn;
    match k
    case 0 => OrByte0(w, b);
    case 1 => OrByte1(w, b);
    case 2 => OrByte2(w, b);
    case 3 => OrByte3(w, b);
  }

  lemma OrByte0(w: Word, b: bv8)
    requires ByteOf(w, 0) == 0
    ensures var v := OrIn(w, b, 0);
            ByteOf(v, 0) == b && ByteOf(v, 1) == ByteOf(w, 1) && ByteOf(v, 2) == ByteOf(w, 2) && ByteOf(v, 3) == ByteOf(w, 3)
  {}

  lemma OrByte1(w: Word, b: bv8)
    requires ByteOf(w, 1) == 0
    ensures var v := OrIn(w, b, 1);
            ByteOf(v, 0) == ByteOf(w, 0) && ByteOf(v, 1) == b && ByteOf(v, 2) == ByteOf(w, 2) && ByteOf(v, 3) == ByteOf(w, 3)
  {}

  lemma OrByte2(w: Word, b: bv8)
    requires ByteOf(w, 2) == 0
    ensures var v := OrIn(w, b, 2);
            ByteOf(v, 0) == ByteOf(w, 0) && ByteOf(v, 1) == ByteOf(w, 1) && ByteOf(v, 2) == b && ByteOf(v, 3) == ByteOf(w, 3)
  {}

  lemma OrByte3(w: Word, b: bv8)
    requires ByteOf(w, 3) == 0
    ensures var v := OrIn(w, b, 3);
            ByteOf(v, 0) == ByteOf(w, 0) && ByteOf(v, 1) == ByteOf(w, 1) && ByteOf(v, 2) == ByteOf(w, 2) && ByteOf(v, 3) == b
  {}

  function ByteAt(words: seq<Word>, i: nat): bv8
    requires i < 4 * |words|
  {
    ByteOf(words[i / 4], i % 4)
  }

  /** The bytes of the string followed by NUL bytes. */
  function Padded(input: seq<bv8>, i: nat): bv8 {
    if i < |input| then input[i] else 0
  }

  /** The words hold the string, and only zeros after it. */
  ghost predicate Packs(words: seq<Word>, input: seq<bv8>) {
    && |words| == |input| / 4 + 1
    && Holds(words, input)
  }

  ghost predicate Holds(words: seq<Word>, input: seq<bv8>) {
    forall i: nat :: i < 4 * |words| ==> ByteAt(words, i) == Padded(input, i)
  }

  /** The bytes of `word` written so far are those of the string from position 4 * q on, and the others are zero. */
  ghost predicate Partial(word: Word, input: seq<bv8>, q: nat, r: nat) {
    forall k: nat :: k < 4 ==> ByteOf(word, k) == PartialByte(input, q, r, k)
  }

  function PartialByte(input: seq<bv8>, q: nat, r: nat, k: nat): bv8 {
    if k < r then Padded(input, 4 * q + k) else 0
  }

  lemma PartialStep(word: Word, input: seq<bv8>, q: nat, r: nat)
    requires r < 4 && Partial(word, input, q, r)
    ensures Partial(OrIn(word, Padded(input, 4 * q + r), r), input, q, r + 1)
  {
    hide ByteOf, OrIn;
    var next := OrIn(word, Padded(input, 4 * q + r), r);
    forall k: nat | k < 4 ensures ByteOf(next, k) == PartialByte(input, q, r + 1, k) {
      OrByte(word, Padded(input, 4 * q + r), r, k);
    }
  }

  lemma WordPushed(result: seq<Word>, word: Word, input: seq<bv8>)
    requires Partial(word, input, |result|, 4)
    requires Holds(result, input)
    ensures Holds(result + [word], input)
  {
    hide ByteOf;
    forall i: nat | i < 4 * |result + [word]| ensures ByteAt(result + [word], i) == Padded(input, i) {
      if i >= 4 * |result| {
        assert i / 4 == |result| && i == 4 * |result| + i % 4;
        assert ByteOf(word, i % 4) == PartialByte(input, |result|, 4, i % 4);
      } else {
        assert ByteAt(result, i) == Padded(input, i);
      }
    }
  }

  lemma EmptyWord(input: seq<bv8>, q: nat)
    ensures Partial(0, input, q, 0)
  {}

  lemma NothingHeld(input: seq<bv8>)
    ensures Holds([], input)
  {}

  /** A word whose remaining bytes all lie beyond the string is complete. */
  lemma TailWord(word: Word, input: seq<bv8>, q: nat, r: nat)
    requires Partial(word, input, q, r) && 4 * q + r > |input|
    ensures Partial(word, input, q, 4)
  {}

  /** SPIRVMakeVector */
  method MakeVector(input: seq<bv8>) returns (result: seq<Word>)
    ensures Packs(result, input)
  {
    hide ByteOf, OrIn, Partial, Holds;
    result := [];
    var word: Word := 0;
    EmptyWord(input, 0);
    NothingHeld(input);
    var i: nat := 0;
    while i <= |input|
      invariant i <= |input| + 1
      invariant |result| == i / 4
      invariant Partial(word, input, i / 4, i % 4)
      invariant Holds(result, input)
    {
      assert i == 4 * (i / 4) + i % 4;
      PartialStep(word, input, i / 4, i % 4);
      word := OrIn(word, if i < |input| then input[i] else 0, i % 4);
      if i % 4 == 3 {
        WordPushed(result, word, input);
        result := result + [word];
        word := 0;
        EmptyWord(input, (i + 1) / 4);
      }
      i := i + 1;
    }
    if (|input| + 1) % 4 != 0 {
      TailWord(word, input, i / 4, i % 4);
      WordPushed(result, word, input);
      result := result + [word];
    }
  }

  /** The string that a reader takes out of words: everything before the first NUL byte. */
  function Unpack(words: seq<Word>, from: nat): seq<bv8>
    requires from <= 4 * |words|
    decreases 4 * |words| - from
  {
    if from == 4 * |words| || ByteAt(words, from) == 0 then []
    else [ByteAt(words, from)] + Unpack(words, from + 1)
  }

  lemma {:induction false} UnpackSuffix(words: seq<Word>, input: seq<bv8>, from: nat)
    requires Packs(words, input) && from <= |input|
    requires forall i :: from <= i < |input| ==> input[i] != 0
    ensures Unpack(words, from) == input[from..]
    decreases |input| - from
  {
    assert ByteAt(words, from) == Padded(input, from);
    if from < |input| {
      UnpackSuffix(words, input, from + 1);
      assert input[from..] == [input[from]] + input[from + 1..];
    }
  }

  lemma {:induction false} UnpackHasNoNul(words: seq<Word>, from: nat)
    requires from <= 4 * |words|
    ensures 0 !in Unpack(words, from)
    decreases 4 * |words| - from
  {
    if from < 4 * |words| && ByteAt(words, from) != 0 { UnpackHasNoNul(words, from + 1); }
  }

  /** A packed string unpacks to itself if and only if it has no NUL byte. */
  lemma UnpackIff(words: seq<Word>, input: seq<bv8>)
    requires Packs(words, input)
    ensures Unpack(words, 0) == input <==> 0 !in input
  {
    UnpackHasNoNul(words, 0);
    if 0 !in input {
      forall i | 0 <= i < |input| ensures input[i] != 0 { assert input[i] in input; }
      UnpackSuffix(words, input, 0);
    }
  }

  // ---------------------------------------------------------------------
  // Cloning (section 2.3 of the SPIR-V specification)
  // ---------------------------------------------------------------------

  /** Operand words of an instruction: `numWords` words from `offset` on. */
  datatype Operand = Operand(offset: nat, numWords: nat)

  /** An instruction as the parser hands it over. */
  datatype Instruction = Instruction(words: seq<Word>, opcode: bv16, operands: seq<Operand>)

  datatype Header = Header(magic: Word, version: Word, generator: Word, idBound: Word, schema: Word)

  /** The first word: the word count in the upper half, the opcode in the lower. */
  function OpcodeMake(count: bv16, opcode: bv16): Word {
    ((count as bv32) << 16) | (opcode as bv32)
  }

  /** The upper half of the first word is the count, and the lower half the opcode. */
  lemma OpcodeHalves(count: bv16, opcode: bv16)
    ensures (OpcodeMake(count, opcode) >> 16) as bv16 == count
    ensures (OpcodeMake(count, opcode) & 0xFFFF) as bv16 == opcode
  {}

  ghost predicate InRange(inst: Instruction) {
    && |inst.words| < 0x1_0000
    && forall i :: 0 <= i < |inst.operands| ==> inst.operands[i].offset + inst.operands[i].numWords <= |inst.words|
  }

  /** Some of the first n operands has word j. */
  ghost predicate Covered(operands: seq<Operand>, n: nat, j: nat)
    requires n <= |operands|
  {
    exists i :: 0 <= i < n && operands[i].offset <= j < operands[i].offset + operands[i].numWords
  }

  /** The words of the clone: what the operands cover, zeros elsewhere, and a first word made from the count. */
  ghost predicate IsClone(inst: Instruction, out: seq<Word>) {
    if inst.words == [] then out == [inst.opcode as bv32]
    else
      && |out| == |inst.words| < 0x1_0000
      && out[0] == OpcodeMake(|inst.words| as bv16, inst.opcode)
      && forall j :: 0 < j < |out| ==> out[j] == if Covered(inst.operands, |inst.operands|, j) then inst.words[j] else 0
  }

  /** An instruction that the cloner reproduces: its first word is made up of its count and opcode, and what no operand covers is zero. */
  ghost predicate Reproducible(inst: Instruction) {
    && 0 < |inst.words| < 0x1_0000
    && inst.words[0] == OpcodeMake(|inst.words| as bv16, inst.opcode)
    && forall j :: 0 < j < |inst.words| ==> Covered(inst.operands, |inst.operands|, j) || inst.words[j] == 0
  }

  lemma CloneIff(inst: Instruction, out: seq<Word>)
    requires IsClone(inst, out)
    ensures out == inst.words <==> Reproducible(inst)
  {
    if inst.words != [] && out == inst.words {
      forall j | 0 < j < |inst.words| ensures Covered(inst.operands, |inst.operands|, j) || inst.words[j] == 0 {
        assert out[j] == inst.words[j];
      }
    }
  }

  /** Which words a clone has: the count and opcode first, then a copy of each word of an operand, and zeros where there is no operand. */
  lemma ClonedWords(inst: Instruction, out: seq<Word>, j: nat)
    requires IsClone(inst, out) && 0 < j < |out|
    ensures |out| == |inst.words|
    ensures (out[0] >> 16) as bv16 == |inst.words| as bv16 && (out[0] & 0xFFFF) as bv16 == inst.opcode
    ensures (exists i :: 0 <= i < |inst.operands| && inst.operands[i].offset <= j < inst.operands[i].offset + inst.operands[i].numWords) ==>
              out[j] == inst.words[j]
    ensures (forall i :: 0 <= i < |inst.operands| ==> !(inst.operands[i].offset <= j < inst.operands[i].offset + inst.operands[i].numWords)) ==>
              out[j] == 0
  {
    OpcodeHalves(|inst.words| as bv16, inst.opcode);
  }

  function HeaderWords(h: Header): seq<Word> {
    [h.magic, h.version, h.generator, h.idBound, h.schema]
  }

  /** The words of a module. */
  function ModuleWords(h: Header, parts: seq<seq<Word>>): seq<Word> {
    HeaderWords(h) + Flat(parts)
  }

  function Flat(parts: seq<seq<Word>>): seq<Word> {
    if parts == [] then [] else Flat(parts[..|parts| - 1]) + parts[|parts| - 1]
  }

  /** A module starts with its five header words, and its first instruction comes next. */
  lemma ModuleStarts(h: Header, first: seq<Word>, others: seq<seq<Word>>)
    ensures ModuleWords(h, [first] + others) == [h.magic, h.version, h.generator, h.idBound, h.schema] + first + Flat(others)
  {
    FlatFirst(first, others);
  }

  lemma {:induction false} FlatFirst(first: seq<Word>, others: seq<seq<Word>>)
    ensures Flat([first] + others) == first + Flat(others)
  {
    if others == [] {
      assert [first] + others == [first] && [first][..0] == [];
    } else {
      var n := |others| - 1;
      assert ([first] + others)[..n + 1] == [first] + others[..n];
      FlatFirst(first, others[..n]);
    }
  }

  lemma {:induction false} FlatEqualIff(a: seq<seq<Word>>, b: seq<seq<Word>>)
    requires |a| == |b| && forall i :: 0 <= i < |a| ==> |a[i]| == |b[i]|
    ensures |Flat(a)| == |Flat(b)|
    ensures Flat(a) == Flat(b) <==> a == b
  {
    if a != [] {
      var n := |a| - 1;
      FlatEqualIff(a[..n], b[..n]);
      var fa, fb := Flat(a[..n]), Flat(b[..n]);
      assert (fa + a[n])[..|fa|] == fa && (fb + b[n])[..|fb|] == fb;
      assert (fa + a[n])[|fa|..] == a[n] && (fb + b[n])[|fb|..] == b[n];
      assert a == a[..n] + [a[n]] && b == b[..n] + [b[n]];
    }
  }

  /** The words of the instructions of a module. */
  function WordsOf(insts: seq<Instruction>): seq<seq<Word>> {
    seq(|insts|, i requires 0 <= i < |insts| => insts[i].words)
  }

  ghost predicate AreClones(insts: seq<Instruction>, outs: seq<seq<Word>>) {
    |outs| == |insts| && forall i :: 0 <= i < |insts| ==> IsClone(insts[i], outs[i])
  }

  /** The clone of a module equals the module word for word if and only if every instruction is reproducible. */
  lemma ModuleCloneIff(h: Header, insts: seq<Instruction>, outs: seq<seq<Word>>)
    requires AreClones(insts, outs) && forall i :: 0 <= i < |insts| ==> |insts[i].words| > 0
    ensures ModuleWords(h, outs) == ModuleWords(h, WordsOf(insts)) <==> forall i :: 0 <= i < |insts| ==> Reproducible(insts[i])
  {
    hide Reproducible;
    var words := WordsOf(insts);
    forall i | 0 <= i < |insts| ensures |outs[i]| == |words[i]| && (outs[i] == words[i] <==> Reproducible(insts[i])) {
      assert IsClone(insts[i], outs[i]);
      CloneIff(insts[i], outs[i]);
    }
    hide IsClone;
    FlatEqualIff(outs, words);
    assert ModuleWords(h, outs)[5..] == Flat(outs) && ModuleWords(h, words)[5..] == Flat(words);
  }

  lemma Spliced(a: seq<Word>, b: seq<Word>, lo: nat, hi: nat)
    requires lo <= hi <= |a| == |b|
    ensures |a[..lo] + b[lo..hi] + a[hi..]| == |a|
    ensures forall j :: 0 <= j < |a| ==> (a[..lo] + b[lo..hi] + a[hi..])[j] == if lo <= j < hi then b[j] else a[j]
  {
    var s := a[..lo] + b[lo..hi];
    assert forall j :: 0 <= j < hi ==> s[j] == if lo <= j then b[j] else a[j];
  }

  class Cloner {
    var spirv: seq<Word>
    var instWords: seq<Word>

    constructor ()
      ensures spirv == []
    {
      spirv, instWords := [], [];
    }

    method ProcessHeader(h: Header)
      modifies `spirv
      ensures spirv == old(spirv) + HeaderWords(h)
    {
      spirv := spirv + [h.magic, h.version, h.generator, h.idBound, h.schema];
    }

    method ProcessInstruction(inst: Instruction) returns (ghost out: seq<Word>)
      requires InRange(inst)
      modifies this
      ensures IsClone(inst, out) && spirv == old(spirv) + out
    {
      instWords := [];
      if |inst.words| == 0 {
        out := [inst.opcode as bv32];
        spirv := spirv + [inst.opcode as bv32];
        return;
      }
      instWords := seq(|inst.words|, _ => 0);
      CopyOperands(inst);
      instWords := instWords[0 := OpcodeMake(|instWords| as bv16, inst.opcode)];
      out := instWords;
      spirv := spirv + instWords;
    }

    /** The loop over the operands: each is copied to where it was. */
    method CopyOperands(inst: Instruction)
      requires InRange(inst) && instWords == seq(|inst.words|, _ => 0)
      modifies `instWords
      ensures |instWords| == |inst.words|
      ensures forall j :: 0 <= j < |instWords| ==>
                instWords[j] == if Covered(inst.operands, |inst.operands|, j) then inst.words[j] else 0
    {
      for i := 0 to |inst.operands|
        invariant |instWords| == |inst.words|
        invariant forall j :: 0 <= j < |instWords| ==> instWords[j] == if Covered(inst.operands, i, j) then inst.words[j] else 0
      {
        var lo := inst.operands[i].offset;
        var hi := lo + inst.operands[i].numWords;
        ghost var before := instWords;
        instWords := instWords[..lo] + inst.words[lo..hi] + instWords[hi..];
        Spliced(before, inst.words, lo, hi);
        forall j | 0 <= j < |instWords|
          ensures instWords[j] == if Covered(inst.operands, i + 1, j) then inst.words[j] else 0
        {
          assert Covered(inst.operands, i + 1, j) <==> Covered(inst.operands, i, j) || lo <= j < hi;
        }
      }
    }

    /** The parse of a module: the header, and then one instruction after the other. */
    method Clone(h: Header, insts: seq<Instruction>) returns (ghost outs: seq<seq<Word>>)
      requires forall i :: 0 <= i < |insts| ==> InRange(insts[i])
      modifies this
      ensures AreClones(insts, outs)
      ensures spirv == old(spirv) + ModuleWords(h, outs)
    {
      hide IsClone, InRange;
      outs := [];
      ProcessHeader(h);
      for i := 0 to |insts|
        invariant |outs| == i && forall j :: 0 <= j < i ==> IsClone(insts[j], outs[j])
        invariant spirv == old(spirv) + ModuleWords(h, outs)
      {
        ghost var out := ProcessInstruction(insts[i]);
        assert (outs + [out])[..|outs|] == outs;
        outs := outs + [out];
      }
    }

    /** GetSPIRV into a vector hands the words over; the cloner starts afresh. */
    method TakeSPIRV() returns (out: seq<Word>)
      modifies `spirv
      ensures out == old(spirv) && spirv == []
    {
      out := spirv;
      spirv := [];
    }
  }
}
