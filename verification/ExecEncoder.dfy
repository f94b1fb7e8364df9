/** The executable encoder: walks a machine function, appends bytes, and backpatches its jumps. */
module ExecEncoder {
  import opened Wrappers
  import opened MachineIR
  import opened LinearScan
  import opened X86
  import opened X86Bytes
  import opened ParallelMove
  import opened EncoderSpec

  class Encoder {
    var buf: seq<Byte>
    var labelPos: map<int, nat>
    var jumpFixups: seq<(int, int)>
    var callFixups: seq<(nat, int)>

    constructor ()
      ensures buf == [] && labelPos == map[] && jumpFixups == [] && callFixups == []
    {
      buf, labelPos, jumpFixups, callFixups := [], map[], [], [];
    }

    /** Labels are ids; negative ones are ignored. */
    method DefineLabel(id: int)
      modifies this`labelPos
      ensures labelPos == if id < 0 then old(labelPos) else old(labelPos)[id := |buf|]
    {
      if id >= 0 {
        labelPos := labelPos[id := |buf|];
      }
    }

    method Emit(i: Ins)
      modifies this`buf
      ensures buf == old(buf) + Encode(i)
    {
      buf := buf + Encode(i);
    }

    method EmitAll(code: seq<Ins>)
      modifies this`buf
      ensures buf == old(buf) + EncodeAll(code)
    {
      hide Encode;
      for k := 0 to |code|
        invariant buf == old(buf) + EncodeAll(code[..k])
      {
        assert code[..k + 1][..k] == code[..k];
        Emit(code[k]);
      }
      assert code[..|code|] == code;
    }

    /** A transfer with a zero displacement, recorded for patching. */
    method EmitJump(opcode: seq<Byte>, lbl: int)
      modifies this`buf, this`jumpFixups
      ensures buf == old(buf) + opcode + [0, 0, 0, 0]
      ensures jumpFixups == old(jumpFixups) + [(|buf| - 4, lbl)]
    {
      buf := buf + opcode;
      jumpFixups := jumpFixups + [(|buf|, lbl)];
      buf := buf + [0, 0, 0, 0];
    }

    method EmitCall(callee: int)
      modifies this`buf, this`callFixups
      ensures buf == old(buf) + [0xE8, 0, 0, 0, 0]
      ensures callFixups == old(callFixups) + [(|old(buf)| + 1, callee)]
    {
      buf := buf + [0xE8];
      callFixups := callFixups + [(|buf|, callee)];
      buf := buf + [0, 0, 0, 0];
    }
  }

  // ---- Layout bookkeeping ----

  lemma ZeroDisplacement()
    ensures Rel32(0) == [0, 0, 0, 0]
  {
    assert LittleEndian(0, 4) == [0] + LittleEndian(0, 3);
    assert LittleEndian(0, 3) == [0] + LittleEndian(0, 2);
    assert LittleEndian(0, 2) == [0] + LittleEndian(0, 1);
    assert LittleEndian(0, 1) == [0] + LittleEndian(0, 0);
  }

  lemma {:induction false} EncodeAllAppend(a: seq<Ins>, b: seq<Ins>)
    ensures EncodeAll(a + b) == EncodeAll(a) + EncodeAll(b)
  {
    hide Encode;
    if b == [] {
      assert a + b == a;
    } else {
      var n := |b| - 1;
      EncodeAllAppend(a, b[..n]);
      assert (a + b)[..|a + b| - 1] == a + b[..n];
    }
  }

  lemma LayoutGrows(blocks: seq<seq<Ins>>, code: seq<Ins>)
    ensures Layout(blocks + [code]) == Layout(blocks) + EncodeAll(code)
    ensures forall i :: 0 <= i <= |blocks| ==> Position(blocks + [code], i) == Position(blocks, i)
    ensures Position(blocks, |blocks|) == |Layout(blocks)|
  {
    hide Encode, EncodeAll;
    var more := blocks + [code];
    assert more[..|more| - 1] == blocks;
    forall i | 0 <= i <= |blocks| ensures Position(more, i) == Position(blocks, i) {
      assert more[..i] == blocks[..i];
    }
    assert blocks[..|blocks|] == blocks;
  }

  lemma {:induction false} FlattenAppend(a: seq<seq<Ins>>, b: seq<seq<Ins>>)
    ensures Flatten(a + b) == Flatten(a) + Flatten(b)
  {
    hide Encode, EncodeAll;
    if b == [] {
      assert a + b == a;
    } else {
      var n := |b| - 1;
      FlattenAppend(a, b[..n]);
      assert (a + b)[..|a + b| - 1] == a + b[..n];
    }
  }

  /** The bytes before, of, and after block `i`. */
  lemma LayoutAround(blocks: seq<seq<Ins>>, i: nat)
    requires i < |blocks|
    ensures Layout(blocks) == Layout(blocks[..i]) + EncodeAll(blocks[i]) + Flatten(blocks[i + 1..])
  {
    hide Encode, EncodeAll;
    assert blocks == blocks[..i + 1] + blocks[i + 1..];
    FlattenAppend(blocks[..i + 1], blocks[i + 1..]);
    assert blocks[..i + 1][..i] == blocks[..i];
  }

  lemma {:induction false} FixupsStable(p: Program, blocks: seq<seq<Ins>>, code: seq<Ins>, n: nat)
    requires n <= |blocks| < |p|
    requires forall i :: 0 <= i < n && IsJump(p[i]) ==> p[i].imm.Some?
    requires forall i :: 0 <= i < n && p[i].op.OpCall? ==> p[i].imm.Some? && |blocks[i]| >= 2
    ensures forall i :: 0 <= i < n ==> (blocks + [code])[i] == blocks[i]
    ensures JumpFixups(p, blocks + [code], n) == JumpFixups(p, blocks, n)
    ensures CallSites(p, blocks + [code], n) == CallSites(p, blocks, n)
  {
    hide Encode, EncodeAll, Layout, Position;
    LayoutGrows(blocks, code);
    if n > 0 {
      FixupsStable(p, blocks, code, n - 1);
    }
  }

  lemma {:induction false} BlocksErrorPersists(p: Program, al: Allocation, moves: seq<Move>, n: nat, m: nat)
    requires n <= m <= |p| && Blocks(p, al, moves, n).Err?
    ensures Blocks(p, al, moves, m) == Blocks(p, al, moves, n)
  {
    if n < m {
      BlocksErrorPersists(p, al, moves, n, m - 1);
    }
  }

  lemma {:induction false} ParamErrorPersists(p: Program, al: Allocation, n: nat, m: nat)
    requires n <= m <= |p| && ParamMoves(p, al, n).Err?
    ensures ParamMoves(p, al, m) == ParamMoves(p, al, n)
  {
    if n < m {
      ParamErrorPersists(p, al, n, m - 1);
    }
  }

  lemma {:induction false} JumpErrorPersists(p: Program, blocks: seq<seq<Ins>>, n: nat, m: nat)
    requires |blocks| == |p| && n <= m <= |p| && (forall i :: 0 <= i < |p| && IsJump(p[i]) ==> p[i].imm.Some?)
    requires JumpError(p, blocks, n).Some?
    ensures JumpError(p, blocks, m) == JumpError(p, blocks, n)
  {
    if n < m {
      JumpErrorPersists(p, blocks, n, m - 1);
    }
  }

  // ---- Parameters ----

  method CollectParamMoves(p: Program, al: Allocation) returns (r: Result<seq<Move>, EncodeError>)
    ensures r == ParamMoves(p, al, |p|)
  {
    var moves: seq<Move> := [];
    for i := 0 to |p|
      invariant ParamMoves(p, al, i) == Ok(moves)
    {
      if p[i].op.OpParam? {
        if p[i].imm.None? || !(0 <= p[i].imm.value < ABI_MAX_ARGS) {
          ParamErrorPersists(p, al, i + 1, |p|);
          return Err(ParamOutOfRange);
        }
        var d := HomesOf(al, p[i].defs, 1);
        if d.Err? {
          ParamErrorPersists(p, al, i + 1, |p|);
          return Err(d.error);
        }
        moves := moves + [Move(ABI_ARGS[p[i].imm.value], d.value[0])];
      }
    }
    return Ok(moves);
  }

  // ---- The instruction walk ----

  /** The state of the encoder after the first `n` instructions. */
  ghost predicate Walked(p: Program, al: Allocation, moves: seq<Move>, blocks: seq<seq<Ins>>, n: nat,
                         buf: seq<Byte>, labelPos: map<int, nat>,
                         jumpFixups: seq<(int, int)>, callFixups: seq<(nat, int)>)
  {
    && n <= |p|
    && Blocks(p, al, moves, n) == Ok(blocks)
    && |blocks| == n
    && buf == Layout(blocks)
    && (forall i :: 0 <= i < n && IsJump(p[i]) ==> p[i].imm.Some?)
    && (forall i :: 0 <= i < n && p[i].op.OpCall? ==> p[i].imm.Some? && |blocks[i]| >= 2)
    && jumpFixups == JumpFixups(p, blocks, n)
    && callFixups == CallSites(p, blocks, n)
    && LabelsRecorded(p, blocks, n, labelPos)
  }

  ghost predicate LabelsRecorded(p: Program, blocks: seq<seq<Ins>>, n: nat, labelPos: map<int, nat>)
    requires n <= |p| && n <= |blocks|
  {
    forall id :: 0 <= id ==>
      && (id in labelPos <==> LabelBefore(p, id, n).Some?)
      && (id in labelPos ==> labelPos[id] == Position(blocks, LabelBefore(p, id, n).value))
  }

  lemma LabelsStable(p: Program, blocks: seq<seq<Ins>>, code: seq<Ins>, labelPos: map<int, nat>)
    requires |blocks| < |p| && LabelsRecorded(p, blocks, |blocks|, labelPos)
    ensures var mi := p[|blocks|];
      LabelsRecorded(p, blocks + [code], |blocks| + 1,
        if mi.op.OpLabel? && mi.imm.Some? && mi.imm.value >= 0 then labelPos[mi.imm.value := |Layout(blocks)|]
        else labelPos)
  {
    hide Encode, EncodeAll;
    LayoutGrows(blocks, code);
  }

  function TransferOpcode(op: Mnemonic): (r: seq<Byte>) {
    if op.OpJmp? then [0xE9] else [0x0F, 0x84]
  }

  function Transfer(op: Mnemonic, rel: int): Ins {
    if op.OpJmp? then Jmp(rel) else Jz(rel)
  }

  lemma TransferBytes(op: Mnemonic, rel: int)
    ensures Encode(Transfer(op, rel)) == TransferOpcode(op) + Rel32(rel)
    ensures Encode(Transfer(op, 0)) == TransferOpcode(op) + [0, 0, 0, 0]
  {
    ZeroDisplacement();
  }

  lemma CallBytes()
    ensures Encode(Call(0)) == [0xE8, 0, 0, 0, 0]
  {
    ZeroDisplacement();
  }

  lemma LastOfCode(code: seq<Ins>)
    requires code != []
    ensures EncodeAll(code) == EncodeAll(code[..|code| - 1]) + Encode(code[|code| - 1])
  {
  }

  /** What encoding one instruction does to the encoder. */
  method EmitBlock(enc: Encoder, mi: Instr, code: seq<Ins>)
    requires mi.op.OpLabel? || IsJump(mi) || mi.op.OpCall? ==> mi.imm.Some?
    requires mi.op.OpLabel? ==> code == []
    requires IsJump(mi) ==> code != [] && code[|code| - 1] == Transfer(mi.op, 0)
    requires mi.op.OpCall? ==> |code| >= 2 && code[|code| - 2] == Call(0)
    modifies enc
    ensures enc.buf == old(enc.buf) + EncodeAll(code)
    ensures enc.labelPos ==
      if mi.op.OpLabel? && mi.imm.value >= 0 then old(enc.labelPos)[mi.imm.value := |old(enc.buf)|]
      else old(enc.labelPos)
    ensures enc.jumpFixups ==
      old(enc.jumpFixups) + if IsJump(mi) then [(|enc.buf| - 4, mi.imm.value)] else []
    ensures enc.callFixups ==
      old(enc.callFixups) + if mi.op.OpCall?
        then [(|old(enc.buf)| + |EncodeAll(code[..|code| - 2])| + 1, mi.imm.value)] else []
  {
    hide Encode, EncodeAll;
    if mi.op.OpLabel? {
      enc.DefineLabel(mi.imm.value);
      NoCode();
    } else if IsJump(mi) {
      var k := |code| - 1;
      enc.EmitAll(code[..k]);
      enc.EmitJump(TransferOpcode(mi.op), mi.imm.value);
      TransferBytes(mi.op, 0);
      LastOfCode(code);
    } else if mi.op.OpCall? {
      var k := |code| - 2;
      enc.EmitAll(code[..k]);
      enc.EmitCall(mi.imm.value);
      enc.Emit(code[k + 1]);
      CallBytes();
      LastOfCode(code);
      LastOfCode(code[..k + 1]);
      assert code[..k + 1][..k] == code[..k];
    } else {
      enc.EmitAll(code);
    }
  }

  lemma NoCode()
    ensures EncodeAll([]) == []
  {
  }

  lemma TransferLast(p: Program, al: Allocation, moves: seq<Move>, n: nat)
    requires n < |p| && Lower(p, al, moves, n).Ok? && IsJump(p[n])
    ensures var code := Lower(p, al, moves, n).value;
      code != [] && code[|code| - 1] == Transfer(p[n].op, 0)
  {
    LowerShapes(p, al, moves, n);
  }

  lemma WalkStep(p: Program, al: Allocation, moves: seq<Move>, blocks: seq<seq<Ins>>, n: nat, code: seq<Ins>,
                 buf: seq<Byte>, labelPos: map<int, nat>, jumpFixups: seq<(int, int)>, callFixups: seq<(nat, int)>)
    requires n < |p| && Lower(p, al, moves, n) == Ok(code)
    requires Walked(p, al, moves, blocks, n, buf, labelPos, jumpFixups, callFixups)
    requires IsJump(p[n]) || p[n].op.OpCall? ==> p[n].imm.Some?
    requires p[n].op.OpCall? ==> |code| >= 2
    ensures var mi := p[n];
      var buf' := buf + EncodeAll(code);
      Walked(p, al, moves, blocks + [code], n + 1, buf',
        if mi.op.OpLabel? && mi.imm.Some? && mi.imm.value >= 0 then labelPos[mi.imm.value := |buf|] else labelPos,
        jumpFixups + (if IsJump(mi) then [(|buf'| - 4, mi.imm.value)] else []),
        callFixups + (if mi.op.OpCall?
          then [(|buf| + |EncodeAll(code[..|code| - 2])| + 1, mi.imm.value)] else []))
  {
    hide Encode, EncodeAll, Lower, Layout, LabelsRecorded, Position;
    LayoutGrows(blocks, code);
    LabelsStable(p, blocks, code, labelPos);
    FixupsStable(p, blocks, code, n);
    BlockEnd(blocks + [code], n);
  }

  /** Encodes instruction `n`, whose code is `code`. */
  method EncodeNext(enc: Encoder, p: Program, ghost al: Allocation, ghost moves: seq<Move>,
                    ghost blocks: seq<seq<Ins>>, n: nat, code: seq<Ins>)
    requires n < |p| && Lower(p, al, moves, n) == Ok(code)
    requires Walked(p, al, moves, blocks, n, enc.buf, enc.labelPos, enc.jumpFixups, enc.callFixups)
    modifies enc
    ensures Walked(p, al, moves, blocks + [code], n + 1, enc.buf, enc.labelPos, enc.jumpFixups, enc.callFixups)
  {
    hide Encode, EncodeAll, Walked, Lower;
    LowerShapes(p, al, moves, n);
    if IsJump(p[n]) { TransferLast(p, al, moves, n); }
    WalkStep(p, al, moves, blocks, n, code, enc.buf, enc.labelPos, enc.jumpFixups, enc.callFixups);
    EmitBlock(enc, p[n], code);
  }

  method LowerNext(p: Program, al: Allocation, moves: seq<Move>, n: nat, paramSeen: bool)
    returns (r: Result<seq<Ins>, EncodeError>)
    requires n < |p| && paramSeen == HasParamBefore(p, n)
    ensures r == Lower(p, al, moves, n)
  {
    if p[n].op.OpParam? {
      if paramSeen { return Ok([]); }
      var code := ResolveMoves(moves);
      if code.None? { return Err(MoveCycle); }
      return Ok(code.value);
    }
    return Lower(p, al, moves, n);
  }

  // ---- Patching ----

  function Patch(out: seq<Byte>, at: nat, rel: int): (r: seq<Byte>)
    requires at + 4 <= |out|
    ensures |r| == |out|
  {
    out[..at] + Rel32(rel) + out[at + 4..]
  }

  /** The next jump at or after `n`, when there is a fixup left for one. */
  ghost function NextJump(p: Program, blocks: seq<seq<Ins>>, n: nat): (m: nat)
    requires Patchable(p, blocks) && n <= |p|
    requires |JumpFixups(p, blocks, n)| < |JumpFixups(p, blocks, |p|)|
    ensures n <= m < |p| && IsJump(p[m]) && forall i :: n <= i < m ==> !IsJump(p[i])
    ensures JumpFixups(p, blocks, m) == JumpFixups(p, blocks, n)
    decreases |p| - n
  {
    if IsJump(p[n]) then n else NextJump(p, blocks, n + 1)
  }

  lemma {:induction false} SameSizes(a: seq<seq<Ins>>, b: seq<seq<Ins>>)
    requires |a| == |b| && forall i :: 0 <= i < |a| ==> |EncodeAll(a[i])| == |EncodeAll(b[i])|
    ensures |Layout(a)| == |Layout(b)|
  {
    hide Encode, EncodeAll;
    if a != [] {
      SameSizes(a[..|a| - 1], b[..|b| - 1]);
    }
  }

  lemma JumpBlockLength(p: Program, blocks: seq<seq<Ins>>, i: nat)
    requires Patchable(p, blocks) && i < |p| && IsJump(p[i])
    ensures |EncodeAll(blocks[i])| >= 4
  {
    hide Encode, EncodeAll;
    LastOfCode(blocks[i]);
    TransferBytes(p[i].op, 0);
  }

  lemma PatchedSize(p: Program, blocks: seq<seq<Ins>>, i: nat)
    requires Patchable(p, blocks) && i < |p| && IsJump(p[i]) && Displacement(p, blocks, i).Some?
    ensures |EncodeAll(blocks[i])| >= 4
    ensures var n := |EncodeAll(blocks[i])| - 4;
      EncodeAll(Patched(p, blocks, i)) == EncodeAll(blocks[i])[..n] + Rel32(Displacement(p, blocks, i).value)
  {
    hide Encode, EncodeAll;
    var rel := Displacement(p, blocks, i).value;
    var code := Patched(p, blocks, i);
    assert code[..|code| - 1] == blocks[i][..|blocks[i]| - 1];
    LastOfCode(code);
    LastOfCode(blocks[i]);
    TransferBytes(p[i].op, rel);
    var front := EncodeAll(blocks[i][..|blocks[i]| - 1]);
    assert EncodeAll(blocks[i]) == (front + TransferOpcode(p[i].op)) + [0, 0, 0, 0];
    assert EncodeAll(code) == (front + TransferOpcode(p[i].op)) + Rel32(rel);
  }

  lemma PatchBytes(front: seq<Byte>, block: seq<Byte>, tail: seq<Byte>, rel: int)
    requires |block| >= 4
    ensures var k := |block| - 4;
      Patch(front + block + tail, |front| + k, rel) == front + (block[..k] + Rel32(rel)) + tail
  {
    var k := |block| - 4;
    var out := front + block + tail;
    assert block == block[..k] + block[k..];
    assert out[..|front| + k] == front + block[..k];
    assert out[|front| + k + 4..] == tail;
  }

  lemma PatchStep(p: Program, blocks: seq<seq<Ins>>, n: nat)
    requires Patchable(p, blocks) && n < |p| && IsJump(p[n]) && JumpError(p, blocks, n + 1).None?
    ensures JumpError(p, blocks, n).None?
    ensures 4 <= Position(blocks, n + 1) <= |Layout(PatchedTo(p, blocks, n))|
    ensures Patch(Layout(PatchedTo(p, blocks, n)), Position(blocks, n + 1) - 4, Displacement(p, blocks, n).value)
         == Layout(PatchedTo(p, blocks, n + 1))
  {
    hide Encode, EncodeAll, Layout, Flatten, Patched;
    var old_, new_ := PatchedTo(p, blocks, n), PatchedTo(p, blocks, n + 1);
    PatchedSizes(p, blocks, n);
    PatchedSize(p, blocks, n);
    LayoutAround(old_, n);
    LayoutAround(new_, n);
    BlockEnd(blocks, n);
    assert new_[..n] == old_[..n];
    assert new_[n + 1..] == old_[n + 1..];
    PatchBytes(Layout(old_[..n]), EncodeAll(blocks[n]), Flatten(old_[n + 1..]), Displacement(p, blocks, n).value);
  }

  lemma PatchedSizes(p: Program, blocks: seq<seq<Ins>>, n: nat)
    requires Patchable(p, blocks) && n <= |p| && JumpError(p, blocks, n).None?
    ensures |Layout(PatchedTo(p, blocks, n)[..n])| == Position(blocks, n)
  {
    hide Encode, EncodeAll, Layout, Flatten, Patched;
    var patched := PatchedTo(p, blocks, n);
    forall i | 0 <= i < n ensures |EncodeAll(patched[i])| == |EncodeAll(blocks[i])| {
      if IsJump(p[i]) { PatchedSize(p, blocks, i); }
    }
    SameSizes(patched[..n], blocks[..n]);
  }

  lemma PatchedToStable(p: Program, blocks: seq<seq<Ins>>, n: nat, m: nat)
    requires Patchable(p, blocks) && n <= m <= |p| && JumpError(p, blocks, n).None?
    requires forall i :: n <= i < m ==> !IsJump(p[i])
    ensures JumpError(p, blocks, m).None? && PatchedTo(p, blocks, m) == PatchedTo(p, blocks, n)
    decreases m
  {
    hide Encode, EncodeAll, Layout, Patched, Displacement;
    if n < m {
      PatchedToStable(p, blocks, n, m - 1);
    }
  }

  /** The state of patching after `k` fixups, which cover the jumps among the first `n` instructions. */
  ghost predicate PatchedUpTo(p: Program, blocks: seq<seq<Ins>>, fixups: seq<(int, int)>, k: nat, n: nat,
                              out: seq<Byte>)
  {
    && Patchable(p, blocks) && n <= |p| && k <= |fixups|
    && fixups == JumpFixups(p, blocks, |p|)
    && fixups[..k] == JumpFixups(p, blocks, n)
    && JumpError(p, blocks, n).None? && out == Layout(PatchedTo(p, blocks, n))
  }

  /** The jump that fixup `k` belongs to. */
  lemma FixupJump(p: Program, blocks: seq<seq<Ins>>, fixups: seq<(int, int)>, k: nat, n: nat, out: seq<Byte>)
    returns (m: nat)
    requires PatchedUpTo(p, blocks, fixups, k, n, out) && k < |fixups|
    ensures m < |p| && IsJump(p[m]) && PatchedUpTo(p, blocks, fixups, k, m, out)
    ensures fixups[..k + 1] == JumpFixups(p, blocks, m + 1)
    ensures 4 <= Position(blocks, m + 1) && fixups[k] == (Position(blocks, m + 1) - 4, p[m].imm.value)
  {
    hide Encode, EncodeAll, Layout, Patched, Position;
    assert |fixups[..k]| == k;
    m := NextJump(p, blocks, n);
    PatchedToStable(p, blocks, n, m);
    FixupsPrefix(p, blocks, m + 1, |p|);
    BlockEnd(blocks, m);
    JumpBlockLength(p, blocks, m);
    assert JumpFixups(p, blocks, m + 1) == fixups[..k] + [(Position(blocks, m + 1) - 4, p[m].imm.value)];
  }

  lemma LabelDistance(p: Program, blocks: seq<seq<Ins>>, labelPos: map<int, nat>, m: nat)
    requires Patchable(p, blocks) && LabelsRecorded(p, blocks, |p|, labelPos) && m < |p| && IsJump(p[m])
    ensures var id := p[m].imm.value;
      Displacement(p, blocks, m) ==
        if id >= 0 && id in labelPos then Some(labelPos[id] - Position(blocks, m + 1)) else None
  {
    hide Encode, EncodeAll, Layout, Position;
  }

  lemma PatchingStarts(p: Program, blocks: seq<seq<Ins>>, fixups: seq<(int, int)>)
    requires Patchable(p, blocks) && fixups == JumpFixups(p, blocks, |p|)
    ensures PatchedUpTo(p, blocks, fixups, 0, 0, Layout(blocks))
  {
    hide Encode, EncodeAll, Layout, Patched;
    assert PatchedTo(p, blocks, 0) == blocks;
  }

  /** One fixup, resolved or refused, at the jump `m` it belongs to. */
  lemma PatchingGoesOn(p: Program, blocks: seq<seq<Ins>>, fixups: seq<(int, int)>, k: nat, m: nat, out: seq<Byte>)
    requires k < |fixups| && m < |p| && IsJump(p[m]) && PatchedUpTo(p, blocks, fixups, k, m, out)
    requires fixups[..k + 1] == JumpFixups(p, blocks, m + 1)
    requires 4 <= Position(blocks, m + 1) && fixups[k] == (Position(blocks, m + 1) - 4, p[m].imm.value)
    ensures var d := Displacement(p, blocks, m);
      && (d.None? ==> JumpError(p, blocks, |p|) == Some(UndefinedLabel))
      && (d.Some? && !FitsRel32(d.value) ==> JumpError(p, blocks, |p|) == Some(DisplacementRange))
      && (d.Some? && FitsRel32(d.value) ==>
            && fixups[k].0 + 4 <= |out|
            && PatchedUpTo(p, blocks, fixups, k + 1, m + 1, Patch(out, fixups[k].0, d.value)))
  {
    hide Encode, EncodeAll, Layout, Patched, Position, Displacement, Patch;
    var d := Displacement(p, blocks, m);
    if d.None? || !FitsRel32(d.value) {
      JumpErrorPersists(p, blocks, m + 1, |p|);
    } else {
      PatchStep(p, blocks, m);
    }
  }

  lemma PatchingEnds(p: Program, blocks: seq<seq<Ins>>, fixups: seq<(int, int)>, n: nat, out: seq<Byte>)
    requires PatchedUpTo(p, blocks, fixups, |fixups|, n, out)
    ensures JumpError(p, blocks, |p|).None? && out == Layout(PatchedTo(p, blocks, |p|))
  {
    hide Encode, EncodeAll, Layout, Patched;
    assert fixups[..|fixups|] == fixups;
    NoJumpsLeft(p, blocks, n);
    PatchedToStable(p, blocks, n, |p|);
  }

  method ResolveJumps(p: Program, ghost blocks: seq<seq<Ins>>, buf: seq<Byte>, labelPos: map<int, nat>,
                      fixups: seq<(int, int)>) returns (r: Result<seq<Byte>, EncodeError>)
    requires Patchable(p, blocks) && buf == Layout(blocks) && LabelsRecorded(p, blocks, |p|, labelPos)
    requires fixups == JumpFixups(p, blocks, |p|)
    ensures JumpError(p, blocks, |p|).Some? ==> r == Err(JumpError(p, blocks, |p|).value)
    ensures JumpError(p, blocks, |p|).None? ==> r == Ok(Layout(PatchedTo(p, blocks, |p|)))
  {
    hide Encode, EncodeAll, Layout, Patched, LabelsRecorded, Position, Displacement, Patch, PatchedUpTo, JumpFixups;
    var out := buf;
    ghost var n: nat := 0;
    PatchingStarts(p, blocks, fixups);
    for k := 0 to |fixups|
      invariant PatchedUpTo(p, blocks, fixups, k, n, out)
    {
      ghost var m := FixupJump(p, blocks, fixups, k, n, out);
      LabelDistance(p, blocks, labelPos, m);
      PatchingGoesOn(p, blocks, fixups, k, m, out);
      var at: nat, id := fixups[k].0, fixups[k].1;
      if id < 0 || id !in labelPos {
        return Err(UndefinedLabel);
      }
      var target: int := labelPos[id];
      var rel := target - (at + 4);
      if !FitsRel32(rel) {
        return Err(DisplacementRange);
      }
      out := Patch(out, at, rel);
      n := m + 1;
    }
    PatchingEnds(p, blocks, fixups, n, out);
    return Ok(out);
  }

  lemma {:induction false} FixupsPrefix(p: Program, blocks: seq<seq<Ins>>, n: nat, m: nat)
    requires Patchable(p, blocks) && n <= m <= |p|
    ensures JumpFixups(p, blocks, n) <= JumpFixups(p, blocks, m)
  {
    hide Encode, EncodeAll;
    if n < m {
      FixupsPrefix(p, blocks, n, m - 1);
    }
  }

  lemma {:induction false} NoJumpsLeft(p: Program, blocks: seq<seq<Ins>>, n: nat)
    requires Patchable(p, blocks) && n <= |p|
    requires |JumpFixups(p, blocks, n)| == |JumpFixups(p, blocks, |p|)|
    ensures forall i :: n <= i < |p| ==> !IsJump(p[i])
    decreases |p| - n
  {
    hide Encode, EncodeAll;
    if n < |p| {
      FixupsPrefix(p, blocks, n + 1, |p|);
      NoJumpsLeft(p, blocks, n + 1);
    }
  }

  // ---- The encoder ----

  lemma WalkStarts(p: Program, al: Allocation, moves: seq<Move>)
    ensures Walked(p, al, moves, [], 0, [] + EncodeAll(Pushes(HOME_COUNT)), map[], [], [])
  {
    hide Encode, EncodeAll, Pushes;
    assert EncodeAll(Pushes(HOME_COUNT)) + [] == EncodeAll(Pushes(HOME_COUNT));
  }

  lemma WalkEnds(p: Program, al: Allocation, moves: seq<Move>, blocks: seq<seq<Ins>>, buf: seq<Byte>,
                 labelPos: map<int, nat>, jumpFixups: seq<(int, int)>, callFixups: seq<(nat, int)>)
    requires ParamMoves(p, al, |p|) == Ok(moves)
    requires Walked(p, al, moves, blocks, |p|, buf, labelPos, jumpFixups, callFixups)
    ensures Blocks(p, al, moves, |p|) == Ok(blocks) && |blocks| == |p| && buf == Layout(blocks)
    ensures Patchable(p, blocks) && jumpFixups == JumpFixups(p, blocks, |p|)
    ensures LabelsRecorded(p, blocks, |p|, labelPos)
    ensures !HasReturn(p, |p|) ==> Assemble(p, al) == Err(NoReturn)
    ensures HasReturn(p, |p|) && JumpError(p, blocks, |p|).Some? ==>
      Assemble(p, al) == Err(JumpError(p, blocks, |p|).value)
    ensures HasReturn(p, |p|) && JumpError(p, blocks, |p|).None? ==>
      Assemble(p, al) == Ok(Image(Layout(PatchedTo(p, blocks, |p|)), callFixups))
  {
    hide Encode, EncodeAll, Layout, Lower, Patched;
    BlocksShapes(p, al, moves);
  }

  /** Encodes one machine function over an allocation. */
  method EncodeOne(p: Program, al: Allocation) returns (r: Result<Image, EncodeError>)
    ensures r == Assemble(p, al)
  {
    hide Encode, EncodeAll, Walked, Layout, Lower, Patchable, LabelsRecorded, JumpFixups, Pushes;
    var enc := new Encoder();
    enc.EmitAll(Pushes(HOME_COUNT));
    var collected := CollectParamMoves(p, al);
    if collected.Err? { return Err(collected.error); }
    var moves := collected.value;
    ghost var blocks: seq<seq<Ins>> := [];
    var paramSeen, retSeen := false, false;
    WalkStarts(p, al, moves);
    for n := 0 to |p|
      invariant fresh(enc)
      invariant Walked(p, al, moves, blocks, n, enc.buf, enc.labelPos, enc.jumpFixups, enc.callFixups)
      invariant paramSeen == HasParamBefore(p, n) && retSeen == HasReturn(p, n)
    {
      var code := LowerNext(p, al, moves, n, paramSeen);
      if code.Err? {
        LowerErrorEnds(p, al, moves, blocks, n, enc.buf, enc.labelPos, enc.jumpFixups, enc.callFixups);
        return Err(code.error);
      }
      EncodeNext(enc, p, al, moves, blocks, n, code.value);
      blocks := blocks + [code.value];
      if p[n].op.OpParam? { paramSeen := true; }
      if p[n].op.OpRet? { retSeen := true; }
    }
    WalkEnds(p, al, moves, blocks, enc.buf, enc.labelPos, enc.jumpFixups, enc.callFixups);
    if !retSeen { return Err(NoReturn); }
    var out := ResolveJumps(p, blocks, enc.buf, enc.labelPos, enc.jumpFixups);
    if out.Err? { return Err(out.error); }
    return Ok(Image(out.value, enc.callFixups));
  }

  lemma LowerErrorEnds(p: Program, al: Allocation, moves: seq<Move>, blocks: seq<seq<Ins>>, n: nat,
                       buf: seq<Byte>, labelPos: map<int, nat>, jumpFixups: seq<(int, int)>,
                       callFixups: seq<(nat, int)>)
    requires n < |p| && ParamMoves(p, al, |p|) == Ok(moves)
    requires Walked(p, al, moves, blocks, n, buf, labelPos, jumpFixups, callFixups)
    requires Lower(p, al, moves, n).Err?
    ensures Assemble(p, al) == Err(Lower(p, al, moves, n).error)
  {
    hide Lower, Encode, EncodeAll, Layout, LabelsRecorded;
    BlocksErrorPersists(p, al, moves, n + 1, |p|);
  }
}
