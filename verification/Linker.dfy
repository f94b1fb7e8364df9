/** Linking a module: functions laid out one after another, each call patched to its callee's entry. */
module Linker {
  import opened Wrappers
  import opened MachineIR
  import opened LinearScan
  import opened X86
  import opened X86Bytes
  import opened ParallelMove
  import opened EncoderSpec
  import opened ExecEncoder

  datatype ModuleFunction = ModuleFunction(symbol: int, program: Program, alloc: Allocation)

  datatype Linked = Linked(bytes: seq<Byte>, entries: seq<nat>)

  // ---- Layout of the images ----

  function Joined(images: seq<Image>): seq<Byte> {
    if images == [] then [] else Joined(images[..|images| - 1]) + images[|images| - 1].bytes
  }

  function Entry(images: seq<Image>, i: nat): nat
    requires i <= |images|
  {
    |Joined(images[..i])|
  }

  function Shifted(sites: seq<(nat, int)>, offset: nat): (r: seq<(nat, int)>)
    ensures |r| == |sites|
    ensures forall k :: 0 <= k < |r| ==> r[k] == (sites[k].0 + offset, sites[k].1)
  {
    if sites == [] then [] else [(sites[0].0 + offset, sites[0].1)] + Shifted(sites[1..], offset)
  }

  /** The displacement fields of all calls of the joined images. */
  function Sites(images: seq<Image>): seq<(nat, int)> {
    if images == [] then []
    else
      var n := |images| - 1;
      Sites(images[..n]) + Shifted(images[n].callSites, |Joined(images[..n])|)
  }

  /** The entry of the first function with this symbol. */
  function EntryOf(fns: seq<ModuleFunction>, entries: seq<nat>, callee: int): Option<nat>
    requires |entries| == |fns|
  {
    if fns == [] then None
    else if fns[0].symbol == callee then Some(entries[0])
    else EntryOf(fns[1..], entries[1..], callee)
  }

  /** The bytes after the first `n` calls have been patched, or why one cannot be. */
  function LinkTo(fns: seq<ModuleFunction>, entries: seq<nat>, out: seq<Byte>, sites: seq<(nat, int)>, n: nat)
    : (r: Result<seq<Byte>, EncodeError>)
    requires |entries| == |fns| && n <= |sites| && forall k :: 0 <= k < |sites| ==> sites[k].0 + 4 <= |out|
    ensures r.Ok? ==> |r.value| == |out|
  {
    if n == 0 then Ok(out)
    else
      match LinkTo(fns, entries, out, sites, n - 1)
      case Err(e) => Err(e)
      case Ok(before) =>
        var (at, callee) := sites[n - 1];
        match EntryOf(fns, entries, callee)
        case None => Err(UnknownCallee)
        case Some(entry) =>
          if FitsRel32(entry - (at + 4)) then Ok(Patch(before, at, entry - (at + 4))) else Err(DisplacementRange)
  }

  // ---- Call fields do not overlap ----

  ghost predicate Spaced(sites: seq<(nat, int)>, limit: nat) {
    && (forall k :: 0 <= k < |sites| ==> sites[k].0 >= 1 && sites[k].0 + 4 <= limit)
    && (forall j, k :: 0 <= j < k < |sites| ==> sites[j].0 + 5 <= sites[k].0)
  }

  /** Each field follows the opcode byte of its `call`. */
  ghost predicate AfterOpcode(sites: seq<(nat, int)>, bytes: seq<Byte>) {
    forall k :: 0 <= k < |sites| ==> 1 <= sites[k].0 <= |bytes| && bytes[sites[k].0 - 1] == 0xE8
  }

  lemma CallBlock(code: seq<Ins>)
    requires |code| >= 2 && code[|code| - 2] == Call(0)
    ensures var front := EncodeAll(code[..|code| - 2]);
      EncodeAll(code) == front + [0xE8, 0, 0, 0, 0] + Encode(code[|code| - 1])
  {
    hide Encode, EncodeAll;
    var k := |code| - 2;
    LastOfCode(code);
    LastOfCode(code[..k + 1]);
    assert code[..k + 1][..k] == code[..k];
    CallBytes();
  }

  ghost predicate CallShapes(p: Program, blocks: seq<seq<Ins>>) {
    && |blocks| == |p|
    && forall i :: 0 <= i < |p| && p[i].op.OpCall? ==>
         p[i].imm.Some? && |blocks[i]| >= 2 && blocks[i][|blocks[i]| - 2] == Call(0)
  }

  lemma {:induction false} CallSitesSpaced(p: Program, blocks: seq<seq<Ins>>, n: nat)
    requires CallShapes(p, blocks) && n <= |p|
    ensures Spaced(CallSites(p, blocks, n), Position(blocks, n))
  {
    hide Encode, EncodeAll, Layout;
    if n > 0 {
      CallSitesSpaced(p, blocks, n - 1);
      BlockEnd(blocks, n - 1);
      if p[n - 1].op.OpCall? {
        CallBlock(blocks[n - 1]);
      }
    }
  }

  lemma {:induction false} CallSitesAfterOpcode(p: Program, blocks: seq<seq<Ins>>, bytes: seq<Byte>, n: nat)
    requires CallShapes(p, blocks) && Patchable(p, blocks) && JumpError(p, blocks, |p|).None? && n <= |p|
    requires bytes == Layout(PatchedTo(p, blocks, |p|))
    ensures AfterOpcode(CallSites(p, blocks, n), bytes)
  {
    hide Encode, EncodeAll, Layout, PatchedTo, Displacement, Position, Patchable, JumpError;
    if n > 0 {
      CallSitesAfterOpcode(p, blocks, bytes, n - 1);
      hide CallSites, AfterOpcode;
      CallSitesGrow(p, blocks, n);
      if p[n - 1].op.OpCall? {
        CallOpcodeAt(p, blocks, bytes, n - 1);
        hide CallShapes;
        var at := Position(blocks, n - 1) + |EncodeAll(blocks[n - 1][..|blocks[n - 1]| - 2])| + 1;
        AfterOpcodeOn(CallSites(p, blocks, n - 1), (at, p[n - 1].imm.value), bytes);
      }
    }
  }

  lemma AfterOpcodeOn(sites: seq<(nat, int)>, site: (nat, int), bytes: seq<Byte>)
    requires AfterOpcode(sites, bytes) && 1 <= site.0 <= |bytes| && bytes[site.0 - 1] == 0xE8
    ensures AfterOpcode(sites + [site], bytes)
  {
  }

  lemma CallSitesGrow(p: Program, blocks: seq<seq<Ins>>, n: nat)
    requires CallShapes(p, blocks) && 0 < n <= |p|
    ensures CallSites(p, blocks, n) == CallSites(p, blocks, n - 1)
      + if p[n - 1].op.OpCall? then
          [(Position(blocks, n - 1) + |EncodeAll(blocks[n - 1][..|blocks[n - 1]| - 2])| + 1, p[n - 1].imm.value)]
        else []
  {
    hide Position, EncodeAll;
  }

  lemma CallOpcodeAt(p: Program, blocks: seq<seq<Ins>>, bytes: seq<Byte>, i: nat)
    requires CallShapes(p, blocks) && Patchable(p, blocks) && JumpError(p, blocks, |p|).None? && i < |p|
    requires bytes == Layout(PatchedTo(p, blocks, |p|)) && p[i].op.OpCall?
    ensures |blocks| == |p| && |blocks[i]| >= 2
    ensures var at := Position(blocks, i) + |EncodeAll(blocks[i][..|blocks[i]| - 2])|;
      at < |bytes| && bytes[at] == 0xE8
  {
    hide Encode, EncodeAll, Layout, PatchedTo, JumpError, Position, Patchable;
    PatchedBlockAt(p, blocks, bytes, i);
    hide *;
    assert |blocks| == |p| && |blocks[i]| >= 2 && blocks[i][|blocks[i]| - 2] == Call(0) by { CallShape(p, blocks, i); }
    OpcodeInside(bytes, Position(blocks, i), blocks[i]);
  }

  lemma CallShape(p: Program, blocks: seq<seq<Ins>>, i: nat)
    requires CallShapes(p, blocks) && i < |p| && p[i].op.OpCall?
    ensures |blocks| == |p| && |blocks[i]| >= 2 && blocks[i][|blocks[i]| - 2] == Call(0)
  {
  }

  lemma OpcodeInside(bytes: seq<Byte>, pos: nat, code: seq<Ins>)
    requires |code| >= 2 && code[|code| - 2] == Call(0)
    requires pos + |EncodeAll(code)| <= |bytes| && bytes[pos..pos + |EncodeAll(code)|] == EncodeAll(code)
    ensures var at := pos + |EncodeAll(code[..|code| - 2])|; at < |bytes| && bytes[at] == 0xE8
  {
    hide *;
    CallBlock(code);
    var front := EncodeAll(code[..|code| - 2]);
    assert EncodeAll(code)[|front|] == 0xE8;
    assert bytes[pos..pos + |EncodeAll(code)|][|front|] == bytes[pos + |front|];
  }

  lemma PatchedBlockAt(p: Program, blocks: seq<seq<Ins>>, bytes: seq<Byte>, i: nat)
    requires Patchable(p, blocks) && JumpError(p, blocks, |p|).None? && i < |p| && !IsJump(p[i])
    requires bytes == Layout(PatchedTo(p, blocks, |p|))
    ensures var at := Position(blocks, i);
      at + |EncodeAll(blocks[i])| <= |bytes| && bytes[at..at + |EncodeAll(blocks[i])|] == EncodeAll(blocks[i])
  {
    hide Encode, EncodeAll, Layout, Patched, Flatten, Displacement;
    var patched := PatchedTo(p, blocks, |p|);
    LayoutAround(patched, i);
    forall k | 0 <= k < i ensures |EncodeAll(patched[k])| == |EncodeAll(blocks[k])| {
      if IsJump(p[k]) { PatchedSize(p, blocks, k); }
    }
    SameSizes(patched[..i], blocks[..i]);
  }

  /** What linking relies on in an encoded function. */
  ghost predicate Linkable(image: Image) {
    Spaced(image.callSites, |image.bytes|) && AfterOpcode(image.callSites, image.bytes)
  }

  lemma AssembledLinkable(p: Program, al: Allocation)
    requires Assemble(p, al).Ok?
    ensures Linkable(Assemble(p, al).value)
  {
    hide Encode, EncodeAll, Layout, Lower, Displacement, Spaced, AfterOpcode, Blocks, CallSites, Position;
    var moves := ParamMoves(p, al, |p|).value;
    var blocks := Blocks(p, al, moves, |p|).value;
    BlocksShapes(p, al, moves);
    CallsShaped(p, al, moves);
    CallSitesSpaced(p, blocks, |p|);
    LayoutLength(p, blocks);
    CallSitesAfterOpcode(p, blocks, Layout(PatchedTo(p, blocks, |p|)), |p|);
  }

  lemma CallsShaped(p: Program, al: Allocation, moves: seq<Move>)
    requires Blocks(p, al, moves, |p|).Ok?
    ensures CallShapes(p, Blocks(p, al, moves, |p|).value)
  {
    hide Lower;
    var blocks := Blocks(p, al, moves, |p|).value;
    forall i | 0 <= i < |p| && p[i].op.OpCall?
      ensures p[i].imm.Some? && |blocks[i]| >= 2 && blocks[i][|blocks[i]| - 2] == Call(0)
    {
      LowerShapes(p, al, moves, i);
    }
  }

  lemma LayoutLength(p: Program, blocks: seq<seq<Ins>>)
    requires Patchable(p, blocks) && JumpError(p, blocks, |p|).None?
    ensures |Layout(PatchedTo(p, blocks, |p|))| == Position(blocks, |p|)
  {
    hide Encode, EncodeAll, Layout, Patched, Displacement;
    PatchedSizes(p, blocks, |p|);
    assert PatchedTo(p, blocks, |p|)[..|p|] == PatchedTo(p, blocks, |p|);
  }

  lemma SpacedAppend(a: seq<(nat, int)>, b: seq<(nat, int)>, la: nat, lb: nat)
    requires Spaced(a, la) && Spaced(b, lb)
    ensures Spaced(a + Shifted(b, la), la + lb)
  {
    var r := a + Shifted(b, la);
    forall k | 0 <= k < |r| ensures r[k].0 >= 1 && r[k].0 + 4 <= la + lb && (k >= |a| ==> r[k].0 >= la + 1) {
      if k >= |a| { assert r[k] == (b[k - |a|].0 + la, b[k - |a|].1); }
    }
    forall j, k | 0 <= j < k < |r| ensures r[j].0 + 5 <= r[k].0 {
      if j >= |a| {
        assert r[j] == (b[j - |a|].0 + la, b[j - |a|].1) && r[k] == (b[k - |a|].0 + la, b[k - |a|].1);
      }
    }
  }

  /** A byte of the second half of a concatenation, by its place there. */
  lemma ByteOfSecond(x: seq<Byte>, y: seq<Byte>, k: nat)
    requires k < |y|
    ensures (x + y)[|x| + k] == y[k]
  {
  }

  lemma AfterOpcodeAppend(a: seq<(nat, int)>, b: seq<(nat, int)>, x: seq<Byte>, y: seq<Byte>)
    requires AfterOpcode(a, x) && AfterOpcode(b, y)
    ensures AfterOpcode(a + Shifted(b, |x|), x + y)
  {
    var s, z := Shifted(b, |x|), x + y;
    forall k | 0 <= k < |s| ensures 1 <= s[k].0 <= |z| && z[s[k].0 - 1] == 0xE8 {
      ByteOfSecond(x, y, b[k].0 - 1);
    }
    forall k | 0 <= k < |a| ensures z[a[k].0 - 1] == x[a[k].0 - 1] {
    }
  }

  lemma {:induction false} JoinedSites(images: seq<Image>)
    requires forall i :: 0 <= i < |images| ==> Linkable(images[i])
    ensures Spaced(Sites(images), |Joined(images)|) && AfterOpcode(Sites(images), Joined(images))
  {
    hide Spaced, AfterOpcode, Shifted, Sites, Joined;
    if images == [] {
      NoSites();
    } else {
      var n := |images| - 1;
      JoinedSites(images[..n]);
      JoinUnfolds(images);
      SpacedAppend(Sites(images[..n]), images[n].callSites, |Joined(images[..n])|, |images[n].bytes|);
      AfterOpcodeAppend(Sites(images[..n]), images[n].callSites, Joined(images[..n]), images[n].bytes);
    }
  }

  lemma JoinUnfolds(images: seq<Image>)
    requires images != []
    ensures var n := |images| - 1;
      && Joined(images) == Joined(images[..n]) + images[n].bytes
      && Sites(images) == Sites(images[..n]) + Shifted(images[n].callSites, |Joined(images[..n])|)
  {
  }

  lemma NoSites()
    ensures Joined([]) == [] && Sites([]) == [] && Spaced([], 0) && AfterOpcode([], [])
  {
  }

  // ---- What linking achieves ----

  ghost predicate InField(sites: seq<(nat, int)>, n: nat, b: nat)
    requires n <= |sites|
  {
    exists k :: 0 <= k < n && sites[k].0 <= b < sites[k].0 + 4
  }

  /** The first `n` fields lead to their callees and everything else is as it was. */
  ghost predicate FieldsLinked(fns: seq<ModuleFunction>, entries: seq<nat>, out: seq<Byte>, linked: seq<Byte>,
                               sites: seq<(nat, int)>, n: nat)
    requires |entries| == |fns| && n <= |sites| && Spaced(sites, |out|)
  {
    && |linked| == |out|
    && (forall k :: 0 <= k < n ==> FieldLinked(fns, entries, linked, sites[k]))
    && (forall b :: 0 <= b < |out| && !InField(sites, n, b) ==> linked[b] == out[b])
  }

  ghost predicate FieldLinked(fns: seq<ModuleFunction>, entries: seq<nat>, linked: seq<Byte>, site: (nat, int))
    requires |entries| == |fns|
  {
    var entry := EntryOf(fns, entries, site.1);
    && entry.Some? && FitsRel32(entry.value - (site.0 + 4))
    && site.0 + 4 <= |linked|
    && linked[site.0..site.0 + 4] == Rel32(entry.value - (site.0 + 4))
  }

  lemma PatchKeeps(out: seq<Byte>, at: nat, rel: int)
    requires at + 4 <= |out|
    ensures var r := Patch(out, at, rel);
      && r[at..at + 4] == Rel32(rel)
      && (forall b :: 0 <= b < |out| && !(at <= b < at + 4) ==> r[b] == out[b])
  {
  }

  lemma PatchKeepsSlice(out: seq<Byte>, at: nat, rel: int, lo: nat)
    requires at + 4 <= |out| && lo + 4 <= |out| && (lo + 4 <= at || at + 4 <= lo)
    ensures Patch(out, at, rel)[lo..lo + 4] == out[lo..lo + 4]
  {
  }

  lemma {:induction false} LinkOutcome(fns: seq<ModuleFunction>, entries: seq<nat>, out: seq<Byte>,
                                       sites: seq<(nat, int)>, n: nat)
    requires |entries| == |fns| && n <= |sites| && Spaced(sites, |out|)
    requires LinkTo(fns, entries, out, sites, n).Ok?
    ensures FieldsLinked(fns, entries, out, LinkTo(fns, entries, out, sites, n).value, sites, n)
  {
    hide Patch, Rel32, FitsRel32;
    if n > 0 {
      LinkOutcome(fns, entries, out, sites, n - 1);
      var before := LinkTo(fns, entries, out, sites, n - 1).value;
      var at := sites[n - 1].0;
      var rel := EntryOf(fns, entries, sites[n - 1].1).value - (at + 4);
      PatchKeeps(before, at, rel);
      forall k | 0 <= k < n - 1
        ensures FieldLinked(fns, entries, Patch(before, at, rel), sites[k])
      {
        assert FieldLinked(fns, entries, before, sites[k]);
        assert sites[k].0 + 5 <= at;
        PatchKeepsSlice(before, at, rel, sites[k].0);
      }
      forall b | 0 <= b < |out| && !InField(sites, n, b)
        ensures Patch(before, at, rel)[b] == out[b]
      {
        assert !(sites[n - 1].0 <= b < sites[n - 1].0 + 4);
        assert !InField(sites, n - 1, b);
      }
    }
  }

  ghost predicate LinkedCall(fns: seq<ModuleFunction>, entries: seq<nat>, bytes: seq<Byte>, site: (nat, int))
    requires |entries| == |fns|
  {
    var end := site.0 + 4;
    var entry := EntryOf(fns, entries, site.1);
    && 1 <= site.0 && end <= |bytes| && entry.Some?
    && Decode(bytes[site.0 - 1..]) == Some((Call(entry.value - end), 5))
  }

  /** Every call of the linked image decodes to a `call` that goes to the entry of the first function with
      its callee's symbol; no byte outside the displacement fields changes. */
  ghost predicate LinkedWell(fns: seq<ModuleFunction>, images: seq<Image>, linked: Linked) {
    && |images| == |fns| == |linked.entries|
    && (forall i :: 0 <= i < |images| ==> linked.entries[i] == Entry(images, i))
    && |linked.bytes| == |Joined(images)|
    && var sites := Sites(images);
       && (forall k :: 0 <= k < |sites| ==> LinkedCall(fns, linked.entries, linked.bytes, sites[k]))
       && (forall b :: 0 <= b < |linked.bytes| && !InField(sites, |sites|, b) ==>
             linked.bytes[b] == Joined(images)[b])
  }

  lemma CallDecodes(bytes: seq<Byte>, at: nat, rel: int)
    requires 1 <= at && at + 4 <= |bytes| && bytes[at - 1] == 0xE8 && bytes[at..at + 4] == Rel32(rel)
    requires FitsRel32(rel)
    ensures Decode(bytes[at - 1..]) == Some((Call(rel), 5))
  {
    hide Decode;
    var rest := bytes[at + 4..];
    assert bytes[at - 1..] == [0xE8] + bytes[at..at + 4] + rest;
    assert Encode(Call(rel)) == [0xE8] + Rel32(rel);
    DecodeEncode(Call(rel), rest);
  }

  lemma LinkedIsWell(fns: seq<ModuleFunction>, images: seq<Image>, entries: seq<nat>)
    requires |images| == |fns| == |entries| && (forall i :: 0 <= i < |images| ==> Linkable(images[i]))
    requires forall i :: 0 <= i < |images| ==> entries[i] == Entry(images, i)
    requires Spaced(Sites(images), |Joined(images)|)
    requires LinkTo(fns, entries, Joined(images), Sites(images), |Sites(images)|).Ok?
    ensures LinkedWell(fns, images,
      Linked(LinkTo(fns, entries, Joined(images), Sites(images), |Sites(images)|).value, entries))
  {
    hide Decode, LinkTo, Rel32, FitsRel32, EntryOf, FieldLinked, Sites, Joined, Spaced, AfterOpcode;
    var sites := Sites(images);
    JoinedSites(images);
    SitesInRange(images);
    LinkOutcome(fns, entries, Joined(images), sites, |sites|);
    var bytes := LinkTo(fns, entries, Joined(images), sites, |sites|).value;
    forall k | 0 <= k < |sites| ensures LinkedCall(fns, entries, bytes, sites[k]) {
      LinkedCallDecodes(fns, entries, Joined(images), bytes, sites, k);
    }
  }

  lemma LinkedCallDecodes(fns: seq<ModuleFunction>, entries: seq<nat>, out: seq<Byte>, bytes: seq<Byte>,
                          sites: seq<(nat, int)>, k: nat)
    requires |entries| == |fns| && Spaced(sites, |out|) && AfterOpcode(sites, out) && k < |sites|
    requires FieldsLinked(fns, entries, out, bytes, sites, |sites|)
    ensures LinkedCall(fns, entries, bytes, sites[k])
  {
    hide Decode, Rel32, FitsRel32, EntryOf;
    assert FieldLinked(fns, entries, bytes, sites[k]);
    OpcodeOutside(sites, |out|, k);
    CallDecodes(bytes, sites[k].0, EntryOf(fns, entries, sites[k].1).value - (sites[k].0 + 4));
  }

  lemma OpcodeOutside(sites: seq<(nat, int)>, limit: nat, k: nat)
    requires Spaced(sites, limit) && k < |sites|
    ensures !InField(sites, |sites|, sites[k].0 - 1)
  {
    forall j | 0 <= j < |sites| ensures !(sites[j].0 <= sites[k].0 - 1 < sites[j].0 + 4) {
      if j < k { assert sites[j].0 + 5 <= sites[k].0; } else if j > k { assert sites[k].0 + 5 <= sites[j].0; }
    }
  }

  // ---- The linker ----

  ghost predicate EncodedEach(fns: seq<ModuleFunction>, images: seq<Image>) {
    |images| <= |fns|
    && forall i :: 0 <= i < |images| ==> Assemble(fns[i].program, fns[i].alloc) == Ok(images[i])
  }

  method FindEntry(fns: seq<ModuleFunction>, entries: seq<nat>, callee: int) returns (r: Option<nat>)
    requires |entries| == |fns|
    ensures r == EntryOf(fns, entries, callee)
  {
    for i := 0 to |fns|
      invariant EntryOf(fns, entries, callee) == EntryOf(fns[i..], entries[i..], callee)
    {
      if fns[i].symbol == callee { return Some(entries[i]); }
    }
    return None;
  }

  /** The functions laid out contiguously, up to the first that does not encode. */
  method EncodeEach(fns: seq<ModuleFunction>)
    returns (error: Option<EncodeError>, out: seq<Byte>, entries: seq<nat>, sites: seq<(nat, int)>,
             ghost images: seq<Image>)
    ensures EncodedEach(fns, images) && |entries| == |images|
    ensures error.Some? ==> |images| < |fns|
                            && Assemble(fns[|images|].program, fns[|images|].alloc) == Err(error.value)
    ensures error.None? ==> |images| == |fns|
    ensures forall k :: 0 <= k < |images| ==> Linkable(images[k])
    ensures out == Joined(images) && sites == Sites(images) && entries == Entries(images)
  {
    error, out, entries, sites, images := None, [], [], [], [];
    assert Joined([]) == [] && Sites([]) == [];
    hide Assemble, Linkable, Joined, Sites, Entries, Entry, Shifted, EncodedEach;
    NoneEncoded(fns);
    for i := 0 to |fns|
      invariant EncodedEach(fns, images) && |images| == |entries| == i
      invariant forall k :: 0 <= k < i ==> Linkable(images[k])
      invariant out == Joined(images) && sites == Sites(images) && entries == Entries(images)
    {
      var one := EncodeOne(fns[i].program, fns[i].alloc);
      if one.Err? {
        error := Some(one.error);
        return;
      }
      AssembledLinkable(fns[i].program, fns[i].alloc);
      EntriesGrow(images, one.value);
      EncodedGrow(fns, images, one.value);
      entries := entries + [|out|];
      sites := sites + Shifted(one.value.callSites, |out|);
      out := out + one.value.bytes;
      images := images + [one.value];
    }
  }

  lemma NoneEncoded(fns: seq<ModuleFunction>)
    ensures EncodedEach(fns, [])
  {
  }

  lemma EncodedGrow(fns: seq<ModuleFunction>, images: seq<Image>, one: Image)
    requires EncodedEach(fns, images) && |images| < |fns|
    requires Assemble(fns[|images|].program, fns[|images|].alloc) == Ok(one)
    ensures EncodedEach(fns, images + [one])
  {
    hide Assemble;
  }

  lemma EntriesGrow(images: seq<Image>, one: Image)
    ensures Entries(images + [one]) == Entries(images) + [|Joined(images)|]
    ensures Joined(images + [one]) == Joined(images) + one.bytes
    ensures Sites(images + [one]) == Sites(images) + Shifted(one.callSites, |Joined(images)|)
  {
    var more := images + [one];
    assert more[..|images|] == images;
    forall k | 0 <= k < |images| ensures Entry(more, k) == Entry(images, k) {
      assert more[..k] == images[..k];
    }
  }

  method PatchCalls(fns: seq<ModuleFunction>, entries: seq<nat>, bytes: seq<Byte>, sites: seq<(nat, int)>)
    returns (r: Result<seq<Byte>, EncodeError>)
    requires |entries| == |fns| && forall k :: 0 <= k < |sites| ==> sites[k].0 + 4 <= |bytes|
    ensures r == LinkTo(fns, entries, bytes, sites, |sites|)
  {
    hide Patch, FitsRel32;
    var out := bytes;
    for k := 0 to |sites|
      invariant LinkTo(fns, entries, bytes, sites, k) == Ok(out)
    {
      var at, callee := sites[k].0, sites[k].1;
      var target := FindEntry(fns, entries, callee);
      if target.None? {
        LinkErrorPersists(fns, entries, bytes, sites, k + 1, |sites|);
        return Err(UnknownCallee);
      }
      var entry: int := target.value;
      if !FitsRel32(entry - (at + 4)) {
        LinkErrorPersists(fns, entries, bytes, sites, k + 1, |sites|);
        return Err(DisplacementRange);
      }
      out := Patch(out, at, entry - (at + 4));
    }
    return Ok(out);
  }

  lemma {:induction false} LinkErrorPersists(fns: seq<ModuleFunction>, entries: seq<nat>, out: seq<Byte>,
                                             sites: seq<(nat, int)>, n: nat, m: nat)
    requires |entries| == |fns| && n <= m <= |sites| && forall k :: 0 <= k < |sites| ==> sites[k].0 + 4 <= |out|
    requires LinkTo(fns, entries, out, sites, n).Err?
    ensures LinkTo(fns, entries, out, sites, m) == LinkTo(fns, entries, out, sites, n)
  {
    if n < m {
      LinkErrorPersists(fns, entries, out, sites, n, m - 1);
    }
  }

  lemma {:induction false} LinkErrorMeansBadCall(fns: seq<ModuleFunction>, images: seq<Image>, n: nat)
    requires |images| == |fns| && n <= |Sites(images)| && Spaced(Sites(images), |Joined(images)|)
    requires LinkTo(fns, Entries(images), Joined(images), Sites(images), n).Err?
    ensures exists k :: 0 <= k < n && BadCall(fns, images, Sites(images)[k])
  {
    hide Patch, Entries, Joined, Sites, FitsRel32;
    if LinkTo(fns, Entries(images), Joined(images), Sites(images), n - 1).Err? {
      LinkErrorMeansBadCall(fns, images, n - 1);
    } else {
      assert BadCall(fns, images, Sites(images)[n - 1]);
    }
  }

  /** Encodes and links a module. It fails exactly when there is nothing to link, some function does not
      encode, or some call cannot be resolved. */
  method EncodeModule(fns: seq<ModuleFunction>) returns (r: Result<Linked, EncodeError>, ghost images: seq<Image>)
    ensures EncodedEach(fns, images)
    ensures r.Ok? ==> fns != [] && LinkedWell(fns, images, r.value)
    ensures fns == [] ==> r == Err(NoFunctions)
    ensures r.Err? ==>
      || fns == []
      || (|images| < |fns| && Assemble(fns[|images|].program, fns[|images|].alloc) == Err(r.error))
      || (|images| == |fns| && exists k :: 0 <= k < |Sites(images)| && BadCall(fns, images, Sites(images)[k]))
  {
    hide Assemble, Decode, LinkedWell, Linkable, Joined, Sites, Entry, Spaced;
    if fns == [] {
      return Err(NoFunctions), [];
    }
    var error, out, entries, sites;
    error, out, entries, sites, images := EncodeEach(fns);
    if error.Some? {
      return Err(error.value), images;
    }
    JoinedSites(images);
    SitesInRange(images);
    var linked := PatchCalls(fns, entries, out, sites);
    if linked.Err? {
      LinkErrorMeansBadCall(fns, images, |sites|);
      return Err(linked.error), images;
    }
    LinkedIsWell(fns, images, entries);
    return Ok(Linked(linked.value, entries)), images;
  }

  lemma SitesInRange(images: seq<Image>)
    requires Spaced(Sites(images), |Joined(images)|)
    ensures forall k :: 0 <= k < |Sites(images)| ==> Sites(images)[k].0 + 4 <= |Joined(images)|
  {
  }

  function Entries(images: seq<Image>): (r: seq<nat>)
    ensures |r| == |images|
    ensures forall i :: 0 <= i < |r| ==> r[i] == Entry(images, i)
  {
    seq(|images|, i requires 0 <= i < |images| => Entry(images, i))
  }

  /** A call to a symbol the module does not define, or too far from its callee. */
  predicate BadCall(fns: seq<ModuleFunction>, images: seq<Image>, site: (nat, int))
    requires |images| == |fns|
  {
    var entry := EntryOf(fns, Entries(images), site.1);
    entry.None? || !FitsRel32(entry.value - (site.0 + 4))
  }

  // ---- Every call instruction ----

  predicate IsFirst(fns: seq<ModuleFunction>, callee: int, i: nat)
    requires i < |fns|
  {
    fns[i].symbol == callee && forall j :: 0 <= j < i ==> fns[j].symbol != callee
  }

  /** The callee of a call is the first function of its symbol, if there is one. */
  lemma {:induction false} EntryIsFirst(fns: seq<ModuleFunction>, entries: seq<nat>, callee: int)
    requires |entries| == |fns|
    ensures EntryOf(fns, entries, callee).None? <==> forall i :: 0 <= i < |fns| ==> fns[i].symbol != callee
    ensures forall i :: 0 <= i < |fns| && IsFirst(fns, callee, i) ==> EntryOf(fns, entries, callee) == Some(entries[i])
  {
    if fns != [] && fns[0].symbol != callee {
      EntryIsFirst(fns[1..], entries[1..], callee);
      forall i | 0 <= i < |fns| && IsFirst(fns, callee, i) ensures EntryOf(fns, entries, callee) == Some(entries[i]) {
        assert IsFirst(fns[1..], callee, i - 1) by { assert forall j :: 0 <= j < i - 1 ==> fns[1..][j] == fns[j + 1]; }
      }
    }
  }

  /** Where the displacement of call `i` stands in its function. */
  function FieldOf(blocks: seq<seq<Ins>>, i: nat): nat
    requires i < |blocks| && |blocks[i]| >= 2
  {
    Position(blocks, i) + |EncodeAll(blocks[i][..|blocks[i]| - 2])| + 1
  }

  lemma {:induction false} CallHasSite(p: Program, blocks: seq<seq<Ins>>, n: nat, i: nat)
    requires i < n <= |blocks| <= |p| && p[i].op.OpCall?
    requires forall j :: 0 <= j < n && p[j].op.OpCall? ==> p[j].imm.Some? && |blocks[j]| >= 2
    ensures (FieldOf(blocks, i), p[i].imm.value) in CallSites(p, blocks, n)
  {
    hide Position, EncodeAll;
    if i < n - 1 { CallHasSite(p, blocks, n - 1, i); }
  }

  lemma ShiftedHas(sites: seq<(nat, int)>, offset: nat, site: (nat, int))
    requires site in sites
    ensures (site.0 + offset, site.1) in Shifted(sites, offset)
  {
    hide Shifted;
    var k :| 0 <= k < |sites| && sites[k] == site;
    assert Shifted(sites, offset)[k] == (site.0 + offset, site.1);
  }

  lemma SitesGrow(images: seq<Image>)
    requires images != []
    ensures var n := |images| - 1;
      Sites(images) == Sites(images[..n]) + Shifted(images[n].callSites, Entry(images, n))
  {
    hide Joined, Shifted;
  }

  lemma {:induction false} SiteJoined(images: seq<Image>, f: nat, site: (nat, int))
    requires f < |images| && site in images[f].callSites
    ensures (site.0 + Entry(images, f), site.1) in Sites(images)
    decreases |images|
  {
    hide *;
    SitesGrow(images);
    var n := |images| - 1;
    if f < n {
      SiteJoined(images[..n], f, site);
      assert Entry(images[..n], f) == Entry(images, f) by { SameEntry(images, n, f); }
    } else {
      ShiftedHas(images[n].callSites, Entry(images, n), site);
    }
  }

  lemma SameEntry(images: seq<Image>, n: nat, f: nat)
    requires f <= n <= |images|
    ensures Entry(images[..n], f) == Entry(images, f)
  {
    hide Joined;
    assert images[..n][..f] == images[..f];
  }

  /** In the linked image every call instruction of every function has become a call of the first function of its
      symbol. */
  lemma EveryCallLinked(fns: seq<ModuleFunction>, images: seq<Image>, linked: Linked, f: nat, i: nat, moves: seq<Move>,
                        blocks: seq<seq<Ins>>)
    requires EncodedEach(fns, images) && LinkedWell(fns, images, linked) && f < |fns|
    requires ParamMoves(fns[f].program, fns[f].alloc, |fns[f].program|) == Ok(moves)
    requires Blocks(fns[f].program, fns[f].alloc, moves, |fns[f].program|) == Ok(blocks)
    requires i < |fns[f].program| && fns[f].program[i].op.OpCall?
    ensures |blocks[i]| >= 2 && blocks[i][|blocks[i]| - 2] == Call(0) && fns[f].program[i].imm.Some?
    ensures LinkedCall(fns, linked.entries, linked.bytes,
      (FieldOf(blocks, i) + Entry(images, f), fns[f].program[i].imm.value))
  {
    hide *;
    var p, al := fns[f].program, fns[f].alloc;
    assert Assemble(p, al) == Ok(images[f]) && |images| == |fns| by { Reveals(fns, images, linked, f); }
    CallField(p, al, moves, blocks, i);
    assert images[f].callSites == CallSites(p, blocks, |p|) by { ImageSites(p, al, moves, blocks); }
    var site := (FieldOf(blocks, i), p[i].imm.value);
    SiteJoined(images, f, site);
    SiteLinked(fns, images, linked, (site.0 + Entry(images, f), site.1));
  }

  lemma Reveals(fns: seq<ModuleFunction>, images: seq<Image>, linked: Linked, f: nat)
    requires EncodedEach(fns, images) && LinkedWell(fns, images, linked) && f < |fns|
    ensures |images| == |fns| && Assemble(fns[f].program, fns[f].alloc) == Ok(images[f])
  {
    hide Assemble, LinkedCall, Sites, Joined, InField;
  }

  lemma SiteLinked(fns: seq<ModuleFunction>, images: seq<Image>, linked: Linked, site: (nat, int))
    requires LinkedWell(fns, images, linked) && site in Sites(images)
    ensures |linked.entries| == |fns| && LinkedCall(fns, linked.entries, linked.bytes, site)
  {
    hide LinkedCall, Sites, Joined, InField;
  }

  lemma CallField(p: Program, al: Allocation, moves: seq<Move>, blocks: seq<seq<Ins>>, i: nat)
    requires Blocks(p, al, moves, |p|) == Ok(blocks) && i < |p| && p[i].op.OpCall?
    ensures |blocks| == |p| && forall j :: 0 <= j < |p| && p[j].op.OpCall? ==> p[j].imm.Some? && |blocks[j]| >= 2
    ensures blocks[i][|blocks[i]| - 2] == Call(0)
    ensures (FieldOf(blocks, i), p[i].imm.value) in CallSites(p, blocks, |p|)
  {
    hide Lower, FieldOf, CallSites, Patchable;
    BlocksShapes(p, al, moves);
    LowerShapes(p, al, moves, i);
    CallHasSite(p, blocks, |p|, i);
  }

  lemma ImageSites(p: Program, al: Allocation, moves: seq<Move>, blocks: seq<seq<Ins>>)
    requires ParamMoves(p, al, |p|) == Ok(moves) && Blocks(p, al, moves, |p|) == Ok(blocks) && Assemble(p, al).Ok?
    requires |blocks| == |p| && forall j :: 0 <= j < |p| && p[j].op.OpCall? ==> p[j].imm.Some? && |blocks[j]| >= 2
    ensures Assemble(p, al).value.callSites == CallSites(p, blocks, |p|)
  {
    hide ParamMoves, Blocks, CallSites, Layout, JumpError, HasReturn;
  }
}
