/** The machine running straight from encoded bytes. */
module ByteMachine {
  import opened Wrappers
  import opened X86
  import opened X86Bytes
  import opened EncoderSpec
  import opened ExecEncoder

  function MStep(image: seq<Byte>, m: Machine): Option<Machine> {
    if m.rip < 0 || m.rip >= |image| then None
    else match Decode(image[m.rip..])
      case Some((i, n)) => Exec(i, m, m.rip + n)
      case None => None
  }

  function MRun(image: seq<Byte>, m: Machine, n: nat): Option<Machine>
    decreases n
  {
    if n == 0 then Some(m)
    else match MStep(image, m)
      case Some(m') => MRun(image, m', n - 1)
      case None => None
  }

  lemma {:induction false} MRunAppend(image: seq<Byte>, m: Machine, a: nat, b: nat)
    requires MRun(image, m, a).Some?
    ensures MRun(image, m, a + b) == MRun(image, MRun(image, m, a).value, b)
    decreases a
  {
    hide Decode, Exec;
    if a > 0 {
      MRunAppend(image, MStep(image, m).value, a - 1, b);
    }
  }

  predicate At(image: seq<Byte>, pos: int, bytes: seq<Byte>) {
    0 <= pos <= pos + |bytes| <= |image| && image[pos..pos + |bytes|] == bytes
  }

  lemma AtSplit(image: seq<Byte>, pos: int, a: seq<Byte>, b: seq<Byte>)
    requires At(image, pos, a + b)
    ensures At(image, pos, a) && At(image, pos + |a|, b)
  {
    assert image[pos..pos + |a|] == (a + b)[..|a|];
    assert image[pos + |a|..pos + |a| + |b|] == (a + b)[|a|..];
  }

  lemma EncodeNonEmpty(i: Ins)
    ensures Encode(i) != []
  {
  }

  /** The machine executes the instruction whose bytes it stands on. */
  lemma StepAt(image: seq<Byte>, i: Ins, m: Machine)
    requires Encodable(i) && At(image, m.rip, Encode(i))
    ensures MStep(image, m) == Exec(i, m, m.rip + |Encode(i)|)
  {
    hide Decode, Encode, Exec;
    EncodeNonEmpty(i);
    var rest := image[m.rip + |Encode(i)|..];
    assert image[m.rip..] == Encode(i) + rest;
    DecodeEncode(i, rest);
  }

  lemma EncodeAllCons(code: seq<Ins>)
    requires code != []
    ensures EncodeAll(code) == Encode(code[0]) + EncodeAll(code[1..])
  {
    hide Encode;
    assert code == [code[0]] + code[1..];
    EncodeAllAppend([code[0]], code[1..]);
    assert [code[0]][..0] == [];
  }

  lemma PlainStep(i: Ins, m: Machine, next: int)
    requires ExecPlain(i, m.core).Some?
    ensures Encodable(i) && Exec(i, m, next) == Some(Machine(ExecPlain(i, m.core).value, next))
  {
  }

  /** Running the bytes of plain code has the effect of running the code. */
  lemma {:induction false} RunPlain(image: seq<Byte>, code: seq<Ins>, m: Machine)
    requires ExecSeq(code, m.core).Some? && At(image, m.rip, EncodeAll(code))
    ensures MRun(image, m, |code|) == Some(Machine(ExecSeq(code, m.core).value, m.rip + |EncodeAll(code)|))
    decreases |code|
  {
    hide Encode, Decode, ExecPlain, Exec;
    if code != [] {
      EncodeAllCons(code);
      AtSplit(image, m.rip, Encode(code[0]), EncodeAll(code[1..]));
      PlainStep(code[0], m, m.rip + |Encode(code[0])|);
      StepAt(image, code[0], m);
      RunPlain(image, code[1..], MStep(image, m).value);
    }
  }

  /** Plain code followed by one transfer of control. */
  lemma RunThenTransfer(image: seq<Byte>, code: seq<Ins>, last: Ins, m: Machine)
    requires ExecSeq(code, m.core).Some? && At(image, m.rip, EncodeAll(code + [last])) && Encodable(last)
    ensures var end := m.rip + |EncodeAll(code + [last])|;
      MRun(image, m, |code| + 1)
      == Exec(last, Machine(ExecSeq(code, m.core).value, end - |Encode(last)|), end)
  {
    hide Encode, Decode, ExecPlain, Exec;
    assert (code + [last])[..|code|] == code;
    LastOfCode(code + [last]);
    AtSplit(image, m.rip, EncodeAll(code), Encode(last));
    RunPlain(image, code, m);
    MRunAppend(image, m, |code|, 1);
    var m' := MRun(image, m, |code|).value;
    StepAt(image, last, m');
    assert MRun(image, m', 1) == MStep(image, m');
  }
}
