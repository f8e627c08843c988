/** The subset of x86-64 that src/backend/x86_64/X86_64Encoder.cpp emits for integer code:
    its instructions, their encodings (Intel 64 and IA-32 Architectures Software Developer's Manual,
    volume 2), and a decoder that undoes them. */
module X86 {
  import opened Options
  import opened Ssa

  // ----- little-endian bytes

  /** The n low bytes of v in two's complement, least significant first. */
  function Bytes(n: nat, v: int): (r: seq<int>)
    ensures |r| == n && forall i :: 0 <= i < n ==> 0 <= r[i] < 256
  {
    if n == 0 then [] else [v % 256] + Bytes(n - 1, v / 256)
  }

  function Unsigned(b: seq<int>): int {
    if b == [] then 0 else b[0] + 256 * Unsigned(b[1..])
  }

  function Pow256(n: nat): int {
    if n == 0 then 1 else 256 * Pow256(n - 1)
  }

  function Signed32(b: seq<int>): int {
    if Unsigned(b) >= 0x8000_0000 then Unsigned(b) - 0x1_0000_0000 else Unsigned(b)
  }

  function Signed64(b: seq<int>): int {
    if Unsigned(b) > MAX64 then Unsigned(b) - TWO64 else Unsigned(b)
  }

  lemma {:induction false} UnsignedBytes(n: nat, v: int)
    ensures exists q: int :: v == q * Pow256(n) + Unsigned(Bytes(n, v))
    ensures 0 <= Unsigned(Bytes(n, v)) < Pow256(n)
    decreases n
  {
    if n == 0 {
      assert v == v * Pow256(0) + 0;
    } else {
      UnsignedBytes(n - 1, v / 256);
      var b := Bytes(n, v);
      assert b[1..] == Bytes(n - 1, v / 256);
      var q: int :| v / 256 == q * Pow256(n - 1) + Unsigned(b[1..]);
      assert 256 * (q * Pow256(n - 1)) == q * Pow256(n);
      assert v == q * Pow256(n) + Unsigned(b);
    }
  }

  predicate InRange32(v: int) { -0x8000_0000 <= v < 0x8000_0000 }

  lemma Signed32Bytes(v: int)
    requires InRange32(v)
    ensures Signed32(Bytes(4, v)) == v
  {
    UnsignedBytes(4, v);
    PowersOf256();
    var q: int :| v == q * Pow256(4) + Unsigned(Bytes(4, v));
    assert q == 0 || q == -1;
  }

  lemma Signed64Bytes(v: int)
    requires InRange(v)
    ensures Signed64(Bytes(8, v)) == v
  {
    UnsignedBytes(8, v);
    PowersOf256();
    var q: int :| v == q * Pow256(8) + Unsigned(Bytes(8, v));
    assert q == 0 || q == -1;
  }

  lemma PowersOf256()
    ensures Pow256(4) == 0x1_0000_0000 && Pow256(8) == TWO64
  {
    assert Pow256(5) == 256 * Pow256(4) && Pow256(6) == 256 * Pow256(5) && Pow256(7) == 256 * Pow256(6);
  }

  // ----- instructions

  /** Condition codes of SETcc, named after the comparison. */
  datatype Cond = CondE | CondNE | CondL | CondLE | CondG | CondGE

  /** Registers by number: 0 rax, 1 rcx, 2 rdx, 6 rsi, 7 rdi. */
  datatype Asm =
    | MovImm(reg: nat, imm: int)
    | LoadStack(reg: nat, offset: int)     // reg := [rbp + offset]
    | StoreStack(reg: nat, offset: int)    // [rbp + offset] := reg
    | AddRaxRcx | SubRaxRcx | ImulRaxRcx
    | Cqo | IdivRcx
    | CmpRaxRcx | SetAl(cond: Cond) | MovzxRaxAl
    | ShlRcx3 | LeaRax(offset: int)        // rax := rbp + offset
    | LoadRax                              // rax := [rax]
    | StoreRdx                             // [rax] := rdx
    | TestRax | Jz(rel: int) | Jmp(rel: int)
    | PushRbp | MovRbpRsp | SubRsp(imm: int) | MovRspRbp | PopRbp | Ret
    | MovRaxR8 | MovRaxR9 | MovR8Rax | MovR9Rax
    | SubRsp8(imm: int) | AddRsp(imm: int)
    | CallRax | CallRel(rel: int)

  predicate Encodable(a: Asm) {
    match a
    case MovImm(r, n) => r < 8 && InRange(n)
    case LoadStack(r, off) => r < 8 && InRange32(off)
    case StoreStack(r, off) => r < 8 && InRange32(off)
    case LeaRax(off) => InRange32(off)
    case Jz(rel) => InRange32(rel)
    case Jmp(rel) => InRange32(rel)
    case CallRel(rel) => InRange32(rel)
    case SubRsp(n) => InRange32(n)
    case AddRsp(n) => InRange32(n)
    case SubRsp8(n) => 0 <= n < 128
    case _ => true
  }

  function CondByte(c: Cond): int {
    match c
    case CondE => 0x94
    case CondNE => 0x95
    case CondL => 0x9C
    case CondLE => 0x9E
    case CondG => 0x9F
    case CondGE => 0x9D
  }

  /** ModRM and displacement of [rbp + offset]: one byte where it fits, else four. */
  function StackOperand(reg: nat, offset: int): seq<int> {
    if -128 <= offset <= 127 then [0x45 + 8 * reg, offset % 256] else [0x85 + 8 * reg] + Bytes(4, offset)
  }

  function Encode(a: Asm): seq<int> {
    match a
    case MovImm(r, n) => [0x48, 0xB8 + r] + Bytes(8, n)
    case LoadStack(r, off) => [0x48, 0x8B] + StackOperand(r, off)
    case StoreStack(r, off) => [0x48, 0x89] + StackOperand(r, off)
    case AddRaxRcx => [0x48, 0x01, 0xC8]
    case SubRaxRcx => [0x48, 0x29, 0xC8]
    case ImulRaxRcx => [0x48, 0x0F, 0xAF, 0xC1]
    case Cqo => [0x48, 0x99]
    case IdivRcx => [0x48, 0xF7, 0xF9]
    case CmpRaxRcx => [0x48, 0x3B, 0xC1]
    case SetAl(c) => [0x0F, CondByte(c), 0xC0]
    case MovzxRaxAl => [0x48, 0x0F, 0xB6, 0xC0]
    case ShlRcx3 => [0x48, 0xC1, 0xE1, 0x03]
    case LeaRax(off) => [0x48, 0x8D, 0x85] + Bytes(4, off)
    case LoadRax => [0x48, 0x8B, 0x00]
    case StoreRdx => [0x48, 0x89, 0x10]
    case TestRax => [0x48, 0x85, 0xC0]
    case Jz(rel) => [0x0F, 0x84] + Bytes(4, rel)
    case Jmp(rel) => [0xE9] + Bytes(4, rel)
    case PushRbp => [0x55]
    case MovRbpRsp => [0x48, 0x89, 0xE5]
    case SubRsp(n) => [0x48, 0x81, 0xEC] + Bytes(4, n)
    case MovRspRbp => [0x48, 0x89, 0xEC]
    case PopRbp => [0x5D]
    case Ret => [0xC3]
    case MovRaxR8 => [0x4C, 0x89, 0xC0]
    case MovRaxR9 => [0x4C, 0x89, 0xC8]
    case MovR8Rax => [0x49, 0x89, 0xC0]
    case MovR9Rax => [0x49, 0x89, 0xC1]
    case SubRsp8(n) => [0x48, 0x83, 0xEC, n]
    case AddRsp(n) => [0x48, 0x81, 0xC4] + Bytes(4, n)
    case CallRax => [0xFF, 0xD0]
    case CallRel(rel) => [0xE8] + Bytes(4, rel)
  }

  datatype Decoded = Decoded(asm: Asm, len: nat)

  /** ModRM and displacement with base rbp. */
  function DecodeStack(b: seq<int>, load: bool): Option<Decoded> {
    if |b| >= 2 && 0x45 <= b[0] <= 0x7D && (b[0] - 0x45) % 8 == 0 then
      var off := if b[1] >= 128 then b[1] - 256 else b[1];
      var r := (b[0] - 0x45) / 8;
      Some(Decoded(if load then LoadStack(r, off) else StoreStack(r, off), 4))
    else if |b| >= 5 && 0x85 <= b[0] <= 0xBD && (b[0] - 0x85) % 8 == 0 then
      var r := (b[0] - 0x85) / 8;
      Some(Decoded(if load then LoadStack(r, Signed32(b[1..5])) else StoreStack(r, Signed32(b[1..5])), 7))
    else None
  }

  /** Instructions with the REX.W prefix, without it. */
  function DecodeWide(b: seq<int>): Option<Decoded> {
    if |b| < 1 then None
    else if b[0] == 0x99 then Some(Decoded(Cqo, 2))
    else if 0xB8 <= b[0] <= 0xBF then
      if |b| < 9 then None else Some(Decoded(MovImm(b[0] - 0xB8, Signed64(b[1..9])), 10))
    else if |b| < 2 then None
    else if b[0] == 0x8B then (if b[1] == 0x00 then Some(Decoded(LoadRax, 3)) else DecodeStack(b[1..], true))
    else if b[0] == 0x89 then
      (if b[1] == 0x10 then Some(Decoded(StoreRdx, 3))
       else if b[1] == 0xE5 then Some(Decoded(MovRbpRsp, 3))
       else if b[1] == 0xEC then Some(Decoded(MovRspRbp, 3))
       else DecodeStack(b[1..], false))
    else if b[0] == 0x01 && b[1] == 0xC8 then Some(Decoded(AddRaxRcx, 3))
    else if b[0] == 0x29 && b[1] == 0xC8 then Some(Decoded(SubRaxRcx, 3))
    else if b[0] == 0xF7 && b[1] == 0xF9 then Some(Decoded(IdivRcx, 3))
    else if b[0] == 0x3B && b[1] == 0xC1 then Some(Decoded(CmpRaxRcx, 3))
    else if b[0] == 0x85 && b[1] == 0xC0 then Some(Decoded(TestRax, 3))
    else if |b| < 3 then None
    else if b[0] == 0x0F && b[1] == 0xAF && b[2] == 0xC1 then Some(Decoded(ImulRaxRcx, 4))
    else if b[0] == 0x0F && b[1] == 0xB6 && b[2] == 0xC0 then Some(Decoded(MovzxRaxAl, 4))
    else if b[0] == 0xC1 && b[1] == 0xE1 && b[2] == 0x03 then Some(Decoded(ShlRcx3, 4))
    else if b[0] == 0x83 && b[1] == 0xEC && 0 <= b[2] < 128 then Some(Decoded(SubRsp8(b[2]), 4))
    else if |b| < 6 then None
    else if b[0] == 0x81 && b[1] == 0xC4 then Some(Decoded(AddRsp(Signed32(b[2..6])), 7))
    else if b[0] == 0x8D && b[1] == 0x85 then Some(Decoded(LeaRax(Signed32(b[2..6])), 7))
    else if b[0] == 0x81 && b[1] == 0xEC then Some(Decoded(SubRsp(Signed32(b[2..6])), 7))
    else None
  }

  function DecodeCond(x: int): Option<Cond> {
    if x == 0x94 then Some(CondE)
    else if x == 0x95 then Some(CondNE)
    else if x == 0x9C then Some(CondL)
    else if x == 0x9E then Some(CondLE)
    else if x == 0x9F then Some(CondG)
    else if x == 0x9D then Some(CondGE)
    else None
  }

  function DecodeAt(b: seq<int>): Option<Decoded> {
    if |b| < 1 then None
    else if b[0] == 0x55 then Some(Decoded(PushRbp, 1))
    else if b[0] == 0x5D then Some(Decoded(PopRbp, 1))
    else if b[0] == 0xC3 then Some(Decoded(Ret, 1))
    else if b[0] == 0x48 then DecodeWide(b[1..])
    else if |b| < 2 then None
    else if b[0] == 0xFF && b[1] == 0xD0 then Some(Decoded(CallRax, 2))
    else if |b| < 3 then None
    else if b[0] == 0x49 && b[1] == 0x89 && b[2] == 0xC0 then Some(Decoded(MovR8Rax, 3))
    else if b[0] == 0x49 && b[1] == 0x89 && b[2] == 0xC1 then Some(Decoded(MovR9Rax, 3))
    else if b[0] == 0x4C && b[1] == 0x89 && b[2] == 0xC0 then Some(Decoded(MovRaxR8, 3))
    else if b[0] == 0x4C && b[1] == 0x89 && b[2] == 0xC8 then Some(Decoded(MovRaxR9, 3))
    else if b[0] == 0x0F && b[2] == 0xC0 && DecodeCond(b[1]).Some? then Some(Decoded(SetAl(DecodeCond(b[1]).value), 3))
    else if |b| < 5 then None
    else if b[0] == 0xE8 then Some(Decoded(CallRel(Signed32(b[1..5])), 5))
    else if b[0] == 0xE9 then Some(Decoded(Jmp(Signed32(b[1..5])), 5))
    else if |b| < 6 then None
    else if b[0] == 0x0F && b[1] == 0x84 then Some(Decoded(Jz(Signed32(b[2..6])), 6))
    else None
  }

  lemma StackRoundTrip(reg: nat, off: int, rest: seq<int>, load: bool)
    requires reg < 8 && InRange32(off)
    ensures DecodeStack(StackOperand(reg, off) + rest, load) ==
            Some(Decoded(if load then LoadStack(reg, off) else StoreStack(reg, off), 2 + |StackOperand(reg, off)|))
  {
    var b := StackOperand(reg, off) + rest;
    if !(-128 <= off <= 127) {
      assert b[1..5] == Bytes(4, off);
      Signed32Bytes(off);
    }
  }

  predicate IsStackMove(a: Asm) { a.LoadStack? || a.StoreStack? }

  predicate HasImmediate(a: Asm) {
    a.LeaRax? || a.SubRsp? || a.AddRsp? || a.Jz? || a.Jmp? || a.CallRel?
  }

  lemma StackMoveRoundTrip(a: Asm, rest: seq<int>)
    requires Encodable(a) && IsStackMove(a)
    ensures DecodeAt(Encode(a) + rest) == Some(Decoded(a, |Encode(a)|))
  {
    hide Bytes, Signed32, Signed64, DecodeStack, StackOperand;
    var b := Encode(a) + rest;
    StackShape(a.reg, a.offset);
    assert b[1..][1..] == StackOperand(a.reg, a.offset) + rest;
    StackRoundTrip(a.reg, a.offset, rest, a.LoadStack?);
  }

  lemma MovImmRoundTrip(a: Asm, rest: seq<int>)
    requires Encodable(a) && a.MovImm?
    ensures DecodeAt(Encode(a) + rest) == Some(Decoded(a, |Encode(a)|))
  {
    hide Bytes, Signed64;
    var b := Encode(a) + rest;
    assert b[1..][1..9] == b[2..10] == Bytes(8, a.imm);
    Signed64Bytes(a.imm);
  }

  lemma SliceOfRest(b: seq<int>, i: nat, j: nat, k: nat)
    requires j <= k && i + k <= |b|
    ensures b[i..][j..k] == b[i + j..i + k]
  {
    var x, y := b[i..][j..k], b[i + j..i + k];
    assert |x| == |y| && forall n :: 0 <= n < |x| ==> x[n] == y[n];
  }

  lemma Middle(a: seq<int>, b: seq<int>, c: seq<int>)
    ensures (a + b + c)[|a|..|a| + |b|] == b
  {
  }

  lemma ImmediateRoundTrip(a: Asm, rest: seq<int>)
    requires Encodable(a) && HasImmediate(a)
    ensures DecodeAt(Encode(a) + rest) == Some(Decoded(a, |Encode(a)|))
  {
    hide Bytes, Signed32, Signed64, DecodeStack, StackOperand;
    var b := Encode(a) + rest;
    match a
    case LeaRax(off) =>
      Middle([0x48, 0x8D, 0x85], Bytes(4, off), rest);
      SliceOfRest(b, 1, 2, 6);
      Signed32Bytes(off);
    case SubRsp(n) =>
      Middle([0x48, 0x81, 0xEC], Bytes(4, n), rest);
      SliceOfRest(b, 1, 2, 6);
      Signed32Bytes(n);
    case AddRsp(n) =>
      Middle([0x48, 0x81, 0xC4], Bytes(4, n), rest);
      SliceOfRest(b, 1, 2, 6);
      Signed32Bytes(n);
    case Jz(rel) =>
      assert b[2..6] == Bytes(4, rel);
      Signed32Bytes(rel);
    case Jmp(rel) =>
      assert b[1..5] == Bytes(4, rel);
      Signed32Bytes(rel);
    case CallRel(rel) =>
      assert b[1..5] == Bytes(4, rel);
      Signed32Bytes(rel);
    case _ =>
  }

  /** Decoding the encoding gives the instruction back, whatever bytes follow. */
  lemma RoundTrip(a: Asm, rest: seq<int>)
    requires Encodable(a)
    ensures DecodeAt(Encode(a) + rest) == Some(Decoded(a, |Encode(a)|))
  {
    hide Bytes, Signed32, Signed64, DecodeStack, StackOperand;
    if IsStackMove(a) {
      StackMoveRoundTrip(a, rest);
    } else if a.MovImm? {
      MovImmRoundTrip(a, rest);
    } else if HasImmediate(a) {
      ImmediateRoundTrip(a, rest);
    }
  }

  /** The ModRM byte of a stack operand is not that of another instruction. */
  lemma StackShape(reg: nat, off: int)
    requires reg < 8
    ensures |StackOperand(reg, off)| >= 2
    ensures var x := StackOperand(reg, off)[0]; x != 0x00 && x != 0x10 && x != 0xE5 && x != 0xEC
  {
  }
}
