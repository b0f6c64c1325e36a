/**
  The memory-seeding preamble: a compiler from a memory image to RV32I words
  whose execution installs exactly that image and returns to reset state.
*/
module SeedPreamble {
  import opened Basics
  import opened Rv32

  // --- bit arithmetic -------------------------------------------------------

  function Shl(x: nat, n: nat): nat {
    x * Pow2(n)
  }

  /** Bitwise or of two naturals. */
  function Or(a: nat, b: nat): nat {
    if a == 0 && b == 0 then 0
    else 2 * Or(a / 2, b / 2) + if a % 2 == 1 || b % 2 == 1 then 1 else 0
  }

  lemma {:induction false} OrZero(a: nat)
    ensures Or(a, 0) == a
  {
    if a > 0 {
      OrZero(a / 2);
    }
  }

  lemma OrEven(t: nat, low: nat)
    ensures Or(2 * t, low) == 2 * Or(t, low / 2) + low % 2
  {
    assert 2 * t / 2 == t;
  }

  lemma Doubling(high: nat, p: nat)
    ensures high * (2 * p) == 2 * (high * p)
  {
  }

  /** Fields that do not overlap: or is addition. */
  lemma {:induction false} OrDisjoint(high: nat, low: nat, n: nat)
    requires low < Pow2(n)
    ensures Or(high * Pow2(n), low) == high * Pow2(n) + low
  {
    if n == 0 {
      OrZero(high);
    } else {
      var p := Pow2(n - 1);
      var t := high * p;
      Doubling(high, p);
      OrDisjoint(high, low / 2, n - 1);
      assert Or(t, low / 2) == t + low / 2;
      OrEven(t, low);
      assert high * Pow2(n) == 2 * t;
    }
  }

  lemma Pow2Values()
    ensures Pow2(7) == 0x80 && Pow2(12) == 0x1000 && Pow2(15) == 0x8000
    ensures Pow2(20) == 0x10_0000 && Pow2(21) == 0x20_0000 && Pow2(31) == 0x8000_0000
  {
    assert Pow2(5) == 32;
    assert Pow2(10) == 0x400;
    assert Pow2(15) == 0x8000;
    assert Pow2(20) == 0x10_0000;
    assert Pow2(25) == 0x200_0000;
    assert Pow2(30) == 0x4000_0000;
  }

  /** OrDisjoint at the shift amounts of the instruction formats. */
  lemma OrField(high: nat, low: nat, m: nat)
    requires m in {0x80, 0x1000, 0x8000, 0x10_0000, 0x20_0000, 0x8000_0000} && low < m
    ensures Or(high * m, low) == high * m + low
  {
    Pow2Values();
    var n := if m == 0x80 then 7 else if m == 0x1000 then 12 else if m == 0x8000 then 15
             else if m == 0x10_0000 then 20 else if m == 0x20_0000 then 21 else 31;
    OrDisjoint(high, low, n);
  }

  // --- encoders -------------------------------------------------------------

  function LowPart(value: int): int {
    var low := value % 0x1000;
    if low >= 0x800 then low - 0x1000 else low
  }

  function HighPart(value: int): int {
    (value - LowPart(value)) % WORD / 0x1000
  }

  function LuiWord(register: nat, high: nat): nat {
    Or(Or(Shl(high, 12), Shl(register, 7)), 0x37)
  }

  function AddiWord(register: nat, low: nat): nat {
    Or(Or(Or(Shl(low, 20), Shl(register, 15)), Shl(register, 7)), 0x13)
  }

  /** LUI+ADDI pair for one register and value. */
  function EncodeLoadImmediate(register: nat, value: int): seq<nat> {
    [LuiWord(register, HighPart(value)), AddiWord(register, value % 0x1000)]
  }

  /** SW x2, 0(x1). */
  function StoreInstruction(): nat {
    Or(Or(Or(Shl(2, 20), Shl(1, 15)), Shl(2, 12)), 0x23)
  }

  /** ADDI register, x0, 0. */
  function ClearInstruction(register: nat): nat {
    Or(Shl(register, 7), 0x13)
  }

  predicate Encodable(offset: int) {
    offset % 2 == 0 && -0x10_0000 <= offset < 0x10_0000
  }

  function JalWord(offset: int): nat {
    var value := offset % 0x20_0000;
    Or(Or(Or(Or(
      Shl(value / 0x10_0000 % 2, 31),
      Shl(value / 2 % 0x400, 21)),
      Shl(value / 0x800 % 2, 20)),
      Shl(value / 0x1000 % 0x100, 12)),
      0x6F)
  }

  lemma LuiWordSum(register: nat, high: nat)
    requires register < 32
    ensures LuiWord(register, high) == high * 0x1000 + register * 0x80 + 0x37
  {
    Pow2Values();
    OrField(high, register * 0x80, 0x1000);
    OrField(high * 32 + register, 0x37, 0x80);
  }

  lemma AddiWordSum(register: nat, low: nat)
    requires register < 32
    ensures AddiWord(register, low) == low * 0x10_0000 + register * 0x8000 + register * 0x80 + 0x13
  {
    Pow2Values();
    OrField(low, register * 0x8000, 0x10_0000);
    OrField(low * 32 + register, register * 0x80, 0x8000);
    OrField(low * 0x2000 + register * 0x100 + register, 0x13, 0x80);
  }

  lemma JumpSum(a: nat, b: nat, c: nat, e: nat)
    requires a < 2 && b < 0x400 && c < 2 && e < 0x100
    ensures Or(Or(Or(Or(a * 0x8000_0000, b * 0x20_0000), c * 0x10_0000), e * 0x1000), 0x6F)
            == a * 0x8000_0000 + b * 0x20_0000 + c * 0x10_0000 + e * 0x1000 + 0x6F
  {
    hide Or;
    OrField(a, b * 0x20_0000, 0x8000_0000);
    OrField(a * 0x400 + b, c * 0x10_0000, 0x20_0000);
    OrField(a * 0x800 + b * 2 + c, e * 0x1000, 0x10_0000);
    OrField(a * 0x8_0000 + b * 0x200 + c * 0x100 + e, 0x6F, 0x1000);
  }

  lemma JalWordSum(offset: int)
    ensures var value := offset % 0x20_0000;
            JalWord(offset) == value / 0x10_0000 % 2 * 0x8000_0000 + value / 2 % 0x400 * 0x20_0000
                               + value / 0x800 % 2 * 0x10_0000 + value / 0x1000 % 0x100 * 0x1000 + 0x6F
  {
    Pow2Values();
    var value := offset % 0x20_0000;
    JumpSum(value / 0x10_0000 % 2, value / 2 % 0x400, value / 0x800 % 2, value / 0x1000 % 0x100);
  }

  lemma StoreWordValue()
    ensures StoreInstruction() == 0x20_A023
  {
    StoreShifts();
    hide Or;
    OrField(2, 0x8000, 0x10_0000);
    OrField(65, 0x2000, 0x8000);
    OrField(65 * 8 + 2, 0x23, 0x1000);
  }

  lemma StoreShifts()
    ensures Shl(2, 20) == 0x20_0000 && Shl(1, 15) == 0x8000 && Shl(2, 12) == 0x2000
  {
    Pow2Values();
  }

  // --- what the words mean --------------------------------------------------

  lemma UpperFields(w: nat, register: nat, high: nat)
    requires register < 32 && w == high * 0x1000 + register * 0x80 + 0x37
    ensures w % 0x80 == 0x37 && w / 0x80 % 32 == register && w / 0x1000 == high
  {
    assert w / 0x80 == high * 32 + register;
  }

  lemma LuiDecodes(register: nat, high: nat)
    requires register < 32
    ensures Decode(LuiWord(register, high)) == Lui(register, high)
  {
    LuiWordSum(register, high);
    UpperFields(LuiWord(register, high), register, high);
  }

  lemma ImmediateFields(w: nat, low: nat, rs1: nat, rd: nat)
    requires low < 0x1000 && rs1 < 32 && rd < 32
    requires w == low * 0x10_0000 + rs1 * 0x8000 + rd * 0x80 + 0x13
    ensures w % 0x80 == 0x13 && w / 0x80 % 32 == rd && w / 0x1000 % 8 == 0
    ensures w / 0x8000 % 32 == rs1 && w / 0x10_0000 == low
  {
    assert w / 0x80 == low * 0x2000 + rs1 * 0x100 + rd;
    assert w / 0x1000 == low * 0x100 + rs1 * 8;
    assert w / 0x8000 == low * 32 + rs1;
  }

  lemma AddiDecodes(register: nat, low: nat)
    requires register < 32 && low < 0x1000
    ensures Decode(AddiWord(register, low)) == Addi(register, register, SignExtend(low, 0x800))
  {
    AddiWordSum(register, low);
    ImmediateFields(AddiWord(register, low), low, register, register);
  }

  lemma StoreFields(w: nat)
    requires w == 0x20_A023
    ensures w % 0x80 == 0x23 && w / 0x80 % 32 == 0 && w / 0x1000 % 8 == 2
    ensures w / 0x8000 % 32 == 1 && w / 0x10_0000 % 32 == 2 && w / 0x200_0000 == 0
  {
  }

  lemma StoreDecodes()
    ensures Decode(StoreInstruction()) == Sw(1, 2, 0)
  {
    StoreWordValue();
    StoreFields(StoreInstruction());
  }

  lemma ClearDecodes(register: nat)
    requires register < 32
    ensures Decode(ClearInstruction(register)) == Addi(register, 0, 0)
  {
    Pow2Values();
    OrField(register, 0x13, 0x80);
    ImmediateFields(ClearInstruction(register), 0, 0, register);
  }

  lemma JumpFields(w: nat, a: nat, b: nat, c: nat, e: nat)
    requires a < 2 && b < 0x400 && c < 2 && e < 0x100
    requires w == a * 0x8000_0000 + b * 0x20_0000 + c * 0x10_0000 + e * 0x1000 + 0x6F
    ensures w % 0x80 == 0x6F && w / 0x80 % 32 == 0
    ensures w / 0x1000 % 0x100 == e && w / 0x10_0000 % 2 == c
    ensures w / 0x20_0000 % 0x400 == b && w / 0x8000_0000 == a
  {
    assert w / 0x80 == a * 0x100_0000 + b * 0x4000 + c * 0x2000 + e * 32;
    assert w / 0x1000 == a * 0x8_0000 + b * 0x200 + c * 0x100 + e;
    assert w / 0x10_0000 == a * 0x800 + b * 2 + c;
    assert w / 0x20_0000 == a * 0x400 + b;
  }

  lemma JumpDecodes(w: nat, a: nat, b: nat, c: nat, e: nat)
    requires a < 2 && b < 0x400 && c < 2 && e < 0x100
    requires w == a * 0x8000_0000 + b * 0x20_0000 + c * 0x10_0000 + e * 0x1000 + 0x6F
    ensures Decode(w) == Jal(0, SignExtend(a * 0x10_0000 + e * 0x1000 + c * 0x800 + b * 2, 0x10_0000))
  {
    JumpFields(w, a, b, c, e);
  }

  lemma OffsetFields(value: nat)
    requires value < 0x20_0000
    ensures value == value / 0x10_0000 % 2 * 0x10_0000 + value / 0x1000 % 0x100 * 0x1000
                     + value / 0x800 % 2 * 0x800 + value / 2 % 0x400 * 2 + value % 2
  {
    assert value / 0x800 == value / 2 / 0x400;
    assert value / 0x1000 == value / 0x800 / 2;
    assert value / 0x10_0000 == value / 0x1000 / 0x100;
  }

  lemma SignedOffset(offset: int)
    ensures var value := offset % 0x20_0000;
            SignExtend(value - value % 2, 0x10_0000) == offset <==> Encodable(offset)
  {
  }

  /** The scattered JAL immediate round-trips exactly on encodable offsets. */
  lemma JalRoundTrip(offset: int)
    ensures Decode(JalWord(offset)) == Jal(0, offset) <==> Encodable(offset)
  {
    JalWordSum(offset);
    var value := offset % 0x20_0000;
    JumpDecodes(JalWord(offset), value / 0x10_0000 % 2, value / 2 % 0x400, value / 0x800 % 2, value / 0x1000 % 0x100);
    OffsetFields(value);
    SignedOffset(offset);
  }

  /** The carry fold: LUI of the high part plus the signed low part is the value. */
  lemma CarryFold(value: int)
    requires 0 <= value < WORD
    ensures 0 <= HighPart(value) < 0x10_0000
    ensures Wrap(Wrap(HighPart(value) * 0x1000) + SignExtend(value % 0x1000, 0x800)) == value
  {
    var low := LowPart(value);
    assert (value - low) % 0x1000 == 0;
    assert (value - low) % WORD % 0x1000 == 0;
  }

  // --- the compiler ---------------------------------------------------------

  const ADDRESS_REGISTER: nat := 1
  const VALUE_REGISTER: nat := 2
  const JAL_MAX_BACKWARD: int := 0x10_0000

  datatype Error =
    | NotU32(value: int)
    | Misaligned(address: int)
    | SeededTwice(address: int)
    | NotEncodable(offset: int)

  datatype Result = Ok(words: seq<nat>) | Err(error: Error)

  /** The words that install one image entry. */
  function SeedWords(address: int, value: int): seq<nat> {
    EncodeLoadImmediate(ADDRESS_REGISTER, address)
    + EncodeLoadImmediate(VALUE_REGISTER, value)
    + [StoreInstruction()]
  }

  function ImageWords(image: seq<(int, int)>): (words: seq<nat>)
    ensures |words| == 5 * |image|
  {
    if image == [] then []
    else
      var last := image[|image| - 1];
      ImageWords(image[..|image| - 1]) + SeedWords(last.0, last.1)
  }

  function ClearWords(): seq<nat> {
    [ClearInstruction(ADDRESS_REGISTER), ClearInstruction(VALUE_REGISTER)]
  }

  /** The chained jumps that carry the pc back over `distance` bytes. */
  function HopWords(distance: nat): seq<nat>
    decreases distance
  {
    if distance == 0 then []
    else
      var hop := if distance < JAL_MAX_BACKWARD then distance else JAL_MAX_BACKWARD;
      [JalWord(-hop)] + HopWords(distance - hop)
  }

  function Preamble(image: seq<(int, int)>): seq<nat> {
    ImageWords(image) + ClearWords() + HopWords(4 * (5 * |image| + 2))
  }

  /** What the compiler accepts: distinct word-aligned u32 addresses and u32 values. */
  predicate ValidImage(image: seq<(int, int)>) {
    && (forall k | 0 <= k < |image| :: U32(image[k].0) && U32(image[k].1) && image[k].0 % 4 == 0)
    && (forall j, k | 0 <= j < k < |image| :: image[j].0 != image[k].0)
  }

  method EncodeJalX0(offset: int) returns (r: Result)
    ensures r == if Encodable(offset) then Ok([JalWord(offset)]) else Err(NotEncodable(offset))
  {
    if offset % 2 != 0 || !(-0x10_0000 <= offset < 0x10_0000) {
      return Err(NotEncodable(offset));
    }
    return Ok([JalWord(offset)]);
  }

  /** Append the chained jumps that walk the pc from `start` back to `entry`. */
  method AppendHops(body: seq<nat>, entry: int) returns (r: Result)
    ensures r == Ok(body + HopWords(4 * |body|))
  {
    hide JalWord;
    var words := body;
    var pc := entry + 4 * |words|;
    while pc != entry
      invariant entry <= pc && (pc - entry) % 4 == 0
      invariant words + HopWords(pc - entry) == body + HopWords(4 * |body|)
      decreases pc - entry
    {
      var hop := if pc - entry < JAL_MAX_BACKWARD then pc - entry else JAL_MAX_BACKWARD;
      var jump := EncodeJalX0(-hop);
      if jump.Err? {
        return jump;
      }
      ghost var rest := HopWords(pc - entry - hop);
      assert HopWords(pc - entry) == [JalWord(-hop)] + rest;
      assert words + ([JalWord(-hop)] + rest) == (words + [JalWord(-hop)]) + rest;
      words := words + jump.words;
      pc := pc - hop;
    }
    return Ok(words);
  }

  /**
    The compiler.  It succeeds exactly on valid images, whatever their length:
    no chained hop is ever unencodable and the jump loop always ends; the error
    otherwise names an entry that is at fault.
  */
  method CompilePreamble(image: seq<(int, int)>, entry: int) returns (r: Result)
    ensures r.Ok? <==> ValidImage(image)
    ensures r.Ok? ==> r.words == Preamble(image)
    ensures r.Err? ==>
              match r.error
              case NotU32(value) => !U32(value) && exists e :: e in image && (e.0 == value || e.1 == value)
              case Misaligned(address) => address % 4 != 0 && exists e :: e in image && e.0 == address
              case SeededTwice(address) =>
                exists j, k :: 0 <= j < k < |image| && image[j].0 == image[k].0 == address
              case NotEncodable(_) => false
  {
    hide SeedWords, HopWords, EncodeLoadImmediate, StoreInstruction, ClearInstruction;
    var words: seq<nat> := [];
    var seen: set<int> := {};
    for i := 0 to |image|
      invariant words == ImageWords(image[..i])
      invariant forall a :: a in seen <==> exists k :: 0 <= k < i && image[k].0 == a
      invariant ValidImage(image[..i])
    {
      var address, value := image[i].0, image[i].1;
      assert image[i] in image;
      if !U32(address) {
        return Err(NotU32(address));
      }
      if !U32(value) {
        return Err(NotU32(value));
      }
      if address % 4 != 0 {
        return Err(Misaligned(address));
      }
      if address in seen {
        return Err(SeededTwice(address));
      }
      seen := seen + {address};
      ExtendImage(image, i);
      ExtendValid(image, i);
      words := words + EncodeLoadImmediate(ADDRESS_REGISTER, address);
      words := words + EncodeLoadImmediate(VALUE_REGISTER, value);
      words := words + [StoreInstruction()];
    }
    assert image[..|image|] == image;
    words := words + [ClearInstruction(ADDRESS_REGISTER)];
    words := words + [ClearInstruction(VALUE_REGISTER)];
    assert words == ImageWords(image) + ClearWords();
    r := AppendHops(words, entry);
  }

  lemma ExtendValid(image: seq<(int, int)>, i: nat)
    requires i < |image| && ValidImage(image[..i])
    requires U32(image[i].0) && U32(image[i].1) && image[i].0 % 4 == 0
    requires forall k | 0 <= k < i :: image[k].0 != image[i].0
    ensures ValidImage(image[..i + 1])
  {
    assert image[..i + 1] == image[..i] + [image[i]];
    assert forall k | 0 <= k < i :: image[..i][k] == image[k];
  }

  lemma ExtendImage(image: seq<(int, int)>, i: nat)
    requires i < |image|
    ensures ImageWords(image[..i + 1]) ==
            ImageWords(image[..i]) + EncodeLoadImmediate(ADDRESS_REGISTER, image[i].0)
            + EncodeLoadImmediate(VALUE_REGISTER, image[i].1) + [StoreInstruction()]
  {
    hide EncodeLoadImmediate, StoreInstruction;
    assert image[..i + 1][..i] == image[..i];
  }

  // --- execution ------------------------------------------------------------

  lemma OneRuns(m: Machine, w: nat)
    requires Ready(m)
    ensures Run(m, [w]) == Step(m, w)
  {
    hide Step;
    assert [w][1..] == [];
    var m1 := Step(m, w);
    assert Run(m1, []) == m1;
  }

  lemma LuiRuns(m: Machine, register: nat, high: nat)
    requires Ready(m) && 1 <= register < 32
    ensures Run(m, [LuiWord(register, high)]) ==
            Running(Wrap(m.pc + 4), m.regs[register := Wrap(high * 0x1000)], m.mem)
  {
    hide LuiWord, Decode, Run;
    LuiDecodes(register, high);
    OneRuns(m, LuiWord(register, high));
  }

  lemma AddiRuns(m: Machine, register: nat, low: nat)
    requires Ready(m) && 1 <= register < 32 && low < 0x1000
    ensures Run(m, [AddiWord(register, low)]) ==
            Running(Wrap(m.pc + 4),
                    m.regs[register := Wrap(m.regs[register] + SignExtend(low, 0x800))], m.mem)
  {
    hide AddiWord, Decode, Run;
    AddiDecodes(register, low);
    OneRuns(m, AddiWord(register, low));
  }

  lemma StoreRuns(m: Machine)
    requires Ready(m) && m.regs[1] % 4 == 0
    ensures Run(m, [StoreInstruction()]) ==
            Running(Wrap(m.pc + 4), m.regs, StoreWord(m.mem, m.regs[1], m.regs[2]))
  {
    hide StoreInstruction, Decode, StoreWord, Run, Step;
    StoreDecodes();
    OneRuns(m, StoreInstruction());
    StoreSteps(m, StoreInstruction());
  }

  lemma StoreSteps(m: Machine, w: nat)
    requires Ready(m) && m.regs[1] % 4 == 0 && Decode(w) == Sw(1, 2, 0)
    ensures Step(m, w) == Running(Wrap(m.pc + 4), m.regs, StoreWord(m.mem, m.regs[1], m.regs[2]))
  {
    hide Decode, StoreWord;
    assert 0 <= m.regs[1] < WORD;
    assert Wrap(m.regs[1] + 0) == m.regs[1];
  }

  lemma ClearRuns(m: Machine, register: nat)
    requires Ready(m) && 1 <= register < 32
    ensures Run(m, [ClearInstruction(register)]) ==
            Running(Wrap(m.pc + 4), m.regs[register := 0], m.mem)
  {
    hide ClearInstruction, Decode, Run;
    ClearDecodes(register);
    OneRuns(m, ClearInstruction(register));
  }

  lemma JumpRuns(m: Machine, offset: int)
    requires Ready(m) && Encodable(offset)
    ensures Run(m, [JalWord(offset)]) ==
            if Wrap(m.pc + offset) % 4 != 0 then Trapped
            else Running(Wrap(m.pc + offset), m.regs, m.mem)
  {
    hide JalWord, Decode, Run;
    JalRoundTrip(offset);
    OneRuns(m, JalWord(offset));
  }

  /** A load-immediate pair leaves exactly the value, two words further on. */
  lemma LoadImmediateRuns(m: Machine, register: nat, value: int)
    requires Ready(m) && 1 <= register < 32 && U32(value)
    ensures Run(m, EncodeLoadImmediate(register, value)) ==
            Running(Wrap(m.pc + 8), m.regs[register := value], m.mem)
  {
    hide LuiWord, AddiWord, Run, HighPart, SignExtend, Step, Wrap;
    CarryFold(value);
    var high, low := HighPart(value), value % 0x1000;
    var upper, lower := [LuiWord(register, high)], [AddiWord(register, low)];
    assert EncodeLoadImmediate(register, value) == upper + lower;
    RunAppend(m, upper, lower);
    LuiRuns(m, register, high);
    var m1 := Run(m, upper);
    AddiRuns(m1, register, low);
    WrapAdd(m.pc, 4, 4);
    assert m1.regs[register := value] == m.regs[register := value];
  }

  lemma WrapAdd(pc: int, a: int, b: int)
    ensures Wrap(Wrap(pc + a) + b) == Wrap(pc + a + b)
  {
  }

  lemma LoadedReady(m: Machine, register: nat, value: int)
    requires Ready(m) && U32(value) && 1 <= register < 32
    ensures Ready(Running(Wrap(m.pc + 8), m.regs[register := value], m.mem))
  {
    hide Wrap;
  }

  lemma BothLoadsRun(m: Machine, address: int, value: int)
    requires Ready(m) && U32(address) && U32(value)
    ensures Run(m, EncodeLoadImmediate(1, address) + EncodeLoadImmediate(2, value)) ==
            Running(Wrap(m.pc + 16), m.regs[1 := address][2 := value], m.mem)
    ensures Ready(Running(Wrap(m.pc + 16), m.regs[1 := address][2 := value], m.mem))
  {
    hide EncodeLoadImmediate, Run, Wrap;
    LoadImmediateRuns(m, 1, address);
    LoadedReady(m, 1, address);
    var m1 := Running(Wrap(m.pc + 8), m.regs[1 := address], m.mem);
    LoadImmediateRuns(m1, 2, value);
    LoadedReady(m1, 2, value);
    WrapAdd(m.pc, 8, 8);
    RunThen(m, m1, Running(Wrap(m1.pc + 8), m1.regs[2 := value], m.mem),
            EncodeLoadImmediate(1, address), EncodeLoadImmediate(2, value));
  }

  lemma SeedRuns(m: Machine, address: int, value: int)
    requires Ready(m) && U32(address) && U32(value) && address % 4 == 0
    ensures Run(m, SeedWords(address, value)) ==
            Running(Wrap(m.pc + 20), m.regs[1 := address][2 := value], StoreWord(m.mem, address, value))
  {
    hide EncodeLoadImmediate, StoreInstruction, Run, StoreWord, Wrap;
    BothLoadsRun(m, address, value);
    var loaded := Running(Wrap(m.pc + 16), m.regs[1 := address][2 := value], m.mem);
    StoreRuns(loaded);
    WrapAdd(m.pc, 16, 4);
    RunThen(m, loaded, Running(Wrap(loaded.pc + 4), loaded.regs, StoreWord(m.mem, address, value)),
            EncodeLoadImmediate(1, address) + EncodeLoadImmediate(2, value), [StoreInstruction()]);
  }

  /** The memory an image describes, entry by entry. */
  function Install(mem: Memory, image: seq<(int, int)>): Memory {
    if image == [] then mem
    else
      var last := image[|image| - 1];
      StoreWord(Install(mem, image[..|image| - 1]), last.0, last.1)
  }

  predicate OnlyScratch(regs: seq<int>, regs': seq<int>) {
    && |regs| == |regs'| == 32
    && forall r | 0 <= r < 32 && r != 1 && r != 2 :: regs[r] == regs'[r]
  }

  lemma {:induction false} ImageRuns(m: Machine, image: seq<(int, int)>)
    requires Ready(m) && ValidImage(image)
    ensures var m' := Run(m, ImageWords(image));
            && m'.Running? && Ready(m') && m'.pc == Wrap(m.pc + 20 * |image|)
            && m'.mem == Install(m.mem, image) && OnlyScratch(m.regs, m'.regs)
  {
    hide SeedWords, StoreWord, Run, Wrap;
    if image == [] {
      RunNothing(m);
      WrapSmall(m.pc);
    } else {
      var n := |image| - 1;
      var front, last := image[..n], image[n];
      ValidPrefix(image, n);
      ImageRuns(m, front);
      var m1 := Run(m, ImageWords(front));
      SeedRuns(m1, last.0, last.1);
      RunAppend(m, ImageWords(front), SeedWords(last.0, last.1));
      WrapAdd(m.pc, 20 * n, 20);
    }
  }

  lemma ValidPrefix(image: seq<(int, int)>, n: nat)
    requires ValidImage(image) && n <= |image|
    ensures ValidImage(image[..n])
  {
  }

  lemma RunNothing(m: Machine)
    requires Ready(m)
    ensures Run(m, []) == m
  {
  }

  lemma ClearedReady(m: Machine, register: nat)
    requires Ready(m) && 1 <= register < 32
    ensures Ready(Running(Wrap(m.pc + 4), m.regs[register := 0], m.mem))
  {
    hide Wrap;
  }

  lemma ClearBothRuns(m: Machine)
    requires Ready(m)
    ensures Run(m, ClearWords()) == Running(Wrap(m.pc + 8), m.regs[1 := 0][2 := 0], m.mem)
  {
    hide ClearInstruction, Run, Step, Wrap, Decode;
    var a, b := [ClearInstruction(1)], [ClearInstruction(2)];
    var cleared := Running(Wrap(m.pc + 4), m.regs[1 := 0], m.mem);
    ClearedReady(m, 1);
    ClearRuns(m, 1);
    ClearRuns(cleared, 2);
    RunThen(m, cleared, Running(Wrap(cleared.pc + 4), cleared.regs[2 := 0], m.mem), a, b);
    WrapAdd(m.pc, 4, 4);
    assert ClearWords() == a + b;
  }

  lemma FourDivides(x: int, y: int)
    ensures (x - 4 * y) % 4 == x % 4
  {
  }

  lemma WordAligned(x: int)
    ensures Wrap(x) % 4 == x % 4
  {
    var k, r := x / WORD, x % WORD;
    assert r == x - 4 * (0x4000_0000 * k);
    FourDivides(x, 0x4000_0000 * k);
  }

  lemma DoubleIsEven(x: int)
    ensures 2 * x % 2 == 0
  {
  }

  lemma QuadrupleEncodable(q: int)
    requires 0 < q <= 0x4_0000
    ensures Encodable(-(4 * q))
  {
    DoubleIsEven(-2 * q);
  }

  /** A hop of a multiple of four is encodable and keeps the pc's alignment. */
  lemma HopEncodable(hop: int, pc: int)
    requires 0 < hop <= JAL_MAX_BACKWARD && hop % 4 == 0
    ensures Encodable(-hop) && Wrap(pc - hop) % 4 == pc % 4
  {
    var q := hop / 4;
    assert hop == 4 * q;
    QuadrupleEncodable(q);
    FourDivides(pc, q);
    WordAligned(pc - hop);
  }

  lemma WrapSmall(x: int)
    requires 0 <= x < WORD
    ensures Wrap(x) == x
  {
  }

  lemma TrappedStays(words: seq<nat>)
    ensures Run(Trapped, words) == Trapped
  {
  }

  /** The jump chain lands exactly `distance` bytes back. */
  lemma {:induction false} HopsRun(m: Machine, distance: nat)
    requires Ready(m) && distance % 4 == 0 && m.pc % 4 == 0
    ensures Run(m, HopWords(distance)) == Running(Wrap(m.pc - distance), m.regs, m.mem)
    decreases distance
  {
    hide JalWord, Run, Wrap, Encodable;
    if distance == 0 {
      WrapSmall(m.pc);
      RunNothing(m);
    } else {
      var hop := if distance < JAL_MAX_BACKWARD then distance else JAL_MAX_BACKWARD;
      HopEncodable(hop, m.pc);
      WrapAdd(m.pc, -hop, hop - distance);
      JumpRuns(m, -hop);
      var m1 := Run(m, [JalWord(-hop)]);
      RunAppend(m, [JalWord(-hop)], HopWords(distance - hop));
      HopsRun(m1, distance - hop);
    }
  }

  lemma HopsTrap(m: Machine, distance: nat)
    requires Ready(m) && distance % 4 == 0 && distance > 0 && m.pc % 4 != 0
    ensures Run(m, HopWords(distance)) == Trapped
  {
    hide JalWord, Run, Wrap, Encodable;
    var hop := if distance < JAL_MAX_BACKWARD then distance else JAL_MAX_BACKWARD;
    HopEncodable(hop, m.pc);
    JumpRuns(m, -hop);
    TrappedStays(HopWords(distance - hop));
    RunAppend(m, [JalWord(-hop)], HopWords(distance - hop));
  }

  /**
    Running the preamble from reset installs the image, leaves every register
    zero and puts the pc exactly on the entry, for every valid image of any
    length; a misaligned entry instead traps.
  */
  lemma PreambleSeedsImage(image: seq<(int, int)>, entry: int)
    requires ValidImage(image) && U32(entry)
    ensures Run(Reset(entry), Preamble(image)) ==
            if entry % 4 == 0 then Running(entry, Reset(entry).regs, Install(map[], image)) else Trapped
  {
    hide ImageWords, ClearWords, HopWords, Run, Install, Wrap;
    var m := Reset(entry);
    var distance := 4 * (5 * |image| + 2);
    WrapSmall(entry);
    ImageRuns(m, image);
    var m1 := Run(m, ImageWords(image));
    ClearBothRuns(m1);
    var m2 := Run(m1, ClearWords());
    RunAppend(m, ImageWords(image) + ClearWords(), HopWords(distance));
    RunAppend(m, ImageWords(image), ClearWords());
    assert m2.regs == m.regs;
    WrapAdd(entry, 20 * |image|, 8);
    LandOnEntry(entry, distance, m2.pc);
    if entry % 4 == 0 {
      HopsRun(m2, distance);
    } else {
      HopsTrap(m2, distance);
    }
  }

  lemma LandOnEntry(entry: int, distance: int, pc: int)
    requires U32(entry) && distance % 4 == 0 && pc == Wrap(entry + distance)
    ensures Wrap(pc - distance) == entry && pc % 4 == entry % 4
  {
    WrapAdd(entry, distance, -distance);
    FourDivides(entry + distance, distance / 4);
    WordAligned(entry + distance);
  }

  // --- the installed memory -------------------------------------------------

  lemma StoreThenLoad(mem: Memory, address: int, value: int)
    requires U32(value)
    ensures LoadWord(StoreWord(mem, address, value), address) == value
  {
    var mem' := StoreWord(mem, address, value);
    assert ByteAt(mem', address) == value % 0x100 && ByteAt(mem', address + 1) == value / 0x100 % 0x100;
    assert ByteAt(mem', address + 2) == value / 0x1_0000 % 0x100;
    assert ByteAt(mem', address + 3) == value / 0x100_0000 % 0x100;
    BytesRecompose(value);
  }

  lemma BytesRecompose(value: int)
    requires U32(value)
    ensures value % 0x100 + 0x100 * (value / 0x100 % 0x100) + 0x1_0000 * (value / 0x1_0000 % 0x100)
            + 0x100_0000 * (value / 0x100_0000 % 0x100) == value
  {
    assert value / 0x1_0000 == value / 0x100 / 0x100;
    assert value / 0x100_0000 == value / 0x1_0000 / 0x100;
  }

  lemma StoreElsewhere(mem: Memory, address: int, value: int, other: int)
    requires address % 4 == 0 && other % 4 == 0 && address != other
    ensures LoadWord(StoreWord(mem, address, value), other) == LoadWord(mem, other)
  {
  }

  /** Every entry reads back its own value: later entries do not disturb it. */
  lemma {:induction false} InstalledWordReads(mem: Memory, image: seq<(int, int)>, k: nat)
    requires ValidImage(image) && k < |image|
    ensures LoadWord(Install(mem, image), image[k].0) == image[k].1
  {
    hide LoadWord, StoreWord;
    var n := |image| - 1;
    if k == n {
      StoreThenLoad(Install(mem, image[..n]), image[n].0, image[n].1);
    } else {
      assert forall j | 0 <= j < n :: image[..n][j] == image[j];
      InstalledWordReads(mem, image[..n], k);
      StoreElsewhere(Install(mem, image[..n]), image[n].0, image[n].1, image[k].0);
    }
  }

  /** Bytes outside every entry keep their value. */
  lemma {:induction false} UntouchedByteKept(mem: Memory, image: seq<(int, int)>, address: int)
    requires forall k | 0 <= k < |image| :: !(image[k].0 <= address < image[k].0 + 4)
    ensures ByteAt(Install(mem, image), address) == ByteAt(mem, address)
  {
    if image != [] {
      var n := |image| - 1;
      assert forall j | 0 <= j < n :: image[..n][j] == image[j];
      UntouchedByteKept(mem, image[..n], address);
    }
  }

  // --- the order of the words -----------------------------------------------

  lemma FiveWords(address: int, value: int)
    ensures |SeedWords(address, value)| == 5
  {
  }

  lemma {:induction false} ImageWordsAt(image: seq<(int, int)>, k: nat, d: nat)
    requires k < |image| && d < 5 && |SeedWords(image[k].0, image[k].1)| == 5
    ensures ImageWords(image)[5 * k + d] == SeedWords(image[k].0, image[k].1)[d]
  {
    hide SeedWords;
    var n := |image| - 1;
    if k < n {
      ImageWordsAt(image[..n], k, d);
    }
  }

  /** Entry by entry, in the image's order, then the two registers are cleared, then the jumps. */
  lemma PreambleOrder(image: seq<(int, int)>)
    ensures var words, n := Preamble(image), |image|;
            && |words| >= 5 * n + 2
            && (forall k: nat | k < n :: Installs(words[5 * k..5 * k + 5], image[k].0, image[k].1))
            && Decode(words[5 * n]) == Addi(1, 0, 0) && Decode(words[5 * n + 1]) == Addi(2, 0, 0)
            && words[5 * n + 2..] == HopWords(20 * n + 8)
  {
    hide HopWords, Decode, ImageWords, ClearInstruction, Installs;
    var words, n := Preamble(image), |image|;
    forall k: nat | k < n ensures Installs(words[5 * k..5 * k + 5], image[k].0, image[k].1) {
      BlockInstalls(image, words, k);
    }
    ClearDecodes(1);
    ClearDecodes(2);
  }

  /** The address is loaded into register 1, the value into register 2, and stored. */
  predicate Installs(words: seq<nat>, address: int, value: int) {
    words == EncodeLoadImmediate(1, address) + EncodeLoadImmediate(2, value) + [StoreInstruction()]
  }

  lemma BlockInstalls(image: seq<(int, int)>, words: seq<nat>, k: nat)
    requires k < |image| && ImageWords(image) <= words
    ensures Installs(words[5 * k..5 * k + 5], image[k].0, image[k].1)
  {
    hide SeedWords, ImageWords, Installs;
    var block := SeedWords(image[k].0, image[k].1);
    FiveWords(image[k].0, image[k].1);
    SeedInstalls(image[k].0, image[k].1);
    forall d: nat | d < 5 ensures words[5 * k + d] == block[d] {
      ImageWordsAt(image, k, d);
    }
    SameBlock(words, 5 * k, block);
  }

  lemma SeedInstalls(address: int, value: int)
    ensures Installs(SeedWords(address, value), address, value)
  {
    hide EncodeLoadImmediate, StoreInstruction;
  }

  lemma SameBlock(words: seq<nat>, at: nat, block: seq<nat>)
    requires |block| == 5 && at + 5 <= |words| && forall d: nat | d < 5 :: words[at + d] == block[d]
    ensures words[at..at + 5] == block
  {
  }

  /** Every jump but the last goes back as far as one can, and the last the rest. */
  lemma {:induction false} HopsAreLong(distance: nat, i: nat)
    requires i < |HopWords(distance)|
    ensures i * 0x10_0000 < distance
    ensures HopWords(distance)[i]
         == JalWord(if distance - i * 0x10_0000 < 0x10_0000 then i * 0x10_0000 - distance else -0x10_0000)
    decreases distance
  {
    hide JalWord;
    if i > 0 {
      HopsAreLong(distance - 0x10_0000, i - 1);
    }
  }
}
