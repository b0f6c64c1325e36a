/**
  The byte stream hashed into a proof statement's digest, and its unique
  decodability: which statements can share a stream.
*/
module StatementStream {
  import opened Basics

  type Byte = b: int | 0 <= b < 0x100

  const U64_LIMIT: int := 0x1_0000_0000_0000_0000

  predicate U64(n: int) {
    0 <= n < U64_LIMIT
  }

  // --- the statement --------------------------------------------------------

  datatype PcsConfig = PcsConfig(
    powBits: int, logBlowupFactor: int, logLastLayerDegreeBound: int,
    nQueries: int, foldStep: int, liftingLogSize: Option<int>)

  /** Digests are text; text is its UTF-8 encoding. */
  datatype Source = Source(elfSha256: seq<Byte>, inputSha256: seq<Byte>)

  datatype Component = Component(
    index: int, family: int, familyShardIndex: int, familyShardCount: int,
    rowOffset: int, logSize: int, nRows: int, nColumns: int, interactionBatchCount: int)

  datatype Infrastructure = Infrastructure(
    index: int, kind: int, logSize: int, nRows: int, nColumns: int, claimCount: int)

  datatype Completion = Completion(kind: string, address: int, value: int, clock: int)

  datatype OutputWord = OutputWord(addr: int, value: int, clock: int)

  datatype PublicData = PublicData(
    initialPc: int, finalPc: int, clock: int,
    initialRegs: seq<int>, finalRegs: seq<int>, regLastClock: seq<int>,
    programRoot: Option<int>, initialRwRoot: Option<int>, finalRwRoot: Option<int>,
    completion: Completion,
    inputStart: int, inputLen: int, inputWords: seq<int>,
    outputLen: int, outputLenAddr: int, outputDataAddr: int, outputWords: seq<OutputWord>)

  datatype Statement = Statement(
    protocol: seq<Byte>, pcs: PcsConfig, source: Source,
    segmentOrdinal: int, segmentCount: int, initialPc: int, finalPc: int, totalSteps: int,
    components: seq<Component>, infrastructure: seq<Infrastructure>, public: PublicData)

  // --- the stream as a list of blocks ---------------------------------------

  /** Fixed and Wide carry no length; Text and Listing carry theirs in front. */
  datatype Block =
    | Fixed(words: seq<int>)
    | Wide(value: int)
    | Text(bytes: seq<Byte>)
    | Listing(width: nat, rows: seq<seq<int>>)

  function ComponentWords(c: Component): seq<int> {
    [c.index, c.family, c.familyShardIndex, c.familyShardCount, c.rowOffset,
     c.logSize, c.nRows, c.nColumns, c.interactionBatchCount]
  }

  function InfrastructureWords(c: Infrastructure): seq<int> {
    [c.index, c.kind, c.logSize, c.nRows, c.nColumns, c.claimCount]
  }

  function OutputWords(o: OutputWord): seq<int> {
    [o.addr, o.value, o.clock]
  }

  function OneWord(w: int): seq<int> {
    [w]
  }

  function OptionWords(o: Option<int>): seq<int> {
    if o.None? then [0, 0] else [1, o.value]
  }

  predicate KnownKind(kind: string) {
    kind == "halt_flag" || kind == "unretired_self_loop"
  }

  function KindWord(kind: string): int {
    if kind == "halt_flag" then 0 else 1
  }

  function Rows<T>(words: T -> seq<int>, items: seq<T>): seq<seq<int>> {
    seq(|items|, i requires 0 <= i < |items| => words(items[i]))
  }

  function HeaderBlocks(s: Statement): seq<Block> {
    [Text(s.protocol),
     Fixed([s.pcs.powBits, s.pcs.logBlowupFactor, s.pcs.logLastLayerDegreeBound]),
     Wide(s.pcs.nQueries),
     Fixed([s.pcs.foldStep]),
     Fixed(OptionWords(s.pcs.liftingLogSize)),
     Text(s.source.elfSha256),
     Text(s.source.inputSha256),
     Fixed([s.segmentOrdinal, s.segmentCount, s.initialPc, s.finalPc, s.totalSteps]),
     Listing(9, Rows(ComponentWords, s.components)),
     Listing(6, Rows(InfrastructureWords, s.infrastructure))]
  }

  function RegisterBlocks(p: PublicData): seq<Block> {
    [Fixed([p.initialPc, p.finalPc, p.clock]),
     Fixed(p.initialRegs), Fixed(p.finalRegs), Fixed(p.regLastClock),
     Fixed(OptionWords(p.programRoot)),
     Fixed(OptionWords(p.initialRwRoot)),
     Fixed(OptionWords(p.finalRwRoot))]
  }

  function IoBlocks(p: PublicData): seq<Block> {
    [Fixed([KindWord(p.completion.kind)]),
     Fixed([p.completion.address, p.completion.value, p.completion.clock]),
     Fixed([p.inputStart, p.inputLen]),
     Listing(1, Rows(OneWord, p.inputWords)),
     Fixed([p.outputLen, p.outputLenAddr, p.outputDataAddr]),
     Listing(3, Rows(OutputWords, p.outputWords))]
  }

  function Blocks(s: Statement): seq<Block> {
    HeaderBlocks(s) + RegisterBlocks(s.public) + IoBlocks(s.public)
  }

  function EncodeWord(n: int): seq<Byte> {
    [n % 0x100, n / 0x100 % 0x100, n / 0x1_0000 % 0x100, n / 0x100_0000 % 0x100]
  }

  function EncodeWords(ws: seq<int>): (bytes: seq<Byte>)
    ensures |bytes| == 4 * |ws|
  {
    if ws == [] then [] else EncodeWords(ws[..|ws| - 1]) + EncodeWord(ws[|ws| - 1])
  }

  function EncodeRows(rows: seq<seq<int>>): seq<Byte> {
    if rows == [] then [] else EncodeRows(rows[..|rows| - 1]) + EncodeWords(rows[|rows| - 1])
  }

  function Encode(b: Block): seq<Byte> {
    match b
    case Fixed(words) => EncodeWords(words)
    case Wide(value) => EncodeWord(value % U32_LIMIT) + EncodeWord(value / U32_LIMIT)
    case Text(bytes) => EncodeWord(|bytes|) + bytes
    case Listing(_, rows) => EncodeWord(|rows|) + EncodeRows(rows)
  }

  function EncodeAll(blocks: seq<Block>): seq<Byte> {
    if blocks == [] then [] else Encode(blocks[0]) + EncodeAll(blocks[1..])
  }

  predicate AllU32(ws: seq<int>) {
    forall i | 0 <= i < |ws| :: U32(ws[i])
  }

  predicate InRange(b: Block) {
    match b
    case Fixed(words) => AllU32(words)
    case Wide(value) => U64(value)
    case Text(bytes) => U32(|bytes|)
    case Listing(width, rows) => U32(|rows|) && forall i | 0 <= i < |rows| :: |rows[i]| == width && AllU32(rows[i])
  }

  /** Every bound word fits its slot and the completion kind is one of the two. */
  predicate WellFormed(s: Statement) {
    (forall b | b in Blocks(s) :: InRange(b)) && KnownKind(s.public.completion.kind)
  }

  const PREFIX := "stwo-zig/riscv/expected-statement/v4\0"

  function Ascii(s: string): seq<Byte> {
    seq(|s|, i requires 0 <= i < |s| => s[i] as int % 0x100)
  }

  function Stream(s: Statement): seq<Byte> {
    Ascii(PREFIX) + EncodeAll(Blocks(s))
  }

  // --- unique decodability of blocks ----------------------------------------

  lemma WordBytes(n: int, m: int)
    requires U32(n) && U32(m) && EncodeWord(n) == EncodeWord(m)
    ensures n == m
  {
    assert EncodeWord(n)[0] == EncodeWord(m)[0] && EncodeWord(n)[1] == EncodeWord(m)[1];
    assert EncodeWord(n)[2] == EncodeWord(m)[2] && EncodeWord(n)[3] == EncodeWord(m)[3];
    WordOfBytes(n);
    WordOfBytes(m);
  }

  lemma WordOfBytes(n: int)
    requires U32(n)
    ensures n == n % 0x100 + 0x100 * (n / 0x100 % 0x100) + 0x1_0000 * (n / 0x1_0000 % 0x100)
                 + 0x100_0000 * (n / 0x100_0000 % 0x100)
  {
    assert n / 0x1_0000 == n / 0x100 / 0x100;
    assert n / 0x100_0000 == n / 0x1_0000 / 0x100;
  }

  /** Equal concatenations with fronts of equal length split equally. */
  lemma SplitFront<T>(a: seq<T>, x: seq<T>, b: seq<T>, y: seq<T>)
    requires |a| == |b| && a + x == b + y
    ensures a == b && x == y
  {
    assert a == (a + x)[..|a|] && b == (b + y)[..|b|];
    assert x == (a + x)[|a|..] && y == (b + y)[|b|..];
  }

  lemma WordFront(n: int, x: seq<Byte>, m: int, y: seq<Byte>)
    requires U32(n) && U32(m) && EncodeWord(n) + x == EncodeWord(m) + y
    ensures n == m && x == y
  {
    SplitFront(EncodeWord(n), x, EncodeWord(m), y);
    WordBytes(n, m);
  }

  lemma {:induction false} WordsInjective(a: seq<int>, b: seq<int>)
    requires AllU32(a) && AllU32(b) && EncodeWords(a) == EncodeWords(b)
    ensures a == b
  {
    assert |a| == |b|;
    if a != [] {
      var n := |a| - 1;
      SplitFront(EncodeWords(a[..n]), EncodeWord(a[n]), EncodeWords(b[..n]), EncodeWord(b[n]));
      WordsInjective(a[..n], b[..n]);
      WordBytes(a[n], b[n]);
      assert a == a[..n] + [a[n]] && b == b[..n] + [b[n]];
    }
  }

  predicate Rectangular(rows: seq<seq<int>>, width: nat) {
    forall i | 0 <= i < |rows| :: |rows[i]| == width && AllU32(rows[i])
  }

  lemma {:induction false} RowsSameLength(a: seq<seq<int>>, b: seq<seq<int>>, width: nat)
    requires |a| == |b| && Rectangular(a, width) && Rectangular(b, width)
    ensures |EncodeRows(a)| == |EncodeRows(b)|
  {
    if a != [] {
      RowsSameLength(a[..|a| - 1], b[..|b| - 1], width);
    }
  }

  lemma {:induction false} RowsInjective(a: seq<seq<int>>, b: seq<seq<int>>, width: nat)
    requires |a| == |b| && Rectangular(a, width) && Rectangular(b, width)
    requires EncodeRows(a) == EncodeRows(b)
    ensures a == b
  {
    if a != [] {
      var n := |a| - 1;
      RowsSameLength(a[..n], b[..n], width);
      SplitFront(EncodeRows(a[..n]), EncodeWords(a[n]), EncodeRows(b[..n]), EncodeWords(b[n]));
      RowsInjective(a[..n], b[..n], width);
      WordsInjective(a[n], b[n]);
      assert a == a[..n] + [a[n]] && b == b[..n] + [b[n]];
    }
  }

  /** Same constructor and same unframed size. */
  predicate SameShape(a: Block, b: Block) {
    match (a, b)
    case (Fixed(v), Fixed(w)) => |v| == |w|
    case (Wide(_), Wide(_)) => true
    case (Text(_), Text(_)) => true
    case (Listing(n, _), Listing(m, _)) => n == m
    case _ => false
  }

  /** A block can be read off the front of any stream, given its shape. */
  lemma BlockFront(a: Block, x: seq<Byte>, b: Block, y: seq<Byte>)
    requires InRange(a) && InRange(b) && SameShape(a, b)
    requires Encode(a) + x == Encode(b) + y
    ensures a == b && x == y
  {
    match a {
      case Fixed(v) =>
        SplitFront(EncodeWords(v), x, EncodeWords(b.words), y);
        WordsInjective(v, b.words);
      case Wide(v) =>
        WideFront(v, x, b.value, y);
      case Text(v) =>
        TextFront(v, x, b.bytes, y);
      case Listing(n, v) =>
        ListingFront(n, v, x, b.rows, y);
    }
  }

  lemma Reassociate(a: seq<Byte>, b: seq<Byte>, c: seq<Byte>)
    ensures (a + b) + c == a + (b + c)
  {
  }

  lemma TextFront(v: seq<Byte>, x: seq<Byte>, w: seq<Byte>, y: seq<Byte>)
    requires U32(|v|) && U32(|w|) && Encode(Text(v)) + x == Encode(Text(w)) + y
    ensures v == w && x == y
  {
    hide EncodeWord;
    Reassociate(EncodeWord(|v|), v, x);
    Reassociate(EncodeWord(|w|), w, y);
    WordFront(|v|, v + x, |w|, w + y);
    SplitFront(v, x, w, y);
  }

  lemma ListingFront(n: nat, v: seq<seq<int>>, x: seq<Byte>, w: seq<seq<int>>, y: seq<Byte>)
    requires InRange(Listing(n, v)) && InRange(Listing(n, w))
    requires Encode(Listing(n, v)) + x == Encode(Listing(n, w)) + y
    ensures v == w && x == y
  {
    hide EncodeRows, EncodeWord;
    Reassociate(EncodeWord(|v|), EncodeRows(v), x);
    Reassociate(EncodeWord(|w|), EncodeRows(w), y);
    WordFront(|v|, EncodeRows(v) + x, |w|, EncodeRows(w) + y);
    RowsSameLength(v, w, n);
    SplitFront(EncodeRows(v), x, EncodeRows(w), y);
    RowsInjective(v, w, n);
  }

  lemma WideFront(v: int, x: seq<Byte>, w: int, y: seq<Byte>)
    requires U64(v) && U64(w) && Encode(Wide(v)) + x == Encode(Wide(w)) + y
    ensures v == w && x == y
  {
    SplitFront(Encode(Wide(v)), x, Encode(Wide(w)), y);
    SplitFront(EncodeWord(v % U32_LIMIT), EncodeWord(v / U32_LIMIT), EncodeWord(w % U32_LIMIT),
               EncodeWord(w / U32_LIMIT));
    WordBytes(v % U32_LIMIT, w % U32_LIMIT);
    WordBytes(v / U32_LIMIT, w / U32_LIMIT);
  }

  lemma {:induction false} BlocksInjective(a: seq<Block>, b: seq<Block>)
    requires |a| == |b|
    requires forall i | 0 <= i < |a| :: SameShape(a[i], b[i]) && InRange(a[i]) && InRange(b[i])
    requires EncodeAll(a) == EncodeAll(b)
    ensures a == b
  {
    hide Encode, InRange, SameShape;
    if a != [] {
      assert forall i | 0 <= i < |a[1..]| :: a[1..][i] == a[i + 1] && b[1..][i] == b[i + 1];
      BlockFront(a[0], EncodeAll(a[1..]), b[0], EncodeAll(b[1..]));
      BlocksInjective(a[1..], b[1..]);
      assert a == [a[0]] + a[1..] && b == [b[0]] + b[1..];
    }
  }

  // --- unique decodability of statements ------------------------------------

  /** The three register arrays, the only unframed lists, have the same lengths. */
  predicate SameRegisterLengths(a: Statement, b: Statement) {
    && |a.public.initialRegs| == |b.public.initialRegs|
    && |a.public.finalRegs| == |b.public.finalRegs|
    && |a.public.regLastClock| == |b.public.regLastClock|
  }

  lemma BlocksSameShape(a: Statement, b: Statement)
    requires SameRegisterLengths(a, b)
    ensures |Blocks(a)| == |Blocks(b)|
    ensures forall i | 0 <= i < |Blocks(a)| :: SameShape(Blocks(a)[i], Blocks(b)[i])
  {
    hide Rows, KindWord;
    var v, w := Blocks(a), Blocks(b);
    assert v[..10] == HeaderBlocks(a) && v[10..17] == RegisterBlocks(a.public) && v[17..] == IoBlocks(a.public);
    assert w[..10] == HeaderBlocks(b) && w[10..17] == RegisterBlocks(b.public) && w[17..] == IoBlocks(b.public);
    assert forall i | 0 <= i < 10 :: SameShape(HeaderBlocks(a)[i], HeaderBlocks(b)[i]);
    assert forall i | 0 <= i < 7 :: SameShape(RegisterBlocks(a.public)[i], RegisterBlocks(b.public)[i]);
    assert forall i | 0 <= i < 6 :: SameShape(IoBlocks(a.public)[i], IoBlocks(b.public)[i]);
  }

  lemma {:induction false} RowsDetermine<T>(words: T -> seq<int>, a: seq<T>, b: seq<T>)
    requires forall x: T, y: T | x in a && y in b :: words(x) == words(y) ==> x == y
    requires Rows(words, a) == Rows(words, b)
    ensures a == b
  {
    assert |Rows(words, a)| == |a| && |Rows(words, b)| == |b|;
    forall i | 0 <= i < |a| ensures a[i] == b[i] {
      assert Rows(words, a)[i] == words(a[i]) && Rows(words, b)[i] == words(b[i]);
    }
  }

  lemma OptionWordsInjective(a: Option<int>, b: Option<int>)
    requires OptionWords(a) == OptionWords(b)
    ensures a == b
  {
    assert OptionWords(a)[0] == OptionWords(b)[0] && OptionWords(a)[1] == OptionWords(b)[1];
  }

  lemma ComponentWordsInjective(a: Component, b: Component)
    requires ComponentWords(a) == ComponentWords(b)
    ensures a == b
  {
    var v, w := ComponentWords(a), ComponentWords(b);
    assert v[0] == w[0] && v[1] == w[1] && v[2] == w[2] && v[3] == w[3] && v[4] == w[4];
    assert v[5] == w[5] && v[6] == w[6] && v[7] == w[7] && v[8] == w[8];
  }

  lemma InfrastructureWordsInjective(a: Infrastructure, b: Infrastructure)
    requires InfrastructureWords(a) == InfrastructureWords(b)
    ensures a == b
  {
    var v, w := InfrastructureWords(a), InfrastructureWords(b);
    assert v[0] == w[0] && v[1] == w[1] && v[2] == w[2] && v[3] == w[3] && v[4] == w[4] && v[5] == w[5];
  }

  lemma OutputWordsInjective(a: OutputWord, b: OutputWord)
    requires OutputWords(a) == OutputWords(b)
    ensures a == b
  {
    var v, w := OutputWords(a), OutputWords(b);
    assert v[0] == w[0] && v[1] == w[1] && v[2] == w[2];
  }

  lemma HeaderDetermined(a: Statement, b: Statement)
    requires HeaderBlocks(a) == HeaderBlocks(b)
    ensures a == b.(public := a.public)
  {
    var v, w := HeaderBlocks(a), HeaderBlocks(b);
    assert v[0] == w[0] && v[1] == w[1] && v[2] == w[2] && v[3] == w[3] && v[4] == w[4];
    assert v[5] == w[5] && v[6] == w[6] && v[7] == w[7] && v[8] == w[8] && v[9] == w[9];
    assert v[1].words[0] == w[1].words[0] && v[1].words[1] == w[1].words[1] && v[1].words[2] == w[1].words[2];
    assert v[3].words[0] == w[3].words[0];
    OptionWordsInjective(a.pcs.liftingLogSize, b.pcs.liftingLogSize);
    assert v[7].words[0] == w[7].words[0] && v[7].words[1] == w[7].words[1] && v[7].words[2] == w[7].words[2];
    assert v[7].words[3] == w[7].words[3] && v[7].words[4] == w[7].words[4];
    forall x: Component, y: Component | ComponentWords(x) == ComponentWords(y) ensures x == y {
      ComponentWordsInjective(x, y);
    }
    RowsDetermine(ComponentWords, a.components, b.components);
    forall x: Infrastructure, y: Infrastructure | InfrastructureWords(x) == InfrastructureWords(y) ensures x == y {
      InfrastructureWordsInjective(x, y);
    }
    RowsDetermine(InfrastructureWords, a.infrastructure, b.infrastructure);
  }

  lemma RegistersDetermined(a: PublicData, b: PublicData)
    requires RegisterBlocks(a) == RegisterBlocks(b)
    ensures a.initialPc == b.initialPc && a.finalPc == b.finalPc && a.clock == b.clock
    ensures a.initialRegs == b.initialRegs && a.finalRegs == b.finalRegs && a.regLastClock == b.regLastClock
    ensures a.programRoot == b.programRoot
    ensures a.initialRwRoot == b.initialRwRoot && a.finalRwRoot == b.finalRwRoot
  {
    var v, w := RegisterBlocks(a), RegisterBlocks(b);
    assert v[0] == w[0] && v[1] == w[1] && v[2] == w[2] && v[3] == w[3] && v[4] == w[4] && v[5] == w[5] && v[6] == w[6];
    assert v[0].words[0] == w[0].words[0] && v[0].words[1] == w[0].words[1] && v[0].words[2] == w[0].words[2];
    OptionWordsInjective(a.programRoot, b.programRoot);
    OptionWordsInjective(a.initialRwRoot, b.initialRwRoot);
    OptionWordsInjective(a.finalRwRoot, b.finalRwRoot);
  }

  lemma IoDetermined(a: PublicData, b: PublicData)
    requires IoBlocks(a) == IoBlocks(b)
    requires KnownKind(a.completion.kind) && KnownKind(b.completion.kind)
    ensures a.completion == b.completion && a.inputStart == b.inputStart && a.inputLen == b.inputLen
    ensures a.inputWords == b.inputWords && a.outputWords == b.outputWords
    ensures a.outputLen == b.outputLen && a.outputLenAddr == b.outputLenAddr && a.outputDataAddr == b.outputDataAddr
  {
    var v, w := IoBlocks(a), IoBlocks(b);
    assert v[0] == w[0] && v[1] == w[1] && v[2] == w[2] && v[3] == w[3] && v[4] == w[4] && v[5] == w[5];
    assert v[0].words[0] == w[0].words[0];
    assert v[1].words[0] == w[1].words[0] && v[1].words[1] == w[1].words[1] && v[1].words[2] == w[1].words[2];
    assert v[2].words[0] == w[2].words[0] && v[2].words[1] == w[2].words[1];
    assert v[4].words[0] == w[4].words[0] && v[4].words[1] == w[4].words[1] && v[4].words[2] == w[4].words[2];
    forall x: int, y: int | OneWord(x) == OneWord(y) ensures x == y {
      assert OneWord(x)[0] == OneWord(y)[0];
    }
    RowsDetermine(OneWord, a.inputWords, b.inputWords);
    forall x: OutputWord, y: OutputWord | OutputWords(x) == OutputWords(y) ensures x == y {
      OutputWordsInjective(x, y);
    }
    RowsDetermine(OutputWords, a.outputWords, b.outputWords);
  }

  /**
    Two well-formed statements with the same stream, and register arrays of the
    same lengths, are equal in every bound field.
  */
  lemma StreamInjective(a: Statement, b: Statement)
    requires WellFormed(a) && WellFormed(b) && SameRegisterLengths(a, b)
    ensures Stream(a) == Stream(b) <==> a == b
  {
    if Stream(a) == Stream(b) {
      var v, w := Blocks(a), Blocks(b);
      SplitFront(Ascii(PREFIX), EncodeAll(v), Ascii(PREFIX), EncodeAll(w));
      BlocksSameShape(a, b);
      forall i | 0 <= i < |v| ensures InRange(v[i]) && InRange(w[i]) {
        assert v[i] in v && w[i] in w;
      }
      BlocksInjective(v, w);
      SplitFront(HeaderBlocks(a) + RegisterBlocks(a.public), IoBlocks(a.public),
                 HeaderBlocks(b) + RegisterBlocks(b.public), IoBlocks(b.public));
      SplitFront(HeaderBlocks(a), RegisterBlocks(a.public), HeaderBlocks(b), RegisterBlocks(b.public));
      HeaderDetermined(a, b);
      RegistersDetermined(a.public, b.public);
      IoDetermined(a.public, b.public);
    }
  }

  // --- what the stream does not separate ------------------------------------

  function Registers(p: PublicData): seq<int> {
    p.initialRegs + p.finalRegs + p.regLastClock
  }

  /** The statement with its three register arrays run together: what is left
      of them in the stream. */
  function Merged(s: Statement): Statement {
    s.(public := s.public.(initialRegs := Registers(s.public), finalRegs := [], regLastClock := []))
  }

  /** The blocks before, of and after the three arrays. */
  lemma RegisterBlocksSplit(p: PublicData)
    ensures RegisterBlocks(p) == BeforeArrays(p) + Arrays(p.initialRegs, p.finalRegs, p.regLastClock) + AfterArrays(p)
  {
  }

  function BeforeArrays(p: PublicData): seq<Block> {
    [Fixed([p.initialPc, p.finalPc, p.clock])]
  }

  function Arrays(a: seq<int>, b: seq<int>, c: seq<int>): seq<Block> {
    [Fixed(a), Fixed(b), Fixed(c)]
  }

  function AfterArrays(p: PublicData): seq<Block> {
    [Fixed(OptionWords(p.programRoot)), Fixed(OptionWords(p.initialRwRoot)), Fixed(OptionWords(p.finalRwRoot))]
  }

  /** Run together, the arrays have the same bytes and the same range. */
  lemma ArraysMerge(a: seq<int>, b: seq<int>, c: seq<int>)
    ensures EncodeAll(Arrays(a + b + c, [], [])) == EncodeAll(Arrays(a, b, c))
    ensures (forall x | x in Arrays(a + b + c, [], []) :: InRange(x)) <==> forall x | x in Arrays(a, b, c) :: InRange(x)
  {
    EncodeTriple(a, b, c);
    EncodeTriple(a + b + c, [], []);
    assert a + b + c + [] + [] == a + b + c;
    AllU32Splits(a, b, c);
    hide EncodeAll, EncodeWords, AllU32;
    ArraysInRange(a, b, c);
    ArraysInRange(a + b + c, [], []);
    assert AllU32([]) by { NoWords(); }
  }

  lemma NoWords()
    ensures AllU32([])
  {
  }

  lemma ArraysInRange(a: seq<int>, b: seq<int>, c: seq<int>)
    ensures (forall x | x in Arrays(a, b, c) :: InRange(x)) <==> AllU32(a) && AllU32(b) && AllU32(c)
  {
    hide AllU32;
    var v := Arrays(a, b, c);
    assert v[0] in v && v[1] in v && v[2] in v;
    assert InRange(v[0]) == AllU32(a) && InRange(v[1]) == AllU32(b) && InRange(v[2]) == AllU32(c);
  }

  lemma SameBytes(head: seq<Block>, x: seq<Block>, y: seq<Block>, tail: seq<Block>)
    requires EncodeAll(x) == EncodeAll(y)
    ensures EncodeAll(head + x + tail) == EncodeAll(head + y + tail)
  {
    hide EncodeAll;
    EncodeAllAppend(head + x, tail);
    EncodeAllAppend(head + y, tail);
    EncodeAllAppend(head, x);
    EncodeAllAppend(head, y);
  }

  lemma MergedRegisters(p: PublicData, q: PublicData)
    requires q == p.(initialRegs := Registers(p), finalRegs := [], regLastClock := [])
    ensures EncodeAll(RegisterBlocks(q)) == EncodeAll(RegisterBlocks(p))
    ensures (forall b | b in RegisterBlocks(q) :: InRange(b)) <==> forall b | b in RegisterBlocks(p) :: InRange(b)
  {
    hide RegisterBlocks, EncodeAll, InRange, Arrays;
    RegisterBlocksSplit(p);
    RegisterBlocksSplit(q);
    ArraysMerge(p.initialRegs, p.finalRegs, p.regLastClock);
    var x := Arrays(p.initialRegs, p.finalRegs, p.regLastClock);
    var y := Arrays(Registers(p), [], []);
    SameBytes(BeforeArrays(p), x, y, AfterArrays(p));
    SameRange(BeforeArrays(p), x, y, AfterArrays(p));
  }

  lemma AllU32Splits(a: seq<int>, b: seq<int>, c: seq<int>)
    ensures AllU32(a + b + c) <==> AllU32(a) && AllU32(b) && AllU32(c)
  {
    var all := a + b + c;
    if AllU32(all) {
      forall i | 0 <= i < |a| ensures U32(a[i]) { assert all[i] == a[i]; }
      forall i | 0 <= i < |b| ensures U32(b[i]) { assert all[|a| + i] == b[i]; }
      forall i | 0 <= i < |c| ensures U32(c[i]) { assert all[|a| + |b| + i] == c[i]; }
    }
  }

  lemma SameRange(head: seq<Block>, x: seq<Block>, y: seq<Block>, tail: seq<Block>)
    requires (forall b | b in x :: InRange(b)) <==> forall b | b in y :: InRange(b)
    ensures (forall b | b in head + x + tail :: InRange(b)) <==> forall b | b in head + y + tail :: InRange(b)
  {
    hide InRange;
    assert forall b :: b in head + x + tail <==> b in head || b in x || b in tail;
    assert forall b :: b in head + y + tail <==> b in head || b in y || b in tail;
  }

  /** Running the arrays together changes neither the stream nor what is accepted. */
  lemma MergedStream(s: Statement)
    ensures Stream(Merged(s)) == Stream(s)
    ensures WellFormed(Merged(s)) <==> WellFormed(s)
  {
    hide EncodeAll, RegisterBlocks, InRange, WellFormed, Stream;
    MergedRegisters(s.public, Merged(s).public);
    assert HeaderBlocks(Merged(s)) == HeaderBlocks(s);
    assert IoBlocks(Merged(s).public) == IoBlocks(s.public);
    StreamOfParts(s);
    StreamOfParts(Merged(s));
  }

  /**
    The exact collisions.  Two accepted statements with equally many register
    words in all share a stream if and only if they agree outside the three
    arrays and the arrays, run together, are the same list.
  */
  lemma StreamsAgreeExactly(a: Statement, b: Statement)
    requires WellFormed(a) && WellFormed(b) && |Registers(a.public)| == |Registers(b.public)|
    ensures Stream(a) == Stream(b) <==> Merged(a) == Merged(b)
  {
    hide WellFormed, Stream;
    MergedStream(a);
    MergedStream(b);
    StreamInjective(Merged(a), Merged(b));
  }

  /** So moving a word over either boundary between accepted statements' arrays
      gives another accepted statement with the same stream. */
  lemma RegisterBoundaryIsUnframed(left: seq<int>, word: int, right: seq<int>, other: seq<int>, s: Statement)
    ensures
      var a := s.(public := s.public.(initialRegs := left + [word], finalRegs := right, regLastClock := other));
      var b := s.(public := s.public.(initialRegs := left, finalRegs := [word] + right, regLastClock := other));
      a != b && Stream(a) == Stream(b) && (WellFormed(a) <==> WellFormed(b))
    ensures
      var a := s.(public := s.public.(initialRegs := other, finalRegs := left + [word], regLastClock := right));
      var b := s.(public := s.public.(initialRegs := other, finalRegs := left, regLastClock := [word] + right));
      a != b && Stream(a) == Stream(b) && (WellFormed(a) <==> WellFormed(b))
  {
    hide WellFormed, Stream;
    var a := s.(public := s.public.(initialRegs := left + [word], finalRegs := right, regLastClock := other));
    var b := s.(public := s.public.(initialRegs := left, finalRegs := [word] + right, regLastClock := other));
    assert |a.public.initialRegs| != |b.public.initialRegs|;
    assert Registers(a.public) == Registers(b.public);
    MergedStream(a);
    MergedStream(b);
    var c := s.(public := s.public.(initialRegs := other, finalRegs := left + [word], regLastClock := right));
    var d := s.(public := s.public.(initialRegs := other, finalRegs := left, regLastClock := [word] + right));
    assert |c.public.finalRegs| != |d.public.finalRegs|;
    assert Registers(c.public) == Registers(d.public);
    MergedStream(c);
    MergedStream(d);
  }

  lemma {:induction false} EncodeWordsAppend(a: seq<int>, b: seq<int>)
    ensures EncodeWords(a + b) == EncodeWords(a) + EncodeWords(b)
  {
    if b == [] {
      assert a + b == a;
    } else {
      var n := |b| - 1;
      assert (a + b)[..|a + b| - 1] == a + b[..n];
      EncodeWordsAppend(a, b[..n]);
    }
  }

  lemma EncodeTriple(a: seq<int>, b: seq<int>, c: seq<int>)
    ensures EncodeAll([Fixed(a), Fixed(b), Fixed(c)]) == EncodeWords(a + b + c)
  {
    hide EncodeWords;
    EncodeWordsAppend(a + b, c);
    EncodeWordsAppend(a, b);
    assert [Fixed(a), Fixed(b), Fixed(c)][1..] == [Fixed(b), Fixed(c)];
    assert [Fixed(b), Fixed(c)][1..] == [Fixed(c)] && [Fixed(c)][1..] == [];
    assert EncodeAll([Fixed(c)]) == EncodeWords(c);
    assert EncodeAll([Fixed(b), Fixed(c)]) == EncodeWords(b) + EncodeWords(c);
    Reassociate(EncodeWords(a), EncodeWords(b), EncodeWords(c));
  }

  lemma {:induction false} EncodeAllAppend(a: seq<Block>, b: seq<Block>)
    ensures EncodeAll(a + b) == EncodeAll(a) + EncodeAll(b)
  {
    if a == [] {
      assert a + b == b;
    } else {
      assert (a + b)[1..] == a[1..] + b;
      EncodeAllAppend(a[1..], b);
    }
  }

  // --- the hasher -----------------------------------------------------------

  datatype Outcome = Pass | Fail {
    predicate IsFailure() { Fail? }
    function PropagateFailure(): Outcome
      requires Fail?
    {
      this
    }
  }

  /** The bytes fed to the hash so far. */
  class Hasher {
    var fed: seq<Byte>

    constructor ()
      ensures fed == []
    {
      fed := [];
    }

    method Update(bytes: seq<Byte>)
      modifies this
      ensures fed == old(fed) + bytes
    {
      fed := fed + bytes;
    }

    method Word(value: int) returns (r: Outcome)
      modifies this
      ensures r.Pass? <==> U32(value)
      ensures fed == if r.Pass? then old(fed) + EncodeWord(value) else old(fed)
    {
      if !(0 <= value <= 0xFFFF_FFFF) {
        return Fail;
      }
      Update(EncodeWord(value));
      return Pass;
    }

    method WideWord(value: int) returns (r: Outcome)
      modifies this
      ensures r.Pass? <==> InRange(Wide(value))
      ensures r.Pass? ==> fed == old(fed) + Encode(Wide(value))
    {
      if !(0 <= value <= 0xFFFF_FFFF_FFFF_FFFF) {
        return Fail;
      }
      Update(EncodeWord(value % U32_LIMIT) + EncodeWord(value / U32_LIMIT));
      return Pass;
    }

    /** One word per field, in order; the first that does not fit stops the stream. */
    method Words(values: seq<int>) returns (r: Outcome)
      modifies this
      ensures r.Pass? <==> InRange(Fixed(values))
      ensures r.Pass? ==> fed == old(fed) + Encode(Fixed(values))
    {
      for i := 0 to |values|
        invariant AllU32(values[..i]) && fed == old(fed) + EncodeWords(values[..i])
      {
        var ok := Word(values[i]);
        if ok.Fail? {
          return Fail;
        }
        assert values[..i + 1][..i] == values[..i];
      }
      assert values[..|values|] == values;
      return Pass;
    }

    method TextBytes(bytes: seq<Byte>) returns (r: Outcome)
      modifies this
      ensures r.Pass? <==> InRange(Text(bytes))
      ensures r.Pass? ==> fed == old(fed) + Encode(Text(bytes))
    {
      var size := |bytes|;
      :- Word(size);
      Update(bytes);
      return Pass;
    }

    /** Every row's fields, row by row. */
    method EachRow(rows: seq<seq<int>>) returns (r: Outcome)
      modifies this
      ensures r.Pass? <==> forall k | 0 <= k < |rows| :: AllU32(rows[k])
      ensures r.Pass? ==> fed == old(fed) + EncodeRows(rows)
    {
      hide EncodeWords;
      for i := 0 to |rows|
        invariant forall k | 0 <= k < i :: AllU32(rows[k])
        invariant fed == old(fed) + EncodeRows(rows[..i])
      {
        var ok := Words(rows[i]);
        if ok.Fail? {
          return Fail;
        }
        assert rows[..i + 1][..i] == rows[..i];
        Reassociate(old(fed), EncodeRows(rows[..i]), EncodeWords(rows[i]));
      }
      assert rows[..|rows|] == rows;
      return Pass;
    }

    /** The number of rows, then the rows. */
    method List(width: nat, rows: seq<seq<int>>) returns (r: Outcome)
      requires forall i | 0 <= i < |rows| :: |rows[i]| == width
      modifies this
      ensures r.Pass? <==> InRange(Listing(width, rows))
      ensures r.Pass? ==> fed == old(fed) + Encode(Listing(width, rows))
    {
      hide EncodeWord, EncodeRows;
      ghost var before := fed;
      :- Word(|rows|);
      :- EachRow(rows);
      Reassociate(before, EncodeWord(|rows|), EncodeRows(rows));
      return Pass;
    }

    /** Presence, then the word or zero. */
    method Optional(o: Option<int>) returns (r: Outcome)
      modifies this
      ensures r.Pass? <==> InRange(Fixed(OptionWords(o)))
      ensures r.Pass? ==> fed == old(fed) + Encode(Fixed(OptionWords(o)))
    {
      var value := if o.None? then 0 else o.value;
      var flag := if o.None? then 0 else 1;
      PairWords(flag, value);
      var present := Word(flag);
      r := Word(value);
    }
  }

  lemma EncodeAllSnoc(blocks: seq<Block>, b: Block)
    ensures EncodeAll(blocks + [b]) == EncodeAll(blocks) + Encode(b)
  {
    EncodeAllAppend(blocks, [b]);
    assert [b][1..] == [];
  }

  /** Position `done` of the block list has been reached. */
  predicate Reached(fed: seq<Byte>, start: seq<Byte>, blocks: seq<Block>, done: nat) {
    done <= |blocks| && fed == start + EncodeAll(blocks[..done])
  }

  lemma Advance(fed: seq<Byte>, start: seq<Byte>, blocks: seq<Block>, done: nat, b: Block)
    requires Reached(fed, start, blocks, done) && done < |blocks| && blocks[done] == b
    ensures Reached(fed + Encode(b), start, blocks, done + 1)
    ensures b in blocks
  {
    hide EncodeAll, Encode;
    assert blocks[..done + 1] == blocks[..done] + [b];
    EncodeAllSnoc(blocks[..done], b);
    Reassociate(start, EncodeAll(blocks[..done]), Encode(b));
  }

  lemma PairWords(a: int, b: int)
    ensures EncodeWords([a, b]) == EncodeWord(a) + EncodeWord(b)
    ensures AllU32([a, b]) <==> U32(a) && U32(b)
  {
    assert [a, b][..1] == [a] && [a][..0] == [];
    assert EncodeWords([a]) == EncodeWord(a);
    assert AllU32([a, b]) ==> U32([a, b][0]) && U32([a, b][1]);
  }

  lemma HeaderAt(s: Statement)
    ensures var v := HeaderBlocks(s);
            && |v| == 10
            && v[0] == Text(s.protocol)
            && v[1] == Fixed([s.pcs.powBits, s.pcs.logBlowupFactor, s.pcs.logLastLayerDegreeBound])
            && v[2] == Wide(s.pcs.nQueries)
            && v[3] == Fixed([s.pcs.foldStep])
            && v[4] == Fixed(OptionWords(s.pcs.liftingLogSize))
            && v[5] == Text(s.source.elfSha256)
            && v[6] == Text(s.source.inputSha256)
            && v[7] == Fixed([s.segmentOrdinal, s.segmentCount, s.initialPc, s.finalPc, s.totalSteps])
            && v[8] == Listing(9, Rows(ComponentWords, s.components))
            && v[9] == Listing(6, Rows(InfrastructureWords, s.infrastructure))
  {
  }

  /** Everything up to and including the two component lists. */
  method FeedHeader(h: Hasher, s: Statement) returns (r: Outcome)
    modifies h
    ensures r.Pass? <==> forall b | b in HeaderBlocks(s) :: InRange(b)
    ensures r.Pass? ==> h.fed == old(h.fed) + EncodeAll(HeaderBlocks(s))
  {
    hide Encode, EncodeAll, InRange, OptionWords, Rows, HeaderBlocks, Reached;
    HeaderAt(s);
    ghost var start, blocks := h.fed, HeaderBlocks(s);
    Begin(start, blocks);
    Advance(h.fed, start, blocks, 0, Text(s.protocol));
    :- h.TextBytes(s.protocol);
    ghost var c := s.pcs;
    Advance(h.fed, start, blocks, 1, Fixed([c.powBits, c.logBlowupFactor, c.logLastLayerDegreeBound]));
    :- h.Words([s.pcs.powBits, s.pcs.logBlowupFactor, s.pcs.logLastLayerDegreeBound]);
    Advance(h.fed, start, blocks, 2, Wide(c.nQueries));
    :- h.WideWord(s.pcs.nQueries);
    Advance(h.fed, start, blocks, 3, Fixed([c.foldStep]));
    :- h.Words([s.pcs.foldStep]);
    Advance(h.fed, start, blocks, 4, Fixed(OptionWords(c.liftingLogSize)));
    :- h.Optional(s.pcs.liftingLogSize);
    Advance(h.fed, start, blocks, 5, Text(s.source.elfSha256));
    :- h.TextBytes(s.source.elfSha256);
    Advance(h.fed, start, blocks, 6, Text(s.source.inputSha256));
    :- h.TextBytes(s.source.inputSha256);
    Advance(h.fed, start, blocks, 7, Fixed([s.segmentOrdinal, s.segmentCount, s.initialPc, s.finalPc, s.totalSteps]));
    :- h.Words([s.segmentOrdinal, s.segmentCount, s.initialPc, s.finalPc, s.totalSteps]);
    RowWidths(ComponentWords, s.components, 9);
    Advance(h.fed, start, blocks, 8, Listing(9, Rows(ComponentWords, s.components)));
    :- h.List(9, Rows(ComponentWords, s.components));
    RowWidths(InfrastructureWords, s.infrastructure, 6);
    Advance(h.fed, start, blocks, 9, Listing(6, Rows(InfrastructureWords, s.infrastructure)));
    :- h.List(6, Rows(InfrastructureWords, s.infrastructure));
    End(h.fed, start, blocks);
    return Pass;
  }

  lemma Begin(start: seq<Byte>, blocks: seq<Block>)
    ensures Reached(start, start, blocks, 0)
  {
    assert blocks[..0] == [];
  }

  lemma RowWidths<T>(words: T -> seq<int>, items: seq<T>, width: nat)
    requires forall t :: |words(t)| == width
    ensures |Rows(words, items)| == |items|
    ensures forall i | 0 <= i < |items| :: |Rows(words, items)[i]| == width
  {
  }

  lemma End(fed: seq<Byte>, start: seq<Byte>, blocks: seq<Block>)
    requires Reached(fed, start, blocks, |blocks|)
    ensures fed == start + EncodeAll(blocks)
  {
    assert blocks[..|blocks|] == blocks;
  }

  lemma RegistersAt(p: PublicData)
    ensures var v := RegisterBlocks(p);
            && |v| == 7
            && v[0] == Fixed([p.initialPc, p.finalPc, p.clock])
            && v[1] == Fixed(p.initialRegs) && v[2] == Fixed(p.finalRegs) && v[3] == Fixed(p.regLastClock)
            && v[4] == Fixed(OptionWords(p.programRoot))
            && v[5] == Fixed(OptionWords(p.initialRwRoot))
            && v[6] == Fixed(OptionWords(p.finalRwRoot))
  {
  }

  /** The public pcs, clock, register arrays and roots. */
  method FeedRegisters(h: Hasher, p: PublicData) returns (r: Outcome)
    modifies h
    ensures r.Pass? <==> forall b | b in RegisterBlocks(p) :: InRange(b)
    ensures r.Pass? ==> h.fed == old(h.fed) + EncodeAll(RegisterBlocks(p))
  {
    hide Encode, EncodeAll, InRange, OptionWords, RegisterBlocks, Reached;
    RegistersAt(p);
    ghost var start, blocks := h.fed, RegisterBlocks(p);
    Begin(start, blocks);
    Advance(h.fed, start, blocks, 0, Fixed([p.initialPc, p.finalPc, p.clock]));
    :- h.Words([p.initialPc, p.finalPc, p.clock]);
    Advance(h.fed, start, blocks, 1, Fixed(p.initialRegs));
    :- h.Words(p.initialRegs);
    Advance(h.fed, start, blocks, 2, Fixed(p.finalRegs));
    :- h.Words(p.finalRegs);
    Advance(h.fed, start, blocks, 3, Fixed(p.regLastClock));
    :- h.Words(p.regLastClock);
    Advance(h.fed, start, blocks, 4, Fixed(OptionWords(p.programRoot)));
    :- h.Optional(p.programRoot);
    Advance(h.fed, start, blocks, 5, Fixed(OptionWords(p.initialRwRoot)));
    :- h.Optional(p.initialRwRoot);
    Advance(h.fed, start, blocks, 6, Fixed(OptionWords(p.finalRwRoot)));
    :- h.Optional(p.finalRwRoot);
    End(h.fed, start, blocks);
    return Pass;
  }

  lemma IoAt(p: PublicData)
    ensures var v := IoBlocks(p);
            && |v| == 6
            && v[0] == Fixed([KindWord(p.completion.kind)])
            && v[1] == Fixed([p.completion.address, p.completion.value, p.completion.clock])
            && v[2] == Fixed([p.inputStart, p.inputLen])
            && v[3] == Listing(1, Rows(OneWord, p.inputWords))
            && v[4] == Fixed([p.outputLen, p.outputLenAddr, p.outputDataAddr])
            && v[5] == Listing(3, Rows(OutputWords, p.outputWords))
  {
  }

  /** The completion, whose kind must be known, and the input and output words. */
  method FeedIo(h: Hasher, p: PublicData) returns (r: Outcome)
    modifies h
    ensures r.Pass? <==> (forall b | b in IoBlocks(p) :: InRange(b)) && KnownKind(p.completion.kind)
    ensures r.Pass? ==> h.fed == old(h.fed) + EncodeAll(IoBlocks(p))
  {
    hide Encode, EncodeAll, InRange, Rows, IoBlocks, Reached, KnownKind, KindWord;
    IoAt(p);
    ghost var start, blocks := h.fed, IoBlocks(p);
    Begin(start, blocks);
    if !KnownKind(p.completion.kind) {
      return Fail;
    }
    Advance(h.fed, start, blocks, 0, Fixed([KindWord(p.completion.kind)]));
    :- h.Words([KindWord(p.completion.kind)]);
    Advance(h.fed, start, blocks, 1, Fixed([p.completion.address, p.completion.value, p.completion.clock]));
    :- h.Words([p.completion.address, p.completion.value, p.completion.clock]);
    Advance(h.fed, start, blocks, 2, Fixed([p.inputStart, p.inputLen]));
    :- h.Words([p.inputStart, p.inputLen]);
    RowWidths(OneWord, p.inputWords, 1);
    Advance(h.fed, start, blocks, 3, Listing(1, Rows(OneWord, p.inputWords)));
    :- h.List(1, Rows(OneWord, p.inputWords));
    Advance(h.fed, start, blocks, 4, Fixed([p.outputLen, p.outputLenAddr, p.outputDataAddr]));
    :- h.Words([p.outputLen, p.outputLenAddr, p.outputDataAddr]);
    RowWidths(OutputWords, p.outputWords, 3);
    Advance(h.fed, start, blocks, 5, Listing(3, Rows(OutputWords, p.outputWords)));
    :- h.List(3, Rows(OutputWords, p.outputWords));
    End(h.fed, start, blocks);
    return Pass;
  }

  lemma StreamOfParts(s: Statement)
    ensures Stream(s) == Ascii(PREFIX) + EncodeAll(HeaderBlocks(s)) + EncodeAll(RegisterBlocks(s.public))
                         + EncodeAll(IoBlocks(s.public))
    ensures WellFormed(s) <==>
            && (forall b | b in HeaderBlocks(s) :: InRange(b))
            && (forall b | b in RegisterBlocks(s.public) :: InRange(b))
            && (forall b | b in IoBlocks(s.public) :: InRange(b)) && KnownKind(s.public.completion.kind)
  {
    hide EncodeAll, HeaderBlocks, RegisterBlocks, IoBlocks, InRange, KnownKind, Ascii;
    var a, b, c := HeaderBlocks(s), RegisterBlocks(s.public), IoBlocks(s.public);
    EncodeAllAppend(a + b, c);
    EncodeAllAppend(a, b);
    assert forall x :: x in a + b + c <==> x in a || x in b || x in c;
    Reassociate(Ascii(PREFIX), EncodeAll(a), EncodeAll(b));
    Reassociate(Ascii(PREFIX), EncodeAll(a) + EncodeAll(b), EncodeAll(c));
  }

  /**
    The statement digest's preimage.  It is produced exactly for well-formed
    statements, and is then the prefix followed by the blocks in order.
  */
  method FeedStatement(s: Statement) returns (r: Option<seq<Byte>>)
    ensures r.Some? <==> WellFormed(s)
    ensures r.Some? ==> r.value == Stream(s)
  {
    hide EncodeAll, HeaderBlocks, RegisterBlocks, IoBlocks, InRange, WellFormed, Stream, Ascii, KnownKind;
    StreamOfParts(s);
    var h := new Hasher();
    h.Update(Ascii(PREFIX));
    var header := FeedHeader(h, s);
    if header.Fail? {
      return None;
    }
    var registers := FeedRegisters(h, s.public);
    if registers.Fail? {
      return None;
    }
    var io := FeedIo(h, s.public);
    if io.Fail? {
      return None;
    }
    return Some(h.fed);
  }
}
