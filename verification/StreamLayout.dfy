/**
  Where each field of a statement lies in its byte stream, read off the bytes
  alone: little-endian words, eight-byte words, and texts and lists with their
  length in front.
*/
module StreamLayout {
  import opened Basics
  import opened StatementStream

  // --- reading bytes --------------------------------------------------------

  /** The little-endian word at an offset, or -1 past the end. */
  function WordAt(bytes: seq<Byte>, at: nat): int {
    if at + 4 <= |bytes|
    then bytes[at] as int + 256 * bytes[at + 1] as int + 65536 * bytes[at + 2] as int
         + 16777216 * bytes[at + 3] as int
    else -1
  }

  function WideAt(bytes: seq<Byte>, at: nat): int {
    if at + 8 <= |bytes|
    then bytes[at] as int + 256 * bytes[at + 1] as int + 65536 * bytes[at + 2] as int
         + 16777216 * bytes[at + 3] as int
         + 4294967296 * bytes[at + 4] as int + 1099511627776 * bytes[at + 5] as int
         + 281474976710656 * bytes[at + 6] as int + 72057594037927936 * bytes[at + 7] as int
    else -1
  }

  predicate WordsAt(bytes: seq<Byte>, at: nat, words: seq<int>) {
    forall i | 0 <= i < |words| :: WordAt(bytes, at + 4 * i) == words[i]
  }

  predicate TextAt(bytes: seq<Byte>, at: nat, text: seq<Byte>) {
    && WordAt(bytes, at) == |text|
    && at + 4 + |text| <= |bytes| && bytes[at + 4..at + 4 + |text|] == text
  }

  /** A presence word, then the value or zero. */
  predicate OptionAt(bytes: seq<Byte>, at: nat, o: Option<int>) {
    match o
    case None => WordAt(bytes, at) == 0 && WordAt(bytes, at + 4) == 0
    case Some(value) => WordAt(bytes, at) == 1 && WordAt(bytes, at + 4) == value
  }

  // --- the places of the fields ---------------------------------------------

  predicate ComponentAt(bytes: seq<Byte>, at: nat, c: Component) {
    && WordAt(bytes, at) == c.index && WordAt(bytes, at + 4) == c.family
    && WordAt(bytes, at + 8) == c.familyShardIndex && WordAt(bytes, at + 12) == c.familyShardCount
    && WordAt(bytes, at + 16) == c.rowOffset && WordAt(bytes, at + 20) == c.logSize
    && WordAt(bytes, at + 24) == c.nRows && WordAt(bytes, at + 28) == c.nColumns
    && WordAt(bytes, at + 32) == c.interactionBatchCount
  }

  predicate InfrastructureAt(bytes: seq<Byte>, at: nat, c: Infrastructure) {
    && WordAt(bytes, at) == c.index && WordAt(bytes, at + 4) == c.kind && WordAt(bytes, at + 8) == c.logSize
    && WordAt(bytes, at + 12) == c.nRows && WordAt(bytes, at + 16) == c.nColumns
    && WordAt(bytes, at + 20) == c.claimCount
  }

  predicate OutputAt(bytes: seq<Byte>, at: nat, o: OutputWord) {
    WordAt(bytes, at) == o.addr && WordAt(bytes, at + 4) == o.value && WordAt(bytes, at + 8) == o.clock
  }

  function HeaderSize(s: Statement): nat {
    |s.protocol| + |s.source.elfSha256| + |s.source.inputSha256| + 72
    + 36 * |s.components| + 24 * |s.infrastructure|
  }

  predicate PcsAt(bytes: seq<Byte>, at: nat, pcs: PcsConfig) {
    && WordAt(bytes, at) == pcs.powBits && WordAt(bytes, at + 4) == pcs.logBlowupFactor
    && WordAt(bytes, at + 8) == pcs.logLastLayerDegreeBound && WideAt(bytes, at + 12) == pcs.nQueries
    && WordAt(bytes, at + 20) == pcs.foldStep && OptionAt(bytes, at + 24, pcs.liftingLogSize)
  }

  predicate SegmentAt(bytes: seq<Byte>, at: nat, s: Statement) {
    && WordAt(bytes, at) == s.segmentOrdinal && WordAt(bytes, at + 4) == s.segmentCount
    && WordAt(bytes, at + 8) == s.initialPc && WordAt(bytes, at + 12) == s.finalPc
    && WordAt(bytes, at + 16) == s.totalSteps
  }

  predicate ListsAt(bytes: seq<Byte>, at: nat, s: Statement) {
    && WordAt(bytes, at) == |s.components|
    && (forall j | 0 <= j < |s.components| :: ComponentAt(bytes, at + 4 + 36 * j, s.components[j]))
    && WordAt(bytes, at + 4 + 36 * |s.components|) == |s.infrastructure|
    && forall j | 0 <= j < |s.infrastructure| ::
         InfrastructureAt(bytes, at + 8 + 36 * |s.components| + 24 * j, s.infrastructure[j])
  }

  predicate HeaderPlaced(bytes: seq<Byte>, at: nat, s: Statement) {
    var pcs := at + 4 + |s.protocol|;
    var input := pcs + 36 + |s.source.elfSha256|;
    var segment := input + 4 + |s.source.inputSha256|;
    && TextAt(bytes, at, s.protocol) && PcsAt(bytes, pcs, s.pcs)
    && TextAt(bytes, pcs + 32, s.source.elfSha256) && TextAt(bytes, input, s.source.inputSha256)
    && SegmentAt(bytes, segment, s) && ListsAt(bytes, segment + 20, s)
  }

  function RegisterSize(p: PublicData): nat {
    36 + 4 * |p.initialRegs| + 4 * |p.finalRegs| + 4 * |p.regLastClock|
  }

  predicate RegistersPlaced(bytes: seq<Byte>, at: nat, p: PublicData) {
    var finals := at + 12 + 4 * |p.initialRegs|;
    var clocks := finals + 4 * |p.finalRegs|;
    var roots := clocks + 4 * |p.regLastClock|;
    && WordAt(bytes, at) == p.initialPc && WordAt(bytes, at + 4) == p.finalPc && WordAt(bytes, at + 8) == p.clock
    && WordsAt(bytes, at + 12, p.initialRegs) && WordsAt(bytes, finals, p.finalRegs)
    && WordsAt(bytes, clocks, p.regLastClock)
    && OptionAt(bytes, roots, p.programRoot) && OptionAt(bytes, roots + 8, p.initialRwRoot)
    && OptionAt(bytes, roots + 16, p.finalRwRoot)
  }

  function IoSize(p: PublicData): nat {
    44 + 4 * |p.inputWords| + 12 * |p.outputWords|
  }

  predicate CompletionAt(bytes: seq<Byte>, at: nat, c: Completion) {
    && ((c.kind == "halt_flag" && WordAt(bytes, at) == 0)
        || (c.kind == "unretired_self_loop" && WordAt(bytes, at) == 1))
    && WordAt(bytes, at + 4) == c.address && WordAt(bytes, at + 8) == c.value && WordAt(bytes, at + 12) == c.clock
  }

  predicate IoPlaced(bytes: seq<Byte>, at: nat, p: PublicData) {
    var output := at + 28 + 4 * |p.inputWords|;
    && CompletionAt(bytes, at, p.completion)
    && WordAt(bytes, at + 16) == p.inputStart && WordAt(bytes, at + 20) == p.inputLen
    && WordAt(bytes, at + 24) == |p.inputWords| && WordsAt(bytes, at + 28, p.inputWords)
    && WordAt(bytes, output) == p.outputLen && WordAt(bytes, output + 4) == p.outputLenAddr
    && WordAt(bytes, output + 8) == p.outputDataAddr
    && WordAt(bytes, output + 12) == |p.outputWords|
    && forall j | 0 <= j < |p.outputWords| :: OutputAt(bytes, output + 16 + 12 * j, p.outputWords[j])
  }

  /** The prefix, the three parts one after another, and nothing behind them. */
  predicate StatementPlaced(bytes: seq<Byte>, s: Statement) {
    var prefix := "stwo-zig/riscv/expected-statement/v4\0";
    && |bytes| == 37 + HeaderSize(s) + RegisterSize(s.public) + IoSize(s.public)
    && |prefix| == 37 && (forall i | 0 <= i < 37 :: bytes[i] == prefix[i] as int)
    && HeaderPlaced(bytes, 37, s) && RegistersPlaced(bytes, 37 + HeaderSize(s), s.public)
    && IoPlaced(bytes, 37 + HeaderSize(s) + RegisterSize(s.public), s.public)
  }

  // --- blocks read back -----------------------------------------------------

  function BlockSize(b: Block): nat {
    match b
    case Fixed(words) => 4 * |words|
    case Wide(_) => 8
    case Text(bytes) => 4 + |bytes|
    case Listing(width, rows) => 4 + RowsSize(width, |rows|)
  }

  function RowsSize(width: nat, n: nat): nat {
    if n == 0 then 0 else RowsSize(width, n - 1) + 4 * width
  }

  predicate RowsAt(bytes: seq<Byte>, at: nat, width: nat, rows: seq<seq<int>>) {
    forall j: nat | j < |rows| :: WordsAt(bytes, at + RowsSize(width, j), rows[j])
  }

  predicate BlockAt(bytes: seq<Byte>, at: nat, b: Block) {
    match b
    case Fixed(words) => WordsAt(bytes, at, words)
    case Wide(value) => WideAt(bytes, at) == value
    case Text(text) => TextAt(bytes, at, text)
    case Listing(width, rows) => WordAt(bytes, at) == |rows| && RowsAt(bytes, at + 4, width, rows)
  }

  lemma WordRead(pre: seq<Byte>, n: int, post: seq<Byte>)
    requires U32(n)
    ensures WordAt(pre + EncodeWord(n) + post, |pre|) == n
  {
    WordOfBytes(n);
    var bytes := pre + EncodeWord(n) + post;
    assert bytes[|pre|] == EncodeWord(n)[0] && bytes[|pre| + 1] == EncodeWord(n)[1];
    assert bytes[|pre| + 2] == EncodeWord(n)[2] && bytes[|pre| + 3] == EncodeWord(n)[3];
  }

  lemma WideIsTwoWords(bytes: seq<Byte>, at: nat)
    requires at + 8 <= |bytes|
    ensures WideAt(bytes, at) == WordAt(bytes, at) + 4294967296 * WordAt(bytes, at + 4)
  {
  }

  lemma WideRead(pre: seq<Byte>, v: int, post: seq<Byte>)
    requires U64(v)
    ensures WideAt(pre + Encode(Wide(v)) + post, |pre|) == v
  {
    var low, high := EncodeWord(v % U32_LIMIT), EncodeWord(v / U32_LIMIT);
    assert |low| == |high| == 4;
    hide EncodeWord;
    var bytes := pre + Encode(Wide(v)) + post;
    assert bytes == pre + low + (high + post) && bytes == (pre + low) + high + post;
    WordRead(pre, v % U32_LIMIT, high + post);
    WordRead(pre + low, v / U32_LIMIT, post);
    WideIsTwoWords(bytes, |pre|);
  }

  lemma {:induction false} WordsRead(pre: seq<Byte>, words: seq<int>, post: seq<Byte>)
    requires AllU32(words)
    ensures WordsAt(pre + EncodeWords(words) + post, |pre|, words)
  {
    if words != [] {
      var n := |words| - 1;
      var front, last := EncodeWords(words[..n]), EncodeWord(words[n]);
      assert pre + EncodeWords(words) + post == pre + front + (last + post);
      assert pre + EncodeWords(words) + post == (pre + front) + last + post;
      WordsRead(pre, words[..n], last + post);
      WordRead(pre + front, words[n], post);
    }
  }

  lemma {:induction false} RowsRead(pre: seq<Byte>, width: nat, rows: seq<seq<int>>, post: seq<Byte>)
    requires Rectangular(rows, width)
    ensures |EncodeRows(rows)| == RowsSize(width, |rows|)
    ensures RowsAt(pre + EncodeRows(rows) + post, |pre|, width, rows)
  {
    hide WordsAt;
    if rows != [] {
      var n := |rows| - 1;
      var front, last := EncodeRows(rows[..n]), EncodeWords(rows[n]);
      assert pre + EncodeRows(rows) + post == pre + front + (last + post);
      assert pre + EncodeRows(rows) + post == (pre + front) + last + post;
      RowsRead(pre, width, rows[..n], last + post);
      WordsRead(pre + front, rows[n], post);
    }
  }

  lemma TextRead(pre: seq<Byte>, text: seq<Byte>, post: seq<Byte>)
    requires U32(|text|)
    ensures |Encode(Text(text))| == 4 + |text| && TextAt(pre + Encode(Text(text)) + post, |pre|, text)
  {
    var length := EncodeWord(|text|);
    assert |length| == 4;
    WordRead(pre, |text|, text + post);
    hide EncodeWord, WordAt;
    var bytes := pre + Encode(Text(text)) + post;
    assert bytes == pre + length + (text + post);
    assert bytes[|pre| + 4..|pre| + 4 + |text|] == text;
  }

  lemma ListingRead(pre: seq<Byte>, width: nat, rows: seq<seq<int>>, post: seq<Byte>)
    requires U32(|rows|) && Rectangular(rows, width)
    ensures |Encode(Listing(width, rows))| == 4 + RowsSize(width, |rows|)
    ensures var bytes := pre + Encode(Listing(width, rows)) + post;
            WordAt(bytes, |pre|) == |rows| && RowsAt(bytes, |pre| + 4, width, rows)
  {
    hide EncodeWord, EncodeRows, WordAt, RowsAt, Rectangular;
    var length, list := EncodeWord(|rows|), EncodeRows(rows);
    WordLength(|rows|);
    WordRead(pre, |rows|, list + post);
    RowsRead(pre + length, width, rows, post);
    Regroup(pre, length, list, post);
  }

  lemma WordLength(n: int)
    ensures |EncodeWord(n)| == 4
  {
  }

  lemma Regroup(a: seq<Byte>, b: seq<Byte>, c: seq<Byte>, d: seq<Byte>)
    ensures a + (b + c) + d == a + b + (c + d) && a + (b + c) + d == (a + b) + c + d
  {
  }

  lemma BlockRead(pre: seq<Byte>, b: Block, post: seq<Byte>)
    requires InRange(b)
    ensures |Encode(b)| == BlockSize(b) && BlockAt(pre + Encode(b) + post, |pre|, b)
  {
    hide WordsAt, RowsAt, WideAt, WordAt, TextAt;
    match b {
      case Fixed(words) => WordsRead(pre, words, post);
      case Wide(value) => WideRead(pre, value, post);
      case Text(text) => TextRead(pre, text, post);
      case Listing(width, rows) => ListingRead(pre, width, rows, post);
    }
  }

  // --- block lists read back ------------------------------------------------

  function Offset(blocks: seq<Block>, i: nat): nat
    requires i <= |blocks|
  {
    if i == 0 then 0 else Offset(blocks, i - 1) + BlockSize(blocks[i - 1])
  }

  predicate BlocksAt(bytes: seq<Byte>, at: nat, blocks: seq<Block>) {
    forall i | 0 <= i < |blocks| :: BlockAt(bytes, at + Offset(blocks, i), blocks[i])
  }

  lemma {:induction false} OffsetTail(blocks: seq<Block>, i: nat)
    requires 0 < i <= |blocks|
    ensures Offset(blocks, i) == BlockSize(blocks[0]) + Offset(blocks[1..], i - 1)
  {
    if i > 1 { OffsetTail(blocks, i - 1); }
  }

  lemma {:induction false} BlocksRead(pre: seq<Byte>, blocks: seq<Block>, post: seq<Byte>)
    requires forall i | 0 <= i < |blocks| :: InRange(blocks[i])
    ensures |EncodeAll(blocks)| == Offset(blocks, |blocks|)
    ensures BlocksAt(pre + EncodeAll(blocks) + post, |pre|, blocks)
    decreases |blocks|
  {
    hide BlockAt, Encode, InRange, BlockSize;
    if blocks != [] {
      var first, rest := Encode(blocks[0]), EncodeAll(blocks[1..]);
      var bytes := pre + EncodeAll(blocks) + post;
      assert bytes == pre + first + (rest + post) && bytes == (pre + first) + rest + post;
      BlockRead(pre, blocks[0], rest + post);
      BlocksRead(pre + first, blocks[1..], post);
      OffsetTail(blocks, |blocks|);
      forall i | 0 <= i < |blocks| ensures BlockAt(bytes, |pre| + Offset(blocks, i), blocks[i]) {
        if i > 0 {
          OffsetTail(blocks, i);
          assert BlockAt(bytes, |pre + first| + Offset(blocks[1..], i - 1), blocks[1..][i - 1]);
        }
      }
    }
  }

  // --- from blocks to fields ------------------------------------------------

  lemma {:induction false} RowsSizeIs(width: nat, n: nat)
    ensures RowsSize(width, n) == 4 * (width * n)
  {
    if n > 0 {
      RowsSizeIs(width, n - 1);
      assert width * n == width * (n - 1) + width;
    }
  }

  lemma OptionPlaced(bytes: seq<Byte>, at: nat, o: Option<int>)
    requires BlockAt(bytes, at, Fixed(OptionWords(o)))
    ensures OptionAt(bytes, at, o)
  {
    hide WordAt;
    var words := OptionWords(o);
    assert WordAt(bytes, at + 4 * 0) == words[0] && WordAt(bytes, at + 4 * 1) == words[1];
  }

  lemma PairPlaced(bytes: seq<Byte>, at: nat, a: int, b: int)
    requires BlockAt(bytes, at, Fixed([a, b]))
    ensures WordAt(bytes, at) == a && WordAt(bytes, at + 4) == b
  {
    hide WordAt;
    var words := [a, b];
    assert WordAt(bytes, at + 4 * 0) == words[0] && WordAt(bytes, at + 4 * 1) == words[1];
  }

  lemma TriplePlaced(bytes: seq<Byte>, at: nat, a: int, b: int, c: int)
    requires WordsAt(bytes, at, [a, b, c])
    ensures WordAt(bytes, at) == a && WordAt(bytes, at + 4) == b && WordAt(bytes, at + 8) == c
  {
    hide WordAt;
    var words := [a, b, c];
    assert WordAt(bytes, at + 4 * 0) == words[0] && WordAt(bytes, at + 4 * 1) == words[1];
    assert WordAt(bytes, at + 4 * 2) == words[2];
  }

  lemma SinglePlaced(bytes: seq<Byte>, at: nat, a: int)
    requires WordsAt(bytes, at, [a])
    ensures WordAt(bytes, at) == a
  {
    hide WordAt;
    assert WordAt(bytes, at + 4 * 0) == [a][0];
  }

  lemma SegmentPlaced(bytes: seq<Byte>, at: nat, s: Statement)
    requires WordsAt(bytes, at, [s.segmentOrdinal, s.segmentCount, s.initialPc, s.finalPc, s.totalSteps])
    ensures SegmentAt(bytes, at, s)
  {
    hide WordAt;
    var words := [s.segmentOrdinal, s.segmentCount, s.initialPc, s.finalPc, s.totalSteps];
    assert WordAt(bytes, at + 4 * 0) == words[0] && WordAt(bytes, at + 4 * 1) == words[1];
    assert WordAt(bytes, at + 4 * 2) == words[2] && WordAt(bytes, at + 4 * 3) == words[3];
    assert WordAt(bytes, at + 4 * 4) == words[4];
  }

  lemma ComponentPlaced(bytes: seq<Byte>, at: nat, c: Component)
    requires WordsAt(bytes, at, ComponentWords(c))
    ensures ComponentAt(bytes, at, c)
  {
    hide WordAt;
    var words := ComponentWords(c);
    assert WordAt(bytes, at + 4 * 0) == words[0] && WordAt(bytes, at + 4 * 1) == words[1];
    assert WordAt(bytes, at + 4 * 2) == words[2] && WordAt(bytes, at + 4 * 3) == words[3];
    assert WordAt(bytes, at + 4 * 4) == words[4] && WordAt(bytes, at + 4 * 5) == words[5];
    assert WordAt(bytes, at + 4 * 6) == words[6] && WordAt(bytes, at + 4 * 7) == words[7];
    assert WordAt(bytes, at + 4 * 8) == words[8];
  }

  lemma InfrastructurePlaced(bytes: seq<Byte>, at: nat, c: Infrastructure)
    requires WordsAt(bytes, at, InfrastructureWords(c))
    ensures InfrastructureAt(bytes, at, c)
  {
    hide WordAt;
    var words := InfrastructureWords(c);
    assert WordAt(bytes, at + 4 * 0) == words[0] && WordAt(bytes, at + 4 * 1) == words[1];
    assert WordAt(bytes, at + 4 * 2) == words[2] && WordAt(bytes, at + 4 * 3) == words[3];
    assert WordAt(bytes, at + 4 * 4) == words[4] && WordAt(bytes, at + 4 * 5) == words[5];
  }

  /** The j-th row of a list lies 4 * width * j bytes in. */
  lemma RowPlaced<T>(bytes: seq<Byte>, at: nat, width: nat, words: T -> seq<int>, items: seq<T>, j: nat)
    requires BlockAt(bytes, at, Listing(width, Rows(words, items))) && j < |items|
    ensures WordsAt(bytes, at + 4 + 4 * (width * j), words(items[j]))
  {
    hide WordsAt, WordAt;
    RowsSizeIs(width, j);
    assert Rows(words, items)[j] == words(items[j]);
  }

  lemma ListPlaced<T>(bytes: seq<Byte>, at: nat, width: nat, words: T -> seq<int>, items: seq<T>)
    requires BlockAt(bytes, at, Listing(width, Rows(words, items)))
    ensures WordAt(bytes, at) == |items|
    ensures BlockSize(Listing(width, Rows(words, items))) == 4 + 4 * (width * |items|)
  {
    hide RowsAt, WordAt;
    RowsSizeIs(width, |items|);
  }

  lemma ListsPlaced(bytes: seq<Byte>, at: nat, s: Statement)
    requires BlockAt(bytes, at, Listing(9, Rows(ComponentWords, s.components)))
    requires BlockAt(bytes, at + BlockSize(Listing(9, Rows(ComponentWords, s.components))),
                     Listing(6, Rows(InfrastructureWords, s.infrastructure)))
    ensures ListsAt(bytes, at, s)
  {
    hide BlockAt, BlockSize, WordAt, ComponentAt, InfrastructureAt, WordsAt, ComponentWords, InfrastructureWords, Rows;
    ListPlaced(bytes, at, 9, ComponentWords, s.components);
    var next := at + 4 + 36 * |s.components|;
    ListPlaced(bytes, next, 6, InfrastructureWords, s.infrastructure);
    forall j: nat | j < |s.components| ensures ComponentAt(bytes, at + 4 + 36 * j, s.components[j]) {
      RowPlaced(bytes, at, 9, ComponentWords, s.components, j);
      ComponentPlaced(bytes, at + 4 + 36 * j, s.components[j]);
    }
    forall j: nat | j < |s.infrastructure| ensures InfrastructureAt(bytes, next + 4 + 24 * j, s.infrastructure[j]) {
      RowPlaced(bytes, next, 6, InfrastructureWords, s.infrastructure, j);
      InfrastructurePlaced(bytes, next + 4 + 24 * j, s.infrastructure[j]);
    }
  }

  lemma OptionSize(o: Option<int>)
    ensures BlockSize(Fixed(OptionWords(o))) == 8
  {
  }

  lemma NextOffset(blocks: seq<Block>, i: nat)
    requires i < |blocks|
    ensures Offset(blocks, i + 1) == Offset(blocks, i) + BlockSize(blocks[i])
  {
  }

  lemma HeaderOffsets(s: Statement)
    ensures var v := HeaderBlocks(s);
            && |v| == 10 && Offset(v, 0) == 0
            && Offset(v, 1) == 4 + |s.protocol| && Offset(v, 2) == Offset(v, 1) + 12
            && Offset(v, 3) == Offset(v, 1) + 20 && Offset(v, 4) == Offset(v, 1) + 24
            && Offset(v, 5) == Offset(v, 1) + 32 && Offset(v, 6) == Offset(v, 1) + 36 + |s.source.elfSha256|
            && Offset(v, 7) == Offset(v, 6) + 4 + |s.source.inputSha256| && Offset(v, 8) == Offset(v, 7) + 20
            && Offset(v, 9) == Offset(v, 8) + BlockSize(v[8]) && Offset(v, 10) == Offset(v, 9) + BlockSize(v[9])
  {
    hide HeaderBlocks, OptionWords, Offset;
    var v := HeaderBlocks(s);
    HeaderAt(s);
    OptionSize(s.pcs.liftingLogSize);
    NextOffset(v, 0);
    NextOffset(v, 1);
    NextOffset(v, 2);
    NextOffset(v, 3);
    NextOffset(v, 4);
    NextOffset(v, 5);
    NextOffset(v, 6);
    NextOffset(v, 7);
    NextOffset(v, 8);
    NextOffset(v, 9);
    assert Offset(v, 0) == 0 by { NoOffset(v); }
  }

  lemma NoOffset(blocks: seq<Block>)
    ensures Offset(blocks, 0) == 0
  {
  }

  lemma HeaderIsPlaced(bytes: seq<Byte>, at: nat, s: Statement)
    requires BlocksAt(bytes, at, HeaderBlocks(s))
    ensures HeaderPlaced(bytes, at, s) && Offset(HeaderBlocks(s), 10) == HeaderSize(s)
  {
    hide HeaderBlocks, OptionWords, Offset, WordAt, WideAt, WordsAt, TextAt, ListsAt, SegmentAt, Rows, RowsAt, OptionAt;
    var v := HeaderBlocks(s);
    HeaderAt(s);
    HeaderOffsets(s);
    var pcs := at + Offset(v, 1);
    TriplePlaced(bytes, pcs, s.pcs.powBits, s.pcs.logBlowupFactor, s.pcs.logLastLayerDegreeBound);
    assert BlockAt(bytes, at + Offset(v, 2), v[2]) && BlockAt(bytes, at + Offset(v, 5), v[5]);
    SinglePlaced(bytes, at + Offset(v, 3), s.pcs.foldStep);
    OptionPlaced(bytes, at + Offset(v, 4), s.pcs.liftingLogSize);
    SegmentPlaced(bytes, at + Offset(v, 7), s);
    ListsPlaced(bytes, at + Offset(v, 8), s);
    ListPlaced(bytes, at + Offset(v, 8), 9, ComponentWords, s.components);
    ListPlaced(bytes, at + Offset(v, 9), 6, InfrastructureWords, s.infrastructure);
  }

  lemma RegisterOffsets(p: PublicData)
    ensures var v := RegisterBlocks(p);
            && |v| == 7 && Offset(v, 0) == 0 && Offset(v, 1) == 12
            && Offset(v, 2) == 12 + 4 * |p.initialRegs| && Offset(v, 3) == Offset(v, 2) + 4 * |p.finalRegs|
            && Offset(v, 4) == Offset(v, 3) + 4 * |p.regLastClock| && Offset(v, 5) == Offset(v, 4) + 8
            && Offset(v, 6) == Offset(v, 4) + 16 && Offset(v, 7) == Offset(v, 4) + 24
  {
    hide RegisterBlocks, OptionWords, Offset;
    var v := RegisterBlocks(p);
    RegistersAt(p);
    OptionSize(p.programRoot);
    OptionSize(p.initialRwRoot);
    OptionSize(p.finalRwRoot);
    NoOffset(v);
    NextOffset(v, 0);
    NextOffset(v, 1);
    NextOffset(v, 2);
    NextOffset(v, 3);
    NextOffset(v, 4);
    NextOffset(v, 5);
    NextOffset(v, 6);
  }

  lemma RegistersArePlaced(bytes: seq<Byte>, at: nat, p: PublicData)
    requires BlocksAt(bytes, at, RegisterBlocks(p))
    ensures RegistersPlaced(bytes, at, p) && Offset(RegisterBlocks(p), 7) == RegisterSize(p)
  {
    hide RegisterBlocks, OptionWords, Offset, WordAt, WordsAt, OptionAt;
    var v := RegisterBlocks(p);
    RegistersAt(p);
    RegisterOffsets(p);
    assert BlockAt(bytes, at + Offset(v, 0), v[0]) && BlockAt(bytes, at + Offset(v, 1), v[1]);
    assert BlockAt(bytes, at + Offset(v, 2), v[2]) && BlockAt(bytes, at + Offset(v, 3), v[3]);
    TriplePlaced(bytes, at, p.initialPc, p.finalPc, p.clock);
    OptionPlaced(bytes, at + Offset(v, 4), p.programRoot);
    OptionPlaced(bytes, at + Offset(v, 5), p.initialRwRoot);
    OptionPlaced(bytes, at + Offset(v, 6), p.finalRwRoot);
  }

  lemma IoOffsets(p: PublicData)
    ensures var v := IoBlocks(p);
            && |v| == 6 && Offset(v, 0) == 0 && Offset(v, 1) == 4 && Offset(v, 2) == 16 && Offset(v, 3) == 24
            && Offset(v, 4) == 24 + BlockSize(v[3]) && Offset(v, 5) == Offset(v, 4) + 12
            && Offset(v, 6) == Offset(v, 5) + BlockSize(v[5])
  {
    hide IoBlocks, Offset, KindWord, Rows;
    var v := IoBlocks(p);
    IoAt(p);
    NoOffset(v);
    NextOffset(v, 0);
    NextOffset(v, 1);
    NextOffset(v, 2);
    NextOffset(v, 3);
    NextOffset(v, 4);
    NextOffset(v, 5);
  }

  lemma InputsPlaced(bytes: seq<Byte>, at: nat, words: seq<int>)
    requires BlockAt(bytes, at, Listing(1, Rows(OneWord, words)))
    ensures WordAt(bytes, at) == |words| && WordsAt(bytes, at + 4, words)
  {
    hide WordAt, Rows, RowsAt;
    ListPlaced(bytes, at, 1, OneWord, words);
    forall j: nat | j < |words| ensures WordAt(bytes, at + 4 + 4 * j) == words[j] {
      RowPlaced(bytes, at, 1, OneWord, words, j);
      SinglePlaced(bytes, at + 4 + 4 * j, words[j]);
    }
  }

  lemma OutputsPlaced(bytes: seq<Byte>, at: nat, items: seq<OutputWord>)
    requires BlockAt(bytes, at, Listing(3, Rows(OutputWords, items)))
    ensures WordAt(bytes, at) == |items|
    ensures forall j | 0 <= j < |items| :: OutputAt(bytes, at + 4 + 12 * j, items[j])
  {
    hide WordAt, Rows, RowsAt;
    ListPlaced(bytes, at, 3, OutputWords, items);
    forall j: nat | j < |items| ensures OutputAt(bytes, at + 4 + 12 * j, items[j]) {
      RowPlaced(bytes, at, 3, OutputWords, items, j);
      TriplePlaced(bytes, at + 4 + 12 * j, items[j].addr, items[j].value, items[j].clock);
    }
  }

  lemma IoIsPlaced(bytes: seq<Byte>, at: nat, p: PublicData)
    requires BlocksAt(bytes, at, IoBlocks(p)) && KnownKind(p.completion.kind)
    ensures IoPlaced(bytes, at, p) && Offset(IoBlocks(p), 6) == IoSize(p)
  {
    hide IoBlocks, Offset, WordAt, WordsAt, Rows, RowsAt, OutputAt;
    var v := IoBlocks(p);
    IoAt(p);
    IoOffsets(p);
    assert BlockAt(bytes, at + Offset(v, 0), v[0]) && BlockAt(bytes, at + Offset(v, 3), v[3]);
    SinglePlaced(bytes, at, KindWord(p.completion.kind));
    TriplePlaced(bytes, at + Offset(v, 1), p.completion.address, p.completion.value, p.completion.clock);
    PairPlaced(bytes, at + Offset(v, 2), p.inputStart, p.inputLen);
    ListPlaced(bytes, at + Offset(v, 3), 1, OneWord, p.inputWords);
    InputsPlaced(bytes, at + Offset(v, 3), p.inputWords);
    TriplePlaced(bytes, at + Offset(v, 4), p.outputLen, p.outputLenAddr, p.outputDataAddr);
    ListPlaced(bytes, at + Offset(v, 5), 3, OutputWords, p.outputWords);
    OutputsPlaced(bytes, at + Offset(v, 5), p.outputWords);
  }

  lemma PrefixIs()
    ensures |PREFIX| == 37 && PREFIX == "stwo-zig/riscv/expected-statement/v4\0"
    ensures forall i | 0 <= i < 37 :: PREFIX[i] as int < 0x100
  {
  }

  /** Every field of an accepted statement lies at its place in the stream, and nothing else is there. */
  lemma StreamPlaces(s: Statement)
    requires WellFormed(s)
    ensures StatementPlaced(Stream(s), s)
  {
    hide HeaderPlaced, RegistersPlaced, IoPlaced, HeaderBlocks, RegisterBlocks, IoBlocks, EncodeAll, InRange, Offset,
         HeaderSize, RegisterSize, IoSize, KnownKind, BlocksAt;
    StreamOfParts(s);
    PrefixIs();
    var p := s.public;
    var prefix, header, registers, io := Ascii(PREFIX), EncodeAll(HeaderBlocks(s)),
                                         EncodeAll(RegisterBlocks(p)), EncodeAll(IoBlocks(p));
    HeaderOffsets(s);
    RegisterOffsets(p);
    IoOffsets(p);
    var bytes := Stream(s);
    assert bytes == prefix + header + (registers + io);
    assert bytes == (prefix + header) + registers + io;
    assert bytes == (prefix + header + registers) + io + [];
    BlocksRead(prefix, HeaderBlocks(s), registers + io);
    BlocksRead(prefix + header, RegisterBlocks(p), io);
    BlocksRead(prefix + header + registers, IoBlocks(p), []);
    HeaderIsPlaced(bytes, |prefix|, s);
    RegistersArePlaced(bytes, |prefix + header|, p);
    IoIsPlaced(bytes, |prefix + header + registers|, p);
    assert forall i | 0 <= i < 37 :: bytes[i] == prefix[i];
  }

  // --- what is accepted -----------------------------------------------------

  predicate OptionU32(o: Option<int>) {
    o.Some? ==> U32(o.value)
  }

  predicate ComponentFits(c: Component) {
    && U32(c.index) && U32(c.family) && U32(c.familyShardIndex) && U32(c.familyShardCount) && U32(c.rowOffset)
    && U32(c.logSize) && U32(c.nRows) && U32(c.nColumns) && U32(c.interactionBatchCount)
  }

  predicate InfrastructureFits(c: Infrastructure) {
    U32(c.index) && U32(c.kind) && U32(c.logSize) && U32(c.nRows) && U32(c.nColumns) && U32(c.claimCount)
  }

  predicate HeaderFits(s: Statement) {
    && U32(|s.protocol|) && U32(|s.source.elfSha256|) && U32(|s.source.inputSha256|)
    && U32(s.pcs.powBits) && U32(s.pcs.logBlowupFactor) && U32(s.pcs.logLastLayerDegreeBound)
    && 0 <= s.pcs.nQueries <= 0xFFFF_FFFF_FFFF_FFFF && U32(s.pcs.foldStep) && OptionU32(s.pcs.liftingLogSize)
    && U32(s.segmentOrdinal) && U32(s.segmentCount) && U32(s.initialPc) && U32(s.finalPc) && U32(s.totalSteps)
    && U32(|s.components|) && (forall i | 0 <= i < |s.components| :: ComponentFits(s.components[i]))
    && U32(|s.infrastructure|) && (forall i | 0 <= i < |s.infrastructure| :: InfrastructureFits(s.infrastructure[i]))
  }

  predicate RegistersFit(p: PublicData) {
    && U32(p.initialPc) && U32(p.finalPc) && U32(p.clock)
    && AllU32(p.initialRegs) && AllU32(p.finalRegs) && AllU32(p.regLastClock)
    && OptionU32(p.programRoot) && OptionU32(p.initialRwRoot) && OptionU32(p.finalRwRoot)
  }

  predicate OutputFits(o: OutputWord) {
    U32(o.addr) && U32(o.value) && U32(o.clock)
  }

  predicate IoFits(p: PublicData) {
    && (p.completion.kind == "halt_flag" || p.completion.kind == "unretired_self_loop")
    && U32(p.completion.address) && U32(p.completion.value) && U32(p.completion.clock)
    && U32(p.inputStart) && U32(p.inputLen) && U32(|p.inputWords|) && AllU32(p.inputWords)
    && U32(p.outputLen) && U32(p.outputLenAddr) && U32(p.outputDataAddr)
    && U32(|p.outputWords|) && forall i | 0 <= i < |p.outputWords| :: OutputFits(p.outputWords[i])
  }

  lemma OptionFits(o: Option<int>)
    ensures InRange(Fixed(OptionWords(o))) <==> OptionU32(o)
  {
    var words := OptionWords(o);
    assert AllU32(words) <==> U32(words[0]) && U32(words[1]);
  }

  lemma TripleFits(a: int, b: int, c: int)
    ensures AllU32([a, b, c]) <==> U32(a) && U32(b) && U32(c)
  {
    var words := [a, b, c];
    assert AllU32(words) <==> U32(words[0]) && U32(words[1]) && U32(words[2]);
  }

  lemma SingleFits(a: int)
    ensures AllU32([a]) <==> U32(a)
  {
    assert AllU32([a]) <==> U32([a][0]);
  }

  lemma SegmentFits(a: int, b: int, c: int, d: int, e: int)
    ensures AllU32([a, b, c, d, e]) <==> U32(a) && U32(b) && U32(c) && U32(d) && U32(e)
  {
    var words := [a, b, c, d, e];
    assert AllU32(words) <==> U32(words[0]) && U32(words[1]) && U32(words[2]) && U32(words[3]) && U32(words[4]);
  }

  lemma ComponentFitsExactly(c: Component)
    ensures AllU32(ComponentWords(c)) <==> ComponentFits(c)
  {
    var w := ComponentWords(c);
    assert AllU32(w) <==> U32(w[0]) && U32(w[1]) && U32(w[2]) && U32(w[3]) && U32(w[4])
                          && U32(w[5]) && U32(w[6]) && U32(w[7]) && U32(w[8]);
  }

  lemma InfrastructureFitsExactly(c: Infrastructure)
    ensures AllU32(InfrastructureWords(c)) <==> InfrastructureFits(c)
  {
    var w := InfrastructureWords(c);
    assert AllU32(w) <==> U32(w[0]) && U32(w[1]) && U32(w[2]) && U32(w[3]) && U32(w[4]) && U32(w[5]);
  }

  lemma ListFits<T>(width: nat, words: T -> seq<int>, items: seq<T>)
    requires forall t :: |words(t)| == width
    ensures InRange(Listing(width, Rows(words, items)))
      <==> U32(|items|) && forall i | 0 <= i < |items| :: AllU32(words(items[i]))
  {
    var rows := Rows(words, items);
    assert |rows| == |items| && forall i | 0 <= i < |items| :: rows[i] == words(items[i]);
  }

  predicate InRangeAll(blocks: seq<Block>) {
    forall i | 0 <= i < |blocks| :: InRange(blocks[i])
  }

  lemma HeaderFitsExactly(s: Statement)
    ensures InRangeAll(HeaderBlocks(s)) <==> HeaderFits(s)
  {
    hide HeaderBlocks, OptionWords, ComponentWords, InfrastructureWords, ComponentFits, InfrastructureFits, AllU32,
         Rows, OptionU32;
    var v := HeaderBlocks(s);
    HeaderAt(s);
    TripleFits(s.pcs.powBits, s.pcs.logBlowupFactor, s.pcs.logLastLayerDegreeBound);
    SingleFits(s.pcs.foldStep);
    OptionFits(s.pcs.liftingLogSize);
    SegmentFits(s.segmentOrdinal, s.segmentCount, s.initialPc, s.finalPc, s.totalSteps);
    RowLengths();
    ListFits(9, ComponentWords, s.components);
    ListFits(6, InfrastructureWords, s.infrastructure);
    forall c ensures AllU32(ComponentWords(c)) <==> ComponentFits(c) { ComponentFitsExactly(c); }
    forall c ensures AllU32(InfrastructureWords(c)) <==> InfrastructureFits(c) { InfrastructureFitsExactly(c); }
    TenInRange(v);
    hide InRange;
  }

  lemma RowLengths()
    ensures forall c :: |ComponentWords(c)| == 9
    ensures forall c :: |InfrastructureWords(c)| == 6
    ensures forall o :: |OutputWords(o)| == 3
    ensures forall w :: |OneWord(w)| == 1
  {
  }

  lemma TenInRange(v: seq<Block>)
    requires |v| == 10
    ensures InRangeAll(v) <==>
              && InRange(v[0]) && InRange(v[1]) && InRange(v[2]) && InRange(v[3]) && InRange(v[4])
              && InRange(v[5]) && InRange(v[6]) && InRange(v[7]) && InRange(v[8]) && InRange(v[9])
  {
    hide InRange;
  }

  lemma RegistersFitExactly(p: PublicData)
    ensures InRangeAll(RegisterBlocks(p)) <==> RegistersFit(p)
  {
    hide RegisterBlocks, OptionWords, AllU32, OptionU32;
    var v := RegisterBlocks(p);
    RegistersAt(p);
    TripleFits(p.initialPc, p.finalPc, p.clock);
    OptionFits(p.programRoot);
    OptionFits(p.initialRwRoot);
    OptionFits(p.finalRwRoot);
    SevenInRange(v);
  }

  lemma SevenInRange(v: seq<Block>)
    requires |v| == 7
    ensures InRangeAll(v) <==>
              && InRange(v[0]) && InRange(v[1]) && InRange(v[2]) && InRange(v[3]) && InRange(v[4])
              && InRange(v[5]) && InRange(v[6])
  {
    hide InRange;
  }

  lemma OnesFit(words: seq<int>)
    ensures (forall i | 0 <= i < |words| :: AllU32(OneWord(words[i]))) <==> AllU32(words)
  {
    forall i | 0 <= i < |words| ensures AllU32(OneWord(words[i])) <==> U32(words[i]) {
      SingleFits(words[i]);
    }
  }

  lemma IoFitsExactly(p: PublicData)
    ensures InRangeAll(IoBlocks(p)) && KnownKind(p.completion.kind) <==> IoFits(p)
  {
    hide IoBlocks, AllU32, Rows, OutputFits, OutputWords, OneWord;
    var v := IoBlocks(p);
    IoAt(p);
    SingleFits(KindWord(p.completion.kind));
    TripleFits(p.completion.address, p.completion.value, p.completion.clock);
    PairWords(p.inputStart, p.inputLen);
    TripleFits(p.outputLen, p.outputLenAddr, p.outputDataAddr);
    RowLengths();
    ListFits(1, OneWord, p.inputWords);
    ListFits(3, OutputWords, p.outputWords);
    OnesFit(p.inputWords);
    forall o ensures AllU32(OutputWords(o)) <==> OutputFits(o) { OutputFitsExactly(o); }
    SixInRange(v);
  }

  lemma OutputFitsExactly(o: OutputWord)
    ensures AllU32(OutputWords(o)) <==> OutputFits(o)
  {
    TripleFits(o.addr, o.value, o.clock);
  }

  lemma SixInRange(v: seq<Block>)
    requires |v| == 6
    ensures InRangeAll(v) <==>
              && InRange(v[0]) && InRange(v[1]) && InRange(v[2]) && InRange(v[3]) && InRange(v[4]) && InRange(v[5])
  {
    hide InRange;
  }

  /** A statement is accepted exactly if each word is a u32, the query count a u64, and the kind known. */
  lemma AcceptedExactly(s: Statement)
    ensures WellFormed(s) <==> HeaderFits(s) && RegistersFit(s.public) && IoFits(s.public)
  {
    hide InRange, HeaderBlocks, RegisterBlocks, IoBlocks, HeaderFits, RegistersFit, IoFits;
    hide WellFormed, EncodeAll, Stream;
    StreamOfParts(s);
    HeaderFitsExactly(s);
    RegistersFitExactly(s.public);
    IoFitsExactly(s.public);
    EachInRange(HeaderBlocks(s));
    EachInRange(RegisterBlocks(s.public));
    EachInRange(IoBlocks(s.public));
  }

  lemma EachInRange(blocks: seq<Block>)
    ensures InRangeAll(blocks) <==> forall b | b in blocks :: InRange(b)
  {
    hide InRange;
  }
}
