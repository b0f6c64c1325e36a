/**
  The enable-slot layout of the claim registry: one run of slots per claim
  field, in flatten order.
*/
module ClaimSlots {
  import opened Basics

  datatype Event = Event(name: string, shape: string, fixedLogSize: Option<int>)

  datatype ClaimField = ClaimField(
    name: string, fieldIndex: nat, firstEnableSlot: nat, enableSlotCount: nat,
    logSizeShape: string, fixedLogSize: Option<int>)

  datatype EnableSlot = EnableSlot(
    name: string, enableSlot: nat, claimFieldIndex: nat, fieldSlotIndex: nat,
    logSizeShape: string, fixedLogSize: Option<int>)

  datatype Result =
    | Layout(fields: seq<ClaimField>, slots: seq<EnableSlot>)
    | Cardinality(fieldCount: nat, slotCount: nat)

  const FIELDS := 68
  const SLOTS := 83

  function SlotCount(name: string, memorySlots: nat): nat {
    if name == "memory_id_to_big" then memorySlots else 1
  }

  function Decimal(n: nat): (text: string)
    ensures |text| > 0 && (|text| == 1 <==> n < 10) && forall c | c in text :: '0' <= c <= '9'
  {
    var digit := ['0' + (n % 10) as char];
    if n < 10 then digit else Decimal(n / 10) + digit
  }

  function SlotName(name: string, j: nat, count: nat): string {
    if count > 1 then name + "[" + Decimal(j) + "]" else name
  }

  // --- what a layout is -----------------------------------------------------

  /** Each field is its event's, and starts where the field before it ends. */
  predicate FieldsTile(events: seq<Event>, memorySlots: nat, fields: seq<ClaimField>) {
    && |fields| == |events|
    && (forall i | 0 <= i < |fields| ::
          && fields[i].name == events[i].name && fields[i].fieldIndex == i
          && fields[i].enableSlotCount == SlotCount(events[i].name, memorySlots)
          && fields[i].logSizeShape == events[i].shape && fields[i].fixedLogSize == events[i].fixedLogSize)
    && Contiguous(fields)
  }

  predicate StartsWhereLastEnds(fields: seq<ClaimField>, i: nat)
    requires i < |fields|
  {
    fields[i].firstEnableSlot == End(fields, i)
  }

  predicate Contiguous(fields: seq<ClaimField>) {
    forall i | 0 <= i < |fields| :: StartsWhereLastEnds(fields, i)
  }

  /** Where the first `n` fields end. */
  function End(fields: seq<ClaimField>, n: nat): nat
    requires n <= |fields|
  {
    if n == 0 then 0 else fields[n - 1].firstEnableSlot + fields[n - 1].enableSlotCount
  }

  /** The slot is at its own place, inside the field it names. */
  predicate SlotPlaced(fields: seq<ClaimField>, k: nat, slot: EnableSlot) {
    && slot.enableSlot == k && slot.claimFieldIndex < |fields|
    && var f := fields[slot.claimFieldIndex];
       && slot.fieldSlotIndex < f.enableSlotCount && k == f.firstEnableSlot + slot.fieldSlotIndex
       && slot.name == SlotName(f.name, slot.fieldSlotIndex, f.enableSlotCount)
       && slot.logSizeShape == f.logSizeShape && slot.fixedLogSize == f.fixedLogSize
  }

  predicate Tiles(events: seq<Event>, memorySlots: nat, fields: seq<ClaimField>, slots: seq<EnableSlot>) {
    && FieldsTile(events, memorySlots, fields)
    && |slots| == End(fields, |fields|)
    && forall k | 0 <= k < |slots| :: SlotPlaced(fields, k, slots[k])
  }

  function TotalSlots(events: seq<Event>, memorySlots: nat): nat {
    if events == [] then 0
    else TotalSlots(events[..|events| - 1], memorySlots) + SlotCount(events[|events| - 1].name, memorySlots)
  }

  lemma EndOfPrefix(fields: seq<ClaimField>, f: ClaimField)
    ensures forall n | 0 <= n <= |fields| :: End(fields + [f], n) == End(fields, n)
    ensures End(fields + [f], |fields| + 1) == f.firstEnableSlot + f.enableSlotCount
  {
  }

  lemma NextField(events: seq<Event>, memorySlots: nat, fields: seq<ClaimField>, slots: seq<EnableSlot>, i: nat,
                  f: ClaimField)
    requires i < |events| && Tiles(events[..i], memorySlots, fields, slots)
    requires f == ClaimField(events[i].name, i, |slots|, SlotCount(events[i].name, memorySlots),
                             events[i].shape, events[i].fixedLogSize)
    ensures FieldsTile(events[..i + 1], memorySlots, fields + [f])
    ensures End(fields + [f], i + 1) == |slots| + f.enableSlotCount
    ensures forall k | 0 <= k < |slots| :: SlotPlaced(fields + [f], k, slots[k])
  {
    EndOfPrefix(fields, f);
    assert forall n | 0 <= n < i :: StartsWhereLastEnds(fields, n) ==> StartsWhereLastEnds(fields + [f], n);
    hide End;
    forall k | 0 <= k < |slots| ensures SlotPlaced(fields + [f], k, slots[k]) {
      assert SlotPlaced(fields, k, slots[k]);
    }
  }

  method LayOut(events: seq<Event>, memorySlots: nat) returns (r: Result)
    ensures r.Layout? <==> |events| == 68 && TotalSlots(events, memorySlots) == 83
    ensures r.Cardinality? ==> r.fieldCount == |events| && r.slotCount == TotalSlots(events, memorySlots)
    ensures r.Layout? ==> Tiles(events, memorySlots, r.fields, r.slots)
  {
    hide FieldsTile, End, SlotName;
    var fields: seq<ClaimField> := [];
    var slots: seq<EnableSlot> := [];
    NoFields(memorySlots);
    for i := 0 to |events|
      invariant |fields| == i && Tiles(events[..i], memorySlots, fields, slots)
      invariant |slots| == TotalSlots(events[..i], memorySlots)
    {
      var e := events[i];
      var count := SlotCount(e.name, memorySlots);
      var f := ClaimField(e.name, i, |slots|, count, e.shape, e.fixedLogSize);
      NextField(events, memorySlots, fields, slots, i, f);
      ghost var before := fields;
      fields := fields + [f];
      ghost var first := |slots|;
      for j := 0 to count
        invariant |slots| == first + j && fields == before + [f]
        invariant forall k | 0 <= k < |slots| :: SlotPlaced(fields, k, slots[k])
      {
        slots := slots + [EnableSlot(SlotName(e.name, j, count), |slots|, i, j, e.shape, e.fixedLogSize)];
      }
      assert events[..i + 1][..i] == events[..i];
    }
    assert events[..|events|] == events;
    if |fields| != FIELDS || |slots| != SLOTS {
      return Cardinality(|fields|, |slots|);
    }
    r := Layout(fields, slots);
  }

  lemma NoFields(memorySlots: nat)
    ensures Tiles([], memorySlots, [], [])
  {
  }

  // --- the layout is a bijection --------------------------------------------

  lemma {:induction false} EarlierEndsFirst(fields: seq<ClaimField>, i: nat, j: nat)
    requires Contiguous(fields) && i <= j <= |fields|
    ensures End(fields, i) <= End(fields, j)
    decreases j - i
  {
    hide Contiguous, End;
    if i < j {
      EarlierEndsFirst(fields, i, j - 1);
      EndNext(fields, j - 1);
    }
  }

  lemma EndNext(fields: seq<ClaimField>, i: nat)
    requires Contiguous(fields) && i < |fields|
    ensures End(fields, i) == fields[i].firstEnableSlot
    ensures End(fields, i + 1) == fields[i].firstEnableSlot + fields[i].enableSlotCount
  {
    assert StartsWhereLastEnds(fields, i);
  }

  /** Fields in different places have ranges one after the other. */
  lemma RangesApart(fields: seq<ClaimField>, i: nat, j: nat)
    requires Contiguous(fields) && i < j < |fields|
    ensures fields[i].firstEnableSlot + fields[i].enableSlotCount <= fields[j].firstEnableSlot
    ensures fields[j].firstEnableSlot + fields[j].enableSlotCount <= End(fields, |fields|)
    ensures fields[i].firstEnableSlot + fields[i].enableSlotCount <= End(fields, |fields|)
  {
    hide Contiguous, End;
    EarlierEndsFirst(fields, i + 1, j);
    EarlierEndsFirst(fields, j + 1, |fields|);
    EndNext(fields, i);
    EndNext(fields, j);
  }

  /** Slot numbers and (field, index) pairs correspond one to one. */
  lemma SlotsAreFieldPositions(events: seq<Event>, memorySlots: nat, fields: seq<ClaimField>,
                               slots: seq<EnableSlot>, i: nat, j: nat, k: nat)
    requires Tiles(events, memorySlots, fields, slots)
    requires i < |fields| && j < fields[i].enableSlotCount && k < |slots|
    ensures fields[i].firstEnableSlot + j < |slots|
    ensures slots[k].claimFieldIndex == i && slots[k].fieldSlotIndex == j <==> k == fields[i].firstEnableSlot + j
  {
    assert SlotPlaced(fields, k, slots[k]) && Contiguous(fields);
    hide FieldsTile, Contiguous, End, SlotName;
    EarlierEndsFirst(fields, i + 1, |fields|);
    EndNext(fields, i);
    var h := slots[k].claimFieldIndex;
    if h < i { RangesApart(fields, h, i); }
    if i < h { RangesApart(fields, i, h); }
  }

  lemma {:induction false} DecimalInjective(a: nat, b: nat)
    requires Decimal(a) == Decimal(b)
    ensures a == b
  {
    var s, t := Decimal(a), Decimal(b);
    assert s[|s| - 1] == t[|t| - 1];
    if a >= 10 {
      assert Decimal(a / 10) == s[..|s| - 1] == t[..|t| - 1] == Decimal(b / 10);
      DecimalInjective(a / 10, b / 10);
    }
  }

  predicate Plain(name: string) {
    '[' !in name
  }

  /** The text before the first bracket. */
  function Head(s: string): string {
    if s == [] || s[0] == '[' then [] else [s[0]] + Head(s[1..])
  }

  lemma {:induction false} HeadIsName(name: string, rest: string)
    requires Plain(name) && (rest == [] || rest[0] == '[')
    ensures Head(name + rest) == name
  {
    if name != [] {
      assert (name + rest)[1..] == name[1..] + rest;
      HeadIsName(name[1..], rest);
    } else {
      assert name + rest == rest;
    }
  }

  lemma SlotNameParts(name: string, j: nat, count: nat)
    requires Plain(name)
    ensures Head(SlotName(name, j, count)) == name
    ensures '[' in SlotName(name, j, count) <==> count > 1
    ensures count > 1 ==> SlotName(name, j, count) == name + ("[" + Decimal(j) + "]")
  {
    var rest := "[" + Decimal(j) + "]";
    HeadIsName(name, []);
    HeadIsName(name, rest);
    assert name + [] == name && name + "[" + Decimal(j) + "]" == name + rest;
    assert (name + rest)[|name|] == '[';
  }

  /** A slot name determines its field's name and, where there are several, its index. */
  lemma SlotNameInjective(name: string, j: nat, count: nat, other: string, k: nat, size: nat)
    requires Plain(name) && Plain(other) && SlotName(name, j, count) == SlotName(other, k, size)
    ensures name == other && (count > 1 ==> size > 1 && j == k)
  {
    SlotNameParts(name, j, count);
    SlotNameParts(other, k, size);
    hide SlotName, Head;
    if count > 1 {
      var s, t := name + ("[" + Decimal(j) + "]"), other + ("[" + Decimal(k) + "]");
      assert Decimal(j) == s[|name| + 1..|s| - 1];
      assert Decimal(k) == t[|other| + 1..|t| - 1];
      DecimalInjective(j, k);
    }
  }

  /** Fields with distinct plain names give slots with distinct names. */
  lemma SlotNamesDistinct(events: seq<Event>, memorySlots: nat, fields: seq<ClaimField>,
                          slots: seq<EnableSlot>, k: nat, m: nat)
    requires Tiles(events, memorySlots, fields, slots) && k < |slots| && m < |slots|
    requires forall i | 0 <= i < |events| :: Plain(events[i].name)
    requires forall i, j | 0 <= i < j < |events| :: events[i].name != events[j].name
    ensures slots[k].name == slots[m].name <==> k == m
  {
    hide Contiguous, End, SlotName;
    assert SlotPlaced(fields, k, slots[k]) && SlotPlaced(fields, m, slots[m]);
    if slots[k].name == slots[m].name {
      var f, g := fields[slots[k].claimFieldIndex], fields[slots[m].claimFieldIndex];
      SlotNameInjective(f.name, slots[k].fieldSlotIndex, f.enableSlotCount,
                        g.name, slots[m].fieldSlotIndex, g.enableSlotCount);
    }
  }

  // --- counts and names, field by field -------------------------------------

  function MemoryFields(events: seq<Event>): nat {
    if events == [] then 0
    else MemoryFields(events[..|events| - 1]) + if events[|events| - 1].name == "memory_id_to_big" then 1 else 0
  }

  /** In all there are the memory slots of each memory field and one slot of each other field. */
  lemma {:induction false} TotalIsCounted(events: seq<Event>, memorySlots: nat)
    ensures MemoryFields(events) <= |events|
    ensures TotalSlots(events, memorySlots) == MemoryFields(events) * memorySlots + (|events| - MemoryFields(events))
  {
    if events != [] {
      var n := MemoryFields(events[..|events| - 1]);
      TotalIsCounted(events[..|events| - 1], memorySlots);
      assert (n + 1) * memorySlots == n * memorySlots + memorySlots;
    }
  }

  /** In a layout only memory_id_to_big has the memory slots; every other field has one. */
  lemma FieldCounts(events: seq<Event>, memorySlots: nat, fields: seq<ClaimField>, slots: seq<EnableSlot>)
    requires Tiles(events, memorySlots, fields, slots)
    ensures forall i | 0 <= i < |fields| ::
              fields[i].enableSlotCount == if fields[i].name == "memory_id_to_big" then memorySlots else 1
  {
  }

  function DigitsValue(text: string): int {
    if text == [] then 0 else 10 * DigitsValue(text[..|text| - 1]) + (text[|text| - 1] as int - '0' as int)
  }

  /** Decimal text is the number in base ten, without a leading zero. */
  lemma {:induction false} DecimalReads(n: nat)
    ensures DigitsValue(Decimal(n)) == n && (n > 0 ==> Decimal(n)[0] != '0')
  {
    var text := Decimal(n);
    if n >= 10 {
      DecimalReads(n / 10);
      assert text[..|text| - 1] == Decimal(n / 10);
    } else {
      assert text[..0] == [];
    }
  }

  /** A field with one slot gives it its name; one with several adds the slot's index in brackets. */
  lemma SlotNames(events: seq<Event>, memorySlots: nat, fields: seq<ClaimField>, slots: seq<EnableSlot>, k: nat)
    requires Tiles(events, memorySlots, fields, slots) && k < |slots|
    ensures slots[k].claimFieldIndex < |fields|
    ensures var f := fields[slots[k].claimFieldIndex];
            if f.enableSlotCount == 1 then slots[k].name == f.name
            else exists digits ::
              slots[k].name == f.name + "[" + digits + "]" && DigitsValue(digits) == slots[k].fieldSlotIndex
  {
    hide FieldsTile;
    assert SlotPlaced(fields, k, slots[k]);
    DecimalReads(slots[k].fieldSlotIndex);
  }
}
