/** shell/src/sh_history.c: the fixed ring of history slots, as the bounded list it stands for. */
module History {
  import opened Text

  function Newest(h: seq<string>): (line: string)
    requires h != []
  {
    h[|h| - 1]
  }

  /** The last n entries. */
  function KeepLast(h: seq<string>, n: nat): seq<string> {
    if |h| <= n then h else h[|h| - n..]
  }

  /** What one add makes of the list; without slots nothing is kept. */
  function Added(h: seq<string>, line: string, depth: nat, slotSize: nat): seq<string> {
    if line == [] || depth == 0 || slotSize == 0 || (h != [] && Newest(h) == line) then h
    else KeepLast(h + [Cut(line, slotSize - 1)], depth)
  }

  // ----- slot arithmetic -----

  lemma SlotInside(p: nat, depth: nat, size: nat)
    requires p < depth
    ensures p * size + size <= depth * size
  {
    assert (p + 1) * size <= depth * size by { MulMonotone(p + 1, depth, size); }
    assert (p + 1) * size == p * size + size;
  }

  lemma {:induction false} MulMonotone(a: nat, b: nat, size: nat)
    requires a <= b
    ensures a * size <= b * size
    decreases b - a
  {
    if a < b {
      MulMonotone(a + 1, b, size);
      assert (a + 1) * size == a * size + size;
    }
  }

  lemma SlotsApart(p: nat, q: nat, size: nat)
    requires p != q
    ensures p * size + size <= q * size || q * size + size <= p * size
  {
    if p < q {
      SlotInside(p, q, size);
    } else {
      SlotInside(q, p, size);
    }
  }

  lemma Wrap(x: nat, depth: nat)
    requires 0 < depth && x < 2 * depth
    ensures x % depth == if x < depth then x else x - depth
  {
    if x >= depth {
      assert x == depth * 1 + (x - depth);
      assert x / depth == 1;
    }
  }

  /** The history fields of sh_t. */
  class Ring {
    const storage: array<char>
    const depth: nat
    const slotSize: nat
    var count: nat
    var start: nat

    constructor (storage: array<char>, depth: nat, slotSize: nat)
      requires depth > 0 ==> slotSize > 0
      requires depth * slotSize <= storage.Length
      ensures this.storage == storage && this.depth == depth && this.slotSize == slotSize
      ensures Valid() && Entries() == []
    {
      this.storage, this.depth, this.slotSize := storage, depth, slotSize;
      count, start := 0, 0;
    }

    /** The storage has room for all the slots. */
    ghost predicate Fits() {
      depth * slotSize <= storage.Length
    }

    /** slot_at, as an offset. */
    function SlotAt(physical: nat): nat {
      physical * slotSize
    }

    ghost function Slot(physical: nat): seq<char>
      reads storage
      requires physical < depth && Fits()
      ensures |Slot(physical)| == slotSize
    {
      SlotInside(physical, depth, slotSize);
      storage[SlotAt(physical)..SlotAt(physical) + slotSize]
    }

    /** The physical slot of the i-th oldest entry. */
    function Physical(i: nat): (p: nat)
      reads this
      requires start < depth && i < depth
      ensures p < depth
    {
      if start + i < depth then start + i else start + i - depth
    }

    ghost predicate Valid()
      reads this, storage
    {
      && Fits()
      && (depth > 0 ==> slotSize > 0 && start < depth)
      && count <= depth
      && forall i :: 0 <= i < count ==> NUL in Slot(Physical(i))
    }

    /** The entries, oldest first. */
    ghost function Entries(): (h: seq<string>)
      reads this, storage
      requires Valid()
      ensures |h| == count
    {
      seq(count, i requires 0 <= i < count && Valid() reads this, storage => CStr(Slot(Physical(i))))
    }

    lemma SlotIs(physical: nat)
      requires physical < depth && Fits()
      ensures SlotAt(physical) + slotSize <= storage.Length
      ensures Slot(physical) == storage[SlotAt(physical)..SlotAt(physical) + slotSize]
    {
      SlotInside(physical, depth, slotSize);
    }

    /** sh_history_get_newest: the offset of the k-th newest entry. */
    method GetNewest(k: nat) returns (slot: Option<nat>)
      requires Valid()
      ensures slot.Some? <==> k < count
      ensures k < count ==>
        && slot.value + slotSize <= storage.Length
        && NUL in storage[slot.value..slot.value + slotSize]
        && CStr(storage[slot.value..slot.value + slotSize]) == Entries()[count - 1 - k]
    {
      hide CStr, Ring.Slot;
      if k >= count || depth == 0 {
        return None;
      }
      var logical := count - 1 - k;
      var physical := (start + logical) % depth;
      Wrap(start + logical, depth);
      assert physical == Physical(logical);
      SlotIs(physical);
      return Some(SlotAt(physical));
    }

    /** sh_history_clear, the part that touches the ring. */
    method Clear()
      requires Valid()
      modifies this, storage
      ensures Valid() && Entries() == []
      ensures forall i :: 0 <= i < depth * slotSize ==> storage[i] == NUL
    {
      count, start := 0, 0;
      if depth > 0 && slotSize > 0 {
        MemZero(storage, depth * slotSize);
      }
    }

    /** sh_history_add_internal. */
    method Add(line: string)
      requires Valid() && NoNul(line)
      modifies this, storage
      ensures Valid() && Entries() == Added(old(Entries()), line, depth, slotSize)
    {
      hide CStr, Ring.Slot, Ring.Entries, Ring.SlotAt, KeepLast, Cut;
      if line == [] || depth == 0 {
        return;
      }
      var latest := GetNewest(0);
      if latest.Some? {
        var text := StrAt(storage, latest.value, slotSize);
        if text == line {
          return;
        }
      }
      Store(line);
    }

    /** memcpy and terminator: one slot gets a new text and the others keep theirs. */
    method WriteSlot(physical: nat, text: string)
      requires physical < depth && Fits()
      requires |text| < slotSize && NoNul(text)
      modifies storage
      ensures NUL in Slot(physical) && CStr(Slot(physical)) == text
      ensures forall q :: 0 <= q < depth && q != physical ==> Slot(q) == old(Slot(q))
    {
      hide SlotAt, CStr;
      SlotsInside(physical, physical);
      var at := SlotAt(physical);
      MemCopy(storage, at, text);
      storage[at + |text|] := NUL;
      assert Slot(physical)[..|text|] == text && Slot(physical)[|text|] == NUL;
      CStrIs(Slot(physical), text);
      forall q | 0 <= q < depth && q != physical
        ensures Slot(q) == old(Slot(q))
      {
        SlotsInside(q, physical);
      }
    }

    /** Slots lie inside the storage and two of them do not overlap. */
    lemma SlotsInside(p: nat, q: nat)
      requires p < depth && q < depth && Fits()
      ensures SlotAt(p) + slotSize <= storage.Length
      ensures p != q ==> SlotAt(p) + slotSize <= SlotAt(q) || SlotAt(q) + slotSize <= SlotAt(p)
    {
      SlotInside(p, depth, slotSize);
      if p != q {
        SlotsApart(p, q, slotSize);
      }
    }

    /** The choice of the slot in sh_history_add_internal: a free one, or the oldest one. */
    method Choose() returns (physical: nat)
      requires Valid() && depth > 0
      modifies this
      ensures count == old(if count < depth then count + 1 else depth) && start < depth
      ensures physical == Physical(count - 1)
      ensures forall i :: 0 <= i < count - 1 ==>
        Physical(i) == old(Physical(if count < depth then i else i + 1)) && Physical(i) != physical
    {
      hide CStr, Ring.Slot, Ring.SlotAt, Ring.Fits;
      if count < depth {
        Wrap(start + count, depth);
        physical := (start + count) % depth;
        count := count + 1;
      } else {
        physical := start;
        Wrap(start + 1, depth);
        start := (start + 1) % depth;
      }
    }

    lemma EntriesAre(list: seq<string>)
      requires Valid() && |list| == count
      requires forall i :: 0 <= i < count ==> CStr(Slot(Physical(i))) == list[i]
      ensures Entries() == list
    {
      hide CStr, Slot, Physical, Fits;
    }

    /** The chosen slot, and the entries that stay in the others. */
    method Reserve(ghost all: seq<string>) returns (physical: nat)
      requires Valid() && depth > 0 && |all| == count + 1 && all[..count] == Entries()
      modifies this
      ensures Fits() && slotSize > 0 && start < depth && count == old(if count < depth then count + 1 else depth)
      ensures physical == Physical(count - 1)
      ensures forall i :: 0 <= i < count - 1 ==>
        NUL in Slot(Physical(i)) && CStr(Slot(Physical(i))) == all[i + (|all| - count)] && Physical(i) != physical
    {
      hide CStr, Ring.Slot, Ring.SlotAt, Ring.Physical, Ring.Fits;
      assert forall i :: 0 <= i < count ==> CStr(Slot(Physical(i))) == all[i];
      hide Ring.Entries;
      physical := Choose();
    }

    /** The part of sh_history_add_internal that writes a slot. */
    method Store(line: string)
      requires Valid() && NoNul(line) && depth > 0
      modifies this, storage
      ensures Valid() && Entries() == KeepLast(old(Entries()) + [Cut(line, slotSize - 1)], depth)
    {
      hide CStr, Ring.Slot, Ring.SlotAt, Ring.Physical, Ring.Fits;
      var len := |line|;
      if len >= slotSize {
        len := slotSize - 1;
      }
      ghost var all := Entries() + [Cut(line, slotSize - 1)];
      hide Ring.Entries;
      var physical := Reserve(all);
      ghost var drop := |all| - count;
      WriteSlot(physical, line[..len]);
      ghost var list := all[drop..];
      forall i | 0 <= i < count
        ensures NUL in Slot(Physical(i)) && CStr(Slot(Physical(i))) == list[i]
      {
        assert list[i] == all[i + drop];
        if i == count - 1 {
          assert line[..len] == all[|all| - 1];
        }
      }
      EntriesAre(list);
    }
  }

  // ----- runs -----

  datatype Op = Add(line: string) | Clear

  function Apply(h: seq<string>, op: Op, depth: nat, slotSize: nat): seq<string>
    requires slotSize > 0
  {
    match op
    case Add(line) => Added(h, line, depth, slotSize)
    case Clear => []
  }

  /** The list after a run of operations on an empty history. */
  function RunOps(ops: seq<Op>, depth: nat, slotSize: nat): seq<string>
    requires slotSize > 0
  {
    if ops == [] then [] else Apply(RunOps(ops[..|ops| - 1], depth, slotSize), ops[|ops| - 1], depth, slotSize)
  }

  /** A ring is a window: it always holds the last entries of a longer ring that saw the same run. */
  lemma {:induction false} RingIsWindow(ops: seq<Op>, depth: nat, longer: nat, slotSize: nat)
    requires slotSize > 0 && 0 < depth <= longer
    ensures RunOps(ops, depth, slotSize) == KeepLast(RunOps(ops, longer, slotSize), depth)
  {
    if ops != [] {
      var before, op := ops[..|ops| - 1], ops[|ops| - 1];
      RingIsWindow(before, depth, longer, slotSize);
      if op.Add? {
        AddToWindow(RunOps(before, longer, slotSize), op.line, depth, longer, slotSize);
      }
    }
  }

  lemma AddToWindow(h: seq<string>, line: string, depth: nat, longer: nat, slotSize: nat)
    requires slotSize > 0 && 0 < depth <= longer
    ensures Added(KeepLast(h, depth), line, depth, slotSize) == KeepLast(Added(h, line, longer, slotSize), depth)
  {
    var small := KeepLast(h, depth);
    assert h != [] ==> Newest(small) == Newest(h);
    var x := Cut(line, slotSize - 1);
    assert KeepLast(small + [x], depth) == KeepLast(KeepLast(h + [x], longer), depth);
  }

  predicate Entry(line: string, slotSize: nat) {
    line != [] && |line| < slotSize
  }

  predicate NoTwins(h: seq<string>) {
    forall i :: 0 <= i < |h| - 1 ==> h[i] != h[i + 1]
  }

  /** What the slots can hold; two neighbours are never equal when every line is shorter than a slot. */
  lemma {:induction false} RunKeeps(ops: seq<Op>, depth: nat, slotSize: nat)
    requires slotSize > 1
    ensures var h := RunOps(ops, depth, slotSize);
      && |h| <= depth && (forall e :: e in h ==> Entry(e, slotSize))
      && ((forall op :: op in ops && op.Add? ==> |op.line| < slotSize) ==> NoTwins(h))
  {
    if ops != [] {
      var before, op := ops[..|ops| - 1], ops[|ops| - 1];
      RunKeeps(before, depth, slotSize);
      if op.Add? {
        AddKeeps(RunOps(before, depth, slotSize), op.line, depth, slotSize);
      }
    }
  }

  /**
   * An add makes two equal neighbours in one case exactly: the line is too long for a slot and its part
   * that fits is the newest entry already (the code compares before it cuts).
   */
  lemma AddKeeps(h: seq<string>, line: string, depth: nat, slotSize: nat)
    requires slotSize > 1 && |h| <= depth && forall e :: e in h ==> Entry(e, slotSize)
    ensures var after := Added(h, line, depth, slotSize);
      && |after| <= depth && (forall e :: e in after ==> Entry(e, slotSize))
      && (NoTwins(h) ==> (NoTwins(after) <==>
            !(h != [] && depth >= 2 && |line| >= slotSize && Newest(h) == line[..slotSize - 1])))
  {
    var after := Added(h, line, depth, slotSize);
    if h != [] && line != [] && Newest(h) != line {
      var all := h + [Cut(line, slotSize - 1)];
      assert all[|h| - 1] == Newest(h);
      assert |after| >= 2 ==> after[|after| - 2] == Newest(h) && after[|after| - 1] == Cut(line, slotSize - 1);
    }
  }
}
