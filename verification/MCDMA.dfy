/** The ring of scatter-gather descriptors that a channel of the DMA engine walks through. */
module MCDMA {

  type Word = w: nat | w < 0x1_0000_0000

  /** The most and the least significant word of a 64-bit value. */
  function Split64b(value: nat): (Word, Word) {
    (value / 0x1_0000_0000 % 0x1_0000_0000, value % 0x1_0000_0000)
  }

  function Join(msb: nat, lsb: nat): nat {
    msb * 0x1_0000_0000 + lsb
  }

  function RoundUp(value: int, alignment: int): int
    requires alignment > 0
  {
    (value - 1) / alignment * alignment + alignment
  }

  /** The size of a slot in bytes: 13 words, rounded up to 16. */
  function DescriptorSize(): nat {
    RoundUp(13 * 4, 64)
  }

  /** The 64 bits of an address that a descriptor has room for. */
  function Low64(value: nat): nat {
    value % 0x1_0000_0000_0000_0000
  }

  /** The 26 bits of a length that a descriptor has room for. */
  function Low26(value: nat): nat {
    value % 0x400_0000
  }

  function Bit31(control: Word): bool {
    control / 0x8000_0000 % 2 == 1
  }

  function Bit30(control: Word): bool {
    control / 0x4000_0000 % 2 == 1
  }

  /** The fields do not overlap, so `|` is `+`. */
  function CreateTxControl(sof: bool, eof: bool, length: nat): Word {
    (if sof then 0x8000_0000 else 0) + (if eof then 0x4000_0000 else 0) + Low26(length)
  }

  function CreateRxControl(length: nat): Word {
    Low26(length)
  }

  datatype Direction = Tx | Rx

  datatype App = App(app0: Word, app1: Word, app2: Word, app3: Word, app4: Word)

  /** MCDMADescriptor. */
  datatype Fields = Fields(nextMsb: Word, next: Word, addressMsb: Word, address: Word,
                           control: Word, sideband: Word, app: App, direction: Direction)

  /** What the engine reads from a descriptor. */
  datatype Descriptor = Descriptor(next: nat, address: nat, sof: bool, eof: bool, length: nat)

  /** The slot that starts at word `o` holds `d`.  Its words 4 and 13 to 15 are not written. */
  predicate Written(buf: seq<Word>, o: nat, d: Fields) {
    && o + 16 <= |buf|
    && buf[o] == d.next && buf[o + 1] == d.nextMsb && buf[o + 2] == d.address && buf[o + 3] == d.addressMsb
    && buf[o + 5] == d.control
    && buf[o + 6] == (if d.direction == Tx then d.sideband else 0) && buf[o + 7] == 0
    && App(buf[o + 8], buf[o + 9], buf[o + 10], buf[o + 11], buf[o + 12]) == d.app
  }

  /** The engine's view of the slot. */
  function Read(buf: seq<Word>, o: nat): Descriptor
    requires o + 16 <= |buf|
  {
    var control := buf[o + 5];
    Descriptor(Join(buf[o + 1], buf[o]), Join(buf[o + 3], buf[o + 2]),
               Bit31(control), Bit30(control), Low26(control))
  }

  function Decoded(d: Fields): Descriptor {
    Descriptor(Join(d.nextMsb, d.next), Join(d.addressMsb, d.address),
               Bit31(d.control), Bit30(d.control), Low26(d.control))
  }

  lemma ReadWritten(buf: seq<Word>, o: nat, d: Fields)
    requires Written(buf, o, d)
    ensures Read(buf, o) == Decoded(d)
  {
  }

  lemma ReadSame(a: seq<Word>, b: seq<Word>, o: nat)
    requires o + 16 <= |a| == |b| && forall j :: o <= j < o + 16 ==> a[j] == b[j]
    ensures Read(a, o) == Read(b, o)
  {
  }

  lemma SplitJoins(value: nat)
    ensures var (msb, lsb) := Split64b(value); Join(msb, lsb) == Low64(value)
  {
    var high, low: nat := value / 0x1_0000_0000, value % 0x1_0000_0000;
    var q, mid: nat := high / 0x1_0000_0000, high % 0x1_0000_0000;
    assert value == high * 0x1_0000_0000 + low && high == q * 0x1_0000_0000 + mid;
    assert mid * 0x1_0000_0000 + low < 0x1_0000_0000_0000_0000;
    Remainder(value, q, mid * 0x1_0000_0000 + low);
  }

  lemma SplitWords(value: nat)
    ensures Split64b(value) == (value / 0x1_0000_0000 % 0x1_0000_0000, value % 0x1_0000_0000)
  {
  }

  lemma ControlWord(sof: bool, eof: bool, length: nat)
    ensures CreateTxControl(sof, eof, length) ==
            (if sof then 0x8000_0000 else 0) + (if eof then 0x4000_0000 else 0) + length % 0x400_0000
    ensures CreateRxControl(length) == length % 0x400_0000
  {
  }

  lemma Remainder(a: nat, q: nat, r: nat)
    requires r < 0x1_0000_0000_0000_0000 && a == q * 0x1_0000_0000_0000_0000 + r
    ensures a % 0x1_0000_0000_0000_0000 == r
  {
  }

  /** The fields of a control word come back, except that a length is cut to 26 bits. */
  lemma ControlReads(sof: bool, eof: bool, length: nat)
    ensures var c := CreateTxControl(sof, eof, length);
            Bit31(c) == sof && Bit30(c) == eof && Low26(c) == Low26(length)
    ensures var c := CreateRxControl(length);
            !Bit31(c) && !Bit30(c) && Low26(c) == Low26(length)
  {
    var n := Low26(length);
    assert 0 <= n < 0x400_0000;
  }

  method DumpToBuffer(d: Fields, buf: array<Word>, o: nat)
    requires o + 16 <= buf.Length
    modifies buf
    ensures Written(buf[..], o, d)
    ensures forall j :: 0 <= j < buf.Length && !(o <= j < o + 16) ==> buf[j] == old(buf[j])
  {
    buf[o] := d.next;
    buf[o + 1] := d.nextMsb;
    buf[o + 2] := d.address;
    buf[o + 3] := d.addressMsb;
    buf[o + 5] := d.control;
    if d.direction == Tx {
      buf[o + 6] := d.sideband;
      buf[o + 7] := 0;
    } else {
      buf[o + 6] := 0;
      buf[o + 7] := 0;
    }
    buf[o + 8] := d.app.app0;
    buf[o + 9] := d.app.app1;
    buf[o + 10] := d.app.app2;
    buf[o + 11] := d.app.app3;
    buf[o + 12] := d.app.app4;
  }

  /** How the bytes from `address` on are cut into `count` blocks of at most `blk` bytes. */
  datatype Layout = Layout(base: nat, address: nat, nbytes: nat, blk: nat, count: nat)
  {
    ghost predicate Valid() {
      blk > 0 && count == (nbytes + blk - 1) / blk
    }

    function Offset(i: nat): nat {
      i * blk
    }

    /** The bytes after the first `i` blocks. */
    function Rest(i: nat): nat {
      if nbytes > Offset(i) then nbytes - Offset(i) else 0
    }

    function SlotAddress(i: nat): (a: nat)
      ensures a == base + i * 64
    {
      assert DescriptorSize() == 64;
      base + i * DescriptorSize()
    }

    function Next(i: nat): nat
      requires i < count
    {
      (i + 1) % count
    }

    function Length(i: nat): nat {
      if Rest(i) > blk then blk else Rest(i)
    }

    lemma RestNext(i: nat)
      ensures Offset(i + 1) == Offset(i) + blk && Rest(i + 1) == Rest(i) - Length(i)
    {
      assert (i + 1) * blk == i * blk + blk;
    }

    /** What the engine is to read from slot `i`. */
    function Expected(i: nat, direction: Direction): Descriptor
      requires i < count
    {
      Descriptor(Low64(SlotAddress(Next(i))), Low64(address + Offset(i)),
                 direction == Tx && i == 0, direction == Tx && i == count - 1, Low26(Length(i)))
    }

    ghost predicate Laid(buf: seq<Word>, direction: Direction) {
      && |buf| == count * 16
      && forall i :: 0 <= i < count ==> i * 16 + 16 <= |buf| && Read(buf, i * 16) == Expected(i, direction)
    }
  }

  /** The first `n` slots are read as they are meant. */
  ghost predicate AllRead(buf: seq<Word>, layout: Layout, direction: Direction, n: nat) {
    n <= layout.count && forall i :: 0 <= i < n ==>
      i * 16 + 16 <= |buf| && Read(buf, i * 16) == layout.Expected(i, direction)
  }

  /** The control word of slot `i`: a flag on the first and on the last slot, and the length. */
  function ControlOf(layout: Layout, i: nat, direction: Direction): (control: Word)
    ensures var length: int := if (i + 1) * layout.blk <= layout.nbytes then layout.blk
                               else if i * layout.blk < layout.nbytes then layout.nbytes - i * layout.blk else 0;
            control == (if direction == Tx && i == 0 then 0x8000_0000 else 0)
                       + (if direction == Tx && i + 1 == layout.count then 0x4000_0000 else 0) + length % 0x400_0000
  {
    assert (i + 1) * layout.blk == i * layout.blk + layout.blk;
    if direction == Tx then CreateTxControl(i == 0, i == layout.count - 1, layout.Length(i))
    else CreateRxControl(layout.Length(i))
  }

  /** The slot at word `o` as it is passed on and as it is addressed. */
  ghost predicate Filled(buf: seq<Word>, o: nat, layout: Layout, direction: Direction, sideband: Word, app: App, i: nat)
    requires i < layout.count
  {
    var next, address := layout.base + (i + 1) % layout.count * 64, layout.address + i * layout.blk;
    && o + 16 <= |buf|
    && buf[o] == next % 0x1_0000_0000 && buf[o + 1] == next / 0x1_0000_0000 % 0x1_0000_0000
    && buf[o + 2] == address % 0x1_0000_0000 && buf[o + 3] == address / 0x1_0000_0000 % 0x1_0000_0000
    && buf[o + 5] == ControlOf(layout, i, direction)
    && buf[o + 6] == (if direction == Tx then sideband else 0) && buf[o + 7] == 0
    && buf[o + 8..o + 13] == [app.app0, app.app1, app.app2, app.app3, app.app4]
  }

  ghost predicate AllFilled(buf: seq<Word>, layout: Layout, direction: Direction, sideband: Word, app: App, n: nat) {
    n <= layout.count && forall i :: 0 <= i < n ==> Filled(buf, i * 16, layout, direction, sideband, app, i)
  }

  lemma NoneFilled(buf: seq<Word>, layout: Layout, direction: Direction, sideband: Word, app: App)
    ensures AllRead(buf, layout, direction, 0) && AllFilled(buf, layout, direction, sideband, app, 0)
  {
  }

  lemma {:induction false} SlotFilled(before: seq<Word>, after: seq<Word>, i: nat, d: Fields, layout: Layout,
                                      direction: Direction, sideband: Word, app: App, remain: nat)
    requires |before| == |after| == layout.count * 16 && i < layout.count && i * 16 + 16 <= |after|
    requires Written(after, i * 16, d) && remain == layout.Rest(i)
    requires d.direction == direction && d.app == app && d.sideband == (if direction == Tx then sideband else 0)
    requires var next, address := layout.base + (i + 1) % layout.count * 64, layout.address + i * layout.blk;
             && (d.nextMsb, d.next) == (next / 0x1_0000_0000 % 0x1_0000_0000, next % 0x1_0000_0000)
             && (d.addressMsb, d.address) == (address / 0x1_0000_0000 % 0x1_0000_0000, address % 0x1_0000_0000)
    requires d.control == ControlOf(layout, i, direction)
    requires forall j :: 0 <= j < |after| && !(i * 16 <= j < i * 16 + 16) ==> after[j] == before[j]
    requires AllFilled(before, layout, direction, sideband, app, i)
    ensures AllFilled(after, layout, direction, sideband, app, i + 1)
  {
    WrittenFilled(after, i * 16, d, layout, direction, sideband, app, i);
    hide Written, Filled;
    forall j | 0 <= j < i ensures Filled(after, j * 16, layout, direction, sideband, app, j) {
      assert Filled(before, j * 16, layout, direction, sideband, app, j);
      FilledSame(before, after, j * 16, layout, direction, sideband, app, j);
    }
  }

  lemma WrittenFilled(buf: seq<Word>, o: nat, d: Fields, layout: Layout, direction: Direction, sideband: Word, app: App, i: nat)
    requires i < layout.count && Written(buf, o, d)
    requires d.direction == direction && d.app == app && d.sideband == (if direction == Tx then sideband else 0)
    requires var next, address := layout.base + (i + 1) % layout.count * 64, layout.address + i * layout.blk;
             && (d.nextMsb, d.next) == (next / 0x1_0000_0000 % 0x1_0000_0000, next % 0x1_0000_0000)
             && (d.addressMsb, d.address) == (address / 0x1_0000_0000 % 0x1_0000_0000, address % 0x1_0000_0000)
    requires d.control == ControlOf(layout, i, direction)
    ensures Filled(buf, o, layout, direction, sideband, app, i)
  {
  }

  lemma FilledSame(a: seq<Word>, b: seq<Word>, o: nat, layout: Layout, direction: Direction, sideband: Word, app: App, i: nat)
    requires i < layout.count && o + 16 <= |a| == |b| && forall j :: o <= j < o + 16 ==> a[j] == b[j]
    requires Filled(a, o, layout, direction, sideband, app, i)
    ensures Filled(b, o, layout, direction, sideband, app, i)
  {
    assert a[o + 8..o + 13] == b[o + 8..o + 13];
  }

  lemma RingFilled(descr: array<Word>, layout: Layout, direction: Direction, sideband: Word, app: App)
    requires descr.Length == layout.count * 16
    requires AllRead(descr[..], layout, direction, layout.count)
    requires AllFilled(descr[..], layout, direction, sideband, app, layout.count)
    ensures layout.Laid(descr[..], direction)
    ensures forall i :: 0 <= i < layout.count ==>
      && i * 16 + 16 <= descr.Length
      && descr[i * 16 + 6] == (if direction == Tx then sideband else 0) && descr[i * 16 + 7] == 0
      && descr[i * 16 + 8..i * 16 + 13] == [app.app0, app.app1, app.app2, app.app3, app.app4]
    ensures forall i :: 0 <= i < layout.count ==>
      var next, address := layout.base + (i + 1) % layout.count * 64, layout.address + i * layout.blk;
      && i * 16 + 16 <= descr.Length
      && descr[i * 16] == next % 0x1_0000_0000 && descr[i * 16 + 1] == next / 0x1_0000_0000 % 0x1_0000_0000
      && descr[i * 16 + 2] == address % 0x1_0000_0000 && descr[i * 16 + 3] == address / 0x1_0000_0000 % 0x1_0000_0000
      && descr[i * 16 + 5] == ControlOf(layout, i, direction)
  {
    assert descr[..][..] == descr[..];
    forall i | 0 <= i < layout.count
      ensures i * 16 + 16 <= descr.Length && Filled(descr[..], i * 16, layout, direction, sideband, app, i)
      ensures descr[i * 16 + 8..i * 16 + 13] == descr[..][i * 16 + 8..i * 16 + 13]
    {
      assert Filled(descr[..], i * 16, layout, direction, sideband, app, i);
    }
  }

  lemma {:induction false} SlotAdded(before: seq<Word>, after: seq<Word>, i: nat, d: Fields, layout: Layout, direction: Direction)
    requires |before| == |after| == layout.count * 16 && i < layout.count
    requires Written(after, i * 16, d) && Decoded(d) == layout.Expected(i, direction)
    requires forall j :: 0 <= j < |after| && !(i * 16 <= j < i * 16 + 16) ==> after[j] == before[j]
    requires AllRead(before, layout, direction, i)
    ensures AllRead(after, layout, direction, i + 1)
  {
    ReadWritten(after, i * 16, d);
    hide Written, Read, Decoded, Layout.Expected;
    forall j | 0 <= j < i + 1
      ensures j * 16 + 16 <= |after| && Read(after, j * 16) == layout.Expected(j, direction)
    {
      if j < i { ReadSame(before, after, j * 16); }
    }
  }

  class SGDMAChannel {
    const maxSize: nat
    const align: nat
    const direction: Direction

    constructor (maxSize: nat, align: nat, direction: Direction)
      ensures this.maxSize == maxSize && this.align == align && this.direction == direction
    {
      this.maxSize, this.align, this.direction := maxSize, align, direction;
    }

    /** The largest multiple of the alignment up to the maximal size. */
    function BlkSize(): (size: nat)
      requires align > 0
      ensures size == maxSize / align * align && size <= maxSize < size + align
    {
      assert maxSize == maxSize / align * align + maxSize % align;
      maxSize - maxSize % align
    }

    /** Descriptor `i`, and how many bytes remain after its block. */
    method NextDescriptor(i: nat, layout: Layout, arrayAddr: nat, start: nat, remain0: nat, sideband: Word, app: App)
      returns (d: Fields, remain: nat)
      requires i < layout.count && arrayAddr + start == layout.address
      requires remain0 == layout.Rest(i)
      ensures Decoded(d) == layout.Expected(i, direction)
      ensures remain == layout.Rest(i + 1)
      ensures d.direction == direction && d.app == app && d.sideband == (if direction == Tx then sideband else 0)
      ensures var next, address := layout.base + (i + 1) % layout.count * 64, layout.address + i * layout.blk;
              && (d.nextMsb, d.next) == (next / 0x1_0000_0000 % 0x1_0000_0000, next % 0x1_0000_0000)
              && (d.addressMsb, d.address) == (address / 0x1_0000_0000 % 0x1_0000_0000, address % 0x1_0000_0000)
      ensures var length := if remain0 > layout.blk then layout.blk else remain0;
              d.control == (if direction == Tx && i == 0 then 0x8000_0000 else 0)
                           + (if direction == Tx && i == layout.count - 1 then 0x4000_0000 else 0) + length % 0x400_0000
    {
      layout.RestNext(i);
      assert layout.Next(i) == (i + 1) % layout.count && layout.Offset(i) == i * layout.blk;
      hide Split64b, Join, Low64, Low26, Bit31, Bit30, CreateTxControl, CreateRxControl,
           Layout.SlotAddress, Layout.Next, Layout.Offset, Layout.Rest;
      var nextAddr := layout.SlotAddress(layout.Next(i));
      var bufferAddr := arrayAddr + start + layout.Offset(i);
      var startOfFrame := i == 0;
      var endOfFrame := i == layout.count - 1;
      var bufferLen := if remain0 > layout.blk then layout.blk else remain0;
      remain := remain0 - bufferLen;
      var control: Word, controlSideband: Word;
      if direction == Tx {
        control := CreateTxControl(startOfFrame, endOfFrame, bufferLen);
        controlSideband := sideband;
      } else {
        control := CreateRxControl(bufferLen);
        controlSideband := 0;
      }
      var (nextMsb, nextLsb) := Split64b(nextAddr);
      var (addrMsb, addrLsb) := Split64b(bufferAddr);
      d := Fields(nextMsb, nextLsb, addrMsb, addrLsb, control, controlSideband, app, direction);
      ControlReads(startOfFrame, endOfFrame, bufferLen);
      SplitJoins(nextAddr);
      SplitJoins(bufferAddr);
      SplitWords(nextAddr);
      SplitWords(bufferAddr);
      ControlWord(startOfFrame, endOfFrame, bufferLen);
    }

    /** How many bytes are meant: all from `start` on if `nbytes0` is 0, which is less than
        none if `start` lies behind the array. */
    function Bytes(arrayBytes: nat, start: nat, nbytes0: nat): int {
      if nbytes0 == 0 then arrayBytes - start else nbytes0
    }

    /** Descriptors for `nbytes0` bytes from offset `start` of an array of `arrayBytes` bytes at
        `arrayAddr`.  `descrAddr` is the address of the memory that is allocated for them, which
        fails for a negative number of descriptors. */
    method ConstructDescriptors(arrayAddr: nat, arrayBytes: nat, start: nat, nbytes0: nat, descrAddr: nat,
                                sideband: Word, app: App)
      returns (ring: Ring)
      requires align > 0 && BlkSize() > 0
      ensures ring.NoRing? <==> nbytes0 == 0 && arrayBytes + BlkSize() <= start
      ensures ring.NoRing? <==> Bytes(arrayBytes, start, nbytes0) + BlkSize() <= 0
      ensures ring.Ring? ==>
        ring.layout.nbytes == if nbytes0 > 0 then nbytes0 else if start < arrayBytes then arrayBytes - start else 0
      ensures ring.Ring? ==> fresh(ring.descr)
      ensures ring.Ring? ==>
        var bytes := Bytes(arrayBytes, start, nbytes0);
        && ring.layout == Layout(descrAddr, arrayAddr + start, if bytes < 0 then 0 else bytes, BlkSize(), ring.layout.count)
        && ring.layout.Valid() && ring.layout.Laid(ring.descr[..], direction)
        && ring.tailAddr == descrAddr + (ring.layout.count - 1) * 64
        && AllFilled(ring.descr[..], ring.layout, direction, sideband, app, ring.layout.count)
      ensures ring.Ring? ==> forall i :: 0 <= i < ring.layout.count ==>
        && i * 16 + 16 <= ring.descr.Length
        && ring.descr[i * 16 + 6] == (if direction == Tx then sideband else 0) && ring.descr[i * 16 + 7] == 0
        && ring.descr[i * 16 + 8..i * 16 + 13] == [app.app0, app.app1, app.app2, app.app3, app.app4]
    {
      var nbytes: int := nbytes0;
      if nbytes == 0 {
        nbytes := arrayBytes - start;
      }
      var blkSize := BlkSize();
      var numDescr := (nbytes + blkSize - 1) / blkSize;
      CountOf(nbytes, blkSize);
      if numDescr < 0 {
        return NoRing;
      }
      var descSize := DescriptorSize();
      var tailAddr := descrAddr + (numDescr - 1) * descSize;
      var layout := Layout(descrAddr, arrayAddr + start, if nbytes < 0 then 0 else nbytes, blkSize, numDescr);
      hide AllFilled, Layout.Laid;
      var descr := FillRing(layout, arrayAddr, start, sideband, app);
      ring := Ring(descr, tailAddr, layout);
    }

    /** Every word that is written, slot by slot: the two words of each address, control, sideband
        and status, and the application words. */
    method FillRing(layout: Layout, arrayAddr: nat, start: nat, sideband: Word, app: App) returns (descr: array<Word>)
      requires layout.Valid() && arrayAddr + start == layout.address
      ensures fresh(descr) && descr.Length == layout.count * 16 && layout.Laid(descr[..], direction)
      ensures AllFilled(descr[..], layout, direction, sideband, app, layout.count)
      ensures forall i :: 0 <= i < layout.count ==>
        && i * 16 + 16 <= descr.Length
        && descr[i * 16 + 6] == (if direction == Tx then sideband else 0) && descr[i * 16 + 7] == 0
        && descr[i * 16 + 8..i * 16 + 13] == [app.app0, app.app1, app.app2, app.app3, app.app4]
      ensures forall i :: 0 <= i < layout.count ==>
        var next, address := layout.base + (i + 1) % layout.count * 64, layout.address + i * layout.blk;
        && i * 16 + 16 <= descr.Length
        && descr[i * 16] == next % 0x1_0000_0000 && descr[i * 16 + 1] == next / 0x1_0000_0000 % 0x1_0000_0000
        && descr[i * 16 + 2] == address % 0x1_0000_0000 && descr[i * 16 + 3] == address / 0x1_0000_0000 % 0x1_0000_0000
        && descr[i * 16 + 5] == ControlOf(layout, i, direction)
    {
      descr := new Word[layout.count * 16];
      var remain := layout.nbytes;
      assert layout.Rest(0) == remain;
      hide Layout.Laid, Layout.Rest, Layout.Valid, AllRead, AllFilled;
      NoneFilled(descr[..], layout, direction, sideband, app);
      for i := 0 to layout.count
        invariant remain == layout.Rest(i)
        invariant AllRead(descr[..], layout, direction, i) && AllFilled(descr[..], layout, direction, sideband, app, i)
      {
        var d;
        ghost var remain0 := remain;
        d, remain := NextDescriptor(i, layout, arrayAddr, start, remain, sideband, app);
        ghost var before := descr[..];
        assert i * 16 + 16 <= descr.Length;
        DumpToBuffer(d, descr, i * 16);
        SlotAdded(before, descr[..], i, d, layout, direction);
        SlotFilled(before, descr[..], i, d, layout, direction, sideband, app, remain0);
      }
      RingFilled(descr, layout, direction, sideband, app);
    }
  }

  /** The ring, the address of its last descriptor, and how it cuts the bytes. */
  datatype Ring = NoRing | Ring(descr: array<Word>, tailAddr: int, layout: Layout)

  lemma CountOf(nbytes: int, blk: nat)
    requires blk > 0
    ensures (nbytes + blk - 1) / blk < 0 <==> nbytes + blk <= 0
    ensures nbytes < 0 && (nbytes + blk - 1) / blk >= 0 ==> (nbytes + blk - 1) / blk == 0 == (blk - 1) / blk
  {
    var q, r := (nbytes + blk - 1) / blk, (nbytes + blk - 1) % blk;
    assert nbytes + blk - 1 == q * blk + r && 0 <= r < blk;
    if q < 0 { assert q * blk + blk <= 0; }
    if q > 0 { assert q * blk >= blk; }
  }

  /** The descriptor at address `a`. */
  function Fetch(buf: seq<Word>, base: nat, a: nat): Descriptor
    requires base <= a && (a - base) / 4 + 16 <= |buf|
  {
    Read(buf, (a - base) / 4)
  }

  /** The engine at address `a` follows `n` next pointers. */
  ghost predicate Follows(buf: seq<Word>, base: nat, a: nat, n: nat, a': nat)
    decreases n
  {
    if n == 0 then a == a'
    else base <= a && (a - base) / 4 + 16 <= |buf| && Follows(buf, base, Fetch(buf, base, a).next, n - 1, a')
  }

  /** What the engine needs: 64-bit addresses. */
  ghost predicate Addressable(l: Layout) {
    l.base + l.count * 64 <= 0x1_0000_0000_0000_0000 && l.address + l.nbytes <= 0x1_0000_0000_0000_0000
  }

  lemma FetchSlot(l: Layout, buf: seq<Word>, direction: Direction, i: nat)
    requires l.Laid(buf, direction) && i < l.count
    ensures l.base + i * 64 >= l.base && (l.base + i * 64 - l.base) / 4 + 16 <= |buf|
    ensures Fetch(buf, l.base, l.base + i * 64) == l.Expected(i, direction)
  {
    hide Read, Layout.Expected;
    assert (l.base + i * 64 - l.base) / 4 == i * 16;
  }

  /** From the base the engine comes to slot after slot, and from the last one back. */
  lemma {:induction false} RingWalk(l: Layout, buf: seq<Word>, direction: Direction, i: nat, n: nat)
    requires l.Laid(buf, direction) && Addressable(l) && i < l.count && i + n <= l.count
    ensures Follows(buf, l.base, l.base + i * 64, n, l.base + (if i + n == l.count then 0 else (i + n) * 64))
    decreases n
  {
    hide Layout.Laid, Layout.Expected, Fetch, Addressable;
    if n > 0 {
      FetchSlot(l, buf, direction, i);
      NextSlot(l, direction, i);
      if i + 1 < l.count {
        RingWalk(l, buf, direction, i + 1, n - 1);
      }
    }
  }

  lemma NextIndex(i: nat, count: nat)
    requires i < count
    ensures (i + 1) % count == if i + 1 == count then 0 else i + 1
  {
  }

  lemma NextSlot(l: Layout, direction: Direction, i: nat)
    requires Addressable(l) && i < l.count
    ensures l.Expected(i, direction).next == l.base + (if i + 1 == l.count then 0 else (i + 1) * 64)
  {
    NextIndex(i, l.count);
    assert l.Next(i) == if i + 1 == l.count then 0 else i + 1;
    assert l.SlotAddress(l.Next(i)) < 0x1_0000_0000_0000_0000;
    hide Layout.Next, Layout.Offset, Layout.Length, Layout.SlotAddress;
  }

  lemma CountBounds(l: Layout)
    requires l.Valid() && l.nbytes > 0
    ensures l.count > 0 && (l.count - 1) * l.blk < l.nbytes <= l.count * l.blk
  {
    var a := l.nbytes + l.blk - 1;
    assert a == l.count * l.blk + a % l.blk;
    assert (l.count - 1) * l.blk == l.count * l.blk - l.blk;
  }

  lemma BlockBounds(l: Layout, i: nat)
    requires l.Valid() && l.nbytes > 0 && i < l.count
    ensures l.Offset(i) < l.nbytes && 1 <= l.Length(i) <= l.blk
    ensures l.Offset(0) == 0 && l.Offset(i + 1) == l.Offset(i) + l.blk
    ensures if i + 1 < l.count then l.Length(i) == l.blk else l.Length(i) == l.nbytes - l.Offset(i)
  {
    CountBounds(l);
    l.RestNext(i);
    Monotone(i, l.count - 1, l.blk);
    if i + 1 < l.count { Monotone(i + 1, l.count - 1, l.blk); }
    assert (i + 1) * l.blk == i * l.blk + l.blk;
  }

  lemma Monotone(a: nat, b: nat, m: nat)
    requires a <= b
    ensures a * m <= b * m
  {
  }

  lemma Fits(address: nat, length: nat)
    requires address < 0x1_0000_0000_0000_0000 && length < 0x400_0000
    ensures Low64(address) == address && Low26(length) == length
  {
  }

  lemma BlockRead(l: Layout, buf: seq<Word>, i: nat)
    requires l.Valid() && l.Laid(buf, Tx) && Addressable(l) && l.nbytes > 0 && i < l.count
    requires l.nbytes < 0x400_0000 || l.blk < 0x400_0000
    ensures |buf| == l.count * 16 && i * 16 + 16 <= |buf|
    ensures Read(buf, i * 16) ==
            Descriptor(l.Expected(i, Tx).next, l.address + l.Offset(i), i == 0, i == l.count - 1, l.Length(i))
  {
    BlockBounds(l, i);
    SlotRead(l, buf, i);
    hide Read, Low64, Low26;
    Fits(l.address + l.Offset(i), l.Length(i));
    hide Layout.Offset, Layout.Length, Layout.Next, Layout.Laid, Layout.Valid;
  }

  lemma SlotRead(l: Layout, buf: seq<Word>, i: nat)
    requires l.Valid() && l.Laid(buf, Tx) && i < l.count
    ensures |buf| == l.count * 16 && i * 16 + 16 <= |buf| && Read(buf, i * 16) == l.Expected(i, Tx)
  {
    hide Read, Layout.Expected;
  }

  /** The blocks that the engine reads cover the bytes without gap or overlap, in the order of
      the ring; just the first starts a frame and just the last ends it. */
  lemma RingTiles(l: Layout, buf: seq<Word>, i: nat)
    requires l.Valid() && l.Laid(buf, Tx) && Addressable(l) && l.nbytes > 0 && i < l.count
    requires l.nbytes < 0x400_0000 || l.blk < 0x400_0000
    ensures |buf| == l.count * 16 && i * 16 + 16 <= |buf|
    ensures var d := Read(buf, i * 16);
            && 1 <= d.length <= l.blk
            && (i == 0 ==> d.address == l.address)
            && (if i + 1 < l.count
                then (i + 1) * 16 + 16 <= |buf| && Read(buf, (i + 1) * 16).address == d.address + d.length
                else d.address + d.length == l.address + l.nbytes)
            && (d.sof <==> i == 0) && (d.eof <==> i == l.count - 1)
  {
    BlockRead(l, buf, i);
    BlockBounds(l, i);
    if i + 1 < l.count { BlockRead(l, buf, i + 1); }
    hide *;
  }

  /** The engine reads the intended lengths if and only if the first block's length fits its
      field.  With the largest block size the driver can be configured for, 2^26, a full block
      is read as empty. */
  lemma LengthsReadIff(l: Layout, direction: Direction)
    requires l.Valid() && l.nbytes > 0
    ensures (forall i :: 0 <= i < l.count ==> l.Expected(i, direction).length == l.Length(i))
            <==> (l.nbytes < 0x400_0000 || l.blk < 0x400_0000)
  {
    CountBounds(l);
    LengthField(l, direction, 0);
    LengthFits(l.Length(0));
    hide *;
    forall i | 0 <= i < l.count && l.Length(0) < 0x400_0000
      ensures l.Expected(i, direction).length == l.Length(i)
    {
      LengthField(l, direction, i);
      LengthFits(l.Length(i));
    }
  }

  lemma LengthFits(length: nat)
    ensures Low26(length) == length <==> length < 0x400_0000
  {
  }

  lemma LengthField(l: Layout, direction: Direction, i: nat)
    requires l.Valid() && l.nbytes > 0 && i < l.count
    ensures l.Length(i) <= l.Length(0) == (if l.nbytes > l.blk then l.blk else l.nbytes)
    ensures l.Expected(i, direction).length == Low26(l.Length(i))
  {
    BlockBounds(l, 0);
    BlockBounds(l, i);
  }
}
