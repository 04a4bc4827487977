/** The string class with room for short contents in the object itself. */
module SmallStrings {

  type Byte = b: nat | b < 256

  /** The capacity is doubled, in 32 bits; if that is not enough it is made to fit. */
  function NextCapacity(capacity: nat, total: nat): (c: nat)
    requires total + 1 < 0x1_0000_0000
    ensures total < c < 0x1_0000_0000
  {
    var doubled := capacity * 2 % 0x1_0000_0000;
    if doubled <= total then total + 1 else doubled
  }

  method Memcpy(dst: array<Byte>, at: nat, src: array<Byte>, n: nat)
    requires dst != src && at + n <= dst.Length && n <= src.Length
    modifies dst
    ensures dst[at..at + n] == src[..n]
    ensures forall i :: 0 <= i < dst.Length && !(at <= i < at + n) ==> dst[i] == old(dst[i])
  {
    for i := 0 to n
      invariant forall k :: 0 <= k < i ==> dst[at + k] == src[k]
      invariant forall k :: 0 <= k < dst.Length && !(at <= k < at + i) ==> dst[k] == old(dst[k])
    {
      dst[at + i] := src[i];
    }
  }

  /** `buf` and the view (`ptr`, `dataSize`, `dataCapacity`) are members of a union.  Writing
      the view leaves the first 16 bytes of `buf` undefined, and writing `buf` the view; the last
      byte of `buf`, which says which of them is in use, lies behind the view. */
  class String {
    const buf: array<Byte>
    var ptr: array?<Byte>
    var dataSize: nat
    var dataCapacity: nat

    predicate IsOnStack()
      requires buf.Length == 24
      reads buf
    {
      buf[23] < 128
    }

    function Size(): int
      requires buf.Length == 24
      reads this, buf
    {
      if IsOnStack() then 23 - buf[23] % 32 else dataSize
    }

    function Capacity(): nat
      requires buf.Length == 24
      reads this, buf
    {
      if IsOnStack() then 24 else dataCapacity
    }

    ghost function Memory(): set<object>
      reads this
    {
      {this, buf} + if ptr == null then {} else {ptr}
    }

    /** The contents end in a null within the capacity. */
    ghost predicate Valid()
      reads this, Memory()
    {
      && buf.Length == 24
      && if IsOnStack() then
           ptr == null && buf[23] <= 23 && buf[23 - buf[23]] == 0
         else
           && ptr != null && ptr != buf && dataSize < dataCapacity == ptr.Length < 0x1_0000_0000
           && dataSize > 23 && ptr[dataSize] == 0
    }

    ghost function Contents(): (s: seq<Byte>)
      requires Valid()
      reads this, Memory()
      ensures |s| == Size() < Capacity() && (IsOnStack() <==> |s| <= 23)
    {
      if IsOnStack() then buf[..23 - buf[23]] else ptr[..dataSize]
    }

    constructor ()
      ensures Valid() && Contents() == [] && fresh(Memory())
    {
      buf := new Byte[24];
      ptr, dataSize, dataCapacity := null, 0, 0;
      new;
      buf[0] := 0;
      SetLast(23);
    }

    constructor FromBytes(src: array<Byte>, n: nat)
      requires n <= src.Length && n + 1 < 0x1_0000_0000
      ensures Valid() && Contents() == src[..n] && fresh(Memory())
    {
      buf := new Byte[24];
      ptr, dataSize, dataCapacity := null, 0, 0;
      new;
      var p := Allocate(n);
      Memcpy(p, 0, src, n);
      assert p[..n] == src[..n];
    }

    constructor CopyOf(other: String)
      requires other.Valid()
      ensures Valid() && Contents() == other.Contents() && fresh(Memory())
    {
      buf := new Byte[24];
      ptr, dataSize, dataCapacity := null, 0, 0;
      new;
      Copy(other);
    }

    constructor MoveOf(other: String)
      requires other.Valid()
      modifies other, other.buf
      ensures Valid() && Contents() == old(other.Contents())
      ensures other.Valid() && other.Contents() == [] && Memory() !! other.Memory()
      ensures fresh(Memory() - old(other.Memory())) && other.Memory() <= old(other.Memory())
    {
      buf := new Byte[24];
      ptr, dataSize, dataCapacity := null, 0, 0;
      new;
      Take(other);
    }

    method SetLast(n: nat)
      requires buf.Length == 24 && n <= 23
      modifies buf
      ensures buf[23] == n && forall i :: 0 <= i < 23 ==> buf[i] == old(buf[i])
    {
      buf[23] := n;
    }

    /** The view comes into use. */
    method SetView(ptr: array<Byte>, size: nat, capacity: nat)
      requires buf.Length == 24
      modifies this, buf
      ensures this.ptr == ptr && dataSize == size && dataCapacity == capacity && !IsOnStack()
    {
      buf[23] := 128;
      for i := 0 to 16
        invariant buf[23] == 128
      {
        buf[i] := *;
      }
      this.ptr, dataSize, dataCapacity := ptr, size, capacity;
    }

    /** `buf` comes into use. */
    method DropView()
      modifies `ptr, `dataSize, `dataCapacity
      ensures ptr == null
    {
      ptr := null;
      dataSize, dataCapacity := *, *;
    }

    /** Room for `sz` bytes, with the null behind them. */
    method Allocate(sz: nat) returns (p: array<Byte>)
      requires buf.Length == 24 && sz + 1 < 0x1_0000_0000
      modifies this, buf
      ensures Valid() && Size() == sz
      ensures p == (if IsOnStack() then buf else ptr) && (IsOnStack() <==> sz <= 23)
      ensures !IsOnStack() ==> fresh(p) && dataCapacity == sz + 1
    {
      if sz <= 23 {
        DropView();
        buf[sz] := 0;
        SetLast(23 - sz);
        p := buf;
      } else {
        p := new Byte[sz + 1];
        SetView(p, sz, sz + 1);
        p[sz] := 0;
      }
    }

    method Copy(other: String)
      requires buf.Length == 24 && other.Valid() && {this, buf} !! other.Memory()
      modifies this, buf
      ensures Valid() && Contents() == old(other.Contents())
      ensures fresh(Memory() - {this, buf}) && (!IsOnStack() ==> dataCapacity == |Contents()| + 1)
    {
      if other.IsOnStack() {
        DropView();
        Memcpy(buf, 0, other.buf, 24);
        assert buf[..24] == other.buf[..24];
        assert buf[..24][23] == other.buf[..24][23];
      } else {
        var p := Allocate(other.dataSize);
        Memcpy(p, 0, other.ptr, other.dataSize);
        assert p[..dataSize] == other.ptr[..dataSize];
      }
    }

    /** The union is copied as it is, and `other` becomes the empty string. */
    method Take(other: String)
      requires buf.Length == 24 && other.Valid() && {this, buf} !! other.Memory()
      modifies this, buf, other, other.buf
      ensures Valid() && Contents() == old(other.Contents())
      ensures other.Valid() && other.Contents() == [] && Memory() !! other.Memory()
      ensures Memory() - {this, buf} <= old(other.Memory()) && other.Memory() <= old(other.Memory())
    {
      Memcpy(buf, 0, other.buf, 24);
      assert buf[..24] == other.buf[..24];
      assert forall i :: 0 <= i < 24 ==> buf[i] == buf[..24][i] == other.buf[i];
      ptr, dataSize, dataCapacity := other.ptr, other.dataSize, other.dataCapacity;
      other.DropView();
      other.buf[0] := 0;
      other.SetLast(23);
    }

    method Assign(other: String)
      requires Valid() && other.Valid() && (this != other ==> Memory() !! other.Memory())
      modifies Memory()
      ensures Valid() && Contents() == old(other.Contents())
      ensures fresh(Memory() - old(Memory()))
    {
      if this != other {
        Copy(other);
      }
    }

    method MoveAssign(other: String)
      requires Valid() && other.Valid() && (this != other ==> Memory() !! other.Memory())
      modifies Memory(), other.Memory()
      ensures Valid() && Contents() == old(other.Contents())
      ensures this != other ==> other.Valid() && other.Contents() == [] && Memory() !! other.Memory()
      ensures Memory() <= old(Memory()) + old(other.Memory())
    {
      if this != other {
        Take(other);
      }
    }

    /** `other` is a different string. */
    method Append(other: String)
      requires Valid() && other.Valid() && Memory() !! other.Memory()
      requires |Contents()| + |other.Contents()| + 1 < 0x1_0000_0000
      modifies Memory()
      ensures Valid() && Contents() == old(Contents()) + other.Contents()
      ensures fresh(Memory() - old(Memory()))
      ensures var doubled, size := old(dataCapacity) * 2 % 0x1_0000_0000, |Contents()|;
              !IsOnStack() ==>
                dataCapacity == if old(IsOnStack()) then size + 1
                                else if old(dataCapacity) > size then old(dataCapacity)
                                else if doubled > size then doubled else size + 1
    {
      if IsOnStack() && Size() + other.Size() < 24 {
        AppendInBuffer(other);
      } else if IsOnStack() {
        MoveToHeap(other);
      } else if dataCapacity > Size() + other.Size() {
        AppendOnHeap(other);
      } else {
        Grow(other);
      }
    }

    function CStr(): array<Byte>
      requires Valid()
      reads this, Memory()
    {
      if IsOnStack() then buf else ptr
    }

    method AppendInBuffer(other: String)
      requires Valid() && other.Valid() && Memory() !! other.Memory()
      requires IsOnStack() && Size() + other.Size() < 24
      modifies buf
      ensures Valid() && ptr == null && Contents() == old(Contents()) + other.Contents()
    {
      var oldSize, otherSize := Size(), other.Size();
      var total := oldSize + otherSize;
      ghost var mine, its := Contents(), other.Contents();
      Memcpy(buf, oldSize, other.CStr(), otherSize + 1);
      assert buf[..oldSize] == mine && other.CStr()[..otherSize] == its;
      JoinedBytes(buf, oldSize, other.CStr(), otherSize);
      ghost var joined := buf[..total];
      assert total < 23 ==> buf[total] == 0;
      SetLast(23 - total);
      assert buf[..total] == joined;
    }

    method MoveToHeap(other: String)
      requires Valid() && other.Valid() && Memory() !! other.Memory()
      requires IsOnStack() && Size() + other.Size() >= 24 && Size() + other.Size() + 1 < 0x1_0000_0000
      modifies this, buf
      ensures Valid() && fresh(ptr) && Contents() == old(Contents()) + other.Contents()
      ensures dataCapacity == |Contents()| + 1
    {
      var oldSize, otherSize := Size(), other.Size();
      var total := oldSize + otherSize;
      ghost var mine, its := Contents(), other.Contents();
      var temp := new Byte[total + 1];
      Memcpy(temp, 0, buf, oldSize);
      assert temp[..oldSize] == mine;
      SetView(temp, total, total + 1);
      Memcpy(temp, oldSize, other.CStr(), otherSize + 1);
      assert temp[..oldSize] == mine && other.CStr()[..otherSize] == its;
      JoinedBytes(temp, oldSize, other.CStr(), otherSize);
    }

    method AppendOnHeap(other: String)
      requires Valid() && other.Valid() && Memory() !! other.Memory()
      requires !IsOnStack() && dataCapacity > Size() + other.Size()
      modifies this, ptr
      ensures Valid() && ptr == old(ptr) && Contents() == old(Contents()) + other.Contents()
      ensures dataCapacity == old(dataCapacity)
    {
      var oldSize, otherSize := Size(), other.Size();
      dataSize := oldSize + otherSize;
      Memcpy(ptr, oldSize, other.CStr(), otherSize + 1);
      assert ptr[..oldSize] == old(ptr[..oldSize]);
      JoinedBytes(ptr, oldSize, other.CStr(), otherSize);
    }

    method Grow(other: String)
      requires Valid() && other.Valid() && Memory() !! other.Memory()
      requires !IsOnStack() && dataCapacity <= Size() + other.Size() && Size() + other.Size() + 1 < 0x1_0000_0000
      modifies this
      ensures Valid() && fresh(ptr) && Contents() == old(Contents()) + other.Contents()
      ensures var doubled, size := old(dataCapacity) * 2 % 0x1_0000_0000, old(Size()) + other.Size();
              dataCapacity == if doubled > size then doubled else size + 1
    {
      var oldSize, otherSize := Size(), other.Size();
      var total := oldSize + otherSize;
      dataCapacity := NextCapacity(dataCapacity, total);
      var temp := new Byte[dataCapacity];
      assert ptr[..oldSize] == old(Contents()) && other.CStr()[..otherSize] == other.Contents();
      CopyBoth(temp, ptr, oldSize, other.CStr(), otherSize);
      ptr, dataSize := temp, total;
    }
  }

  /** `operator+`: `lhs` and `rhs` may be the same string. */
  method Concat(lhs: String, rhs: String) returns (s: String)
    requires lhs.Valid() && rhs.Valid() && |lhs.Contents()| + |rhs.Contents()| + 1 < 0x1_0000_0000
    ensures s.Valid() && fresh(s.Memory()) && s.Contents() == lhs.Contents() + rhs.Contents()
  {
    s := new String.CopyOf(lhs);
    s.Append(rhs);
  }

  /** The first `n` bytes of `a`, and behind them `m` bytes of `b` and their null. */
  method CopyBoth(dst: array<Byte>, a: array<Byte>, n: nat, b: array<Byte>, m: nat)
    requires dst != a && dst != b && n + m + 1 <= dst.Length && n <= a.Length && m < b.Length
    modifies dst
    ensures dst[..n + m] == a[..n] + b[..m] && dst[n + m] == b[m]
  {
    Memcpy(dst, 0, a, n);
    ghost var first := dst[..n];
    assert first == a[..n];
    Memcpy(dst, n, b, m + 1);
    assert dst[..n] == first;
    JoinedBytes(dst, n, b, m);
  }

  lemma JoinedBytes(p: array<Byte>, n: nat, q: array<Byte>, m: nat)
    requires n + m + 1 <= p.Length && m < q.Length && p[n..n + (m + 1)] == q[..m + 1]
    ensures p[..n + m] == p[..n] + q[..m] && p[n + m] == q[m]
  {
    assert p[n + m] == p[n..n + (m + 1)][m] == q[..m + 1][m];
    assert forall i :: 0 <= i < m ==> p[n + i] == p[n..n + (m + 1)][i] == q[..m + 1][i] == q[i];
  }
}
