/** Physical memory. Every frame is used whole, either as a table of 512 entries or as a page of
    4096 bytes, and is written whole when it changes use; the two views are two arrays. */
module PhysMem {
  import opened Tiny
  import opened PageTables

  type Bytes = s: seq<byte> | |s| == 4096 witness seq(4096, _ => 0)

  function ZeroBytes(): Bytes
  {
    seq(4096, _ => 0)
  }

  /** Page `p` with `b` from offset `i` on. */
  function Overlay(p: Bytes, i: nat, b: seq<byte>): (r: Bytes)
    requires i + |b| <= 4096
  {
    seq(4096, k requires 0 <= k < 4096 => if i <= k < i + |b| then b[k - i] else p[k])
  }

  class Ram {
    const size: nat
    const tabs: array2<Pte>
    const bytes: array2<byte>
    ghost var m: Mem
    ghost var data: seq<Bytes>

    ghost predicate Valid()
      reads this, tabs, bytes
    {
      && |m| == |data| == size && tabs as object != bytes as object
      && tabs.Length0 == size && tabs.Length1 == 512
      && bytes.Length0 == size && bytes.Length1 == 4096
      && (forall f, i {:trigger tabs[f, i]} :: 0 <= f < size && 0 <= i < 512 ==> tabs[f, i] == m[f][i])
      && (forall f, i {:trigger bytes[f, i]} :: 0 <= f < size && 0 <= i < 4096 ==> bytes[f, i] == data[f][i])
    }

    constructor (size: nat)
      ensures Valid() && this.size == size && fresh(tabs) && fresh(bytes)
    {
      this.size := size;
      tabs := new Pte[size, 512]((_, _) => ZERO);
      bytes := new byte[size, 4096]((_, _) => 0);
      m := seq(size, _ => EmptyTable());
      data := seq(size, _ => ZeroBytes());
    }

    method Read(f: nat, i: nat) returns (e: Pte)
      requires Valid() && f < size && i < 512
      ensures e == m[f][i]
    {
      e := tabs[f, i];
    }

    method Write(f: nat, i: nat, e: Pte)
      requires Valid() && f < size && i < 512
      modifies this`m, tabs
      ensures Valid() && m == Poke(old(m), f, i, e)
    {
      tabs[f, i] := e;
      m := Poke(m, f, i, e);
    }

    /** memset of a frame that becomes a table. */
    method ZeroTable(f: nat)
      requires Valid() && f < size
      modifies this`m, tabs
      ensures Valid() && m == old(m)[f := EmptyTable()]
    {
      var i := 0;
      while i < 512
        invariant i <= 512 && Valid()
        invariant m == old(m)[f := m[f]]
        invariant forall j :: 0 <= j < i ==> m[f][j] == ZERO
      {
        Write(f, i, ZERO);
        i := i + 1;
      }
      assert m[f] == EmptyTable();
    }

    method WriteByte(f: nat, i: nat, b: byte)
      requires Valid() && f < size && i < 4096
      modifies this`data, bytes
      ensures Valid() && data == old(data)[f := old(data)[f][i := b]]
    {
      bytes[f, i] := b;
      data := data[f := data[f][i := b]];
    }

    /** memset of a frame that becomes a page. */
    method ZeroPage(f: nat)
      requires Valid() && f < size
      modifies this`data, bytes
      ensures Valid() && data == old(data)[f := ZeroBytes()]
    {
      var i := 0;
      while i < 4096
        invariant i <= 4096 && Valid()
        invariant data == old(data)[f := data[f]]
        invariant forall j :: 0 <= j < i ==> data[f][j] == 0
      {
        WriteByte(f, i, 0);
        i := i + 1;
      }
      assert data[f] == ZeroBytes();
    }

    /** memcpy of bytes into one page. */
    method WriteBytes(f: nat, i: nat, b: seq<byte>)
      requires Valid() && f < size && i + |b| <= 4096
      modifies this`data, bytes
      ensures Valid() && data == old(data)[f := Overlay(old(data)[f], i, b)]
    {
      var k := 0;
      assert Overlay(data[f], i, []) == data[f];
      while k < |b|
        invariant k <= |b| && Valid()
        invariant data == old(data)[f := Overlay(old(data)[f], i, b[..k])]
      {
        WriteByte(f, i + k, b[k]);
        assert Overlay(old(data)[f], i, b[..k + 1]) == Overlay(old(data)[f], i, b[..k])[i + k := b[k]];
        k := k + 1;
      }
      assert b[..k] == b;
    }

    /** memcpy of one whole page. */
    method CopyPage(to: nat, from: nat)
      requires Valid() && to < size && from < size && to != from
      modifies this`data, bytes
      ensures Valid() && data == old(data)[to := old(data)[from]]
    {
      var i := 0;
      while i < 4096
        invariant i <= 4096 && Valid()
        invariant data == old(data)[to := data[to]]
        invariant forall j :: 0 <= j < i ==> data[to][j] == data[from][j]
      {
        var b := bytes[from, i];
        WriteByte(to, i, b);
        i := i + 1;
      }
      assert data[to] == data[from];
    }
  }
}
