/** The circular buffer, refining a FIFO of bytes. */
module CircBuffers {
  import opened Arith
  import opened Modular
  import opened Bytes

  const MAX_CBUF_SIZE := 100_000_000

  class CircBuffer {
    var size: nat
    var readpos: nat
    var writepos: nat
    var used: nat
    var data: array<Byte>

    /** The bytes stored, oldest first. */
    ghost var contents: seq<Byte>

    ghost predicate Valid()
      reads this, data
    {
      && data.Length == size && used <= size && readpos <= size
      && (size > 0 ==> readpos < size)
      && writepos == Behind(size, readpos, used)
      && contents == Window(data[..], readpos, used)
    }

    constructor (size: nat)
      requires size <= MAX_CBUF_SIZE
      ensures Valid() && fresh(data) && this.size == size && contents == []
    {
      this.size := size;
      data := new Byte[size](_ => 0);
      used, readpos, writepos := 0, 0, 0;
      contents := [];
    }

    /** cbuf_readlen: the longest run readable without wrapping; its assertions never fire. */
    method ReadLen() returns (n: nat)
      requires Valid() && size > 0
      ensures n == Min(used, size - readpos)
    {
      ModPositions();
      assert (2 * size + writepos - readpos) % size == used % size;
      assert (2 * size + readpos - writepos) % size == (size - used) % size;
      if used == 0 { return 0; }
      if readpos < writepos { return writepos - readpos; }
      return size - readpos;
    }

    /** cbuf_writelen: the longest run writable without wrapping. */
    method WriteLen() returns (n: nat)
      requires Valid() && size > 0
      ensures n == Min(size - used, size - writepos)
    {
      ModPositions();
      assert (2 * size + writepos - readpos) % size == used % size;
      assert (2 * size + readpos - writepos) % size == (size - used) % size;
      if used == size { return 0; }
      if writepos < readpos { return readpos - writepos; }
      return size - writepos;
    }

    /** The two positions differ by the bytes used, modulo the size, from either side. */
    lemma ModPositions()
      requires Valid() && size > 0
      ensures (2 * size + writepos - readpos) % size == used % size
      ensures (2 * size + readpos - writepos) % size == (size - used) % size
    {
      if readpos + used < size {
        CongFrom(2 * size + writepos - readpos, used, size, 2);
        CongFrom(2 * size + readpos - writepos, size - used, size, 1);
      } else {
        CongFrom(2 * size + writepos - readpos, used, size, 1);
        CongFrom(2 * size + readpos - writepos, size - used, size, 2);
      }
    }

    /** cbuf_writeptr and the copy behind it, into space that is not in use; false where the source exits. */
    method Fill(bytes: seq<Byte>) returns (ok: bool)
      requires Valid() && size > 0
      modifies data
      ensures Valid() && ok == (|bytes| <= Min(size - used, size - writepos))
      ensures ok ==> data[..][writepos..writepos + |bytes|] == bytes
    {
      var room := WriteLen();
      if |bytes| > room { return false; }
      ghost var d := data[..];
      CopyIn(data, writepos, bytes);
      WindowKept(d, data[..], readpos, used, writepos, bytes);
      return true;
    }

    /** cbuf_incrwrite: the bytes that have been copied are in use; false where the source exits. */
    method IncrWrite(n: nat, ghost bytes: seq<Byte>) returns (ok: bool)
      requires Valid() && size > 0 && |bytes| == n && (writepos + n <= size ==> data[..][writepos..writepos + n] == bytes)
      modifies this`used, this`writepos, this`contents
      ensures Valid() && ok == (n <= old(Min(size - used, size - writepos)))
      ensures ok ==> contents == old(contents) + bytes && used == old(used) + n
      ensures ok ==> writepos == if old(writepos) + n == size then 0 else old(writepos) + n
      ensures !ok ==> contents == old(contents)
    {
      var room := WriteLen();
      if n > room { return false; }
      ghost var d := data[..];
      Grown(d, readpos, used, writepos, bytes);
      var next := Advance(writepos + n, size);
      used, writepos, contents := used + n, next, contents + bytes;
      return true;
    }

    /** All three in turn. */
    method Write(bytes: seq<Byte>) returns (ok: bool)
      requires Valid() && size > 0
      modifies this`used, this`writepos, this`contents, data
      ensures Valid() && ok == (|bytes| <= old(Min(size - used, size - writepos)))
      ensures ok ==> contents == old(contents) + bytes && used == old(used) + |bytes|
      ensures ok ==> writepos == if old(writepos) + |bytes| == size then 0 else old(writepos) + |bytes|
      ensures !ok ==> contents == old(contents)
    {
      ok := Fill(bytes);
      if ok { ok := IncrWrite(|bytes|, bytes); }
    }

    /** cbuf_readptr: the oldest bytes, where they stand. */
    method ReadPtr(n: nat) returns (ok: bool, bytes: seq<Byte>)
      requires Valid() && size > 0
      ensures ok == (n <= Min(used, size - readpos))
      ensures ok ==> bytes == contents[..n]
    {
      var avail := ReadLen();
      if n > avail { return false, []; }
      bytes := data[readpos..readpos + n];
      WindowShrinks(data[..], readpos, used, n);
      return true, bytes;
    }

    /** cbuf_incrread: they are gone; false where the source exits. */
    method IncrRead(n: nat) returns (ok: bool)
      requires Valid() && size > 0
      modifies this`used, this`readpos, this`contents
      ensures Valid() && ok == (n <= old(Min(used, size - readpos)))
      ensures contents == if ok then old(contents)[n..] else old(contents)
    {
      var avail := ReadLen();
      if n > avail { return false; }
      WindowShrinks(data[..], readpos, used, n);
      contents := contents[n..];
      used := used - n;
      readpos := Advance(readpos + n, size);
      return true;
    }
  }

  /** `used` bytes from readpos, wrapping at the end of the array. */
  function Window(d: seq<Byte>, readpos: nat, used: nat): (s: seq<Byte>)
    requires readpos <= |d| && used <= |d|
    ensures |s| == used
  {
    if readpos + used <= |d| then d[readpos..readpos + used] else d[readpos..] + d[..readpos + used - |d|]
  }

  /** Where the next byte goes. */
  function Behind(size: nat, readpos: nat, used: nat): int {
    if readpos + used < size || size == 0 then readpos + used else readpos + used - size
  }

  /** Where the byte at offset k of the window is stored. */
  function Slot(size: nat, readpos: nat, k: nat): int {
    if readpos + k < size then readpos + k else readpos + k - size
  }

  lemma WindowAt(d: seq<Byte>, readpos: nat, used: nat, k: nat)
    requires readpos < |d| && k < used <= |d|
    ensures Window(d, readpos, used)[k] == d[Slot(|d|, readpos, k)]
  {}

  lemma Spliced(d: seq<Byte>, at: nat, bytes: seq<Byte>, j: nat)
    requires at + |bytes| <= |d| && j < |d|
    ensures (d[..at] + bytes + d[at + |bytes|..])[j] == if at <= j < at + |bytes| then bytes[j - at] else d[j]
  {}

  /** A copy behind the window leaves it alone. */
  lemma WindowKept(d: seq<Byte>, d': seq<Byte>, readpos: nat, used: nat, wp: nat, bytes: seq<Byte>)
    requires readpos < |d| && used + |bytes| <= |d| && wp + |bytes| <= |d|
    requires used < |d| ==> wp == Slot(|d|, readpos, used)
    requires d' == d[..wp] + bytes + d[wp + |bytes|..]
    ensures Window(d', readpos, used) == Window(d, readpos, used) && d'[wp..wp + |bytes|] == bytes
  {
    forall k | 0 <= k < used ensures Window(d', readpos, used)[k] == Window(d, readpos, used)[k] {
      WindowAt(d, readpos, used, k);
      WindowAt(d', readpos, used, k);
      SlotBeside(|d|, readpos, used, |bytes|, wp, k);
      Spliced(d, wp, bytes, Slot(|d|, readpos, k));
    }
  }

  /** The run behind the window extends it. */
  lemma WindowGrows(d: seq<Byte>, readpos: nat, used: nat, wp: nat, n: nat)
    requires readpos < |d| && used + n <= |d| && wp + n <= |d|
    requires used < |d| ==> wp == Slot(|d|, readpos, used)
    ensures Window(d, readpos, used + n) == Window(d, readpos, used) + d[wp..wp + n]
  {
    var s, t := Window(d, readpos, used + n), Window(d, readpos, used) + d[wp..wp + n];
    forall k | 0 <= k < used + n ensures s[k] == t[k] {
      WindowGrowsAt(d, readpos, used, wp, n, k);
    }
  }

  lemma WindowGrowsAt(d: seq<Byte>, readpos: nat, used: nat, wp: nat, n: nat, k: nat)
    requires readpos < |d| && used + n <= |d| && wp + n <= |d| && k < used + n
    requires used < |d| ==> wp == Slot(|d|, readpos, used)
    ensures Window(d, readpos, used + n)[k] == if k < used then Window(d, readpos, used)[k] else d[wp + (k - used)]
  {
    WindowAt(d, readpos, used + n, k);
    if k < used { WindowAt(d, readpos, used, k); } else { SlotBeside(|d|, readpos, used, n, wp, k); }
  }

  /** What incrementing the write position makes of both. */
  lemma Grown(d: seq<Byte>, readpos: nat, used: nat, wp: nat, bytes: seq<Byte>)
    requires readpos < |d| && used + |bytes| <= |d| && wp == Behind(|d|, readpos, used) && wp + |bytes| <= |d|
    requires d[wp..wp + |bytes|] == bytes
    ensures Window(d, readpos, used + |bytes|) == Window(d, readpos, used) + bytes
    ensures (if wp + |bytes| == |d| then 0 else wp + |bytes|) == Behind(|d|, readpos, used + |bytes|)
  {
    WindowGrows(d, readpos, used, wp, |bytes|);
    BehindAdvances(|d|, readpos, used, |bytes|);
  }

  lemma BehindAdvances(size: nat, readpos: nat, used: nat, n: nat)
    requires readpos < size && used + n <= size && Behind(size, readpos, used) + n <= size
    ensures var wp := Behind(size, readpos, used); (if wp + n == size then 0 else wp + n) == Behind(size, readpos, used + n)
  {
  }

  /** Slots in use lie beside the run behind the window, the rest in it. */
  lemma SlotBeside(size: nat, readpos: nat, used: nat, n: nat, wp: nat, k: nat)
    requires readpos < size && used + n <= size && wp + n <= size && k < used + n
    requires used < size ==> wp == Slot(size, readpos, used)
    ensures 0 <= Slot(size, readpos, k) < size
    ensures k < used ==> Slot(size, readpos, k) < wp || Slot(size, readpos, k) >= wp + n
    ensures k >= used ==> Slot(size, readpos, k) == wp + (k - used)
  {
  }

  lemma WindowShrinks(d: seq<Byte>, readpos: nat, used: nat, n: nat)
    requires readpos < |d| && n <= used <= |d| && readpos + n <= |d|
    ensures Window(d, readpos, used)
            == d[readpos..readpos + n] + Window(d, if readpos + n == |d| then 0 else readpos + n, used - n)
  {
    var readpos' := if readpos + n == |d| then 0 else readpos + n;
    var s, t := Window(d, readpos, used), d[readpos..readpos + n] + Window(d, readpos', used - n);
    forall k | 0 <= k < used ensures s[k] == t[k] {
      WindowAt(d, readpos, used, k);
      if k >= n { WindowAt(d, readpos', used - n, k - n); }
    }
  }

  /** A position advanced by a linear run, reduced modulo the size. */
  method Advance(x: nat, m: nat) returns (r: nat)
    requires 0 < m && x <= m
    ensures r == if x == m then 0 else x
  {
    if x == m { DivModUnique(x, m, 1, 0); } else { SmallMod(x, m); }
    r := x % m;
  }

  /** memcpy into the array at a position. */
  method CopyIn(a: array<Byte>, at: nat, bytes: seq<Byte>)
    requires at + |bytes| <= a.Length
    modifies a
    ensures a[..] == old(a[..])[..at] + bytes + old(a[..])[at + |bytes|..]
  {
    var i := 0;
    while i < |bytes|
      invariant 0 <= i <= |bytes|
      invariant forall j | 0 <= j < a.Length :: a[j] == if at <= j < at + i then bytes[j - at] else old(a[j])
    {
      a[at + i] := bytes[i];
      i := i + 1;
    }
  }

  /** The receive loop: a payload that fits goes in whole, in at most two passes. */
  method WriteAll(cbuf: CircBuffer, payload: seq<Byte>) returns (ok: bool, passes: nat)
    requires cbuf.Valid() && cbuf.size > 0 && |payload| <= cbuf.size - cbuf.used
    modifies cbuf, cbuf.data
    ensures cbuf.Valid() && cbuf.data == old(cbuf.data) && cbuf.size == old(cbuf.size)
    ensures ok && passes <= 2 && cbuf.contents == old(cbuf.contents) + payload
  {
    passes := 0;
    ok := true;
    var rest := payload;
    while rest != []
      invariant cbuf.Valid() && ok && cbuf.data == old(cbuf.data) && cbuf.size == old(cbuf.size)
      invariant cbuf.contents + rest == old(cbuf.contents) + payload
      invariant |rest| <= cbuf.size - cbuf.used
      invariant passes <= 1 || (passes == 2 && rest == [])
      invariant passes == 1 ==> rest == [] || cbuf.writepos == 0
      decreases |rest|
    {
      var buflen := cbuf.WriteLen();
      buflen := Min(buflen, |rest|);
      ghost var c := cbuf.contents;
      ok := cbuf.Write(rest[..buflen]);
      SplitAppend(c, rest, buflen);
      rest := rest[buflen..];
      passes := passes + 1;
    }
  }

  lemma SplitAppend(c: seq<Byte>, rest: seq<Byte>, n: nat)
    requires n <= |rest|
    ensures c + rest[..n] + rest[n..] == c + rest
  {}
}
