/** The private key as OpenSSH keeps it: BER headers, the layout openssh_write makes, the loop that reads it back. */
module Der {
  import opened Prelude
  import opened Arith
  import opened Bytes
  import opened Buffers

  const ASN1_CONSTRUCTED: Byte := 0x20
  const INTEGER := 2
  const SEQUENCE := 16
  const BLOB_SIZE := 3000

  // ---------------------------------------------------------------- identifier and length

  /** What a byte of a long identifier or of a long length carries: 7 bits or 8. */
  type Radix = b: nat | b == 128 || b == 256 witness 128

  /** x >> (7 * n) or x >> (8 * n). */
  function Shift(b: Radix, x: nat, n: nat): nat {
    if n == 0 then x else Shift(b, x, n - 1) / b
  }

  /** How many of them x takes. */
  function Groups(b: Radix, x: nat): nat {
    if x == 0 then 0 else 1 + Groups(b, x / b)
  }

  /** Section 8.1.3 of X.690: one byte below 128, else a count and that many bytes. */
  function LengthBytes(length: nat): (r: seq<Byte>)
    requires |ToBin(length)| < 128
  {
    if length < 128 then [length] else [128 + |ToBin(length)|] + ToBin(length)
  }

  /** x in groups of seven bits, most significant first, all marked as not the last. */
  function Marked(x: nat): seq<Byte> {
    if x == 0 then [] else Marked(x / 128) + [128 + x % 128]
  }

  /** Section 8.1.2 of X.690: below 31 in the first byte, else in the bytes behind a first byte of 31. */
  function IdBytes(id: nat, flags: Byte): seq<Byte>
    requires flags % 32 == 0
  {
    if id <= 30 then [id + flags] else [31 + flags] + Marked(id / 128) + [id % 128]
  }

  /** The header ber_write_id_len lays out; flags are the top three bits. */
  function HeaderBytes(id: nat, length: nat, flags: Byte): (r: seq<Byte>)
    requires flags % 32 == 0 && |ToBin(length)| < 128
  {
    IdBytes(id, flags) + LengthBytes(length)
  }

  datatype Header = Header(id: nat, length: nat, flags: Byte, used: nat)

  /** The identifier: the code never steps over a first byte of 31, and reads the number from that byte on. */
  function ReadLongId(src: seq<Byte>, id: nat): (r: Option<(nat, seq<Byte>)>)
    ensures r.Some? ==> |r.value.1| < |src|
  {
    if src == [] then None
    else if src[0] >= 128 then ReadLongId(src[1..], id * 128 + src[0] % 128)
    else Some((id * 128 + src[0], src[1..]))
  }

  /** ber_read_id_len. */
  function ReadHeader(src: seq<Byte>): Option<Header> {
    if src == [] then None
    else
      var flags: Byte := src[0] - src[0] % 32;
      var ident := if src[0] % 32 == 31 then ReadLongId(src, 0) else Some((src[0] % 32, src[1..]));
      if ident.None? || ident.value.1 == [] then None
      else
        var len := ReadLen(ident.value.1);
        if len.None? then None
        else Some(Header(ident.value.0, len.value.0, flags, |src| - |ident.value.1| + len.value.1))
  }

  /** The length, and the bytes it took. */
  function ReadLen(src: seq<Byte>): Option<(nat, nat)>
    requires src != []
  {
    var n := src[0] % 128;
    if src[0] < 128 then Some((n, 1))
    else if |src| - 1 < n then None
    else Some((BeVal(src[1..1 + n]), 1 + n))
  }

  lemma SplitByte(id: nat, flags: Byte)
    requires id < 32 && flags % 32 == 0
    ensures id + flags < 256 && (id + flags) % 32 == id
  {
  }

  /** Up to 30, reading a header undoes writing it, whatever follows. */
  lemma ShortHeader(id: nat, length: nat, flags: Byte, rest: seq<Byte>)
    requires id <= 30 && flags % 32 == 0 && |ToBin(length)| < 128
    ensures ReadHeader(HeaderBytes(id, length, flags) + rest)
         == Some(Header(id, length, flags, |HeaderBytes(id, length, flags)|))
  {
    var lb := LengthBytes(length);
    SplitByte(id, flags);
    LengthRoundTrip(length, rest);
    ShortFrom(id + flags, lb, rest, length);
    assert HeaderBytes(id, length, flags) == [id + flags] + lb;
  }

  lemma ShortFrom(b: Byte, lb: seq<Byte>, rest: seq<Byte>, length: nat)
    requires lb != [] && b % 32 != 31 && ReadLen(lb + rest) == Some((length, |lb|))
    ensures ReadHeader([b] + lb + rest) == Some(Header(b % 32, length, b - b % 32, 1 + |lb|))
  {
    var src := [b] + lb + rest;
    assert src[1..] == lb + rest;
  }

  /** What the reader makes of the groups of x, with acc read before them. */
  function Grown(x: nat, acc: nat): nat {
    if x == 0 then acc else Grown(x / 128, acc) * 128 + x % 128
  }

  lemma {:induction false} GroupsRead(x: nat, acc: nat, tail: seq<Byte>)
    ensures ReadLongId(Marked(x) + tail, acc) == ReadLongId(tail, Grown(x, acc))
  {
    if x == 0 {
      assert [] + tail == tail;
    } else {
      var b: Byte := 128 + x % 128;
      GroupsRead(x / 128, acc, [b] + tail);
      Assoc(Marked(x / 128), [b], tail);
      assert ([b] + tail)[1..] == tail;
    }
  }

  lemma {:induction false} GrownIs(x: nat, acc: nat)
    ensures Grown(x, acc) == acc * Pow(128, Groups(128, x)) + x
  {
    if x > 0 {
      GrownIs(x / 128, acc);
      MulAssoc(acc, 128, Pow(128, Groups(128, x / 128)));
      MulAssoc(128, acc, Pow(128, Groups(128, x / 128)));
    }
  }

  /** The first byte b of a long identifier is taken for its first group. */
  lemma FirstIsGroup(b: Byte, x: nat, last: Byte, tail: seq<Byte>)
    requires b >= 128 && last < 128
    ensures ReadLongId([b] + (Marked(x) + ([last] + tail)), 0) == Some((Grown(x, b % 128) * 128 + last, tail))
  {
    var rest := Marked(x) + ([last] + tail);
    assert ([b] + rest)[1..] == rest && ([last] + tail)[1..] == tail;
    GroupsRead(x, b % 128, [last] + tail);
  }

  lemma LongIdent(id: nat, flags: Byte, tail: seq<Byte>)
    requires id >= 31 && flags % 32 == 0 && flags >= 128
    ensures var src := IdBytes(id, flags) + tail;
            src[0] == 31 + flags && ReadLongId(src, 0) == Some(((flags - 97) * Pow(128, Groups(128, id)) + id, tail))
  {
    SplitByte(31, flags);
    var groups, last := Marked(id / 128), [id % 128];
    assert IdBytes(id, flags) + tail == [31 + flags] + (groups + (last + tail));
    DivModUnique(31 + flags, 128, 1, flags - 97);
    FirstIsGroup(31 + flags, id / 128, id % 128, tail);
    GrownIs(id, flags - 97);
  }

  /** All else of a long header is read as it was written. */
  lemma LongHeader(id: nat, length: nat, flags: Byte, rest: seq<Byte>)
    requires id >= 31 && flags % 32 == 0 && |ToBin(length)| < 128 && flags >= 128
    ensures ReadHeader(HeaderBytes(id, length, flags) + rest)
         == Some(Header((flags - 97) * Pow(128, Groups(128, id)) + id, length, flags, |HeaderBytes(id, length, flags)|))
  {
    var first, lb := IdBytes(id, flags), LengthBytes(length);
    SplitByte(31, flags);
    LongIdent(id, flags, lb + rest);
    LengthRoundTrip(length, rest);
    Assoc(first, lb, rest);
    HeaderFrom(first, lb, rest, (flags - 97) * Pow(128, Groups(128, id)) + id, length, flags);
  }

  lemma HeaderFrom(first: seq<Byte>, lb: seq<Byte>, rest: seq<Byte>, v: nat, length: nat, flags: Byte)
    requires first != [] && lb != [] && first[0] == 31 + flags && flags % 32 == 0
    requires ReadLongId(first + (lb + rest), 0) == Some((v, lb + rest)) && ReadLen(lb + rest) == Some((length, |lb|))
    ensures ReadHeader(first + (lb + rest)) == Some(Header(v, length, flags, |first + lb|))
  {
    SplitByte(31, flags);
  }

  /** Below 128 the first byte is taken for the whole identifier, and the first group for the length. */
  lemma StoppedHeader(id: nat, length: nat, flags: Byte, rest: seq<Byte>)
    requires id >= 31 && flags % 32 == 0 && |ToBin(length)| < 128 && flags < 128
    ensures var h := ReadHeader(HeaderBytes(id, length, flags) + rest);
            h.Some? ==> h.value.id == 31 + flags && (id == 31 + flags ==> h.value.used < |HeaderBytes(id, length, flags)|)
  {
    SplitByte(31, flags);
    var src := HeaderBytes(id, length, flags) + rest;
    assert src[0] == 31 + flags;
    if id < 128 {
      SmallMod(id, 128);
      assert src[1] == id;
    }
  }

  /** How a header comes back, with the identifier kept in a word of so many values. */
  predicate ComesBack(id: nat, length: nat, flags: Byte, rest: seq<Byte>, word: nat)
    requires flags % 32 == 0 && |ToBin(length)| < 128 && word > 0
  {
    var h := ReadHeader(HeaderBytes(id, length, flags) + rest);
    h.Some? && h.value == Header(h.value.id, length, flags, |HeaderBytes(id, length, flags)|) && h.value.id % word == id
  }

  /** Reading a header undoes writing it, whatever follows, exactly for identifiers of one byte. */
  lemma HeaderRoundTrip(id: nat, length: nat, flags: Byte, rest: seq<Byte>)
    requires flags % 32 == 0 && |ToBin(length)| < 128
    ensures var bytes := HeaderBytes(id, length, flags);
            ReadHeader(bytes + rest) == Some(Header(id, length, flags, |bytes|)) <==> id <= 30
  {
    if id <= 30 {
      ShortHeader(id, length, flags, rest);
    } else if flags >= 128 {
      LongHeader(id, length, flags, rest);
      PowPositive(128, Groups(128, id));
      MulPositive(flags - 97, Pow(128, Groups(128, id)));
    } else {
      StoppedHeader(id, length, flags, rest);
    }
  }

  lemma {:induction false} GroupsBelow(x: nat, n: nat)
    requires x < Pow(128, n)
    ensures Groups(128, x) <= n
  {
    if x > 0 { GroupsBelow(x / 128, n - 1); }
  }

  lemma FourPowers()
    ensures Pow(128, 1) == 0x80 && Pow(128, 2) == 0x4000 && Pow(128, 3) == 0x20_0000 && Pow(128, 4) == 0x1000_0000
  {
  }

  /** An odd number of at most six bits, shifted by up to 28, does not vanish from 32. */
  lemma TopSurvives(id: nat, acc: nat, k: nat)
    requires 1 <= k <= 4 && 0 < acc < 128 && acc % 32 == 31 && id < 0x1_0000_0000
    ensures (acc * Pow(128, k) + id) % 0x1_0000_0000 != id
  {
    assert acc == 31 || acc == 63 || acc == 95 || acc == 127;
    FourPowers();
  }

  lemma LongWrapped(id: nat, length: nat, flags: Byte, rest: seq<Byte>)
    requires 31 <= id < 0x1000_0000 && flags % 32 == 0 && |ToBin(length)| < 128 && flags >= 128
    ensures !ComesBack(id, length, flags, rest, 0x1_0000_0000)
  {
    FourPowers();
    GroupsBelow(id, 4);
    TopSurvives(id, flags - 97, Groups(128, id));
    LongHeader(id, length, flags, rest);
  }

  lemma StoppedWrapped(id: nat, length: nat, flags: Byte, rest: seq<Byte>)
    requires 31 <= id && flags % 32 == 0 && |ToBin(length)| < 128 && flags < 128
    ensures !ComesBack(id, length, flags, rest, 0x1_0000_0000)
  {
    StoppedHeader(id, length, flags, rest);
    SmallMod(31 + flags, 0x1_0000_0000);
  }

  /** Nor does the width of an int bring a longer identifier back, as far as its shifts are defined. */
  lemma WrappedRoundTrip(id: nat, length: nat, flags: Byte, rest: seq<Byte>)
    requires id < 0x1000_0000 && flags % 32 == 0 && |ToBin(length)| < 128
    ensures ComesBack(id, length, flags, rest, 0x1_0000_0000) <==> id <= 30
  {
    if id <= 30 {
      ShortHeader(id, length, flags, rest);
      SmallMod(id, 0x1_0000_0000);
    } else if flags >= 128 {
      LongWrapped(id, length, flags, rest);
    } else {
      StoppedWrapped(id, length, flags, rest);
    }
  }

  lemma LengthRoundTrip(length: nat, rest: seq<Byte>)
    requires |ToBin(length)| < 128
    ensures ReadLen(LengthBytes(length) + rest) == Some((length, |LengthBytes(length)|))
  {
    if length < 128 {
      SmallMod(length, 128);
    } else {
      BinRoundTrip(length);
      LongLength(128 + |ToBin(length)|, ToBin(length), rest);
    }
  }

  lemma LongLength(first: Byte, bytes: seq<Byte>, rest: seq<Byte>)
    requires first == 128 + |bytes|
    ensures ReadLen([first] + bytes + rest) == Some((BeVal(bytes), 1 + |bytes|))
  {
    var src := [first] + bytes + rest;
    DivModUnique(first, 128, 1, |bytes|);
    assert src[1..1 + |bytes|] == bytes;
  }

  /** Lengths that fit an int have at most four bytes. */
  lemma IntLength(length: nat)
    requires length < 0x8000_0000
    ensures |ToBin(length)| <= 4
  {
    BinLength(length, 4);
  }

  lemma {:induction false} ShiftEnds(b: Radix, x: nat, n: nat)
    ensures Groups(b, Shift(b, x, n)) == if Groups(b, x) >= n then Groups(b, x) - n else 0
  {
    if n > 0 {
      ShiftEnds(b, x, n - 1);
      OneShift(b, Shift(b, x, n - 1));
    }
  }

  lemma OneShift(b: Radix, y: nat)
    ensures Groups(b, y / b) == if Groups(b, y) >= 1 then Groups(b, y) - 1 else 0
  {
  }

  lemma {:induction false} BytesCounted(x: nat)
    ensures |ToBin(x)| == Groups(256, x)
  {
    if x > 0 { BytesCounted(x / 256); }
  }

  lemma {:induction false} GroupsCounted(x: nat)
    ensures |Marked(x)| == Groups(128, x)
  {
    if x > 0 { GroupsCounted(x / 128); }
  }

  /** Both counting loops of ber_write_id_len. */
  method CountGroups(b: Radix, x: nat) returns (n: nat)
    requires x > 0
    ensures n == Groups(b, x)
  {
    n := 1;
    ShiftEnds(b, x, 1);
    while Shift(b, x, n) > 0
      invariant 1 <= n <= Groups(b, x)
      decreases Groups(b, x) - n
    {
      ShiftEnds(b, x, n);
      n := n + 1;
    }
    ShiftEnds(b, x, n);
  }

  /** ber_write_id_len: with no destination it only counts. */
  method BerWriteIdLen(dest: array?<Byte>, at: nat, id: nat, length: nat, flags: Byte) returns (len: nat)
    requires flags % 32 == 0 && |ToBin(length)| < 128
    requires dest != null ==> at + |HeaderBytes(id, length, flags)| <= dest.Length
    modifies dest
    ensures len == |HeaderBytes(id, length, flags)|
    ensures dest != null ==> dest[..at + len] == old(dest[..at]) + HeaderBytes(id, length, flags)
  {
    ghost var before := if dest == null then [] else dest[..at];
    var m := WriteId(dest, at, id, flags, before);
    var n := WriteLength(dest, at + m, length, before + IdBytes(id, flags));
    Assoc(before, IdBytes(id, flags), LengthBytes(length));
    len := m + n;
  }

  /** Its first half, behind what has been written before. */
  method WriteId(dest: array?<Byte>, at: nat, id: nat, flags: Byte, ghost before: seq<Byte>) returns (len: nat)
    requires flags % 32 == 0 && (dest != null ==> at + |IdBytes(id, flags)| <= dest.Length && dest[..at] == before)
    modifies dest
    ensures len == |IdBytes(id, flags)|
    ensures dest != null ==> dest[..at + len] == before + IdBytes(id, flags)
  {
    if id <= 30 {
      SplitByte(id, flags);
      PutAt(dest, at, id + flags, before);
      return 1;
    }
    SplitByte(31, flags);
    PutAt(dest, at, 31 + flags, before);
    var n := CountGroups(128, id);
    GroupsCounted(id / 128);
    WriteGroups(dest, at + 1, id, n, before + [31 + flags]);
    Assoc(before, [31 + flags], Marked(id / 128) + [id % 128]);
    Assoc([31 + flags], Marked(id / 128), [id % 128]);
    len := 1 + n;
  }

  /** Its second half. */
  method WriteLength(dest: array?<Byte>, at: nat, length: nat, ghost before: seq<Byte>) returns (len: nat)
    requires |ToBin(length)| < 128
    requires dest != null ==> at + |LengthBytes(length)| <= dest.Length && dest[..at] == before
    modifies dest
    ensures len == |LengthBytes(length)|
    ensures dest != null ==> dest[..at + len] == before + LengthBytes(length)
  {
    if length < 128 {
      PutAt(dest, at, length, before);
      return 1;
    }
    var n := CountGroups(256, length);
    BytesCounted(length);
    PutAt(dest, at, 128 + n, before);
    WriteDigits(dest, at + 1, length, n, before + [128 + n]);
    Assoc(before, [128 + n], ToBin(length));
    len := 1 + n;
  }

  /** if (d) *d++ = b */
  method PutAt(dest: array?<Byte>, at: nat, b: Byte, ghost before: seq<Byte>)
    requires dest != null ==> at < dest.Length && dest[..at] == before
    modifies dest
    ensures dest != null ==> dest[..at + 1] == before + [b]
  {
    if dest != null { dest[at] := b; }
  }

  /** The bytes of a long length, most significant first. */
  method WriteDigits(dest: array?<Byte>, at: nat, length: nat, count: nat, ghost before: seq<Byte>)
    requires count == Groups(256, length) > 0 && (dest != null ==> at + count <= dest.Length && dest[..at] == before)
    modifies dest
    ensures dest != null ==> dest[..at + count] == before + ToBin(length)
  {
    var n := count;
    ShiftEnds(256, length, n);
    while n > 0
      invariant 0 <= n <= count
      invariant dest != null ==> dest[..at + count - n] == before + ToBin(Shift(256, length, n))
    {
      ghost var high := ToBin(Shift(256, length, n));
      n := n - 1;
      ShiftEnds(256, length, n);
      var b := Shift(256, length, n) % 256;
      assert ToBin(Shift(256, length, n)) == high + [b];
      Assoc(before, high, [b]);
      PutAt(dest, at + count - n - 1, b, before + high);
    }
  }

  /** The groups of a long identifier, most significant first, all but the last marked. */
  method WriteGroups(dest: array?<Byte>, at: nat, id: nat, count: nat, ghost before: seq<Byte>)
    requires count == Groups(128, id) > 0 && (dest != null ==> at + count <= dest.Length && dest[..at] == before)
    modifies dest
    ensures dest != null ==> dest[..at + count] == before + (Marked(id / 128) + [id % 128])
  {
    var n := count;
    ShiftEnds(128, id, n);
    while n > 0
      invariant 0 <= n <= count
      invariant dest != null ==>
                  dest[..at + count - n]
                  == before + if n > 0 then Marked(Shift(128, id, n)) else Marked(id / 128) + [id % 128]
    {
      ghost var high := Marked(Shift(128, id, n));
      n := n - 1;
      ShiftEnds(128, id, n);
      var b := (if n > 0 then 128 else 0) + Shift(128, id, n) % 128;
      assert n > 0 ==> Marked(Shift(128, id, n)) == high + [b];
      assert n == 0 ==> high + [b] == Marked(id / 128) + [id % 128] by { assert Shift(128, id, 1) == Shift(128, id, 0) / 128; }
      Assoc(before, high, [b]);
      PutAt(dest, at + count - n - 1, b, before + high);
    }
  }

  // ---------------------------------------------------------------- the layout of a key

  predicate Sized(numbers: seq<seq<Byte>>) { forall i | 0 <= i < |numbers| :: |ToBin(|numbers[i]|)| < 128 }

  function IntegerBytes(number: seq<Byte>): seq<Byte>
    requires |ToBin(|number|)| < 128
  {
    HeaderBytes(INTEGER, |number|, 0) + number
  }

  /** The INTEGERs, one after the other. */
  function Body(numbers: seq<seq<Byte>>): seq<Byte>
    requires Sized(numbers)
  {
    if numbers == [] then []
    else Body(numbers[..|numbers| - 1]) + IntegerBytes(numbers[|numbers| - 1])
  }

  function KeySequence(numbers: seq<seq<Byte>>): seq<Byte>
    requires Sized(numbers) && |ToBin(|Body(numbers)|)| < 128
  {
    HeaderBytes(SEQUENCE, |Body(numbers)|, ASN1_CONSTRUCTED) + Body(numbers)
  }

  lemma BodySnoc(numbers: seq<seq<Byte>>, i: nat)
    requires Sized(numbers) && i < |numbers|
    ensures Sized(numbers[..i]) && Sized(numbers[..i + 1])
    ensures Body(numbers[..i + 1]) == Body(numbers[..i]) + IntegerBytes(numbers[i])
  {
    assert numbers[..i + 1][..i] == numbers[..i];
  }

  lemma {:induction false} BodyGrows(numbers: seq<seq<Byte>>, i: nat)
    requires Sized(numbers) && i <= |numbers|
    ensures |Body(numbers[..i])| <= |Body(numbers)|
    decreases |numbers| - i
  {
    if i < |numbers| {
      BodySnoc(numbers, i);
      BodyGrows(numbers, i + 1);
    } else {
      assert numbers[..i] == numbers;
    }
  }

  /** The sizing pass of openssh_write. */
  method SizePass(numbers: seq<seq<Byte>>) returns (seqlen: nat)
    requires Sized(numbers)
    ensures seqlen == |Body(numbers)|
  {
    seqlen := 0;
    var i := 0;
    while i < |numbers|
      invariant 0 <= i <= |numbers| && seqlen == |Body(numbers[..i])|
    {
      BodySnoc(numbers, i);
      var n := BerWriteIdLen(null, 0, INTEGER, |numbers[i]|, 0);
      seqlen := seqlen + n + |numbers[i]|;
      i := i + 1;
    }
    assert numbers[..i] == numbers;
  }

  /** Both passes of openssh_write: pos == len at the end is the source's own assertion. */
  method WriteSequence(numbers: seq<seq<Byte>>) returns (outblob: array<Byte>, pos: nat, len: nat)
    requires Sized(numbers) && |ToBin(|Body(numbers)|)| < 128
    ensures pos == len == outblob.Length && outblob[..] == KeySequence(numbers)
  {
    var seqlen := SizePass(numbers);
    var n := BerWriteIdLen(null, 0, SEQUENCE, seqlen, ASN1_CONSTRUCTED);
    len := seqlen + n;
    outblob := new Byte[len](_ => 0);
    pos := BerWriteIdLen(outblob, 0, SEQUENCE, seqlen, ASN1_CONSTRUCTED);
    assert outblob[..pos] == HeaderBytes(SEQUENCE, seqlen, ASN1_CONSTRUCTED);
    pos := PutIntegers(outblob, pos, numbers, HeaderBytes(SEQUENCE, seqlen, ASN1_CONSTRUCTED));
    assert outblob[..pos] == outblob[..];
  }

  method PutIntegers(out: array<Byte>, at: nat, numbers: seq<seq<Byte>>, ghost head: seq<Byte>) returns (pos: nat)
    requires Sized(numbers) && at + |Body(numbers)| <= out.Length && out[..at] == head
    modifies out
    ensures pos == at + |Body(numbers)| && out[..pos] == head + Body(numbers)
  {
    pos := at;
    var i := 0;
    assert head + [] == head;
    while i < |numbers|
      invariant 0 <= i <= |numbers| && pos == at + |Body(numbers[..i])| <= out.Length
      invariant out[..pos] == head + Body(numbers[..i])
    {
      NextInteger(head, numbers, i);
      PutInteger(out, pos, numbers[i], head + Body(numbers[..i]));
      pos := pos + |IntegerBytes(numbers[i])|;
      i := i + 1;
    }
    assert numbers[..i] == numbers;
  }

  lemma NextInteger(head: seq<Byte>, numbers: seq<seq<Byte>>, i: nat)
    requires Sized(numbers) && i < |numbers|
    ensures Sized(numbers[..i]) && Sized(numbers[..i + 1])
    ensures (head + Body(numbers[..i])) + IntegerBytes(numbers[i]) == head + Body(numbers[..i + 1])
    ensures |Body(numbers[..i])| + |IntegerBytes(numbers[i])| == |Body(numbers[..i + 1])| <= |Body(numbers)|
  {
    BodySnoc(numbers, i);
    BodyGrows(numbers, i + 1);
    Assoc(head, Body(numbers[..i]), IntegerBytes(numbers[i]));
  }

  method PutInteger(out: array<Byte>, at: nat, number: seq<Byte>, ghost was: seq<Byte>)
    requires |ToBin(|number|)| < 128 && at + |IntegerBytes(number)| <= out.Length && out[..at] == was
    modifies out
    ensures out[..at + |IntegerBytes(number)|] == was + IntegerBytes(number)
  {
    var n := BerWriteIdLen(out, at, INTEGER, |number|, 0);
    ghost var before := out[..at + n];
    var i := 0;
    while i < |number|
      invariant 0 <= i <= |number|
      invariant out[..at + n + i] == before + number[..i]
    {
      ghost var prior := out[..at + n + i];
      out[at + n + i] := number[i];
      assert out[..at + n + i + 1] == prior + [number[i]];
      i := i + 1;
    }
    assert number[..i] == number;
    assert was + HeaderBytes(INTEGER, |number|, 0) + number == was + (HeaderBytes(INTEGER, |number|, 0) + number);
  }

  // ---------------------------------------------------------------- reading it back

  datatype Parsed = Blob(bytes: seq<Byte>) | WrongPassword | DecodeFailure | VersionMismatch | BufferExit

  const RSA_NAME: seq<Byte> := [115, 115, 104, 45, 114, 115, 97]
  const DSS_NAME: seq<Byte> := [115, 115, 104, 45, 100, 115, 115]

  function Count(rsa: bool): nat { if rsa then 9 else 6 }

  /** What has been rebuilt so far; modulus is kept from the first RSA number until the second has gone in. */
  datatype Rebuilt = Rebuilt(blob: seq<Byte>, modulus: seq<Byte>)

  /** buf_putstring on the blob of 3000 bytes; none where it exits. */
  function PutString(blob: seq<Byte>, s: seq<Byte>): Option<seq<Byte>> {
    if |blob| + 4 + |s| > BLOB_SIZE then None else Some(blob + SshString(s))
  }

  /** The i-th integer, after the zeroth. */
  function Accept(rsa: bool, i: nat, st: Rebuilt, number: seq<Byte>): Option<Rebuilt> {
    if rsa && i == 1 then Some(st.(modulus := number))
    else if rsa && i > 5 then Some(st)
    else
      var b := PutString(st.blob, number);
      if b.None? then None
      else if !rsa || i != 2 then Some(st.(blob := b.value))
      else
        var b2 := PutString(b.value, st.modulus);
        if b2.None? then None else Some(st.(blob := b2.value))
  }

  /** What is made of the i-th integer: the new state, or how reading ends. */
  datatype Took = On(st: Rebuilt) | Stop(p: Parsed)

  function TakeInteger(rsa: bool, i: nat, st: Rebuilt, number: seq<Byte>): Took {
    if i == 0 then (if number != [0] then Stop(VersionMismatch) else On(st))
    else
      match Accept(rsa, i, st, number)
      case None => Stop(BufferExit)
      case Some(st2) => On(st2)
  }

  /** The next INTEGER: its content, and what follows it. */
  function ReadOne(src: seq<Byte>): Option<(seq<Byte>, seq<Byte>)> {
    var h := ReadHeader(src);
    if h.None? || h.value.id != INTEGER || h.value.used > |src| || |src| - h.value.used < h.value.length then None
    else
      var from, len := h.value.used, h.value.length;
      Some((src[from..from + len], src[from + len..]))
  }

  /** The loop of openssh_read from the i-th integer on. */
  function ReadIntegers(rsa: bool, src: seq<Byte>, i: nat, st: Rebuilt): Parsed
    decreases Count(rsa) - i
  {
    if i >= Count(rsa) then Blob(st.blob)
    else
      match ReadOne(src)
      case None => DecodeFailure
      case Some((number, rest)) =>
        match TakeInteger(rsa, i, st, number)
        case Stop(p) => p
        case On(st2) => ReadIntegers(rsa, rest, i + 1, st2)
  }

  function Start(rsa: bool): Rebuilt { Rebuilt(SshString(if rsa then RSA_NAME else DSS_NAME), []) }

  /** openssh_read, from the decrypted key blob to the blob handed to buf_get_priv_key. */
  function ReadKey(rsa: bool, src: seq<Byte>): Parsed {
    var h := ReadHeader(src);
    if h.None? || h.value.id != SEQUENCE || h.value.used > |src| then WrongPassword
    else ReadIntegers(rsa, src[h.value.used..], 0, Start(rsa))
  }

  /** ber_read_id_len never reports more bytes than there are. */
  lemma HeaderWithin(src: seq<Byte>)
    requires ReadHeader(src).Some?
    ensures ReadHeader(src).value.used <= |src|
  {
  }

  /** ber_read_id_len; failure is its -1. */
  method BerReadIdLen(src: seq<Byte>) returns (h: Option<Header>)
    ensures h == ReadHeader(src)
  {
    if |src| == 0 { return None; }
    var p: nat, id: nat;
    var flags: Byte := src[0] - src[0] % 32;
    if src[0] % 32 == 31 {
      var ok;
      ok, id, p := ReadIdent(src);
      if !ok { return None; }
    } else {
      id := src[0] % 32;
      p := 1;
    }
    if p == |src| { return None; }
    if src[p] < 128 {
      SmallMod(src[p], 128);
      return Some(Header(id, src[p], flags, p + 1));
    }
    var n := src[p] % 128;
    if |src| - p - 1 < n { return None; }
    var length := ReadLength(src, p + 1, n);
    TailSlice(src, p, n);
    return Some(Header(id, length, flags, p + 1 + n));
  }

  lemma TailSlice(src: seq<Byte>, p: nat, n: nat)
    requires p + 1 + n <= |src|
    ensures src[p..][1..1 + n] == src[p + 1..p + 1 + n]
  {
    var a, b := src[p..][1..1 + n], src[p + 1..p + 1 + n];
    forall i | 0 <= i < n ensures a[i] == b[i] {
    }
  }

  method ReadIdent(src: seq<Byte>) returns (ok: bool, id: nat, p: nat)
    requires src != []
    ensures ok == ReadLongId(src, 0).Some?
    ensures ok ==> p <= |src| && ReadLongId(src, 0).value == (id, src[p..])
  {
    p, id := 0, 0;
    assert src[0..] == src;
    while src[p] >= 128
      invariant 0 <= p < |src| && ReadLongId(src[p..], id) == ReadLongId(src, 0)
      decreases |src| - p
    {
      id := id * 128 + src[p] % 128;
      assert src[p..][1..] == src[p + 1..];
      p := p + 1;
      if p == |src| { return false, 0, 0; }
    }
    id := id * 128 + src[p] % 128;
    assert src[p..][1..] == src[p + 1..];
    p := p + 1;
    ok := true;
  }

  method ReadLength(src: seq<Byte>, from: nat, n: nat) returns (length: nat)
    requires from + n <= |src|
    ensures length == BeVal(src[from..from + n])
  {
    length := 0;
    var i := 0;
    assert src[from..from] == [];
    while i < n
      invariant 0 <= i <= n && length == BeVal(src[from..from + i])
    {
      assert src[from..from + i + 1][..i] == src[from..from + i];
      length := length * 256 + src[from + i];
      i := i + 1;
    }
  }

  /** One INTEGER at position p, and the position behind it. */
  method ReadInteger(src: seq<Byte>, p: nat) returns (ok: bool, number: seq<Byte>, next: nat)
    requires p <= |src|
    ensures ok == ReadOne(src[p..]).Some?
    ensures ok ==> next <= |src| && ReadOne(src[p..]) == Some((number, src[next..]))
  {
    ghost var rest := src[p..];
    var h := BerReadIdLen(src[p..]);
    if h.None? { return false, [], 0; }
    HeaderWithin(src[p..]);
    var from, len := p + h.value.used, h.value.length;
    if h.value.id != INTEGER || |src| - from < len { return false, [], 0; }
    number, next := src[from..from + len], from + len;
    assert number == rest[from - p..from - p + len] && src[next..] == rest[from - p + len..];
    ok := true;
  }

  /** openssh_read's loop over the integers. */
  method OpensshRead(rsa: bool, src: seq<Byte>) returns (r: Parsed)
    ensures r == ReadKey(rsa, src)
  {
    var h := BerReadIdLen(src);
    if h.None? || h.value.id != SEQUENCE { return WrongPassword; }
    HeaderWithin(src);
    var p := h.value.used;
    var st := Start(rsa);
    var i := 0;
    while i < Count(rsa)
      invariant 0 <= i <= Count(rsa) && 0 <= p <= |src|
      invariant ReadIntegers(rsa, src[p..], i, st) == ReadKey(rsa, src)
    {
      var ok, number, next := ReadInteger(src, p);
      if !ok { return DecodeFailure; }
      var t := ReadNumber(rsa, i, st, number);
      if t.Stop? { return t.p; }
      p, st, i := next, t.st, i + 1;
    }
    return Blob(st.blob);
  }

  /** The body of that loop, once the INTEGER has been found. */
  method ReadNumber(rsa: bool, i: nat, st: Rebuilt, number: seq<Byte>) returns (t: Took)
    ensures t == TakeInteger(rsa, i, st, number)
  {
    if i == 0 {
      if |number| != 1 || number[0] != 0 { return Stop(VersionMismatch); }
      assert number == [0];
      return On(st);
    }
    if rsa && i == 1 { return On(st.(modulus := number)); }
    if rsa && i > 5 { return On(st); }
    var b := PutString(st.blob, number);
    if b.None? { return Stop(BufferExit); }
    if rsa && i == 2 {
      b := PutString(b.value, st.modulus);
      if b.None? { return Stop(BufferExit); }
    }
    return On(st.(blob := b.value));
  }

  // ---------------------------------------------------------------- the round trip

  /** The blob buf_put_priv_key lays out: the name, then e, n, d, p, q for RSA or p, q, g, y, x for DSS. */
  function KeyBlob(rsa: bool, parts: seq<seq<Byte>>): seq<Byte>
    requires |parts| == 5 && forall i | 0 <= i < 5 :: |parts[i]| < 0x1_0000_0000
  {
    SshString(if rsa then RSA_NAME else DSS_NAME) + SshString(parts[0]) + SshString(parts[1]) + SshString(parts[2])
      + SshString(parts[3]) + SshString(parts[4])
  }

  /** The integers openssh_write lays out; extra are d mod p-1, d mod q-1 and the inverse of q, unused by the reader. */
  function Numbers(rsa: bool, parts: seq<seq<Byte>>, extra: seq<seq<Byte>>): seq<seq<Byte>>
    requires |parts| == 5 && |extra| == 3
  {
    if rsa then [[0], parts[1], parts[0], parts[2], parts[3], parts[4], extra[0], extra[1], extra[2]]
    else [[0], parts[0], parts[1], parts[2], parts[3], parts[4]]
  }

  lemma {:induction false} BodyFront(numbers: seq<seq<Byte>>)
    requires Sized(numbers) && numbers != []
    ensures Body(numbers) == IntegerBytes(numbers[0]) + Body(numbers[1..])
    decreases |numbers|
  {
    var k := |numbers| - 1;
    if k == 0 {
      assert numbers[1..] == [] && numbers[..0] == [];
      assert Body(numbers) == [] + IntegerBytes(numbers[0]);
    } else {
      Inner(numbers, k);
      BodyFront(numbers[..k]);
      Assoc(IntegerBytes(numbers[0]), Body(numbers[1..k]), IntegerBytes(numbers[k]));
    }
  }

  lemma Inner(numbers: seq<seq<Byte>>, k: nat)
    requires 0 < k == |numbers| - 1 && Sized(numbers)
    ensures Sized(numbers[1..k]) && Sized(numbers[1..]) && Sized(numbers[..k])
    ensures numbers[1..][..k - 1] == numbers[..k][1..] == numbers[1..k]
    ensures |numbers[1..]| == k && numbers[1..][k - 1] == numbers[k] && numbers[..k][0] == numbers[0]
  {
  }

  /** Folding Accept over the integers, without the bytes. */
  function Rebuild(rsa: bool, numbers: seq<seq<Byte>>, i: nat, st: Rebuilt): Parsed
    requires i <= |numbers|
    decreases |numbers| - i
  {
    if i == |numbers| then Blob(st.blob)
    else
      match TakeInteger(rsa, i, st, numbers[i])
      case Stop(p) => p
      case On(st2) => Rebuild(rsa, numbers, i + 1, st2)
  }

  /** Reading what was written is folding over the numbers. */
  lemma {:induction false} ReadsBody(rsa: bool, numbers: seq<seq<Byte>>, i: nat, st: Rebuilt)
    requires Sized(numbers) && i <= |numbers| == Count(rsa)
    ensures ReadIntegers(rsa, Body(numbers[i..]), i, st) == Rebuild(rsa, numbers, i, st)
    decreases |numbers| - i
  {
    if i < |numbers| {
      OneInteger(numbers, i);
      var t := TakeInteger(rsa, i, st, numbers[i]);
      if t.On? { ReadsBody(rsa, numbers, i + 1, t.st); }
    }
  }

  lemma OneInteger(numbers: seq<seq<Byte>>, i: nat)
    requires Sized(numbers) && i < |numbers|
    ensures ReadOne(Body(numbers[i..])) == Some((numbers[i], Body(numbers[i + 1..])))
  {
    var n, tail := numbers[i], Body(numbers[i + 1..]);
    BodyFront(numbers[i..]);
    assert numbers[i..][1..] == numbers[i + 1..];
    var head := HeaderBytes(INTEGER, |n|, 0);
    ShortHeader(INTEGER, |n|, 0, n + tail);
    Assoc(head, n, tail);
    Slices(head, n, tail);
  }

  lemma Slices(head: seq<Byte>, n: seq<Byte>, tail: seq<Byte>)
    ensures (head + (n + tail))[|head|..|head| + |n|] == n && (head + (n + tail))[|head| + |n|..] == tail
  {
  }

  /** One step of Rebuild, its outcome given. */
  lemma Step(rsa: bool, numbers: seq<seq<Byte>>, i: nat, st: Rebuilt, st2: Rebuilt)
    requires i < |numbers|
    requires TakeInteger(rsa, i, st, numbers[i]) == On(st2)
    ensures Rebuild(rsa, numbers, i, st) == Rebuild(rsa, numbers, i + 1, st2)
  {
  }

  /** Where each part of the blob stands among the integers. */
  predicate Laid(rsa: bool, parts: seq<seq<Byte>>, numbers: seq<seq<Byte>>)
    requires |parts| == 5
  {
    && |numbers| == Count(rsa) && numbers[0] == [0]
    && (if rsa then numbers[1] == parts[1] && numbers[2] == parts[0] else numbers[1] == parts[0] && numbers[2] == parts[1])
    && numbers[3] == parts[2] && numbers[4] == parts[3] && numbers[5] == parts[4]
  }

  lemma RebuildsDss(parts: seq<seq<Byte>>, numbers: seq<seq<Byte>>)
    requires |parts| == 5 && (forall i | 0 <= i < 5 :: |parts[i]| < 0x1_0000_0000) && |KeyBlob(false, parts)| <= BLOB_SIZE
    requires Laid(false, parts, numbers)
    ensures Rebuild(false, numbers, 0, Start(false)) == Blob(KeyBlob(false, parts))
  {
    var b0 := Start(false).blob;
    var b1 := b0 + SshString(parts[0]);
    var b2 := b1 + SshString(parts[1]);
    var b3 := b2 + SshString(parts[2]);
    var b4 := b3 + SshString(parts[3]);
    var b5 := b4 + SshString(parts[4]);
    Step(false, numbers, 0, Start(false), Start(false));
    Step(false, numbers, 1, Start(false), Rebuilt(b1, []));
    Step(false, numbers, 2, Rebuilt(b1, []), Rebuilt(b2, []));
    Step(false, numbers, 3, Rebuilt(b2, []), Rebuilt(b3, []));
    Step(false, numbers, 4, Rebuilt(b3, []), Rebuilt(b4, []));
    Step(false, numbers, 5, Rebuilt(b4, []), Rebuilt(b5, []));
  }

  lemma RebuildsRsa(parts: seq<seq<Byte>>, numbers: seq<seq<Byte>>)
    requires |parts| == 5 && (forall i | 0 <= i < 5 :: |parts[i]| < 0x1_0000_0000) && |KeyBlob(true, parts)| <= BLOB_SIZE
    requires Laid(true, parts, numbers)
    ensures Rebuild(true, numbers, 0, Start(true)) == Blob(KeyBlob(true, parts))
  {
    var st0, n := Start(true), parts[1];
    var b2 := st0.blob + SshString(parts[0]) + SshString(n);
    var b3 := b2 + SshString(parts[2]);
    var b4 := b3 + SshString(parts[3]);
    var b5 := b4 + SshString(parts[4]);
    Step(true, numbers, 0, st0, st0);
    Step(true, numbers, 1, st0, Rebuilt(st0.blob, n));
    Step(true, numbers, 2, Rebuilt(st0.blob, n), Rebuilt(b2, n));
    Step(true, numbers, 3, Rebuilt(b2, n), Rebuilt(b3, n));
    Step(true, numbers, 4, Rebuilt(b3, n), Rebuilt(b4, n));
    Step(true, numbers, 5, Rebuilt(b4, n), Rebuilt(b5, n));
    Step(true, numbers, 6, Rebuilt(b5, n), Rebuilt(b5, n));
    Step(true, numbers, 7, Rebuilt(b5, n), Rebuilt(b5, n));
    Step(true, numbers, 8, Rebuilt(b5, n), Rebuilt(b5, n));
  }

  /** Reading the SEQUENCE openssh_write lays out rebuilds the key blob byte for byte. */
  lemma KeyRoundTrip(rsa: bool, parts: seq<seq<Byte>>, extra: seq<seq<Byte>>)
    requires |parts| == 5 && |extra| == 3 && (forall i | 0 <= i < 5 :: |parts[i]| < 0x1_0000_0000)
    requires |KeyBlob(rsa, parts)| <= BLOB_SIZE
    requires Sized(Numbers(rsa, parts, extra)) && |ToBin(|Body(Numbers(rsa, parts, extra))|)| < 128
    ensures ReadKey(rsa, KeySequence(Numbers(rsa, parts, extra))) == Blob(KeyBlob(rsa, parts))
  {
    Rebuilds(rsa, parts, Numbers(rsa, parts, extra));
  }

  /** RSAPrivateKey of PKCS #1 in, the SSH blob with e before n out, whatever the last three numbers are. */
  lemma RsaFile(n: seq<Byte>, e: seq<Byte>, d: seq<Byte>, p: seq<Byte>, q: seq<Byte>, extra: seq<seq<Byte>>)
    requires |extra| == 3 && (forall i | 0 <= i < 3 :: |extra[i]| <= BLOB_SIZE)
    requires |n| + |e| + |d| + |p| + |q| <= BLOB_SIZE - 31
    ensures var file := [[0], n, e, d, p, q, extra[0], extra[1], extra[2]];
            Sized(file) && |ToBin(|Body(file)|)| < 128
            && ReadKey(true, KeySequence(file))
               == Blob(SshString([115, 115, 104, 45, 114, 115, 97]) + SshString(e) + SshString(n) + SshString(d) + SshString(p) + SshString(q))
  {
    AllSized([[0], n, e, d, p, q, extra[0], extra[1], extra[2]]);
    KeyRoundTrip(true, [e, n, d, p, q], extra);
  }

  /** And of DSS: p, q, g, y, x both ways. */
  lemma DssFile(p: seq<Byte>, q: seq<Byte>, g: seq<Byte>, y: seq<Byte>, x: seq<Byte>)
    requires |p| + |q| + |g| + |y| + |x| <= BLOB_SIZE - 31
    ensures var file := [[0], p, q, g, y, x];
            Sized(file) && |ToBin(|Body(file)|)| < 128
            && ReadKey(false, KeySequence(file))
               == Blob(SshString([115, 115, 104, 45, 100, 115, 115]) + SshString(p) + SshString(q) + SshString(g) + SshString(y) + SshString(x))
  {
    AllSized([[0], p, q, g, y, x]);
    KeyRoundTrip(false, [p, q, g, y, x], [[], [], []]);
  }

  /** Sections 8.3 and 8.9 of X.690: INTEGER is tag 2, SEQUENCE tag 16 with the bit of a constructed type. */
  lemma DerTags(numbers: seq<seq<Byte>>, number: seq<Byte>)
    requires Sized(numbers) && |ToBin(|Body(numbers)|)| < 128 && |ToBin(|number|)| < 128
    ensures KeySequence(numbers) == [0x30] + LengthBytes(|Body(numbers)|) + Body(numbers)
    ensures IntegerBytes(number) == [0x02] + LengthBytes(|number|) + number
  {
  }

  lemma Rebuilds(rsa: bool, parts: seq<seq<Byte>>, numbers: seq<seq<Byte>>)
    requires |parts| == 5 && (forall i | 0 <= i < 5 :: |parts[i]| < 0x1_0000_0000) && |KeyBlob(rsa, parts)| <= BLOB_SIZE
    requires Laid(rsa, parts, numbers) && Sized(numbers) && |ToBin(|Body(numbers)|)| < 128
    ensures ReadKey(rsa, KeySequence(numbers)) == Blob(KeyBlob(rsa, parts))
  {
    ReadsSequence(rsa, Body(numbers));
    assert numbers[0..] == numbers;
    ReadsBody(rsa, numbers, 0, Start(rsa));
    if rsa { RebuildsRsa(parts, numbers); } else { RebuildsDss(parts, numbers); }
  }

  lemma ReadsSequence(rsa: bool, body: seq<Byte>)
    requires |ToBin(|body|)| < 128
    ensures ReadKey(rsa, HeaderBytes(SEQUENCE, |body|, ASN1_CONSTRUCTED) + body) == ReadIntegers(rsa, body, 0, Start(rsa))
  {
    var head := HeaderBytes(SEQUENCE, |body|, ASN1_CONSTRUCTED);
    ShortHeader(SEQUENCE, |body|, ASN1_CONSTRUCTED, body);
    assert (head + body)[|head|..] == body;
  }

  /** openssh_write on the blob of a key: the five strings behind the name, then the layout. */
  method OpensshWrite(rsa: bool, keyblob: Buffer, extra: seq<seq<Byte>>, ghost parts: seq<seq<Byte>>)
    returns (outblob: seq<Byte>)
    requires keyblob.Valid() && keyblob.pos == 0 && |extra| == 3 && (forall i | 0 <= i < 3 :: |extra[i]| <= BLOB_SIZE)
    requires |parts| == 5 && (forall i | 0 <= i < 5 :: |parts[i]| < 0x1_0000_0000)
    requires keyblob.Contents() == KeyBlob(rsa, parts) && keyblob.len <= BLOB_SIZE
    modifies keyblob
    ensures Sized(Numbers(rsa, parts, extra)) && |ToBin(|Body(Numbers(rsa, parts, extra))|)| < 128
    ensures outblob == KeySequence(Numbers(rsa, parts, extra))
    ensures ReadKey(rsa, outblob) == Blob(KeyBlob(rsa, parts))
  {
    PartsBehind(rsa, parts);
    assert keyblob.Rest() == keyblob.Contents();
    var numbers := TakeNumbers(rsa, keyblob, extra, parts);
    AllSized(numbers);
    var out, pos, len := WriteSequence(numbers);
    outblob := out[..];
    KeyRoundTrip(rsa, parts, extra);
  }

  method TakeNumbers(rsa: bool, keyblob: Buffer, extra: seq<seq<Byte>>, ghost parts: seq<seq<Byte>>)
    returns (numbers: seq<seq<Byte>>)
    requires keyblob.Valid() && |extra| == 3 && |parts| == 5 && forall j | 0 <= j < |parts| :: |parts[j]| <= BLOB_SIZE
    requires keyblob.Rest() == SshString(if rsa then RSA_NAME else DSS_NAME) + After(parts, 0)
    modifies keyblob`pos
    ensures numbers == Numbers(rsa, parts, extra)
  {
    AfterEach(parts);
    var name := TakeString(keyblob, if rsa then RSA_NAME else DSS_NAME, After(parts, 0));
    var a := TakeString(keyblob, parts[0], After(parts, 1));
    var b := TakeString(keyblob, parts[1], After(parts, 2));
    var c := TakeString(keyblob, parts[2], After(parts, 3));
    var d := TakeString(keyblob, parts[3], After(parts, 4));
    var e := TakeString(keyblob, parts[4], After(parts, 5));
    NumbersAre(rsa, parts, extra);
    numbers := if rsa then [[0], b, a, c, d, e] + extra else [[0], a, b, c, d, e];
  }

  lemma NumbersAre(rsa: bool, parts: seq<seq<Byte>>, extra: seq<seq<Byte>>)
    requires |extra| == 3 && |parts| == 5
    ensures rsa ==> Numbers(rsa, parts, extra) == [[0], parts[1], parts[0], parts[2], parts[3], parts[4]] + extra
  {
    assert extra == [extra[0], extra[1], extra[2]];
  }

  lemma AfterEach(parts: seq<seq<Byte>>)
    requires |parts| == 5 && forall j | 0 <= j < |parts| :: |parts[j]| < 0x1_0000_0000
    ensures forall i | 0 <= i < 5 :: After(parts, i) == SshString(parts[i]) + After(parts, i + 1)
  {
  }

  /** The strings of a blob from the i-th part on. */
  function After(parts: seq<seq<Byte>>, i: nat): seq<Byte>
    requires i <= |parts| && forall j | 0 <= j < |parts| :: |parts[j]| < 0x1_0000_0000
    decreases |parts| - i
  {
    if i == |parts| then [] else SshString(parts[i]) + After(parts, i + 1)
  }

  lemma PartsBehind(rsa: bool, parts: seq<seq<Byte>>)
    requires |parts| == 5 && forall j | 0 <= j < |parts| :: |parts[j]| < 0x1_0000_0000
    ensures KeyBlob(rsa, parts) == SshString(if rsa then RSA_NAME else DSS_NAME) + After(parts, 0)
    ensures forall i | 0 <= i < 5 :: |parts[i]| <= |KeyBlob(rsa, parts)|
  {
    assert After(parts, 5) == [];
    assert After(parts, 4) == SshString(parts[4]) + After(parts, 5) == SshString(parts[4]);
    assert After(parts, 3) == SshString(parts[3]) + After(parts, 4);
    assert After(parts, 2) == SshString(parts[2]) + After(parts, 3);
    assert After(parts, 1) == SshString(parts[1]) + After(parts, 2);
    assert After(parts, 0) == SshString(parts[0]) + After(parts, 1);
  }

  /** buf_getint, buf_getptr and buf_incrpos on the next string. */
  method TakeString(buf: Buffer, ghost s: seq<Byte>, ghost rest: seq<Byte>) returns (r: seq<Byte>)
    requires buf.Valid() && |s| <= BLOB_SIZE && buf.Rest() == SshString(s) + rest
    modifies buf`pos
    ensures buf.Valid() && r == s && buf.Rest() == rest
  {
    var ok, n := buf.GetInt();
    Int32RoundTrip(|s|);
    assert (SshString(s) + rest)[..4] == Int32(|s|) && (SshString(s) + rest)[4..] == s + rest;
    ok, r := buf.GetBytes(n);
  }

  lemma {:induction false} AllSized(numbers: seq<seq<Byte>>)
    requires |numbers| <= 9 && forall i | 0 <= i < |numbers| :: |numbers[i]| <= BLOB_SIZE
    ensures Sized(numbers) && |Body(numbers)| <= |numbers| * (BLOB_SIZE + 6) && |ToBin(|Body(numbers)|)| < 128
  {
    forall i | 0 <= i < |numbers| ensures |ToBin(|numbers[i]|)| <= 4 {
      IntLength(|numbers[i]|);
    }
    if numbers != [] { AllSized(numbers[..|numbers| - 1]); }
    IntLength(|Body(numbers)|);
  }
}
