/** The packet buffer object: a growing byte vector with a read and a write cursor. */
module PacketBuffer {
  import opened Bytes
  import opened ByteBuffer
  import opened Wrappers

  /** What writing bytes at a position leaves: the vector grows to fit, a gap is filled with zeros. */
  function Written(s: seq<Byte>, at: nat, src: seq<Byte>): (r: seq<Byte>) {
    if src == [] then s
    else
      var t := if |s| < at + |src| then s + Zeros(at + |src| - |s|) else s;
      t[..at] + src + t[at + |src|..]
  }

  lemma WrittenLength(s: seq<Byte>, at: nat, src: seq<Byte>)
    requires src != []
    ensures |Written(s, at, src)| == if |s| < at + |src| then at + |src| else |s|
  {
  }

  /** Byte by byte: the written ones, then the old ones, then the zeros of a gap. */
  lemma WrittenByte(s: seq<Byte>, at: nat, src: seq<Byte>, k: nat)
    requires src != [] && k < |Written(s, at, src)|
    ensures Written(s, at, src)[k] ==
      if at <= k < at + |src| then src[k - at] else if k < |s| then s[k] else 0
  {
  }

  lemma TwiceByte(s: seq<Byte>, at: nat, a: seq<Byte>, b: seq<Byte>, k: nat)
    requires a != [] && b != [] && k < |Written(Written(s, at, a), at + |a|, b)| == |Written(s, at, a + b)|
    ensures Written(Written(s, at, a), at + |a|, b)[k] == Written(s, at, a + b)[k]
  {
    hide Written;
    WrittenLength(s, at, a);
    WrittenByte(Written(s, at, a), at + |a|, b, k);
    WrittenByte(s, at, a + b, k);
    if k < |Written(s, at, a)| {
      WrittenByte(s, at, a, k);
    }
  }

  /** Writing in two pieces is writing the whole, wherever the cursor is. */
  lemma WrittenTwice(s: seq<Byte>, at: nat, a: seq<Byte>, b: seq<Byte>)
    ensures Written(Written(s, at, a), at + |a|, b) == Written(s, at, a + b)
  {
    if a == [] {
      assert a + b == b;
    } else if b == [] {
      assert a + b == a;
    } else {
      hide Written;
      WrittenLength(s, at, a);
      WrittenLength(s, at, a + b);
      WrittenLength(Written(s, at, a), at + |a|, b);
      var x, y := Written(Written(s, at, a), at + |a|, b), Written(s, at, a + b);
      forall k | 0 <= k < |x|
        ensures x[k] == y[k]
      {
        TwiceByte(s, at, a, b, k);
      }
    }
  }

  /** Setting the first of the written bytes afterwards. */
  lemma WrittenSet(s: seq<Byte>, at: nat, src: seq<Byte>, x: Byte)
    requires src != []
    ensures at < |Written(s, at, src)| && Written(s, at, src)[at := x] == Written(s, at, src[0 := x])
  {
    hide Written;
    WrittenLength(s, at, src);
    WrittenLength(s, at, src[0 := x]);
    var y, z := Written(s, at, src)[at := x], Written(s, at, src[0 := x]);
    forall k | 0 <= k < |y|
      ensures y[k] == z[k]
    {
      WrittenByte(s, at, src, k);
      WrittenByte(s, at, src[0 := x], k);
    }
  }

  lemma WrittenNone(s: seq<Byte>, at: nat)
    ensures Written(s, at, []) == s
  {
  }

  lemma WrittenAtEnd(s: seq<Byte>, src: seq<Byte>)
    ensures Written(s, |s|, src) == s + src
  {
  }

  function Swapped(s: seq<Byte>): (r: seq<Byte>)
    requires |s| == 2
    ensures |r| == 2
  {
    [s[1], s[0]]
  }

  function HeaderBytes(op: nat, size: nat): seq<Byte> {
    Swapped(FixedLE((size + 2) % 65536, 2)) + FixedLE(op, 2)
  }

  /** The four bytes of a header: the size counts the command, highest byte first; the command lowest byte first. */
  lemma HeaderBytesAre(op: nat, size: nat)
    requires op < 65536
    ensures var h := HeaderBytes(op, size);
      |h| == 4 && h[0] as int * 256 + h[1] as int == (size + 2) % 65536 && h[2] as int + 256 * h[3] as int == op
  {
    var n := (size + 2) % 65536;
    FixedLEAt(n, 2, 0);
    FixedLEAt(n, 2, 1);
    FixedLEAt(op, 2, 0);
    FixedLEAt(op, 2, 1);
    assert Pow256(0) == 1 && Pow256(1) == 256;
  }

  lemma LEOfTwo(s: seq<Byte>)
    requires |s| == 2
    ensures LE(s) == s[0] as int + 256 * s[1] as int
  {
    assert s == [s[0]] + [s[1]];
    LEAppend([s[0]], [s[1]]);
    LEOne(s[0]);
    LEOne(s[1]);
    assert Pow256(1) == 256;
  }

  lemma SwapNumber(s: seq<Byte>)
    requires |s| == 2
    ensures FixedLE(LE(s), 2) == s
  {
    hide LE, FixedLE;
    LEBound(s);
    FixedLEValue(LE(s), 2);
    LEInjective(FixedLE(LE(s), 2), s);
  }

  /** Patching a header touches the header alone, and the accessors read back what was patched in. */
  lemma HeaderReadsBack(s: seq<Byte>, op: nat, size: nat)
    requires |s| >= 4 && op < 65536 && size < 65536
    ensures var t := Written(Written(s, 2, FixedLE(op, 2)), 0, Swapped(FixedLE((size + 2) % 65536, 2)));
      && t == HeaderBytes(op, size) + s[4..]
      && LE(t[2..4]) == op && LE(Swapped(t[0..2])) == (size + 2) % 65536
  {
    assert Pow256(2) == 65536 by { assert Pow256(1) == 256; }
    FixedLEValue(op, 2);
    FixedLEValue((size + 2) % 65536, 2);
    hide LE, FixedLE;
    var a, b := FixedLE(op, 2), Swapped(FixedLE((size + 2) % 65536, 2));
    var u := Written(s, 2, a);
    assert u == s[..2] + a + s[4..];
    var t := Written(u, 0, b);
    assert t == b + u[2..] && u[2..] == a + s[4..];
    assert t[2..4] == a && t[0..2] == b && Swapped(b) == FixedLE((size + 2) % 65536, 2);
  }

  lemma MaskStays(s: seq<Byte>, at: nat, mask: Byte, tail: seq<Byte>)
    ensures at < |Written(s, at, [mask] + tail)| && Written(s, at, [mask] + tail)[at] == mask
  {
    WrittenLength(s, at, [mask] + tail);
    WrittenByte(s, at, [mask] + tail, at);
  }

  lemma JoinNext(elems: seq<Value>, t: Value, rest: seq<Value>)
    ensures elems + ([t] + rest) == elems + [t] + rest
  {
  }

  /** The first of several elements, and the others behind it. */
  lemma RestStep(elem: Type, left: nat, s: seq<Byte>, pos: nat)
    requires left > 0 && pos <= |s| && DecodeAll(elem, left, s, pos).Some?
    ensures Decode(elem, s, pos).Some?
    ensures var x := Decode(elem, s, pos).value;
      var r := DecodeAll(elem, left - 1, s, x.1);
      r.Some? && DecodeAll(elem, left, s, pos).value == ([x.0] + r.value.0, r.value.1)
  {
    hide Decode;
  }

  lemma PackStart(guid: nat)
    ensures PackMask(guid, 0) == 0 && PackBytes(guid, 0) == []
  {
  }

  lemma BitFits(guid: nat, i: nat)
    requires i < 8
    ensures PackMask(guid, i) < Pow2(i) && PackMask(guid, i + 1) < 256 && Pow2(i + 1) == 2 * Pow2(i)
  {
    Pow2Monotone(i + 1, 8);
    Pow2Of8();
  }

  lemma {:induction false} Pow2Monotone(m: nat, n: nat)
    requires m <= n
    ensures Pow2(m) <= Pow2(n)
  {
    if m < n {
      Pow2Monotone(m, n - 1);
    }
  }

  class Buffer {
    var storage: seq<Byte>
    var rpos: nat
    var wpos: nat

    constructor ()
      ensures storage == [] && rpos == 0 && wpos == 0
    {
      storage, rpos, wpos := [], 0, 0;
    }

    /** A packet to send: the write cursor starts behind the header, which is patched in. */
    constructor ServerPacket(op: nat, size: nat)
      requires op < 65536 && size < 65536
      ensures storage == HeaderBytes(op, size) && rpos == 0 && wpos == 4
    {
      storage, rpos, wpos := [], 0, 4;
      new;
      SetOpcode(op);
      SetSize(size);
    }

    method AppendBytes(src: seq<Byte>)
      requires src != [] ==> |storage| < SIZE_LIMIT
      modifies this`storage, this`wpos
      ensures storage == Written(old(storage), old(wpos), src) && wpos == old(wpos) + |src|
      ensures |storage| == if src != [] && |old(storage)| < wpos then wpos else |old(storage)|
    {
      if |src| == 0 {
        return;
      }
      if |storage| < wpos + |src| {
        storage := storage + Zeros(wpos + |src| - |storage|);
      }
      storage := storage[..wpos] + src + storage[wpos + |src|..];
      wpos := wpos + |src|;
    }

    /** `operator<<` on any value: containers write their count, then their elements. */
    method Write(v: Value)
      requires |storage| < SIZE_LIMIT && wpos + |Encode(v)| < SIZE_LIMIT
      modifies this`storage, this`wpos
      ensures storage == Written(old(storage), old(wpos), Encode(v)) && wpos == old(wpos) + |Encode(v)|
      ensures |storage| < SIZE_LIMIT
      ensures old(wpos) == |old(storage)| ==> storage == old(storage) + Encode(v)
      decreases v, 1
    {
      hide FixedLE, EncodeAll, EncodeEntries, Wrap, Written;
      match v {
      case Unsigned(w, n) => AppendBytes(FixedLE(n, w));
      case Signed(w, i) => AppendBytes(FixedLE(Wrap(i, w), w));
      case Float(raw) => AppendBytes(raw);
      case Text(chars) =>
        WrittenTwice(storage, wpos, chars, [0]);
        AppendBytes(chars);
        AppendBytes([0]);
      case List(elems) =>
        WrittenTwice(storage, wpos, FixedLE(|elems|, 4), EncodeAll(elems));
        AppendBytes(FixedLE(|elems|, 4));
        WriteElems(elems);
      case Map(entries) =>
        WrittenTwice(storage, wpos, FixedLE(|entries|, 4), EncodeEntries(entries));
        AppendBytes(FixedLE(|entries|, 4));
        WriteEntries(entries);
      }
      WrittenAtEnd(old(storage), Encode(v));
    }

    method WriteElems(elems: seq<Value>)
      requires |storage| < SIZE_LIMIT && wpos + |EncodeAll(elems)| < SIZE_LIMIT
      modifies this`storage, this`wpos
      ensures storage == Written(old(storage), old(wpos), EncodeAll(elems)) && wpos == old(wpos) + |EncodeAll(elems)|
      ensures |storage| < SIZE_LIMIT
      ensures old(wpos) == |old(storage)| ==> storage == old(storage) + EncodeAll(elems)
      decreases elems, 0
    {
      hide Encode, Written;
      var i := 0;
      while i < |elems|
        invariant i <= |elems| && |storage| < SIZE_LIMIT
        invariant wpos + |EncodeAll(elems[i..])| == old(wpos) + |EncodeAll(elems)|
        invariant Written(storage, wpos, EncodeAll(elems[i..])) == Written(old(storage), old(wpos), EncodeAll(elems))
      {
        assert elems[i..][0] == elems[i] && elems[i..][1..] == elems[i + 1..];
        WrittenTwice(storage, wpos, Encode(elems[i]), EncodeAll(elems[i + 1..]));
        Write(elems[i]);
        i := i + 1;
      }
      assert elems[i..] == [];
      WrittenNone(storage, wpos);
      WrittenAtEnd(old(storage), EncodeAll(elems));
    }

    method WriteEntries(entries: seq<Entry>)
      requires |storage| < SIZE_LIMIT && wpos + |EncodeEntries(entries)| < SIZE_LIMIT
      modifies this`storage, this`wpos
      ensures storage == Written(old(storage), old(wpos), EncodeEntries(entries))
      ensures wpos == old(wpos) + |EncodeEntries(entries)| && |storage| < SIZE_LIMIT
      decreases entries, 0
    {
      hide EncodeEntry, Written;
      var i := 0;
      while i < |entries|
        invariant i <= |entries| && |storage| < SIZE_LIMIT
        invariant wpos + |EncodeEntries(entries[i..])| == old(wpos) + |EncodeEntries(entries)|
        invariant Written(storage, wpos, EncodeEntries(entries[i..]))
          == Written(old(storage), old(wpos), EncodeEntries(entries))
      {
        assert entries[i..][0] == entries[i] && entries[i..][1..] == entries[i + 1..];
        WrittenTwice(storage, wpos, EncodeEntry(entries[i]), EncodeEntries(entries[i + 1..]));
        WriteEntry(entries[i]);
        i := i + 1;
      }
      assert entries[i..] == [];
      WrittenNone(storage, wpos);
    }

    method WriteEntry(e: Entry)
      requires |storage| < SIZE_LIMIT && wpos + |EncodeEntry(e)| < SIZE_LIMIT
      modifies this`storage, this`wpos
      ensures storage == Written(old(storage), old(wpos), EncodeEntry(e)) && wpos == old(wpos) + |EncodeEntry(e)|
      ensures |storage| < SIZE_LIMIT
      decreases e, 0
    {
      hide Encode, Written;
      WrittenTwice(storage, wpos, Encode(e.key), Encode(e.val));
      Write(e.key);
      Write(e.val);
    }

    /** `operator>>` on any type, where the position checks hold. */
    method Read(t: Type) returns (v: Value)
      requires rpos <= |storage| && Decode(t, storage, rpos).Some?
      modifies this`rpos
      ensures Decode(t, storage, old(rpos)) == Some((v, rpos))
      decreases t, 0
    {
      match t
      case TUnsigned(w) =>
        var n := ReadUnsigned(w);
        v := Unsigned(w, n);
      case TSigned(w) =>
        var n := ReadUnsigned(w);
        v := Signed(w, Unwrap(n, w));
      case TFloat(w) =>
        v := Float(storage[rpos..rpos + w]);
        rpos := rpos + w;
      case TString =>
        var chars := ReadText();
        v := Text(chars);
      case TList(elem) =>
        var n := ReadUnsigned(4);
        var elems := ReadElems(elem, n);
        v := List(elems);
      case TMap(key, val) =>
        var n := ReadUnsigned(4);
        var entries := ReadEntries(key, val, n);
        v := Map(entries);
    }

    method ReadUnsigned(w: nat) returns (n: nat)
      requires rpos + w <= |storage|
      modifies this`rpos
      ensures ReadNumber(storage, old(rpos), w) == Some(n) && rpos == old(rpos) + w
    {
      n := LE(storage[rpos..rpos + w]);
      rpos := rpos + w;
    }

    /** Stops at the end of the buffer even without a terminator. */
    method ReadText() returns (chars: seq<Byte>)
      requires rpos <= |storage|
      modifies this`rpos
      ensures (chars, rpos) == ReadString(storage, old(rpos))
    {
      chars := [];
      ghost var all := ReadString(storage, rpos);
      assert [] + all.0 == all.0;
      while rpos < |storage|
        invariant rpos <= |storage|
        invariant chars + ReadString(storage, rpos).0 == all.0 && ReadString(storage, rpos).1 == all.1
      {
        var c := storage[rpos];
        ghost var rest := ReadString(storage, rpos);
        rpos := rpos + 1;
        if c == 0 {
          assert chars + [] == chars;
          return;
        }
        assert chars + rest.0 == (chars + [c]) + ReadString(storage, rpos).0;
        chars := chars + [c];
      }
      assert chars + [] == chars;
    }

    method ReadElems(elem: Type, n: nat) returns (elems: seq<Value>)
      requires rpos <= |storage| && DecodeAll(elem, n, storage, rpos).Some?
      modifies this`rpos
      ensures DecodeAll(elem, n, storage, old(rpos)) == Some((elems, rpos))
      decreases elem, 1, n
    {
      hide Decode;
      elems := [];
      var left: nat := n;
      ghost var all := DecodeAll(elem, n, storage, rpos);
      assert [] + all.value.0 == all.value.0;
      while left > 0
        invariant left <= n && rpos <= |storage|
        invariant Rest(elem, left, elems, all)
        decreases left
      {
        RestStep(elem, left, storage, rpos);
        ghost var r := DecodeAll(elem, left, storage, rpos).value.0;
        var t := Read(elem);
        JoinNext(elems, t, DecodeAll(elem, left - 1, storage, rpos).value.0);
        elems := elems + [t];
        left := left - 1;
      }
      assert elems + [] == elems;
    }

    /** What is left to decode, behind the elements read so far, is the whole. */
    ghost predicate Rest(elem: Type, left: nat, elems: seq<Value>, all: Option<(seq<Value>, nat)>)
      requires rpos <= |storage|
      reads this`storage, this`rpos
    {
      var r := DecodeAll(elem, left, storage, rpos);
      r.Some? && all.Some? && elems + r.value.0 == all.value.0 && r.value.1 == all.value.1
    }

    /** std::map::insert keeps the entry that is there. */
    method ReadEntries(key: Type, val: Type, n: nat) returns (entries: seq<Entry>)
      requires rpos <= |storage| && DecodeEntries(key, val, n, storage, rpos).Some?
      modifies this`rpos
      ensures DecodeEntries(key, val, n, storage, old(rpos)) == Some((entries, rpos))
      decreases TMap(key, val), 0, n
    {
      hide Decode;
      if n == 0 {
        return [];
      }
      var k := Read(key);
      var v := Read(val);
      var rest := ReadEntries(key, val, n - 1);
      entries := [Entry(k, v)] + WithoutKey(k, rest);
    }

    /** The mask byte is written first and completed bit by bit while the non-zero bytes follow. */
    method AppendPackGuid(guid: nat)
      requires guid < Pow256(8) && |storage| < SIZE_LIMIT - 9 && wpos < SIZE_LIMIT - 9
      modifies this`storage, this`wpos
      ensures storage == Written(old(storage), old(wpos), PackGuid(guid)) && wpos == old(wpos) + |PackGuid(guid)|
      ensures old(wpos) == |old(storage)| ==> storage == old(storage) + PackGuid(guid)
    {
      hide PackMask, PackBytes, Pow2, Written;
      var at := wpos;
      AppendBytes([0]);
      var g, i := guid, 0;
      var bit: nat := 1;
      Pow2Of8();
      PackStart(guid);
      assert [0] + PackBytes(guid, 0) == [0];
      while i < 8
        invariant i <= 8 && bit == Pow2(i) && g == Shifted(guid, i)
        invariant |PackBytes(guid, i)| <= i && |storage| < SIZE_LIMIT - 8 + i
        invariant PackMask(guid, i) < 256
        invariant wpos == at + 1 + |PackBytes(guid, i)|
        invariant storage == Written(old(storage), at, [PackMask(guid, i)] + PackBytes(guid, i))
      {
        PackNext(guid, i);
        ShiftedNext(guid, i);
        BitFits(guid, i);
        var mask: Byte, tail := PackMask(guid, i), PackBytes(guid, i);
        if g % 256 != 0 {
          // The bit is still clear, so setting it is adding it.
          WrittenSet(old(storage), at, [mask] + tail, mask + bit);
          MaskStays(old(storage), at, mask, tail);
          storage := storage[at := storage[at] + bit];
          assert ([mask] + tail)[0 := mask + bit] == [mask + bit] + tail;
          WrittenTwice(old(storage), at, [mask + bit] + tail, [g % 256]);
          AppendBytes([g % 256]);
          assert [mask + bit] + tail + [g % 256] == [mask + bit] + (tail + [g % 256]);
        } else {
          assert tail + [] == tail;
        }
        g := g / 256;
        i, bit := i + 1, bit * 2;
      }
      WrittenAtEnd(old(storage), PackGuid(guid));
    }

    // ---------------------------------------------------------------- header patching

    /** The size excludes itself, is kept in network order, and counts the command's two bytes. */
    method SetSize(size: nat)
      requires size < 65536 && |storage| < SIZE_LIMIT
      modifies this`storage, this`wpos
      ensures wpos == old(wpos)
      ensures storage == Written(old(storage), 0, Swapped(FixedLE((size + 2) % 65536, 2)))
    {
      var tmp := wpos;
      wpos := 0;
      AppendBytes(Swapped(FixedLE((size + 2) % 65536, 2)));
      wpos := tmp;
    }

    method SetOpcode(op: nat)
      requires op < 65536 && |storage| < SIZE_LIMIT
      modifies this`storage, this`wpos
      ensures wpos == old(wpos)
      ensures storage == Written(old(storage), 2, FixedLE(op, 2))
    {
      var tmp := wpos;
      wpos := 2;
      AppendBytes(FixedLE(op, 2));
      wpos := tmp;
    }

    /** The opcode field; the read cursor comes back to where it was. */
    method Opcode() returns (op: nat)
      requires |storage| >= 4
      modifies this`rpos
      ensures rpos == old(rpos) && op == LE(storage[2..4])
      ensures op == storage[2] as int + 256 * storage[3] as int
    {
      var tmp := rpos;
      rpos := 2;
      op := ReadUnsigned(2);
      rpos := tmp;
      LEOfTwo(storage[2..4]);
    }

    method Size() returns (size: nat)
      requires |storage| >= 2
      modifies this`rpos
      ensures rpos == old(rpos) && size == LE(Swapped(storage[0..2]))
      ensures size == storage[0] as int * 256 + storage[1] as int
    {
      var tmp := rpos;
      rpos := 0;
      var n := ReadUnsigned(2);
      rpos := tmp;
      SwapNumber(storage[0..2]);
      size := LE(Swapped(FixedLE(n, 2)));
      LEOfTwo(Swapped(storage[0..2]));
    }
  }
}
