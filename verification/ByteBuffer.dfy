/**
 The packet buffer: a growing byte vector with a read and a write cursor, and the typed values
 streamed through it.
 */
module ByteBuffer {
  import opened Bytes
  import opened Wrappers

  const SIZE_LIMIT: nat := 10000000

  // ---------------------------------------------------------------- typed values

  /** The types that can be written and read. Floating-point values are opaque bytes of their width. */
  datatype Type =
    | TUnsigned(width: nat) | TSigned(width: nat) | TFloat(width: nat) | TString
    | TList(elem: Type) | TMap(key: Type, val: Type)

  datatype Value =
    | Unsigned(width: nat, n: nat) | Signed(width: nat, i: int) | Float(raw: seq<Byte>) | Text(chars: seq<Byte>)
    | List(elems: seq<Value>) | Map(entries: seq<Entry>)

  datatype Entry = Entry(key: Value, val: Value)

  predicate HasType(v: Value, t: Type) {
    match (v, t)
    case (Unsigned(w, n), TUnsigned(tw)) => w == tw && n < Pow256(w)
    case (Signed(w, i), TSigned(tw)) => w == tw && w > 0 && 0 <= 2 * i + Pow256(w) < 2 * Pow256(w)
    case (Float(raw), TFloat(tw)) => |raw| == tw
    case (Text(chars), TString) => 0 !in chars
    case (List(elems), TList(elem)) => |elems| < Pow256(4) && forall k :: 0 <= k < |elems| ==> HasType(elems[k], elem)
    case (Map(entries), TMap(key, val)) =>
      && |entries| < Pow256(4)
      && (forall k :: 0 <= k < |entries| ==> HasType(entries[k].key, key) && HasType(entries[k].val, val))
      && DistinctKeys(entries)
    case _ => false
  }

  predicate DistinctKeys(entries: seq<Entry>) {
    forall j, k :: 0 <= j < k < |entries| ==> entries[j].key != entries[k].key
  }

  /** Two's complement in the given width. */
  function Wrap(i: int, width: nat): nat {
    i % Pow256(width)
  }

  function Unwrap(n: nat, width: nat): int {
    if 2 * n < Pow256(width) then n else n - Pow256(width)
  }

  function Encode(v: Value): seq<Byte>
    decreases v, 1
  {
    match v
    case Unsigned(w, n) => FixedLE(n, w)
    case Signed(w, i) => FixedLE(Wrap(i, w), w)
    case Float(raw) => raw
    case Text(chars) => chars + [0]
    case List(elems) => FixedLE(|elems|, 4) + EncodeAll(elems)
    case Map(entries) => FixedLE(|entries|, 4) + EncodeEntries(entries)
  }

  function EncodeAll(elems: seq<Value>): seq<Byte>
    decreases elems, 0
  {
    if elems == [] then [] else Encode(elems[0]) + EncodeAll(elems[1..])
  }

  function EncodeEntries(entries: seq<Entry>): seq<Byte>
    decreases entries, 0
  {
    if entries == [] then [] else EncodeEntry(entries[0]) + EncodeEntries(entries[1..])
  }

  function EncodeEntry(e: Entry): seq<Byte>
    decreases e, 0
  {
    Encode(e.key) + Encode(e.val)
  }

  // ---------------------------------------------------------------- reading

  function ReadString(s: seq<Byte>, pos: nat): (r: (seq<Byte>, nat))
    requires pos <= |s|
    ensures pos <= r.1 <= |s|
    decreases |s| - pos
  {
    if pos == |s| then ([], pos)
    else if s[pos] == 0 then ([], pos + 1)
    else
      var (t, p) := ReadString(s, pos + 1);
      ([s[pos]] + t, p)
  }

  function ReadNumber(s: seq<Byte>, pos: nat, width: nat): Option<nat> {
    if pos + width <= |s| then Some(LE(s[pos..pos + width])) else None
  }

  /** The value at a position and the position behind it; None where the position check fails. */
  function Decode(t: Type, s: seq<Byte>, pos: nat): (r: Option<(Value, nat)>)
    requires pos <= |s|
    ensures r.Some? ==> pos <= r.value.1 <= |s|
    decreases t, 0
  {
    match t
    case TUnsigned(w) =>
      var n := ReadNumber(s, pos, w);
      if n.None? then None else Some((Unsigned(w, n.value), pos + w))
    case TSigned(w) =>
      var n := ReadNumber(s, pos, w);
      if n.None? then None else Some((Signed(w, Unwrap(n.value, w)), pos + w))
    case TFloat(w) => if pos + w <= |s| then Some((Float(s[pos..pos + w]), pos + w)) else None
    case TString =>
      var (chars, p) := ReadString(s, pos);
      Some((Text(chars), p))
    case TList(elem) =>
      var n := ReadNumber(s, pos, 4);
      if n.None? then None
      else
        var r := DecodeAll(elem, n.value, s, pos + 4);
        if r.None? then None else Some((List(r.value.0), r.value.1))
    case TMap(key, val) =>
      var n := ReadNumber(s, pos, 4);
      if n.None? then None
      else
        var r := DecodeEntries(key, val, n.value, s, pos + 4);
        if r.None? then None else Some((Map(r.value.0), r.value.1))
  }

  function DecodeAll(elem: Type, n: nat, s: seq<Byte>, pos: nat): (r: Option<(seq<Value>, nat)>)
    requires pos <= |s|
    ensures r.Some? ==> pos <= r.value.1 <= |s|
    decreases elem, 1, n
  {
    if n == 0 then Some(([], pos))
    else
      var x := Decode(elem, s, pos);
      if x.None? then None
      else
        var r := DecodeAll(elem, n - 1, s, x.value.1);
        if r.None? then None else Some(([x.value.0] + r.value.0, r.value.1))
  }

  /** A later entry with a key that is there already is read and dropped. */
  function DecodeEntries(key: Type, val: Type, n: nat, s: seq<Byte>, pos: nat): (r: Option<(seq<Entry>, nat)>)
    requires pos <= |s|
    ensures r.Some? ==> pos <= r.value.1 <= |s|
    decreases TMap(key, val), 0, n
  {
    if n == 0 then Some(([], pos))
    else
      var x := DecodeEntry(key, val, s, pos);
      if x.None? then None
      else
        var r := DecodeEntries(key, val, n - 1, s, x.value.1);
        if r.None? then None
        else Some(([x.value.0] + WithoutKey(x.value.0.key, r.value.0), r.value.1))
  }

  function DecodeEntry(key: Type, val: Type, s: seq<Byte>, pos: nat): (r: Option<(Entry, nat)>)
    requires pos <= |s|
    ensures r.Some? ==> pos <= r.value.1 <= |s|
    decreases TMap(key, val), 0, 0
  {
    var k := Decode(key, s, pos);
    if k.None? then None
    else
      var v := Decode(val, s, k.value.1);
      if v.None? then None else Some((Entry(k.value.0, v.value.0), v.value.1))
  }

  function WithoutKey(k: Value, entries: seq<Entry>): seq<Entry> {
    if entries == [] then []
    else (if entries[0].key == k then [] else [entries[0]]) + WithoutKey(k, entries[1..])
  }

  // ---------------------------------------------------------------- what is written is read back

  lemma Placed(pre: seq<Byte>, mid: seq<Byte>, post: seq<Byte>)
    ensures (pre + mid + post)[|pre|..|pre| + |mid|] == mid
  {
  }

  lemma NumberRoundTrip(n: nat, width: nat, pre: seq<Byte>, post: seq<Byte>)
    requires n < Pow256(width)
    ensures ReadNumber(pre + FixedLE(n, width) + post, |pre|, width) == Some(n)
  {
  }

  lemma WrapRoundTrip(i: int, width: nat)
    requires 0 <= 2 * i + Pow256(width) < 2 * Pow256(width) && width > 0
    ensures Wrap(i, width) < Pow256(width) && Unwrap(Wrap(i, width), width) == i
  {
    var m := Pow256(width);
    if i < 0 {
      ModOf(i + m, m, -1);
      assert Wrap(i, width) == i + m;
    } else {
      ModOf(i, m, 0);
    }
  }

  lemma ModOf(r: int, m: nat, q: int)
    requires 0 <= r < m && (q == 0 || q == -1)
    ensures (r + q * m) % m == r
  {
  }

  lemma {:induction false} TextRoundTrip(chars: seq<Byte>, pre: seq<Byte>, post: seq<Byte>)
    requires 0 !in chars
    ensures ReadString(pre + (chars + [0]) + post, |pre|) == (chars, |pre| + |chars| + 1)
    decreases |chars|
  {
    var s := pre + (chars + [0]) + post;
    if chars == [] {
      assert s[|pre|] == 0;
    } else {
      TextRoundTrip(chars[1..], pre + [chars[0]], post);
      assert s == (pre + [chars[0]]) + (chars[1..] + [0]) + post;
      assert s[|pre|] == chars[0] != 0;
      assert chars == [chars[0]] + chars[1..];
    }
  }

  lemma Regroup(a: seq<Byte>, b: seq<Byte>, c: seq<Byte>, d: seq<Byte>)
    ensures a + (b + c) + d == (a + b) + c + d == a + b + (c + d)
  {
  }

  // What the bytes of each kind of value are.

  /** A string is read up to its zero, or to the end where there is none. */
  lemma {:induction false} StringRead(s: seq<Byte>, pos: nat, z: nat)
    requires pos <= z <= |s| && 0 !in s[pos..z] && (z < |s| ==> s[z] == 0)
    ensures ReadString(s, pos) == (s[pos..z], if z < |s| then z + 1 else z)
    decreases z - pos
  {
    if pos < z {
      assert s[pos..z][0] == s[pos] && s[pos..z] == [s[pos]] + s[pos + 1..z];
      assert forall c :: c in s[pos + 1..z] ==> c in s[pos..z];
      StringRead(s, pos + 1, z);
    } else {
      assert s[pos..z] == [];
    }
  }

  /** A number is written lowest byte first, and cut to its width. */
  lemma NumberBytes(w: nat, n: nat, k: nat)
    requires k < w
    ensures |Encode(Unsigned(w, n))| == w && Encode(Unsigned(w, n))[k] == n / Pow256(k) % 256
  {
    FixedLEAt(n, w, k);
  }

  /** A signed number is written in two's complement. */
  lemma SignedBytes(w: nat, i: int)
    requires HasType(Signed(w, i), TSigned(w))
    ensures |Encode(Signed(w, i))| == w && LE(Encode(Signed(w, i))) == if i >= 0 then i else i + Pow256(w)
  {
    hide FixedLE, LE, Pow256;
    WrapRoundTrip(i, w);
    FixedLEValue(Wrap(i, w), w);
    if i < 0 {
      ModOf(i + Pow256(w), Pow256(w), -1);
    } else {
      ModOf(i, Pow256(w), 0);
    }
  }

  /** A text is its characters and a zero; raw bytes are themselves. */
  lemma TextBytes(chars: seq<Byte>, raw: seq<Byte>)
    ensures |Encode(Text(chars))| == |chars| + 1 && Encode(Text(chars))[..|chars|] == chars
    ensures Encode(Text(chars))[|chars|] == 0 && Encode(Float(raw)) == raw
  {
  }

  /** A container is its count in four bytes, and behind it the elements, or key and value in turn. */
  lemma ContainerBytes(elems: seq<Value>, entries: seq<Entry>)
    ensures LE(Encode(List(elems))[..4]) == |elems| % Pow256(4) && Encode(List(elems))[4..] == EncodeAll(elems)
    ensures LE(Encode(Map(entries))[..4]) == |entries| % Pow256(4)
    ensures Encode(Map(entries))[4..] == EncodeEntries(entries)
  {
    hide FixedLE, LE, Pow256, EncodeAll, EncodeEntries;
    FixedLECuts(|elems|, 4);
    FixedLECuts(|entries|, 4);
    assert Encode(List(elems))[..4] == FixedLE(|elems|, 4) && Encode(Map(entries))[..4] == FixedLE(|entries|, 4);
  }

  lemma {:induction false} ElementsJoin(a: seq<Value>, b: seq<Value>)
    ensures EncodeAll(a + b) == EncodeAll(a) + EncodeAll(b)
    ensures |a| == 1 ==> EncodeAll(a) == Encode(a[0])
  {
    hide Encode;
    if a == [] {
      assert a + b == b;
    } else {
      ElementsJoin(a[1..], b);
      assert (a + b)[1..] == a[1..] + b;
    }
  }

  lemma {:induction false} EntriesJoin(a: seq<Entry>, b: seq<Entry>)
    ensures EncodeEntries(a + b) == EncodeEntries(a) + EncodeEntries(b)
    ensures |a| == 1 ==> EncodeEntries(a) == Encode(a[0].key) + Encode(a[0].val)
  {
    hide Encode;
    if a == [] {
      assert a + b == b;
    } else {
      EntriesJoin(a[1..], b);
      assert (a + b)[1..] == a[1..] + b;
    }
  }

  /** Numbers and raw bytes fail to be read exactly where the buffer ends before them; strings never fail. */
  lemma ReadsExactly(w: nat, s: seq<Byte>, pos: nat)
    requires pos <= |s|
    ensures Decode(TUnsigned(w), s, pos).None? <==> pos + w > |s|
    ensures Decode(TSigned(w), s, pos).None? <==> pos + w > |s|
    ensures Decode(TFloat(w), s, pos).None? <==> pos + w > |s|
    ensures Decode(TString, s, pos).Some?
  {
    hide ReadString, LE;
  }

  lemma {:induction false} WithoutKeyMembers(k: Value, entries: seq<Entry>)
    ensures forall e :: e in WithoutKey(k, entries) <==> e in entries && e.key != k
    ensures DistinctKeys(entries) ==> DistinctKeys(WithoutKey(k, entries))
  {
    if entries != [] {
      WithoutKeyMembers(k, entries[1..]);
      var rest := WithoutKey(k, entries[1..]);
      assert forall e :: e in entries <==> e == entries[0] || e in entries[1..];
      if DistinctKeys(entries) && entries[0].key != k {
        forall j | 0 <= j < |rest|
          ensures rest[j].key != entries[0].key
        {
          assert rest[j] in entries[1..];
        }
      }
    }
  }

  /** Whatever the bytes, no key is read twice; and the first entry read is kept as it is. */
  lemma {:induction false} KeysReadOnce(key: Type, val: Type, n: nat, s: seq<Byte>, pos: nat)
    requires pos <= |s| && DecodeEntries(key, val, n, s, pos).Some?
    ensures DistinctKeys(DecodeEntries(key, val, n, s, pos).value.0)
    ensures n > 0 ==>
      var r := DecodeEntries(key, val, n, s, pos).value.0;
      r != [] && DecodeEntry(key, val, s, pos).Some? && r[0] == DecodeEntry(key, val, s, pos).value.0
    decreases n
  {
    hide DecodeEntry;
    if n > 0 {
      var x := DecodeEntry(key, val, s, pos).value;
      KeysReadOnce(key, val, n - 1, s, x.1);
      var rest := DecodeEntries(key, val, n - 1, s, x.1).value.0;
      WithoutKeyMembers(x.0.key, rest);
      var w := WithoutKey(x.0.key, rest);
      forall j | 0 <= j < |w|
        ensures w[j].key != x.0.key
      {
        assert w[j] in w;
      }
    }
  }

  /** Reading a type at the place where a value of that type was written yields the value and stops right behind it. */
  lemma {:induction false} RoundTrip(v: Value, t: Type, pre: seq<Byte>, post: seq<Byte>)
    requires HasType(v, t)
    ensures Decode(t, pre + Encode(v) + post, |pre|) == Some((v, |pre| + |Encode(v)|))
    decreases v, 1
  {
    hide ReadNumber, ReadString, Wrap, Unwrap, FixedLE;
    var s := pre + Encode(v) + post;
    match v
    case Unsigned(w, n) => NumberRoundTrip(n, w, pre, post);
    case Signed(w, i) =>
      WrapRoundTrip(i, w);
      NumberRoundTrip(Wrap(i, w), w, pre, post);
    case Float(raw) => Placed(pre, raw, post);
    case Text(chars) => TextRoundTrip(chars, pre, post);
    case List(elems) =>
      var c := FixedLE(|elems|, 4);
      Regroup(pre, c, EncodeAll(elems), post);
      NumberRoundTrip(|elems|, 4, pre, EncodeAll(elems) + post);
      AllRoundTrip(elems, t.elem, pre + c, post);
    case Map(entries) =>
      var c := FixedLE(|entries|, 4);
      Regroup(pre, c, EncodeEntries(entries), post);
      NumberRoundTrip(|entries|, 4, pre, EncodeEntries(entries) + post);
      EntriesRoundTrip(entries, t.key, t.val, pre + c, post);
  }

  lemma {:induction false} AllRoundTrip(elems: seq<Value>, elem: Type, pre: seq<Byte>, post: seq<Byte>)
    requires forall k :: 0 <= k < |elems| ==> HasType(elems[k], elem)
    ensures DecodeAll(elem, |elems|, pre + EncodeAll(elems) + post, |pre|) == Some((elems, |pre| + |EncodeAll(elems)|))
    decreases elems, 0
  {
    hide Decode, HasType;
    if elems != [] {
      var e, r := Encode(elems[0]), EncodeAll(elems[1..]);
      Regroup(pre, e, r, post);
      RoundTrip(elems[0], elem, pre, r + post);
      AllRoundTrip(elems[1..], elem, pre + e, post);
      assert elems == [elems[0]] + elems[1..];
    }
  }

  lemma {:induction false} EntriesRoundTrip(entries: seq<Entry>, key: Type, val: Type, pre: seq<Byte>, post: seq<Byte>)
    requires forall k :: 0 <= k < |entries| ==> HasType(entries[k].key, key) && HasType(entries[k].val, val)
    requires DistinctKeys(entries)
    ensures DecodeEntries(key, val, |entries|, pre + EncodeEntries(entries) + post, |pre|)
      == Some((entries, |pre| + |EncodeEntries(entries)|))
    decreases entries, 0
  {
    hide DecodeEntry, HasType, EncodeEntry, WithoutKey, DistinctKeys;
    if entries != [] {
      var e, rest := entries[0], entries[1..];
      var b, r := EncodeEntry(e), EncodeEntries(rest);
      Regroup(pre, b, r, post);
      EntryRoundTrip(e, key, val, pre, r + post);
      DistinctTail(entries);
      EntriesRoundTrip(rest, key, val, pre + b, post);
      assert entries == [e] + rest;
    }
  }

  lemma DistinctTail(entries: seq<Entry>)
    requires entries != [] && DistinctKeys(entries)
    ensures DistinctKeys(entries[1..]) && WithoutKey(entries[0].key, entries[1..]) == entries[1..]
  {
    AllDiffer(entries[0].key, entries[1..]);
  }

  lemma {:induction false} EntryRoundTrip(e: Entry, key: Type, val: Type, pre: seq<Byte>, post: seq<Byte>)
    requires HasType(e.key, key) && HasType(e.val, val)
    ensures DecodeEntry(key, val, pre + EncodeEntry(e) + post, |pre|) == Some((e, |pre| + |EncodeEntry(e)|))
    decreases e, 0
  {
    hide Decode, HasType;
    var k, v := Encode(e.key), Encode(e.val);
    Regroup(pre, k, v, post);
    RoundTrip(e.key, key, pre, v + post);
    RoundTrip(e.val, val, pre + k, post);
  }

  lemma {:induction false} AllDiffer(k: Value, entries: seq<Entry>)
    requires forall j :: 0 <= j < |entries| ==> entries[j].key != k
    ensures WithoutKey(k, entries) == entries
  {
    if entries != [] {
      AllDiffer(k, entries[1..]);
    }
  }

  /** A whole session: values written one after the other are read back with the cursor ending at the end. */
  function DecodeInOrder(types: seq<Type>, s: seq<Byte>, pos: nat): (r: Option<(seq<Value>, nat)>)
    requires pos <= |s|
    ensures r.Some? ==> pos <= r.value.1 <= |s|
  {
    if types == [] then Some(([], pos))
    else
      var x := Decode(types[0], s, pos);
      if x.None? then None
      else
        var r := DecodeInOrder(types[1..], s, x.value.1);
        if r.None? then None else Some(([x.value.0] + r.value.0, r.value.1))
  }

  lemma {:induction false} SessionRoundTrip(values: seq<Value>, types: seq<Type>, pre: seq<Byte>, post: seq<Byte>)
    requires |values| == |types| && forall k :: 0 <= k < |values| ==> HasType(values[k], types[k])
    ensures DecodeInOrder(types, pre + EncodeAll(values) + post, |pre|) == Some((values, |pre| + |EncodeAll(values)|))
    decreases |values|
  {
    hide Decode, HasType, Encode;
    if values != [] {
      var e, r := Encode(values[0]), EncodeAll(values[1..]);
      Regroup(pre, e, r, post);
      RoundTrip(values[0], types[0], pre, r + post);
      SessionRoundTrip(values[1..], types[1..], pre + e, post);
      assert values == [values[0]] + values[1..];
    }
  }

  // ---------------------------------------------------------------- truth values

  /** One signed char, true when it is positive. */
  function ReadBool(s: seq<Byte>, pos: nat): Option<(bool, nat)> {
    if pos < |s| then Some((0 < s[pos] < 128, pos + 1)) else None
  }

  /**
   Truth values can be read and have no writing operator of their own: written as the number they are
   promoted to, they take four bytes, of which reading takes one.
   */
  lemma BoolReadsOneOfFour(b: bool, pre: seq<Byte>, post: seq<Byte>)
    ensures var e := Encode(Signed(4, if b then 1 else 0));
      |e| == 4 && ReadBool(pre + e + post, |pre|) == Some((b, |pre| + |e| - 3))
  {
    assert Pow256(2) == 65536 && Pow256(4) == 65536 * 65536 by {
      assert Pow256(1) == 256 && Pow256(3) == 256 * 65536;
    }
    var n := if b then 1 else 0;
    assert FixedLE(n, 4)[0] == n;
  }

  /** Written as one byte they are read back exactly when the byte is below 128. */
  lemma BoolFromByte(n: Byte, pre: seq<Byte>, post: seq<Byte>)
    ensures ReadBool(pre + Encode(Unsigned(1, n)) + post, |pre|) == Some((n != 0, |pre| + 1)) <==> n < 128
  {
    assert FixedLE(n, 1) == [n] by { assert FixedLE(n / 256, 0) == []; }
  }

  // ---------------------------------------------------------------- packed identifiers

  /** Bit k of the mask says whether byte k of the identifier is written. */
  function PackMask(guid: nat, n: nat): (m: nat)
    ensures m < Pow2(n)
  {
    if n == 0 then 0 else (if guid % 256 != 0 then 1 else 0) + 2 * PackMask(guid / 256, n - 1)
  }

  function PackBytes(guid: nat, n: nat): seq<Byte> {
    if n == 0 then []
    else (if guid % 256 != 0 then [guid % 256] else []) + PackBytes(guid / 256, n - 1)
  }

  function PackGuid(guid: nat): seq<Byte> {
    Pow2Of8();
    [PackMask(guid, 8)] + PackBytes(guid, 8)
  }

  lemma Pow2Of8()
    ensures Pow2(8) == 256 && Pow2(0) == 1
  {
  }

  function NonZeroBytes(s: seq<Byte>): nat {
    if s == [] then 0 else (if s[0] != 0 then 1 else 0) + NonZeroBytes(s[1..])
  }

  /** The reader's side: the identifier and the number of bytes it took. */
  function UnpackBytes(mask: nat, n: nat, s: seq<Byte>): Option<(nat, nat)>
    decreases n
  {
    if n == 0 then Some((0, 0))
    else if mask % 2 == 0 then
      var r := UnpackBytes(mask / 2, n - 1, s);
      if r.None? then None else Some((256 * r.value.0, r.value.1))
    else if s == [] then None
    else
      var r := UnpackBytes(mask / 2, n - 1, s[1..]);
      if r.None? then None else Some((s[0] + 256 * r.value.0, 1 + r.value.1))
  }

  function UnpackGuid(s: seq<Byte>): Option<(nat, nat)> {
    if s == [] then None
    else
      var r := UnpackBytes(s[0], 8, s[1..]);
      if r.None? then None else Some((r.value.0, 1 + r.value.1))
  }

  lemma PackCons(guid: nat, n: nat, post: seq<Byte>)
    requires n > 0
    ensures var b: Byte := guid % 256;
      var tail := PackBytes(guid / 256, n - 1);
      && PackMask(guid, n) % 2 == (if b != 0 then 1 else 0) && PackMask(guid, n) / 2 == PackMask(guid / 256, n - 1)
      && (b != 0 ==> PackBytes(guid, n) == [b] + tail && (PackBytes(guid, n) + post)[1..] == tail + post)
      && (b == 0 ==> PackBytes(guid, n) == tail)
  {
  }

  lemma {:induction false} UnpackInverts(guid: nat, n: nat, post: seq<Byte>)
    requires guid < Pow256(n)
    ensures UnpackBytes(PackMask(guid, n), n, PackBytes(guid, n) + post) == Some((guid, |PackBytes(guid, n)|))
  {
    if n > 0 {
      hide PackMask, PackBytes;
      UnpackInverts(guid / 256, n - 1, post);
      PackCons(guid, n, post);
    }
  }

  lemma {:induction false} PackLength(guid: nat, n: nat)
    ensures |PackBytes(guid, n)| == NonZeroBytes(FixedLE(guid, n))
  {
    if n > 0 {
      PackLength(guid / 256, n - 1);
      assert FixedLE(guid, n)[1..] == FixedLE(guid / 256, n - 1);
    }
  }

  /**
   Whatever follows it, a packed identifier is read back and its end is found: packing is injective and
   prefix-free.
   */
  lemma GuidRoundTrip(guid: nat, post: seq<Byte>)
    requires guid < Pow256(8)
    ensures UnpackGuid(PackGuid(guid) + post) == Some((guid, |PackGuid(guid)|))
    ensures |PackGuid(guid)| == 1 + NonZeroBytes(FixedLE(guid, 8))
    ensures PackGuid(guid)[0] == PackMask(guid, 8) && PackGuid(guid)[1..] == NonZeros(FixedLE(guid, 8))
  {
    hide UnpackBytes, PackMask, PackBytes, Pow256, FixedLE, NonZeroBytes;
    UnpackInverts(guid, 8, post);
    PackLength(guid, 8);
    PackedBytes(guid, 8);
    assert (PackGuid(guid) + post)[1..] == PackBytes(guid, 8) + post;
  }

  lemma GuidPrefixFree(g: nat, h: nat)
    requires g < Pow256(8) && h < Pow256(8) && PackGuid(g) <= PackGuid(h)
    ensures g == h
  {
    hide PackGuid, UnpackGuid, Pow256;
    GuidRoundTrip(g, PackGuid(h)[|PackGuid(g)|..]);
    GuidRoundTrip(h, []);
    assert PackGuid(g) + PackGuid(h)[|PackGuid(g)|..] == PackGuid(h) == PackGuid(h) + [];
  }

  /** Bit k of the mask is set exactly when byte k is not zero. */
  lemma {:induction false} MaskBit(guid: nat, n: nat, k: nat)
    requires k < n
    ensures PackMask(guid, n) / Pow2(k) % 2 == if guid / Pow256(k) % 256 != 0 then 1 else 0
  {
    PackCons(guid, n, []);
    hide PackMask, PackBytes, Pow256, Pow2;
    if k > 0 {
      MaskBit(guid / 256, n - 1, k - 1);
      ShiftByte(guid, k);
      ShiftBit(PackMask(guid, n), k);
    } else {
      NoShift(guid);
      NoShift(PackMask(guid, n));
    }
  }

  function NonZeros(s: seq<Byte>): seq<Byte> {
    if s == [] then [] else (if s[0] != 0 then [s[0]] else []) + NonZeros(s[1..])
  }

  /** And the bytes behind the mask are those that are not zero, the lowest first. */
  lemma {:induction false} PackedBytes(guid: nat, n: nat)
    ensures PackBytes(guid, n) == NonZeros(FixedLE(guid, n))
  {
    if n > 0 {
      PackedBytes(guid / 256, n - 1);
      assert FixedLE(guid, n)[1..] == FixedLE(guid / 256, n - 1);
    }
  }

  /** What is left of the identifier after i bytes were shifted out. */
  function Shifted(guid: nat, i: nat): nat {
    if i == 0 then guid else Shifted(guid / 256, i - 1)
  }

  lemma {:induction false} ShiftedNext(guid: nat, i: nat)
    ensures Shifted(guid, i + 1) == Shifted(guid, i) / 256
  {
    if i > 0 {
      ShiftedNext(guid / 256, i - 1);
    }
  }

  /** One byte further: a new top bit in the mask, a new last byte. */
  lemma {:induction false} PackNext(guid: nat, i: nat)
    ensures var b: Byte := Shifted(guid, i) % 256;
      && PackMask(guid, i + 1) == PackMask(guid, i) + (if b != 0 then Pow2(i) else 0)
      && PackBytes(guid, i + 1) == PackBytes(guid, i) + (if b != 0 then [b] else [])
  {
    if i == 0 {
      assert PackMask(guid / 256, 0) == 0 && PackBytes(guid / 256, 0) == [];
    } else {
      PackNext(guid / 256, i - 1);
      var b: Byte := Shifted(guid / 256, i - 1) % 256;
      var h := if guid % 256 != 0 then [guid % 256] else [];
      var t := if b != 0 then [b] else [];
      assert h + (PackBytes(guid / 256, i - 1) + t) == (h + PackBytes(guid / 256, i - 1)) + t;
    }
  }
}
