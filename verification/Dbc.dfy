/** The client's table files: a header, records of four-byte fields, and a block of strings. */
module Dbc {
  import opened Bytes
  import opened Wrappers

  const MAGIC: nat := 0x43424457
  const HEADER: nat := 20
  const WORD: nat := 0x1_0000_0000

  function Word(s: seq<Byte>, p: nat): nat {
    if p + 4 <= |s| then LE(s[p..p + 4]) else 0
  }

  /** The bytes from a position up to the next zero. */
  function Text(s: seq<Byte>, p: nat): seq<Byte>
    decreases |s| - p
  {
    if p >= |s| || s[p] == 0 then [] else [s[p]] + Text(s, p + 1)
  }

  /** The text ends at the first zero. */
  lemma {:induction false} TextEnds(s: seq<Byte>, p: nat, z: nat)
    requires p <= z < |s| && s[z] == 0 && 0 !in s[p..z]
    ensures Text(s, p) == s[p..z]
    decreases z - p
  {
    if p < z {
      assert s[p..z][0] == s[p] && s[p..z] == [s[p]] + s[p + 1..z];
      assert forall c :: c in s[p + 1..z] ==> c in s[p..z];
      TextEnds(s, p + 1, z);
    } else {
      assert s[p..z] == [];
    }
  }

  predicate Terminated(s: seq<Byte>, p: nat) {
    exists k :: p <= k < |s| && s[k] == 0
  }

  // ---------------------------------------------------------------- what a file contains

  function Records(s: seq<Byte>): nat {
    Word(s, 4)
  }

  function BlockSize(s: seq<Byte>): nat {
    Word(s, 16)
  }

  /** Where the strings begin, in unsigned arithmetic. */
  function DataSize(s: seq<Byte>): nat {
    (Records(s) * Word(s, 12) + HEADER) % WORD
  }

  function RowAt(s: seq<Byte>, fields: nat, i: nat): (r: seq<nat>)
    ensures |r| == fields
  {
    seq<nat>(fields, j requires 0 <= j < fields => Word(s, HEADER + 4 * (i * fields + j)))
  }

  function Rows(s: seq<Byte>, fields: nat, n: nat): (r: seq<seq<nat>>)
    ensures |r| == n && forall i :: 0 <= i < n ==> r[i] == RowAt(s, fields, i)
  {
    seq(n, i requires 0 <= i < n => RowAt(s, fields, i))
  }

  /** A table with the given number of four-byte fields whose parts fill the file exactly. */
  predicate WellFormed(s: seq<Byte>, fields: nat) {
    && |s| < WORD && |s| >= HEADER
    && Word(s, 0) == MAGIC && Word(s, 8) == fields && Word(s, 12) == 4 * fields
    && HEADER + 4 * (Records(s) * fields) + BlockSize(s) == |s|
  }

  /** The strings a record refers to in the given columns end within the file. */
  predicate StringsEnd(s: seq<Byte>, fields: nat, from: nat, n: nat) {
    forall i, j :: 0 <= i < Records(s) && from <= j < from + n && j < fields ==>
      Terminated(s, DataSize(s) + RowAt(s, fields, i)[j])
  }

  /** Rows are entered in order under their first field. */
  function LastWins<E>(m: map<nat, E>, rows: seq<seq<nat>>, f: seq<nat> -> E): map<nat, E>
    requires forall r :: r in rows ==> |r| > 0
  {
    if rows == [] then m
    else
      var r := rows[|rows| - 1];
      LastWins(m, rows[..|rows| - 1], f)[r[0] := f(r)]
  }

  /** Identifiers without a row keep what they had. */
  lemma {:induction false} OtherKeysKept<E>(m: map<nat, E>, rows: seq<seq<nat>>, f: seq<nat> -> E, key: nat)
    requires forall i :: 0 <= i < |rows| ==> |rows[i]| > 0 && rows[i][0] != key
    ensures var l := LastWins(m, rows, f);
      (key in l <==> key in m) && (key in m ==> l[key] == m[key])
  {
    if rows != [] {
      OtherKeysKept(m, rows[..|rows| - 1], f, key);
    }
  }

  /** The last row with an identifier decides. */
  lemma {:induction false} LastRowDecides<E>(m: map<nat, E>, rows: seq<seq<nat>>, f: seq<nat> -> E, i: nat)
    requires forall r :: r in rows ==> |r| > 0
    requires i < |rows| && forall j :: i < j < |rows| ==> rows[j][0] != rows[i][0]
    ensures var l := LastWins(m, rows, f);
      rows[i][0] in l && l[rows[i][0]] == f(rows[i])
  {
    if i < |rows| - 1 {
      var before := rows[..|rows| - 1];
      LastRowDecides(m, before, f, i);
      assert rows[|rows| - 1][0] != rows[i][0];
    }
  }

  // ---------------------------------------------------------------- a file made of rows

  function Words(ws: seq<nat>): (s: seq<Byte>)
    ensures |s| == 4 * |ws|
  {
    if ws == [] then [] else FixedLE(ws[0], 4) + Words(ws[1..])
  }

  function Flat(rows: seq<seq<nat>>): seq<nat> {
    if rows == [] then [] else rows[0] + Flat(rows[1..])
  }

  function Header(n: nat, fields: nat, block: nat): seq<nat> {
    [MAGIC, n, fields, 4 * fields, block]
  }

  function File(fields: nat, rows: seq<seq<nat>>, strings: seq<Byte>): seq<Byte> {
    Words(Header(|rows|, fields, |strings|) + Flat(rows)) + strings
  }

  lemma WordsCons(w: nat, ws: seq<nat>, post: seq<Byte>)
    ensures Words([w] + ws) + post == FixedLE(w, 4) + (Words(ws) + post)
  {
    assert ([w] + ws)[1..] == ws;
  }

  lemma {:induction false} WordAt(ws: seq<nat>, post: seq<Byte>, k: nat)
    requires k < |ws| && ws[k] < WORD
    ensures Word(Words(ws) + post, 4 * k) == ws[k]
  {
    hide FixedLE, LE, Words;
    assert ws == [ws[0]] + ws[1..];
    WordsCons(ws[0], ws[1..], post);
    var s := Words(ws) + post;
    var rest := Words(ws[1..]) + post;
    if k == 0 {
      assert s[0..4] == FixedLE(ws[0], 4);
      WordFits();
      FixedLEValue(ws[0], 4);
    } else {
      WordAt(ws[1..], post, k - 1);
      assert s[4 * k..4 * k + 4] == rest[4 * (k - 1)..4 * (k - 1) + 4];
    }
  }

  lemma WordFits()
    ensures Pow256(4) == WORD
  {
  }

  lemma MulNext(n: nat, m: nat)
    ensures (n + 1) * m == n * m + m
  {
  }

  lemma {:induction false} FlatAt(rows: seq<seq<nat>>, fields: nat, i: nat, j: nat)
    requires forall r :: r in rows ==> |r| == fields
    requires i < |rows| && j < fields
    ensures |Flat(rows)| == |rows| * fields && i * fields + j < |Flat(rows)|
    ensures Flat(rows)[i * fields + j] == rows[i][j]
  {
    FlatLength(rows, fields);
    FlatLength(rows[1..], fields);
    if i == 0 {
      assert 0 * fields == 0;
    } else {
      FlatAt(rows[1..], fields, i - 1, j);
      MulNext(i - 1, fields);
    }
  }

  lemma {:induction false} FlatLength(rows: seq<seq<nat>>, fields: nat)
    requires forall r :: r in rows ==> |r| == fields
    ensures |Flat(rows)| == |rows| * fields
  {
    if rows != [] {
      FlatLength(rows[1..], fields);
      MulNext(|rows| - 1, fields);
    }
  }

  ghost predicate Table(fields: nat, rows: seq<seq<nat>>, strings: seq<Byte>) {
    && fields > 0 && (forall r :: r in rows ==> |r| == fields && forall j :: 0 <= j < fields ==> r[j] < WORD)
    && HEADER + 4 * (|rows| * fields) + |strings| < WORD
  }

  lemma FileHeader(fields: nat, rows: seq<seq<nat>>, strings: seq<Byte>)
    requires Table(fields, rows, strings) && 4 * fields < WORD
    ensures var s := File(fields, rows, strings);
      && Word(s, 0) == MAGIC && Word(s, 4) == |rows| && Word(s, 8) == fields && Word(s, 12) == 4 * fields
      && Word(s, 16) == |strings| && |s| == HEADER + 4 * (|rows| * fields) + |strings|
      && s[HEADER + 4 * (|rows| * fields)..] == strings
  {
    hide Words, Flat, Word, LE;
    var ws := Header(|rows|, fields, |strings|) + Flat(rows);
    FlatLength(rows, fields);
    CellsFit(fields, rows, strings);
    WordAt(ws, strings, 0);
    WordAt(ws, strings, 1);
    WordAt(ws, strings, 2);
    WordAt(ws, strings, 3);
    WordAt(ws, strings, 4);
  }

  lemma FileCell(fields: nat, rows: seq<seq<nat>>, strings: seq<Byte>, i: nat, j: nat)
    requires Table(fields, rows, strings) && i < |rows| && j < fields
    ensures Word(File(fields, rows, strings), HEADER + 4 * (i * fields + j)) == rows[i][j]
  {
    hide Words, Flat, Word, LE;
    FlatAt(rows, fields, i, j);
    assert rows[i] in rows;
    WordAt(Header(|rows|, fields, |strings|) + Flat(rows), strings, 5 + (i * fields + j));
  }

  /** A file made of rows and strings is well formed, holds those rows, and gives back those strings. */
  lemma FileReadsBack(fields: nat, rows: seq<seq<nat>>, strings: seq<Byte>)
    requires Table(fields, rows, strings) && 4 * fields < WORD
    ensures var s := File(fields, rows, strings);
      && WellFormed(s, fields) && Records(s) == |rows| && Rows(s, fields, |rows|) == rows
      && BlockSize(s) == |strings| && DataSize(s) + |strings| == |s| && s[DataSize(s)..] == strings
  {
    var s := File(fields, rows, strings);
    hide Word, File;
    FileHeader(fields, rows, strings);
    MulFour(|rows|, fields);
    forall i | 0 <= i < |rows|
      ensures RowAt(s, fields, i) == rows[i]
    {
      assert rows[i] in rows;
      forall j | 0 <= j < fields
        ensures RowAt(s, fields, i)[j] == rows[i][j]
      {
        FileCell(fields, rows, strings, i, j);
      }
    }
  }

  lemma MulFour(n: nat, m: nat)
    ensures n * (4 * m) == 4 * (n * m)
  {
  }

  lemma CellsFit(fields: nat, rows: seq<seq<nat>>, strings: seq<Byte>)
    requires Table(fields, rows, strings)
    ensures |rows| < WORD && |strings| < WORD
  {
    assert |rows| * fields >= |rows|;
  }

  /** A string reference means the same in the file as in the block of strings. */
  lemma {:induction false} TextInBlock(s: seq<Byte>, at: nat, p: nat)
    requires at <= |s|
    ensures Text(s, at + p) == Text(s[at..], p)
    ensures Terminated(s[at..], p) ==> Terminated(s, at + p)
    decreases |s| - p
  {
    if at + p < |s| && s[at + p] != 0 {
      TextInBlock(s, at, p + 1);
    }
    if k :| p <= k < |s[at..]| && s[at..][k] == 0 {
      assert s[at + k] == 0;
    }
  }

  // ---------------------------------------------------------------- the entries

  datatype ItemEntry = ItemEntry(displayId: nat, inventoryType: nat, sheath: nat)

  datatype SpellItemEnchantmentEntry = SpellItemEnchantmentEntry(
    kinds: seq<nat>, amounts: seq<nat>, spellIds: seq<nat>, desc: seq<Byte>, auraId: nat, slot: nat, gemId: nat,
    condition: nat)

  /** Without the sixteen names, which point into strings that are gone. */
  datatype ChrRacesEntry = ChrRacesEntry(
    raceId: nat, factionId: nat, modelM: nat, modelF: nat, teamId: nat, startmovie: nat, addon: nat)

  datatype ChrClassesEntry = ChrClassesEntry(classId: nat, powertype: nat, spellfamily: nat)

  function Col(row: seq<nat>, j: nat): nat {
    if j < |row| then row[j] else 0
  }

  function ItemOf(row: seq<nat>): ItemEntry {
    ItemEntry(Col(row, 1), Col(row, 2), Col(row, 3))
  }

  function SpellOf(s: seq<Byte>, row: seq<nat>): SpellItemEnchantmentEntry {
    SpellItemEnchantmentEntry(
      [Col(row, 1), Col(row, 2), Col(row, 3)], [Col(row, 4), Col(row, 5), Col(row, 6)],
      [Col(row, 10), Col(row, 11), Col(row, 12)], Text(s, DataSize(s) + Col(row, 13)),
      Col(row, 30), Col(row, 31), Col(row, 32), Col(row, 33))
  }

  function RaceOf(row: seq<nat>): ChrRacesEntry {
    ChrRacesEntry(Col(row, 0), Col(row, 2), Col(row, 4), Col(row, 5), Col(row, 8), Col(row, 13), Col(row, 68))
  }

  function ClassOf(row: seq<nat>): ChrClassesEntry {
    ChrClassesEntry(Col(row, 0), Col(row, 2), Col(row, 56))
  }

  /** Columns 1 to 3 of an item. */
  lemma ItemColumns(row: seq<nat>)
    requires |row| == 4
    ensures var e := ItemOf(row);
      [e.displayId, e.inventoryType, e.sheath] == row[1..4]
  {
  }

  /** Columns 1 to 6, 10 to 12, the text of column 13, and columns 30 to 33 of an enchantment. */
  lemma SpellColumns(s: seq<Byte>, row: seq<nat>)
    requires |row| == 34
    ensures var e := SpellOf(s, row);
      && e.kinds + e.amounts == row[1..7] && |e.kinds| == 3 && e.spellIds == row[10..13]
      && e.desc == Text(s, DataSize(s) + row[13]) && [e.auraId, e.slot, e.gemId, e.condition] == row[30..34]
    ensures forall w ::
      SpellBegun(w, row) ==
      SpellOf(s, row).(desc := w.desc, auraId := w.auraId, slot := w.slot, gemId := w.gemId, condition := w.condition)
  {
    hide Text;
  }

  /** Columns 0, 2, 4, 5, 8, 13 and 68 of a race. */
  lemma RaceColumns(row: seq<nat>)
    requires |row| == 69
    ensures var e := RaceOf(row);
      && [e.raceId, e.factionId, e.teamId, e.startmovie, e.addon] == [row[0], row[2], row[8], row[13], row[68]]
      && [e.modelM, e.modelF] == row[4..6]
    ensures forall w :: RaceBegun(w, row) == RaceOf(row).(addon := w.addon)
  {
  }

  /** Columns 0, 2 and 56 of a class. */
  lemma ClassColumns(row: seq<nat>)
    requires |row| == 58
    ensures var e := ClassOf(row);
      [e.classId, e.powertype, e.spellfamily] == [row[0], row[2], row[56]]
    ensures forall w :: ClassBegun(w, row) == ClassOf(row).(spellfamily := w.spellfamily)
  {
  }

  const NO_SPELL := SpellItemEnchantmentEntry([0, 0, 0], [0, 0, 0], [0, 0, 0], [], 0, 0, 0, 0)
  const NO_RACE := ChrRacesEntry(0, 0, 0, 0, 0, 0, 0)
  const NO_CLASS := ChrClassesEntry(0, 0, 0)

  /**
   What an entry holds when its first string cannot be read: the fields before it are new, the others
   what they were.
   */
  function SpellBegun(e: SpellItemEnchantmentEntry, row: seq<nat>): SpellItemEnchantmentEntry {
    e.(kinds := [Col(row, 1), Col(row, 2), Col(row, 3)], amounts := [Col(row, 4), Col(row, 5), Col(row, 6)],
       spellIds := [Col(row, 10), Col(row, 11), Col(row, 12)])
  }

  function RaceBegun(e: ChrRacesEntry, row: seq<nat>): ChrRacesEntry {
    e.(raceId := Col(row, 0), factionId := Col(row, 2), modelM := Col(row, 4), modelF := Col(row, 5),
       teamId := Col(row, 8), startmovie := Col(row, 13))
  }

  function ClassBegun(e: ChrClassesEntry, row: seq<nat>): ChrClassesEntry {
    e.(classId := Col(row, 0), powertype := Col(row, 2))
  }

  function EntryOr<E>(m: map<nat, E>, key: nat, none: E): E {
    if key in m then m[key] else none
  }

  // ---------------------------------------------------------------- reading

  class DbcFile {
    const file: seq<Byte>
    var pos: nat
    const records: nat
    const fieldSize: nat
    const dataSize: nat
    const stringBlockSize: nat

    ghost predicate Opened(s: seq<Byte>) {
      && file == s && records == Records(s) && dataSize == DataSize(s) && stringBlockSize == BlockSize(s)
      && (Word(s, 8) > 0 ==> fieldSize == Word(s, 12) / Word(s, 8))
    }

    /** The header behind the magic number; the field size is a division by the number of fields. */
    constructor (s: seq<Byte>)
      requires |s| >= HEADER && Word(s, 8) > 0
      ensures Opened(s) && pos == HEADER
    {
      file, pos := s, HEADER;
      records, fieldSize, stringBlockSize := Word(s, 4), Word(s, 12) / Word(s, 8), Word(s, 16);
      dataSize := (Word(s, 4) * Word(s, 12) + 20) % WORD;
    }

    method ReadUint32() returns (v: nat)
      requires pos + 4 <= |file|
      modifies this`pos
      ensures v == Word(file, old(pos)) && pos == old(pos) + 4
    {
      v := LE(file[pos..pos + 4]);
      pos := pos + 4;
    }

    method SkipField()
      modifies this`pos
      ensures pos == old(pos) + fieldSize
    {
      pos := pos + fieldSize;
    }

    /**
     Throws without a block of strings. Otherwise reads the text the next field refers to and comes
     back behind the field; the loop ends because there is a zero to find.
     */
    method ReadString() returns (r: Option<seq<Byte>>)
      requires stringBlockSize > 1 ==>
        pos + 4 <= |file| && Terminated(file, dataSize + Word(file, pos)) && |file| < WORD
      modifies this`pos
      ensures r.None? <==> stringBlockSize <= 1
      ensures pos == if r.None? then old(pos) else old(pos) + 4
      ensures r.Some? ==> r.value == Text(file, dataSize + Word(file, old(pos)))
    {
      hide Word, LE;
      if stringBlockSize <= 1 {
        return None;
      }
      var offset := ReadUint32();
      var getPtr := pos;
      pos := (dataSize + offset) % WORD;
      ghost var start := pos;
      var ret: seq<Byte> := [];
      assert ret + Text(file, pos) == Text(file, start);
      while true
        invariant pos <= |file| && Terminated(file, pos)
        invariant ret + Text(file, pos) == Text(file, start)
        decreases |file| - pos
      {
        var c := file[pos];
        pos := pos + 1;
        if c == 0 {
          break;
        }
        assert ret + ([c] + Text(file, pos)) == (ret + [c]) + Text(file, pos);
        ret := ret + [c];
      }
      assert ret == Text(file, start);
      pos := getPtr;
      r := Some(ret);
    }
  }

  // ---------------------------------------------------------------- the loaders

  const ITEM_FIELDS := 4
  const SPELL_FIELDS := 34
  const RACE_FIELDS := 69
  const CLASS_FIELDS := 58

  /** What is loaded when the file is read to the end. */
  function Loaded<E>(m: map<nat, E>, s: seq<Byte>, fields: nat, n: nat, f: seq<nat> -> E): map<nat, E>
    requires fields > 0
  {
    LastWins(m, Rows(s, fields, n), f)
  }

  lemma LoadedNext<E>(m: map<nat, E>, s: seq<Byte>, fields: nat, n: nat, f: seq<nat> -> E)
    requires fields > 0
    ensures Loaded(m, s, fields, n + 1, f)
      == Loaded(m, s, fields, n, f)[Word(s, HEADER + 4 * (n * fields)) := f(RowAt(s, fields, n))]
    ensures Loaded(m, s, fields, 0, f) == m
  {
    assert Rows(s, fields, n + 1)[..n] == Rows(s, fields, n);
  }

  /** From a file made of rows, loading enters those rows; string columns give the texts of the block. */
  lemma LoadedFile<E>(m: map<nat, E>, fields: nat, rows: seq<seq<nat>>, strings: seq<Byte>, from: nat, n: nat,
        f: seq<nat> -> E)
    requires Table(fields, rows, strings) && 4 * fields < WORD && from + n <= fields
    requires forall r, j :: r in rows && from <= j < from + n ==> Terminated(strings, r[j])
    ensures var s := File(fields, rows, strings);
      && WellFormed(s, fields) && StringsEnd(s, fields, from, n)
      && Loaded(m, s, fields, Records(s), f) == LastWins(m, rows, f)
      && forall p :: Text(s, DataSize(s) + p) == Text(strings, p)
  {
    hide Word, File, Terminated, Text, LastWins;
    var s := File(fields, rows, strings);
    FileReadsBack(fields, rows, strings);
    forall p: nat
      ensures Text(s, DataSize(s) + p) == Text(strings, p)
      ensures Terminated(strings, p) ==> Terminated(s, DataSize(s) + p)
    {
      TextInBlock(s, DataSize(s), p);
    }
    forall i, j | 0 <= i < Records(s) && from <= j < from + n && j < fields
      ensures Terminated(s, DataSize(s) + RowAt(s, fields, i)[j])
    {
      assert rows[i] == Rows(s, fields, |rows|)[i] == RowAt(s, fields, i) && rows[i] in rows;
    }
  }

  /** The position of a field. */
  function FieldPos(fields: nat, i: nat, j: nat): nat {
    HEADER + 4 * (i * fields + j)
  }

  /** A string column of a record can be read. */
  lemma StringAt(s: seq<Byte>, fields: nat, from: nat, n: nat, i: nat, j: nat)
    requires WellFormed(s, fields) && StringsEnd(s, fields, from, n)
    requires i < Records(s) && from <= j < from + n && j < fields
    ensures FieldPos(fields, i, j) + 4 <= |s| && Terminated(s, DataSize(s) + Word(s, FieldPos(fields, i, j)))
  {
    hide Word, Terminated;
    assert RowAt(s, fields, i)[j] == Word(s, FieldPos(fields, i, j));
    RowFits(Records(s), fields, i);
  }

  lemma RowFits(n: nat, fields: nat, i: nat)
    requires i < n
    ensures (i + 1) * fields <= n * fields && (i + 1) * fields == i * fields + fields
  {
  }

  method OpenDbc(s: seq<Byte>) returns (f: Option<DbcFile>)
    requires |s| >= HEADER && (Word(s, 0) == MAGIC ==> Word(s, 8) > 0)
    ensures f.Some? <==> Word(s, 0) == MAGIC
    ensures f.Some? ==> fresh(f.value) && f.value.Opened(s) && f.value.pos == HEADER
  {
    if Word(s, 0) != MAGIC {
      return None;
    }
    var d := new DbcFile(s);
    f := Some(d);
  }

  class DbcStore {
    var items: map<nat, ItemEntry>
    var spells: map<nat, SpellItemEnchantmentEntry>
    var races: map<nat, ChrRacesEntry>
    var classes: map<nat, ChrClassesEntry>

    /** False when the file is not a table. */
    method LoadItemDbc(s: seq<Byte>) returns (ok: bool)
      requires |s| >= HEADER && (Word(s, 0) == MAGIC ==> WellFormed(s, ITEM_FIELDS))
      modifies this`items
      ensures ok <==> Word(s, 0) == MAGIC
      ensures items == if ok then Loaded(old(items), s, ITEM_FIELDS, Records(s), ItemOf) else old(items)
    {
      hide Word, LastWins, Rows, Loaded;
      var f := OpenDbc(s);
      if f.None? {
        return false;
      }
      var dbc := f.value;
      var i := 0;
      LoadedNext(items, s, ITEM_FIELDS, 0, ItemOf);
      while i < dbc.records
        invariant i <= dbc.records && dbc.Opened(s) && dbc.pos == FieldPos(ITEM_FIELDS, i, 0)
        invariant items == Loaded(old(items), s, ITEM_FIELDS, i, ItemOf)
      {
        LoadedNext(old(items), s, ITEM_FIELDS, i, ItemOf);
        var entry := dbc.ReadUint32();
        var displayId := dbc.ReadUint32();
        var inventoryType := dbc.ReadUint32();
        var sheath := dbc.ReadUint32();
        items := items[entry := ItemEntry(displayId, inventoryType, sheath)];
        i := i + 1;
      }
      ok := true;
    }

    /** False when the file is not a table, or when it has records but no strings. */
    method LoadSpellItemEnchantmentsDbc(s: seq<Byte>) returns (ok: bool)
      requires |s| >= HEADER
      requires Word(s, 0) == MAGIC ==> WellFormed(s, SPELL_FIELDS) && StringsEnd(s, SPELL_FIELDS, 13, 1)
      modifies this`spells
      ensures ok <==> Word(s, 0) == MAGIC && (BlockSize(s) > 1 || Records(s) == 0)
      ensures ok ==> spells == Loaded(old(spells), s, SPELL_FIELDS, Records(s), row => SpellOf(s, row))
      ensures !ok ==> spells == if Word(s, 0) != MAGIC then old(spells) else
        var row := RowAt(s, SPELL_FIELDS, 0);
        var was := if row[0] in old(spells) then old(spells)[row[0]] else NO_SPELL;
        old(spells)[row[0] := SpellBegun(was, row)]
    {
      hide Word, LastWins, Rows, Loaded, StringsEnd, SpellBegun, SpellOf;
      var f := OpenDbc(s);
      if f.None? {
        return false;
      }
      var dbc := f.value;
      var i := 0;
      ghost var of := row => SpellOf(s, row);
      LoadedNext(spells, s, SPELL_FIELDS, 0, of);
      while i < dbc.records
        invariant i <= dbc.records && dbc.Opened(s) && dbc.pos == FieldPos(SPELL_FIELDS, i, 0)
        invariant spells == Loaded(old(spells), s, SPELL_FIELDS, i, of)
        invariant i > 0 ==> dbc.stringBlockSize > 1
      {
        LoadedNext(old(spells), s, SPELL_FIELDS, i, of);
        var entry := dbc.ReadUint32();
        var e, read := ReadSpell(dbc, EntryOr(spells, entry, NO_SPELL), s, i);
        spells := spells[entry := e];
        if !read {
          return false;
        }
        i := i + 1;
      }
      ok := true;
    }

    /** The fields behind the identifier; the string ends it when there are no strings. */
    method ReadSpell(dbc: DbcFile, was: SpellItemEnchantmentEntry, ghost s: seq<Byte>, ghost i: nat)
      returns (e: SpellItemEnchantmentEntry, read: bool)
      requires WellFormed(s, SPELL_FIELDS) && StringsEnd(s, SPELL_FIELDS, 13, 1) && dbc.Opened(s)
      requires i < Records(s) && dbc.pos == FieldPos(SPELL_FIELDS, i, 1)
      modifies dbc`pos
      ensures read <==> BlockSize(s) > 1
      ensures read ==> e == SpellOf(s, RowAt(s, SPELL_FIELDS, i)) && dbc.pos == FieldPos(SPELL_FIELDS, i + 1, 0)
      ensures !read ==> e == SpellBegun(was, RowAt(s, SPELL_FIELDS, i))
    {
      hide Word, Text, Terminated, StringsEnd;
      var kinds := ReadThree(dbc);
      var amounts := ReadThree(dbc);
      dbc.SkipField();
      dbc.SkipField();
      dbc.SkipField();
      var spellIds := ReadThree(dbc);
      e := was.(kinds := kinds, amounts := amounts, spellIds := spellIds);
      StringAt(s, SPELL_FIELDS, 13, 1, i, 13);
      var desc := dbc.ReadString();
      if desc.None? {
        return e, false;
      }
      e := e.(desc := desc.value);
      SkipFields(dbc, 16);
      var auraId := dbc.ReadUint32();
      var slot := dbc.ReadUint32();
      var gemId := dbc.ReadUint32();
      var condition := dbc.ReadUint32();
      e, read := e.(auraId := auraId, slot := slot, gemId := gemId, condition := condition), true;
    }

    /** The sixteen names are read, and nothing of them is kept. */
    method LoadChrRacesDbc(s: seq<Byte>) returns (ok: bool)
      requires |s| >= HEADER
      requires Word(s, 0) == MAGIC ==> WellFormed(s, RACE_FIELDS) && StringsEnd(s, RACE_FIELDS, 14, 16)
      modifies this`races
      ensures ok <==> Word(s, 0) == MAGIC && (BlockSize(s) > 1 || Records(s) == 0)
      ensures ok ==> races == Loaded(old(races), s, RACE_FIELDS, Records(s), RaceOf)
      ensures !ok ==> races == if Word(s, 0) != MAGIC then old(races) else
        var row := RowAt(s, RACE_FIELDS, 0);
        var was := if row[0] in old(races) then old(races)[row[0]] else NO_RACE;
        old(races)[row[0] := RaceBegun(was, row)]
    {
      hide Word, LastWins, Rows, Loaded, StringsEnd, RaceBegun, RaceOf;
      var f := OpenDbc(s);
      if f.None? {
        return false;
      }
      var dbc := f.value;
      var i := 0;
      ghost var of := RaceOf;
      LoadedNext(races, s, RACE_FIELDS, 0, of);
      while i < dbc.records
        invariant i <= dbc.records && dbc.Opened(s) && dbc.pos == FieldPos(RACE_FIELDS, i, 0)
        invariant races == Loaded(old(races), s, RACE_FIELDS, i, of)
        invariant i > 0 ==> dbc.stringBlockSize > 1
      {
        LoadedNext(old(races), s, RACE_FIELDS, i, of);
        var entry := dbc.ReadUint32();
        var e, read := ReadRace(dbc, entry, EntryOr(races, entry, NO_RACE), s, i);
        races := races[entry := e];
        if !read {
          return false;
        }
        i := i + 1;
      }
      ok := true;
    }

    method ReadRace(dbc: DbcFile, entry: nat, was: ChrRacesEntry, ghost s: seq<Byte>, ghost i: nat)
      returns (e: ChrRacesEntry, read: bool)
      requires WellFormed(s, RACE_FIELDS) && StringsEnd(s, RACE_FIELDS, 14, 16) && dbc.Opened(s)
      requires i < Records(s) && dbc.pos == FieldPos(RACE_FIELDS, i, 1) && entry == RowAt(s, RACE_FIELDS, i)[0]
      modifies dbc`pos
      ensures read <==> BlockSize(s) > 1
      ensures read ==> e == RaceOf(RowAt(s, RACE_FIELDS, i)) && dbc.pos == FieldPos(RACE_FIELDS, i + 1, 0)
      ensures !read ==> e == RaceBegun(was, RowAt(s, RACE_FIELDS, i))
    {
      hide Word, Text, Terminated, StringsEnd;
      e := was.(raceId := entry);
      dbc.SkipField();
      var factionId := dbc.ReadUint32();
      dbc.SkipField();
      var modelM := dbc.ReadUint32();
      var modelF := dbc.ReadUint32();
      SkipFields(dbc, 2);
      var teamId := dbc.ReadUint32();
      SkipFields(dbc, 4);
      var startmovie := dbc.ReadUint32();
      e := e.(factionId := factionId, modelM := modelM, modelF := modelF, teamId := teamId, startmovie := startmovie);
      read := ReadNames(dbc, s, RACE_FIELDS, i, 14);
      if !read {
        return;
      }
      SkipFields(dbc, 38);
      var addon := dbc.ReadUint32();
      e := e.(addon := addon);
    }

    /** The names again are read only. */
    method LoadChrClassesDbc(s: seq<Byte>) returns (ok: bool)
      requires |s| >= HEADER
      requires Word(s, 0) == MAGIC ==> WellFormed(s, CLASS_FIELDS) && StringsEnd(s, CLASS_FIELDS, 4, 16)
      modifies this`classes
      ensures ok <==> Word(s, 0) == MAGIC && (BlockSize(s) > 1 || Records(s) == 0)
      ensures ok ==> classes == Loaded(old(classes), s, CLASS_FIELDS, Records(s), ClassOf)
      ensures !ok ==> classes == if Word(s, 0) != MAGIC then old(classes) else
        var row := RowAt(s, CLASS_FIELDS, 0);
        var was := if row[0] in old(classes) then old(classes)[row[0]] else NO_CLASS;
        old(classes)[row[0] := ClassBegun(was, row)]
    {
      hide Word, LastWins, Rows, Loaded, StringsEnd, ClassBegun, ClassOf;
      var f := OpenDbc(s);
      if f.None? {
        return false;
      }
      var dbc := f.value;
      var i := 0;
      ghost var of := ClassOf;
      LoadedNext(classes, s, CLASS_FIELDS, 0, of);
      while i < dbc.records
        invariant i <= dbc.records && dbc.Opened(s) && dbc.pos == FieldPos(CLASS_FIELDS, i, 0)
        invariant classes == Loaded(old(classes), s, CLASS_FIELDS, i, of)
        invariant i > 0 ==> dbc.stringBlockSize > 1
      {
        LoadedNext(old(classes), s, CLASS_FIELDS, i, of);
        var entry := dbc.ReadUint32();
        var e, read := ReadClass(dbc, entry, EntryOr(classes, entry, NO_CLASS), s, i);
        classes := classes[entry := e];
        if !read {
          return false;
        }
        i := i + 1;
      }
      ok := true;
    }

    method ReadClass(dbc: DbcFile, entry: nat, was: ChrClassesEntry, ghost s: seq<Byte>, ghost i: nat)
      returns (e: ChrClassesEntry, read: bool)
      requires WellFormed(s, CLASS_FIELDS) && StringsEnd(s, CLASS_FIELDS, 4, 16) && dbc.Opened(s)
      requires i < Records(s) && dbc.pos == FieldPos(CLASS_FIELDS, i, 1) && entry == RowAt(s, CLASS_FIELDS, i)[0]
      modifies dbc`pos
      ensures read <==> BlockSize(s) > 1
      ensures read ==> e == ClassOf(RowAt(s, CLASS_FIELDS, i)) && dbc.pos == FieldPos(CLASS_FIELDS, i + 1, 0)
      ensures !read ==> e == ClassBegun(was, RowAt(s, CLASS_FIELDS, i))
    {
      hide Word, Text, Terminated, StringsEnd;
      e := was.(classId := entry);
      dbc.SkipField();
      var powertype := dbc.ReadUint32();
      dbc.SkipField();
      e := e.(powertype := powertype);
      read := ReadNames(dbc, s, CLASS_FIELDS, i, 4);
      if !read {
        return;
      }
      SkipFields(dbc, 36);
      var spellfamily := dbc.ReadUint32();
      e := e.(spellfamily := spellfamily);
      dbc.SkipField();
    }

    /** Sixteen strings in the columns from `from` on; false when the first one throws. */
    method ReadNames(dbc: DbcFile, ghost s: seq<Byte>, ghost fields: nat, ghost i: nat, ghost from: nat)
        returns (read: bool)
      requires WellFormed(s, fields) && StringsEnd(s, fields, from, 16) && dbc.Opened(s)
      requires i < Records(s) && from + 16 <= fields && dbc.pos == FieldPos(fields, i, from)
      modifies dbc`pos
      ensures read <==> BlockSize(s) > 1
      ensures read ==> dbc.pos == FieldPos(fields, i, from + 16)
    {
      hide Word, Text, Terminated, StringsEnd;
      for j := 0 to 16
        invariant dbc.pos == FieldPos(fields, i, from + j)
        invariant j > 0 ==> BlockSize(s) > 1
      {
        StringAt(s, fields, from, 16, i, from + j);
        var name := dbc.ReadString();
        if name.None? {
          return false;
        }
      }
      read := true;
    }

    method ReadThree(dbc: DbcFile) returns (v: seq<nat>)
      requires dbc.pos + 12 <= |dbc.file|
      modifies dbc`pos
      ensures dbc.pos == old(dbc.pos) + 12
      ensures v == [Word(dbc.file, old(dbc.pos)), Word(dbc.file, old(dbc.pos) + 4), Word(dbc.file, old(dbc.pos) + 8)]
    {
      hide Word;
      var a := dbc.ReadUint32();
      var b := dbc.ReadUint32();
      var c := dbc.ReadUint32();
      v := [a, b, c];
    }

    method SkipFields(dbc: DbcFile, n: nat)
      requires dbc.fieldSize == 4
      modifies dbc`pos
      ensures dbc.pos == old(dbc.pos) + 4 * n
    {
      for j := 0 to n
        invariant dbc.pos == old(dbc.pos) + 4 * j
      {
        dbc.SkipField();
      }
    }
  }
}
