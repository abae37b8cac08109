/** The parameters collected for a queued statement, in whatever order the `add_*` calls come. */
module SqlParameters {
  import opened Bytes

  /** What the union holds, together with the type tag written beside it. */
  datatype Scalar = Boolean(b: bool) | U8(n: nat) | U16(n: nat) | U32(n: nat) | U64(n: nat) | Float(raw: seq<Byte>)

  datatype Arg = Value(scalar: Scalar) | Str(s: string)

  /** One element of statement_data; the string is a member of its own beside the union. */
  datatype Cell = Cell(scalar: Scalar, isString: bool, str: string)

  /** What is set on the prepared statement. */
  datatype Param =
    | SetBool(b: bool) | SetUint32(n: nat) | SetUint64(n: nat) | SetDouble(raw: seq<Byte>) | SetString(s: string)

  /** One call of an `add_*` function; parameters are numbered from 1. */
  datatype Call = Call(index: nat, arg: Arg)

  const BLANK := Cell(Boolean(false), false, "")

  function Put(c: Cell, arg: Arg): Cell {
    match arg
    case Value(scalar) => Cell(scalar, false, c.str)
    case Str(s) => Cell(c.scalar, true, c.str + s)
  }

  /** The vector grows to the index, with blank elements in between. */
  function Resized(cells: seq<Cell>, n: nat): (r: seq<Cell>)
    ensures |r| == if |cells| < n then n else |cells|
  {
    if |cells| < n then cells + seq(n - |cells|, _ => BLANK) else cells
  }

  function Added(cells: seq<Cell>, index: nat, arg: Arg): (r: seq<Cell>)
    requires index > 0
    ensures |r| == if |cells| < index then index else |cells|
  {
    var t := Resized(cells, index);
    t[index - 1 := Put(t[index - 1], arg)]
  }

  predicate Indexed(calls: seq<Call>) {
    forall c :: c in calls ==> 0 < c.index < 256
  }

  function After(calls: seq<Call>): seq<Cell>
    requires Indexed(calls)
  {
    if calls == [] then []
    else
      var c := calls[|calls| - 1];
      Added(After(calls[..|calls| - 1]), c.index, c.arg)
  }

  function Bind(c: Cell): Param {
    if c.isString then SetString(c.str) else ParamOf(c.scalar)
  }

  /** Small integers are widened; a float is set as a double of the same value. */
  function ParamOf(s: Scalar): Param {
    match s
    case Boolean(b) => SetBool(b)
    case U8(n) => SetUint32(n)
    case U16(n) => SetUint32(n)
    case U32(n) => SetUint32(n)
    case U64(n) => SetUint64(n)
    case Float(raw) => SetDouble(raw)
  }

  /** The number behind a parameter or an argument. */
  function NumberOf(p: Param): nat {
    if p.SetUint32? || p.SetUint64? then p.n else 0
  }

  /** Binding keeps every value: numbers of up to 32 bits go out as one type, longer ones as another. */
  lemma BindKeeps(n: nat, b: bool, raw: seq<Byte>, s: string)
    ensures ParamOf(U8(n)) == ParamOf(U16(n)) == ParamOf(U32(n)) && ParamOf(U32(n)).SetUint32?
    ensures ParamOf(U64(n)).SetUint64? && NumberOf(ParamOf(U32(n))) == NumberOf(ParamOf(U64(n))) == n
    ensures ParamOf(Boolean(b)) == SetBool(b) && ParamOf(Float(raw)) == SetDouble(raw)
    ensures forall x :: Bind(Cell(x, true, s)) == SetString(s) && Bind(Cell(x, false, s)) == ParamOf(x)
  {
  }

  // ---------------------------------------------------------------- what each position is bound to

  /** The arguments given for one position, in the order of the calls. */
  function At(calls: seq<Call>, i: nat): seq<Arg> {
    if calls == [] then []
    else
      var c := calls[|calls| - 1];
      At(calls[..|calls| - 1], i) + if c.index == i then [c.arg] else []
  }

  function MaxIndex(calls: seq<Call>): nat {
    if calls == [] then 0
    else
      var m := MaxIndex(calls[..|calls| - 1]);
      var c := calls[|calls| - 1];
      if c.index > m then c.index else m
  }

  function Joined(args: seq<Arg>): string {
    if args == [] then ""
    else Joined(args[..|args| - 1]) + if args[|args| - 1].Str? then args[|args| - 1].s else ""
  }

  /** No call leaves false; the last call decides the type; strings given for one position are joined. */
  function Meaning(args: seq<Arg>): Param {
    if args == [] then SetBool(false)
    else
      match args[|args| - 1]
      case Value(scalar) => ParamOf(scalar)
      case Str(_) => SetString(Joined(args))
  }

  function CellOf(args: seq<Arg>): Cell {
    if args == [] then BLANK else Put(CellOf(args[..|args| - 1]), args[|args| - 1])
  }

  lemma {:induction false} CellOfMeaning(args: seq<Arg>)
    ensures Bind(CellOf(args)) == Meaning(args) && CellOf(args).str == Joined(args)
  {
    if args != [] {
      CellOfMeaning(args[..|args| - 1]);
    }
  }

  /** An element, or the blank one a later resize puts there. */
  function CellAt(cells: seq<Cell>, i: nat): Cell {
    if i < |cells| then cells[i] else BLANK
  }

  lemma AddedAt(cells: seq<Cell>, index: nat, arg: Arg, i: nat)
    requires index > 0
    ensures CellAt(Added(cells, index, arg), i) ==
      if i == index - 1 then Put(CellAt(cells, i), arg) else CellAt(cells, i)
  {
  }

  lemma CellOfNext(args: seq<Arg>, arg: Arg)
    ensures CellOf(args + [arg]) == Put(CellOf(args), arg)
  {
    assert (args + [arg])[..|args|] == args;
  }

  lemma NothingGiven(i: nat)
    ensures CellAt([], i) == CellOf([])
  {
  }

  lemma {:induction false} AfterIs(calls: seq<Call>, i: nat)
    requires Indexed(calls)
    ensures |After(calls)| == MaxIndex(calls)
    ensures CellAt(After(calls), i) == CellOf(At(calls, i + 1))
  {
    hide Put, CellOf, Added, CellAt;
    if calls == [] {
      NothingGiven(i);
    } else {
      var before, c := calls[..|calls| - 1], calls[|calls| - 1];
      assert c in calls && forall x :: x in before ==> x in calls;
      AfterIs(before, i);
      AddedAt(After(before), c.index, c.arg, i);
      CellOfNext(At(before, i + 1), c.arg);
      assert At(before, i + 1) + [] == At(before, i + 1);
    }
  }

  /** The last position is the last for which something was given. */
  lemma {:induction false} NothingBeyond(calls: seq<Call>, i: nat)
    requires Indexed(calls)
    ensures i > MaxIndex(calls) ==> At(calls, i) == []
    ensures calls != [] && i == MaxIndex(calls) ==> i > 0 && At(calls, i) != []
  {
    if calls != [] {
      var before, c := calls[..|calls| - 1], calls[|calls| - 1];
      assert c in calls && forall x :: x in before ==> x in calls;
      NothingBeyond(before, i);
    }
  }

  /** Every position is bound to what was given for it, whatever came in between for other positions. */
  lemma BoundByPosition(calls: seq<Call>)
    requires Indexed(calls)
    ensures |After(calls)| == MaxIndex(calls)
    ensures forall i :: 0 <= i < MaxIndex(calls) ==> Bind(After(calls)[i]) == Meaning(At(calls, i + 1))
  {
    hide Bind, Meaning, CellOf, At, MaxIndex, After;
    AfterIs(calls, 0);
    forall i | 0 <= i < MaxIndex(calls)
      ensures Bind(After(calls)[i]) == Meaning(At(calls, i + 1))
    {
      AfterIs(calls, i);
      CellOfMeaning(At(calls, i + 1));
    }
  }

  /** A value given last is what its position is bound to, and no other position changes. */
  lemma LastValueBinds(calls: seq<Call>, index: nat, x: Scalar)
    requires Indexed(calls) && 0 < index < 256
    ensures var more := calls + [Call(index, Value(x))];
      && |After(more)| == (if index > |After(calls)| then index else |After(calls)|)
      && Bind(After(more)[index - 1]) == ParamOf(x)
      && (forall i :: 0 <= i < |After(calls)| && i != index - 1 ==> After(more)[i] == After(calls)[i])
      && (forall i :: |After(calls)| <= i < index - 1 ==> Bind(After(more)[i]) == SetBool(false))
  {
    var more := calls + [Call(index, Value(x))];
    assert more[..|calls|] == calls;
    var t := Resized(After(calls), index);
    assert After(more) == t[index - 1 := Put(t[index - 1], Value(x))];
  }

  /** A string given last is appended to what the position had. */
  lemma LastStringJoins(calls: seq<Call>, index: nat, s: string)
    requires Indexed(calls) && 0 < index < 256
    ensures var more := calls + [Call(index, Str(s))];
      && index <= |After(more)|
      && Bind(After(more)[index - 1]) == SetString(CellAt(After(calls), index - 1).str + s)
      && (forall i :: 0 <= i < |After(calls)| && i != index - 1 ==> After(more)[i] == After(calls)[i])
  {
    var more := calls + [Call(index, Str(s))];
    assert more[..|calls|] == calls;
    var t := Resized(After(calls), index);
    assert After(more) == t[index - 1 := Put(t[index - 1], Str(s))];
  }

  /** Two strings for one position are bound as one. */
  lemma StringsJoin(index: nat, s: string, t: string)
    requires 0 < index < 256
    ensures var calls := [Call(index, Str(s)), Call(index, Str(t))];
      |After(calls)| == index && Bind(After(calls)[index - 1]) == SetString(s + t)
  {
    hide Bind, After;
    var first, second := Call(index, Str(s)), Call(index, Str(t));
    var calls := [first, second];
    assert calls[..1] == [first] && [first][..0] == [];
    BoundByPosition(calls);
    assert MaxIndex([first]) == index && At([first], index) == [] + [Str(s)];
    assert At(calls, index) == [Str(s)] + [Str(t)] == [Str(s), Str(t)];
    assert MaxIndex(calls) == index;
    JoinTwo(s, t);
    assert Meaning([Str(s), Str(t)]) == SetString(s + t);
    var i := index - 1;
    assert Bind(After(calls)[i]) == Meaning(At(calls, i + 1));
  }

  lemma JoinTwo(s: string, t: string)
    ensures Joined([Str(s), Str(t)]) == s + t
  {
    assert [Str(s), Str(t)][..1] == [Str(s)] && [Str(s)][..0] == [];
    assert Joined([Str(s)]) == "" + s == s;
  }

  /** Only the order of the calls for one and the same position matters. */
  lemma OrderAcrossPositions(calls: seq<Call>, other: seq<Call>)
    requires Indexed(calls) && Indexed(other)
    requires forall i :: At(calls, i) == At(other, i)
    ensures After(calls) == After(other)
  {
    hide CellOf, At, MaxIndex, After;
    AfterIs(calls, 0);
    AfterIs(other, 0);
    MaxOfEmpty();
    NothingBeyond(calls, MaxIndex(calls));
    NothingBeyond(other, MaxIndex(calls));
    NothingBeyond(calls, MaxIndex(other));
    NothingBeyond(other, MaxIndex(other));
    forall i | 0 <= i < MaxIndex(calls)
      ensures After(calls)[i] == After(other)[i]
    {
      AfterIs(calls, i);
      AfterIs(other, i);
    }
  }

  lemma MaxOfEmpty()
    ensures MaxIndex([]) == 0
  {
  }

  /** Each position is given at most once. */
  ghost predicate OncePerPosition(calls: seq<Call>) {
    && (forall a, b :: a in calls && b in calls && a.index == b.index ==> a == b)
    && (forall c :: c in calls ==> multiset(calls)[c] == 1)
  }

  lemma {:induction false} AtOnce(calls: seq<Call>, i: nat)
    requires OncePerPosition(calls)
    ensures forall c :: c in calls && c.index == i ==> At(calls, i) == [c.arg]
    ensures (forall c :: c in calls ==> c.index != i) ==> At(calls, i) == []
  {
    if calls != [] {
      var before, c := calls[..|calls| - 1], calls[|calls| - 1];
      assert calls == before + [c];
      assert multiset(calls)[c] == multiset(before)[c] + 1;
      assert c !in before;
      assert forall x :: x in before ==> x in calls && multiset(before)[x] == multiset(calls)[x];
      AtOnce(before, i);
    }
  }

  /** When each position is given once, the calls may come in any order. */
  lemma OrderIndependent(calls: seq<Call>, other: seq<Call>)
    requires Indexed(calls) && OncePerPosition(calls) && multiset(calls) == multiset(other)
    ensures Indexed(other) && After(calls) == After(other)
  {
    SameMembers(calls, other);
    forall i
      ensures At(calls, i) == At(other, i)
    {
      AtOnce(calls, i);
      AtOnce(other, i);
      if c :| c in calls && c.index == i {
        assert c in other;
      }
    }
    OrderAcrossPositions(calls, other);
  }

  lemma SameMembers(calls: seq<Call>, other: seq<Call>)
    requires multiset(calls) == multiset(other)
    ensures forall c :: c in calls <==> c in other
  {
    forall c
      ensures c in calls <==> c in other
    {
      assert c in calls <==> c in multiset(calls);
      assert c in other <==> c in multiset(other);
    }
  }

  ghost predicate Swap(cells: seq<Cell>, a: Call, b: Call)
    requires a.index > 0 && b.index > 0
  {
    Added(Added(cells, a.index, a.arg), b.index, b.arg) == Added(Added(cells, b.index, b.arg), a.index, a.arg)
  }

  lemma SwapElsewhere(cells: seq<Cell>, a: Call, b: Call)
    requires a.index > 0 && b.index > 0 && a.index != b.index
    ensures Swap(cells, a, b)
  {
    hide Put;
  }

  lemma SwapHere(cells: seq<Cell>, a: Call, b: Call)
    requires a.index == b.index > 0
    ensures var c := Resized(cells, a.index)[a.index - 1];
      Swap(cells, a, b) <==> Put(Put(c, a.arg), b.arg) == Put(Put(c, b.arg), a.arg)
  {
    hide Put;
    var i := a.index;
    var t := Resized(cells, i);
    var c := t[i - 1];
    assert Added(Added(cells, i, a.arg), i, b.arg) == t[i - 1 := Put(Put(c, a.arg), b.arg)];
    assert Added(Added(cells, i, b.arg), i, a.arg) == t[i - 1 := Put(Put(c, b.arg), a.arg)];
    assert t[i - 1 := Put(Put(c, a.arg), b.arg)][i - 1] == Put(Put(c, a.arg), b.arg);
  }

  /**
   Two calls may be swapped in every situation exactly when they are for different positions, equal, or
   strings that commute.
   */
  lemma SwapCondition(a: Call, b: Call)
    requires a.index > 0 && b.index > 0
    ensures (forall cells :: Swap(cells, a, b))
      <==> a.index != b.index || a == b || (a.arg.Str? && b.arg.Str? && a.arg.s + b.arg.s == b.arg.s + a.arg.s)
  {
    hide Put, Resized, Added, Swap;
    forall cells: seq<Cell>
      ensures a.index != b.index ==> Swap(cells, a, b)
      ensures a == b ==> Swap(cells, a, b)
    {
      if a.index != b.index {
        SwapElsewhere(cells, a, b);
      } else if a == b {
        SwapHere(cells, a, b);
      }
    }
    if a.index == b.index && a != b {
      PutsSwap(a.arg, b.arg);
      forall cells: seq<Cell>
        ensures var c := Resized(cells, a.index)[a.index - 1];
          Swap(cells, a, b) <==> Put(Put(c, a.arg), b.arg) == Put(Put(c, b.arg), a.arg)
      {
        SwapHere(cells, a, b);
      }
      if c :| Put(Put(c, a.arg), b.arg) != Put(Put(c, b.arg), a.arg) {
        FullResized(a.index, c);
        assert !Swap(seq(a.index, _ => c), a, b);
      }
    }
  }

  lemma FullResized(i: nat, c: Cell)
    requires i > 0
    ensures Resized(seq(i, _ => c), i)[i - 1] == c
  {
  }

  lemma PutsSwap(a: Arg, b: Arg)
    requires a != b
    ensures (forall c :: Put(Put(c, a), b) == Put(Put(c, b), a)) <==> (a.Str? && b.Str? && a.s + b.s == b.s + a.s)
  {
    var x, y := Put(Put(BLANK, a), b), Put(Put(BLANK, b), a);
    if a.Str? && b.Str? {
      assert "" + a.s == a.s && "" + b.s == b.s;
      assert x.str == a.s + b.s && y.str == b.s + a.s;
      forall c: Cell | a.s + b.s == b.s + a.s
        ensures Put(Put(c, a), b) == Put(Put(c, b), a)
      {
        assert (c.str + a.s) + b.s == c.str + (a.s + b.s);
        assert (c.str + b.s) + a.s == c.str + (b.s + a.s);
      }
    } else {
      assert x != y;
    }
  }
}
