/** The MT19937 generator: the array that is twisted in place, and the recurrence it implements. */
module MersenneTwister {

  const N: nat := 624
  const M: nat := 397
  const MATRIX_A: Word := 0x9908b0df
  const UPPER_MASK: Word := 0x80000000
  const LOWER_MASK: Word := 0x7fffffff
  const FULL_MASK: Word := 0xffffffff
  const ARRAY_SEED: Word := 19650218

  /** `unsigned long` of a 64-bit host; the generator keeps every word in its low 32 bits. */
  type Word = bv64

  predicate Low(w: Word) {
    w <= FULL_MASK
  }

  predicate AllLow(s: seq<Word>) {
    forall j :: 0 <= j < |s| ==> Low(s[j])
  }

  // ---------------------------------------------------------------- the recurrence

  function Mix(u: Word, l: Word): Word {
    (u & UPPER_MASK) | (l & LOWER_MASK)
  }

  function Mag(bit: Word): Word {
    if bit == 0 then 0 else MATRIX_A
  }

  function T(y: Word): Word {
    (y >> 1) ^ Mag(y & 1)
  }

  /** The word that follows `m` by 227 places, from the two words 624 and 623 places before it. */
  function Next(u: Word, l: Word, m: Word): Word {
    m ^ T(Mix(u, l))
  }

  /** The infinite sequence whose first 624 words are `origin`. */
  ghost function X(origin: seq<Word>, k: nat): Word
    requires |origin| == N
  {
    if k < N then origin[k]
    else Next(X(origin, k - N), X(origin, k - N + 1), X(origin, k - N + M))
  }

  /** The 624 consecutive words that start at index k. */
  ghost function Window(origin: seq<Word>, k: nat): (w: seq<Word>)
    requires |origin| == N
    ensures |w| == N
    ensures forall j :: 0 <= j < N ==> w[j] == X(origin, k + j)
  {
    seq(N, j requires 0 <= j < N => X(origin, k + j))
  }

  lemma XOrigin(origin: seq<Word>)
    requires |origin| == N
    ensures forall j :: 0 <= j < N ==> X(origin, j) == origin[j]
  {
  }

  lemma XRecurrence(origin: seq<Word>, k: nat)
    requires |origin| == N
    ensures X(origin, k + N) == Next(X(origin, k), X(origin, k + 1), X(origin, k + M))
  {
    assert k + N - N + M == k + M && k + N - N == k;
  }

  // The pieces of the recurrence, each by itself.

  /** The top bit of one word and the other 31 of the next. */
  lemma MixWord(u: Word, l: Word)
    ensures Mix(u, l) == (u & 0x80000000) | (l & 0x7fffffff)
  {
  }

  /** Half of a word, and the constant where the word is odd. */
  lemma TwistWord(y: Word)
    ensures T(y) == (y >> 1) ^ (if y & 1 == 0 then 0 else 0x9908b0df)
  {
  }

  lemma XorWord(a: Word, b: Word)
    ensures Xor(a, b) == a ^ b
  {
  }

  /** Word k + 624 comes from the words k, k + 1 and k + 397, wherever the sequence is joined. */
  lemma Recurrence(origin: seq<Word>, k: nat)
    requires |origin| == N
    ensures X(origin, k + 624) == Xor(X(origin, k + 397), T(Mix(X(origin, k), X(origin, k + 1))))
  {
    hide X, T, Mix, Next, Xor;
    XRecurrence(origin, k);
    NextIsXor(X(origin, k), X(origin, k + 1), X(origin, k + 397));
  }

  /** Restarting the recurrence from one of its own windows continues the same sequence. */
  lemma {:induction false} XShift(origin: seq<Word>, k: nat, n: nat)
    requires |origin| == N
    ensures X(Window(origin, k), n) == X(origin, k + n)
  {
    hide Next, X;
    if n < N {
      XOrigin(Window(origin, k));
    } else {
      XShift(origin, k, n - N + M);
      XShift(origin, k, n - N);
      XShift(origin, k, n - N + 1);
      XRecurrence(origin, k + n - N);
      XRecurrence(Window(origin, k), n - N);
      assert n - N + N == n;
      assert k + (n - N + M) == k + n - N + M;
      assert k + (n - N + 1) == k + n - N + 1;
    }
  }

  lemma NextLow(u: Word, l: Word, m: Word)
    requires Low(u) && Low(l) && Low(m)
    ensures Low(Mix(u, l)) && Low(T(Mix(u, l))) && Low(Next(u, l, m))
  {
  }

  lemma {:induction false} XLow(origin: seq<Word>, k: nat)
    requires |origin| == N && AllLow(origin)
    ensures Low(X(origin, k))
  {
    if k >= N {
      XLow(origin, k - N + M);
      XLow(origin, k - N);
      XLow(origin, k - N + 1);
      NextLow(X(origin, k - N), X(origin, k - N + 1), X(origin, k - N + M));
    }
  }

  // ---------------------------------------------------------------- one step, and its inverse

  /** Drop the oldest word, append the next one. */
  function Step(w: seq<Word>): (r: seq<Word>)
    requires |w| == N
    ensures |r| == N
  {
    w[1..] + [Next(w[0], w[1], w[M])]
  }

  ghost function Steps(w: seq<Word>, n: nat): (r: seq<Word>)
    requires |w| == N
    ensures |r| == N
  {
    if n == 0 then w else Step(Steps(w, n - 1))
  }

  /** The significant part of a state: the top bit of word 0 and the other 623 words, 19937 bits in all. */
  predicate Same(a: seq<Word>, b: seq<Word>)
    requires |a| == |b| == N
  {
    Top(a[0]) == Top(b[0]) && a[1..] == b[1..]
  }

  function Top(w: Word): Word {
    w & UPPER_MASK
  }

  predicate NonZero(w: seq<Word>)
    requires |w| == N
  {
    Top(w[0]) != 0 || exists j :: 1 <= j < N && w[j] != 0
  }

  function UnT(z: Word): Word {
    if z & UPPER_MASK == 0 then z << 1 else ((z ^ MATRIX_A) << 1) | 1
  }

  function Xor(a: Word, b: Word): Word {
    a ^ b
  }

  /** Undo one step: recover the dropped top bit and the low 31 bits of the next word. */
  function Unstep(w: seq<Word>): (r: seq<Word>)
    requires |w| == N
    ensures |r| == N
  {
    var y := UnT(Xor(w[N - 1], w[M - 1]));
    [Top(y), Mix(w[0], y)] + w[1..N - 1]
  }

  // Facts about single words, each small enough for bit-blasting.

  lemma ShiftBack(a: Word)
    requires Low(a)
    ensures (a << 1) >> 1 == a && (a << 1) & 1 == 0
    ensures ((a << 1) | 1) >> 1 == a && ((a << 1) | 1) & 1 == 1
    ensures (a ^ MATRIX_A) ^ MATRIX_A == a && Low(a ^ MATRIX_A)
  {
  }

  lemma UnTLow(z: Word)
    requires Low(z)
    ensures Low(UnT(z))
  {
  }

  lemma TEven(u: Word)
    requires u & 1 == 0
    ensures T(u) == u >> 1
  {
  }

  lemma TOdd(u: Word)
    requires u & 1 == 1
    ensures T(u) == (u >> 1) ^ MATRIX_A
  {
  }

  lemma UnTAfterT(y: Word)
    requires Low(y)
    ensures UnT(T(y)) == y
  {
  }

  lemma UnTByTop(z: Word)
    ensures z & UPPER_MASK == 0 ==> UnT(z) == z << 1
    ensures z & UPPER_MASK != 0 ==> UnT(z) == ((z ^ MATRIX_A) << 1) | 1
  {
  }

  lemma TAfterUnT(z: Word)
    requires Low(z)
    ensures T(UnT(z)) == z
  {
    hide T, UnT;
    UnTByTop(z);
    if z & UPPER_MASK == 0 {
      ShiftedTwist(z);
    } else {
      ShiftedTwistOdd(z);
    }
  }

  lemma ShiftedTwist(z: Word)
    requires Low(z)
    ensures T(z << 1) == z
  {
    hide T;
    ShiftBack(z);
    TEven(z << 1);
  }

  lemma ShiftedTwistOdd(z: Word)
    requires Low(z)
    ensures T(((z ^ MATRIX_A) << 1) | 1) == z
  {
    hide T;
    ShiftBack(z);
    ShiftBack(z ^ MATRIX_A);
    TOdd(((z ^ MATRIX_A) << 1) | 1);
  }

  lemma XorCancels(a: Word, b: Word)
    ensures Xor(Xor(a, b), b) == a
    ensures Xor(a, Xor(a, b)) == b
    ensures Low(a) && Low(b) ==> Low(Xor(a, b))
  {
  }

  lemma XorCommutes(a: Word, b: Word)
    ensures Xor(a, b) == Xor(b, a)
  {
  }

  lemma MixOfMix(u: Word, l: Word, y: Word)
    requires Low(u) && Low(l) && Low(y)
    ensures Top(Mix(u, l)) == Top(u)
    ensures Mix(l, Mix(u, l)) == l
    ensures Mix(Top(y), Mix(u, y)) == y
    ensures Top(Mix(u, y)) == Top(u)
    ensures Low(Mix(u, y)) && Low(Top(y))
  {
  }

  lemma StepLow(w: seq<Word>)
    requires |w| == N && AllLow(w)
    ensures AllLow(Step(w)) && AllLow(Unstep(w))
  {
    NextLow(w[0], w[1], w[M]);
    XorCancels(w[N - 1], w[M - 1]);
    UnTLow(Xor(w[N - 1], w[M - 1]));
    MixOfMix(w[0], w[0], UnT(Xor(w[N - 1], w[M - 1])));
  }

  lemma {:induction false} StepsLow(w: seq<Word>, n: nat)
    requires |w| == N && AllLow(w)
    ensures AllLow(Steps(w, n))
  {
    if n > 0 {
      StepsLow(w, n - 1);
      StepLow(Steps(w, n - 1));
    }
  }

  /** Unstep undoes Step on the significant bits. */
  lemma UnstepAfterStep(w: seq<Word>)
    requires |w| == N && AllLow(w)
    ensures Same(Unstep(Step(w)), w)
  {
    var y := Mix(w[0], w[1]);
    NextLow(w[0], w[1], w[M]);
    UnTAfterT(y);
    NextIsXor(w[0], w[1], w[M]);
    XorCancels(w[M], T(y));
    XorCommutes(w[M], T(y));
    XorCancels(T(y), w[M]);
    MixOfMix(w[0], w[1], y);
    assert Unstep(Step(w))[1..] == w[1..];
  }

  /** Step undoes Unstep on the significant bits: the step is a bijection on them. */
  lemma StepAfterUnstep(w: seq<Word>)
    requires |w| == N && AllLow(w)
    ensures Same(Step(Unstep(w)), w)
  {
    var d := Xor(w[N - 1], w[M - 1]);
    XorCancels(w[N - 1], w[M - 1]);
    UnTLow(d);
    TAfterUnT(d);
    var y := UnT(d);
    var u := Unstep(w);
    MixOfMix(w[0], w[0], y);
    assert u[M] == w[M - 1];
    NextIsXor(u[0], u[1], u[M]);
    XorCommutes(w[N - 1], w[M - 1]);
    XorCancels(w[M - 1], w[N - 1]);
    assert Step(u)[1..] == w[1..];
  }

  lemma NextIsXor(u: Word, l: Word, m: Word)
    ensures Next(u, l, m) == Xor(m, T(Mix(u, l)))
  {
  }

  lemma SameStep(a: seq<Word>, b: seq<Word>)
    requires |a| == |b| == N && AllLow(a) && AllLow(b)
    ensures Same(Step(a), Step(b)) <==> Same(a, b)
  {
    hide Next, Mix, Top, UnT, Xor, AllLow;
    if Same(a, b) {
      NextByTop(a[0], b[0], a[1], a[M]);
      assert a[1] == a[1..][0] == b[1] && a[M] == a[1..][M - 1] == b[M];
    }
    if Same(Step(a), Step(b)) {
      var s, t := Step(a), Step(b);
      StepLow(a);
      StepLow(b);
      MixByTop(s[0], t[0], UnT(Xor(s[N - 1], s[M - 1])));
      assert s[N - 1] == s[1..][N - 2] == t[N - 1] && s[M - 1] == s[1..][M - 2] == t[M - 1];
      assert s[1..N - 1] == s[1..][..N - 2] == t[1..N - 1];
      UnstepAfterStep(a);
      UnstepAfterStep(b);
    }
  }

  lemma NextByTop(u: Word, v: Word, l: Word, m: Word)
    requires Top(u) == Top(v)
    ensures Next(u, l, m) == Next(v, l, m)
  {
    hide Mix, Top, T;
    MixByTop(u, v, l);
  }

  lemma MixByTop(u: Word, v: Word, l: Word)
    requires Top(u) == Top(v)
    ensures Mix(u, l) == Mix(v, l)
  {
  }

  /** The twist is injective on the 19937 significant bits, over any number of steps. */
  lemma {:induction false} TwistInjective(a: seq<Word>, b: seq<Word>, n: nat)
    requires |a| == |b| == N && AllLow(a) && AllLow(b)
    ensures Same(Steps(a, n), Steps(b, n)) <==> Same(a, b)
  {
    if n > 0 {
      TwistInjective(a, b, n - 1);
      StepsLow(a, n - 1);
      StepsLow(b, n - 1);
      SameStep(Steps(a, n - 1), Steps(b, n - 1));
    }
  }

  ghost function Zeros(): (z: seq<Word>)
    ensures |z| == N && AllLow(z)
  {
    seq(N, _ => 0 as Word)
  }

  lemma SameAsZeros(w: seq<Word>)
    requires |w| == N
    ensures Same(w, Zeros()) <==> !NonZero(w)
  {
  }

  /** The all-zero state is the one fixed point of the recurrence, and no other state ever reaches it. */
  lemma {:induction false} NeverZero(w: seq<Word>, n: nat)
    requires |w| == N && AllLow(w)
    ensures NonZero(Steps(w, n)) <==> NonZero(w)
  {
    if n > 0 {
      NeverZero(w, n - 1);
      var s := Steps(w, n - 1);
      StepsLow(w, n - 1);
      ZerosFixed();
      SameStep(s, Zeros());
      SameAsZeros(s);
      SameAsZeros(Step(s));
    }
  }

  lemma ZerosFixed()
    ensures Step(Zeros()) == Zeros()
  {
    assert Next(0, 0, 0) == 0;
  }

  /** The window form of the recurrence and the step-by-step form agree. */
  lemma {:induction false} StepsAreWindow(w: seq<Word>, n: nat)
    requires |w| == N
    ensures Steps(w, n) == Window(w, n)
  {
    hide Step, X;
    if n == 0 {
      XOrigin(w);
    } else {
      StepsAreWindow(w, n - 1);
      StepOfWindow(w, n - 1);
    }
  }

  lemma StepOfWindow(w: seq<Word>, k: nat)
    requires |w| == N
    ensures Step(Window(w, k)) == Window(w, k + 1)
  {
    hide Next, X;
    XRecurrence(w, k);
    var v := Window(w, k);
    assert forall j :: 0 <= j < N - 1 ==> Step(v)[j] == v[j + 1];
    assert Step(v)[N - 1] == X(w, k + N);
  }

  // ---------------------------------------------------------------- tempering

  function Temper(y: Word): Word {
    Temper18(Temper15(Temper7(Temper11(y))))
  }

  function Temper11(y: Word): Word { y ^ (y >> 11) }

  function Temper7(y: Word): Word { y ^ ((y << 7) & 0x9d2c5680) }

  function Temper15(y: Word): Word { y ^ ((y << 15) & 0xefc60000) }

  function Temper18(y: Word): Word { y ^ (y >> 18) }

  function Untemper11(z: Word): Word { z ^ (z >> 11) ^ (z >> 22) }

  function Untemper7(z: Word): Word {
    Unshift7(z, Unshift7(z, Unshift7(z, Unshift7(z, z))))
  }

  function Unshift7(z: Word, y: Word): Word { z ^ ((y << 7) & 0x9d2c5680) }

  /** The inverse of the tempering: the steps for 15 and 18 undo themselves. */
  function Untemper(z: Word): Word {
    Untemper11(Untemper7(Temper15(Temper18(z))))
  }

  lemma Temper11Undone(a: Word)
    requires Low(a)
    ensures Untemper11(Temper11(a)) == a && Low(Temper11(a))
  {
  }

  lemma Temper7Undone(a: Word)
    requires Low(a)
    ensures Untemper7(Temper7(a)) == a && Low(Temper7(a))
  {
  }

  lemma Temper15Undone(a: Word)
    requires Low(a)
    ensures Temper15(Temper15(a)) == a && Low(Temper15(a))
  {
  }

  lemma Temper18Undone(a: Word)
    requires Low(a)
    ensures Temper18(Temper18(a)) == a && Low(Temper18(a))
  {
  }

  /** Tempering permutes the 32-bit words: it loses nothing. */
  lemma TemperUndone(a: Word)
    requires Low(a)
    ensures Low(Temper(a)) && Untemper(Temper(a)) == a
  {
    hide Temper11, Temper7, Temper15, Temper18, Untemper11, Untemper7, Low;
    Temper11Undone(a);
    Temper7Undone(Temper11(a));
    Temper15Undone(Temper7(Temper11(a)));
    Temper18Undone(Temper15(Temper7(Temper11(a))));
  }

  // The four steps of the tempering, each by itself, and their order.

  lemma TemperStep11(y: Word)
    ensures Temper11(y) == y ^ (y >> 11)
  {
  }

  lemma TemperStep7(y: Word)
    ensures Temper7(y) == y ^ ((y << 7) & 0x9d2c5680)
  {
  }

  lemma TemperStep15(y: Word)
    ensures Temper15(y) == y ^ ((y << 15) & 0xefc60000)
  {
  }

  lemma TemperStep18(y: Word)
    ensures Temper18(y) == y ^ (y >> 18)
  {
  }

  lemma TemperOrder(y: Word)
    ensures Temper(y) == Temper18(Temper15(Temper7(Temper11(y))))
  {
    hide Temper11, Temper7, Temper15, Temper18;
  }

  /** The n-th value drawn after seeding with `origin`. */
  ghost function Output(origin: seq<Word>, n: nat): Word
    requires |origin| == N
  {
    Temper(X(origin, N + n))
  }

  /** The 624 values drawn from the n-th one on. */
  ghost function Outputs(origin: seq<Word>, n: nat): (r: seq<Word>)
    requires |origin| == N
    ensures |r| == N
    ensures forall j :: 0 <= j < N ==> r[j] == Output(origin, n + j)
  {
    seq(N, j requires 0 <= j < N => Output(origin, n + j))
  }

  /** Any 624 consecutive values fix all later ones: two runs that agree on that many agree from there on. */
  lemma OutputsDetermineFuture(a: seq<Word>, b: seq<Word>, m: nat, n: nat, k: nat)
    requires |a| == |b| == N && AllLow(a) && AllLow(b)
    requires Outputs(a, m) == Outputs(b, n)
    ensures Output(a, m + k) == Output(b, n + k)
  {
    hide Temper, Untemper;
    var v, w := Window(a, N + m), Window(b, N + n);
    forall j | 0 <= j < N
      ensures v[j] == w[j]
    {
      assert Outputs(a, m)[j] == Outputs(b, n)[j];
      XLow(a, N + m + j);
      XLow(b, N + n + j);
      assert N + (m + j) == N + m + j && N + (n + j) == N + n + j;
      TemperUndone(v[j]);
      TemperUndone(w[j]);
    }
    assert v == w;
    XShift(a, N + m, k);
    XShift(b, N + n, k);
    assert N + (m + k) == N + m + k && N + (n + k) == N + n + k;
  }

  // ---------------------------------------------------------------- seeding

  function Scramble(p: Word): Word {
    p ^ (p >> 30)
  }

  function SeedNext(p: Word, i: nat): Word
    requires i < N
  {
    (1812433253 * Scramble(p) + i as Word) & FULL_MASK
  }

  function StirWord(w: Word, p: Word, keyWord: Word, j: nat): Word
    requires j < 0x1_0000_0000
  {
    ((w ^ (Scramble(p) * 1664525)) + keyWord + j as Word) & FULL_MASK
  }

  function SettleWord(w: Word, p: Word, i: nat): Word
    requires i < N
  {
    ((w ^ (Scramble(p) * 1566083941)) - i as Word) & FULL_MASK
  }

  lemma SeedingLow(w: Word, p: Word, keyWord: Word, i: nat)
    requires i < 0x1_0000_0000
    ensures i < N ==> Low(SeedNext(p, i)) && Low(SettleWord(w, p, i))
    ensures Low(StirWord(w, p, keyWord, i)) && Low(w & FULL_MASK)
  {
  }

  /** Word i of the state after seeding with the number s. */
  function SeedWord(s: Word, i: nat): (w: Word)
    requires i < N
  {
    if i == 0 then s & FULL_MASK
    else SeedNext(SeedWord(s, i - 1), i)
  }

  function Seeded(s: Word): (w: seq<Word>)
    ensures |w| == N
    ensures forall i :: 0 <= i < N ==> w[i] == SeedWord(s, i)
  {
    seq(N, i requires 0 <= i < N => SeedWord(s, i))
  }

  // The words of the seedings, each by itself.

  lemma ScrambleWord(p: Word)
    ensures Scramble(p) == p ^ (p >> 30)
  {
  }

  lemma SeedNextWord(p: Word, i: nat)
    requires i < 624
    ensures SeedNext(p, i) == (1812433253 * Scramble(p) + i as Word) & 0xffffffff
  {
    hide Scramble;
  }

  lemma StirWordIs(w: Word, p: Word, keyWord: Word, j: nat)
    requires j < 0x1_0000_0000
    ensures StirWord(w, p, keyWord, j) == ((w ^ (Scramble(p) * 1664525)) + keyWord + j as Word) & 0xffffffff
  {
    hide Scramble;
  }

  lemma SettleWordIs(w: Word, p: Word, i: nat)
    requires i < 624
    ensures SettleWord(w, p, i) == ((w ^ (Scramble(p) * 1566083941)) - i as Word) & 0xffffffff
  {
    hide Scramble;
  }

  /** Two numbers give the same array exactly when they agree on their low 32 bits. */
  lemma SeededExactly(s: Word, t: Word)
    ensures Seeded(s) == Seeded(t) <==> s & FULL_MASK == t & FULL_MASK
  {
    if s & FULL_MASK == t & FULL_MASK {
      forall i | 0 <= i < N
        ensures Seeded(s)[i] == Seeded(t)[i]
      {
        SameSeed(s, t, i);
      }
    } else {
      assert Seeded(s)[0] != Seeded(t)[0];
    }
  }

  lemma {:induction false} SameSeed(s: Word, t: Word, i: nat)
    requires i < N && s & FULL_MASK == t & FULL_MASK
    ensures SeedWord(s, i) == SeedWord(t, i)
  {
    hide SeedNext;
    if i > 0 {
      SameSeed(s, t, i - 1);
    }
  }

  /** A position in a keyed initialisation: the array, the index being filled, the key index. */
  datatype Fill = Fill(mt: seq<Word>, i: nat, j: nat)

  predicate FillOk(f: Fill) {
    |f.mt| == N && 1 <= f.i < N
  }

  function Advance(mt: seq<Word>, i: nat, w: Word): (r: (seq<Word>, nat))
    requires |mt| == N && 1 <= i < N
    ensures |r.0| == N && 1 <= r.1 < N
  {
    var m := mt[i := w];
    if i + 1 >= N then (m[0 := m[N - 1]], 1) else (m, i + 1)
  }

  /** One round of the first pass: stir key word j into word i. */
  function Stir(f: Fill, key: seq<Word>): (r: Fill)
    requires FillOk(f) && f.j < |key| < 0x1_0000_0000
    ensures FillOk(r) && r.j < |key|
  {
    var w := StirWord(f.mt[f.i], f.mt[f.i - 1], key[f.j], f.j);
    var (m, i) := Advance(f.mt, f.i, w);
    Fill(m, i, if f.j + 1 >= |key| then 0 else f.j + 1)
  }

  /** One round of the second pass. */
  function Settle(f: Fill): (r: Fill)
    requires FillOk(f)
    ensures FillOk(r)
  {
    var w := SettleWord(f.mt[f.i], f.mt[f.i - 1], f.i);
    var (m, i) := Advance(f.mt, f.i, w);
    Fill(m, i, f.j)
  }

  function Stirs(f: Fill, key: seq<Word>, n: nat): (r: Fill)
    requires FillOk(f) && f.j < |key| < 0x1_0000_0000
    ensures FillOk(r) && r.j < |key|
  {
    if n == 0 then f else Stir(Stirs(f, key, n - 1), key)
  }

  function Settles(f: Fill, n: nat): (r: Fill)
    requires FillOk(f)
    ensures FillOk(r)
  {
    if n == 0 then f else Settle(Settles(f, n - 1))
  }

  /** One round of the first pass: the word, where it goes, and which key word comes next. */
  lemma StirRound(f: Fill, key: seq<Word>)
    requires FillOk(f) && f.j < |key| < 0x1_0000_0000
    ensures var w := StirWord(f.mt[f.i], f.mt[f.i - 1], key[f.j], f.j);
      && Stir(f, key).mt == (if f.i == 623 then f.mt[623 := w][0 := w] else f.mt[f.i := w])
      && Stir(f, key).i == (if f.i == 623 then 1 else f.i + 1)
      && Stir(f, key).j == (if f.j + 1 == |key| then 0 else f.j + 1)
  {
    hide StirWord;
  }

  /** And of the second. */
  lemma SettleRound(f: Fill)
    requires FillOk(f)
    ensures var w := SettleWord(f.mt[f.i], f.mt[f.i - 1], f.i);
      && Settle(f).mt == (if f.i == 623 then f.mt[623 := w][0 := w] else f.mt[f.i := w])
      && Settle(f).i == (if f.i == 623 then 1 else f.i + 1) && Settle(f).j == f.j
  {
    hide SettleWord;
  }

  /** Rounds follow one another. */
  lemma {:induction false} RoundsAdd(f: Fill, key: seq<Word>, m: nat, n: nat)
    requires FillOk(f) && f.j < |key| < 0x1_0000_0000
    ensures Stirs(f, key, m + n) == Stirs(Stirs(f, key, m), key, n) && Stirs(f, key, 1) == Stir(f, key)
    ensures Settles(f, m + n) == Settles(Settles(f, m), n) && Settles(f, 1) == Settle(f)
  {
    hide Stir, Settle;
    assert Stirs(f, key, 0) == f && Settles(f, 0) == f;
    if n > 0 {
      RoundsAdd(f, key, m, n - 1);
    }
  }

  /** The state after seeding with a key array. */
  function Keyed(key: seq<Word>): (w: seq<Word>)
    requires 0 < |key| < 0x1_0000_0000
    ensures |w| == N
  {
    var n := if N > |key| then N else |key|;
    var f := Stirs(Fill(Seeded(ARRAY_SEED), 1, 0), key, n);
    Settles(f.(j := 0), N - 1).mt[0 := UPPER_MASK]
  }

  /** Seeding with any number leaves 32-bit words, not all of them zero. */
  lemma SeededUsable(s: Word)
    ensures AllLow(Seeded(s)) && NonZero(Seeded(s))
  {
    forall i | 0 <= i < N
      ensures Low(Seeded(s)[i])
    {
      SeedingLow(s, if i == 0 then 0 else SeedWord(s, i - 1), 0, i);
    }
    if SeedWord(s, 1) == 0 {
      assert SeedNext(0, 2) == 2;
      assert Seeded(s)[2] != 0;
    } else {
      assert Seeded(s)[1] != 0;
    }
  }

  lemma StirLow(f: Fill, key: seq<Word>)
    requires FillOk(f) && f.j < |key| < 0x1_0000_0000 && AllLow(f.mt)
    ensures AllLow(Stir(f, key).mt)
  {
    hide StirWord;
    SeedingLow(f.mt[f.i], f.mt[f.i - 1], key[f.j], f.j);
  }

  lemma SettleLow(f: Fill)
    requires FillOk(f) && AllLow(f.mt)
    ensures AllLow(Settle(f).mt)
  {
    hide SettleWord;
    SeedingLow(f.mt[f.i], f.mt[f.i - 1], 0, f.i);
  }

  lemma {:induction false} StirsLow(f: Fill, key: seq<Word>, n: nat)
    requires FillOk(f) && f.j < |key| < 0x1_0000_0000 && AllLow(f.mt)
    ensures AllLow(Stirs(f, key, n).mt)
  {
    hide Stir;
    if n > 0 {
      StirsLow(f, key, n - 1);
      StirLow(Stirs(f, key, n - 1), key);
    }
  }

  lemma {:induction false} SettlesLow(f: Fill, n: nat)
    requires FillOk(f) && AllLow(f.mt)
    ensures AllLow(Settles(f, n).mt)
  {
    hide Settle;
    if n > 0 {
      SettlesLow(f, n - 1);
      SettleLow(Settles(f, n - 1));
    }
  }

  /** Seeding with any non-empty key leaves 32-bit words, not all of them zero. */
  lemma KeyedUsable(key: seq<Word>)
    requires 0 < |key| < 0x1_0000_0000
    ensures AllLow(Keyed(key)) && NonZero(Keyed(key))
  {
    SeededUsable(ARRAY_SEED);
    var n := if N > |key| then N else |key|;
    StirsLow(Fill(Seeded(ARRAY_SEED), 1, 0), key, n);
    SettlesLow(Stirs(Fill(Seeded(ARRAY_SEED), 1, 0), key, n).(j := 0), N - 1);
    assert Top(UPPER_MASK) != 0 && Low(UPPER_MASK);
  }

  /** After any seeding and any number of draws, the array in use is not the all-zero one. */
  lemma RunsNeverZero(s: Word, key: seq<Word>, k: nat)
    requires 0 < |key| < 0x1_0000_0000
    ensures NonZero(Window(Seeded(s), k)) && AllLow(Window(Seeded(s), k))
    ensures NonZero(Window(Keyed(key), k)) && AllLow(Window(Keyed(key), k))
  {
    SeededUsable(s);
    StepsAreWindow(Seeded(s), k);
    NeverZero(Seeded(s), k);
    StepsLow(Seeded(s), k);
    KeyedUsable(key);
    StepsAreWindow(Keyed(key), k);
    NeverZero(Keyed(key), k);
    StepsLow(Keyed(key), k);
  }

  // ---------------------------------------------------------------- the generator

  class Generator {
    var mt: array<Word>
    /** Index of the next word to hand out; 624 means the array has to be twisted first. */
    var mti: nat
    /** The state the last seeding left, and the number of values drawn since. */
    ghost var origin: seq<Word>
    ghost var drawn: nat

    ghost predicate Valid()
      reads this, mt
    {
      && mt.Length == N && mti <= N
      && |origin| == N && AllLow(origin) && NonZero(origin)
      && drawn + N >= mti
      && mt[..] == Window(origin, drawn + N - mti)
    }

    constructor (now: Word)
      ensures Valid() && fresh(mt)
      ensures origin == Seeded(now) && drawn == 0
    {
      mt := new Word[N](_ => 0);
      new;
      InitGenrand(now);
    }

    method InitGenrand(s: Word)
      requires mt.Length == N
      modifies this`mti, this`origin, this`drawn, mt
      ensures Valid() && origin == Seeded(s) && drawn == 0
      ensures mt[..] == Seeded(s) && mti == N
      ensures mt[0] == s & 0xffffffff && forall i :: 1 <= i < 624 ==> mt[i] == SeedNext(mt[i - 1], i)
    {
      hide SeedNext;
      mt[0] := s & FULL_MASK;
      mti := 1;
      while mti < N
        invariant 1 <= mti <= N
        invariant forall i :: 0 <= i < mti ==> mt[i] == SeedWord(s, i)
      {
        mt[mti] := SeedNext(mt[mti - 1], mti);
        mti := mti + 1;
      }
      origin, drawn := Seeded(s), 0;
      assert mt[..] == Seeded(s);
      SeededUsable(s);
      assert mt[..] == Window(origin, 0);
    }

    method InitByArray(key: seq<Word>)
      requires mt.Length == N && 0 < |key| < 0x1_0000_0000
      modifies this`mti, this`origin, this`drawn, mt
      ensures Valid() && origin == Keyed(key) && drawn == 0
      ensures var rounds := if 624 > |key| then 624 else |key|;
        var f := Stirs(Fill(Seeded(19650218), 1, 0), key, rounds);
        mt[..] == Settles(Fill(f.mt, f.i, 0), 623).mt[0 := 0x80000000]
    {
      hide StirWord, SettleWord, SeedWord, SeedNext, Stirs, Settles, X, NonZero, Low;
      InitGenrand(ARRAY_SEED);
      var i := StirPass(key);
      SettlePass(i);
      mt[0] := UPPER_MASK;
      origin := Keyed(key);
      KeyedUsable(key);
      XOrigin(origin);
      assert mt[..] == Window(origin, 0);
    }

    /** Write a word and move on; past the end, the last word is copied to the front. */
    method Place(at: nat, w: Word) returns (i: nat)
      requires mt.Length == N && 1 <= at < N
      modifies mt
      ensures (mt[..], i) == Advance(old(mt[..]), at, w)
    {
      mt[at] := w;
      i := at + 1;
      if i >= N {
        mt[0] := mt[N - 1];
        i := 1;
      }
    }

    method StirPass(key: seq<Word>) returns (i: nat)
      requires mt.Length == N && 0 < |key| < 0x1_0000_0000
      modifies mt
      ensures 1 <= i < N
      ensures var f := Stirs(Fill(old(mt[..]), 1, 0), key, if N > |key| then N else |key|);
        mt[..] == f.mt && i == f.i
    {
      hide StirWord, Advance;
      ghost var start := Fill(mt[..], 1, 0);
      i := 1;
      var j := 0;
      var k: nat := if N > |key| then N else |key|;
      ghost var n := k;
      while k != 0
        invariant k <= n && 1 <= i < N && j < |key|
        invariant Fill(mt[..], i, j) == Stirs(start, key, n - k)
        decreases k
      {
        ghost var f := Fill(mt[..], i, j);
        i := Place(i, StirWord(mt[i], mt[i - 1], key[j], j));
        j := j + 1;
        if j >= |key| {
          j := 0;
        }
        assert Fill(mt[..], i, j) == Stir(f, key);
        k := k - 1;
      }
    }

    method SettlePass(first: nat)
      requires mt.Length == N && 1 <= first < N
      modifies mt
      ensures mt[..] == Settles(Fill(old(mt[..]), first, 0), N - 1).mt
    {
      hide SettleWord, Advance;
      ghost var start := Fill(mt[..], first, 0);
      var i := first;
      var k: nat := N - 1;
      while k != 0
        invariant k <= N - 1 && 1 <= i < N
        invariant Fill(mt[..], i, 0) == Settles(start, N - 1 - k)
        decreases k
      {
        ghost var f := Fill(mt[..], i, 0);
        i := Place(i, SettleWord(mt[i], mt[i - 1], i));
        assert Fill(mt[..], i, 0) == Settle(f);
        k := k - 1;
      }
    }

    /** The three loops over the array; old and new words are read side by side. */
    method Twist()
      requires mt.Length == N
      modifies mt
      ensures mt[..] == Window(old(mt[..]), N)
    {
      hide Next, X;
      ghost var o := mt[..];
      XOrigin(o);
      var kk := 0;
      while kk < N - M
        invariant kk <= N - M
        invariant forall j :: 0 <= j < kk ==> mt[j] == X(o, N + j)
        invariant forall j :: kk <= j < N ==> mt[j] == X(o, j)
      {
        XRecurrence(o, kk);
        mt[kk] := Next(mt[kk], mt[kk + 1], mt[kk + M]);
        kk := kk + 1;
      }
      while kk < N - 1
        invariant N - M <= kk <= N - 1
        invariant forall j :: 0 <= j < kk ==> mt[j] == X(o, N + j)
        invariant forall j :: kk <= j < N ==> mt[j] == X(o, j)
      {
        XRecurrence(o, kk);
        assert mt[kk + M - N] == X(o, N + (kk + M - N));
        mt[kk] := Next(mt[kk], mt[kk + 1], mt[kk + M - N]);
        kk := kk + 1;
      }
      XRecurrence(o, N - 1);
      mt[N - 1] := Next(mt[N - 1], mt[0], mt[M - 1]);
    }

    method GenrandInt32() returns (y: Word)
      requires Valid()
      modifies this`mti, this`drawn, mt
      ensures Valid() && drawn == old(drawn) + 1
      ensures y == Output(origin, old(drawn))
      ensures y == Temper(X(origin, 624 + old(drawn)))
    {
      hide Temper11, Temper7, Temper15, Temper18;
      if mti >= N {
        ghost var base := drawn;
        Twist();
        mti := 0;
        WindowOfWindow(origin, base);
      }
      y := mt[mti];
      mti := mti + 1;
      drawn := drawn + 1;
      y := Temper11(y);
      y := Temper7(y);
      y := Temper15(y);
      y := Temper18(y);
    }
  }

  lemma WindowOfWindow(origin: seq<Word>, k: nat)
    requires |origin| == N
    ensures Window(Window(origin, k), N) == Window(origin, k + N)
  {
    var v, w := Window(Window(origin, k), N), Window(origin, k + N);
    forall j | 0 <= j < N
      ensures v[j] == w[j]
    {
      XShift(origin, k, N + j);
      assert k + (N + j) == k + N + j;
    }
  }
}
