/**
 The code lengths ZopfliLengthLimitedCodeLengths promises, as a function of the
 frequencies: used symbols become leaves, sorted by weight, and the last chain of
 plain package-merge says how long each leaf's code is.
 */
module CodeLengths {
  import opened Arith
  import opened PackageMerge
  import opened MinimumRedundancy

  datatype Leaf = Leaf(weight: nat, symbol: nat)

  /** One leaf per symbol of positive frequency among the first `i`, in symbol order. */
  function UsedLeaves(freqs: seq<nat>, i: nat): (r: seq<Leaf>)
    requires i <= |freqs|
    ensures |r| <= i
  {
    if i == 0 then []
    else if freqs[i - 1] > 0 then UsedLeaves(freqs, i - 1) + [Leaf(freqs[i - 1], i - 1)]
    else UsedLeaves(freqs, i - 1)
  }

  /** The comparison sort of the leaves, equal weights kept in symbol order. */
  function Insert(x: Leaf, s: seq<Leaf>): (r: seq<Leaf>)
    ensures |r| == |s| + 1
  {
    if s == [] || x.weight >= s[|s| - 1].weight then s + [x]
    else Insert(x, s[..|s| - 1]) + [s[|s| - 1]]
  }

  function Sort(s: seq<Leaf>): (r: seq<Leaf>)
    ensures |r| == |s|
  {
    if s == [] then [] else Insert(s[|s| - 1], Sort(s[..|s| - 1]))
  }

  function SortedLeaves(freqs: seq<nat>): seq<Leaf> {
    Sort(UsedLeaves(freqs, |freqs|))
  }

  function Weights(leaves: seq<Leaf>): (w: seq<nat>)
    ensures |w| == |leaves| && forall i | 0 <= i < |w| :: w[i] == leaves[i].weight
  {
    seq(|leaves|, i requires 0 <= i < |leaves| => leaves[i].weight)
  }

  /** The length given to symbol `s` by the first k leaves of a chain. */
  function SymbolLength(leaves: seq<Leaf>, ch: Chain, s: nat, k: nat): nat
    requires k <= |leaves|
  {
    if k == 0 then 0
    else if leaves[k - 1].symbol == s then ChainLength(ch, k - 1)
    else SymbolLength(leaves, ch, s, k - 1)
  }

  function ChainCode(leaves: seq<Leaf>, ch: Chain, size: nat): (l: seq<nat>)
    ensures |l| == size
    ensures forall s | 0 <= s < size :: l[s] == SymbolLength(leaves, ch, s, |leaves|)
  {
    seq(size, s requires s >= 0 => SymbolLength(leaves, ch, s, |leaves|))
  }

  function SingleCode(symbol: nat, size: nat): (l: seq<nat>)
    ensures |l| == size
  {
    seq(size, s => if s == symbol then 1 else 0)
  }

  predicate Encodable(freqs: seq<nat>, maxbits: nat) {
    |UsedLeaves(freqs, |freqs|)| <= Pow2(maxbits)
  }

  /** The specification of the code lengths. */
  function Lengths(freqs: seq<nat>, maxbits: nat): (l: seq<nat>)
    requires maxbits >= 1 && Encodable(freqs, maxbits)
    ensures |l| == |freqs|
  {
    var leaves := SortedLeaves(freqs);
    if |leaves| == 0 then seq(|freqs|, _ => 0)
    else if |leaves| == 1 then SingleCode(leaves[0].symbol, |freqs|)
    else ChainCode(leaves, CodeChain(Weights(leaves), maxbits), |freqs|)
  }

  // ----- Sorting keeps the leaves ---------------------------------------------------

  ghost predicate Ascending(s: seq<Leaf>) {
    forall i, j | 0 <= i <= j < |s| :: s[i].weight <= s[j].weight
  }

  ghost predicate Distinct(s: seq<Leaf>) {
    forall i, j | 0 <= i < j < |s| :: s[i].symbol != s[j].symbol
  }

  lemma {:induction false} InsertProperties(x: Leaf, s: seq<Leaf>)
    requires Ascending(s)
    ensures Ascending(Insert(x, s))
    ensures forall y :: y in Insert(x, s) <==> y == x || y in s
  {
    if s == [] || x.weight >= s[|s| - 1].weight {
    } else {
      var last := s[|s| - 1];
      var init := s[..|s| - 1];
      InsertProperties(x, init);
      assert s == init + [last];
      var r := Insert(x, init);
      assert forall y | y in r :: y.weight <= last.weight;
      assert forall i | 0 <= i < |r| :: r[i] in r;
    }
  }

  lemma {:induction false} InsertMultiset(x: Leaf, s: seq<Leaf>)
    ensures multiset(Insert(x, s)) == multiset(s) + multiset{x}
  {
    if s != [] && x.weight < s[|s| - 1].weight {
      var init, last := s[..|s| - 1], s[|s| - 1];
      assert s == init + [last];
      InsertMultiset(x, init);
    }
  }

  lemma {:induction false} InsertDistinct(x: Leaf, s: seq<Leaf>)
    requires Distinct(s) && Ascending(s) && forall y | y in s :: y.symbol != x.symbol
    ensures Distinct(Insert(x, s))
  {
    if s == [] || x.weight >= s[|s| - 1].weight {
    } else {
      var last := s[|s| - 1];
      var init := s[..|s| - 1];
      assert s == init + [last];
      InsertDistinct(x, init);
      InsertProperties(x, init);
      var r := Insert(x, init);
      forall i | 0 <= i < |r|
        ensures r[i].symbol != last.symbol
      {
        assert r[i] in r;
      }
    }
  }

  lemma {:induction false} SortProperties(s: seq<Leaf>)
    ensures Ascending(Sort(s)) && multiset(Sort(s)) == multiset(s)
    ensures forall y :: y in Sort(s) <==> y in s
  {
    if s != [] {
      var init := s[..|s| - 1];
      assert s == init + [s[|s| - 1]];
      SortProperties(init);
      InsertProperties(s[|s| - 1], Sort(init));
      InsertMultiset(s[|s| - 1], Sort(init));
    }
  }

  lemma {:induction false} SortDistinct(s: seq<Leaf>)
    requires Distinct(s)
    ensures Distinct(Sort(s))
  {
    if s != [] {
      var init := s[..|s| - 1];
      SortDistinct(init);
      SortProperties(init);
      InsertDistinct(s[|s| - 1], Sort(init));
    }
  }

  lemma {:induction false} UsedProperties(freqs: seq<nat>, i: nat)
    requires i <= |freqs|
    ensures Distinct(UsedLeaves(freqs, i))
    ensures forall y | y in UsedLeaves(freqs, i) ::
              y.symbol < i && freqs[y.symbol] == y.weight && y.weight > 0
    ensures forall s | 0 <= s < i && freqs[s] > 0 :: Leaf(freqs[s], s) in UsedLeaves(freqs, i)
  {
    if i > 0 {
      UsedProperties(freqs, i - 1);
    }
  }

  lemma {:induction false} LeavesProperties(freqs: seq<nat>)
    ensures var ls := SortedLeaves(freqs);
            && Distinct(ls) && Leaves(Weights(ls))
            && (forall y | y in ls :: y.symbol < |freqs| && freqs[y.symbol] == y.weight && y.weight > 0)
            && (forall s | 0 <= s < |freqs| && freqs[s] > 0 :: Leaf(freqs[s], s) in ls)
  {
    var used := UsedLeaves(freqs, |freqs|);
    UsedProperties(freqs, |freqs|);
    SortProperties(used);
    SortDistinct(used);
  }

  /** A sum over the leaves of a function of their symbol. */
  function SumBy(leaves: seq<Leaf>, g: nat -> nat): nat {
    if leaves == [] then 0 else SumBy(leaves[..|leaves| - 1], g) + g(leaves[|leaves| - 1].symbol)
  }

  lemma {:induction false} SumBySnoc(s: seq<Leaf>, x: Leaf, g: nat -> nat)
    ensures SumBy(s + [x], g) == SumBy(s, g) + g(x.symbol)
  {
    assert (s + [x])[..|s|] == s;
  }

  lemma {:induction false} SumByInsert(x: Leaf, s: seq<Leaf>, g: nat -> nat)
    ensures SumBy(Insert(x, s), g) == SumBy(s, g) + g(x.symbol)
  {
    if s == [] || x.weight >= s[|s| - 1].weight {
      SumBySnoc(s, x, g);
    } else {
      SumByInsert(x, s[..|s| - 1], g);
      SumBySnoc(Insert(x, s[..|s| - 1]), s[|s| - 1], g);
    }
  }

  lemma {:induction false} SumBySort(s: seq<Leaf>, g: nat -> nat)
    ensures SumBy(Sort(s), g) == SumBy(s, g)
  {
    if s != [] {
      SumBySort(s[..|s| - 1], g);
      SumByInsert(s[|s| - 1], Sort(s[..|s| - 1]), g);
    }
  }

  // ----- Lengths of symbols ------------------------------------------------------------

  lemma {:induction false} SymbolLengthAt(leaves: seq<Leaf>, ch: Chain, i: nat, k: nat)
    requires Distinct(leaves) && i < k <= |leaves|
    ensures SymbolLength(leaves, ch, leaves[i].symbol, k) == ChainLength(ch, i)
  {
    if i < k - 1 {
      SymbolLengthAt(leaves, ch, i, k - 1);
    }
  }

  lemma {:induction false} SymbolLengthNone(leaves: seq<Leaf>, ch: Chain, s: nat, k: nat)
    requires k <= |leaves| && forall y | y in leaves :: y.symbol != s
    ensures SymbolLength(leaves, ch, s, k) == 0
  {
    if k > 0 {
      SymbolLengthNone(leaves, ch, s, k - 1);
      assert leaves[k - 1] in leaves;
    }
  }

  lemma {:induction false} SymbolLengthBound(leaves: seq<Leaf>, ch: Chain, s: nat, k: nat)
    requires k <= |leaves|
    ensures SymbolLength(leaves, ch, s, k) <= Depth(ch)
  {
    if k > 0 {
      SymbolLengthBound(leaves, ch, s, k - 1);
    }
  }

  /** Used symbols get a length within the limit and unused ones get 0. */
  lemma {:induction false} LengthsSupport(freqs: seq<nat>, maxbits: nat, s: nat)
    requires maxbits >= 1 && Encodable(freqs, maxbits) && s < |freqs|
    ensures Lengths(freqs, maxbits)[s] > 0 <==> freqs[s] > 0
    ensures Lengths(freqs, maxbits)[s] <= maxbits
  {
    hide CodeChain, Pow2, Sort, UsedLeaves, Level, Weights, ChainCode;
    var ls := SortedLeaves(freqs);
    LeavesProperties(freqs);
    if freqs[s] > 0 {
      assert Leaf(freqs[s], s) in ls;
    }
    if |ls| == 1 {
      assert ls[0] in ls;
    }
    if |ls| >= 2 {
      ChainSupport(freqs, maxbits, s);
    }
  }

  lemma {:induction false} ChainSupport(freqs: seq<nat>, maxbits: nat, s: nat)
    requires maxbits >= 1 && Encodable(freqs, maxbits) && s < |freqs|
    requires |SortedLeaves(freqs)| >= 2
    ensures Lengths(freqs, maxbits)[s] > 0 <==> freqs[s] > 0
    ensures Lengths(freqs, maxbits)[s] <= maxbits
  {
    hide CodeChain, ChainKraft, Pow2, Sort, UsedLeaves, WellFormed, Level;
    var ls := SortedLeaves(freqs);
    var w := Weights(ls);
    LeavesProperties(freqs);
    CodeIsComplete(w, maxbits);
    var ch := CodeChain(w, maxbits);
    DepthOf(ch, |w|, maxbits);
    SymbolLengthBound(ls, ch, s, |ls|);
    if freqs[s] > 0 {
      var i :| 0 <= i < |ls| && ls[i] == Leaf(freqs[s], s);
      SymbolLengthAt(ls, ch, i, |ls|);
      ActiveLeaf(ch, i);
    } else {
      SymbolLengthNone(ls, ch, s, |ls|);
    }
  }

  lemma {:induction false} DepthOf(ch: Chain, n: nat, d: nat)
    requires WellFormed(ch, n, d)
    ensures Depth(ch) <= d
  {
  }

  lemma {:induction false} ActiveLeaf(ch: Node, i: nat)
    requires i < ch.count
    ensures ChainLength(ch, i) >= 1
  {
  }

  // ----- The Kraft sum over symbols ------------------------------------------------------

  ghost predicate Bounded(l: seq<nat>, maxbits: nat) {
    forall i | 0 <= i < |l| :: l[i] <= maxbits
  }

  /** Symbols contribute to the Kraft sum exactly when they are leaves. */
  lemma {:induction false} KraftOverLeaves(freqs: seq<nat>, l: seq<nat>, maxbits: nat, n: nat)
    requires Bounded(l, maxbits) && |l| == |freqs| && n <= |l|
    requires forall s | 0 <= s < |l| :: l[s] > 0 <==> freqs[s] > 0
    ensures Kraft(l, maxbits, n) == SumBy(UsedLeaves(freqs, n), KraftTerm(l, maxbits))
  {
    hide SumBy, KraftTerm, Pow2;
    NoTerms(KraftTerm(l, maxbits));
    if n > 0 {
      KraftAt(l, maxbits, n - 1);
      KraftOverLeaves(freqs, l, maxbits, n - 1);
      SumBySnoc(UsedLeaves(freqs, n - 1), Leaf(freqs[n - 1], n - 1), KraftTerm(l, maxbits));
    }
  }

  lemma {:induction false} KraftAt(l: seq<nat>, maxbits: nat, s: nat)
    requires s < |l| && l[s] <= maxbits
    ensures KraftTerm(l, maxbits)(s) == if l[s] > 0 then Pow2(maxbits - l[s]) else 0
  {
  }

  function KraftTerm(l: seq<nat>, maxbits: nat): nat -> nat {
    (s: nat) => if s < |l| && 0 < l[s] <= maxbits then Pow2(maxbits - l[s]) else 0
  }

  lemma {:induction false} ChainKraftOverLeaves(leaves: seq<Leaf>, l: seq<nat>, ch: Chain, maxbits: nat, n: nat)
    requires Depth(ch) <= maxbits && n <= |leaves|
    requires forall i | 0 <= i < |leaves| ::
               leaves[i].symbol < |l| && l[leaves[i].symbol] == ChainLength(ch, i) > 0
    ensures SumBy(leaves[..n], KraftTerm(l, maxbits)) == ChainKraft(ch, maxbits, n)
  {
    if n > 0 {
      ChainKraftOverLeaves(leaves, l, ch, maxbits, n - 1);
      assert leaves[..n] == leaves[..n - 1] + [leaves[n - 1]];
      SumBySnoc(leaves[..n - 1], leaves[n - 1], KraftTerm(l, maxbits));
    }
  }

  lemma {:induction false} LeafLengths(freqs: seq<nat>, maxbits: nat, i: nat)
    requires maxbits >= 1 && Encodable(freqs, maxbits)
    requires |SortedLeaves(freqs)| >= 2 && i < |SortedLeaves(freqs)|
    ensures var ls := SortedLeaves(freqs);
            && ls[i].symbol < |freqs|
            && Lengths(freqs, maxbits)[ls[i].symbol] == ChainLength(CodeChain(Weights(ls), maxbits), i)
            && ChainLength(CodeChain(Weights(ls), maxbits), i) > 0
  {
    hide CodeChain, Pow2, Sort, UsedLeaves, WellFormed, Level, ChainKraft;
    var ls := SortedLeaves(freqs);
    var w := Weights(ls);
    LeavesProperties(freqs);
    assert ls[i] in ls;
    CodeIsComplete(w, maxbits);
    SymbolLengthAt(ls, CodeChain(w, maxbits), i, |ls|);
    ActiveLeaf(CodeChain(w, maxbits), i);
  }

  /** Kraft equality over the symbols: with at least two used symbols the code is
      complete, whatever the frequencies. */
  lemma {:induction false} LengthsComplete(freqs: seq<nat>, maxbits: nat)
    requires maxbits >= 1 && Encodable(freqs, maxbits)
    requires |SortedLeaves(freqs)| >= 2
    ensures Bounded(Lengths(freqs, maxbits), maxbits)
    ensures Kraft(Lengths(freqs, maxbits), maxbits, |freqs|) == Pow2(maxbits)
  {
    hide CodeChain, Pow2, Sort, UsedLeaves, Lengths, WellFormed, Level, Kraft, ChainKraft, SumBy, KraftTerm;
    var l := Lengths(freqs, maxbits);
    var ls := SortedLeaves(freqs);
    var w := Weights(ls);
    forall s | 0 <= s < |l|
      ensures l[s] <= maxbits && (l[s] > 0 <==> freqs[s] > 0)
    {
      LengthsSupport(freqs, maxbits, s);
    }
    LeavesProperties(freqs);
    CodeIsComplete(w, maxbits);
    var ch := CodeChain(w, maxbits);
    DepthOf(ch, |w|, maxbits);
    forall i | 0 <= i < |ls|
      ensures ls[i].symbol < |l| && l[ls[i].symbol] == ChainLength(ch, i) > 0
    {
      LeafLengths(freqs, maxbits, i);
    }
    KraftOverLeaves(freqs, l, maxbits, |freqs|);
    SumBySort(UsedLeaves(freqs, |freqs|), KraftTerm(l, maxbits));
    ChainKraftOverLeaves(ls, l, ch, maxbits, |ls|);
    assert ls[..|ls|] == ls;
  }

  // ----- Minimum redundancy over the symbols ------------------------------------------------

  /** The number of bits the coded message takes. */
  function MessageBits(freqs: seq<nat>, l: seq<nat>): nat
    requires |freqs| == |l|
  {
    Bits(freqs, l, |freqs|)
  }

  function CostTerm(freqs: seq<nat>, l: seq<nat>): nat -> nat {
    (s: nat) => if s < |l| && s < |freqs| then freqs[s] * l[s] else 0
  }

  lemma {:induction false} CostAt(freqs: seq<nat>, l: seq<nat>, s: nat)
    requires s < |freqs| == |l|
    ensures CostTerm(freqs, l)(s) == freqs[s] * l[s]
    ensures freqs[s] == 0 ==> freqs[s] * l[s] == 0
  {
  }

  lemma {:induction false} NoTerms(g: nat -> nat)
    ensures SumBy([], g) == 0
  {
  }

  lemma {:induction false} BitsOverLeaves(freqs: seq<nat>, l: seq<nat>, n: nat)
    requires |l| == |freqs| && n <= |l|
    ensures Bits(freqs, l, n) == SumBy(UsedLeaves(freqs, n), CostTerm(freqs, l))
  {
    hide SumBy, CostTerm;
    NoTerms(CostTerm(freqs, l));
    if n > 0 {
      CostAt(freqs, l, n - 1);
      BitsOverLeaves(freqs, l, n - 1);
      SumBySnoc(UsedLeaves(freqs, n - 1), Leaf(freqs[n - 1], n - 1), CostTerm(freqs, l));
    }
  }

  /** The lengths a code gives to the leaves, lightest first. */
  function LeafCode(leaves: seq<Leaf>, l: seq<nat>): (r: seq<nat>)
    requires forall i | 0 <= i < |leaves| :: leaves[i].symbol < |l|
    ensures |r| == |leaves| && forall i | 0 <= i < |r| :: r[i] == l[leaves[i].symbol]
  {
    seq(|leaves|, i requires 0 <= i < |leaves| => l[leaves[i].symbol])
  }

  lemma {:induction false} LeafCodeBits(leaves: seq<Leaf>, freqs: seq<nat>, l: seq<nat>, n: nat)
    requires |l| == |freqs| && n <= |leaves|
    requires forall i | 0 <= i < |leaves| ::
               leaves[i].symbol < |freqs| && freqs[leaves[i].symbol] == leaves[i].weight
    ensures SumBy(leaves[..n], CostTerm(freqs, l)) == Bits(Weights(leaves), LeafCode(leaves, l), n)
  {
    if n > 0 {
      LeafCodeBits(leaves, freqs, l, n - 1);
      assert leaves[..n] == leaves[..n - 1] + [leaves[n - 1]];
      SumBySnoc(leaves[..n - 1], leaves[n - 1], CostTerm(freqs, l));
    }
  }

  lemma {:induction false} LeafCodeKraft(leaves: seq<Leaf>, l: seq<nat>, maxbits: nat, n: nat)
    requires n <= |leaves| && Bounded(l, maxbits)
    requires forall i | 0 <= i < |leaves| :: leaves[i].symbol < |l| && l[leaves[i].symbol] > 0
    ensures SumBy(leaves[..n], KraftTerm(l, maxbits)) == Kraft(LeafCode(leaves, l), maxbits, n)
  {
    if n > 0 {
      LeafCodeKraft(leaves, l, maxbits, n - 1);
      assert leaves[..n] == leaves[..n - 1] + [leaves[n - 1]];
      SumBySnoc(leaves[..n - 1], leaves[n - 1], KraftTerm(l, maxbits));
    }
  }

  /** A code the encoder could have used instead: it covers the used symbols,
      respects the limit and satisfies the Kraft inequality. */
  ghost predicate Rival(freqs: seq<nat>, maxbits: nat, l: seq<nat>) {
    && |l| == |freqs| && Bounded(l, maxbits)
    && (forall s | 0 <= s < |l| :: l[s] > 0 <==> freqs[s] > 0)
    && Kraft(l, maxbits, |l|) <= Pow2(maxbits)
  }

  lemma {:induction false} BitsOfLeafCode(freqs: seq<nat>, l: seq<nat>)
    requires |l| == |freqs|
    requires forall i | 0 <= i < |SortedLeaves(freqs)| :: SortedLeaves(freqs)[i].symbol < |l|
    ensures var ls := SortedLeaves(freqs);
            MessageBits(freqs, l) == Bits(Weights(ls), LeafCode(ls, l), |ls|)
  {
    hide Bits, SumBy, CostTerm, Sort, UsedLeaves;
    var ls := SortedLeaves(freqs);
    LeavesProperties(freqs);
    forall i | 0 <= i < |ls|
      ensures freqs[ls[i].symbol] == ls[i].weight
    {
      assert ls[i] in ls;
    }
    BitsOverLeaves(freqs, l, |freqs|);
    SumBySort(UsedLeaves(freqs, |freqs|), CostTerm(freqs, l));
    LeafCodeBits(ls, freqs, l, |ls|);
    assert ls[..|ls|] == ls;
  }

  /** Minimum redundancy, as katajainen.h promises: no rival code is shorter. */
  lemma {:induction false} LengthsMinimal(freqs: seq<nat>, maxbits: nat, l: seq<nat>)
    requires maxbits >= 1 && Encodable(freqs, maxbits)
    requires Rival(freqs, maxbits, l)
    ensures MessageBits(freqs, Lengths(freqs, maxbits)) <= MessageBits(freqs, l)
  {
    if |SortedLeaves(freqs)| >= 2 {
      ManyLeavesMinimal(freqs, maxbits, l);
    } else {
      forall s | 0 <= s < |freqs|
        ensures Lengths(freqs, maxbits)[s] <= l[s]
      {
        LengthsSupport(freqs, maxbits, s);
        AtMostOne(freqs, maxbits, s);
      }
      BitsMonotone(freqs, Lengths(freqs, maxbits), l, |freqs|);
    }
  }

  lemma {:induction false} AtMostOne(freqs: seq<nat>, maxbits: nat, s: nat)
    requires maxbits >= 1 && Encodable(freqs, maxbits) && s < |freqs|
    requires |SortedLeaves(freqs)| < 2
    ensures Lengths(freqs, maxbits)[s] <= 1
  {
  }

  lemma {:induction false} BitsMonotone(w: seq<nat>, l: seq<nat>, l': seq<nat>, n: nat)
    requires n <= |w| && |l| == |l'| == |w| && forall i | 0 <= i < |l| :: l[i] <= l'[i]
    ensures Bits(w, l, n) <= Bits(w, l', n)
  {
    if n > 0 {
      BitsMonotone(w, l, l', n - 1);
      TimesMonotone(w[n - 1], l[n - 1], l'[n - 1]);
    }
  }

  lemma {:induction false} TimesMonotone(x: nat, y: nat, z: nat)
    requires y <= z
    ensures x * y <= x * z
  {
  }

  lemma {:induction false} ManyLeavesMinimal(freqs: seq<nat>, maxbits: nat, l: seq<nat>)
    requires maxbits >= 1 && Encodable(freqs, maxbits)
    requires Rival(freqs, maxbits, l) && |SortedLeaves(freqs)| >= 2
    ensures MessageBits(freqs, Lengths(freqs, maxbits)) <= MessageBits(freqs, l)
  {
    hide CodeChain, Pow2, Sort, UsedLeaves, Lengths, Kraft, Bits, MessageBits, SumBy, KraftTerm, Level;
    var ls := SortedLeaves(freqs);
    var w := Weights(ls);
    var best := Lengths(freqs, maxbits);
    var ch := CodeChain(w, maxbits);
    LeavesProperties(freqs);
    forall i | 0 <= i < |ls|
      ensures ls[i].symbol < |l| && l[ls[i].symbol] > 0
      ensures best[ls[i].symbol] == ChainLength(ch, i)
    {
      assert ls[i] in ls;
      LeafLengths(freqs, maxbits, i);
    }
    BitsOfLeafCode(freqs, best);
    BitsOfLeafCode(freqs, l);
    assert LeafCode(ls, best) == ChainLengths(ch, |ls|);
    KraftOverLeaves(freqs, l, maxbits, |l|);
    SumBySort(UsedLeaves(freqs, |freqs|), KraftTerm(l, maxbits));
    LeafCodeKraft(ls, l, maxbits, |ls|);
    assert ls[..|ls|] == ls;
    CodeIsMinimal(w, maxbits, LeafCode(ls, l));
  }

  /** Two used symbols are two leaves. */
  lemma {:induction false} TwoUsed(freqs: seq<nat>, s: nat, t: nat)
    requires s < |freqs| && t < |freqs| && s != t && freqs[s] > 0 && freqs[t] > 0
    ensures |SortedLeaves(freqs)| >= 2
  {
    hide SortedLeaves;
    LeavesProperties(freqs);
    var ls := SortedLeaves(freqs);
    var i :| 0 <= i < |ls| && ls[i] == Leaf(freqs[s], s);
    var j :| 0 <= j < |ls| && ls[j] == Leaf(freqs[t], t);
  }

  /** There are never more used symbols than symbols. */
  lemma {:induction false} FewSymbols(freqs: seq<nat>, maxbits: nat)
    requires |freqs| <= Pow2(maxbits)
    ensures Encodable(freqs, maxbits)
  {
  }
}
