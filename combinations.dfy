/**
 * `list(product(*word_lists))` and the `' '.join` of each tuple
 * (word_alchemist.py:35-43): the cartesian product of the plan, in the order
 * `itertools.product` yields it.
 */
module Combinations {
  import opened PyText

  /** The number of combinations: the product of the list lengths. */
  function Count(lists: seq<seq<string>>): (n: nat)
    ensures n == 0 <==> exists i | 0 <= i < |lists| :: lists[i] == []
    decreases |lists|
  {
    if lists == [] then 1
    else
      var rest := Count(lists[1..]);
      assert (exists i | 0 <= i < |lists[1..]| :: lists[1..][i] == []) <==> (exists i | 1 <= i < |lists| :: lists[i] == []) by {
        forall i | 1 <= i < |lists| ensures lists[1..][i - 1] == lists[i] { }
      }
      |lists[0]| * rest
  }

  /** `[x] + t` for every tail `t`, in order. */
  function PrefixAll(x: string, tails: seq<seq<string>>): (r: seq<seq<string>>)
    ensures |r| == |tails| && forall k | 0 <= k < |tails| :: r[k] == [x] + tails[k]
  {
    seq(|tails|, k requires 0 <= k < |tails| => [x] + tails[k])
  }

  /** Each head in turn, followed by every tail. */
  function Expand(heads: seq<string>, tails: seq<seq<string>>): (r: seq<seq<string>>)
    ensures |r| == |heads| * |tails|
    decreases |heads|
  {
    if heads == [] then [] else PrefixAll(heads[0], tails) + Expand(heads[1..], tails)
  }

  /** The tuples of `itertools.product(*lists)`, each as the sequence of its words. */
  function Product(lists: seq<seq<string>>): (r: seq<seq<string>>)
    ensures |r| == Count(lists)
    decreases |lists|
  {
    if lists == [] then [[]] else Expand(lists[0], Product(lists[1..]))
  }

  /** `' '.join(combination)` for every combination, in order. */
  function Combine(plan: seq<seq<string>>): seq<string> {
    var tuples := Product(plan);
    seq(|tuples|, k requires 0 <= k < |tuples| => JoinWith(" ", tuples[k]))
  }

  /** `idx` picks one position in each list. */
  predicate ValidChoice(lists: seq<seq<string>>, idx: seq<nat>) {
    |idx| == |lists| && forall j | 0 <= j < |lists| :: idx[j] < |lists[j]|
  }

  /** The words `idx` picks, one from each list, in list order. */
  function Choose(lists: seq<seq<string>>, idx: seq<nat>): seq<string>
    requires ValidChoice(lists, idx)
  {
    seq(|lists|, j requires 0 <= j < |lists| => lists[j][idx[j]])
  }

  /** Where the combination picked by `idx` stands: `idx` read as a mixed-radix numeral, last digit lowest. */
  function Index(lists: seq<seq<string>>, idx: seq<nat>): nat
    requires |idx| == |lists|
    decreases |lists|
  {
    if lists == [] then 0 else idx[0] * Count(lists[1..]) + Index(lists[1..], idx[1..])
  }

  lemma MulLeftMono(a: nat, b: nat, c: nat)
    requires a <= b
    ensures a * c <= b * c
  {
  }

  /** A higher leading digit outweighs any lower digits. */
  lemma DigitOrder(a: nat, b: nat, c: nat, lowA: nat, lowB: nat)
    requires a < b && lowA < c
    ensures a * c + lowA < b * c + lowB
  {
    MulLeftMono(a + 1, b, c);
    assert (a + 1) * c == a * c + c;
  }

  /** Row `a`, column `b` of the expansion holds head `a` before tail `b`. */
  lemma {:induction false} ExpandAt(heads: seq<string>, tails: seq<seq<string>>, a: nat, b: nat)
    requires a < |heads| && b < |tails|
    ensures a * |tails| + b < |heads| * |tails|
    ensures Expand(heads, tails)[a * |tails| + b] == [heads[a]] + tails[b]
    decreases a
  {
    MulLeftMono(a + 1, |heads|, |tails|);
    if a > 0 {
      ExpandAt(heads[1..], tails, a - 1, b);
      assert a * |tails| + b == |tails| + ((a - 1) * |tails| + b);
    }
  }

  /**
   * Every choice of one word per list appears in the product, at the position
   * its mixed-radix index gives: the first list varies slowest, the last
   * fastest.
   */
  lemma {:induction false} ProductAt(lists: seq<seq<string>>, idx: seq<nat>)
    requires ValidChoice(lists, idx)
    ensures Index(lists, idx) < Count(lists)
    ensures Product(lists)[Index(lists, idx)] == Choose(lists, idx)
    decreases |lists|
  {
    if lists != [] {
      var rest := lists[1..];
      var tail := idx[1..];
      TailChoice(lists, idx);
      ProductAt(rest, tail);
      ExpandAt(lists[0], Product(rest), idx[0], Index(rest, tail));
      assert Choose(lists, idx) == [lists[0][idx[0]]] + Choose(rest, tail);
    }
  }

  /** Position `k` of an expansion of `h` heads by `t` tails is row `q`, column `r`. */
  lemma RowColumn(k: nat, h: nat, t: nat) returns (q: nat, r: nat)
    requires k < h * t
    ensures q < h && r < t && k == q * t + r
  {
    q, r := k / t, k % t;
    if q >= h {
      MulLeftMono(h, q, t);
    }
  }

  /** Dropping the first list drops the first position of a choice. */
  lemma TailChoice(lists: seq<seq<string>>, idx: seq<nat>)
    requires |lists| > 0 && ValidChoice(lists, idx)
    ensures ValidChoice(lists[1..], idx[1..])
  {
    forall j | 0 <= j < |lists| - 1 ensures idx[1..][j] < |lists[1..][j]| {
      assert idx[1..][j] == idx[j + 1] && lists[1..][j] == lists[j + 1];
    }
  }

  /** Adding a position in the first list to a choice from the others. */
  lemma ConsChoice(lists: seq<seq<string>>, a: nat, tail: seq<nat>)
    requires |lists| > 0 && a < |lists[0]| && ValidChoice(lists[1..], tail)
    ensures ValidChoice(lists, [a] + tail)
    ensures Index(lists, [a] + tail) == a * Count(lists[1..]) + Index(lists[1..], tail)
    ensures Choose(lists, [a] + tail) == [lists[0][a]] + Choose(lists[1..], tail)
  {
    var idx := [a] + tail;
    assert idx[1..] == tail;
    forall j | 1 <= j < |lists| ensures idx[j] < |lists[j]| {
      assert idx[j] == tail[j - 1] && lists[j] == lists[1..][j - 1];
    }
  }

  /** Every element of the product is some choice of one word per list, at that choice's index. */
  lemma {:induction false} ProductElement(lists: seq<seq<string>>, k: nat)
    requires k < |Product(lists)|
    ensures exists idx :: ValidChoice(lists, idx) && Index(lists, idx) == k && Product(lists)[k] == Choose(lists, idx)
    decreases |lists|
  {
    if lists == [] {
      assert ValidChoice(lists, []) && Choose(lists, []) == [];
    } else {
      var rest := lists[1..];
      var tails := Product(rest);
      var a, b := RowColumn(k, |lists[0]|, |tails|);
      ProductElement(rest, b);
      var tail :| ValidChoice(rest, tail) && Index(rest, tail) == b && tails[b] == Choose(rest, tail);
      ProductElementCons(lists, k, a, tail);
    }
  }

  /** A choice from the later lists, found in their product, extended by a position in the first list. */
  lemma ProductElementCons(lists: seq<seq<string>>, k: nat, a: nat, tail: seq<nat>)
    requires |lists| > 0 && a < |lists[0]| && ValidChoice(lists[1..], tail)
    requires Index(lists[1..], tail) < |Product(lists[1..])|
    requires Product(lists[1..])[Index(lists[1..], tail)] == Choose(lists[1..], tail)
    requires k == a * |Product(lists[1..])| + Index(lists[1..], tail)
    ensures k < |Product(lists)|
    ensures ValidChoice(lists, [a] + tail) && Index(lists, [a] + tail) == k
    ensures Product(lists)[k] == Choose(lists, [a] + tail)
  {
    ExpandAt(lists[0], Product(lists[1..]), a, Index(lists[1..], tail));
    ConsChoice(lists, a, tail);
  }

  /** `a` comes before `b` in lexicographic order. */
  predicate LexLess(a: seq<nat>, b: seq<nat>)
    decreases |a|
  {
    |a| > 0 && |b| > 0 && (a[0] < b[0] || (a[0] == b[0] && LexLess(a[1..], b[1..])))
  }

  /** The product lists the choices in lexicographic order of the positions they pick. */
  lemma {:induction false} IndexLexOrder(lists: seq<seq<string>>, x: seq<nat>, y: seq<nat>)
    requires ValidChoice(lists, x) && ValidChoice(lists, y) && LexLess(x, y)
    ensures Index(lists, x) < Index(lists, y)
    decreases |lists|
  {
    var rest := lists[1..];
    TailChoice(lists, x);
    TailChoice(lists, y);
    if x[0] < y[0] {
      ProductAt(rest, x[1..]);
      DigitOrder(x[0], y[0], Count(rest), Index(rest, x[1..]), Index(rest, y[1..]));
    } else {
      IndexLexOrder(rest, x[1..], y[1..]);
    }
  }

  /** Stepping the last list's position by one steps to the very next combination. */
  lemma {:induction false} LastVariesFastest(lists: seq<seq<string>>, idx: seq<nat>)
    requires |lists| > 0 && |idx| == |lists|
    ensures Index(lists, idx[|idx| - 1 := idx[|idx| - 1] + 1]) == Index(lists, idx) + 1
    decreases |lists|
  {
    var next := idx[|idx| - 1 := idx[|idx| - 1] + 1];
    if |lists| == 1 {
      assert Count(lists[1..]) == 1;
    } else {
      assert next[1..] == idx[1..][|idx| - 2 := idx[|idx| - 1] + 1];
      LastVariesFastest(lists[1..], idx[1..]);
    }
  }

  /** With no lists there is one, empty, combination; with an empty list there are none. */
  lemma CombineEdgeCases(plan: seq<seq<string>>)
    ensures plan == [] ==> Combine(plan) == [""]
    ensures (exists i | 0 <= i < |plan| :: plan[i] == []) ==> Combine(plan) == []
  {
    if plan == [] {
      assert Product(plan) == [[]];
    }
  }

  /**
   * `mix`'s strings: one per combination, the number of combinations being
   * the product of the list lengths; the choice `idx` gives the string at
   * its index, its words joined by single spaces.
   */
  lemma CombineAt(plan: seq<seq<string>>, idx: seq<nat>)
    requires ValidChoice(plan, idx)
    ensures |Combine(plan)| == Count(plan)
    ensures Index(plan, idx) < |Combine(plan)|
    ensures Combine(plan)[Index(plan, idx)] == JoinWith(" ", Choose(plan, idx))
  {
    ProductAt(plan, idx);
  }

  /** Every string `mix` returns is the join of some choice of one word per list. */
  lemma CombineElement(plan: seq<seq<string>>, k: nat)
    requires k < |Combine(plan)|
    ensures exists idx :: ValidChoice(plan, idx) && Index(plan, idx) == k && Combine(plan)[k] == JoinWith(" ", Choose(plan, idx))
  {
    ProductElement(plan, k);
  }
}
