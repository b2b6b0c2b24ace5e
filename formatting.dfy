/**
 * The formatters main.py can select (main.py:160-173). Their bodies live in a
 * `formatters` package that is not part of this model; only their identity
 * and the order they are chosen in are.
 */
module Formatting {

  datatype Formatter = JoinFormatter | AppendFormatter(suffix: string) | CapitalizeFormatter

  /** A formatter's place in the fixed order join, append, capitalize. */
  function Rank(f: Formatter): nat {
    match f
    case JoinFormatter => 0
    case AppendFormatter(_) => 1
    case CapitalizeFormatter => 2
  }

  /** Formatters listed in the fixed order, each kind at most once. */
  predicate InFixedOrder(fs: seq<Formatter>) {
    forall i, j | 0 <= i < j < |fs| :: Rank(fs[i]) < Rank(fs[j])
  }
}
