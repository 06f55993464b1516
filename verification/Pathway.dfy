/** The two directions of the pathway, and their names in the manifests. */
module Pathway {
  datatype Direction = SolanaToRobinhood | RobinhoodToSolana

  function DirectionName(d: Direction): string {
    if d == SolanaToRobinhood then "solana-to-robinhood" else "robinhood-to-solana"
  }

  lemma DirectionNameInjective(d: Direction, e: Direction)
    ensures DirectionName(d) == DirectionName(e) ==> d == e
  {
    assert DirectionName(SolanaToRobinhood)[0] == 's' && DirectionName(RobinhoodToSolana)[0] == 'r';
  }
}
