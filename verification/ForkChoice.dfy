/** The total-difficulty fork choice (core/forkchoice.go). */
module ForkChoice {
  import opened Basics
  import opened BlockTree

  /** What the fork choice cannot derive from difficulties and numbers: whether the local
      miner produced either block, and the outcome of the tie-breaking coin. */
  datatype TieBreak = TieBreak(currentPreserve: bool, externPreserve: bool, coin: bool)

  /** What became of an import: nothing, a side chain or the canonical chain. */
  datatype WriteStatus = NonStat | SideStat | CanonStat

  /** None stands for the "missing td" error. */
  function ReorgNeeded(ttd: Option<nat>, localTd: Option<nat>, externTd: Option<nat>,
                       localNumber: nat, externNumber: nat, tie: TieBreak): (r: Option<bool>)
  {
    if localTd.None? || externTd.None? then None
    else if ttd.Some? && ttd.value <= externTd.value then Some(true)
    else if externTd.value > localTd.value then Some(true)
    else if externTd.value < localTd.value then Some(false)
    else if externNumber < localNumber then Some(true)
    else if externNumber == localNumber then
      Some(!tie.currentPreserve && (tie.externPreserve || tie.coin))
    else Some(false)
  }

  /** Lexicographic order on (total difficulty, minus height). */
  predicate AtLeast(td: nat, number: nat, td': nat, number': nat) {
    td > td' || (td == td' && number <= number')
  }

  /** Below the terminal total difficulty a block of higher rank wins and one of lower rank loses.  Between equals, the
      miner's own head stays, else its own new block wins, else the coin decides. */
  lemma RankDecides(localTd: nat, externTd: nat, localNumber: nat, externNumber: nat, ttd: Option<nat>, tie: TieBreak)
    requires ttd.None? || externTd < ttd.value
    ensures var r := ReorgNeeded(ttd, Some(localTd), Some(externTd), localNumber, externNumber, tie);
            && (!AtLeast(localTd, localNumber, externTd, externNumber) ==> r == Some(true))
            && (!AtLeast(externTd, externNumber, localTd, localNumber) ==> r == Some(false))
            && (externTd == localTd && externNumber == localNumber ==>
                  && (tie.currentPreserve ==> r == Some(false))
                  && (!tie.currentPreserve && tie.externPreserve ==> r == Some(true))
                  && (!tie.currentPreserve && !tie.externPreserve ==> r == Some(tie.coin)))
  {
  }
}
