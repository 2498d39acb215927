/** The fixed table of card values each voting system offers. */
module VotingSystems {
  import opened Schema

  datatype SystemInfo = SystemInfo(name: string, values: seq<int>)

  /** The voting-system table, keyed by the same two names the games table stores: a name and a deck from 0 up. */
  function Info(k: VotingSystem): (r: SystemInfo)
    ensures |r.name| > 0
    ensures |r.values| > 0 && r.values[0] == 0 && StrictlyIncreasing(r.values)
  {
    match k
    case Fibonacci => SystemInfo("Fibonacci", [0, 1, 2, 3, 5, 8, 13, 21, 34, 55, 89])
    case Power => SystemInfo("Power of 2", [0, 1, 2, 4, 8, 16])
  }

  predicate StrictlyIncreasing(s: seq<int>) {
    forall i, j :: 0 <= i < j < |s| ==> s[i] < s[j]
  }

  /** The cards of a voting system: they start at 0 and strictly increase, so no value repeats. */
  function CardValues(k: VotingSystem): (r: seq<int>)
    ensures |r| > 0 && r[0] == 0
    ensures StrictlyIncreasing(r)
    ensures forall i, j :: 0 <= i < |r| && 0 <= j < |r| && i != j ==> r[i] != r[j]
  {
    Info(k).values
  }

  /** From the fourth card on, each Fibonacci card is the sum of the two before it. */
  lemma FibonacciCards()
    ensures CardValues(Fibonacci) == [0, 1, 2, 3, 5, 8, 13, 21, 34, 55, 89]
    ensures |CardValues(Fibonacci)| == 11 && CardValues(Fibonacci)[10] == 89
    ensures forall i :: 3 <= i < |CardValues(Fibonacci)| ==>
      CardValues(Fibonacci)[i] == CardValues(Fibonacci)[i - 1] + CardValues(Fibonacci)[i - 2]
  {
  }

  /** After the 0 card, each power-of-two card doubles the one before it. */
  lemma PowerCards()
    ensures CardValues(Power) == [0, 1, 2, 4, 8, 16]
    ensures |CardValues(Power)| == 6 && CardValues(Power)[1] == 1
    ensures forall i :: 2 <= i < |CardValues(Power)| ==> CardValues(Power)[i] == 2 * CardValues(Power)[i - 1]
  {
  }
}
