/**
 * Searching an endless supply of pairwise distinct candidates for one that is
 * not yet taken.  Both username loops of server/db.go are such searches.
 */
module FreshNames {

  ghost predicate Injective(candidate: nat -> string) {
    forall a, b :: candidate(a) == candidate(b) ==> a == b
  }

  /** The taken names that are still ahead of position `from`. */
  ghost function Ahead(taken: set<string>, candidate: nat -> string, from: nat): set<string> {
    set name | name in taken && exists k: nat :: from <= k && candidate(k) == name
  }

  lemma AheadShrinks(taken: set<string>, candidate: nat -> string, from: nat)
    requires Injective(candidate) && candidate(from) in taken
    ensures Ahead(taken, candidate, from + 1) < Ahead(taken, candidate, from)
    ensures |Ahead(taken, candidate, from + 1)| < |Ahead(taken, candidate, from)|
  {
    var here, next := Ahead(taken, candidate, from), Ahead(taken, candidate, from + 1);
    assert candidate(from) in here && candidate(from) !in next;
    SubsetSize(next, here - {candidate(from)});
  }

  lemma {:induction false} SubsetSize<T>(a: set<T>, b: set<T>)
    requires a <= b
    ensures |a| <= |b|
  {
    if a != {} {
      var x :| x in a;
      SubsetSize(a - {x}, b - {x});
    }
  }

  /** The least position, from `from` on, whose candidate is free; pigeonhole bounds it. */
  ghost function LeastFree(taken: set<string>, candidate: nat -> string, from: nat): (k: nat)
    requires Injective(candidate)
    ensures from <= k && candidate(k) !in taken
    ensures forall j :: from <= j < k ==> candidate(j) in taken
    ensures k - from <= |Ahead(taken, candidate, from)|
    decreases Ahead(taken, candidate, from)
  {
    if candidate(from) !in taken then from
    else
      AheadShrinks(taken, candidate, from);
      LeastFree(taken, candidate, from + 1)
  }
}
