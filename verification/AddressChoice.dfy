/** Where a wallet without address reuse moves consolidated funds, over a series of moves. */
module AddressChoice {
  import opened Addresses

  /** The indexes of the addresses that a transaction spends from all exist already. */
  ghost predicate Within(c: set<nat>, last: nat) {
    forall i | i in c :: i <= last
  }

  /** The first unspent index, the last unspent one if the first is spent from, and a new one if both are. */
  function ToIndex(s: AddressState, c: set<nat>): nat {
    if s.first !in c then s.first
    else if s.lastUnspent !in c then s.lastUnspent
    else s.last + 1
  }

  /** The chosen index is unspent and stays so when the transaction's own addresses are marked. */
  lemma ToIndexIsSafe(s: AddressState, c: set<nat>)
    requires Exact(s) && Within(c, s.last)
    ensures ToIndex(s, c) !in s.spent + c
  {
  }

  /** The address book after one move: the index exists, the addresses that were spent from are marked. */
  ghost function Moved(s: AddressState, c: set<nat>): (t: AddressState)
    requires Exact(s) && Within(c, s.last)
    ensures Exact(t) && t.spent == s.spent + c && t.last == Max(s.last, ToIndex(s, c))
  {
    ToIndexIsSafe(s, c);
    var spent, last := s.spent + c, Max(s.last, ToIndex(s, c));
    AddressState(last, spent, LeastFrom(spent, 0), GreatestUpTo(spent, last))
  }

  ghost predicate AllWithin(sets: seq<set<nat>>, last: nat) {
    forall i | 0 <= i < |sets| :: Within(sets[i], last)
  }

  ghost function Union(sets: seq<set<nat>>): set<nat> {
    if sets == [] then {} else Union(sets[..|sets| - 1]) + sets[|sets| - 1]
  }

  lemma {:induction false} UnionMember(sets: seq<set<nat>>, k: nat)
    ensures k in Union(sets) <==> exists i :: 0 <= i < |sets| && k in sets[i]
  {
    if sets != [] {
      var front := sets[..|sets| - 1];
      UnionMember(front, k);
      assert forall i | 0 <= i < |front| :: front[i] == sets[i];
    }
  }

  lemma UnionSplits(sets: seq<set<nat>>, i: nat, k: nat)
    requires i < |sets|
    ensures k in Union(sets) <==> k in Union(sets[..i]) || k in sets[i] || k in Union(sets[i + 1..])
  {
    UnionMember(sets, k);
    UnionMember(sets[..i], k);
    UnionMember(sets[i + 1..], k);
    var later := sets[i + 1..];
    assert forall j | 0 <= j < |later| :: later[j] == sets[i + 1 + j];
    if j :| i < j < |sets| && k in sets[j] {
      assert k in later[j - i - 1];
    }
  }

  /** The address book after a series of moves. */
  ghost function After(s: AddressState, sets: seq<set<nat>>): (t: AddressState)
    requires Exact(s) && AllWithin(sets, s.last)
    ensures Exact(t) && t.spent == s.spent + Union(sets) && s.last <= t.last
    decreases |sets|
  {
    if sets == [] then s
    else
      var front := sets[..|sets| - 1];
      Moved(After(s, front), sets[|sets| - 1])
  }

  lemma AfterOneMove(s: AddressState, sets: seq<set<nat>>, i: nat)
    requires Exact(s) && AllWithin(sets, s.last) && i < |sets|
    ensures After(s, sets[..i + 1]) == Moved(After(s, sets[..i]), sets[i])
  {
    assert sets[..i + 1][..i] == sets[..i];
  }

  /** The destination of move i in a series. */
  ghost function Destination(s: AddressState, sets: seq<set<nat>>, i: nat): nat
    requires Exact(s) && AllWithin(sets, s.last) && i < |sets|
  {
    ToIndex(After(s, sets[..i]), sets[i])
  }

  lemma NextMove(s: AddressState, sets: seq<set<nat>>, i: nat)
    requires Exact(s) && AllWithin(sets, s.last) && i < |sets|
    ensures var t := Moved(After(s, sets[..i]), sets[i]);
            t == After(s, sets[..i + 1]) && t.spent == s.spent + Union(sets[..i + 1])
    ensures Destination(s, sets, i) == ToIndex(After(s, sets[..i]), sets[i])
  {
    AfterOneMove(s, sets, i);
  }

  /** Whether the destination of move i ends up spent by the series itself. */
  ghost predicate IsBurned(s: AddressState, sets: seq<set<nat>>, i: nat)
    requires Exact(s) && AllWithin(sets, s.last) && i < |sets|
  {
    Destination(s, sets, i) in After(s, sets).spent
  }

  /** A destination can only be burned by a later move. */
  lemma BurnedLater(s: AddressState, sets: seq<set<nat>>, i: nat)
    requires Exact(s) && AllWithin(sets, s.last) && i < |sets|
    ensures IsBurned(s, sets, i) <==> Destination(s, sets, i) in Union(sets[i + 1..])
  {
    ToIndexIsSafe(After(s, sets[..i]), sets[i]);
    UnionSplits(sets, i, Destination(s, sets, i));
  }

  /** The least unspent index that the moves before i leave over. */
  ghost function LeftOver(s: AddressState, sets: seq<set<nat>>, i: nat): nat
    requires i <= |sets|
  {
    LeastFrom(s.spent + Union(sets[..i]), 0)
  }

  /** No move passes over the least unspent index if a later one spends from it; and if the first move spends from the
      first unspent index, it also spends from the last one unless no later move does. */
  ghost predicate KeepsAhead(s: AddressState, sets: seq<set<nat>>) {
    && (forall i | 0 <= i < |sets| :: LeftOver(s, sets, i) in sets[i] || LeftOver(s, sets, i) !in Union(sets[i + 1..]))
    && (sets != [] && s.first in sets[0] ==> s.lastUnspent in sets[0] || s.lastUnspent !in Union(sets[1..]))
  }

  /** No destination of a series of moves is burned by the series itself, if and only if it keeps ahead. */
  lemma DestinationsSurviveIff(s: AddressState, sets: seq<set<nat>>)
    requires Exact(s) && AllWithin(sets, s.last)
    ensures (forall i: nat | i < |sets| :: !IsBurned(s, sets, i)) <==> KeepsAhead(s, sets)
  {
    if forall i: nat | i < |sets| :: !IsBurned(s, sets, i) {
      forall i | 0 <= i < |sets|
        ensures LeftOver(s, sets, i) in sets[i] || LeftOver(s, sets, i) !in Union(sets[i + 1..])
      {
        assert !IsBurned(s, sets, i);
        BurnedLater(s, sets, i);
        FirstIsLeftOver(s, sets, i);
      }
      if sets != [] {
        assert !IsBurned(s, sets, 0);
        BurnedLater(s, sets, 0);
        assert sets[..0] == [];
      }
    }
    if KeepsAhead(s, sets) {
      forall i: nat | i < |sets| ensures !IsBurned(s, sets, i) {
        SurvivesAhead(s, sets, i);
      }
    }
  }

  lemma FirstIsLeftOver(s: AddressState, sets: seq<set<nat>>, i: nat)
    requires Exact(s) && AllWithin(sets, s.last) && i <= |sets|
    ensures After(s, sets[..i]).first == LeftOver(s, sets, i)
  {
    var t := After(s, sets[..i]);
    LeastIsUnique(t.spent, 0, t.first);
  }

  /** If the first unspent index is not spent from at first, it never is. */
  lemma {:induction false} FirstStays(s: AddressState, sets: seq<set<nat>>, i: nat)
    requires Exact(s) && AllWithin(sets, s.last) && KeepsAhead(s, sets) && i < |sets|
    requires s.first !in sets[0]
    ensures LeftOver(s, sets, i) == s.first && s.first !in sets[i]
  {
    assert sets[..0] == [];
    LeastIsUnique(s.spent, 0, s.first);
    assert s.spent + Union(sets[..0]) == s.spent;
    forall k | k == s.first ensures k !in Union(sets) {
      UnionSplits(sets, 0, k);
    }
    UnionMember(sets, s.first);
    UnionMember(sets[..i], s.first);
    LeastIsUnique(s.spent + Union(sets[..i]), 0, s.first);
  }

  /** Once the last unspent index is one that no move spends from, it stays. */
  lemma {:induction false} LastStays(s: AddressState, sets: seq<set<nat>>, i: nat)
    requires Exact(s) && AllWithin(sets, s.last) && 1 <= i <= |sets|
    requires After(s, sets[..1]).lastUnspent !in Union(sets)
    ensures After(s, sets[..i]).lastUnspent !in Union(sets)
    decreases i
  {
    if i != 1 {
      AfterOneMove(s, sets, i - 1);
      LastStays(s, sets, i - 1);
      UnionContains(sets, i - 1);
      KeptOutside(After(s, sets[..i - 1]), sets[i - 1], Union(sets));
    }
  }

  lemma UnionContains(sets: seq<set<nat>>, i: nat)
    requires i < |sets|
    ensures sets[i] <= Union(sets)
  {
    forall k | k in sets[i] ensures k in Union(sets) {
      UnionMember(sets, k);
    }
  }

  lemma KeptOutside(t: AddressState, c: set<nat>, all: set<nat>)
    requires Exact(t) && Within(c, t.last) && c <= all && t.lastUnspent !in all
    ensures Moved(t, c).lastUnspent !in all
  {
    LastKept(t, c);
  }

  /** From the second move on, the last unspent index is one that no move spends from. */
  lemma LastAtFirst(s: AddressState, sets: seq<set<nat>>)
    requires Exact(s) && AllWithin(sets, s.last) && KeepsAhead(s, sets) && sets != []
    requires s.first in sets[0]
    ensures After(s, sets[..1]).lastUnspent !in Union(sets)
  {
    assert sets[..0] == [];
    LastAfterFirst(s, sets[0]);
    UnionSplits(sets, 0, ToIndex(s, sets[0]));
    UnionMember(sets, ToIndex(s, sets[0]));
    AfterOneMove(s, sets, 0);
  }

  lemma LastIs(t: AddressState, g: nat)
    requires Exact(t) && g !in t.spent && g <= t.last && forall k | g < k <= t.last :: k in t.spent
    ensures t.lastUnspent == g
  {
  }

  lemma LastAfterFirst(s: AddressState, c: set<nat>)
    requires Exact(s) && Within(c, s.last) && s.first in c
    ensures Moved(s, c).lastUnspent == ToIndex(s, c)
  {
    LastIs(Moved(s, c), ToIndex(s, c));
  }

  lemma LastKept(s: AddressState, c: set<nat>)
    requires Exact(s) && Within(c, s.last) && s.lastUnspent !in c
    ensures Moved(s, c).lastUnspent == s.lastUnspent
  {
    LastIs(Moved(s, c), s.lastUnspent);
  }

  lemma SurvivesAhead(s: AddressState, sets: seq<set<nat>>, i: nat)
    requires Exact(s) && AllWithin(sets, s.last) && KeepsAhead(s, sets) && i < |sets|
    ensures !IsBurned(s, sets, i)
  {
    var t := After(s, sets[..i]);
    BurnedLater(s, sets, i);
    FirstIsLeftOver(s, sets, i);
    UnionSplits(sets, i, Destination(s, sets, i));
    UnionMember(sets, Destination(s, sets, i));
    if t.first in sets[i] {
      if s.first !in sets[0] {
        FirstStays(s, sets, i);
        assert false;
      } else if i == 0 {
        assert sets[..0] == [];
      } else {
        LastAtFirst(s, sets);
        LastStays(s, sets, i);
      }
    }
  }

  /** Two addresses, each emptied by a transaction of its own: the first one pays to the last unspent address, and the
      second one burns it. */
  lemma OwnDestinationBurned() returns (s: AddressState, sets: seq<set<nat>>)
    ensures Exact(s) && AllWithin(sets, s.last) && |sets| == 2
    ensures IsBurned(s, sets, 0)
  {
    s := AddressState(1, {}, 0, 1);
    sets := [{0}, {1}];
    assert sets[..0] == [] && sets[1..] == [{1}];
    BurnedLater(s, sets, 0);
    UnionMember(sets[1..], 1);
    assert 1 in sets[1..][0];
  }
}
