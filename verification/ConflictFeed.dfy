/** The dashboard's bounded map of conflict sets with a heap of arrival times. */
module ConflictFeed {
  import opened Collections

  type OutputID = nat

  type TransactionID = nat

  type Time = int

  // ---------------------------------------------------------------- time heap

  datatype TimeHeapElement = TimeHeapElement(conflictID: OutputID, arrivalTime: Time)

  type TimeHeap = seq<TimeHeapElement>

  predicate Less(h: TimeHeap, i: nat, j: nat)
    requires i < |h| && j < |h|
  {
    h[i].arrivalTime < h[j].arrivalTime
  }

  function Swapped(h: TimeHeap, i: nat, j: nat): TimeHeap
    requires i < |h| && j < |h|
  {
    h[i := h[j]][j := h[i]]
  }

  function Parent(i: nat): nat
    requires 0 < i
  {
    (i - 1) / 2
  }

  /** No element arrived before its parent. */
  ghost predicate IsHeap(h: TimeHeap) {
    forall i | 0 < i < |h| :: !Less(h, i, Parent(i))
  }

  /** A heap except that the element at hole may have arrived before its parent; its children are no earlier than that
      parent. */
  ghost predicate IsHeapUp(h: TimeHeap, hole: nat) {
    && hole < |h|
    && (forall i | 0 < i < |h| && i != hole :: !Less(h, i, Parent(i)))
    && (0 < hole ==> forall i | 0 < i < |h| && Parent(i) == hole :: !Less(h, i, Parent(hole)))
  }

  /** A heap on the first n elements except that the element at hole may have arrived after its children. */
  ghost predicate IsHeapDown(h: TimeHeap, hole: nat, n: nat) {
    && hole <= n <= |h|
    && (forall i | 0 < i < n && Parent(i) != hole :: !Less(h, i, Parent(i)))
    && (0 < hole < n ==> forall i | 0 < i < n && Parent(i) == hole :: !Less(h, i, Parent(hole)))
  }

  lemma SwapKeepsElements(h: TimeHeap, i: nat, j: nat)
    requires i < |h| && j < |h|
    ensures multiset(Swapped(h, i, j)) == multiset(h)
  {
  }

  lemma {:induction false} RootIsMinimal(h: TimeHeap, n: nat, i: nat)
    requires n <= |h| && i < n && forall j | 0 < j < n :: !Less(h, j, Parent(j))
    ensures h[0].arrivalTime <= h[i].arrivalTime
  {
    if 0 < i {
      RootIsMinimal(h, n, Parent(i));
    }
  }

  lemma SwapUp(h: TimeHeap, j: nat)
    requires IsHeapUp(h, j) && 0 < j && Less(h, j, Parent(j))
    ensures IsHeapUp(Swapped(h, Parent(j), j), Parent(j))
  {
    var p := Parent(j);
    var r := Swapped(h, p, j);
    forall i | 0 < i < |r| && i != p ensures !Less(r, i, Parent(i)) {
      if i == j {
      } else if Parent(i) == j {
        assert !Less(h, i, p);
      } else if Parent(i) == p {
        assert !Less(h, i, p);
      } else {
        assert !Less(h, i, Parent(i));
      }
    }
    if 0 < p {
      assert !Less(h, p, Parent(p));
      forall i | 0 < i < |r| && Parent(i) == p ensures !Less(r, i, Parent(p)) {
        if i != j {
          assert !Less(h, i, p);
        }
      }
    }
  }

  lemma SwapDown(h: TimeHeap, i: nat, j: nat, n: nat)
    requires IsHeapDown(h, i, n) && i < j < n && Parent(j) == i && Less(h, j, i)
    requires forall k | 0 < k < n && Parent(k) == i :: !Less(h, k, j)
    ensures IsHeapDown(Swapped(h, i, j), j, n)
  {
    var r := Swapped(h, i, j);
    forall k | 0 < k < n && Parent(k) != j ensures !Less(r, k, Parent(k)) {
      if k == i {
        assert !Less(h, j, Parent(i));
      } else if Parent(k) == i {
        assert !Less(h, k, j);
      } else {
        assert !Less(h, k, Parent(k));
      }
    }
    forall k | 0 < k < n && Parent(k) == j ensures !Less(r, k, Parent(j)) {
      assert !Less(h, k, Parent(k));
    }
  }

  lemma UpDone(h: TimeHeap, j: nat)
    requires IsHeapUp(h, j) && (j == 0 || !Less(h, j, Parent(j)))
    ensures IsHeap(h)
  {
  }

  /** The smaller child is no earlier than the element: then no child is. */
  lemma DownDone(h: TimeHeap, i: nat, n: nat)
    requires IsHeapDown(h, i, n)
    requires forall k | 0 < k < n && Parent(k) == i :: !Less(h, k, i)
    ensures forall k | 0 < k < n :: !Less(h, k, Parent(k))
  {
  }

  lemma ChildrenOf(i: nat, k: nat)
    requires 0 < k
    ensures Parent(k) == i <==> k == 2 * i + 1 || k == 2 * i + 2
  {
  }

  /** Moves the last element up to its place. */
  method SiftUp(h: TimeHeap, last: nat) returns (r: TimeHeap)
    requires IsHeapUp(h, last)
    ensures IsHeap(r) && |r| == |h| && multiset(r) == multiset(h)
  {
    r := h;
    var j := last;
    while 0 < j && Less(r, j, Parent(j))
      invariant |r| == |h| && multiset(r) == multiset(h)
      invariant IsHeapUp(r, j)
      decreases j
    {
      var i := Parent(j);
      SwapUp(r, j);
      SwapKeepsElements(r, i, j);
      r := Swapped(r, i, j);
      j := i;
    }
    UpDone(r, j);
  }

  /** The child that arrived first, if there is a child among the first n elements. */
  method FirstChild(h: TimeHeap, i: nat, n: nat) returns (j: nat)
    requires i < n <= |h|
    ensures j == 2 * i + 1 || j == 2 * i + 2
    ensures j >= n ==> forall k | 0 < k < n :: Parent(k) != i
    ensures j < n ==> Parent(j) == i && forall k | 0 < k < n && Parent(k) == i :: !Less(h, k, j)
  {
    forall k | 0 < k < n {
      ChildrenOf(i, k);
    }
    j := 2 * i + 1; // left child
    if j + 1 < n && Less(h, j + 1, j) {
      j := j + 1; // right child
    }
  }

  /** Moves the root down to its place among the first n elements. */
  method SiftDown(h: TimeHeap, n: nat) returns (r: TimeHeap)
    requires n < |h| && IsHeapDown(h, 0, n)
    ensures |r| == |h| && multiset(r) == multiset(h) && r[n..] == h[n..]
    ensures forall i | 0 < i < n :: !Less(r, i, Parent(i))
  {
    r := h;
    if n == 0 {
      return;
    }
    var i := 0;
    var j := FirstChild(r, i, n);
    while j < n && Less(r, j, i)
      invariant |r| == |h| && multiset(r) == multiset(h) && r[n..] == h[n..]
      invariant i < n && 0 < j && IsHeapDown(r, i, n)
      invariant j >= n ==> forall k | 0 < k < n :: Parent(k) != i
      invariant j < n ==> Parent(j) == i && forall k | 0 < k < n && Parent(k) == i :: !Less(r, k, j)
      decreases n - i
    {
      SwapDown(r, i, j, n);
      SwapKeepsElements(r, i, j);
      r := Swapped(r, i, j);
      i := j;
      j := FirstChild(r, i, n);
    }
    DownDone(r, i, n);
  }

  method HeapPush(h: TimeHeap, x: TimeHeapElement) returns (r: TimeHeap)
    requires IsHeap(h)
    ensures IsHeap(r) && multiset(r) == multiset(h) + multiset{x}
  {
    var appended := h + [x];
    r := SiftUp(appended, |h|);
  }

  /** Removes an element that arrived no later than any other. */
  method HeapPop(h: TimeHeap) returns (r: TimeHeap, x: TimeHeapElement)
    requires IsHeap(h) && h != []
    ensures IsHeap(r) && multiset(h) == multiset(r) + multiset{x}
    ensures forall y | y in h :: x.arrivalTime <= y.arrivalTime
  {
    var n := |h| - 1;
    forall i | 0 <= i < |h| {
      RootIsMinimal(h, |h|, i);
    }
    SwapKeepsElements(h, 0, n);
    var swapped := Swapped(h, 0, n);
    var sifted := SiftDown(swapped, n);
    x := sifted[n];
    assert sifted[n..] == swapped[n..];
    assert x == sifted[n..][0] == swapped[n..][0] == h[0];
    r := sifted[..n];
    assert sifted == r + [x];
  }

  // ---------------------------------------------------------------- the bounded map

  datatype ConflictSet = ConflictSet(conflictSetID: OutputID, arrivalTime: Time, resolved: bool, timeToResolve: int,
                                     updatedTime: Time)

  datatype Conflict = Conflict(conflictID: TransactionID, conflictSetIDs: set<OutputID>, updatedTime: Time)

  /** The heap holds one element per conflict set, with its arrival time. */
  ghost predicate Mirrors(h: TimeHeap, conflictSets: map<OutputID, ConflictSet>) {
    multiset(h) == multiset(ElementsOf(conflictSets))
  }

  ghost function ElementsOf(conflictSets: map<OutputID, ConflictSet>): set<TimeHeapElement> {
    set id | id in conflictSets :: TimeHeapElement(id, conflictSets[id].arrivalTime)
  }

  lemma ElementsMember(conflictSets: map<OutputID, ConflictSet>)
    ensures forall x :: x in ElementsOf(conflictSets) <==>
                        x.conflictID in conflictSets && conflictSets[x.conflictID].arrivalTime == x.arrivalTime
  {
    forall x: TimeHeapElement | x.conflictID in conflictSets && conflictSets[x.conflictID].arrivalTime == x.arrivalTime
      ensures x in ElementsOf(conflictSets)
    {
      assert x == TimeHeapElement(x.conflictID, conflictSets[x.conflictID].arrivalTime);
    }
  }

  /** The conflicts after a conflict set is gone: nobody names it any more, and who named nothing else is gone too. */
  ghost function Evicted(conflicts: map<TransactionID, Conflict>, id: OutputID): (r: map<TransactionID, Conflict>)
    ensures forall k :: k in r <==> k in conflicts && conflicts[k].conflictSetIDs - {id} != {}
    ensures forall k | k in r :: r[k] == Without(conflicts[k], id)
  {
    PartlyEvicted(conflicts, {}, id)
  }

  function Without(conflict: Conflict, id: OutputID): Conflict {
    conflict.(conflictSetIDs := conflict.conflictSetIDs - {id})
  }

  /** The same in the middle of the clean-up. */
  ghost function PartlyEvicted(conflicts: map<TransactionID, Conflict>, todo: set<TransactionID>, id: OutputID)
    : (r: map<TransactionID, Conflict>)
    ensures forall k :: k in r <==> k in conflicts && (k in todo || conflicts[k].conflictSetIDs - {id} != {})
    ensures forall k | k in r :: r[k] == if k in todo then conflicts[k] else Without(conflicts[k], id)
  {
    Tabulate((set k | k in conflicts && (k in todo || conflicts[k].conflictSetIDs - {id} != {})),
             k requires k in conflicts => if k in todo then conflicts[k] else Without(conflicts[k], id))
  }

  lemma CleanUpStep(conflicts: map<TransactionID, Conflict>, todo: set<TransactionID>, k: TransactionID, id: OutputID)
    requires k in todo && k in conflicts
    ensures var cleaned := conflicts[k].(conflictSetIDs := conflicts[k].conflictSetIDs - {id});
            PartlyEvicted(conflicts, todo - {k}, id) ==
            if cleaned.conflictSetIDs == {} then PartlyEvicted(conflicts, todo, id)[k := cleaned] - {k}
            else PartlyEvicted(conflicts, todo, id)[k := cleaned]
    ensures k in PartlyEvicted(conflicts, todo, id) && PartlyEvicted(conflicts, todo, id)[k] == conflicts[k]
  {
  }

  // ---------------------------------------------------------------- what has come and gone

  /** Every conflict set that was ever added, in order, and those that were given up for it. */
  datatype Log = Log(introduced: seq<TimeHeapElement>, givenUp: seq<TimeHeapElement>)

  /** The stored conflict sets with their past. */
  datatype Feed = Feed(sets: map<OutputID, ConflictSet>, log: Log)

  /** What was added was given up or is stored, and the map is as full as it can be. */
  ghost predicate Accounts(log: Log, conflictSets: map<OutputID, ConflictSet>, maxCount: nat) {
    && multiset(log.introduced) == multiset(log.givenUp) + multiset(ElementsOf(conflictSets))
    && |conflictSets| == Min(maxCount, |log.introduced|)
  }

  function Min(a: nat, b: nat): nat {
    if a <= b then a else b
  }

  /** The arrival times never went back, and nothing that was given up arrived after anything that is stored. */
  ghost predicate IsNewest(log: Log, conflictSets: map<OutputID, ConflictSet>, clock: Time) {
    && (forall i, j | 0 <= i < j < |log.introduced| :: log.introduced[i].arrivalTime <= log.introduced[j].arrivalTime)
    && (forall x | x in log.introduced :: x.arrivalTime <= clock)
    && (forall x, id | x in log.givenUp && id in conflictSets :: x.arrivalTime <= conflictSets[id].arrivalTime)
  }

  lemma AddedToRoom(log: Log, conflictSets: map<OutputID, ConflictSet>, maxCount: nat, c: ConflictSet)
    requires Accounts(log, conflictSets, maxCount) && |conflictSets| < maxCount && c.conflictSetID !in conflictSets
    ensures var more, now := Log(log.introduced + [ElementOf(c)], log.givenUp), conflictSets[c.conflictSetID := c];
            Accounts(more, now, maxCount) &&
            (IsNewest(log, conflictSets, c.arrivalTime) ==> IsNewest(more, now, c.arrivalTime))
  {
    var more, now := Log(log.introduced + [ElementOf(c)], log.givenUp), conflictSets[c.conflictSetID := c];
    ElementsOfInsert(conflictSets, c.conflictSetID, c);
    GivenUpWereIntroduced(log, conflictSets, maxCount);
    if IsNewest(log, conflictSets, c.arrivalTime) {
      StillNewest(log, more, now, c);
    }
  }

  lemma AddedForAnother(log: Log, conflictSets: map<OutputID, ConflictSet>, maxCount: nat, c: ConflictSet, id: OutputID)
    requires Accounts(log, conflictSets, maxCount) && |conflictSets| >= maxCount
    requires id in conflictSets && c.conflictSetID !in conflictSets
    requires forall other | other in conflictSets :: conflictSets[id].arrivalTime <= conflictSets[other].arrivalTime
    ensures var more := Log(log.introduced + [ElementOf(c)], log.givenUp + [ElementAt(conflictSets, id)]);
            var now := (conflictSets - {id})[c.conflictSetID := c];
            Accounts(more, now, maxCount) &&
            (IsNewest(log, conflictSets, c.arrivalTime) ==> IsNewest(more, now, c.arrivalTime))
  {
    AccountsForAnother(log, conflictSets, maxCount, c, id);
    GivenUpWereIntroduced(log, conflictSets, maxCount);
    if IsNewest(log, conflictSets, c.arrivalTime) {
      var more := Log(log.introduced + [ElementOf(c)], log.givenUp + [ElementAt(conflictSets, id)]);
      StillNewest(log, more, (conflictSets - {id})[c.conflictSetID := c], c);
    }
  }

  lemma AccountsForAnother(log: Log, conflictSets: map<OutputID, ConflictSet>, maxCount: nat, c: ConflictSet,
                           id: OutputID)
    requires Accounts(log, conflictSets, maxCount) && |conflictSets| >= maxCount
    requires id in conflictSets && c.conflictSetID !in conflictSets
    ensures Accounts(Log(log.introduced + [ElementOf(c)], log.givenUp + [ElementAt(conflictSets, id)]),
                     (conflictSets - {id})[c.conflictSetID := c], maxCount)
  {
    var rest := conflictSets - {id};
    assert rest.Keys == conflictSets.Keys - {id} && rest[id := conflictSets[id]] == conflictSets;
    ElementsOfInsert(rest, id, conflictSets[id]);
    ElementsOfInsert(rest, c.conflictSetID, c);
    assert rest[c.conflictSetID := c].Keys == rest.Keys + {c.conflictSetID};
  }

  lemma StillNewest(log: Log, more: Log, now: map<OutputID, ConflictSet>, c: ConflictSet)
    requires forall i, j | 0 <= i < j < |log.introduced| ::
               log.introduced[i].arrivalTime <= log.introduced[j].arrivalTime
    requires forall x | x in log.introduced :: x.arrivalTime <= c.arrivalTime
    requires more.introduced == log.introduced + [ElementOf(c)]
    requires forall x, id | x in more.givenUp && id in now :: x.arrivalTime <= now[id].arrivalTime
    ensures IsNewest(more, now, c.arrivalTime)
  {
  }

  function ElementAt(conflictSets: map<OutputID, ConflictSet>, id: OutputID): TimeHeapElement
    requires id in conflictSets
  {
    TimeHeapElement(id, conflictSets[id].arrivalTime)
  }

  lemma GivenUpWereIntroduced(log: Log, conflictSets: map<OutputID, ConflictSet>, maxCount: nat)
    requires Accounts(log, conflictSets, maxCount)
    ensures forall x | x in log.givenUp :: x in log.introduced
    ensures forall id | id in conflictSets :: TimeHeapElement(id, conflictSets[id].arrivalTime) in log.introduced
  {
    forall x | x in log.givenUp ensures x in log.introduced {
      assert x in multiset(log.givenUp) && x in multiset(log.introduced);
    }
    forall id | id in conflictSets ensures TimeHeapElement(id, conflictSets[id].arrivalTime) in log.introduced {
      var x := TimeHeapElement(id, conflictSets[id].arrivalTime);
      assert x in ElementsOf(conflictSets) && x in multiset(ElementsOf(conflictSets)) && x in multiset(log.introduced);
    }
  }

  function ElementOf(c: ConflictSet): TimeHeapElement {
    TimeHeapElement(c.conflictSetID, c.arrivalTime)
  }

  /** As long as arrival times never go back, the stored conflict sets are the most recently added ones, unless the
      oldest of these arrived at the same time as the newest of the others. */
  lemma StoredAreNewest(log: Log, conflictSets: map<OutputID, ConflictSet>, maxCount: nat, clock: Time)
    requires Accounts(log, conflictSets, maxCount) && IsNewest(log, conflictSets, clock)
    ensures HoldsNewest(log, conflictSets)
  {
    if !IsCleanCut(log, |conflictSets|) {
      return;
    }
    var cut := |log.introduced| - |conflictSets|;
    var earlier, later := multiset(log.introduced[..cut]), multiset(log.introduced[cut..]);
    var gone, stored := multiset(log.givenUp), multiset(ElementsOf(conflictSets));
    assert log.introduced == log.introduced[..cut] + log.introduced[cut..];
    ElementsCount(conflictSets);
    if cut < |log.introduced| {
      CutByTime(log.introduced, cut);
      GoneCameFirst(log, conflictSets, clock);
      SplitByTime(earlier, later, gone, stored, log.introduced[cut].arrivalTime);
    }
  }

  lemma CutByTime(s: seq<TimeHeapElement>, cut: nat)
    requires forall i, j | 0 <= i < j < |s| :: s[i].arrivalTime <= s[j].arrivalTime
    requires cut < |s| && (0 < cut ==> s[cut - 1].arrivalTime < s[cut].arrivalTime)
    ensures forall x | x in multiset(s[..cut]) :: x.arrivalTime < s[cut].arrivalTime
    ensures forall x | x in multiset(s[cut..]) :: s[cut].arrivalTime <= x.arrivalTime
  {
    forall x | x in multiset(s[..cut]) ensures x.arrivalTime < s[cut].arrivalTime {
      assert x in s[..cut];
    }
    forall x | x in multiset(s[cut..]) ensures s[cut].arrivalTime <= x.arrivalTime {
      assert x in s[cut..];
    }
  }

  lemma GoneCameFirst(log: Log, conflictSets: map<OutputID, ConflictSet>, clock: Time)
    requires IsNewest(log, conflictSets, clock)
    ensures forall x, y | x in multiset(log.givenUp) && y in multiset(ElementsOf(conflictSets)) ::
              x.arrivalTime <= y.arrivalTime
  {
    ElementsMember(conflictSets);
  }

  ghost predicate HoldsNewest(log: Log, conflictSets: map<OutputID, ConflictSet>) {
    && |conflictSets| <= |log.introduced|
    && (IsCleanCut(log, |conflictSets|) ==>
        multiset(ElementsOf(conflictSets)) == multiset(log.introduced[|log.introduced| - |conflictSets|..]))
  }

  /** The last n additions arrived after all the others. */
  ghost predicate IsCleanCut(log: Log, n: nat)
    requires n <= |log.introduced|
  {
    var cut := |log.introduced| - n;
    0 < cut < |log.introduced| ==> log.introduced[cut - 1].arrivalTime < log.introduced[cut].arrivalTime
  }

  /** Two ways to split the same elements: by time, and by who is gone. If the parts are equally large and nobody who
      is gone came later than anybody who stayed, they are the same. */
  lemma SplitByTime(earlier: multiset<TimeHeapElement>, later: multiset<TimeHeapElement>,
                    gone: multiset<TimeHeapElement>,
                    stored: multiset<TimeHeapElement>, t: Time)
    requires earlier + later == gone + stored && |later| == |stored|
    requires forall x | x in earlier :: x.arrivalTime < t
    requires forall x | x in later :: t <= x.arrivalTime
    requires forall x, y | x in gone && y in stored :: x.arrivalTime <= y.arrivalTime
    ensures stored == later
  {
    if g :| g in gone && t <= g.arrivalTime {
      forall x ensures stored[x] <= later[x] {
        assert (earlier + later)[x] == (gone + stored)[x];
      }
      assert (earlier + later)[g] == (gone + stored)[g];
      OneMore(stored, later, g);
      assert false;
    } else {
      forall x ensures gone[x] <= earlier[x] {
        assert (earlier + later)[x] == (gone + stored)[x];
      }
      assert |earlier + later| == |earlier| + |later| && |gone + stored| == |gone| + |stored|;
      SameSize(gone, earlier);
      assert stored == (gone + stored) - gone == (earlier + later) - earlier == later;
    }
  }

  lemma OneMore(part: multiset<TimeHeapElement>, whole: multiset<TimeHeapElement>, x: TimeHeapElement)
    requires part <= whole && part[x] < whole[x]
    ensures |part| < |whole|
  {
    assert whole == part + (whole - part) && x in whole - part;
  }

  lemma SameSize(part: multiset<TimeHeapElement>, whole: multiset<TimeHeapElement>)
    requires part <= whole && |part| == |whole|
    ensures part == whole
  {
    assert whole == part + (whole - part);
  }

  class BoundedConflictMap {
    const maxCount: nat
    var conflictSets: map<OutputID, ConflictSet>
    var conflicts: map<TransactionID, Conflict>
    var conflictHeap: TimeHeap
    ghost var log: Log

    ghost predicate Valid()
      reads this
    {
      IsMirrored() && Accounts(log, conflictSets, maxCount)
    }

    ghost function Stored(): Feed
      reads this
    {
      Feed(conflictSets, log)
    }

    ghost predicate IsMirrored()
      reads this
    {
      && 1 <= maxCount
      && |conflictSets| <= maxCount
      && IsHeap(conflictHeap)
      && Mirrors(conflictHeap, conflictSets)
      && (forall id | id in conflictSets :: conflictSets[id].conflictSetID == id)
      && (forall id | id in conflicts :: conflicts[id].conflictID == id)
    }

    constructor (maxCount: nat)
      requires 1 <= maxCount
      ensures Valid() && conflictSets == map[] && conflicts == map[] && this.maxCount == maxCount
      ensures log == Log([], [])
    {
      this.maxCount := maxCount;
      conflictSets := map[];
      conflicts := map[];
      conflictHeap := [];
      log := Log([], []);
    }

    /** Adds a conflict set that is not stored yet. A full map first gives up a set that arrived no later than any
        other stored one. */
    method AddConflictSet(c: ConflictSet) returns (ghost evicted: Option<OutputID>)
      requires Valid() && c.conflictSetID !in conflictSets
      modifies this
      ensures Valid()
      ensures evicted.Some? <==> old(|conflictSets|) >= maxCount
      ensures evicted.None? ==> conflictSets == old(conflictSets)[c.conflictSetID := c] && conflicts == old(conflicts)
      ensures evicted.Some? ==>
                && evicted.value in old(conflictSets)
                && (forall id | id in old(conflictSets) ::
                      old(conflictSets)[evicted.value].arrivalTime <= old(conflictSets)[id].arrivalTime)
                && conflictSets == (old(conflictSets) - {evicted.value})[c.conflictSetID := c]
                && conflicts == Evicted(old(conflicts), evicted.value)
                && |conflictSets| == old(|conflictSets|)
      ensures log.introduced == old(log.introduced) + [ElementOf(c)]
      ensures old(IsNewest(log, conflictSets, c.arrivalTime)) ==> IsNewest(log, conflictSets, c.arrivalTime)
    {
      evicted := None;
      ghost var more := Log(log.introduced + [ElementOf(c)], log.givenUp);
      if |conflictSets| >= maxCount {
        evicted := Evict();
        more := more.(givenUp := log.givenUp + [ElementAt(old(conflictSets), evicted.value)]);
        AddedForAnother(log, old(conflictSets), maxCount, c, evicted.value);
      } else {
        AddedToRoom(log, conflictSets, maxCount, c);
      }
      Store(c, more);
    }

    method Store(c: ConflictSet, ghost more: Log)
      requires IsMirrored() && c.conflictSetID !in conflictSets && |conflictSets| < maxCount
      requires Accounts(more, conflictSets[c.conflictSetID := c], maxCount)
      modifies this`conflictSets, this`conflictHeap, this`log
      ensures Valid() && conflictSets == old(conflictSets)[c.conflictSetID := c] && log == more
    {
      ElementsOfInsert(conflictSets, c.conflictSetID, c);
      conflictSets := conflictSets[c.conflictSetID := c];
      conflictHeap := HeapPush(conflictHeap, TimeHeapElement(c.conflictSetID, c.arrivalTime));
      log := more;
    }

    method Evict() returns (ghost evicted: Option<OutputID>)
      requires IsMirrored() && conflictSets != map[]
      modifies this`conflictSets, this`conflicts, this`conflictHeap
      ensures IsMirrored() && evicted.Some? && evicted.value in old(conflictSets)
      ensures forall id | id in old(conflictSets) ::
                old(conflictSets)[evicted.value].arrivalTime <= old(conflictSets)[id].arrivalTime
      ensures conflictSets == old(conflictSets) - {evicted.value}
      ensures conflicts == Evicted(old(conflicts), evicted.value)
      ensures |conflictSets| == old(|conflictSets|) - 1
    {
      MirrorNotEmpty(conflictHeap, conflictSets);
      var element;
      ghost var before := conflictHeap;
      conflictHeap, element := HeapPop(conflictHeap);
      ElementsOfRemove(before, conflictHeap, element, conflictSets);
      conflictSets := conflictSets - {element.conflictID};
      evicted := Some(element.conflictID);

      // cleanup conflicts
      CleanUp(element.conflictID);
    }

    /** Goes through the conflicts in an arbitrary order while it deletes from them. */
    method CleanUp(id: OutputID)
      modifies this`conflicts
      ensures conflicts == Evicted(old(conflicts), id)
    {
      ghost var before := conflicts;
      var todo := conflicts.Keys;
      while todo != {}
        invariant todo <= before.Keys
        invariant conflicts == PartlyEvicted(before, todo, id)
      {
        var k :| k in todo;
        var conflict := conflicts[k];
        conflict := conflict.(conflictSetIDs := conflict.conflictSetIDs - {id});
        CleanUpStep(before, todo, k, id);
        conflicts := conflicts[k := conflict];
        if conflict.conflictSetIDs == {} {
          conflicts := conflicts - {k};
        }
        todo := todo - {k};
      }
      assert PartlyEvicted(before, todo, id) == Evicted(before, id);
    }

    method AddConflict(br: Conflict)
      requires Valid()
      modifies this`conflicts
      ensures Valid() && conflicts == old(conflicts)[br.conflictID := br]
    {
      conflicts := conflicts[br.conflictID := br];
    }

    /** A conflict that is not stored is ignored. */
    method AddConflictMember(conflictID: TransactionID, resourceID: OutputID, now: Time)
      requires Valid()
      modifies this`conflicts
      ensures Valid()
      ensures conflictID !in old(conflicts) ==> conflicts == old(conflicts)
      ensures conflictID in old(conflicts) ==>
                conflicts == old(conflicts)[conflictID :=
                  Conflict(conflictID, old(conflicts)[conflictID].conflictSetIDs + {resourceID}, now)]
    {
      if conflictID in conflicts {
        var conflict := conflicts[conflictID];
        conflicts := conflicts[conflictID :=
          conflict.(conflictSetIDs := conflict.conflictSetIDs + {resourceID}, updatedTime := now)];
      }
    }

    /** Resolving keeps the arrival time, so that the heap stays as it is. */
    method ResolveConflict(conflictID: OutputID, now: Time)
      requires Valid()
      modifies this`conflictSets
      ensures Valid()
      ensures conflictID !in old(conflictSets) || old(conflictSets)[conflictID].resolved ==>
              conflictSets == old(conflictSets)
      ensures conflictID in old(conflictSets) && !old(conflictSets)[conflictID].resolved ==>
                conflictSets == old(conflictSets)[conflictID := Resolved(old(conflictSets)[conflictID], now)]
    {
      if conflictID in conflictSets && !conflictSets[conflictID].resolved {
        var c := conflictSets[conflictID];
        c := c.(resolved := true, timeToResolve := now - c.arrivalTime, updatedTime := now);
        ElementsMember(conflictSets);
        ElementsMember(conflictSets[conflictID := c]);
        assert ElementsOf(conflictSets[conflictID := c]) == ElementsOf(conflictSets);
        conflictSets := conflictSets[conflictID := c];
      }
    }

    /** A conflict appears: its unknown conflict sets are added, known members of its sets are told, and it is stored.
        What is stored afterwards was there before or belongs to the new conflict. If everything fits, nothing is given
        up: all sets of the conflict are there, and every stored conflict knows the sets that it is a member of. */
    method OnConflictCreated(b: Conflict, clock: Time, members: OutputID -> set<TransactionID>)
      requires Valid()
      modifies this
      ensures Valid() && b.conflictID in conflicts && conflicts[b.conflictID] == b
      ensures IsOldOrNew(conflictSets, old(conflictSets), b.conflictSetIDs, clock)
      ensures old(|conflictSets.Keys + b.conflictSetIDs|) <= maxCount ==>
                && conflictSets.Keys == old(conflictSets).Keys + b.conflictSetIDs
                && Keeps(conflictSets, old(conflictSets))
                && Told(conflicts - {b.conflictID}, old(conflicts) - {b.conflictID}, b.conflictSetIDs, members)
      ensures IsGrown(Stored(), old(Stored()), b.conflictSetIDs, clock, maxCount)
    {
      IntroduceAll(b.conflictSetIDs, clock, members);
      ghost var told := conflicts;
      AddConflict(b);
      assert conflicts - {b.conflictID} == told - {b.conflictID};
    }

    /** Goes through the conflict sets of a new conflict. */
    method IntroduceAll(ids: set<OutputID>, clock: Time, members: OutputID -> set<TransactionID>)
      requires Valid()
      modifies this
      ensures Valid() && IsOldOrNew(conflictSets, old(conflictSets), ids, clock)
      ensures old(|conflictSets.Keys + ids|) <= maxCount ==>
                IsExtended(conflictSets, old(conflictSets), conflicts, old(conflicts), ids, members)
      ensures IsGrown(Stored(), old(Stored()), ids, clock, maxCount)
    {
      var todo := ids;
      ghost var start, known := Stored(), conflicts;
      NothingIntroduced(start, known, ids, members, clock, maxCount);
      while todo != {}
        invariant Valid() && todo <= ids
        invariant IsUnderway(Stored(), start, conflicts, known, ids, todo, members, clock, maxCount)
      {
        var id :| id in todo;
        ghost var storedBefore, before := Stored(), conflicts;
        Introduce(id, clock, members(id));
        IntroducedOneMore(Stored(), storedBefore, start, conflicts, before, known, ids, todo, id, members, clock,
                          maxCount);
        todo := todo - {id};
      }
      AllIntroduced(Stored(), start, conflicts, known, ids, members, clock, maxCount);
    }

    /** Adds a conflict set if it is unknown, and tells its members. */
    method Introduce(id: OutputID, clock: Time, members: set<TransactionID>)
      requires Valid()
      modifies this
      ensures Valid()
      ensures IntroducesOne(Stored(), old(Stored()), conflicts, old(conflicts), id, members, clock, maxCount)
    {
      EnsureConflictSet(id, clock);
      TellMembers(id, clock, members);
    }

    /** The first conflict of a conflict set brings the set with it. */
    method EnsureConflictSet(id: OutputID, clock: Time)
      requires Valid()
      modifies this
      ensures Valid() && id in conflictSets
      ensures id in old(conflictSets) ==> conflictSets == old(conflictSets) && conflicts == old(conflicts)
      ensures id !in old(conflictSets) && old(|conflictSets|) < maxCount ==>
                conflictSets == old(conflictSets)[id := NewConflictSet(id, clock)] && conflicts == old(conflicts)
      ensures IsOldOrNew(conflictSets, old(conflictSets), {id}, clock)
      ensures IsGrown(Stored(), old(Stored()), {id}, clock, maxCount)
    {
      KnownIsGrown(Stored(), id, clock, maxCount);
      if id !in conflictSets {
        var _ := AddConflictSet(NewConflictSet(id, clock));
        NewIsGrown(Stored(), old(Stored()), id, clock, maxCount);
      }
    }

    /** Updates all stored conflicts among the members with a possible new membership. */
    method TellMembers(id: OutputID, clock: Time, members: set<TransactionID>)
      requires Valid()
      modifies this`conflicts
      ensures Valid() && conflicts.Keys == old(conflicts).Keys
      ensures forall k | k in conflicts ::
                conflicts[k].conflictSetIDs == old(conflicts)[k].conflictSetIDs + if k in members then {id} else {}
    {
      var left := members;
      while left != {}
        invariant left <= members && Valid() && conflicts.Keys == old(conflicts).Keys
        invariant forall k | k in conflicts ::
                    conflicts[k].conflictSetIDs ==
                    old(conflicts)[k].conflictSetIDs + if k in members && k !in left then {id} else {}
      {
        var member :| member in left;
        AddConflictMember(member, id, clock);
        left := left - {member};
      }
    }

    /** A conflict is accepted: exactly its unresolved conflict sets are resolved. An unknown conflict is ignored. */
    method OnConflictAccepted(conflictID: TransactionID, clock: Time)
      requires Valid()
      modifies this
      ensures Valid()
      ensures conflictID !in old(conflicts) ==> conflictSets == old(conflictSets) && conflicts == old(conflicts)
      ensures conflictID in old(conflicts) ==>
                && conflicts == old(conflicts)[conflictID := old(conflicts)[conflictID].(updatedTime := clock)]
                && AreResolved(conflictSets, old(conflictSets), old(conflicts)[conflictID].conflictSetIDs, clock)
      ensures log == old(log)
      ensures old(IsNewest(log, conflictSets, clock)) ==> IsNewest(log, conflictSets, clock)
    {
      if conflictID in conflicts {
        var b := conflicts[conflictID].(updatedTime := clock);
        AddConflict(b);
        ResolveAll(b.conflictSetIDs, clock);
        ResolvingKeepsNewest(conflictSets, old(conflictSets), b.conflictSetIDs, clock, log);
      }
    }

    /** Goes through the conflict sets of an accepted conflict. */
    method ResolveAll(ids: set<OutputID>, clock: Time)
      requires Valid()
      modifies this`conflictSets
      ensures Valid() && AreResolved(conflictSets, old(conflictSets), ids, clock)
    {
      var todo := ids;
      ghost var done: set<OutputID> := {};
      while todo != {}
        invariant Valid() && done + todo == ids && done !! todo
        invariant AreResolved(conflictSets, old(conflictSets), done, clock)
      {
        var id :| id in todo;
        ResolveConflict(id, clock);
        todo := todo - {id};
        done := done + {id};
      }
      assert done == ids;
    }
  }

  /** The map fills up, and keeps everything as long as there is room. */
  ghost predicate IsFilled(now: map<OutputID, ConflictSet>, before: map<OutputID, ConflictSet>, added: set<OutputID>,
                           maxCount: nat) {
    && |now| == Min(maxCount, |before.Keys + added|)
    && (|before.Keys + added| <= maxCount ==> now.Keys == before.Keys + added)
  }

  /** What the addition of some conflict sets does to those that are stored. */
  ghost predicate IsGrown(now: Feed, before: Feed, added: set<OutputID>, clock: Time, maxCount: nat) {
    && IsFilled(now.sets, before.sets, added, maxCount)
    && IsLogged(now.log, before.log, added, clock)
    && (IsNewest(before.log, before.sets, clock) ==> IsNewest(now.log, now.sets, clock))
  }

  lemma NothingGrown(stored: Feed, clock: Time, maxCount: nat)
    requires |stored.sets| <= maxCount
    ensures IsGrown(stored, stored, {}, clock, maxCount)
  {
    assert stored.sets.Keys + {} == stored.sets.Keys;
  }

  lemma KnownIsGrown(stored: Feed, id: OutputID, clock: Time, maxCount: nat)
    requires |stored.sets| <= maxCount
    ensures id in stored.sets ==> IsGrown(stored, stored, {id}, clock, maxCount)
  {
    if id in stored.sets {
      assert stored.sets.Keys + {id} == stored.sets.Keys;
    }
  }

  lemma NewIsGrown(now: Feed, before: Feed, id: OutputID, clock: Time, maxCount: nat)
    requires id !in before.sets && |before.sets| <= maxCount
    requires if |before.sets| < maxCount then now.sets.Keys == before.sets.Keys + {id} else |now.sets| == maxCount
    requires now.log.introduced == before.log.introduced + [TimeHeapElement(id, clock)]
    requires IsNewest(before.log, before.sets, clock) ==> IsNewest(now.log, now.sets, clock)
    ensures IsGrown(now, before, {id}, clock, maxCount)
  {
    assert |before.sets.Keys + {id}| == |before.sets| + 1;
    assert |now.sets| == |now.sets.Keys|;
  }

  lemma GrownTwice(after: Feed, now: Feed, before: Feed, first: set<OutputID>, second: set<OutputID>, clock: Time,
                   maxCount: nat)
    requires IsGrown(now, before, first, clock, maxCount) && IsGrown(after, now, second, clock, maxCount)
    ensures IsGrown(after, before, first + second, clock, maxCount)
  {
    FilledTwice(after.sets, now.sets, before.sets, first, second, maxCount);
    LoggedTwice(after.log, now.log, before.log, first, second, clock);
  }

  lemma FilledTwice(after: map<OutputID, ConflictSet>, now: map<OutputID, ConflictSet>,
                    before: map<OutputID, ConflictSet>, first: set<OutputID>, second: set<OutputID>, maxCount: nat)
    requires IsFilled(now, before, first, maxCount) && IsFilled(after, now, second, maxCount)
    ensures IsFilled(after, before, first + second, maxCount)
  {
    var all := before.Keys + first;
    assert before.Keys + (first + second) == all + second;
    AtLeast(all, second);
    AtLeast(now.Keys, second);
  }

  lemma AtLeast(s: set<OutputID>, more: set<OutputID>)
    ensures |s| <= |s + more|
  {
    assert s + more == s + (more - s);
  }

  lemma LoggedTwice(after: Log, now: Log, before: Log, first: set<OutputID>, second: set<OutputID>, clock: Time)
    requires IsLogged(now, before, first, clock) && IsLogged(after, now, second, clock)
    ensures IsLogged(after, before, first + second, clock)
  {
    assert forall i | 0 <= i < |now.introduced| :: after.introduced[i] == now.introduced[i];
  }

  /** Only the given sets have been added, all of them at the same time. */
  ghost predicate IsLogged(log: Log, before: Log, ids: set<OutputID>, clock: Time) {
    && before.introduced <= log.introduced
    && (forall i | |before.introduced| <= i < |log.introduced| ::
          log.introduced[i].conflictID in ids && log.introduced[i].arrivalTime == clock)
  }

  function Resolved(c: ConflictSet, now: Time): ConflictSet {
    c.(resolved := true, timeToResolve := now - c.arrivalTime, updatedTime := now)
  }

  function NewConflictSet(id: OutputID, clock: Time): ConflictSet {
    ConflictSet(id, clock, false, 0, clock)
  }

  ghost predicate IsOldOrNew(now: map<OutputID, ConflictSet>, before: map<OutputID, ConflictSet>,
                             added: set<OutputID>, clock: Time) {
    forall id | id in now ::
      (id in before && now[id] == before[id]) || (id in added && now[id] == NewConflictSet(id, clock))
  }

  ghost predicate Keeps(now: map<OutputID, ConflictSet>, before: map<OutputID, ConflictSet>) {
    forall id | id in before :: id in now && now[id] == before[id]
  }

  /** Every stored conflict names, besides what it named before, the added sets that it is a member of. */
  ghost predicate Told(now: map<TransactionID, Conflict>, before: map<TransactionID, Conflict>, added: set<OutputID>,
                       members: OutputID -> set<TransactionID>) {
    && now.Keys == before.Keys
    && (forall k | k in before ::
          now[k].conflictSetIDs == before[k].conflictSetIDs + set id | id in added && k in members(id))
  }

  ghost predicate AreResolved(now: map<OutputID, ConflictSet>, before: map<OutputID, ConflictSet>, ids: set<OutputID>,
                              clock: Time) {
    && now.Keys == before.Keys
    && (forall id | id in before ::
          now[id] == if id in ids && !before[id].resolved then Resolved(before[id], clock) else before[id])
  }

  lemma ResolvingKeepsNewest(now: map<OutputID, ConflictSet>, before: map<OutputID, ConflictSet>, ids: set<OutputID>,
                             clock: Time, log: Log)
    requires AreResolved(now, before, ids, clock)
    ensures IsNewest(log, before, clock) ==> IsNewest(log, now, clock)
  {
  }

  /** Nothing was given up: the added sets are there, the old ones are unchanged, and the stored conflicts
      were told. */
  ghost predicate IsExtended(now: map<OutputID, ConflictSet>, before: map<OutputID, ConflictSet>,
                             conflicts: map<TransactionID, Conflict>, known: map<TransactionID, Conflict>,
                             added: set<OutputID>, members: OutputID -> set<TransactionID>) {
    now.Keys == before.Keys + added && Keeps(now, before) && Told(conflicts, known, added, members)
  }

  lemma StillOldOrNew(after: map<OutputID, ConflictSet>, now: map<OutputID, ConflictSet>,
                      before: map<OutputID, ConflictSet>,
                      added: set<OutputID>, id: OutputID, clock: Time)
    requires IsOldOrNew(now, before, added, clock) && IsOldOrNew(after, now, {id}, clock)
    ensures IsOldOrNew(after, before, added + {id}, clock)
  {
  }

  lemma ExtendsByOne(after: map<OutputID, ConflictSet>, now: map<OutputID, ConflictSet>,
                     before: map<OutputID, ConflictSet>,
                     told: map<TransactionID, Conflict>, conflicts: map<TransactionID, Conflict>,
                     known: map<TransactionID, Conflict>, added: set<OutputID>, id: OutputID,
                     members: OutputID -> set<TransactionID>, clock: Time)
    requires IsExtended(now, before, conflicts, known, added, members) && id !in added
    requires after == if id in now then now else now[id := NewConflictSet(id, clock)]
    requires told.Keys == conflicts.Keys
    requires forall k | k in told ::
               told[k].conflictSetIDs == conflicts[k].conflictSetIDs + if k in members(id) then {id} else {}
    ensures IsExtended(after, before, told, known, added + {id}, members)
  {
    forall k | k in known
      ensures told[k].conflictSetIDs ==
              known[k].conflictSetIDs + set other | other in added + {id} && k in members(other)
    {
      assert (set other | other in added + {id} && k in members(other)) ==
             (set other | other in added && k in members(other)) + if k in members(id) then {id} else {};
    }
  }

  /** All but some of the sets of a new conflict have been introduced. */
  ghost predicate IsUnderway(now: Feed, start: Feed, conflicts: map<TransactionID, Conflict>,
                             known: map<TransactionID, Conflict>, ids: set<OutputID>, todo: set<OutputID>,
                             members: OutputID -> set<TransactionID>, clock: Time, maxCount: nat) {
    && IsOldOrNew(now.sets, start.sets, ids - todo, clock)
    && (|start.sets.Keys + ids| <= maxCount ==>
        IsExtended(now.sets, start.sets, conflicts, known, ids - todo, members))
    && IsGrown(now, start, ids - todo, clock, maxCount)
  }

  lemma NothingIntroduced(start: Feed, known: map<TransactionID, Conflict>, ids: set<OutputID>,
                          members: OutputID -> set<TransactionID>, clock: Time, maxCount: nat)
    requires |start.sets| <= maxCount
    ensures IsUnderway(start, start, known, known, ids, ids, members, clock, maxCount)
  {
    NothingGrown(start, clock, maxCount);
    assert ids - ids == {};
  }

  lemma AllIntroduced(now: Feed, start: Feed, conflicts: map<TransactionID, Conflict>,
                      known: map<TransactionID, Conflict>, ids: set<OutputID>,
                      members: OutputID -> set<TransactionID>, clock: Time, maxCount: nat)
    requires IsUnderway(now, start, conflicts, known, ids, {}, members, clock, maxCount)
    ensures IsOldOrNew(now.sets, start.sets, ids, clock)
    ensures |start.sets.Keys + ids| <= maxCount ==> IsExtended(now.sets, start.sets, conflicts, known, ids, members)
    ensures IsGrown(now, start, ids, clock, maxCount)
  {
    assert ids - {} == ids;
  }

  /** What the introduction of one conflict set does. */
  ghost predicate IntroducesOne(after: Feed, now: Feed, told: map<TransactionID, Conflict>,
                                conflicts: map<TransactionID, Conflict>, id: OutputID, members: set<TransactionID>,
                                clock: Time, maxCount: nat) {
    && IsOldOrNew(after.sets, now.sets, {id}, clock)
    && (id in now.sets || |now.sets| < maxCount ==>
        && after.sets == (if id in now.sets then now.sets else now.sets[id := NewConflictSet(id, clock)])
        && told.Keys == conflicts.Keys
        && (forall k | k in told ::
              told[k].conflictSetIDs == conflicts[k].conflictSetIDs + if k in members then {id} else {}))
    && IsGrown(after, now, {id}, clock, maxCount)
  }

  lemma IntroducedOneMore(after: Feed, now: Feed, start: Feed, told: map<TransactionID, Conflict>,
                          conflicts: map<TransactionID, Conflict>, known: map<TransactionID, Conflict>,
                          ids: set<OutputID>, todo: set<OutputID>, id: OutputID,
                          members: OutputID -> set<TransactionID>, clock: Time, maxCount: nat)
    requires IsUnderway(now, start, conflicts, known, ids, todo, members, clock, maxCount)
    requires id in todo && todo <= ids
    requires IntroducesOne(after, now, told, conflicts, id, members(id), clock, maxCount)
    ensures IsUnderway(after, start, told, known, ids, todo - {id}, members, clock, maxCount)
  {
    assert ids - (todo - {id}) == ids - todo + {id};
    StillOldOrNew(after.sets, now.sets, start.sets, ids - todo, id, clock);
    if |start.sets.Keys + ids| <= maxCount {
      RoomForOneMore(now.sets.Keys, start.sets.Keys + ids, id);
      ExtendsByOne(after.sets, now.sets, start.sets, told, conflicts, known, ids - todo, id, members, clock);
    }
    GrownTwice(after, now, start, ids - todo, {id}, clock, maxCount);
  }

  lemma RoomForOneMore(stored: set<OutputID>, all: set<OutputID>, id: OutputID)
    requires stored <= all && id in all
    ensures id !in stored ==> |stored| < |all|
  {
    assert all == (all - stored) + stored;
  }

  datatype FeedEvent =
    | Created(b: Conflict, members: OutputID -> set<TransactionID>)
    | Accepted(conflictID: TransactionID)

  /** Whatever the ledger reports and in whatever order, the map stays bounded and the heap mirrors it. If the clock
      never goes back, the map ends up with the conflict sets that were added last. */
  method Follow(feed: BoundedConflictMap, events: seq<FeedEvent>, clock: nat -> Time)
    requires feed.Valid()
    modifies feed
    ensures feed.Valid() && |feed.conflictSets| <= feed.maxCount
    ensures old(feed.log.introduced) <= feed.log.introduced
    ensures old(IsNewest(feed.log, feed.conflictSets, clock(0))) && NeverGoesBack(clock) ==>
              HoldsNewest(feed.log, feed.conflictSets)
  {
    for i := 0 to |events|
      invariant feed.Valid() && old(feed.log.introduced) <= feed.log.introduced
      invariant old(IsNewest(feed.log, feed.conflictSets, clock(0))) && NeverGoesBack(clock) ==>
                  IsNewest(feed.log, feed.conflictSets, clock(i))
    {
      match events[i] {
        case Created(b, members) => feed.OnConflictCreated(b, clock(i), members);
        case Accepted(conflictID) => feed.OnConflictAccepted(conflictID, clock(i));
      }
      assert NeverGoesBack(clock) ==> clock(i) <= clock(i + 1);
    }
    if old(IsNewest(feed.log, feed.conflictSets, clock(0))) && NeverGoesBack(clock) {
      StoredAreNewest(feed.log, feed.conflictSets, feed.maxCount, clock(|events|));
    }
  }

  ghost predicate NeverGoesBack(clock: nat -> Time) {
    forall i, j | 0 <= i <= j :: clock(i) <= clock(j)
  }

  lemma ElementsOfInsert(conflictSets: map<OutputID, ConflictSet>, id: OutputID, c: ConflictSet)
    requires id !in conflictSets
    ensures multiset(ElementsOf(conflictSets[id := c])) ==
            multiset(ElementsOf(conflictSets)) + multiset{TimeHeapElement(id, c.arrivalTime)}
  {
    ElementsMember(conflictSets);
    ElementsMember(conflictSets[id := c]);
    assert ElementsOf(conflictSets[id := c]) == ElementsOf(conflictSets) + {TimeHeapElement(id, c.arrivalTime)};
  }

  lemma MirrorNotEmpty(h: TimeHeap, conflictSets: map<OutputID, ConflictSet>)
    requires Mirrors(h, conflictSets) && conflictSets != map[]
    ensures h != []
  {
    var id :| id in conflictSets;
    assert TimeHeapElement(id, conflictSets[id].arrivalTime) in ElementsOf(conflictSets);
    assert TimeHeapElement(id, conflictSets[id].arrivalTime) in multiset(h);
  }

  lemma ElementsOfRemove(h: TimeHeap, r: TimeHeap, x: TimeHeapElement, conflictSets: map<OutputID, ConflictSet>)
    requires Mirrors(h, conflictSets) && multiset(h) == multiset(r) + multiset{x}
    requires forall y | y in h :: x.arrivalTime <= y.arrivalTime
    ensures x.conflictID in conflictSets && conflictSets[x.conflictID].arrivalTime == x.arrivalTime
    ensures Mirrors(r, conflictSets - {x.conflictID})
    ensures forall id | id in conflictSets :: x.arrivalTime <= conflictSets[id].arrivalTime
    ensures |conflictSets - {x.conflictID}| == |conflictSets| - 1
  {
    assert x in multiset(h) && x in ElementsOf(conflictSets);
    ElementsMember(conflictSets);
    ElementsMember(conflictSets - {x.conflictID});
    assert ElementsOf(conflictSets - {x.conflictID}) == ElementsOf(conflictSets) - {x};
    assert multiset(ElementsOf(conflictSets)) == multiset(ElementsOf(conflictSets) - {x}) + multiset{x};
    assert multiset(r) == multiset(h) - multiset{x};
    assert multiset(ElementsOf(conflictSets) - {x}) == multiset(ElementsOf(conflictSets)) - multiset{x};
    assert (conflictSets - {x.conflictID}).Keys == conflictSets.Keys - {x.conflictID};
    forall id | id in conflictSets ensures x.arrivalTime <= conflictSets[id].arrivalTime {
      assert TimeHeapElement(id, conflictSets[id].arrivalTime) in ElementsOf(conflictSets);
      assert TimeHeapElement(id, conflictSets[id].arrivalTime) in multiset(h);
    }
  }

  // ---------------------------------------------------------------- consequences

  /** The mirror is a bijection: every stored set has exactly one heap element, with its arrival time, and every heap
      element belongs to a stored set. */
  lemma MirrorIsBijection(h: TimeHeap, conflictSets: map<OutputID, ConflictSet>)
    requires Mirrors(h, conflictSets)
    ensures |h| == |conflictSets|
    ensures forall i | 0 <= i < |h| ::
              h[i].conflictID in conflictSets && conflictSets[h[i].conflictID].arrivalTime == h[i].arrivalTime
    ensures forall i, j | 0 <= i < j < |h| :: h[i].conflictID != h[j].conflictID
  {
    ElementsCount(conflictSets);
    assert |h| == |multiset(h)|;
    forall i | 0 <= i < |h| ensures h[i] in ElementsOf(conflictSets) {
      assert h[i] in multiset(h);
    }
    ElementsMember(conflictSets);
    NoRepetition(h, ElementsOf(conflictSets));
  }

  lemma NoRepetition(h: TimeHeap, elements: set<TimeHeapElement>)
    requires multiset(h) == multiset(elements)
    ensures Distinct(h)
  {
    forall i, j | 0 <= i < j < |h| ensures h[i] != h[j] {
      if h[i] == h[j] {
        CountedTwice(h, i, j);
        assert false;
      }
    }
  }

  lemma CountedTwice(h: TimeHeap, i: nat, j: nat)
    requires i < j < |h| && h[i] == h[j]
    ensures multiset(h)[h[i]] >= 2
  {
    assert h == h[..i] + [h[i]] + h[i + 1..j] + [h[j]] + h[j + 1..];
  }

  lemma {:induction false} ElementsCount(conflictSets: map<OutputID, ConflictSet>)
    ensures |ElementsOf(conflictSets)| == |conflictSets|
    decreases |conflictSets|
  {
    if conflictSets != map[] {
      var id :| id in conflictSets;
      var rest := conflictSets - {id};
      assert rest.Keys == conflictSets.Keys - {id};
      ElementsCount(rest);
      ElementsMember(conflictSets);
      ElementsMember(rest);
      assert ElementsOf(conflictSets) == ElementsOf(rest) + {TimeHeapElement(id, conflictSets[id].arrivalTime)};
    }
  }

  /** After an eviction no stored conflict names the evicted set, none is left without a set by it, and every other
      membership is kept. */
  lemma EvictionLeavesNoTrace(conflicts: map<TransactionID, Conflict>, id: OutputID)
    ensures forall k | k in Evicted(conflicts, id) ::
              id !in Evicted(conflicts, id)[k].conflictSetIDs && Evicted(conflicts, id)[k].conflictSetIDs != {}
    ensures forall k | k in conflicts && k !in Evicted(conflicts, id) :: conflicts[k].conflictSetIDs <= {id}
    ensures forall k, other | k in conflicts && other in conflicts[k].conflictSetIDs && other != id ::
              k in Evicted(conflicts, id) && other in Evicted(conflicts, id)[k].conflictSetIDs
  {
    forall k, other | k in conflicts && other in conflicts[k].conflictSetIDs && other != id
      ensures k in Evicted(conflicts, id) && other in Evicted(conflicts, id)[k].conflictSetIDs
    {
      assert other in conflicts[k].conflictSetIDs - {id};
    }
  }
}
