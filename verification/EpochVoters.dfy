/** Which epoch commitments the voters stand behind, and with what weight. */
module EpochVoters {
  import opened Collections

  type Voter = nat

  type EpochIndex = nat

  type ECR = nat

  type Time = int

  type Weight = real

  datatype Vote = Vote(ei: EpochIndex, ecr: ECR, issuedTime: Time)

  /** An accepted block, with the weight of its issuer at that moment. */
  datatype Block = Block(issuer: Voter, ei: EpochIndex, ecr: ECR, issuingTime: Time, weight: Weight)

  type Weights = map<EpochIndex, map<ECR, map<Voter, Weight>>>

  datatype State = State(votersWeight: Weights, latestVote: map<Voter, Vote>)

  const EMPTY: State := State(map[], map[])

  predicate IsUnder(w: Weights, e: EpochIndex, r: ECR, v: Voter) {
    e in w && r in w[e] && v in w[e][r]
  }

  /** What one accepted block does, entry by entry. */
  ghost predicate IsStep(s: State, b: Block, t: State) {
    && t.latestVote == s.latestVote[b.issuer := Vote(b.ei, b.ecr, b.issuingTime)]
    && (forall e: EpochIndex, r: ECR, v: Voter ::
          IsUnder(t.votersWeight, e, r, v) <==>
            (e == b.ei && r == b.ecr && v == b.issuer) ||
            (IsUnder(s.votersWeight, e, r, v) && !(v == b.issuer && e == b.ei && Withdraws(s, b, r))))
    && IsUnder(t.votersWeight, b.ei, b.ecr, b.issuer)
    && t.votersWeight[b.ei][b.ecr][b.issuer] == b.weight
    && (forall e: EpochIndex, r: ECR, v: Voter | IsUnder(t.votersWeight, e, r, v) &&
        !(e == b.ei && r == b.ecr && v == b.issuer) ::
          IsUnder(s.votersWeight, e, r, v) && t.votersWeight[e][r][v] == s.votersWeight[e][r][v])
  }

  /** Whether the block takes back the issuer's last vote: same epoch, another commitment, issued before. */
  predicate Withdraws(s: State, b: Block, r: ECR) {
    b.issuer in s.latestVote &&
    var vote := s.latestVote[b.issuer];
    vote.ei == b.ei && vote.ecr == r && r != b.ecr && vote.issuedTime < b.issuingTime
  }

  class EpochVotersWeight {
    var epochVotersWeight: Weights
    var epochVotersLatestVote: map<Voter, Vote>

    ghost function Now(): State
      reads this
    {
      State(epochVotersWeight, epochVotersLatestVote)
    }

    constructor ()
      ensures Now() == EMPTY
    {
      epochVotersWeight := map[];
      epochVotersLatestVote := map[];
    }

    method SaveEpochVotersWeight(block: Block)
      modifies this
      ensures IsStep(old(Now()), block, Now())
    {
      NextIsStep(Now(), block);
      var epochIndex, ecr, voter := block.ei, block.ecr, block.issuer;
      // make room for the epoch and the commitment
      epochVotersWeight := WithRoom(epochVotersWeight, epochIndex, ecr);
      if voter in epochVotersLatestVote {
        var vote := epochVotersLatestVote[voter];
        if vote.ei == epochIndex && vote.ecr != ecr && vote.issuedTime < block.issuingTime {
          epochVotersWeight := Removed(epochVotersWeight, vote.ei, vote.ecr, voter);
        }
      }
      epochVotersLatestVote := epochVotersLatestVote[voter := Vote(epochIndex, ecr, block.issuingTime)];
      epochVotersWeight := Stored(epochVotersWeight, epochIndex, ecr, voter, block.weight);
    }
  }

  /** The weights with the last vote of the issuer taken back, if the block supersedes it. */
  function TakenBack(s: State, b: Block): Weights {
    var room := WithRoom(s.votersWeight, b.ei, b.ecr);
    if b.issuer in s.latestVote && Withdraws(s, b, s.latestVote[b.issuer].ecr) then
      Removed(room, b.ei, s.latestVote[b.issuer].ecr, b.issuer)
    else
      room
  }

  lemma NextIsStep(s: State, b: Block)
    ensures b.ei in TakenBack(s, b) && b.ecr in TakenBack(s, b)[b.ei]
    ensures IsStep(s, b, State(Stored(TakenBack(s, b), b.ei, b.ecr, b.issuer, b.weight),
                               s.latestVote[b.issuer := Vote(b.ei, b.ecr, b.issuingTime)]))
  {
    RoomIsEmpty(s.votersWeight, b.ei, b.ecr);
    var room := WithRoom(s.votersWeight, b.ei, b.ecr);
    if b.issuer in s.latestVote {
      RemovedIsGone(room, b.ei, s.latestVote[b.issuer].ecr, b.issuer);
    }
    StoredIsThere(TakenBack(s, b), b.ei, b.ecr, b.issuer, b.weight);
  }

  /** The entry for an epoch and a commitment, created empty if it is missing. */
  function WithRoom(w: Weights, e: EpochIndex, r: ECR): Weights {
    var voters: map<ECR, map<Voter, Weight>> := if e in w then w[e] else map[];
    w[e := if r in voters then voters else voters[r := map[]]]
  }

  /** Deleting from a missing entry does nothing. */
  function Removed(w: Weights, e: EpochIndex, r: ECR, v: Voter): Weights {
    if e in w && r in w[e] then
      var voters: map<ECR, map<Voter, Weight>> := w[e][r := w[e][r] - {v}];
      w[e := voters]
    else w
  }

  function Stored(w: Weights, e: EpochIndex, r: ECR, v: Voter, weight: Weight): Weights
    requires e in w && r in w[e]
  {
    var voters: map<ECR, map<Voter, Weight>> := w[e][r := w[e][r][v := weight]];
    w[e := voters]
  }

  lemma RoomIsEmpty(w: Weights, e: EpochIndex, r: ECR)
    ensures e in WithRoom(w, e, r) && r in WithRoom(w, e, r)[e]
    ensures forall f: EpochIndex, q: ECR, u: Voter :: IsUnder(WithRoom(w, e, r), f, q, u) <==> IsUnder(w, f, q, u)
    ensures forall f: EpochIndex, q: ECR, u: Voter | IsUnder(w, f, q, u) :: WithRoom(w, e, r)[f][q][u] == w[f][q][u]
  {
  }

  lemma RemovedIsGone(w: Weights, e: EpochIndex, r: ECR, v: Voter)
    ensures forall f: EpochIndex, q: ECR | f in w && q in w[f] ::
              f in Removed(w, e, r, v) && q in Removed(w, e, r, v)[f]
    ensures forall f: EpochIndex, q: ECR, u: Voter ::
              IsUnder(Removed(w, e, r, v), f, q, u) <==> IsUnder(w, f, q, u) && !(f == e && q == r && u == v)
    ensures forall f: EpochIndex, q: ECR, u: Voter | IsUnder(Removed(w, e, r, v), f, q, u) ::
              Removed(w, e, r, v)[f][q][u] == w[f][q][u]
  {
  }

  lemma StoredIsThere(w: Weights, e: EpochIndex, r: ECR, v: Voter, weight: Weight)
    requires e in w && r in w[e]
    ensures forall f: EpochIndex, q: ECR, u: Voter ::
              IsUnder(Stored(w, e, r, v, weight), f, q, u) <==> IsUnder(w, f, q, u) || (f == e && q == r && u == v)
    ensures Stored(w, e, r, v, weight)[e][r][v] == weight
    ensures forall f: EpochIndex, q: ECR, u: Voter | IsUnder(w, f, q, u) && !(f == e && q == r && u == v) ::
              Stored(w, e, r, v, weight)[f][q][u] == w[f][q][u]
  {
  }

  /** A voter is weighted under at most one commitment of an epoch. */
  ghost predicate IsUnique(s: State, e: EpochIndex, v: Voter) {
    forall r, q | IsUnder(s.votersWeight, e, r, v) && IsUnder(s.votersWeight, e, q, v) :: r == q
  }

  /** One block keeps its voter unique in its epoch if and only if every other commitment of the epoch that the voter
      stands behind is the one its last vote was for, and that vote was issued before. */
  lemma StepKeepsUniqueIff(s: State, b: Block, t: State)
    requires IsStep(s, b, t)
    ensures IsUnique(t, b.ei, b.issuer) <==>
            forall r | IsUnder(s.votersWeight, b.ei, r, b.issuer) && r != b.ecr :: Withdraws(s, b, r)
  {
    assert IsUnder(t.votersWeight, b.ei, b.ecr, b.issuer);
    if IsUnique(t, b.ei, b.issuer) {
      forall r | IsUnder(s.votersWeight, b.ei, r, b.issuer) && r != b.ecr ensures Withdraws(s, b, r) {
        assert !IsUnder(t.votersWeight, b.ei, r, b.issuer);
      }
    }
  }

  /** Other voters and other epochs are not touched. */
  lemma StepKeepsOthers(s: State, b: Block, t: State, e: EpochIndex, v: Voter)
    requires IsStep(s, b, t) && (e != b.ei || v != b.issuer)
    ensures forall r :: IsUnder(t.votersWeight, e, r, v) <==> IsUnder(s.votersWeight, e, r, v)
    ensures IsUnique(t, e, v) <==> IsUnique(s, e, v)
  {
  }

  // ---------------------------------------------------------------- runs

  /** The states along a list of accepted blocks. */
  ghost predicate IsRun(states: seq<State>, blocks: seq<Block>) {
    && |states| == |blocks| + 1
    && states[0] == EMPTY
    && (forall i | 0 <= i < |blocks| :: IsStep(states[i], blocks[i], states[i + 1]))
  }

  /** Blocks of one voter arrive with increasing issuing times and never go back to an earlier epoch. */
  ghost predicate AreOrdered(blocks: seq<Block>) {
    forall i, j | 0 <= i < j < |blocks| && blocks[i].issuer == blocks[j].issuer ::
      blocks[i].issuingTime < blocks[j].issuingTime && blocks[i].ei <= blocks[j].ei
  }

  /** The voter's last vote. */
  ghost function LastVote(blocks: seq<Block>, v: Voter): Option<Vote> {
    if blocks == [] then None
    else
      var b := blocks[|blocks| - 1];
      if b.issuer == v then Some(Vote(b.ei, b.ecr, b.issuingTime)) else LastVote(blocks[..|blocks| - 1], v)
  }

  /** The commitment in the voter's last block for an epoch. */
  ghost function LastECR(blocks: seq<Block>, e: EpochIndex, v: Voter): Option<ECR> {
    if blocks == [] then None
    else
      var b := blocks[|blocks| - 1];
      if b.issuer == v && b.ei == e then Some(b.ecr) else LastECR(blocks[..|blocks| - 1], e, v)
  }

  /** What the store says after some blocks: the latest vote is the voter's last one, and in every epoch the voter
      stands behind the commitment of its last block for that epoch and behind no other. */
  ghost predicate FollowsBlocks(s: State, blocks: seq<Block>) {
    && (forall v :: v in s.latestVote <==> LastVote(blocks, v).Some?)
    && (forall v | v in s.latestVote :: LastVote(blocks, v) == Some(s.latestVote[v]))
    && (forall e: EpochIndex, r: ECR, v: Voter ::
          IsUnder(s.votersWeight, e, r, v) <==> LastECR(blocks, e, v) == Some(r))
  }

  lemma {:induction false} LastECRIsFromABlock(blocks: seq<Block>, e: EpochIndex, v: Voter) returns (i: nat)
    requires LastECR(blocks, e, v).Some?
    ensures i < |blocks| && blocks[i].issuer == v && blocks[i].ei == e
  {
    var b := blocks[|blocks| - 1];
    if b.issuer == v && b.ei == e {
      i := |blocks| - 1;
    } else {
      i := LastECRIsFromABlock(blocks[..|blocks| - 1], e, v);
    }
  }

  lemma {:induction false} LastVoteIsFromABlock(blocks: seq<Block>, v: Voter) returns (i: nat)
    requires LastVote(blocks, v).Some?
    ensures i < |blocks| && blocks[i].issuer == v
    ensures LastVote(blocks, v) == Some(Vote(blocks[i].ei, blocks[i].ecr, blocks[i].issuingTime))
  {
    var b := blocks[|blocks| - 1];
    if b.issuer == v {
      i := |blocks| - 1;
    } else {
      i := LastVoteIsFromABlock(blocks[..|blocks| - 1], v);
    }
  }

  /** If no block of the voter is for a later epoch, its last vote is its last block for this epoch. */
  lemma {:induction false} LastVoteIsForNewestEpoch(blocks: seq<Block>, e: EpochIndex, v: Voter)
    requires AreOrdered(blocks) && LastECR(blocks, e, v).Some?
    requires forall i | 0 <= i < |blocks| && blocks[i].issuer == v :: blocks[i].ei <= e
    ensures LastVote(blocks, v).Some? && LastVote(blocks, v).value.ei == e
    ensures LastECR(blocks, e, v) == Some(LastVote(blocks, v).value.ecr)
  {
    var front, b := blocks[..|blocks| - 1], blocks[|blocks| - 1];
    if b.issuer != v {
      LastVoteIsForNewestEpoch(front, e, v);
    } else {
      var i := LastECRIsFromABlock(blocks, e, v);
      assert blocks[i].ei <= b.ei;
    }
  }

  /** Whether the block takes back what its issuer said about the epoch before: if the issuer's last block for the
      epoch names another commitment, it is the issuer's last block of all, and was issued before. */
  ghost predicate Supersedes(before: seq<Block>, b: Block) {
    var r := LastECR(before, b.ei, b.issuer);
    r.Some? && r.value != b.ecr ==>
      var vote := LastVote(before, b.issuer);
      vote.Some? && vote.value.ei == b.ei && vote.value.issuedTime < b.issuingTime
  }

  ghost predicate AllSupersede(blocks: seq<Block>) {
    forall j | 0 <= j < |blocks| :: Supersedes(blocks[..j], blocks[j])
  }

  lemma {:induction false} LastVoteIsLastECR(blocks: seq<Block>, v: Voter)
    requires LastVote(blocks, v).Some?
    ensures LastECR(blocks, LastVote(blocks, v).value.ei, v) == Some(LastVote(blocks, v).value.ecr)
  {
    if blocks[|blocks| - 1].issuer != v {
      LastVoteIsLastECR(blocks[..|blocks| - 1], v);
    }
  }

  /** In terms of a state that follows the blocks so far, superseding is withdrawing whatever the voter
      stands behind. */
  lemma SupersedesIff(s: State, blocks: seq<Block>, b: Block)
    requires FollowsBlocks(s, blocks)
    ensures Supersedes(blocks, b) <==>
            forall r | IsUnder(s.votersWeight, b.ei, r, b.issuer) && r != b.ecr :: Withdraws(s, b, r)
  {
    var last := LastECR(blocks, b.ei, b.issuer);
    if last.Some? && last.value != b.ecr {
      assert IsUnder(s.votersWeight, b.ei, last.value, b.issuer);
      if LastVote(blocks, b.issuer).Some? {
        LastVoteIsLastECR(blocks, b.issuer);
      }
    }
  }

  /** One more block that supersedes the others. */
  lemma NextBlockFollows(s: State, blocks: seq<Block>, b: Block, t: State)
    requires FollowsBlocks(s, blocks) && IsStep(s, b, t) && Supersedes(blocks, b)
    ensures FollowsBlocks(t, blocks + [b])
  {
    var more := blocks + [b];
    assert more[..|blocks|] == blocks;
    SupersedesIff(s, blocks, b);
    forall e: EpochIndex, r: ECR, v: Voter
      ensures IsUnder(t.votersWeight, e, r, v) <==> LastECR(more, e, v) == Some(r)
    {
      if v == b.issuer && e == b.ei {
        assert LastECR(more, e, v) == Some(b.ecr);
      } else {
        assert LastECR(more, e, v) == LastECR(blocks, e, v);
      }
    }
    forall v ensures LastVote(more, v) == if v == b.issuer then Some(Vote(b.ei, b.ecr, b.issuingTime))
      else LastVote(blocks, v) {
    }
  }

  /** Every voter stands behind one commitment per epoch at any time. */
  ghost predicate AlwaysUnique(states: seq<State>) {
    forall i | 0 <= i < |states| :: AreUnique(states[i])
  }

  ghost predicate AreUnique(s: State) {
    forall e, v :: IsUnique(s, e, v)
  }

  /** In a run from the empty store every voter is always weighted under at most one commitment per epoch if
      and only if every block supersedes what its issuer said about the epoch before. Then the store follows
      the last blocks. */
  lemma {:induction false} RunStaysUniqueIff(states: seq<State>, blocks: seq<Block>)
    requires IsRun(states, blocks)
    ensures AlwaysUnique(states) <==> AllSupersede(blocks)
    ensures AllSupersede(blocks) ==> FollowsBlocks(states[|blocks|], blocks)
  {
    if blocks == [] {
      EmptyFollows();
    } else {
      var n := |blocks| - 1;
      var front, b := blocks[..n], blocks[n];
      RunStaysUniqueIff(states[..n + 1], front);
      assert front + [b] == blocks;
      AllButLast(blocks);
      UniqueAllButLast(states);
      if AllSupersede(front) {
        NextBlockIff(states[n], front, b, states[n + 1]);
      }
    }
  }

  lemma EmptyFollows()
    ensures FollowsBlocks(EMPTY, []) && AreUnique(EMPTY)
  {
  }

  lemma NextBlockIff(s: State, blocks: seq<Block>, b: Block, t: State)
    requires FollowsBlocks(s, blocks) && IsStep(s, b, t)
    ensures AreUnique(t) <==> Supersedes(blocks, b)
    ensures Supersedes(blocks, b) ==> FollowsBlocks(t, blocks + [b])
  {
    StepStaysUniqueIff(s, blocks, b, t);
    if Supersedes(blocks, b) {
      NextBlockFollows(s, blocks, b, t);
    }
  }

  lemma AllButLast(blocks: seq<Block>)
    requires blocks != []
    ensures AllSupersede(blocks) <==>
            AllSupersede(blocks[..|blocks| - 1]) && Supersedes(blocks[..|blocks| - 1], blocks[|blocks| - 1])
  {
    var front := blocks[..|blocks| - 1];
    assert forall j | 0 <= j < |front| :: front[..j] == blocks[..j] && front[j] == blocks[j];
  }

  lemma UniqueAllButLast(states: seq<State>)
    requires states != []
    ensures AlwaysUnique(states) <==>
            AlwaysUnique(states[..|states| - 1]) && AreUnique(states[|states| - 1])
  {
    var front := states[..|states| - 1];
    assert forall i | 0 <= i < |front| :: front[i] == states[i];
  }

  lemma StepStaysUniqueIff(s: State, blocks: seq<Block>, b: Block, t: State)
    requires FollowsBlocks(s, blocks) && IsStep(s, b, t)
    ensures AreUnique(t) <==> Supersedes(blocks, b)
  {
    SupersedesIff(s, blocks, b);
    StepKeepsUniqueIff(s, b, t);
    forall e, v | e != b.ei || v != b.issuer ensures IsUnique(t, e, v) {
      StepKeepsOthers(s, b, t, e, v);
    }
  }

  /** Ordered blocks supersede each other. */
  lemma OrderedSupersede(blocks: seq<Block>)
    requires AreOrdered(blocks)
    ensures AllSupersede(blocks)
  {
    forall j | 0 <= j < |blocks| ensures Supersedes(blocks[..j], blocks[j]) {
      var before, b := blocks[..j], blocks[j];
      if LastECR(before, b.ei, b.issuer).Some? {
        assert AreOrdered(before);
        assert forall i | 0 <= i < j && before[i].issuer == b.issuer :: before[i].ei <= b.ei;
        LastVoteIsForNewestEpoch(before, b.ei, b.issuer);
        var i := LastVoteIsFromABlock(before, b.issuer);
        assert blocks[i].issuingTime < blocks[j].issuingTime;
      }
    }
  }

  /** For ordered blocks every reachable state follows them; in particular each voter is weighted under at most one
      commitment per epoch, the one of its last block for that epoch. */
  lemma OrderedRunFollows(states: seq<State>, blocks: seq<Block>)
    requires IsRun(states, blocks) && AreOrdered(blocks)
    ensures FollowsBlocks(states[|blocks|], blocks) && AlwaysUnique(states)
  {
    OrderedSupersede(blocks);
    RunStaysUniqueIff(states, blocks);
  }

  /** A voter that comes back to an earlier epoch with another commitment ends up under both. */
  lemma ComingBackCountsTwice(s: State, first: Block, elsewhere: Block, again: Block, s1: State, s2: State, s3: State)
    requires IsStep(s, first, s1) && IsStep(s1, elsewhere, s2) && IsStep(s2, again, s3)
    requires first.issuer == elsewhere.issuer == again.issuer
    requires first.ei == again.ei != elsewhere.ei && first.ecr != again.ecr
    ensures !IsUnique(s3, first.ei, first.issuer)
  {
    assert IsUnder(s1.votersWeight, first.ei, first.ecr, first.issuer);
    assert IsUnder(s2.votersWeight, first.ei, first.ecr, first.issuer);
    assert IsUnder(s3.votersWeight, first.ei, first.ecr, first.issuer);
    assert IsUnder(s3.votersWeight, again.ei, again.ecr, again.issuer);
  }

  /** Feeding accepted blocks one after the other. */
  method Follow(store: EpochVotersWeight, blocks: seq<Block>)
    requires store.Now() == EMPTY
    modifies store
    ensures AllSupersede(blocks) ==> FollowsBlocks(store.Now(), blocks)
  {
    ghost var states := [EMPTY];
    for i := 0 to |blocks|
      invariant IsRun(states, blocks[..i]) && states[i] == store.Now()
    {
      store.SaveEpochVotersWeight(blocks[i]);
      states := states + [store.Now()];
    }
    assert blocks[..|blocks|] == blocks;
    RunStaysUniqueIff(states, blocks);
  }
}
