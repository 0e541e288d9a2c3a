/** The visualizer's bounded history of blocks. */
module Visualizer {
  import opened Collections

  type BlockID = string

  datatype Block = Block(id: BlockID, payload: nat)

  const MAX_BLK_HISTORY_SIZE: nat := 1000

  const NUM_HISTORY_TO_REMOVE: nat := 100

  datatype State = State(blocks: seq<Block>, finalized: map<BlockID, bool>)

  /** Every stored block has one entry in the map, and nothing else has. */
  ghost predicate IsConsistent(s: State) {
    && |s.blocks| <= MAX_BLK_HISTORY_SIZE
    && (forall i, j | 0 <= i < j < |s.blocks| :: s.blocks[i].id != s.blocks[j].id)
    && (forall id :: id in s.finalized <==> IsStored(s.blocks, id))
  }

  ghost predicate IsStored(blocks: seq<Block>, id: BlockID) {
    exists i :: 0 <= i < |blocks| && blocks[i].id == id
  }

  /** A known block only changes its flag; a full history gives up its oldest blocks before a new one is appended. */
  ghost function Added(s: State, blk: Block, finalized: bool): State {
    if blk.id in s.finalized then
      State(s.blocks, s.finalized[blk.id := finalized])
    else if |s.blocks| < MAX_BLK_HISTORY_SIZE then
      State(s.blocks + [blk], s.finalized[blk.id := finalized])
    else
      State(s.blocks[NUM_HISTORY_TO_REMOVE..] + [blk],
            (s.finalized - IDsOf(s.blocks[..NUM_HISTORY_TO_REMOVE]))[blk.id := finalized])
  }

  ghost function IDsOf(blocks: seq<Block>): set<BlockID> {
    set b | b in blocks :: b.id
  }

  class History {
    // the backing array of the slice and its length
    var buffer: array<Block>
    var length: nat
    var blkFinalized: map<BlockID, bool>

    ghost predicate Valid()
      reads this, buffer
    {
      buffer.Length == MAX_BLK_HISTORY_SIZE && length <= MAX_BLK_HISTORY_SIZE && IsConsistent(Now())
    }

    ghost function Now(): State
      requires length <= buffer.Length
      reads this, buffer
    {
      State(buffer[..length], blkFinalized)
    }

    constructor ()
      ensures Valid() && fresh(buffer) && Now() == State([], map[])
    {
      buffer := new Block[MAX_BLK_HISTORY_SIZE](_ => Block("", 0));
      length := 0;
      blkFinalized := map[];
    }

    method AddToHistory(blk: Block, finalized: bool)
      requires Valid()
      modifies this, buffer
      ensures Valid() && buffer == old(buffer)
      ensures Now() == Added(old(Now()), blk, finalized)
    {
      ghost var before := Now();
      AddedIsConsistent(before, blk, finalized);
      if blk.id in blkFinalized {
        blkFinalized := blkFinalized[blk.id := finalized];
        assert Now() == Added(before, blk, finalized);
        return;
      }
      // a full history gives up its oldest part
      if length >= MAX_BLK_HISTORY_SIZE {
        MakeRoom();
      }
      Append(blk);
      blkFinalized := blkFinalized[blk.id := finalized];
      assert Now() == Added(before, blk, finalized);
    }

    method MakeRoom()
      requires buffer.Length == MAX_BLK_HISTORY_SIZE && length == MAX_BLK_HISTORY_SIZE
      modifies this`length, this`blkFinalized, buffer
      ensures length == MAX_BLK_HISTORY_SIZE - NUM_HISTORY_TO_REMOVE
      ensures buffer[..length] == old(Now()).blocks[NUM_HISTORY_TO_REMOVE..]
      ensures blkFinalized == old(blkFinalized) - IDsOf(old(Now()).blocks[..NUM_HISTORY_TO_REMOVE])
    {
      assert buffer[..NUM_HISTORY_TO_REMOVE] == Now().blocks[..NUM_HISTORY_TO_REMOVE];
      assert buffer[NUM_HISTORY_TO_REMOVE..] == Now().blocks[NUM_HISTORY_TO_REMOVE..];
      ForgetOldest();
      ShiftDown();
    }

    method Append(blk: Block)
      requires length < buffer.Length
      modifies this`length, buffer
      ensures length == old(length) + 1
      ensures buffer[..length] == old(buffer[..length]) + [blk]
    {
      buffer[length] := blk;
      length := length + 1;
    }

    method ForgetOldest()
      requires NUM_HISTORY_TO_REMOVE <= length <= buffer.Length
      modifies this`blkFinalized
      ensures blkFinalized == old(blkFinalized) - IDsOf(buffer[..NUM_HISTORY_TO_REMOVE])
    {
      for i := 0 to NUM_HISTORY_TO_REMOVE
        invariant blkFinalized == old(blkFinalized) - IDsOf(buffer[..i])
      {
        PrefixStep(buffer[..], i);
        assert buffer[..][..i] == buffer[..i] && buffer[..][..i + 1] == buffer[..i + 1];
        assert IDsOf(buffer[..i + 1]) == IDsOf(buffer[..i]) + {buffer[i].id};
        blkFinalized := blkFinalized - {buffer[i].id};
      }
    }

    /** The overlapping move to the front of the same array. */
    method ShiftDown()
      requires buffer.Length == MAX_BLK_HISTORY_SIZE && length == MAX_BLK_HISTORY_SIZE
      modifies this`length, buffer
      ensures length == MAX_BLK_HISTORY_SIZE - NUM_HISTORY_TO_REMOVE
      ensures buffer[..length] == old(buffer[NUM_HISTORY_TO_REMOVE..])
    {
      var kept := MAX_BLK_HISTORY_SIZE - NUM_HISTORY_TO_REMOVE;
      for i := 0 to kept
        invariant forall j | 0 <= j < i :: buffer[j] == old(buffer[j + NUM_HISTORY_TO_REMOVE])
        invariant forall j | i <= j < buffer.Length :: buffer[j] == old(buffer[j])
      {
        buffer[i] := buffer[i + NUM_HISTORY_TO_REMOVE];
      }
      length := kept;
    }
  }

  lemma AddedIsConsistent(s: State, blk: Block, finalized: bool)
    requires IsConsistent(s)
    ensures IsConsistent(Added(s, blk, finalized))
  {
    var t := Added(s, blk, finalized);
    var kept := if blk.id in s.finalized || |s.blocks| < MAX_BLK_HISTORY_SIZE then 0 else NUM_HISTORY_TO_REMOVE;
    KeptIDs(s, kept);
    if blk.id !in s.finalized {
      var rest := s.blocks[kept..];
      assert s.blocks[0..] == s.blocks;
      assert t.blocks == rest + [blk];
      forall id ensures id in t.finalized <==> IsStored(t.blocks, id) {
        StoredAppend(rest, blk, id);
      }
      forall i | 0 <= i < |rest| ensures rest[i].id != blk.id {
        assert rest[i].id == s.blocks[i + kept].id;
        assert IsStored(s.blocks, rest[i].id);
      }
    }
  }

  lemma StoredAppend(blocks: seq<Block>, blk: Block, id: BlockID)
    ensures IsStored(blocks + [blk], id) <==> IsStored(blocks, id) || id == blk.id
  {
    var more := blocks + [blk];
    if id == blk.id {
      assert more[|blocks|].id == id;
    }
    if IsStored(blocks, id) {
      var i :| 0 <= i < |blocks| && blocks[i].id == id;
      assert more[i].id == id;
    }
  }

  /** Dropping the first blocks and their entries leaves exactly the entries of the others. */
  lemma KeptIDs(s: State, n: nat)
    requires IsConsistent(s) && n <= |s.blocks|
    ensures forall id :: id in s.finalized - IDsOf(s.blocks[..n]) <==> IsStored(s.blocks[n..], id)
  {
    var dropped, rest := s.blocks[..n], s.blocks[n..];
    forall id ensures id in s.finalized - IDsOf(dropped) <==> IsStored(rest, id) {
      if id in s.finalized {
        var i :| 0 <= i < |s.blocks| && s.blocks[i].id == id;
        if n <= i {
          assert rest[i - n].id == id;
        } else {
          assert s.blocks[i] in dropped;
        }
      }
      if IsStored(rest, id) {
        var i :| 0 <= i < |rest| && rest[i].id == id;
        assert s.blocks[i + n].id == id;
        forall b | b in dropped ensures b.id != id {
          var j :| 0 <= j < |dropped| && dropped[j] == b;
          assert s.blocks[j] == b;
        }
        assert IsStored(s.blocks, id);
      }
    }
  }

  // ---------------------------------------------------------------- runs

  ghost function After(events: seq<(Block, bool)>): State {
    if events == [] then State([], map[])
    else
      var last := events[|events| - 1];
      Added(After(events[..|events| - 1]), last.0, last.1)
  }

  /** The blocks in the order in which they were taken in. A block that is already there is not taken in again. */
  ghost function TakenIn(events: seq<(Block, bool)>): seq<Block> {
    if events == [] then []
    else
      var front, last := events[..|events| - 1], events[|events| - 1];
      if last.0.id in After(front).finalized then TakenIn(front) else TakenIn(front) + [last.0]
  }

  /** In every run the identifiers are distinct and are the keys of the map, there are at most MAX_BLK_HISTORY_SIZE of
      them, and the history is what was taken in last, in that order: a multiple of NUM_HISTORY_TO_REMOVE blocks has
      been given up at the front, and never more than needed. */
  lemma {:induction false} HistoryIsSuffix(events: seq<(Block, bool)>) returns (dropped: nat)
    ensures IsConsistent(After(events))
    ensures dropped <= |TakenIn(events)| && After(events).blocks == TakenIn(events)[dropped..]
    ensures dropped % NUM_HISTORY_TO_REMOVE == 0
    ensures dropped > 0 ==> |After(events).blocks| > MAX_BLK_HISTORY_SIZE - NUM_HISTORY_TO_REMOVE
  {
    dropped := 0;
    if events != [] {
      var front, last := events[..|events| - 1], events[|events| - 1];
      dropped := HistoryIsSuffix(front);
      AddedIsConsistent(After(front), last.0, last.1);
      dropped := SuffixStep(After(front), TakenIn(front), dropped, last.0, last.1);
    }
  }

  lemma SuffixStep(s: State, taken: seq<Block>, before: nat, blk: Block, finalized: bool) returns (dropped: nat)
    requires IsConsistent(s) && before <= |taken| && s.blocks == taken[before..] && before % NUM_HISTORY_TO_REMOVE == 0
    requires before > 0 ==> |s.blocks| > MAX_BLK_HISTORY_SIZE - NUM_HISTORY_TO_REMOVE
    ensures var t, more := Added(s, blk, finalized), if blk.id in s.finalized then taken else taken + [blk];
            && dropped <= |more| && t.blocks == more[dropped..] && dropped % NUM_HISTORY_TO_REMOVE == 0
            && (dropped > 0 ==> |t.blocks| > MAX_BLK_HISTORY_SIZE - NUM_HISTORY_TO_REMOVE)
  {
    dropped := before;
    if blk.id !in s.finalized {
      if |s.blocks| >= MAX_BLK_HISTORY_SIZE {
        dropped := before + NUM_HISTORY_TO_REMOVE;
        assert taken[before..][NUM_HISTORY_TO_REMOVE..] == taken[dropped..];
      }
      assert (taken + [blk])[dropped..] == taken[dropped..] + [blk];
    }
  }

  /** The flag of a stored block is the one it was last reported with. */
  lemma {:induction false} FlagIsLatest(events: seq<(Block, bool)>, blk: Block, finalized: bool)
    ensures blk.id in After(events + [(blk, finalized)]).finalized
    ensures After(events + [(blk, finalized)]).finalized[blk.id] == finalized
    ensures forall id | id in After(events + [(blk, finalized)]).finalized && id != blk.id ::
              id in After(events).finalized &&
              After(events + [(blk, finalized)]).finalized[id] == After(events).finalized[id]
  {
    assert (events + [(blk, finalized)])[..|events|] == events;
  }

  /** Feeding blocks to a history follows the run. */
  method Follow(history: History, events: seq<(Block, bool)>)
    requires history.Valid() && history.Now() == State([], map[])
    modifies history, history.buffer
    ensures history.Valid() && history.buffer == old(history.buffer)
    ensures history.Now() == After(events)
  {
    for i := 0 to |events|
      invariant history.Valid() && history.buffer == old(history.buffer) && history.Now() == After(events[..i])
    {
      assert events[..i + 1][..i] == events[..i];
      history.AddToHistory(events[i].0, events[i].1);
    }
    assert events[..|events|] == events;
  }
}
