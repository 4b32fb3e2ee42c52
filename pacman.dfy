/** The epoch and progress counters of the mining mini-game. A block is its
    value; positions, speed, collision geometry, the animation frame and
    rendering are left out. Which blocks the player touches during a frame
    is an input of `Update`: `hit[j]` says that block j of the frame's
    block list is within reach. */
module Pacman {
  import opened Wrappers
  import opened Text

  const FirstEpoch: nat := 161
  const LastEpoch: nat := 163
  const DefaultBlocks: nat := 10
  const MinBlockValue: int := 50
  const MaxBlockValue: int := 149
  const WinMessage: string := "You Win!"

  /** The per-epoch block table, read with a fallback of 10 for any epoch it
      does not list. */
  function BlocksForEpoch(epoch: int): (n: nat)
    ensures epoch == 161 ==> n == 10
    ensures epoch == 162 ==> n == 15
    ensures epoch == 163 ==> n == 20
    ensures epoch != 161 && epoch != 162 && epoch != 163 ==> n == DefaultBlocks
  {
    var table := map[161 := 10, 162 := 15, 163 := 20];
    if epoch in table && table[epoch] != 0 then table[epoch] else DefaultBlocks
  }

  function StartedMessage(epoch: nat): string
  {
    "Epoch " + NatToString(epoch) + " Started!"
  }

  function CompleteMessage(epoch: nat): string
  {
    "Epoch " + NatToString(epoch) + " Complete!"
  }

  /** The messages name the epoch, so two epochs never share one. */
  lemma StartedMessageNamesEpoch(a: nat, b: nat)
    requires StartedMessage(a) == StartedMessage(b)
    ensures a == b
  {
    var sa, sb := NatToString(a), NatToString(b);
    var ta, tb := "Epoch " + sa, "Epoch " + sb;
    assert |StartedMessage(a)| == |StartedMessage(b)|;
    assert ta == StartedMessage(a)[..|ta|];
    assert tb == StartedMessage(b)[..|tb|];
    assert sa == ta[6..] && sb == tb[6..];
    NatToStringInjective(a, b);
  }

  /** A started message is never the winning message. */
  lemma StartedIsNotWin(epoch: nat)
    ensures StartedMessage(epoch) != WinMessage
  {
    assert StartedMessage(epoch)[0] == 'E';
  }

  predicate ValuesInRange(blocks: seq<int>)
  {
    forall j :: 0 <= j < |blocks| ==> MinBlockValue <= blocks[j] <= MaxBlockValue
  }

  // ---------------------------------------------------------------------
  // What one frame collects

  /** The blocks a frame leaves in place, in their order. */
  function Kept(blocks: seq<int>, hit: seq<bool>): (k: seq<int>)
    requires |blocks| == |hit|
    ensures |k| <= |blocks|
  {
    if blocks == [] then []
    else (if hit[0] then [] else [blocks[0]]) + Kept(blocks[1..], hit[1..])
  }

  /** The summed value of the blocks a frame collects. */
  function HitTotal(blocks: seq<int>, hit: seq<bool>): int
    requires |blocks| == |hit|
  {
    if blocks == [] then 0
    else (if hit[0] then blocks[0] else 0) + HitTotal(blocks[1..], hit[1..])
  }

  /** The number of blocks a frame collects. */
  function HitCount(hit: seq<bool>): nat
  {
    if hit == [] then 0 else (if hit[0] then 1 else 0) + HitCount(hit[1..])
  }

  predicate AllHit(hit: seq<bool>)
  {
    forall j :: 0 <= j < |hit| ==> hit[j]
  }

  /** Every block is either kept or collected. */
  lemma {:induction false} KeptAndCollected(blocks: seq<int>, hit: seq<bool>)
    requires |blocks| == |hit|
    ensures |Kept(blocks, hit)| + HitCount(hit) == |blocks|
  {
    if blocks != [] {
      KeptAndCollected(blocks[1..], hit[1..]);
    }
  }

  /** A frame leaves nothing exactly when it collects every block. */
  lemma {:induction false} NothingKeptIff(blocks: seq<int>, hit: seq<bool>)
    requires |blocks| == |hit|
    ensures Kept(blocks, hit) == [] <==> AllHit(hit)
  {
    if blocks != [] {
      NothingKeptIff(blocks[1..], hit[1..]);
      if AllHit(hit) {
        assert AllHit(hit[1..]) by {
          forall j | 0 <= j < |hit| - 1 ensures hit[1..][j] {
            assert hit[1..][j] == hit[j + 1];
          }
        }
      }
      if Kept(blocks, hit) == [] {
        forall j | 0 <= j < |hit| ensures hit[j] {
          if j > 0 { assert hit[j] == hit[1..][j - 1]; }
        }
      }
    }
  }

  /** Kept blocks keep their values, so stay in range. */
  lemma {:induction false} KeptInRange(blocks: seq<int>, hit: seq<bool>)
    requires |blocks| == |hit| && ValuesInRange(blocks)
    ensures ValuesInRange(Kept(blocks, hit))
  {
    if blocks != [] {
      TailInRange(blocks);
      KeptInRange(blocks[1..], hit[1..]);
    }
  }

  lemma TailInRange(blocks: seq<int>)
    requires blocks != [] && ValuesInRange(blocks)
    ensures ValuesInRange(blocks[1..])
  {
    forall j | 0 <= j < |blocks| - 1 ensures MinBlockValue <= blocks[1..][j] <= MaxBlockValue {
      assert blocks[1..][j] == blocks[j + 1];
    }
  }

  /** Collected values are in range, so the score gain is bounded by the
      number of blocks collected. */
  lemma {:induction false} HitTotalBounds(blocks: seq<int>, hit: seq<bool>)
    requires |blocks| == |hit| && ValuesInRange(blocks)
    ensures MinBlockValue * HitCount(hit) <= HitTotal(blocks, hit) <= MaxBlockValue * HitCount(hit)
  {
    if blocks != [] {
      TailInRange(blocks);
      HitTotalBounds(blocks[1..], hit[1..]);
    }
  }

  /** The descending loop's step: index i is decided in front of the part
      already processed. */
  lemma Step(blocks: seq<int>, hit: seq<bool>, i: nat)
    requires |blocks| == |hit| && i < |blocks|
    ensures Kept(blocks[i..], hit[i..]) == (if hit[i] then [] else [blocks[i]]) + Kept(blocks[i + 1..], hit[i + 1..])
    ensures HitTotal(blocks[i..], hit[i..]) == (if hit[i] then blocks[i] else 0) + HitTotal(blocks[i + 1..], hit[i + 1..])
    ensures HitCount(hit[i..]) == (if hit[i] then 1 else 0) + HitCount(hit[i + 1..])
  {
    assert blocks[i..][1..] == blocks[i + 1..];
    assert hit[i..][1..] == hit[i + 1..];
  }

  // ---------------------------------------------------------------------
  // The counters and one frame's outcome

  /** The game's counters and flags. */
  datatype Counters = Counters(
    blocks: seq<int>,
    gameEnded: bool,
    endMessage: string,
    score: int,
    isRunning: bool,
    currentEpoch: nat,
    blocksToNextEpoch: nat,
    blocksCollected: nat)

  /** The invariant every operation keeps: the epoch stays in 161..163,
      the target matches the table, block values are in range, and a
      non-empty board holds exactly the blocks still to collect. */
  predicate ValidCounters(c: Counters)
  {
    && FirstEpoch <= c.currentEpoch <= LastEpoch
    && c.blocksToNextEpoch == BlocksForEpoch(c.currentEpoch)
    && ValuesInRange(c.blocks)
    && c.blocksCollected + |c.blocks| <= c.blocksToNextEpoch
    && (|c.blocks| > 0 ==> c.blocksCollected + |c.blocks| == c.blocksToNextEpoch)
  }

  /** The counters after the loop has visited indices k and up, none of
      which reached the target. */
  function Scanned(c: Counters, hit: seq<bool>, k: nat): Counters
    requires k <= |c.blocks| == |hit|
  {
    c.(blocks := c.blocks[..k] + Kept(c.blocks[k..], hit[k..]),
       score := c.score + HitTotal(c.blocks[k..], hit[k..]),
       blocksCollected := c.blocksCollected + HitCount(hit[k..]))
  }

  /** The state `advanceEpoch` leaves, from epoch e0 with score s0. */
  predicate StartedFrom(e0: int, s0: int, c: Counters)
  {
    && c.currentEpoch == Min(LastEpoch, e0 + 1)
    && c.blocksCollected == 0
    && c.blocksToNextEpoch == BlocksForEpoch(c.currentEpoch)
    && |c.blocks| == c.blocksToNextEpoch && ValuesInRange(c.blocks)
    && c.gameEnded && !c.isRunning
    && c.endMessage == StartedMessage(c.currentEpoch)
    && c.score == s0
  }

  /** What one frame does to the counters: nothing once ended; an empty
      board ends the epoch; otherwise the hits are collected, and collecting
      the whole board wins at epoch 163 or starts the next epoch. */
  predicate UpdateOutcome(c0: Counters, hit: seq<bool>, c1: Counters)
    requires |hit| == |c0.blocks|
  {
    if c0.gameEnded then c1 == c0
    else if c0.blocks == [] then
      c1 == c0.(gameEnded := true, isRunning := false, endMessage := CompleteMessage(c0.currentEpoch))
    else if !AllHit(hit) then c1 == Scanned(c0, hit, 0)
    else if c0.currentEpoch >= LastEpoch then
      c1 == Scanned(c0, hit, 0).(gameEnded := true, endMessage := WinMessage, isRunning := false)
    else StartedFrom(c0.currentEpoch, c0.score + HitTotal(c0.blocks, hit), c1)
  }

  /** The three ways a frame over a non-empty board can end. */
  lemma WonOutcome(c0: Counters, hit: seq<bool>, c1: Counters)
    requires |hit| == |c0.blocks| && c0.blocks != [] && !c0.gameEnded
    requires AllHit(hit) && c0.currentEpoch >= LastEpoch
    requires c1 == Scanned(c0, hit, 0).(gameEnded := true, endMessage := WinMessage, isRunning := false)
    ensures UpdateOutcome(c0, hit, c1)
  {
  }

  lemma AdvancedOutcome(c0: Counters, hit: seq<bool>, c1: Counters)
    requires |hit| == |c0.blocks| && c0.blocks != [] && !c0.gameEnded
    requires AllHit(hit) && c0.currentEpoch < LastEpoch
    requires StartedFrom(c0.currentEpoch, c0.score + HitTotal(c0.blocks, hit), c1)
    ensures UpdateOutcome(c0, hit, c1)
  {
  }

  lemma ScannedOutcome(c0: Counters, hit: seq<bool>, c1: Counters)
    requires |hit| == |c0.blocks| && c0.blocks != [] && !c0.gameEnded
    requires c1 == Scanned(c0, hit, 0) && c1.blocksCollected < c1.blocksToNextEpoch
    requires ValidCounters(c0)
    ensures UpdateOutcome(c0, hit, c1)
  {
    ScannedAll(c0, hit);
    assert !AllHit(hit);
  }

  /** The loop's step from index i + 1 down to index i. */
  lemma ScanStep(c: Counters, hit: seq<bool>, i: nat)
    requires i < |c.blocks| == |hit|
    ensures var s, t := Scanned(c, hit, i + 1), Scanned(c, hit, i);
      && i < |s.blocks| && s.blocks[i] == c.blocks[i]
      && t == (if hit[i] then
                 s.(score := s.score + s.blocks[i], blocksCollected := s.blocksCollected + 1,
                    blocks := s.blocks[..i] + s.blocks[i + 1..])
               else s)
  {
    Step(c.blocks, hit, i);
    KeptStep(c.blocks, hit, i);
  }

  lemma KeptStep(b: seq<int>, hit: seq<bool>, i: nat)
    requires i < |b| == |hit|
    ensures var s := b[..i + 1] + Kept(b[i + 1..], hit[i + 1..]);
      && i < |s| && s[i] == b[i]
      && b[..i] + Kept(b[i..], hit[i..]) == (if hit[i] then s[..i] + s[i + 1..] else s)
  {
    Step(b, hit, i);
    var rest := Kept(b[i + 1..], hit[i + 1..]);
    assert b[..i + 1] == b[..i] + [b[i]];
    Splice(b[..i], b[i], rest);
  }

  lemma Splice<T>(p: seq<T>, x: T, r: seq<T>)
    ensures var s := p + [x] + r;
      && |p| < |s| && s[|p|] == x && s[..|p|] == p && s[|p| + 1..] == r
      && s == p + ([x] + r) && p + ([] + r) == p + r
  {
  }

  /** Nothing visited yet: the counters as they were. */
  lemma ScannedNone(c: Counters, hit: seq<bool>)
    requires |c.blocks| == |hit|
    ensures Scanned(c, hit, |hit|) == c
  {
    assert c.blocks[..|hit|] == c.blocks;
  }

  /** The whole board visited. */
  lemma ScannedAll(c: Counters, hit: seq<bool>)
    requires |c.blocks| == |hit|
    ensures Scanned(c, hit, 0).blocks == Kept(c.blocks, hit)
    ensures Scanned(c, hit, 0).score == c.score + HitTotal(c.blocks, hit)
    ensures Scanned(c, hit, 0).blocksCollected == c.blocksCollected + HitCount(hit)
    ensures |Scanned(c, hit, 0).blocks| + HitCount(hit) == |c.blocks|
    ensures Scanned(c, hit, 0).blocks == [] <==> AllHit(hit)
  {
    assert c.blocks[..0] == [] && c.blocks[0..] == c.blocks && hit[0..] == hit;
    KeptAndCollected(c.blocks, hit);
    NothingKeptIff(c.blocks, hit);
  }

  /** In a valid state the target is reached only by the last block of
      the board, at index 0: so the loop never goes on over a new board. */
  lemma {:induction false} TargetReached(c: Counters, hit: seq<bool>, i: nat)
    requires ValidCounters(c) && i < |c.blocks| == |hit|
    requires Scanned(c, hit, i).blocksCollected >= c.blocksToNextEpoch
    ensures i == 0 && AllHit(hit)
  {
    KeptAndCollected(c.blocks[i..], hit[i..]);
    ScannedAll(c, hit);
  }

  /** A frame keeps the invariant. */
  lemma UpdateKeepsValid(c0: Counters, hit: seq<bool>, c1: Counters)
    requires ValidCounters(c0) && |hit| == |c0.blocks| && UpdateOutcome(c0, hit, c1)
    ensures ValidCounters(c1)
  {
    ScannedAll(c0, hit);
    KeptInRange(c0.blocks, hit);
  }

  /** A frame adds to the score between 50 and 149 per block collected, and
      only while the game is on. */
  lemma UpdateScore(c0: Counters, hit: seq<bool>, c1: Counters)
    requires ValidCounters(c0) && |hit| == |c0.blocks| && UpdateOutcome(c0, hit, c1)
    ensures c0.gameEnded ==> c1.score == c0.score
    ensures !c0.gameEnded ==> c1.score == c0.score + HitTotal(c0.blocks, hit)
    ensures !c0.gameEnded ==>
      MinBlockValue * HitCount(hit) <= c1.score - c0.score <= MaxBlockValue * HitCount(hit)
  {
    ScannedAll(c0, hit);
    HitTotalBounds(c0.blocks, hit);
  }

  /** A frame that does not clear the board leaves the game on, in the same
      epoch, with the untouched blocks in place. */
  lemma UpdatePartial(c0: Counters, hit: seq<bool>, c1: Counters)
    requires |hit| == |c0.blocks| && UpdateOutcome(c0, hit, c1)
    requires !c0.gameEnded && c0.blocks != [] && !AllHit(hit)
    ensures !c1.gameEnded && c1.currentEpoch == c0.currentEpoch
    ensures c1.blocksCollected == c0.blocksCollected + HitCount(hit)
    ensures c1.blocks == Kept(c0.blocks, hit) && c1.blocks != []
  {
    ScannedAll(c0, hit);
  }

  /** The epochs from 161 on end with a win only at 163; the end message
      of an epoch ending by a cleared board names the next epoch. */
  lemma UpdateCleared(c0: Counters, hit: seq<bool>, c1: Counters)
    requires ValidCounters(c0) && |hit| == |c0.blocks| && UpdateOutcome(c0, hit, c1)
    requires !c0.gameEnded && c0.blocks != [] && AllHit(hit)
    ensures c1.gameEnded && !c1.isRunning
    ensures c0.currentEpoch == LastEpoch ==> c1.endMessage == WinMessage && c1.blocks == []
    ensures c0.currentEpoch < LastEpoch ==>
      && c1.currentEpoch == c0.currentEpoch + 1 && c1.endMessage == StartedMessage(c1.currentEpoch)
      && |c1.blocks| == BlocksForEpoch(c1.currentEpoch) && c1.blocksCollected == 0
  {
    ScannedAll(c0, hit);
  }

  // ---------------------------------------------------------------------
  // The game

  class Game {
    /** The values of the blocks on the board. */
    var blocks: seq<int>
    var gameEnded: bool
    var endMessage: string
    var score: int
    var isRunning: bool
    var xmrImageLoaded: bool
    var qubicImageLoaded: bool
    var imagesLoaded: bool
    var currentEpoch: nat
    var blocksToNextEpoch: nat
    var blocksCollected: nat

    function Snapshot(): Counters
      reads this
    {
      Counters(blocks, gameEnded, endMessage, score, isRunning, currentEpoch, blocksToNextEpoch, blocksCollected)
    }

    ghost predicate Valid()
      reads this
    {
      && ValidCounters(Snapshot())
      && (imagesLoaded ==> xmrImageLoaded && qubicImageLoaded)
    }

    constructor ()
      ensures Valid()
      ensures blocks == [] && !gameEnded && endMessage == "" && score == 0 && !isRunning
      ensures !imagesLoaded && !xmrImageLoaded && !qubicImageLoaded
      ensures currentEpoch == FirstEpoch && blocksToNextEpoch == DefaultBlocks && blocksCollected == 0
    {
      blocks := [];
      gameEnded := false;
      endMessage := "";
      score := 0;
      isRunning := false;
      xmrImageLoaded := false;
      qubicImageLoaded := false;
      imagesLoaded := false;
      currentEpoch := 161;
      blocksToNextEpoch := 10;
      blocksCollected := 0;
    }

    /** `generateBlocks`: appends `count` blocks, each worth
        `floor(random * 100) + 50`. */
    method GenerateBlocks(count: nat)
      modifies this`blocks
      ensures |blocks| == |old(blocks)| + count && blocks[..|old(blocks)|] == old(blocks)
      ensures forall j :: |old(blocks)| <= j < |blocks| ==> MinBlockValue <= blocks[j] <= MaxBlockValue
    {
      for i := 0 to count
        invariant |blocks| == |old(blocks)| + i && blocks[..|old(blocks)|] == old(blocks)
        invariant forall j :: |old(blocks)| <= j < |blocks| ==> MinBlockValue <= blocks[j] <= MaxBlockValue
      {
        var roll :| 0 <= roll < 100;
        blocks := blocks + [roll + 50];
      }
    }

    /** A fresh board of the target's size. */
    method NewBoard()
      modifies this`blocks
      ensures |blocks| == blocksToNextEpoch && ValuesInRange(blocks)
    {
      blocks := [];
      GenerateBlocks(blocksToNextEpoch);
    }

    /** `advanceEpoch`: the next epoch, capped at 163, with a fresh board;
        the game pauses on the "Started" message until it is continued. */
    method AdvanceEpoch()
      modifies this`currentEpoch, this`blocksCollected, this`blocksToNextEpoch, this`blocks
      modifies this`endMessage, this`gameEnded, this`isRunning
      ensures StartedFrom(old(currentEpoch), old(score), Snapshot())
    {
      currentEpoch := Min(163, currentEpoch + 1);
      blocksCollected := 0;
      blocksToNextEpoch := BlocksForEpoch(currentEpoch);
      NewBoard();
      endMessage := if currentEpoch <= 163 then StartedMessage(currentEpoch) else WinMessage;
      gameEnded := true;
      isRunning := false;
    }

    /** One frame's bookkeeping, `update` without the movement: nothing
        once the game has ended; the collision loop; then a board that
        has emptied without ending the game ends the epoch. */
    method Update(hit: seq<bool>)
      requires Valid() && |hit| == |blocks|
      modifies this
      ensures Valid()
      ensures UpdateOutcome(old(Snapshot()), hit, Snapshot())
      ensures imagesLoaded == old(imagesLoaded) && xmrImageLoaded == old(xmrImageLoaded)
      ensures qubicImageLoaded == old(qubicImageLoaded)
    {
      if gameEnded {
        return;
      }
      ghost var c0 := Snapshot();
      CollectHits(hit);
      ScannedAll(c0, hit);
      if |blocks| == 0 && !gameEnded {
        gameEnded := true;
        endMessage := CompleteMessage(currentEpoch);
        isRunning := false;
      }
      UpdateKeepsValid(c0, hit, Snapshot());
    }

    /** The collision loop of `update`. Blocks are visited from the last
        index down; each hit adds its value to the score, counts as
        collected and leaves the board; reaching the target ends the game
        at epoch 163 and otherwise advances the epoch. */
    method CollectHits(hit: seq<bool>)
      requires Valid() && |hit| == |blocks| && !gameEnded
      modifies this`blocks, this`score, this`blocksCollected, this`currentEpoch, this`blocksToNextEpoch
      modifies this`endMessage, this`gameEnded, this`isRunning
      ensures old(Snapshot()).blocks == [] ==> Snapshot() == old(Snapshot())
      ensures old(Snapshot()).blocks != [] ==> UpdateOutcome(old(Snapshot()), hit, Snapshot())
    {
      ghost var c0 := Snapshot();
      assert c0 == old(Snapshot());
      ghost var advanced := false;
      ScannedNone(c0, hit);
      var i := |blocks| - 1;
      while i >= 0
        invariant -1 <= i < |c0.blocks|
        invariant !advanced ==>
          && Snapshot() == Scanned(c0, hit, i + 1)
          && (c0.blocks != [] ==> blocksCollected < blocksToNextEpoch)
        invariant advanced ==> i == -1 && c0.blocks != [] && UpdateOutcome(c0, hit, Snapshot())
      {
        var won;
        ghost var next;
        won, next := VisitBlock(i, hit, c0);
        if won {
          return;
        }
        advanced := next;
        i := i - 1;
      }
      if !advanced {
        ScannedAll(c0, hit);
        if c0.blocks == [] {
          ScannedNone(c0, hit);
          assert Snapshot() == c0;
        } else {
          ScannedOutcome(c0, hit, Snapshot());
        }
      }
    }

    /** One turn of the collision loop, at index i. A hit is collected;
        reaching the target then either wins (`won`, the loop's `return`)
        or advances the epoch. */
    method VisitBlock(i: nat, hit: seq<bool>, ghost c0: Counters) returns (won: bool, ghost advanced: bool)
      requires ValidCounters(c0) && !c0.gameEnded && i < |c0.blocks| == |hit|
      requires Snapshot() == Scanned(c0, hit, i + 1) && blocksCollected < blocksToNextEpoch
      modifies this`blocks, this`score, this`blocksCollected, this`currentEpoch, this`blocksToNextEpoch
      modifies this`endMessage, this`gameEnded, this`isRunning
      ensures won || advanced ==> i == 0 && UpdateOutcome(c0, hit, Snapshot())
      ensures !won && !advanced ==>
        Snapshot() == Scanned(c0, hit, i) && blocksCollected < blocksToNextEpoch
    {
      ScanStep(c0, hit, i);
      won, advanced := false, false;
      if hit[i] {
        score := score + blocks[i];
        blocksCollected := blocksCollected + 1;
        blocks := blocks[..i] + blocks[i + 1..];
        if blocksCollected >= blocksToNextEpoch {
          TargetReached(c0, hit, i);
          ScannedAll(c0, hit);
          if currentEpoch >= 163 {
            gameEnded := true;
            endMessage := WinMessage;
            isRunning := false;
            WonOutcome(c0, hit, Snapshot());
            return true, false;
          }
          AdvanceEpoch();
          AdvancedOutcome(c0, hit, Snapshot());
          advanced := true;
        }
      }
    }

    /** `start`: a game that has ended is set up again on a fresh board
        with score and progress cleared; a paused game starts running. */
    method Start()
      requires Valid()
      modifies this
      ensures Valid()
      ensures !gameEnded && isRunning
      ensures old(gameEnded) ==>
        && score == 0 && blocksCollected == 0 && |blocks| == blocksToNextEpoch
      ensures !old(gameEnded) ==>
        && score == old(score) && blocksCollected == old(blocksCollected) && blocks == old(blocks)
      ensures currentEpoch == old(currentEpoch) && blocksToNextEpoch == old(blocksToNextEpoch)
      ensures endMessage == old(endMessage)
      ensures imagesLoaded == old(imagesLoaded) && xmrImageLoaded == old(xmrImageLoaded)
      ensures qubicImageLoaded == old(qubicImageLoaded)
    {
      if gameEnded {
        gameEnded := false;
        NewBoard();
        score := 0;
        blocksCollected := 0;
      }
      if !isRunning {
        isRunning := true;
      }
    }

    /** The delayed continuation `advanceEpoch` schedules: it clears the
        ended flag and then starts, so score and progress carry over. */
    method ContinueAfterEpoch()
      requires Valid()
      modifies this
      ensures Valid()
      ensures !gameEnded && isRunning
      ensures score == old(score) && blocksCollected == old(blocksCollected) && blocks == old(blocks)
      ensures currentEpoch == old(currentEpoch) && blocksToNextEpoch == old(blocksToNextEpoch)
      ensures endMessage == old(endMessage)
      ensures imagesLoaded == old(imagesLoaded) && xmrImageLoaded == old(xmrImageLoaded)
      ensures qubicImageLoaded == old(qubicImageLoaded)
    {
      gameEnded := false;
      Start();
    }

    /** `pause`. */
    method Pause()
      requires Valid()
      modifies this
      ensures Valid() && !isRunning
      ensures blocks == old(blocks) && gameEnded == old(gameEnded) && endMessage == old(endMessage)
      ensures score == old(score) && currentEpoch == old(currentEpoch)
      ensures blocksToNextEpoch == old(blocksToNextEpoch) && blocksCollected == old(blocksCollected)
      ensures imagesLoaded == old(imagesLoaded) && xmrImageLoaded == old(xmrImageLoaded)
      ensures qubicImageLoaded == old(qubicImageLoaded)
    {
      isRunning := false;
    }

    /** `initializeEpoch161`: nothing before the images have loaded;
        afterwards epoch 161 from scratch on a fresh board. */
    method InitializeEpoch161()
      requires Valid()
      modifies this
      ensures Valid()
      ensures !old(imagesLoaded) ==> unchanged(this)
      ensures old(imagesLoaded) ==>
        && !gameEnded && score == 0 && currentEpoch == FirstEpoch
        && blocksToNextEpoch == DefaultBlocks && blocksCollected == 0 && |blocks| == DefaultBlocks
        && isRunning == old(isRunning) && endMessage == old(endMessage)
      ensures imagesLoaded == old(imagesLoaded) && xmrImageLoaded == old(xmrImageLoaded)
      ensures qubicImageLoaded == old(qubicImageLoaded)
    {
      if !imagesLoaded {
        return;
      }
      gameEnded := false;
      score := 0;
      currentEpoch := 161;
      blocksToNextEpoch := BlocksForEpoch(161);
      blocksCollected := 0;
      NewBoard();
    }

    /** `restart`: epoch 161 again, and a running game keeps running.
        Before the images have loaded the epoch is not reset, and a running
        game only goes through `pause` and `start`. */
    method Restart()
      requires Valid()
      modifies this
      ensures Valid()
      ensures isRunning == old(isRunning) && endMessage == old(endMessage)
      ensures imagesLoaded == old(imagesLoaded) && xmrImageLoaded == old(xmrImageLoaded)
      ensures qubicImageLoaded == old(qubicImageLoaded)
      ensures old(imagesLoaded) ==>
        && !gameEnded && score == 0 && currentEpoch == FirstEpoch
        && blocksToNextEpoch == DefaultBlocks && blocksCollected == 0 && |blocks| == DefaultBlocks
      ensures !old(imagesLoaded) && !old(isRunning) ==> unchanged(this)
      ensures !old(imagesLoaded) && old(isRunning) ==>
        && !gameEnded && currentEpoch == old(currentEpoch) && blocksToNextEpoch == old(blocksToNextEpoch)
        && (old(gameEnded) ==> score == 0 && blocksCollected == 0 && |blocks| == blocksToNextEpoch)
        && (!old(gameEnded) ==>
              score == old(score) && blocksCollected == old(blocksCollected) && blocks == old(blocks))
    {
      InitializeEpoch161();
      if isRunning {
        Pause();
        Start();
      }
    }

    /** An image's load handler followed by `checkImagesLoaded`: once both
        images are in, the game is marked loaded and set up at epoch 161.
        The ready callback is not modelled. */
    method OnImageLoaded(xmr: bool)
      requires Valid()
      modifies this
      ensures Valid()
      ensures xmr ==> xmrImageLoaded && qubicImageLoaded == old(qubicImageLoaded)
      ensures !xmr ==> qubicImageLoaded && xmrImageLoaded == old(xmrImageLoaded)
      ensures imagesLoaded <==> xmrImageLoaded && qubicImageLoaded
      ensures isRunning == old(isRunning) && endMessage == old(endMessage)
      ensures imagesLoaded ==>
        && !gameEnded && score == 0 && currentEpoch == FirstEpoch
        && blocksToNextEpoch == DefaultBlocks && blocksCollected == 0 && |blocks| == DefaultBlocks
      ensures !imagesLoaded ==>
        && blocks == old(blocks) && gameEnded == old(gameEnded) && score == old(score)
        && currentEpoch == old(currentEpoch) && blocksToNextEpoch == old(blocksToNextEpoch)
        && blocksCollected == old(blocksCollected)
    {
      if xmr {
        xmrImageLoaded := true;
      } else {
        qubicImageLoaded := true;
      }
      if xmrImageLoaded && qubicImageLoaded {
        imagesLoaded := true;
        InitializeEpoch161();
      }
    }
  }
}
