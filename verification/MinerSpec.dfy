/** Miner statistics over the chain and over the last two weeks of it. */
module MinerSpec {
  import opened Wrappers
  import opened Bytes
  import opened Seqs
  import Utf8

  type MinerId = string

  const UNKNOWN_ID: MinerId := "unknown"

  const WINDOW := 3600 * 24 * 14

  datatype Block = Block(hash: Hash, number: nat, timestamp: nat, coinbase: seq<Byte>)

  datatype RecentBlock = RecentBlock(hash: Hash, number: nat, timestamp: nat, miner: MinerId)

  /** Which miner's rules a coinbase text matches; unknown when none do. */
  type Attribution = seq<Byte> -> MinerId

  /** How a text is changed when it is stored. */
  type Storage = seq<Byte> -> seq<Byte>

  /** A new block is attributed by the bytes of its coinbase, and later by the text that was stored of them. */
  function Stored(attribute: Attribution, storage: Storage): Attribution {
    (coinbase: seq<Byte>) => attribute(storage(coinbase))
  }

  datatype Stats = Stats(
    recent: seq<RecentBlock>,
    counts: map<MinerId, nat>,
    mined: map<MinerId, seq<Hash>>,
    blockMiners: map<Hash, MinerId>
  )

  function AsRecent(b: Block, attribute: Attribution): RecentBlock {
    RecentBlock(b.hash, b.number, b.timestamp, attribute(b.coinbase))
  }

  /** The blocks that are not older than a time. */
  function RecentOf(blocks: seq<Block>, cutoff: nat, attribute: Attribution): (r: seq<RecentBlock>) {
    if blocks == [] then []
    else
      RecentOf(Front(blocks), cutoff, attribute)
        + if Last(blocks).timestamp >= cutoff then [AsRecent(Last(blocks), attribute)] else []
  }

  /** The front of the window is popped while it is older than a time. */
  function DropOld(recent: seq<RecentBlock>, cutoff: nat): seq<RecentBlock> {
    if recent != [] && recent[0].timestamp < cutoff then DropOld(recent[1..], cutoff) else recent
  }

  function Tally(recent: seq<RecentBlock>, miner: MinerId): nat {
    if recent == [] then 0 else Tally(Front(recent), miner) + if Last(recent).miner == miner then 1 else 0
  }

  function MinedBy(blocks: seq<Block>, miner: MinerId, attribute: Attribution): seq<Hash> {
    if blocks == [] then []
    else MinedBy(Front(blocks), miner, attribute) + if attribute(Last(blocks).coinbase) == miner then [Last(blocks).hash] else []
  }

  function Attributed(m: map<Hash, MinerId>, blocks: seq<Block>, attribute: Attribution): map<Hash, MinerId> {
    if blocks == [] then m
    else Attributed(m, Front(blocks), attribute)[Last(blocks).hash := attribute(Last(blocks).coinbase)]
  }

  /** Every count is the tally of its miner in the window. */
  ghost predicate CountsAreTallies(s: Stats, miners: set<MinerId>) {
    && s.counts.Keys == miners && s.mined.Keys == miners
    && (forall m :: m in miners ==> s.counts[m] == Tally(s.recent, m))
    && (forall i :: 0 <= i < |s.recent| ==> s.recent[i].miner in miners)
  }

  /** The last block is not dated within two weeks of 1970; the code subtracts without a check. */
  predicate Dated(blocks: seq<Block>) {
    blocks != [] ==> Last(blocks).timestamp >= WINDOW
  }

  /** The window of a chain: the two weeks before its last block. */
  function Cutoff(blocks: seq<Block>): nat
    requires Dated(blocks)
  {
    if blocks == [] then 0 else Last(blocks).timestamp - WINDOW
  }

  function Tallies(recent: seq<RecentBlock>, miners: set<MinerId>): map<MinerId, nat> {
    map m | m in miners :: Tally(recent, m)
  }

  /** What every miner has mined, oldest first. */
  function MinedLists(blocks: seq<Block>, miners: set<MinerId>, attribute: Attribution): map<MinerId, seq<Hash>> {
    map m | m in miners :: MinedBy(blocks, m, attribute)
  }

  function Joined(a: map<MinerId, seq<Hash>>, b: map<MinerId, seq<Hash>>): map<MinerId, seq<Hash>>
    requires a.Keys == b.Keys
  {
    map m | m in a :: a[m] + b[m]
  }

  /** recalculate_full_miner_stats, of texts as they are stored and numbers as the headers have them */
  ghost function Recomputed(chain: seq<Block>, miners: set<MinerId>, attribute: Attribution): Stats
    requires Dated(chain)
  {
    var recent := RecentOf(chain, Cutoff(chain), attribute);
    Stats(recent, Tallies(recent, miners), MinedLists(chain, miners, attribute), Attributed(map[], chain, attribute))
  }

  /** A batch under the numbers that are passed along with it. */
  function Numbered(batch: seq<Block>, numbers: seq<nat>): (s: seq<Block>)
    requires |numbers| == |batch|
    ensures |s| == |batch| && forall i :: 0 <= i < |s| ==> s[i] == batch[i].(number := numbers[i])
  {
    seq(|batch|, i requires 0 <= i < |batch| => batch[i].(number := numbers[i]))
  }

  ghost predicate IsBatch(batch: seq<Block>, numbers: seq<nat>) {
    batch != [] && Dated(batch) && |numbers| == |batch|
  }

  /** callback_chain_extended, of texts as they arrive and numbers as they are passed */
  ghost function Extended(s: Stats, batch: seq<Block>, numbers: seq<nat>, miners: set<MinerId>, attribute: Attribution): Stats
    requires IsBatch(batch, numbers) && s.mined.Keys == miners
  {
    ExtendedBy(s, Numbered(batch, numbers), miners, attribute)
  }

  /** Extended by blocks with the numbers they carry. */
  ghost function ExtendedBy(s: Stats, batch: seq<Block>, miners: set<MinerId>, attribute: Attribution): Stats
    requires batch != [] && Dated(batch) && s.mined.Keys == miners
  {
    var recent := DropOld(s.recent, Cutoff(batch)) + RecentOf(batch, Cutoff(batch), attribute);
    Stats(recent, Tallies(recent, miners), Joined(s.mined, MinedLists(batch, miners, attribute)),
          Attributed(s.blockMiners, batch, attribute))
  }

  /** Whom a block is credited to, and that miner's part of the window. */
  datatype Credit = Credit(miner: MinerId, share: real)

  function ShareOf(s: Stats, miner: MinerId): real
    requires miner in s.counts
  {
    if s.recent == [] then 0.0 else s.counts[miner] as real / |s.recent| as real
  }

  /** get_miner_for_block_and_share */
  function CreditOf(s: Stats, block: Hash): Option<Credit>
    requires block in s.blockMiners ==> s.blockMiners[block] in s.counts
  {
    if block !in s.blockMiners then None else Some(Credit(s.blockMiners[block], ShareOf(s, s.blockMiners[block])))
  }

  // ---------------------------------------------------------------- windows

  lemma {:induction false} RecentOfConcat(a: seq<Block>, b: seq<Block>, cutoff: nat, attribute: Attribution)
    ensures RecentOf(a + b, cutoff, attribute) == RecentOf(a, cutoff, attribute) + RecentOf(b, cutoff, attribute)
  {
    if b == [] {
      assert a + b == a;
    } else {
      assert Front(a + b) == a + Front(b);
      RecentOfConcat(a, Front(b), cutoff, attribute);
    }
  }

  lemma {:induction false} MinedByConcat(a: seq<Block>, b: seq<Block>, m: MinerId, attribute: Attribution)
    ensures MinedBy(a + b, m, attribute) == MinedBy(a, m, attribute) + MinedBy(b, m, attribute)
  {
    if b == [] {
      assert a + b == a;
    } else {
      assert Front(a + b) == a + Front(b);
      MinedByConcat(a, Front(b), m, attribute);
    }
  }

  lemma {:induction false} AttributedConcat(m: map<Hash, MinerId>, a: seq<Block>, b: seq<Block>, attribute: Attribution)
    ensures Attributed(m, a + b, attribute) == Attributed(Attributed(m, a, attribute), b, attribute)
  {
    if b == [] {
      assert a + b == a;
    } else {
      assert Front(a + b) == a + Front(b);
      AttributedConcat(m, a, Front(b), attribute);
    }
  }

  lemma {:induction false} TallyConcat(a: seq<RecentBlock>, b: seq<RecentBlock>, m: MinerId)
    ensures Tally(a + b, m) == Tally(a, m) + Tally(b, m)
  {
    if b == [] {
      assert a + b == a;
    } else {
      assert Front(a + b) == a + Front(b);
      TallyConcat(a, Front(b), m);
    }
  }

  /** What one block adds: it is recent when it is no more than two weeks older than the last, and counts for its miner. */
  lemma {:induction false} OneBlock(b: Block, last: Block, m: map<Hash, MinerId>, miner: MinerId, attribute: Attribution)
    requires last.timestamp >= 1_209_600
    ensures Dated([last])
    ensures var recent := RecentBlock(b.hash, b.number, b.timestamp, attribute(b.coinbase));
      && RecentOf([b], Cutoff([last]), attribute) == (if b.timestamp + 1_209_600 >= last.timestamp then [recent] else [])
      && Tally([recent], miner) == (if attribute(b.coinbase) == miner then 1 else 0)
    ensures MinedBy([b], miner, attribute) == if attribute(b.coinbase) == miner then [b.hash] else []
    ensures Attributed(m, [b], attribute) == m[b.hash := attribute(b.coinbase)]
  {
    assert Front([b]) == [] && Last([b]) == b;
    assert Front([AsRecent(b, attribute)]) == [];
  }

  /** A miner's share of the window is its part of the blocks there. */
  lemma {:induction false} ShareIsPart(s: Stats, miners: set<MinerId>, miner: MinerId)
    requires CountsAreTallies(s, miners) && miner in miners && s.recent != []
    ensures miner in s.counts && ShareOf(s, miner) * |s.recent| as real == Tally(s.recent, miner) as real
    ensures 0.0 <= ShareOf(s, miner) <= 1.0
  {
    TallyBound(s.recent, miner);
    Divided(Tally(s.recent, miner) as real, |s.recent| as real);
  }

  lemma {:induction false} TallyBound(recent: seq<RecentBlock>, miner: MinerId)
    ensures Tally(recent, miner) <= |recent|
  {
    if recent != [] {
      TallyBound(Front(recent), miner);
    }
  }

  lemma {:induction false} Divided(x: real, y: real)
    requires 0.0 <= x <= y && y > 0.0
    ensures x / y * y == x && 0.0 <= x / y <= 1.0
  {
    assert x / y * y == x;
  }

  /** The recent blocks of a list of recent blocks. */
  function Keep(recent: seq<RecentBlock>, cutoff: nat): (r: seq<RecentBlock>)
    ensures |r| <= |recent|
  {
    if recent == [] then [] else Keep(Front(recent), cutoff) + if Last(recent).timestamp >= cutoff then [Last(recent)] else []
  }

  lemma {:induction false} KeepFromFront(recent: seq<RecentBlock>, cutoff: nat)
    requires recent != []
    ensures Keep(recent, cutoff) == (if recent[0].timestamp >= cutoff then [recent[0]] else []) + Keep(recent[1..], cutoff)
  {
    if |recent| == 1 {
      assert Front(recent) == [] && recent[1..] == [];
    } else {
      KeepFromFront(Front(recent), cutoff);
      assert Front(recent)[1..] == Front(recent[1..]) && Front(recent)[0] == recent[0] && Last(recent[1..]) == Last(recent);
      ConcatAssociative(if recent[0].timestamp >= cutoff then [recent[0]] else [], Keep(Front(recent[1..]), cutoff),
                        if Last(recent).timestamp >= cutoff then [Last(recent)] else []);
    }
  }

  /** Nothing in the window is older than the time and behind a block that is not. */
  predicate OldFirst(recent: seq<RecentBlock>, cutoff: nat) {
    forall i, j :: 0 <= i < j < |recent| && recent[i].timestamp >= cutoff ==> recent[j].timestamp >= cutoff
  }

  lemma {:induction false} KeepAll(recent: seq<RecentBlock>, cutoff: nat)
    ensures Keep(recent, cutoff) == recent <==> forall i :: 0 <= i < |recent| ==> recent[i].timestamp >= cutoff
  {
    if recent != [] {
      KeepAll(Front(recent), cutoff);
      assert recent == Front(recent) + [Last(recent)];
      if Keep(recent, cutoff) == recent {
        assert |Keep(recent, cutoff)| == |recent|;
        assert Last(recent).timestamp >= cutoff;
        assert Front(Keep(recent, cutoff)) == Keep(Front(recent), cutoff);
      }
    }
  }

  lemma {:induction false} OldFirstBehindOld(recent: seq<RecentBlock>, cutoff: nat)
    requires recent != [] && recent[0].timestamp < cutoff
    ensures OldFirst(recent[1..], cutoff) <==> OldFirst(recent, cutoff)
  {
    if OldFirst(recent[1..], cutoff) {
      forall i, j | 0 <= i < j < |recent| && recent[i].timestamp >= cutoff ensures recent[j].timestamp >= cutoff {
        assert recent[1..][i - 1].timestamp >= cutoff;
        assert recent[1..][j - 1] == recent[j];
      }
    } else {
      var i, j :| 0 <= i < j < |recent[1..]| && recent[1..][i].timestamp >= cutoff && recent[1..][j].timestamp < cutoff;
      assert recent[i + 1].timestamp >= cutoff && recent[j + 1].timestamp < cutoff;
    }
  }

  /** Popping from the front keeps exactly the recent blocks iff the old ones all come first. */
  lemma {:induction false} DropIsKeepIff(recent: seq<RecentBlock>, cutoff: nat)
    ensures DropOld(recent, cutoff) == Keep(recent, cutoff) <==> OldFirst(recent, cutoff)
  {
    if recent != [] {
      if recent[0].timestamp < cutoff {
        DropIsKeepIff(recent[1..], cutoff);
        KeepFromFront(recent, cutoff);
        OldFirstBehindOld(recent, cutoff);
      } else {
        KeepAll(recent, cutoff);
      }
    }
  }

  /** When time moves on, the recent blocks of a chain are among those that were recent before. */
  lemma {:induction false} KeepOfRecent(chain: seq<Block>, before: nat, cutoff: nat, attribute: Attribution)
    requires forall i :: 0 <= i < |chain| && chain[i].timestamp >= cutoff ==> chain[i].timestamp >= before
    ensures Keep(RecentOf(chain, before, attribute), cutoff) == RecentOf(chain, cutoff, attribute)
  {
    if chain != [] {
      KeepOfRecent(Front(chain), before, cutoff, attribute);
      var rest, b := RecentOf(Front(chain), before, attribute), Last(chain);
      if b.timestamp >= before {
        assert Front(rest + [AsRecent(b, attribute)]) == rest;
      } else {
        assert b.timestamp < cutoff by {
          assert chain[|chain| - 1] == b;
        }
        assert rest + [] == rest;
      }
    }
  }

  lemma {:induction false} RecentAreRecent(chain: seq<Block>, cutoff: nat, attribute: Attribution, i: nat)
    requires i < |RecentOf(chain, cutoff, attribute)|
    ensures RecentOf(chain, cutoff, attribute)[i].timestamp >= cutoff
  {
    if i < |RecentOf(Front(chain), cutoff, attribute)| {
      RecentAreRecent(Front(chain), cutoff, attribute, i);
    }
  }

  lemma {:induction false} RecentGrows(chain: seq<Block>, before: nat, cutoff: nat, attribute: Attribution)
    requires cutoff <= before
    ensures |RecentOf(chain, before, attribute)| <= |RecentOf(chain, cutoff, attribute)|
    ensures RecentOf(chain, before, attribute) == RecentOf(chain, cutoff, attribute) ==>
              forall i :: 0 <= i < |chain| && chain[i].timestamp >= cutoff ==> chain[i].timestamp >= before
  {
    if chain != [] {
      RecentGrows(Front(chain), before, cutoff, attribute);
      var a, b := RecentOf(Front(chain), before, attribute), RecentOf(Front(chain), cutoff, attribute);
      assert a + [] == a && b + [] == b;
      if RecentOf(chain, before, attribute) == RecentOf(chain, cutoff, attribute) && Last(chain).timestamp >= before {
        assert Front(RecentOf(chain, before, attribute)) == a && Front(RecentOf(chain, cutoff, attribute)) == b;
      }
    }
  }

  /** No block that had left the window comes back into it, and none that leaves it hides behind one that stays. */
  ghost predicate WindowMovesOn(chain: seq<Block>, batch: seq<Block>, attribute: Attribution)
    requires Dated(chain) && Dated(batch)
  {
    && (forall i :: 0 <= i < |chain| && chain[i].timestamp >= Cutoff(batch) ==> chain[i].timestamp >= Cutoff(chain))
    && OldFirst(RecentOf(chain, Cutoff(chain), attribute), Cutoff(batch))
  }

  lemma {:induction false} NothingDropped(recent: seq<RecentBlock>, cutoff: nat)
    requires forall i :: 0 <= i < |recent| ==> recent[i].timestamp >= cutoff
    ensures DropOld(recent, cutoff) == recent
  {
  }

  /** What is left of the window is the recent part of the chain exactly when it moves on in order. */
  lemma {:induction false} WindowIff(chain: seq<Block>, batch: seq<Block>, attribute: Attribution)
    requires Dated(chain) && Dated(batch)
    ensures DropOld(RecentOf(chain, Cutoff(chain), attribute), Cutoff(batch)) == RecentOf(chain, Cutoff(batch), attribute)
            <==> WindowMovesOn(chain, batch, attribute)
  {
    var before, cutoff := Cutoff(chain), Cutoff(batch);
    var window := RecentOf(chain, before, attribute);
    if forall i :: 0 <= i < |chain| && chain[i].timestamp >= cutoff ==> chain[i].timestamp >= before {
      KeepOfRecent(chain, before, cutoff, attribute);
      DropIsKeepIff(window, cutoff);
    } else {
      assert cutoff < before;
      forall i | 0 <= i < |window| ensures window[i].timestamp >= cutoff {
        RecentAreRecent(chain, before, attribute, i);
      }
      NothingDropped(window, cutoff);
      RecentGrows(chain, before, cutoff, attribute);
    }
  }

  lemma {:induction false} SameHalves<T>(a: seq<T>, b: seq<T>, c: seq<T>, d: seq<T>)
    requires |b| == |d|
    ensures a + b == c + d <==> a == c && b == d
  {
    if a + b == c + d {
      assert |a| == |c|;
      assert a == (a + b)[..|a|] == (c + d)[..|c|] == c;
      assert b == (a + b)[|a|..] == (c + d)[|c|..] == d;
    }
  }

  predicate NonDecreasing(blocks: seq<Block>) {
    forall i, j :: 0 <= i < j < |blocks| ==> blocks[i].timestamp <= blocks[j].timestamp
  }

  lemma {:induction false} RecentInOrder(chain: seq<Block>, cutoff: nat, attribute: Attribution)
    requires NonDecreasing(chain)
    ensures forall i, j :: 0 <= i < j < |RecentOf(chain, cutoff, attribute)| ==>
              RecentOf(chain, cutoff, attribute)[i].timestamp <= RecentOf(chain, cutoff, attribute)[j].timestamp
    ensures forall i :: 0 <= i < |RecentOf(chain, cutoff, attribute)| ==>
              RecentOf(chain, cutoff, attribute)[i].timestamp <= Last(chain).timestamp
  {
    if chain != [] {
      RecentInOrder(Front(chain), cutoff, attribute);
    }
  }

  // ---------------------------------------------------------------- texts

  /** Both attributions name the same miner for every block. */
  ghost predicate ReadAlike(blocks: seq<Block>, a: Attribution, b: Attribution) {
    forall i :: 0 <= i < |blocks| ==> a(blocks[i].coinbase) == b(blocks[i].coinbase)
  }

  predicate DistinctHashes(blocks: seq<Block>) {
    forall i, j :: 0 <= i < j < |blocks| ==> blocks[i].hash != blocks[j].hash
  }

  lemma {:induction false} AlikeFront(blocks: seq<Block>, a: Attribution, b: Attribution)
    requires blocks != [] && ReadAlike(blocks, a, b)
    ensures ReadAlike(Front(blocks), a, b) && a(Last(blocks).coinbase) == b(Last(blocks).coinbase)
  {
  }

  lemma {:induction false} AlikeRecent(blocks: seq<Block>, cutoff: nat, a: Attribution, b: Attribution)
    requires ReadAlike(blocks, a, b)
    ensures RecentOf(blocks, cutoff, a) == RecentOf(blocks, cutoff, b)
  {
    if blocks != [] {
      AlikeFront(blocks, a, b);
      AlikeRecent(Front(blocks), cutoff, a, b);
    }
  }

  lemma {:induction false} AlikeMined(blocks: seq<Block>, m: MinerId, a: Attribution, b: Attribution)
    requires ReadAlike(blocks, a, b)
    ensures MinedBy(blocks, m, a) == MinedBy(blocks, m, b)
  {
    if blocks != [] {
      AlikeFront(blocks, a, b);
      AlikeMined(Front(blocks), m, a, b);
    }
  }

  lemma {:induction false} AlikeAttributed(m: map<Hash, MinerId>, blocks: seq<Block>, a: Attribution, b: Attribution)
    requires ReadAlike(blocks, a, b)
    ensures Attributed(m, blocks, a) == Attributed(m, blocks, b)
  {
    if blocks != [] {
      AlikeFront(blocks, a, b);
      AlikeAttributed(m, Front(blocks), a, b);
    }
  }

  lemma {:induction false} AttributedAt(m: map<Hash, MinerId>, blocks: seq<Block>, attribute: Attribution, i: nat)
    requires i < |blocks| && DistinctHashes(blocks)
    ensures blocks[i].hash in Attributed(m, blocks, attribute)
    ensures Attributed(m, blocks, attribute)[blocks[i].hash] == attribute(blocks[i].coinbase)
  {
    if i < |blocks| - 1 {
      assert Front(blocks)[i] == blocks[i];
      AttributedAt(m, Front(blocks), attribute, i);
    }
  }

  /** Blocks are attributed alike exactly when the map of attributed blocks comes out the same. */
  lemma {:induction false} AlikeIff(m: map<Hash, MinerId>, blocks: seq<Block>, a: Attribution, b: Attribution)
    requires DistinctHashes(blocks)
    ensures Attributed(m, blocks, a) == Attributed(m, blocks, b) <==> ReadAlike(blocks, a, b)
  {
    if Attributed(m, blocks, a) == Attributed(m, blocks, b) {
      forall i | 0 <= i < |blocks| ensures a(blocks[i].coinbase) == b(blocks[i].coinbase) {
        AttributedAt(m, blocks, a, i);
        AttributedAt(m, blocks, b, i);
      }
    } else if ReadAlike(blocks, a, b) {
      AlikeAttributed(m, blocks, a, b);
    }
  }

  lemma {:induction false} ExtendedAlike(s: Stats, batch: seq<Block>, miners: set<MinerId>, a: Attribution, b: Attribution)
    requires batch != [] && Dated(batch) && s.mined.Keys == miners && ReadAlike(batch, a, b)
    ensures ExtendedBy(s, batch, miners, a) == ExtendedBy(s, batch, miners, b)
  {
    AlikeRecent(batch, Cutoff(batch), a, b);
    AlikeAttributed(s.blockMiners, batch, a, b);
    forall m | m in miners ensures MinedBy(batch, m, a) == MinedBy(batch, m, b) {
      AlikeMined(batch, m, a, b);
    }
    assert MinedLists(batch, miners, a) == MinedLists(batch, miners, b);
  }

  // ---------------------------------------------------------------- numbers

  /** Every block that is not older than a time goes by its own number. */
  ghost predicate NumbersRight(blocks: seq<Block>, numbers: seq<nat>, cutoff: nat)
    requires |numbers| == |blocks|
  {
    forall i :: 0 <= i < |blocks| && blocks[i].timestamp >= cutoff ==> numbers[i] == blocks[i].number
  }

  lemma {:induction false} RightFront(blocks: seq<Block>, numbers: seq<nat>, cutoff: nat)
    requires |numbers| == |blocks| && blocks != []
    ensures NumbersRight(blocks, numbers, cutoff) <==>
              && NumbersRight(Front(blocks), Front(numbers), cutoff)
              && (Last(blocks).timestamp >= cutoff ==> Last(numbers) == Last(blocks).number)
  {
    assert forall i :: 0 <= i < |blocks| - 1 ==> Front(blocks)[i] == blocks[i] && Front(numbers)[i] == numbers[i];
    if && NumbersRight(Front(blocks), Front(numbers), cutoff)
       && (Last(blocks).timestamp >= cutoff ==> Last(numbers) == Last(blocks).number)
    {
      forall i | 0 <= i < |blocks| && blocks[i].timestamp >= cutoff ensures numbers[i] == blocks[i].number {
        if i < |blocks| - 1 {
          assert Front(blocks)[i].timestamp >= cutoff;
        }
      }
    }
  }

  lemma {:induction false} NumberedFront(blocks: seq<Block>, numbers: seq<nat>)
    requires |numbers| == |blocks| && blocks != []
    ensures Front(Numbered(blocks, numbers)) == Numbered(Front(blocks), Front(numbers))
    ensures Last(Numbered(blocks, numbers)) == Last(blocks).(number := Last(numbers))
  {
  }

  /** Only the window shows numbers, and it shows a block's own where that is passed. */
  lemma {:induction false} NumberedRecentIff(blocks: seq<Block>, numbers: seq<nat>, cutoff: nat, attribute: Attribution)
    requires |numbers| == |blocks|
    ensures |RecentOf(Numbered(blocks, numbers), cutoff, attribute)| == |RecentOf(blocks, cutoff, attribute)|
    ensures RecentOf(Numbered(blocks, numbers), cutoff, attribute) == RecentOf(blocks, cutoff, attribute)
            <==> NumbersRight(blocks, numbers, cutoff)
  {
    if blocks != [] {
      NumberedFront(blocks, numbers);
      RightFront(blocks, numbers, cutoff);
      NumberedRecentIff(Front(blocks), Front(numbers), cutoff, attribute);
      var a, b := RecentOf(Numbered(Front(blocks), Front(numbers)), cutoff, attribute), RecentOf(Front(blocks), cutoff, attribute);
      var x, y := AsRecent(Last(blocks).(number := Last(numbers)), attribute), AsRecent(Last(blocks), attribute);
      if Last(blocks).timestamp >= cutoff {
        SameHalves(a, [x], b, [y]);
        assert [x] == [y] <==> x == y;
      } else {
        assert a + [] == a && b + [] == b;
      }
    }
  }

  lemma {:induction false} NumberedMined(blocks: seq<Block>, numbers: seq<nat>, m: MinerId, attribute: Attribution)
    requires |numbers| == |blocks|
    ensures MinedBy(Numbered(blocks, numbers), m, attribute) == MinedBy(blocks, m, attribute)
  {
    if blocks != [] {
      NumberedFront(blocks, numbers);
      NumberedMined(Front(blocks), Front(numbers), m, attribute);
    }
  }

  lemma {:induction false} NumberedAttributed(m: map<Hash, MinerId>, blocks: seq<Block>, numbers: seq<nat>, attribute: Attribution)
    requires |numbers| == |blocks|
    ensures Attributed(m, Numbered(blocks, numbers), attribute) == Attributed(m, blocks, attribute)
  {
    if blocks != [] {
      NumberedFront(blocks, numbers);
      NumberedAttributed(m, Front(blocks), Front(numbers), attribute);
    }
  }

  lemma {:induction false} NumberedLists(blocks: seq<Block>, numbers: seq<nat>, miners: set<MinerId>, attribute: Attribution)
    requires |numbers| == |blocks|
    ensures MinedLists(Numbered(blocks, numbers), miners, attribute) == MinedLists(blocks, miners, attribute)
  {
    forall m | m in miners ensures MinedBy(Numbered(blocks, numbers), m, attribute) == MinedBy(blocks, m, attribute) {
      NumberedMined(blocks, numbers, m, attribute);
    }
  }

  // ---------------------------------------------------------------- kept up and recomputed

  lemma {:induction false} MinedListsConcat(a: seq<Block>, b: seq<Block>, miners: set<MinerId>, attribute: Attribution)
    ensures Joined(MinedLists(a, miners, attribute), MinedLists(b, miners, attribute)) == MinedLists(a + b, miners, attribute)
  {
    forall m | m in miners ensures MinedBy(a + b, m, attribute) == MinedBy(a, m, attribute) + MinedBy(b, m, attribute) {
      MinedByConcat(a, b, m, attribute);
    }
  }

  lemma {:induction false} OnlyTheWindow(before: Stats, batch: seq<Block>, after: Stats, miners: set<MinerId>, attribute: Attribution)
    requires batch != [] && Dated(batch) && before.mined.Keys == miners
    requires after.counts == Tallies(after.recent, miners)
    requires after.mined == Joined(before.mined, MinedLists(batch, miners, attribute))
    requires after.blockMiners == Attributed(before.blockMiners, batch, attribute)
    ensures ExtendedBy(before, batch, miners, attribute) == after
            <==> DropOld(before.recent, Cutoff(batch)) + RecentOf(batch, Cutoff(batch), attribute) == after.recent
  {
  }

  /** Lists and attributions of the longer chain are always kept right, whatever becomes of the window. */
  lemma {:induction false} KeptIff(chain: seq<Block>, batch: seq<Block>, numbers: seq<nat>, miners: set<MinerId>, attribute: Attribution)
    requires Dated(chain) && IsBatch(batch, numbers)
    ensures Last(chain + batch) == Last(batch)
    ensures Extended(Recomputed(chain, miners, attribute), batch, numbers, miners, attribute)
            == Recomputed(chain + batch, miners, attribute)
            <==> (DropOld(RecentOf(chain, Cutoff(chain), attribute), Cutoff(batch))
                    + RecentOf(Numbered(batch, numbers), Cutoff(batch), attribute)
                  == RecentOf(chain + batch, Cutoff(batch), attribute))
  {
    SameEnd(chain, batch, Numbered(batch, numbers));
    RestIsKept(chain, batch, numbers, Numbered(batch, numbers), miners, attribute);
    KeptByIff(chain, Numbered(batch, numbers), chain + batch, miners, attribute);
  }

  lemma {:induction false} SameEnd(chain: seq<Block>, batch: seq<Block>, passed: seq<Block>)
    requires batch != [] && Dated(batch) && passed != [] && Last(passed).timestamp == Last(batch).timestamp
    ensures Last(chain + batch) == Last(batch) && Dated(chain + batch) && Dated(passed)
    ensures Cutoff(chain + batch) == Cutoff(batch) == Cutoff(passed)
  {
  }

  lemma {:induction false} KeptByIff(chain: seq<Block>, passed: seq<Block>, whole: seq<Block>, miners: set<MinerId>, attribute: Attribution)
    requires Dated(chain) && passed != [] && Dated(passed) && Dated(whole) && Cutoff(whole) == Cutoff(passed)
    requires MinedLists(whole, miners, attribute) == Joined(MinedLists(chain, miners, attribute), MinedLists(passed, miners, attribute))
    requires Attributed(map[], whole, attribute) == Attributed(Attributed(map[], chain, attribute), passed, attribute)
    ensures ExtendedBy(Recomputed(chain, miners, attribute), passed, miners, attribute) == Recomputed(whole, miners, attribute)
            <==> (DropOld(RecentOf(chain, Cutoff(chain), attribute), Cutoff(passed)) + RecentOf(passed, Cutoff(passed), attribute)
                  == RecentOf(whole, Cutoff(passed), attribute))
  {
    OnlyTheWindow(Recomputed(chain, miners, attribute), passed, Recomputed(whole, miners, attribute), miners, attribute);
  }

  lemma {:induction false} RestIsKept(chain: seq<Block>, batch: seq<Block>, numbers: seq<nat>, passed: seq<Block>,
                                      miners: set<MinerId>, attribute: Attribution)
    requires |numbers| == |batch| && passed == Numbered(batch, numbers)
    ensures MinedLists(chain + batch, miners, attribute)
         == Joined(MinedLists(chain, miners, attribute), MinedLists(passed, miners, attribute))
    ensures Attributed(map[], chain + batch, attribute) == Attributed(Attributed(map[], chain, attribute), passed, attribute)
  {
    MinedListsConcat(chain, batch, miners, attribute);
    NumberedLists(batch, numbers, miners, attribute);
    AttributedConcat(map[], chain, batch, attribute);
    NumberedAttributed(Attributed(map[], chain, attribute), batch, numbers, attribute);
  }

  /** With one way to read texts, a kept window is the recomputed one exactly when it moves on in order and its new blocks
      are passed under their own numbers. */
  lemma {:induction false} MovedOnIff(chain: seq<Block>, batch: seq<Block>, numbers: seq<nat>, miners: set<MinerId>, attribute: Attribution)
    requires Dated(chain) && IsBatch(batch, numbers)
    ensures Last(chain + batch) == Last(batch)
    ensures Extended(Recomputed(chain, miners, attribute), batch, numbers, miners, attribute)
            == Recomputed(chain + batch, miners, attribute)
            <==> WindowMovesOn(chain, batch, attribute) && NumbersRight(batch, numbers, Cutoff(batch))
  {
    var cutoff := Cutoff(batch);
    WindowIff(chain, batch, attribute);
    KeptIff(chain, batch, numbers, miners, attribute);
    RecentOfConcat(chain, batch, cutoff, attribute);
    NumberedRecentIff(batch, numbers, cutoff, attribute);
    SameHalves(DropOld(RecentOf(chain, Cutoff(chain), attribute), cutoff), RecentOf(Numbered(batch, numbers), cutoff, attribute),
               RecentOf(chain, cutoff, attribute), RecentOf(batch, cutoff, attribute));
  }

  /**
   * Extending the statistics of a chain by a batch gives those recomputed of the longer chain exactly when the window
   * moves on in order, every new block in it is passed under its own number, and every new block is attributed by its
   * bytes as by its stored text.
   */
  lemma {:induction false} ExtendedIsRecomputedIff(chain: seq<Block>, batch: seq<Block>, numbers: seq<nat>, miners: set<MinerId>,
                                                   attribute: Attribution, storage: Storage)
    requires Dated(chain) && IsBatch(batch, numbers) && DistinctHashes(batch)
    ensures Last(chain + batch) == Last(batch)
    ensures Extended(Recomputed(chain, miners, Stored(attribute, storage)), batch, numbers, miners, attribute)
            == Recomputed(chain + batch, miners, Stored(attribute, storage))
            <==> && WindowMovesOn(chain, batch, Stored(attribute, storage))
                 && NumbersRight(batch, numbers, Cutoff(batch))
                 && ReadAlike(batch, attribute, Stored(attribute, storage))
  {
    var stored := Stored(attribute, storage);
    var s := Recomputed(chain, miners, stored);
    MovedOnIff(chain, batch, numbers, miners, stored);
    AttributedConcat(map[], chain, batch, stored);
    NumberedAttributed(s.blockMiners, batch, numbers, attribute);
    AlikeIff(s.blockMiners, batch, attribute, stored);
    if ReadAlike(batch, attribute, stored) {
      ExtendedAlike(s, Numbered(batch, numbers), miners, attribute, stored);
    }
  }

  // ---------------------------------------------------------------- whole runs

  ghost predicate AreBatches(batches: seq<seq<Block>>, numbers: seq<seq<nat>>) {
    && |numbers| == |batches|
    && forall i :: 0 <= i < |batches| ==> IsBatch(batches[i], numbers[i])
  }

  /** Kept up over several batches. */
  ghost function ExtendedAll(s: Stats, batches: seq<seq<Block>>, numbers: seq<seq<nat>>, miners: set<MinerId>,
                             attribute: Attribution): Stats
    requires s.mined.Keys == miners && AreBatches(batches, numbers)
    decreases |batches|
  {
    if batches == [] then s
    else ExtendedAll(Extended(s, batches[0], numbers[0], miners, attribute), batches[1..], numbers[1..], miners, attribute)
  }

  lemma {:induction false} FlattenLengths(batches: seq<seq<Block>>, numbers: seq<seq<nat>>)
    requires AreBatches(batches, numbers)
    ensures |Flatten(numbers)| == |Flatten(batches)|
    decreases |batches|
  {
    if batches != [] {
      FlattenLengths(batches[1..], numbers[1..]);
    }
  }

  lemma {:induction false} NumberedConcat(a: seq<Block>, m: seq<nat>, b: seq<Block>, n: seq<nat>)
    requires |m| == |a| && |n| == |b|
    ensures Numbered(a + b, m + n) == Numbered(a, m) + Numbered(b, n)
  {
  }

  lemma {:induction false} PrefixInOrder(a: seq<Block>, b: seq<Block>)
    requires NonDecreasing(a + b)
    ensures NonDecreasing(a)
  {
    assert forall i :: 0 <= i < |a| ==> (a + b)[i] == a[i];
  }

  lemma {:induction false} AlikeConcat(a: seq<Block>, b: seq<Block>, x: Attribution, y: Attribution)
    requires ReadAlike(a + b, x, y)
    ensures ReadAlike(a, x, y) && ReadAlike(b, x, y)
  {
    assert forall i :: 0 <= i < |a| ==> (a + b)[i] == a[i];
    assert forall i :: 0 <= i < |b| ==> (a + b)[|a| + i] == b[i];
  }

  lemma {:induction false} InOrderMovesOn(chain: seq<Block>, batch: seq<Block>, attribute: Attribution)
    requires Dated(chain) && Dated(batch) && batch != [] && NonDecreasing(chain + batch)
    ensures WindowMovesOn(chain, batch, attribute)
  {
    if chain != [] {
      assert (chain + batch)[|chain| - 1] == Last(chain) && (chain + batch)[|chain + batch| - 1] == Last(batch);
      assert forall i :: 0 <= i < |chain| ==> (chain + batch)[i] == chain[i];
      RecentInOrder(chain, Cutoff(chain), attribute);
    }
  }

  lemma {:induction false} OwnNumbers(blocks: seq<Block>, numbers: seq<nat>)
    requires |numbers| == |blocks| && forall i :: 0 <= i < |blocks| ==> numbers[i] == blocks[i].number
    ensures Numbered(blocks, numbers) == blocks
  {
  }

  /** With timestamps in order, extending by a batch is recomputing with the numbers passed for it. */
  lemma {:induction false} InOrderExtended(chain: seq<Block>, batch: seq<Block>, miners: set<MinerId>, raw: Attribution, stored: Attribution)
    requires Dated(chain) && Dated(batch) && batch != [] && NonDecreasing(chain + batch) && ReadAlike(batch, raw, stored)
    ensures Last(chain + batch) == Last(batch)
    ensures ExtendedBy(Recomputed(chain, miners, stored), batch, miners, raw) == Recomputed(chain + batch, miners, stored)
  {
    var own := seq(|batch|, i requires 0 <= i < |batch| => batch[i].number);
    OwnNumbers(batch, own);
    InOrderMovesOn(chain, batch, stored);
    MovedOnIff(chain, batch, own, miners, stored);
    ExtendedAlike(Recomputed(chain, miners, stored), batch, miners, raw, stored);
  }

  /** Over a run, the statistics are those recomputed with the numbers passed. */
  lemma {:induction false} RunIsNumbered(chain: seq<Block>, batches: seq<seq<Block>>, numbers: seq<seq<nat>>, miners: set<MinerId>,
                                         raw: Attribution, stored: Attribution)
    requires Dated(chain) && AreBatches(batches, numbers) && |Flatten(numbers)| == |Flatten(batches)|
    requires NonDecreasing(chain + Numbered(Flatten(batches), Flatten(numbers))) && ReadAlike(Flatten(batches), raw, stored)
    ensures Dated(chain + Numbered(Flatten(batches), Flatten(numbers)))
    ensures ExtendedAll(Recomputed(chain, miners, stored), batches, numbers, miners, raw)
         == Recomputed(chain + Numbered(Flatten(batches), Flatten(numbers)), miners, stored)
    decreases |batches|
  {
    if batches == [] {
      assert chain + Numbered(Flatten(batches), Flatten(numbers)) == chain;
    } else {
      FlattenLengths(batches[1..], numbers[1..]);
      var first, rest := Numbered(batches[0], numbers[0]), Numbered(Flatten(batches[1..]), Flatten(numbers[1..]));
      NumberedConcat(batches[0], numbers[0], Flatten(batches[1..]), Flatten(numbers[1..]));
      ConcatAssociative(chain, first, rest);
      PrefixInOrder(chain + first, rest);
      AlikeConcat(batches[0], Flatten(batches[1..]), raw, stored);
      InOrderExtended(chain, first, miners, raw, stored);
      RunIsNumbered(chain + first, batches[1..], numbers[1..], miners, raw, stored);
    }
  }

  lemma {:induction false} RunAttributes(s: Stats, batches: seq<seq<Block>>, numbers: seq<seq<nat>>, miners: set<MinerId>, attribute: Attribution)
    requires s.mined.Keys == miners && AreBatches(batches, numbers)
    ensures ExtendedAll(s, batches, numbers, miners, attribute).blockMiners == Attributed(s.blockMiners, Flatten(batches), attribute)
    decreases |batches|
  {
    if batches != [] {
      NumberedAttributed(s.blockMiners, batches[0], numbers[0], attribute);
      RunAttributes(Extended(s, batches[0], numbers[0], miners, attribute), batches[1..], numbers[1..], miners, attribute);
      AttributedConcat(s.blockMiners, batches[0], Flatten(batches[1..]), attribute);
    }
  }

  /** What was recomputed with other numbers is right exactly when they are right in the window. */
  lemma {:induction false} RenumberedIff(chain: seq<Block>, news: seq<Block>, numbers: seq<nat>, miners: set<MinerId>, attribute: Attribution)
    requires |numbers| == |news| && Dated(chain + news)
    ensures Dated(chain + Numbered(news, numbers))
    ensures Recomputed(chain + Numbered(news, numbers), miners, attribute) == Recomputed(chain + news, miners, attribute)
            <==> NumbersRight(news, numbers, Cutoff(chain + news))
  {
    var renamed := Numbered(news, numbers);
    if news != [] {
      assert Last(chain + renamed) == Last(renamed) && Last(chain + news) == Last(news);
    } else {
      assert chain + renamed == chain + news;
    }
    var cutoff := Cutoff(chain + news);
    RecentOfConcat(chain, news, cutoff, attribute);
    RecentOfConcat(chain, renamed, cutoff, attribute);
    NumberedRecentIff(news, numbers, cutoff, attribute);
    SameHalves(RecentOf(chain, cutoff, attribute), RecentOf(renamed, cutoff, attribute),
               RecentOf(chain, cutoff, attribute), RecentOf(news, cutoff, attribute));
    SameRest(chain, news, numbers, miners, attribute);
  }

  lemma {:induction false} SameRest(chain: seq<Block>, news: seq<Block>, numbers: seq<nat>, miners: set<MinerId>, attribute: Attribution)
    requires |numbers| == |news|
    ensures MinedLists(chain + Numbered(news, numbers), miners, attribute) == MinedLists(chain + news, miners, attribute)
    ensures Attributed(map[], chain + Numbered(news, numbers), attribute) == Attributed(map[], chain + news, attribute)
  {
    MinedListsConcat(chain, news, miners, attribute);
    MinedListsConcat(chain, Numbered(news, numbers), miners, attribute);
    NumberedLists(news, numbers, miners, attribute);
    AttributedConcat(map[], chain, news, attribute);
    AttributedConcat(map[], chain, Numbered(news, numbers), attribute);
    NumberedAttributed(Attributed(map[], chain, attribute), news, numbers, attribute);
  }

  lemma {:induction false} NumberedInOrder(chain: seq<Block>, news: seq<Block>, numbers: seq<nat>)
    requires |numbers| == |news| && NonDecreasing(chain + news)
    ensures NonDecreasing(chain + Numbered(news, numbers))
  {
    var a, b := chain + news, chain + Numbered(news, numbers);
    forall i | 0 <= i < |a| ensures b[i].timestamp == a[i].timestamp {
      if i >= |chain| {
        assert b[i] == news[i - |chain|].(number := numbers[i - |chain|]);
      }
    }
  }

  lemma {:induction false} RunIsDated(chain: seq<Block>, batches: seq<seq<Block>>, numbers: seq<seq<nat>>)
    requires Dated(chain) && AreBatches(batches, numbers)
    ensures Dated(chain + Flatten(batches))
    decreases |batches|
  {
    if batches == [] {
      assert chain + Flatten(batches) == chain;
    } else {
      ConcatAssociative(chain, batches[0], Flatten(batches[1..]));
      assert Last(chain + batches[0]) == Last(batches[0]);
      RunIsDated(chain + batches[0], batches[1..], numbers[1..]);
    }
  }

  /**
   * Over a whole run of batches with timestamps that never go back, from any statistics recomputed before it, the kept
   * statistics are the recomputed ones exactly when every new block is attributed by its bytes as by its stored text, and
   * every new block that is still in the window at the end was passed under its own number.
   */
  lemma {:induction false} RunIsRecomputedIff(chain: seq<Block>, batches: seq<seq<Block>>, numbers: seq<seq<nat>>, miners: set<MinerId>,
                                              attribute: Attribution, storage: Storage)
    requires Dated(chain) && AreBatches(batches, numbers)
    requires NonDecreasing(chain + Flatten(batches)) && DistinctHashes(Flatten(batches))
    ensures Dated(chain + Flatten(batches)) && |Flatten(numbers)| == |Flatten(batches)|
    ensures ExtendedAll(Recomputed(chain, miners, Stored(attribute, storage)), batches, numbers, miners, attribute)
            == Recomputed(chain + Flatten(batches), miners, Stored(attribute, storage))
            <==> && ReadAlike(Flatten(batches), attribute, Stored(attribute, storage))
                 && NumbersRight(Flatten(batches), Flatten(numbers), Cutoff(chain + Flatten(batches)))
  {
    var stored := Stored(attribute, storage);
    var s, news := Recomputed(chain, miners, stored), Flatten(batches);
    RunIsDated(chain, batches, numbers);
    FlattenLengths(batches, numbers);
    if ReadAlike(news, attribute, stored) {
      NumberedInOrder(chain, news, Flatten(numbers));
      RunIsNumbered(chain, batches, numbers, miners, attribute, stored);
      RenumberedIff(chain, news, Flatten(numbers), miners, stored);
    } else {
      RunAttributes(s, batches, numbers, miners, attribute);
      AttributedConcat(map[], chain, news, stored);
      AlikeIff(s.blockMiners, news, attribute, stored);
    }
  }

  // ---------------------------------------------------------------- where they differ

  /** A block that had left the window and is back in it is missed. */
  lemma {:induction false} MissedWhenBack(chain: seq<Block>, batch: seq<Block>, numbers: seq<nat>, i: nat, miners: set<MinerId>,
                                          attribute: Attribution, storage: Storage)
    requires Dated(chain) && IsBatch(batch, numbers)
    requires i < |chain| && Cutoff(batch) <= chain[i].timestamp < Cutoff(chain) && DistinctHashes(batch)
    ensures Last(chain + batch) == Last(batch)
    ensures Extended(Recomputed(chain, miners, Stored(attribute, storage)), batch, numbers, miners, attribute)
            != Recomputed(chain + batch, miners, Stored(attribute, storage))
  {
    ExtendedIsRecomputedIff(chain, batch, numbers, miners, attribute, storage);
  }

  predicate RealDates(blocks: seq<Block>) {
    forall i :: 0 <= i < |blocks| ==> 1_700_000_000 <= blocks[i].timestamp < 1_800_000_000
  }

  lemma {:induction false} ThreeBlocks(hashes: seq<Hash>, coinbase: seq<Byte>)
      returns (chain: seq<Block>, batch: seq<Block>, numbers: seq<nat>)
    requires |hashes| == 3 && (forall i, j :: 0 <= i < j < 3 ==> hashes[i] != hashes[j])
    ensures |chain| == 2 && |batch| == 1 && Dated(chain) && IsBatch(batch, numbers) && NumbersRight(batch, numbers, 0)
    ensures DistinctHashes(chain + batch) && DistinctHashes(batch) && RealDates(chain + batch)
    ensures forall i :: 0 <= i < 3 ==> (chain + batch)[i].coinbase == coinbase
    ensures Cutoff(batch) <= chain[0].timestamp < Cutoff(chain)
  {
    var start := 1_700_000_000;
    var a, b := Block(hashes[0], 800_000, start + 7, coinbase), Block(hashes[1], 800_001, start + WINDOW + 10, coinbase);
    var c := Block(hashes[2], 800_002, start + WINDOW + 5, coinbase);
    chain, batch, numbers := [a, b], [c], [800_002];
    assert chain + batch == [a, b, c];
  }

  /** A block dated a little earlier than the one before it moves the window back, and a dropped block is missed. */
  lemma {:induction false} WindowCanMoveBack(hashes: seq<Hash>, coinbase: seq<Byte>, miners: set<MinerId>,
                                             attribute: Attribution, storage: Storage)
      returns (chain: seq<Block>, batch: seq<Block>, numbers: seq<nat>)
    requires |hashes| == 3 && (forall i, j :: 0 <= i < j < 3 ==> hashes[i] != hashes[j])
    requires attribute(storage(coinbase)) == attribute(coinbase)
    ensures Dated(chain) && IsBatch(batch, numbers)
    ensures Last(chain + batch) == Last(batch) && DistinctHashes(chain + batch) && RealDates(chain + batch)
    ensures NumbersRight(batch, numbers, 0) && ReadAlike(chain + batch, attribute, Stored(attribute, storage))
    ensures Extended(Recomputed(chain, miners, Stored(attribute, storage)), batch, numbers, miners, attribute)
            != Recomputed(chain + batch, miners, Stored(attribute, storage))
  {
    chain, batch, numbers := ThreeBlocks(hashes, coinbase);
    assert ReadAlike(chain + batch, attribute, Stored(attribute, storage));
    MissedWhenBack(chain, batch, numbers, 0, miners, attribute, storage);
  }

  /** While nothing leaves the window, a block of one miner lowers the share that older blocks of any other are credited with. */
  lemma {:induction false} ShareMovesOn(s: Stats, b: Block, number: nat, h: Hash, miners: set<MinerId>, attribute: Attribution)
    requires CountsAreTallies(s, miners) && Dated([b]) && h in s.blockMiners && s.blockMiners[h] in miners && h != b.hash
    requires s.counts[s.blockMiners[h]] > 0 && attribute(b.coinbase) != s.blockMiners[h]
    requires forall i :: 0 <= i < |s.recent| ==> s.recent[i].timestamp >= Cutoff([b])
    ensures var s' := Extended(s, [b], [number], miners, attribute);
      && h in s'.blockMiners && s'.blockMiners[h] == s.blockMiners[h] && s'.blockMiners[h] in s'.counts
      && CreditOf(s', h).value.share < CreditOf(s, h).value.share
  {
    NothingDropped(s.recent, Cutoff([b]));
    var passed := b.(number := number);
    assert Numbered([b], [number]) == [passed] && Front([passed]) == [];
    OneAttributed(s.blockMiners, passed, attribute);
    assert RecentOf([passed], Cutoff([passed]), attribute) == [] + [AsRecent(passed, attribute)];
    assert Front(s.recent + [AsRecent(passed, attribute)]) == s.recent;
    SmallerPart(s.counts[s.blockMiners[h]], |s.recent|);
  }

  lemma {:induction false} SmallerPart(count: nat, total: nat)
    requires count > 0 && total > 0
    ensures count as real / (total + 1) as real < count as real / total as real
  {
  }

  /** Only the blocks given are attributed. */
  lemma {:induction false} OnlyTheseAttributed(m: map<Hash, MinerId>, blocks: seq<Block>, attribute: Attribution, h: Hash)
    requires forall i :: 0 <= i < |blocks| ==> blocks[i].hash != h
    ensures h in Attributed(m, blocks, attribute) <==> h in m
  {
    if blocks != [] {
      OnlyTheseAttributed(m, Front(blocks), attribute, h);
    }
  }

  /** A sibling that takes over the top is queued as an extension: the block it replaces stays in the statistics. */
  lemma {:induction false} ReplacedStaysCounted(before: seq<Block>, after: seq<Block>, b: Block, number: nat, miners: set<MinerId>,
                                                raw: Attribution, stored: Attribution)
    requires before != [] && Dated(before) && after != [] && Last(after) == b && Dated([b])
    requires forall i :: 0 <= i < |after| ==> after[i].hash != Last(before).hash
    ensures var kept := Extended(Recomputed(before, miners, stored), [b], [number], miners, raw);
            Last(before).hash in kept.blockMiners && Last(before).hash !in Recomputed(after, miners, stored).blockMiners
  {
    OneAttributed(Attributed(map[], before, stored), b.(number := number), raw);
    OnlyTheseAttributed(map[], after, stored, Last(before).hash);
  }

  lemma {:induction false} OneAttributed(m: map<Hash, MinerId>, b: Block, attribute: Attribution)
    ensures Attributed(m, [b], attribute) == m[b.hash := attribute(b.coinbase)]
  {
    assert Front([b]) == [];
  }

  /** A block passed under another number than its own shows that number. */
  lemma {:induction false} MisnumberedShows(s: Stats, chain: seq<Block>, b: Block, number: nat, miners: set<MinerId>,
                                            raw: Attribution, stored: Attribution)
    requires s.mined.Keys == miners && chain != [] && Last(chain) == b && Dated([b])
    ensures Dated(chain)
    ensures var kept, recomputed := Extended(s, [b], [number], miners, raw).recent, Recomputed(chain, miners, stored).recent;
      && kept != [] && Last(kept).number == number
      && recomputed != [] && Last(recomputed).number == b.number
  {
    var passed := b.(number := number);
    assert Numbered([b], [number]) == [passed] && Front([passed]) == [];
    assert RecentOf([passed], Cutoff([passed]), raw) == [] + [AsRecent(passed, raw)];
  }

  const LETTER_A: Byte := 0x61
  const LETTER_B: Byte := 0x62

  /** The rule a.b: a dot stands for one character other than a line feed. */
  ghost predicate MatchesDot(text: seq<Byte>) {
    exists i :: 0 <= i < |text| && text[i] == LETTER_A && DotBefore(text[i + 1..])
  }

  predicate DotBefore(text: seq<Byte>) {
    && Utf8.HasChar(text) && text[0] != 0x0A
    && Utf8.Span(text) < |text| && text[Utf8.Span(text)] == LETTER_B
  }

  ghost function DotRule(pool: MinerId): Attribution {
    (coinbase: seq<Byte>) => if MatchesDot(coinbase) then pool else UNKNOWN_ID
  }

  const ODD_BYTE: seq<Byte> := [LETTER_A, 0xFF, LETTER_B]

  /** The byte 0xFF is no character, and what is stored for it is one. */
  lemma {:induction false} OddByteIsReadTwice()
    ensures !MatchesDot(ODD_BYTE) && MatchesDot(Utf8.Lossy(ODD_BYTE))
  {
    assert ODD_BYTE[1..] == [0xFF, LETTER_B] && ODD_BYTE[2..] == [LETTER_B] && ODD_BYTE[3..] == [];
    assert Utf8.Span(ODD_BYTE) == 1 && Utf8.Span(ODD_BYTE[1..]) == 1;
    assert ODD_BYTE[1..][1..] == [LETTER_B] && ODD_BYTE[2..][1..] == [];
    assert Utf8.Lossy(ODD_BYTE[3..]) == [];
    assert Utf8.Lossy(ODD_BYTE[2..]) == [LETTER_B];
    assert Utf8.Lossy(ODD_BYTE[1..]) == Utf8.REPLACEMENT + [LETTER_B];
    var stored := Utf8.Lossy(ODD_BYTE);
    assert stored == [LETTER_A, 0xEF, 0xBF, 0xBD, LETTER_B];
    assert DotBefore(stored[1..]);
    assert stored[0] == LETTER_A;
  }

  /** A block with that text is of no known miner when it arrives, and the pool's once the statistics are recomputed. */
  lemma {:induction false} OddByteIsCountedTwice(chain: seq<Block>, b: Block, miners: set<MinerId>, pool: MinerId)
    requires Dated(chain) && Dated([b])
    requires b.coinbase == ODD_BYTE && pool != UNKNOWN_ID
    ensures Last(chain + [b]) == b
    ensures var before := Recomputed(chain, miners, Stored(DotRule(pool), Utf8.Lossy));
            var kept := Extended(before, [b], [b.number], miners, DotRule(pool));
            var recomputed := Recomputed(chain + [b], miners, Stored(DotRule(pool), Utf8.Lossy));
            && b.hash in kept.blockMiners && b.hash in recomputed.blockMiners
            && kept.blockMiners[b.hash] == UNKNOWN_ID && recomputed.blockMiners[b.hash] == pool
  {
    OddByteIsReadTwice();
    assert Front(chain + [b]) == chain;
    assert Numbered([b], [b.number]) == [b];
    OneAttributed(Attributed(map[], chain, Stored(DotRule(pool), Utf8.Lossy)), b, DotRule(pool));
  }

  /** Where every text is UTF-8 already, nothing is read twice. */
  lemma {:induction false} TextsAreReadAlike(blocks: seq<Block>, attribute: Attribution)
    requires forall i :: 0 <= i < |blocks| ==> Utf8.IsText(blocks[i].coinbase)
    ensures ReadAlike(blocks, attribute, Stored(attribute, Utf8.Lossy))
  {
    forall i | 0 <= i < |blocks| ensures attribute(blocks[i].coinbase) == Stored(attribute, Utf8.Lossy)(blocks[i].coinbase) {
      Utf8.LossyKeepsIff(blocks[i].coinbase);
    }
  }
}
