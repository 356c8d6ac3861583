/** Runs of blocks connected at the tip and disconnected again, through the caches and with the undo data in files
    (ConnectTip and DisconnectTip in src/main.cpp). */
module TipRuns {
  import opened Transactions
  import opened CoinMap
  import opened CoinsView
  import opened Utxo
  import opened UndoProof
  import opened UndoExact
  import opened Supply
  import opened BlockUndo
  import opened CoinsTip
  import opened ScriptCodec
  import opened CoinsStream
  import opened UndoReread
  import opened UndoFile
  import opened UndoFits
  import ChainSteps

  /** What a node needs to know beside its coins: public key arithmetic, and the checksum of undo files. */
  datatype Setup = Setup(maturity: int, curve: Curve, hash: (Hash, seq<byte>) -> Digest)

  ghost predicate TipOk(tip: CoinsViewCache, curve: Curve)
    reads tip, tip.Repr
  {
    tip.Valid() && tip.modifier == None && CoinsOk(tip.View(), curve)
  }

  ghost predicate CoinsOk(m: CoinMap, curve: Curve) {
    Sound(m) && MapFits(m, curve)
  }

  ghost predicate BlockOk(txs: seq<Tx>, curve: Curve) {
    txs != [] && !txs[0].SpendsCoins() && PlainInputs(txs) && BlockFits(txs, curve)
  }

  /** The height of block i of a run that starts at the given height. */
  function HeightOf(height: int, i: nat): int {
    height + i
  }

  /** Connects a block and writes its undo file. */
  method ConnectStored(tip: CoinsViewCache, txs: seq<Tx>, hashPrev: Hash, hash: Hash, height: int, setup: Setup)
    returns (file: Option<seq<byte>>)
    requires TipOk(tip, setup.curve) && BlockOk(txs, setup.curve)
    requires 0 < height < HEIGHTS && hash != 0
    modifies tip.Repr
    ensures tip.Valid() && tip.modifier == None
    ensures match Connect(old(tip.View()), txs, height, setup.maturity)
            case Rejected(_) => file == None && tip.AllLevels() == old(tip.AllLevels())
            case Connected(after, us) =>
              && us != [] && us[0] == [] && AllWritable(us[1..])
              && file == Some(WriteToDisk(us[1..], hashPrev, setup.curve, setup.hash))
              && tip.AllLevels() == Layer(after, hash, old(tip.LevelsBelow()))
  {
    ghost var m := tip.View();
    var result := ConnectTip(tip, txs, hash, height, setup.maturity);
    if result.BlockRejected? {
      return None;
    }
    BlockUndoFits(m, txs, height, setup.maturity, setup.curve);
    ghost var us := Connect(m, txs, height, setup.maturity).undo;
    assert us[1..] == result.vtxundo;
    var s := WriteUndoFile(result.vtxundo, hashPrev, setup.curve, setup.hash);
    return Some(s);
  }

  /** Disconnects a block with the undo data in its file. */
  method DisconnectStored(tip: CoinsViewCache, txs: seq<Tx>, hashPrev: Hash, height: int, file: seq<byte>, setup: Setup)
    returns (ok: bool)
    requires tip.Valid() && tip.modifier == None && hashPrev != 0
    requires txs != [] && !txs[0].SpendsCoins()
    modifies tip.Repr
    ensures tip.Valid() && tip.modifier == None
    ensures match Undoing(old(tip.View()), txs, height, ReadFromDisk(file, hashPrev, setup.curve, setup.hash))
            case None => !ok && tip.AllLevels() == old(tip.AllLevels())
            case Some(before) => ok && tip.AllLevels() == Layer(before, hashPrev, old(tip.LevelsBelow()))
  {
    var v := ReadUndoFile(file, hashPrev, setup.curve, setup.hash);
    if v.None? {
      return false;
    }
    ok := DisconnectTip(tip, txs, hashPrev, height, v.value);
  }

  /** The coins after a clean disconnection. */
  function Undoing(m: CoinMap, txs: seq<Tx>, height: int, v: Option<seq<TxUndo>>): Option<CoinMap> {
    if v.None? || |v.value| + 1 != |txs| then None
    else
      var r := Disconnect(Restored(m, true, true), txs, height, [[]] + v.value);
      if r.None? || !r.value.clean then None else Some(r.value.view)
  }

  /** One block of a run: the coins before and after it and its undo file. */
  ghost predicate StoredBlock(before: CoinMap, txs: seq<Tx>, after: CoinMap, file: seq<byte>, hashPrev: Hash,
                              height: int, setup: Setup)
  {
    && CoinsOk(before, setup.curve) && BlockOk(txs, setup.curve) && 0 < height < HEIGHTS
    && var c := Connect(before, txs, height, setup.maturity);
       && c.Connected? && c.view == after && c.undo != [] && c.undo[0] == [] && AllWritable(c.undo[1..])
       && file == WriteToDisk(c.undo[1..], hashPrev, setup.curve, setup.hash)
  }

  /** The file gives the undo data as they are read back. */
  lemma FileOfBlock(before: CoinMap, txs: seq<Tx>, after: CoinMap, file: seq<byte>, hashPrev: Hash, height: int,
                    setup: Setup)
    requires StoredBlock(before, txs, after, file, hashPrev, height, setup)
    ensures var us := Connect(before, txs, height, setup.maturity).undo;
            var v := ReadFromDisk(file, hashPrev, setup.curve, setup.hash);
            v.Some? && |us| == |txs| && [[]] + v.value == RereadBlock(us)
  {
    var us := Connect(before, txs, height, setup.maturity).undo;
    BlockUndoFits(before, txs, height, setup.maturity, setup.curve);
    FileRoundTrip(us[1..], hashPrev, [], setup.curve, setup.hash);
    assert file + [] == file;
    RereadBlockHead(us);
    assert RereadTx(us[0]) == [];
  }

  /** What disconnecting the block does to coins from which the blocks after it were disconnected in the same way. */
  lemma UndoneFromFile(before: CoinMap, txs: seq<Tx>, after: CoinMap, file: seq<byte>, hashPrev: Hash, height: int,
                       setup: Setup, lost: set<Hash>)
    requires StoredBlock(before, txs, after, file, hashPrev, height, setup) && setup.maturity > 0
    ensures Undoing(Stored(after, lost), txs, height, ReadFromDisk(file, hashPrev, setup.curve, setup.hash)) ==
            if !StakesKnown(txs, height, lost) then None
            else Some(Stored(before, lost + LostInBlock(before, txs, height, setup.maturity)))
  {
    FileOfBlock(before, txs, after, file, hashPrev, height, setup);
    BlockAged(before, txs, height, setup.maturity, lost, true, true);
  }

  ghost predicate StoredAt(views: seq<CoinMap>, blocks: seq<seq<Tx>>, files: seq<seq<byte>>, hashes: seq<Hash>,
                           height: int, setup: Setup, i: nat, next: nat)
    requires i < |blocks| && i < |views| && next < |views| && i < |files| && i < |hashes|
  {
    StoredBlock(views[i], blocks[i], views[next], files[i], hashes[i], HeightOf(height, i), setup)
  }

  /** The first n blocks are connected: the coins before each of them and after the last, and their undo files. */
  ghost predicate Run(views: seq<CoinMap>, blocks: seq<seq<Tx>>, files: seq<seq<byte>>, hashes: seq<Hash>, height: int,
                      setup: Setup, n: nat)
  {
    && n <= |blocks| && |views| == n + 1 && |files| == n && |hashes| == |blocks| + 1
    && forall i, next {:trigger StoredAt(views, blocks, files, hashes, height, setup, i, next)} ::
         0 <= i < n && next == i + 1 ==> StoredAt(views, blocks, files, hashes, height, setup, i, next)
  }

  lemma RunGrows(views: seq<CoinMap>, blocks: seq<seq<Tx>>, files: seq<seq<byte>>, hashes: seq<Hash>, height: int,
                 setup: Setup, n: nat, after: CoinMap, file: seq<byte>)
    requires Run(views, blocks, files, hashes, height, setup, n) && n < |blocks|
    requires StoredBlock(views[n], blocks[n], after, file, hashes[n], HeightOf(height, n), setup)
    ensures Run(views + [after], blocks, files + [file], hashes, height, setup, n + 1)
  {
    var views', files' := views + [after], files + [file];
    forall i, next | 0 <= i < n + 1 && next == i + 1
      ensures StoredAt(views', blocks, files', hashes, height, setup, i, next)
    {
      assert i < n ==> StoredAt(views, blocks, files, hashes, height, setup, i, next);
    }
  }

  /** The tip's coins are those after the first n blocks. */
  ghost predicate ConnectedTo(tip: CoinsViewCache, views: seq<CoinMap>, blocks: seq<seq<Tx>>, files: seq<seq<byte>>,
                              hashes: seq<Hash>, height: int, setup: Setup, n: nat)
    reads tip, tip.Repr
  {
    && TipOk(tip, setup.curve) && Run(views, blocks, files, hashes, height, setup, n)
    && views[n] == tip.View() && tip.Best() == hashes[n]
  }

  /** The blocks of a run, and the hashes of them and of the block before. */
  ghost predicate BlocksOk(blocks: seq<seq<Tx>>, hashes: seq<Hash>, height: int, curve: Curve) {
    && |hashes| == |blocks| + 1 && (forall i :: 0 <= i < |hashes| ==> hashes[i] != 0)
    && (forall i {:trigger BlockOk(blocks[i], curve)} ::
          0 <= i < |blocks| ==> BlockOk(blocks[i], curve) && 0 < HeightOf(height, i) < HEIGHTS)
  }

  /** The next block is rejected. */
  ghost predicate StuckAt(views: seq<CoinMap>, blocks: seq<seq<Tx>>, height: int, maturity: int, n: nat)
    requires n < |views| && n < |blocks|
  {
    Connect(views[n], blocks[n], HeightOf(height, n), maturity).Rejected?
  }

  method ConnectNext(tip: CoinsViewCache, blocks: seq<seq<Tx>>, hashes: seq<Hash>, height: int, setup: Setup, n: nat,
                     files: seq<seq<byte>>, ghost views: seq<CoinMap>)
    returns (ok: bool, files': seq<seq<byte>>, ghost views': seq<CoinMap>)
    requires BlocksOk(blocks, hashes, height, setup.curve) && n < |blocks|
    requires ConnectedTo(tip, views, blocks, files, hashes, height, setup, n)
    modifies tip.Repr
    ensures tip.Valid() && tip.LevelsBelow() == old(tip.LevelsBelow())
    ensures ConnectedTo(tip, views', blocks, files', hashes, height, setup, if ok then n + 1 else n)
    ensures views'[0] == views[0]
    ensures !ok ==> StuckAt(views', blocks, height, setup.maturity, n)
  {
    assert BlockOk(blocks[n], setup.curve);
    var file := ConnectStored(tip, blocks[n], hashes[n], hashes[n + 1], HeightOf(height, n), setup);
    if file.None? {
      return false, files, views;
    }
    BlockUndoFits(views[n], blocks[n], HeightOf(height, n), setup.maturity, setup.curve);
    RunGrows(views, blocks, files, hashes, height, setup, n, tip.View(), file.value);
    return true, files + [file.value], views + [tip.View()];
  }

  lemma NothingConnected(tip: CoinsViewCache, blocks: seq<seq<Tx>>, hashes: seq<Hash>, height: int, setup: Setup)
    requires BlocksOk(blocks, hashes, height, setup.curve) && TipOk(tip, setup.curve) && tip.Best() == hashes[0]
    ensures ConnectedTo(tip, [tip.View()], blocks, [], hashes, height, setup, 0)
  {
  }

  /** Connects blocks until one is rejected. */
  method ConnectRun(tip: CoinsViewCache, blocks: seq<seq<Tx>>, hashes: seq<Hash>, height: int, setup: Setup)
    returns (n: nat, files: seq<seq<byte>>, ghost views: seq<CoinMap>)
    requires BlocksOk(blocks, hashes, height, setup.curve) && TipOk(tip, setup.curve) && tip.Best() == hashes[0]
    modifies tip.Repr
    ensures tip.Valid() && tip.LevelsBelow() == old(tip.LevelsBelow())
    ensures ConnectedTo(tip, views, blocks, files, hashes, height, setup, n) && views[0] == old(tip.View())
    ensures n < |blocks| ==> StuckAt(views, blocks, height, setup.maturity, n)
  {
    NothingConnected(tip, blocks, hashes, height, setup);
    ghost var m, below := tip.View(), tip.LevelsBelow();
    n, files, views := 0, [], [tip.View()];
    while n < |blocks|
      invariant ConnectedTo(tip, views, blocks, files, hashes, height, setup, n) && views[0] == m
      invariant tip.LevelsBelow() == below
    {
      var ok;
      ok, files, views := ConnectNext(tip, blocks, hashes, height, setup, n, files, views);
      if !ok {
        return;
      }
      n := n + 1;
    }
  }

  /** The transactions whose stake flag is lost by disconnecting all blocks from i on. */
  ghost function LostFrom(views: seq<CoinMap>, blocks: seq<seq<Tx>>, height: int, maturity: int, i: nat): set<Hash>
    requires i < |views| && i <= |blocks|
  {
    LostInChain(views[i], blocks[i..], HeightOf(height, i), maturity)
  }

  lemma LostHead(m: CoinMap, blocks: seq<seq<Tx>>, i: nat, n: nat, h: int, h': int, maturity: int)
    requires i < |blocks| && n == i + 1 && h' == h + 1 && Connect(m, blocks[i], h, maturity).Connected?
    ensures LostInChain(Connect(m, blocks[i], h, maturity).view, blocks[n..], h', maturity) +
            LostInBlock(m, blocks[i], h, maturity) == LostInChain(m, blocks[i..], h, maturity)
  {
    assert blocks[i..][0] == blocks[i] && blocks[i..][1..] == blocks[n..];
  }

  lemma LostStep(views: seq<CoinMap>, blocks: seq<seq<Tx>>, files: seq<seq<byte>>, hashes: seq<Hash>, height: int,
                 setup: Setup, i: nat, n: nat)
    requires Run(views, blocks, files, hashes, height, setup, |blocks|) && i < |blocks| && n == i + 1
    ensures StoredBlock(views[i], blocks[i], views[n], files[i], hashes[i], HeightOf(height, i), setup)
    ensures LostFrom(views, blocks, height, setup.maturity, n) +
            LostInBlock(views[i], blocks[i], HeightOf(height, i), setup.maturity) ==
              LostFrom(views, blocks, height, setup.maturity, i)
  {
    assert StoredAt(views, blocks, files, hashes, height, setup, i, n);
    LostHead(views[i], blocks, i, n, HeightOf(height, i), HeightOf(height, n), setup.maturity);
  }

  /** The tip's coins are those after the first n blocks, as far as they come back. */
  ghost predicate DisconnectedTo(tip: CoinsViewCache, views: seq<CoinMap>, blocks: seq<seq<Tx>>, hashes: seq<Hash>,
                                 height: int, maturity: int, n: nat)
    reads tip, tip.Repr
  {
    && tip.Valid() && tip.modifier == None && n < |views| && n <= |blocks| && n < |hashes|
    && tip.Best() == hashes[n] && tip.View() == Stored(views[n], LostFrom(views, blocks, height, maturity, n))
  }

  /** Block i is undone cleanly after all blocks from n on, which follow it. */
  ghost predicate CleanAt(views: seq<CoinMap>, blocks: seq<seq<Tx>>, height: int, maturity: int, i: nat, n: nat)
    requires i < |blocks| && n < |views| && n <= |blocks|
  {
    StakesKnown(blocks[i], HeightOf(height, i), LostFrom(views, blocks, height, maturity, n))
  }

  /** The list says which blocks are undone cleanly. */
  ghost predicate SaysClean(clean: seq<bool>, views: seq<CoinMap>, blocks: seq<seq<Tx>>, height: int, maturity: int) {
    && |views| == |blocks| + 1 && |clean| == |blocks|
    && forall i, n {:trigger CleanAt(views, blocks, height, maturity, i, n)} ::
         0 <= i < |blocks| && n == i + 1 ==> clean[i] == CleanAt(views, blocks, height, maturity, i, n)
  }

  /** All from n on are true, and the one before is not. */
  ghost predicate StopsAt(clean: seq<bool>, n: nat) {
    n <= |clean| && (n > 0 ==> !clean[n - 1]) && forall i :: n <= i < |clean| ==> clean[i]
  }

  /** What the file of block i does once all blocks above it are disconnected. */
  lemma LastUndone(views: seq<CoinMap>, blocks: seq<seq<Tx>>, files: seq<seq<byte>>, hashes: seq<Hash>, height: int,
                   setup: Setup, i: nat, n: nat, h: int, m: CoinMap)
    requires Run(views, blocks, files, hashes, height, setup, |blocks|) && i < |blocks| && setup.maturity > 0
    requires n == i + 1 && h == HeightOf(height, i)
    requires m == Stored(views[n], LostFrom(views, blocks, height, setup.maturity, n))
    ensures blocks[i] != [] && !blocks[i][0].SpendsCoins()
    ensures Undoing(m, blocks[i], h, ReadFromDisk(files[i], hashes[i], setup.curve, setup.hash)) ==
            if !CleanAt(views, blocks, height, setup.maturity, i, n) then None
            else Some(Stored(views[i], LostFrom(views, blocks, height, setup.maturity, i)))
  {
    LostStep(views, blocks, files, hashes, height, setup, i, n);
    UndoneFromFile(views[i], blocks[i], views[n], files[i], hashes[i], h, setup,
                   LostFrom(views, blocks, height, setup.maturity, n));
  }

  method DisconnectLast(tip: CoinsViewCache, blocks: seq<seq<Tx>>, files: seq<seq<byte>>, hashes: seq<Hash>,
                        height: int, setup: Setup, ghost views: seq<CoinMap>, ghost clean: seq<bool>, i: nat, n: nat)
    returns (ok: bool)
    requires Run(views, blocks, files, hashes, height, setup, |blocks|) && i < |blocks| && setup.maturity > 0
    requires n == i + 1 && DisconnectedTo(tip, views, blocks, hashes, height, setup.maturity, n) && hashes[i] != 0
    requires SaysClean(clean, views, blocks, height, setup.maturity)
    modifies tip.Repr
    ensures tip.Valid() && tip.LevelsBelow() == old(tip.LevelsBelow())
    ensures ok == clean[i]
    ensures DisconnectedTo(tip, views, blocks, hashes, height, setup.maturity, if ok then i else n)
  {
    var h := HeightOf(height, i);
    assert clean[i] == CleanAt(views, blocks, height, setup.maturity, i, n);
    LastUndone(views, blocks, files, hashes, height, setup, i, n, h, tip.View());
    ok := DisconnectStored(tip, blocks[i], hashes[i], h, files[i], setup);
  }

  lemma NothingDisconnected(tip: CoinsViewCache, blocks: seq<seq<Tx>>, files: seq<seq<byte>>, hashes: seq<Hash>,
                            height: int, setup: Setup, views: seq<CoinMap>)
    requires ConnectedTo(tip, views, blocks, files, hashes, height, setup, |blocks|)
    ensures DisconnectedTo(tip, views, blocks, hashes, height, setup.maturity, |blocks|)
  {
    assert Stored(views[|blocks|], {}) == views[|blocks|] && blocks[|blocks|..] == [];
  }

  method DisconnectRun(tip: CoinsViewCache, blocks: seq<seq<Tx>>, files: seq<seq<byte>>, hashes: seq<Hash>, height: int,
                       setup: Setup, ghost views: seq<CoinMap>, ghost clean: seq<bool>)
    returns (n: nat)
    requires ConnectedTo(tip, views, blocks, files, hashes, height, setup, |blocks|) && setup.maturity > 0
    requires SaysClean(clean, views, blocks, height, setup.maturity)
    requires forall i :: 0 <= i < |hashes| ==> hashes[i] != 0
    modifies tip.Repr
    ensures n <= |blocks| && tip.Valid() && tip.LevelsBelow() == old(tip.LevelsBelow())
    ensures DisconnectedTo(tip, views, blocks, hashes, height, setup.maturity, n)
    ensures StopsAt(clean, n)
  {
    NothingDisconnected(tip, blocks, files, hashes, height, setup, views);
    n := DisconnectAll(tip, blocks, files, hashes, height, setup, views, clean);
  }

  /** Disconnects blocks, the last first, with the undo data in their files, until one is not undone cleanly. */
  method DisconnectAll(tip: CoinsViewCache, blocks: seq<seq<Tx>>, files: seq<seq<byte>>, hashes: seq<Hash>, height: int,
                       setup: Setup, ghost views: seq<CoinMap>, ghost clean: seq<bool>)
    returns (n: nat)
    requires Run(views, blocks, files, hashes, height, setup, |blocks|) && setup.maturity > 0
    requires DisconnectedTo(tip, views, blocks, hashes, height, setup.maturity, |blocks|)
    requires SaysClean(clean, views, blocks, height, setup.maturity)
    requires forall i :: 0 <= i < |hashes| ==> hashes[i] != 0
    modifies tip.Repr
    ensures n <= |blocks| && tip.Valid() && tip.LevelsBelow() == old(tip.LevelsBelow())
    ensures DisconnectedTo(tip, views, blocks, hashes, height, setup.maturity, n)
    ensures StopsAt(clean, n)
  {
    ghost var below := tip.LevelsBelow();
    n := |blocks|;
    while n > 0
      invariant n <= |blocks| && DisconnectedTo(tip, views, blocks, hashes, height, setup.maturity, n)
      invariant tip.LevelsBelow() == below
      invariant forall i :: n <= i < |clean| ==> clean[i]
    {
      var i := n - 1;
      var ok := DisconnectLast(tip, blocks, files, hashes, height, setup, views, clean, i, n);
      if !ok {
        return;
      }
      n := i;
    }
  }

  // ---- What the blocks say about it ----

  lemma StoredAtMeans(views: seq<CoinMap>, blocks: seq<seq<Tx>>, files: seq<seq<byte>>, hashes: seq<Hash>,
                      height: int, setup: Setup, n: nat, i: nat, next: nat, h: int)
    requires Run(views, blocks, files, hashes, height, setup, n) && i < n && next == i + 1 && h == HeightOf(height, i)
    ensures Sound(views[i]) && h > 0 && Connect(views[i], blocks[i], h, setup.maturity).Connected?
    ensures Connect(views[i], blocks[i], h, setup.maturity).view == views[next]
  {
    assert StoredAt(views, blocks, files, hashes, height, setup, i, next);
  }

  lemma ChainStep(m: CoinMap, blocks: seq<seq<Tx>>, h: int, h': int, maturity: int, i: nat, next: nat)
    requires i < |blocks| && next == i + 1 && h' == h + 1
    ensures var c := Connect(m, blocks[i], h, maturity);
            ConnectChain(m, blocks[i..], h, maturity).ChainConnected? <==>
              c.Connected? && ConnectChain(c.view, blocks[next..], h', maturity).ChainConnected?
  {
    assert blocks[i..][0] == blocks[i] && blocks[i..][1..] == blocks[next..];
  }

  /** The run is what ConnectChain does, as far as it goes; h is the height of block i. */
  lemma {:induction false} RunConnects(views: seq<CoinMap>, blocks: seq<seq<Tx>>, files: seq<seq<byte>>,
                                       hashes: seq<Hash>, height: int, setup: Setup, n: nat, i: nat, h: int)
    requires Run(views, blocks, files, hashes, height, setup, n) && i <= n && h == HeightOf(height, i)
    requires n < |blocks| ==> StuckAt(views, blocks, height, setup.maturity, n)
    ensures ConnectChain(views[i], blocks[i..], h, setup.maturity).ChainConnected? <==> n == |blocks|
    decreases n - i
  {
    var next, h' := i + 1, HeightOf(height, i + 1);
    if i < n {
      StoredAtMeans(views, blocks, files, hashes, height, setup, n, i, next, h);
      RunConnects(views, blocks, files, hashes, height, setup, n, next, h');
    }
    if i < |blocks| {
      ChainStep(views[i], blocks, h, h', setup.maturity, i, next);
    }
  }

  lemma RunOutcome(views: seq<CoinMap>, blocks: seq<seq<Tx>>, files: seq<seq<byte>>, hashes: seq<Hash>, height: int,
                   setup: Setup, n: nat)
    requires Run(views, blocks, files, hashes, height, setup, n)
    requires n < |blocks| ==> StuckAt(views, blocks, height, setup.maturity, n)
    ensures ConnectChain(views[0], blocks, height, setup.maturity).ChainConnected? <==> n == |blocks|
  {
    RunConnects(views, blocks, files, hashes, height, setup, n, 0, height);
    assert blocks[0..] == blocks;
  }

  /** The blocks from n on, above block i at height h. */
  lemma RunAbove(views: seq<CoinMap>, blocks: seq<seq<Tx>>, files: seq<seq<byte>>, hashes: seq<Hash>, height: int,
                 setup: Setup, i: nat, n: nat, h: int, h': int)
    requires Run(views, blocks, files, hashes, height, setup, |blocks|) && i < |blocks| && n == i + 1
    requires h == HeightOf(height, i) && h' == HeightOf(height, n)
    ensures Sound(views[i]) && h > 0 && Connect(views[i], blocks[i], h, setup.maturity).Connected?
    ensures Connect(views[i], blocks[i], h, setup.maturity).view == views[n]
    ensures ConnectChain(views[n], blocks[n..], h', setup.maturity).ChainConnected?
  {
    StoredAtMeans(views, blocks, files, hashes, height, setup, |blocks|, i, n, h);
    RunConnects(views, blocks, files, hashes, height, setup, |blocks|, n, h');
  }

  /** One block and the blocks above it. */
  lemma CleanMeans(before: CoinMap, txs: seq<Tx>, after: CoinMap, later: seq<seq<Tx>>, h: int, h': int, maturity: int)
    requires Sound(before) && h > 0 && h' == h + 1 && maturity > 0
    requires Connect(before, txs, h, maturity).Connected? && Connect(before, txs, h, maturity).view == after
    requires ConnectChain(after, later, h', maturity).ChainConnected?
    ensures StakesKnown(txs, h, LostInChain(after, later, h', maturity)) <==> StakesSpared(txs, h, SpentInChain(later))
  {
    StakesKnownMeans(before, txs, later, h, maturity);
  }

  /** The blocks from n on spare the coinstakes that block i made. */
  ghost predicate SparedAt(blocks: seq<seq<Tx>>, height: int, i: nat, n: nat)
    requires i < |blocks| && n <= |blocks|
  {
    StakesSpared(blocks[i], HeightOf(height, i), SpentInChain(blocks[n..]))
  }

  ghost function SparedBlocks(blocks: seq<seq<Tx>>, height: int): (r: seq<bool>)
    ensures |r| == |blocks|
    ensures forall i, n {:trigger SparedAt(blocks, height, i, n)} ::
              0 <= i < |blocks| && n == i + 1 ==> r[i] == SparedAt(blocks, height, i, n)
  {
    seq(|blocks|, i requires 0 <= i < |blocks| => SparedAt(blocks, height, i, i + 1))
  }

  lemma SparedMeans(blocks: seq<seq<Tx>>, height: int)
    ensures Spared(blocks, height) <==> forall i :: 0 <= i < |blocks| ==> SparedBlocks(blocks, height)[i]
  {
    forall i | 0 <= i < |blocks|
      ensures SparedBlocks(blocks, height)[i] <==> StakesSpared(blocks[i], height + i, SpentInChain(blocks[i + 1..]))
    {
      assert SparedBlocks(blocks, height)[i] == SparedAt(blocks, height, i, i + 1);
    }
  }

  /** Block i is undone cleanly exactly if the blocks above it spare the coinstakes it made. */
  lemma CleanAtMeans(views: seq<CoinMap>, blocks: seq<seq<Tx>>, files: seq<seq<byte>>, hashes: seq<Hash>, height: int,
                     setup: Setup, i: nat, n: nat)
    requires Run(views, blocks, files, hashes, height, setup, |blocks|) && i < |blocks| && setup.maturity > 0
    requires n == i + 1
    ensures CleanAt(views, blocks, height, setup.maturity, i, n) <==> SparedAt(blocks, height, i, n)
  {
    var h, h' := HeightOf(height, i), HeightOf(height, n);
    RunAbove(views, blocks, files, hashes, height, setup, i, n, h, h');
    CleanMeans(views[i], blocks[i], views[n], blocks[n..], h, h', setup.maturity);
  }

  /** A predicate on attempts says whether the blocks are spared, the last block first. */
  ghost predicate Agrees(undoes: nat -> bool, spared: seq<bool>) {
    forall k: nat {:trigger undoes(k)} :: k < |spared| ==> undoes(k) == spared[|spared| - 1 - k]
  }

  /** To the block tree, the disconnections down to block n are attempts of such a predicate. */
  lemma AttemptsOf(undoes: nat -> bool, spared: seq<bool>, n: nat)
    requires Agrees(undoes, spared) && StopsAt(spared, n)
    ensures ChainSteps.Attempts(undoes, 0, |spared| - n + (if n == 0 then 0 else 1), n == 0)
  {
    if n > 0 {
      var k := |spared| - n;
      assert undoes(k) == spared[n - 1];
    }
  }

  /** Which blocks are undone cleanly is read off the blocks. */
  lemma CleanIsSpared(views: seq<CoinMap>, blocks: seq<seq<Tx>>, files: seq<seq<byte>>, hashes: seq<Hash>, height: int,
                      setup: Setup)
    requires Run(views, blocks, files, hashes, height, setup, |blocks|) && setup.maturity > 0
    ensures SaysClean(SparedBlocks(blocks, height), views, blocks, height, setup.maturity)
    ensures Spared(blocks, height) <==> forall i :: 0 <= i < |blocks| ==> SparedBlocks(blocks, height)[i]
  {
    var spared := SparedBlocks(blocks, height);
    forall i, n | 0 <= i < |blocks| && n == i + 1
      ensures spared[i] == CleanAt(views, blocks, height, setup.maturity, i, n)
    {
      CleanAtMeans(views, blocks, files, hashes, height, setup, i, n);
      assert spared[i] == SparedAt(blocks, height, i, n);
    }
    SparedMeans(blocks, height);
  }

  /** The coins that come back at the start of the run. */
  lemma AllUndone(views: seq<CoinMap>, blocks: seq<seq<Tx>>, files: seq<seq<byte>>, hashes: seq<Hash>, height: int,
                  setup: Setup)
    requires Run(views, blocks, files, hashes, height, setup, |blocks|) && setup.maturity > 0 && height > 0
    requires Sound(views[0])
    ensures Stored(views[0], LostFrom(views, blocks, height, setup.maturity, 0)) ==
            Stored(views[0], Emptied(views[0], SpentInChain(blocks)))
  {
    RunOutcome(views, blocks, files, hashes, height, setup, |blocks|);
    assert blocks[0..] == blocks && HeightOf(height, 0) == height;
    EmptiedStored(views[0], blocks, height, setup.maturity);
  }

  /**
   * Blocks connected at the tip and disconnected again, through the caches and with the undo data in files. The
   * disconnections are clean down to the first block whose coinstakes are not spared by the blocks above it. If there
   * is none, the best block is what it was, and so are the coins, up to stake flags and negative versions of the
   * transactions whose unspent outputs the run spends all.
   */
  method ConnectAndDisconnect(tip: CoinsViewCache, blocks: seq<seq<Tx>>, hashes: seq<Hash>, height: int, setup: Setup)
    returns (accepted: bool, n: nat)
    requires BlocksOk(blocks, hashes, height, setup.curve) && TipOk(tip, setup.curve) && tip.Best() == hashes[0]
    requires height > 0 && setup.maturity > 0
    modifies tip.Repr
    ensures tip.Valid() && tip.LevelsBelow() == old(tip.LevelsBelow()) && n <= |blocks| && tip.Best() == hashes[n]
    ensures accepted <==> ConnectChain(old(tip.View()), blocks, height, setup.maturity).ChainConnected?
    ensures accepted ==>
              StopsAt(SparedBlocks(blocks, height), n) && (n == 0 <==> Spared(blocks, height))
    ensures accepted && n == 0 ==>
              tip.View() == Stored(old(tip.View()), Emptied(old(tip.View()), SpentInChain(blocks)))
  {
    var files;
    ghost var views;
    n, files, views := ConnectRun(tip, blocks, hashes, height, setup);
    RunOutcome(views, blocks, files, hashes, height, setup, n);
    accepted := n == |blocks|;
    if accepted {
      AllUndone(views, blocks, files, hashes, height, setup);
      CleanIsSpared(views, blocks, files, hashes, height, setup);
      n := DisconnectRun(tip, blocks, files, hashes, height, setup, views, SparedBlocks(blocks, height));
    }
  }
}
