/** Whole runs over a stack of caches against a stack of plain maps
    (the simulation of src/test/coins_tests.cpp), and the one thing a flush can forget. */
module CoinsRuns {
  import opened Transactions
  import opened Coins
  import opened CoinMap
  import opened CoinsView
  import opened CoinsTip

  /** hash is never null: a block is always named before its cache is flushed. */
  datatype Op =
    | Read(t: Hash)
    | Have(t: Hash)
    | Best
    | Write(t: Hash, coins: Coins)
    | Push
    | Drop
    | FlushTop(hash: Hash)

  datatype Answer = CoinsAre(coins: Coins) | HaveIs(have: bool) | BestIs(hash: Hash) | Nothing

  /** A flush can only name a real block, and the last cache is never dropped. */
  predicate Allowed(op: Op, levels: Levels) {
    && (op.FlushTop? ==> op.hash != 0 && levels.Layer?)
    && (op.Drop? ==> levels.Layer? && levels.under.Layer?)
  }

  /** What the operation does to a stack of plain maps. */
  function Step(levels: Levels, op: Op): Levels
    requires levels.Layer? && Allowed(op, levels)
    ensures Step(levels, op).Layer?
  {
    match op
    case Read(_) => levels
    case Have(_) => levels
    case Best => levels
    case Write(t, coins) => levels.(view := Put(levels.view, t, coins))
    case Push => Layer(levels.view, levels.best, levels)
    case Drop => levels.under
    case FlushTop(hash) =>
      Layer(levels.view, hash,
            match levels.under
            case Bottom(_, _) => Bottom(levels.view, hash)
            case Layer(_, _, u) => Layer(levels.view, hash, u))
  }

  /** Pruned coins all look alike; any other answer is the plain map's. */
  ghost predicate AnswerOk(levels: Levels, op: Op, a: Answer) {
    match op
    case Read(t) => a.CoinsAre? && a.coins.Same(At(levels.view, t))
    case Have(t) => a == HaveIs(t in levels.view)
    case Best => a == BestIs(levels.best)
    case _ => a == Nothing
  }

  ghost predicate Legal(levels: Levels, ops: seq<Op>)
    decreases |ops|
  {
    levels.Layer? && (ops != [] ==> Allowed(ops[0], levels) && Legal(Step(levels, ops[0]), ops[1..]))
  }

  ghost predicate AnswersOk(levels: Levels, ops: seq<Op>, answers: seq<Answer>)
    requires Legal(levels, ops)
    decreases |ops|
  {
    |ops| == |answers| &&
    (ops != [] ==> AnswerOk(levels, ops[0], answers[0]) && AnswersOk(Step(levels, ops[0]), ops[1..], answers[1..]))
  }

  method Execute(top: CoinsViewCache, op: Op) returns (top': CoinsViewCache, a: Answer)
    requires top.Valid() && top.modifier == None && Allowed(op, top.AllLevels())
    modifies top.Repr
    ensures top'.Valid() && top'.modifier == None && fresh(top'.Repr - top.Repr)
    ensures AnswerOk(old(top.AllLevels()), op, a)
    ensures top'.AllLevels() == Step(old(top.AllLevels()), op)
  {
    top', a := top, Nothing;
    match op {
      case Read(t) =>
        var found, coins := top.GetCoins(t);
        a := CoinsAre(if found then coins else EMPTY);
      case Have(t) =>
        var have := top.HaveCoins(t);
        a := HaveIs(have);
      case Best =>
        var hash := top.GetBestBlock();
        a := BestIs(hash);
      case Write(t, coins) =>
        var _ := top.ModifyCoins(t);
        top.Release(coins);
      case Push =>
        top' := OpenView(top);
      case Drop =>
        top' := top.base.cache;
      case FlushTop(hash) =>
        top.SetBestBlock(hash);
        top.Flush();
    }
  }

  /** Every run over a stack of caches is answered as a stack of plain maps would answer it. */
  method Run(top: CoinsViewCache, ops: seq<Op>) returns (answers: seq<Answer>)
    requires top.Valid() && top.modifier == None && Legal(top.AllLevels(), ops)
    modifies top.Repr
    ensures AnswersOk(old(top.AllLevels()), ops, answers)
    decreases |ops|
  {
    if ops == [] {
      return [];
    }
    var top', a := Execute(top, ops[0]);
    var rest := Run(top', ops[1..]);
    answers := [a] + rest;
    assert answers[1..] == rest;
  }

  // ---- Flushing without naming a block ----

  /** A child that has not asked for the best block replaces its parent's by the one below. */
  method FlushNameless(parent: CoinsViewCache)
    requires parent.Valid() && parent.modifier == None
    modifies parent.Repr
    ensures parent.Valid()
    ensures parent.AllLevels() == Layer(old(parent.View()), old(parent.BestBelow()), old(parent.LevelsBelow()))
  {
    var child := OpenView(parent);
    assert child.hashBlock == 0;
    child.Flush();
    assert child.LevelsBelow() == parent.AllLevels();
  }

  /** A best block set and then forgotten. */
  method BestBlockForgotten() returns (before: Hash, after: Hash)
    ensures before == 7 && after == 0
  {
    var db := new CoinsViewDB();
    var parent := new CoinsViewCache(OnDB(db));
    parent.SetBestBlock(7);
    before := parent.GetBestBlock();
    FlushNameless(parent);
    after := parent.GetBestBlock();
  }
}
