/** What single steps do to the disk, the cache, the passes and the transaction. */
module EngineStore {
  import opened Layout
  import opened Redo
  import opened Engine
  import opened EngineInvariant

  // ------------------------------------------------- on the parts alone

  /** A change to operations alone leaves every joined block accounted for. */
  lemma OpsMove(ops: map<nat, OpPc>, ops': map<nat, OpPc>, txn: seq<nat>, cache: map<nat, Frame>)
    requires OpsOk(ops, txn, cache)
    requires forall o :: o in ops' && !ops'[o].Ready? ==> Holds(cache, ops'[o].block)
    requires forall o, b :: Owes(ops, o, b) ==> Owes(ops', o, b)
    ensures OpsOk(ops', txn, cache)
  {
  }

  lemma OpsAcquire(ops: map<nat, OpPc>, txn: seq<nat>, cache: map<nat, Frame>, o: nat, b: nat, f: Frame)
    requires OpsOk(ops, txn, cache) && o in ops && ops[o] == Ready && f.inTxn
    ensures OpsOk(ops[o := Pinned(b, !Holds(cache, b))], txn, cache[b := f])
  {
    var ops', cache' := ops[o := Pinned(b, !Holds(cache, b))], cache[b := f];
    forall x | Holds(cache', x) ensures x in txn || exists p :: Owes(ops', p, x) {
      if Holds(cache, x) {
        if x !in txn {
          var p :| Owes(ops, p, x);
          assert Owes(ops', p, x);
        }
      } else {
        assert Owes(ops', o, b);
      }
    }
  }

  /** An operation moves on without letting go of its frame's debt. */
  lemma OpsReplace(ops: map<nat, OpPc>, txn: seq<nat>, cache: map<nat, Frame>, o: nat, pc: OpPc, f: Frame)
    requires OpsOk(ops, txn, cache) && o in ops && !ops[o].Ready? && !pc.Ready? && f.inTxn
    requires pc.block == ops[o].block && pc.joined == ops[o].joined
    ensures OpsOk(ops[o := pc], txn, cache[pc.block := f])
  {
    var cache' := cache[pc.block := f];
    assert forall x :: Holds(cache', x) <==> Holds(cache, x);
    assert forall i :: 0 <= i < |txn| ==> Holds(cache, txn[i]);
    OpsMove(ops, ops[o := pc], txn, cache);
  }

  /** A frame that is, or becomes, part of the transaction bothers no pass. */
  lemma PicksUnderTxn(picks: map<nat, Pick>, cache: map<nat, Frame>, vol: seq<Block>,
                      c: seq<Block>, img: map<nat, Block>, b: nat, f: Frame)
    requires PicksOk(picks, cache, vol, c, img)
    requires f.inTxn && (b in cache ==> cache[b].version <= f.version)
    ensures PicksOk(picks, cache[b := f], vol, c, img)
  {
  }

  lemma SameTxn(cache: map<nat, Frame>, cache': map<nat, Frame>, blocks: seq<nat>, next: nat)
    requires TxnIs(cache, blocks, next)
    requires forall b :: Holds(cache', b) <==> Holds(cache, b)
    ensures TxnIs(cache', blocks, next)
  {
  }

  lemma CacheChange(cache: map<nat, Frame>, vol: seq<Block>, now: seq<Block>, c: seq<Block>,
                    img: map<nat, Block>, dl: nat, b: nat, data: Block)
    requires CacheOk(cache, vol, now, c, img, dl) && Holds(cache, b)
    ensures b < |now|
    ensures CacheOk(cache[b := cache[b].(data := data)], vol, now[b := data], c, img, dl)
  {
  }

  lemma CacheLoad(cache: map<nat, Frame>, vol: seq<Block>, now: seq<Block>, c: seq<Block>,
                  img: map<nat, Block>, dl: nat, b: nat)
    requires CacheOk(cache, vol, now, c, img, dl) && b !in cache && b < |vol|
    ensures CacheOk(cache[b := Frame(vol[b], false, false, 0, 0)], vol, now, c, img, dl)
  {
  }

  lemma PassLoad(pass: Pass, cache: map<nat, Frame>, vol: seq<Block>, c: seq<Block>, img: map<nat, Block>,
                 b: nat, f: Frame)
    requires PassOk(pass, cache, vol, c, img) && b !in cache && !f.dirty
    ensures PassOk(pass, cache[b := f], vol, c, img)
  {
  }

  lemma DiskWrite(disk: seq<Block>, vol: seq<Block>, unsynced: set<nat>, c: seq<Block>, img: map<nat, Block>,
                  b: nat, data: Block)
    requires DiskOk(false, disk, vol, unsynced, c, img) && b < |vol| && b in img
    ensures DiskOk(false, disk, vol[b := data], unsynced + {b}, c, img)
  {
  }

  /** Writing a block home, whatever the bytes, disturbs no frame but its own. */
  lemma CacheWrite(cache: map<nat, Frame>, vol: seq<Block>, now: seq<Block>, c: seq<Block>,
                   img: map<nat, Block>, dl: nat, b: nat, data: Block)
    requires CacheOk(cache, vol, now, c, img, dl) && b in cache && b < |vol|
    requires !cache[b].inTxn ==> cache[b].dirty
    ensures CacheOk(cache, vol[b := data], now, c, img, dl)
  {
  }

  lemma CacheDrop(cache: map<nat, Frame>, vol: seq<Block>, now: seq<Block>, c: seq<Block>,
                  img: map<nat, Block>, dl: nat, b: nat)
    requires CacheOk(cache, vol, now, c, img, dl) && b in cache && b < |vol|
    requires vol[b] == c[b] == now[b]
    ensures CacheOk(cache - {b}, vol, now, c, img, dl)
  {
  }

  lemma PassDrop(pass: Pass, cache: map<nat, Frame>, vol: seq<Block>, c: seq<Block>, img: map<nat, Block>, b: nat)
    requires PassOk(pass, cache, vol, c, img) && (pass.Pass? ==> b !in pass.picks)
    ensures PassOk(pass, cache - {b}, vol, c, img)
  {
  }

  /** A pass does not look at the disk under blocks it has not written. */
  lemma PassWriteElsewhere(pass: Pass, cache: map<nat, Frame>, vol: seq<Block>, c: seq<Block>, img: map<nat, Block>,
                           b: nat, data: Block)
    requires PassOk(pass, cache, vol, c, img) && (pass.Pass? ==> b !in pass.picks) && b < |vol|
    ensures PassOk(pass, cache, vol[b := data], c, img)
  {
  }

  lemma EvictDirty(disk: seq<Block>, unsynced: set<nat>, pass: Pass, cache: map<nat, Frame>, vol: seq<Block>,
                   now: seq<Block>, c: seq<Block>, img: map<nat, Block>, dl: nat, b: nat)
    requires DiskOk(false, disk, vol, unsynced, c, img)
    requires CacheOk(cache, vol, now, c, img, dl) && PassOk(pass, cache, vol, c, img)
    requires b in cache && !cache[b].inTxn && cache[b].dirty && (pass.Pass? ==> b !in pass.picks)
    ensures b < |vol|
    ensures var vol' := vol[b := cache[b].data];
            && DiskOk(false, disk, vol', unsynced + {b}, c, img)
            && CacheOk(cache - {b}, vol', now, c, img, dl)
            && PassOk(pass, cache - {b}, vol', c, img)
  {
    var data := cache[b].data;
    assert FrameOk(cache[b], b, vol, now, c, img, dl);
    DiskWrite(disk, vol, unsynced, c, img, b, data);
    CacheWrite(cache, vol, now, c, img, dl, b, data);
    PassWriteElsewhere(pass, cache, vol, c, img, b, data);
    CacheDrop(cache, vol[b := data], now, c, img, dl, b);
    PassDrop(pass, cache, vol[b := data], c, img, b);
  }

  lemma EvictClean(pass: Pass, cache: map<nat, Frame>, vol: seq<Block>,
                   now: seq<Block>, c: seq<Block>, img: map<nat, Block>, dl: nat, b: nat)
    requires CacheOk(cache, vol, now, c, img, dl) && PassOk(pass, cache, vol, c, img)
    requires b in cache && !cache[b].inTxn && !cache[b].dirty && (pass.Pass? ==> b !in pass.picks)
    ensures CacheOk(cache - {b}, vol, now, c, img, dl) && PassOk(pass, cache - {b}, vol, c, img)
  {
    assert FrameOk(cache[b], b, vol, now, c, img, dl);
    CacheDrop(cache, vol, now, c, img, dl, b);
    PassDrop(pass, cache, vol, c, img, b);
  }

  lemma PicksChosen(picks: map<nat, Pick>, chosen: map<nat, Pick>, cache: map<nat, Frame>, vol: seq<Block>,
                    now: seq<Block>, c: seq<Block>, img: map<nat, Block>, dl: nat)
    requires PicksOk(picks, cache, vol, c, img) && CacheOk(cache, vol, now, c, img, dl)
    requires forall b :: b in chosen ==> b in cache && cache[b].dirty && chosen[b] == Picked(cache[b].version)
    ensures PicksOk(picks + chosen, cache, vol, c, img)
  {
  }

  lemma SweptMore(picks: map<nat, Pick>, chosen: map<nat, Pick>, cache: map<nat, Frame>, vol: seq<Block>,
                  now: seq<Block>, c: seq<Block>, img: map<nat, Block>, dl: nat, shard: nat)
    requires SweptOk(picks, cache, shard) && CacheOk(cache, vol, now, c, img, dl)
    requires forall b :: b in chosen ==> b in cache && chosen[b] == Picked(cache[b].version)
    requires NoTxn(cache)
    requires forall b ::
               b in cache && cache[b].dirty && !cache[b].inTxn && cache[b].lsn <= dl && b % SHARDS == shard ==>
                 b in chosen
    ensures SweptOk(picks + chosen, cache, shard + 1)
  {
  }

  /** One pick moves on; the others are as they were. */
  lemma PickMoves(pass: Pass, cache: map<nat, Frame>, vol: seq<Block>, c: seq<Block>, img: map<nat, Block>,
                  b: nat, p: Pick)
    requires PassOk(pass, cache, vol, c, img) && pass.Pass? && b in pass.picks
    requires PickOk(p, cache[b], b, vol, c, img) && p.version == pass.picks[b].version
    ensures PassOk(pass.(picks := pass.picks[b := p]), cache, vol, c, img)
  {
  }

  lemma PickDrops(pass: Pass, cache: map<nat, Frame>, vol: seq<Block>, c: seq<Block>, img: map<nat, Block>, b: nat)
    requires PassOk(pass, cache, vol, c, img) && pass.Pass? && b in pass.picks
    requires pass.all && b in cache && b % SHARDS < pass.shard ==> !cache[b].dirty
    ensures PassOk(pass.(picks := pass.picks - {b}), cache, vol, c, img)
  {
  }

  lemma PickWrites(pass: Pass, cache: map<nat, Frame>, vol: seq<Block>, c: seq<Block>, img: map<nat, Block>, b: nat)
    requires PassOk(pass, cache, vol, c, img) && pass.Pass? && b in pass.picks && pass.picks[b].Cleared?
    requires b < |vol|
    ensures PassOk(pass.(picks := pass.picks[b := Written(pass.picks[b].version)]), cache,
                   vol[b := pass.picks[b].bytes], c, img)
  {
  }

  lemma CacheClean(cache: map<nat, Frame>, vol: seq<Block>, now: seq<Block>, c: seq<Block>,
                   img: map<nat, Block>, dl: nat, b: nat)
    requires CacheOk(cache, vol, now, c, img, dl) && b in cache && b < |vol| && b < |c|
    requires !cache[b].inTxn ==> vol[b] == c[b]
    ensures CacheOk(cache[b := cache[b].(dirty := false)], vol, now, c, img, dl)
  {
  }

  /** A frame marked clean after its pick has gone. */
  lemma PassCleanOne(pass: Pass, cache: map<nat, Frame>, vol: seq<Block>, c: seq<Block>, img: map<nat, Block>, b: nat)
    requires PassOk(pass, cache, vol, c, img) && pass.Pass? && b in pass.picks && b in cache
    requires pass.all ==> pass.picks[b].version == cache[b].version
    ensures PassOk(pass.(picks := pass.picks - {b}), cache[b := cache[b].(dirty := false)], vol, c, img)
  {
  }

  lemma CleanKeeps(pass: Pass, cache: map<nat, Frame>, vol: seq<Block>, now: seq<Block>, c: seq<Block>,
                   img: map<nat, Block>, dl: nat, b: nat)
    requires CacheOk(cache, vol, now, c, img, dl) && PassOk(pass, cache, vol, c, img)
    requires pass.Pass? && b in pass.picks && pass.picks[b].Written? && b in cache
    ensures var cache' := if cache[b].version == pass.picks[b].version
                          then cache[b := cache[b].(dirty := false)] else cache;
            && CacheOk(cache', vol, now, c, img, dl)
            && PassOk(pass.(picks := pass.picks - {b}), cache', vol, c, img)
  {
    assert PickOk(pass.picks[b], cache[b], b, vol, c, img);
    if cache[b].version == pass.picks[b].version {
      CacheClean(cache, vol, now, c, img, dl, b);
      PassCleanOne(pass, cache, vol, c, img, b);
    } else {
      PickDrops(pass, cache, vol, c, img, b);
    }
  }

  // ----------------------------------------------------------- operations

  lemma StoreOpBegin(s: State, s': State)
    requires StoreInv(s) && s.nextOp !in s.ops && OpBegin(s, s')
    ensures StoreInv(s')
  {
    UnfoldStoreInv(s);
    OpsMove(s.ops, s'.ops, s.txn, s.cache);
  }

  lemma StoreOpEnd(s: State, o: nat, s': State)
    requires StoreInv(s) && OpEnd(s, o, s')
    ensures StoreInv(s')
  {
    UnfoldStoreInv(s);
    OpsMove(s.ops, s'.ops, s.txn, s.cache);
  }

  lemma CacheJoin(cache: map<nat, Frame>, vol: seq<Block>, now: seq<Block>, c: seq<Block>,
                  img: map<nat, Block>, dl: nat, b: nat, f: Frame)
    requires CacheOk(cache, vol, now, c, img, dl) && b < |vol|
    requires f == if b in cache then cache[b].(inTxn := true) else Frame(vol[b], false, true, 0, 0)
    ensures CacheOk(cache[b := f], vol, now, c, img, dl)
  {
  }

  lemma StoreOpAcquire(s: State, o: nat, b: nat, s': State)
    requires StoreInv(s) && OpAcquire(s, o, b, s')
    ensures StoreInv(s')
  {
    UnfoldStoreInv(s);
    OpsAcquire(s.ops, s.txn, s.cache, o, b, s'.cache[b]);
    CacheJoin(s.cache, s.vol, s.now, s.sure, s.img, s.durableLsn, b, s'.cache[b]);
    if s.pass.Pass? {
      PicksUnderTxn(s.pass.picks, s.cache, s.vol, s.sure, s.img, b, s'.cache[b]);
    }
  }

  lemma StoreOpChange(s: State, o: nat, data: Block, s': State)
    requires StoreInv(s) && OpChange(s, o, data, s')
    ensures StoreInv(s')
  {
    UnfoldStoreInv(s);
    var b := s.ops[o].block;
    CacheChange(s.cache, s.vol, s.now, s.sure, s.img, s.durableLsn, b, data);
    OpsReplace(s.ops, s.txn, s.cache, o, Changed(b, s.ops[o].joined), s'.cache[b]);
    if s.pass.Pass? {
      PicksUnderTxn(s.pass.picks, s.cache, s.vol, s.sure, s.img, b, s'.cache[b]);
    }
  }

  lemma CacheBump(cache: map<nat, Frame>, vol: seq<Block>, now: seq<Block>, c: seq<Block>,
                  img: map<nat, Block>, dl: nat, b: nat)
    requires CacheOk(cache, vol, now, c, img, dl) && b in cache
    ensures CacheOk(cache[b := cache[b].(version := cache[b].version + 1)], vol, now, c, img, dl)
  {
  }

  lemma StoreOpFinish(s: State, o: nat, s': State)
    requires StoreInv(s) && OpFinish(s, o, s')
    ensures StoreInv(s')
  {
    UnfoldStoreInv(s);
    var b := s.ops[o].block;
    OpsReplace(s.ops, s.txn, s.cache, o, Unpinned(b, s.ops[o].joined), s'.cache[b]);
    CacheBump(s.cache, s.vol, s.now, s.sure, s.img, s.durableLsn, b);
    if s.pass.Pass? {
      PicksUnderTxn(s.pass.picks, s.cache, s.vol, s.sure, s.img, b, s'.cache[b]);
    }
  }

  lemma OpsRecord(ops: map<nat, OpPc>, txn: seq<nat>, cache: map<nat, Frame>, o: nat)
    requires OpsOk(ops, txn, cache) && o in ops && ops[o].Unpinned?
    ensures var b := ops[o].block;
            OpsOk(ops[o := Ready], if ops[o].joined && b !in txn then txn + [b] else txn, cache)
  {
    var b := ops[o].block;
    var txn' := if ops[o].joined && b !in txn then txn + [b] else txn;
    var ops' := ops[o := Ready];
    assert Holds(cache, b);
    forall x | Holds(cache, x) ensures x in txn' || exists p :: Owes(ops', p, x) {
      if x !in txn' {
        assert x !in txn;
        var p :| Owes(ops, p, x);
        assert Owes(ops', p, x);
      }
    }
  }

  lemma StoreOpRecord(s: State, o: nat, s': State)
    requires StoreInv(s) && OpRecord(s, o, s')
    ensures StoreInv(s')
  {
    UnfoldStoreInv(s);
    OpsRecord(s.ops, s.txn, s.cache, o);
  }

  // ---------------------------------------------------------------- cache

  ghost predicate QuietPhase(p: Phase) {
    p.Settling? || p.CloseWrite? || p.CloseSync?
  }

  /** A step of the cache, by what it does to the cache and the disk alone. */
  ghost predicate CacheStep(s: State, s': State) {
    && Mounted(s.phase)
    && s' == s.(cache := s'.cache, vol := s'.vol, unsynced := s'.unsynced, pass := s'.pass)
    && (forall b :: Holds(s'.cache, b) <==> Holds(s.cache, b))
    && (s.phase.WritingBack? ==> s'.pass.Pass? && s'.pass.all)
    && (s'.pass.Pass? && s'.pass.all ==> s.phase.WritingBack?)
    && (QuietPhase(s.phase) ==> Quiet(s'.cache, s'.pass, s'.vol, s.sure) && s'.unsynced == s.unsynced)
    && DiskOk(s.mark.clean, s.disk, s'.vol, s'.unsynced, s.sure, s.img)
    && CacheOk(s'.cache, s'.vol, s.now, s.sure, s.img, s.durableLsn)
    && PassOk(s'.pass, s'.cache, s'.vol, s.sure, s.img)
  }

  lemma SameOps(ops: map<nat, OpPc>, txn: seq<nat>, cache: map<nat, Frame>, cache': map<nat, Frame>)
    requires OpsOk(ops, txn, cache)
    requires forall b :: Holds(cache', b) <==> Holds(cache, b)
    ensures OpsOk(ops, txn, cache')
  {
  }

  lemma CacheStepKeeps(s: State, s': State)
    requires StoreInv(s) && CacheStep(s, s')
    ensures StoreInv(s')
  {
    UnfoldStoreInv(s);
    match s.phase
    case Up => SameOps(s.ops, s.txn, s.cache, s'.cache);
    case Logging(txn, blocks, next) => SameTxn(s.cache, s'.cache, blocks, 0);
    case Logged(txn, blocks) => SameTxn(s.cache, s'.cache, blocks, 0);
    case Barrier(txn, blocks) => SameTxn(s.cache, s'.cache, blocks, 0);
    case Sealed(txn, blocks) => SameTxn(s.cache, s'.cache, blocks, 0);
    case Leaving(blocks, next, lsn) => SameTxn(s.cache, s'.cache, blocks, next);
    case Finishing => assert forall b :: b in s'.cache && s'.cache[b].inTxn ==> Holds(s.cache, b);
    case WritingBack => assert forall b :: b in s'.cache && s'.cache[b].inTxn ==> Holds(s.cache, b);
    case _ =>
  }

  /** What the cache's own steps need to know. */
  ghost predicate CacheFacts(s: State) {
    && Mounted(s.phase)
    && DiskOk(s.mark.clean, s.disk, s.vol, s.unsynced, s.sure, s.img)
    && CacheOk(s.cache, s.vol, s.now, s.sure, s.img, s.durableLsn)
    && PassOk(s.pass, s.cache, s.vol, s.sure, s.img)
    && (QuietPhase(s.phase) ==> Quiet(s.cache, s.pass, s.vol, s.sure))
    && (s.phase.WritingBack? ==> s.pass.Pass? && s.pass.all && NoTxn(s.cache))
    && (s.pass.Pass? && s.pass.all ==> s.phase.WritingBack?)
  }

  lemma FactsOfStore(s: State)
    requires StoreInv(s) && Mounted(s.phase)
    ensures CacheFacts(s)
  {
    UnfoldStoreInv(s);
  }

  lemma LoadSteps(s: State, b: nat, s': State)
    requires CacheFacts(s) && Load(s, b, s')
    ensures CacheStep(s, s')
  {
    CacheLoad(s.cache, s.vol, s.now, s.sure, s.img, s.durableLsn, b);
    PassLoad(s.pass, s.cache, s.vol, s.sure, s.img, b, s'.cache[b]);
  }

  lemma StoreLoad(s: State, b: nat, s': State)
    requires StoreInv(s) && Load(s, b, s')
    ensures StoreInv(s') && OnlyCache(s, s')
  {
    UnfoldStoreInv(s);
    FactsOfStore(s);
    LoadSteps(s, b, s');
    CacheStepKeeps(s, s');
  }

  lemma EvictDirtySteps(s: State, b: nat, s': State)
    requires CacheFacts(s) && !s.mark.clean && Evict(s, b, s') && s.cache[b].dirty
    ensures CacheStep(s, s')
  {
    assert !QuietPhase(s.phase);
    EvictDirty(s.disk, s.unsynced, s.pass, s.cache, s.vol, s.now, s.sure, s.img, s.durableLsn, b);
    assert forall x :: Holds(s'.cache, x) <==> Holds(s.cache, x);
  }

  lemma EvictCleanSteps(s: State, b: nat, s': State)
    requires CacheFacts(s) && Evict(s, b, s') && !s.cache[b].dirty
    ensures CacheStep(s, s')
  {
    EvictClean(s.pass, s.cache, s.vol, s.now, s.sure, s.img, s.durableLsn, b);
    assert forall x :: Holds(s'.cache, x) <==> Holds(s.cache, x);
  }

  lemma StoreEvict(s: State, b: nat, s': State)
    requires StoreInv(s) && !s.mark.clean && Evict(s, b, s')
    ensures StoreInv(s') && OnlyCache(s, s')
  {
    UnfoldStoreInv(s);
    FactsOfStore(s);
    if s.cache[b].dirty {
      EvictDirtySteps(s, b, s');
    } else {
      EvictCleanSteps(s, b, s');
    }
    CacheStepKeeps(s, s');
  }

  lemma StorePassStart(s: State, s': State)
    requires StoreInv(s) && PassStart(s, s')
    ensures StoreInv(s') && OnlyCache(s, s')
  {
    UnfoldStoreInv(s);
    CacheStepKeeps(s, s');
  }

  lemma PassPickSteps(s: State, chosen: set<nat>, s': State)
    requires CacheFacts(s) && PassPick(s, chosen, s')
    ensures CacheStep(s, s')
  {
    var picked := map b | b in chosen && b in s.cache :: Picked(s.cache[b].version);
    PicksChosen(s.pass.picks, picked, s.cache, s.vol, s.now, s.sure, s.img, s.durableLsn);
    if s.pass.all {
      SweptMore(s.pass.picks, picked, s.cache, s.vol, s.now, s.sure, s.img, s.durableLsn, s.pass.shard);
    }
    if QuietPhase(s.phase) {
      assert chosen == {};
      assert s'.pass.picks == map[];
    }
  }

  lemma StorePassPick(s: State, chosen: set<nat>, s': State)
    requires StoreInv(s) && PassPick(s, chosen, s')
    ensures StoreInv(s') && OnlyCache(s, s')
  {
    UnfoldStoreInv(s);
    FactsOfStore(s);
    PassPickSteps(s, chosen, s');
    CacheStepKeeps(s, s');
  }

  lemma PassCopySteps(s: State, b: nat, s': State)
    requires CacheFacts(s) && PassCopy(s, b, s')
    ensures CacheStep(s, s')
  {
  }

  lemma StorePassCopy(s: State, b: nat, s': State)
    requires StoreInv(s) && PassCopy(s, b, s')
    ensures StoreInv(s') && OnlyCache(s, s')
  {
    UnfoldStoreInv(s);
    FactsOfStore(s);
    PassCopySteps(s, b, s');
    CacheStepKeeps(s, s');
  }

  lemma PassRecheckSteps(s: State, b: nat, s': State)
    requires CacheFacts(s) && PassRecheck(s, b, s')
    ensures CacheStep(s, s')
  {
    assert !QuietPhase(s.phase);
    assert FrameOk(s.cache[b], b, s.vol, s.now, s.sure, s.img, s.durableLsn);
    assert PickOk(s.pass.picks[b], s.cache[b], b, s.vol, s.sure, s.img);
    if s.cache[b].inTxn {
      PickDrops(s.pass, s.cache, s.vol, s.sure, s.img, b);
    } else {
      PickMoves(s.pass, s.cache, s.vol, s.sure, s.img, b, s'.pass.picks[b]);
    }
  }

  lemma StorePassRecheck(s: State, b: nat, s': State)
    requires StoreInv(s) && PassRecheck(s, b, s')
    ensures StoreInv(s') && OnlyCache(s, s')
  {
    UnfoldStoreInv(s);
    FactsOfStore(s);
    PassRecheckSteps(s, b, s');
    CacheStepKeeps(s, s');
  }

  lemma PassWriteSteps(s: State, b: nat, s': State)
    requires CacheFacts(s) && !s.mark.clean && PassWrite(s, b, s')
    ensures CacheStep(s, s')
  {
    assert !QuietPhase(s.phase);
    var bytes := s.pass.picks[b].bytes;
    assert PickOk(s.pass.picks[b], s.cache[b], b, s.vol, s.sure, s.img);
    DiskWrite(s.disk, s.vol, s.unsynced, s.sure, s.img, b, bytes);
    CacheWrite(s.cache, s.vol, s.now, s.sure, s.img, s.durableLsn, b, bytes);
    PickWrites(s.pass, s.cache, s.vol, s.sure, s.img, b);
  }

  lemma StorePassWrite(s: State, b: nat, s': State)
    requires StoreInv(s) && !s.mark.clean && PassWrite(s, b, s')
    ensures StoreInv(s') && OnlyCache(s, s')
  {
    UnfoldStoreInv(s);
    FactsOfStore(s);
    PassWriteSteps(s, b, s');
    CacheStepKeeps(s, s');
  }

  lemma PassCleanSteps(s: State, b: nat, s': State)
    requires CacheFacts(s) && PassClean(s, b, s')
    ensures CacheStep(s, s')
  {
    assert !QuietPhase(s.phase) by {
      assert QuietPhase(s.phase) ==> Quiet(s.cache, s.pass, s.vol, s.sure);
    }
    CleanKeeps(s.pass, s.cache, s.vol, s.now, s.sure, s.img, s.durableLsn, b);
    CleanHolds(s, b, s');
  }

  lemma CleanHolds(s: State, b: nat, s': State)
    requires PassClean(s, b, s')
    ensures forall x :: Holds(s'.cache, x) <==> Holds(s.cache, x)
  {
  }

  lemma StorePassClean(s: State, b: nat, s': State)
    requires StoreInv(s) && PassClean(s, b, s')
    ensures StoreInv(s') && OnlyCache(s, s')
  {
    UnfoldStoreInv(s);
    FactsOfStore(s);
    PassCleanSteps(s, b, s');
    CacheStepKeeps(s, s');
  }

  lemma StorePassEnd(s: State, s': State)
    requires StoreInv(s) && PassEnd(s, s')
    ensures StoreInv(s') && OnlyCache(s, s')
  {
    UnfoldStoreInv(s);
    CacheStepKeeps(s, s');
  }

  lemma StoreCalls(s: State, s': State)
    requires StoreInv(s)
    requires s' == s.(calls := s'.calls, promised := s'.promised)
    ensures StoreInv(s')
  {
    UnfoldStoreInv(s);
  }

  // --------------------------------------------------------------- commit

  /** With no operation running, the recorded blocks are the transaction. */
  lemma TxnRecorded(txn: seq<nat>, cache: map<nat, Frame>)
    requires OpsOk(map[], txn, cache)
    ensures TxnIs(cache, txn, 0)
    ensures txn == [] ==> NoTxn(cache)
  {
    assert txn[0..] == txn;
    assert forall o, b :: !Owes(map[], o, b);
    assert forall b :: b in cache && cache[b].inTxn ==> Holds(cache, b);
  }

  lemma StoreCommitStart(s: State, close: bool, s': State)
    requires StoreInv(s) && CommitStart(s, close, s')
    ensures StoreInv(s')
  {
    UnfoldStoreInv(s);
    TxnRecorded(s.txn, s.cache);
    if s.txn == [] {
      assert PhaseOk(s');
    } else {
      assert TailHolds(s'.part, s.txn[..0], s.now);
      assert PhaseOk(s');
    }
  }

  lemma TailHoldsMore(part: map<nat, Block>, blocks: seq<nat>, next: nat, now: seq<Block>, data: Block)
    requires next < |blocks| && TailHolds(part, blocks[..next], now)
    requires blocks[next] < |now| && data == now[blocks[next]]
    ensures TailHolds(part[blocks[next] := data], blocks[..next + 1], now)
  {
  }

  lemma StoreLogImage(s: State, s': State)
    requires StoreInv(s) && LogImage(s, s')
    ensures StoreInv(s') && SameHistory(s, s')
  {
    UnfoldStoreInv(s);
    var b := s.phase.blocks[s.phase.next];
    assert FrameOk(s.cache[b], b, s.vol, s.now, s.sure, s.img, s.durableLsn);
    TailHoldsMore(s.part, s.phase.blocks, s.phase.next, s.now, s.cache[b].data);
    assert PhaseOk(s');
  }

  lemma StoreLogDone(s: State, s': State)
    requires StoreInv(s) && LogDone(s, s')
    ensures StoreInv(s') && SameHistory(s, s')
  {
    UnfoldStoreInv(s);
    assert s.phase.blocks[..s.phase.next] == s.phase.blocks;
  }

  lemma StoreLogSync(s: State, s': State)
    requires StoreInv(s) && LogSync(s, s') && s.durableLsn < s.nextLsn
    ensures StoreInv(s') && SameHistory(s, s')
  {
    UnfoldStoreInv(s);
    MoreDurable(s.cache, s.vol, s.now, s.sure, s.img, s.durableLsn, s'.durableLsn);
  }

  lemma MoreDurable(cache: map<nat, Frame>, vol: seq<Block>, now: seq<Block>, c: seq<Block>,
                    img: map<nat, Block>, dl: nat, dl': nat)
    requires CacheOk(cache, vol, now, c, img, dl) && dl <= dl'
    ensures CacheOk(cache, vol, now, c, img, dl')
  {
  }

  lemma StoreLogCommit(s: State, s': State)
    requires StoreInv(s) && LogCommit(s, s')
    ensures StoreInv(s') && SameHistory(s, s')
  {
    UnfoldStoreInv(s);
  }

  /** The commit point: the new contents are sure, and its images cover the change. */
  lemma DiskCommit(disk: seq<Block>, vol: seq<Block>, unsynced: set<nat>, c: seq<Block>, now: seq<Block>,
                   img: map<nat, Block>, part: map<nat, Block>, blocks: seq<nat>)
    requires DiskOk(false, disk, vol, unsynced, c, img) && |now| == |c|
    requires TailHolds(part, blocks, now)
    requires forall b :: 0 <= b < |c| && b !in blocks ==> c[b] == now[b]
    ensures DiskOk(false, disk, vol, unsynced, now, img + part)
  {
  }

  lemma CacheCommit(cache: map<nat, Frame>, vol: seq<Block>, now: seq<Block>, c: seq<Block>,
                    img: map<nat, Block>, part: map<nat, Block>, dl: nat, blocks: seq<nat>)
    requires CacheOk(cache, vol, now, c, img, dl) && TxnIs(cache, blocks, 0)
    ensures CacheOk(cache, vol, now, now, img + part, dl)
    ensures forall b :: 0 <= b < |c| && b !in blocks ==> c[b] == now[b]
  {
    assert blocks[0..] == blocks;
    forall x | x in cache ensures FrameOk(cache[x], x, vol, now, now, img + part, dl) {
      assert FrameOk(cache[x], x, vol, now, c, img, dl);
    }
    forall b | 0 <= b < |c| && b !in blocks ensures c[b] == now[b] {
      if b in cache {
        assert FrameOk(cache[b], b, vol, now, c, img, dl);
        assert !Holds(cache, b);
      }
    }
  }

  lemma PassCommit(pass: Pass, cache: map<nat, Frame>, vol: seq<Block>, now: seq<Block>, c: seq<Block>,
                   img: map<nat, Block>, part: map<nat, Block>, dl: nat)
    requires PassOk(pass, cache, vol, c, img) && CacheOk(cache, vol, now, c, img, dl)
    ensures PassOk(pass, cache, vol, now, img + part)
  {
  }

  lemma StoreCommitSync(s: State, s': State)
    requires StoreInv(s) && !s.mark.clean && CommitSync(s, s') && s.durableLsn < s.nextLsn
    ensures StoreInv(s')
  {
    UnfoldStoreInv(s);
    var blocks := s.phase.blocks;
    CacheCommit(s.cache, s.vol, s.now, s.sure, s.img, s.part, s.durableLsn, blocks);
    DiskCommit(s.disk, s.vol, s.unsynced, s.sure, s.now, s.img, s.part, blocks);
    PassCommit(s.pass, s.cache, s.vol, s.now, s.sure, s.img, s.part, s.durableLsn);
    MoreDurable(s.cache, s.vol, s.now, s.now, s'.img, s.durableLsn, s'.durableLsn);
  }

  lemma CacheLeave(cache: map<nat, Frame>, vol: seq<Block>, c: seq<Block>, img: map<nat, Block>, dl: nat, b: nat)
    requires CacheOk(cache, vol, c, c, img, dl) && b in cache && b in img
    ensures var f := cache[b].(inTxn := false, lsn := dl, version := cache[b].version + 1, dirty := true);
            CacheOk(cache[b := f], vol, c, c, img, dl)
  {
  }

  lemma PassLeave(pass: Pass, cache: map<nat, Frame>, vol: seq<Block>, c: seq<Block>, img: map<nat, Block>,
                  b: nat, f: Frame)
    requires PassOk(pass, cache, vol, c, img) && b in cache && f.version > cache[b].version && f.dirty
    requires pass.Pass? ==> !pass.all
    ensures PassOk(pass, cache[b := f], vol, c, img)
  {
  }

  lemma TxnLeave(cache: map<nat, Frame>, blocks: seq<nat>, next: nat, f: Frame)
    requires TxnIs(cache, blocks, next) && next < |blocks| && !f.inTxn
    ensures TxnIs(cache[blocks[next] := f], blocks, next + 1)
  {
    var cache' := cache[blocks[next] := f];
    forall i | next + 1 <= i < |blocks| ensures Holds(cache', blocks[i]) {
      assert Holds(cache, blocks[i]);
    }
    forall b | Holds(cache', b) ensures b in blocks[next + 1..] {
      assert Holds(cache, b);
      assert blocks[next..] == [blocks[next]] + blocks[next + 1..];
    }
  }

  lemma StoreFrameLeave(s: State, s': State)
    requires StoreInv(s) && s.now == s.sure && FrameLeave(s, s')
    ensures StoreInv(s') && SameHistory(s, s')
  {
    UnfoldStoreInv(s);
    var b := s.phase.blocks[s.phase.next];
    CacheLeave(s.cache, s.vol, s.sure, s.img, s.durableLsn, b);
    PassLeave(s.pass, s.cache, s.vol, s.sure, s.img, b, s'.cache[b]);
    TxnLeave(s.cache, s.phase.blocks, s.phase.next, s'.cache[b]);
    assert PhaseOk(s');
  }

  lemma StoreLeaveDone(s: State, s': State)
    requires StoreInv(s) && LeaveDone(s, s')
    ensures StoreInv(s') && SameHistory(s, s')
  {
    UnfoldStoreInv(s);
    assert forall b :: b in s.cache && s.cache[b].inTxn ==> Holds(s.cache, b);
  }

  lemma StoreCommitEnd(s: State, s': State)
    requires StoreInv(s) && CommitEnd(s, s')
    ensures StoreInv(s')
  {
    UnfoldStoreInv(s);
  }

  // ----------------------------------------------------------- checkpoint

  lemma StoreCheckpointStart(s: State, s': State)
    requires StoreInv(s) && CheckpointStart(s, s')
    ensures StoreInv(s') && SameHistory(s, s')
  {
    UnfoldStoreInv(s);
  }

  /** With every shard swept and every pick gone, nothing dirty is left. */
  lemma StoreCheckpointWritten(s: State, s': State)
    requires StoreInv(s) && s.now == s.sure && CheckpointWritten(s, s')
    ensures StoreInv(s') && SameHistory(s, s')
  {
    UnfoldStoreInv(s);
    forall b | b in s.cache ensures !s.cache[b].dirty && s.vol[b] == s.sure[b] {
      assert b % SHARDS < s.pass.shard;
      assert FrameOk(s.cache[b], b, s.vol, s.now, s.sure, s.img, s.durableLsn);
    }
    assert s.vol == s.sure;
  }

  lemma StoreSettleSync(s: State, s': State)
    requires StoreInv(s) && SettleSync(s, s')
    ensures StoreInv(s') && SameHistory(s, s')
  {
    UnfoldStoreInv(s);
  }

  lemma StoreSettleMark(s: State, s': State)
    requires StoreInv(s) && SettleMark(s, s')
    ensures StoreInv(s') && SameHistory(s, s')
  {
    UnfoldStoreInv(s);
  }

  /** Past the sync, the images no longer matter. */
  lemma StoreSettleMarkSync(s: State, s': State)
    requires StoreInv(s) && SettleMarkSync(s, s') && !s'.mark.clean
    ensures StoreInv(s') && SameHistory(s, s')
  {
    UnfoldStoreInv(s);
    if Mounted(s.phase) {
      CacheSettled(s.cache, s.vol, s.now, s.sure, s.img, s.durableLsn, s.durableLsn);
    }
  }

  lemma CacheSettled(cache: map<nat, Frame>, vol: seq<Block>, now: seq<Block>, c: seq<Block>,
                     img: map<nat, Block>, dl: nat, dl': nat)
    requires CacheOk(cache, vol, now, c, img, dl) && dl <= dl'
    requires forall b :: b in cache ==> !cache[b].dirty
    ensures CacheOk(cache, vol, now, c, map[], dl')
  {
  }

  lemma StoreSettleTruncate(s: State, s': State)
    requires StoreInv(s) && SettleTruncate(s, s')
    ensures StoreInv(s') && SameHistory(s, s')
  {
    UnfoldStoreInv(s);
  }

  lemma StoreSettleTruncateSync(s: State, s': State)
    requires StoreInv(s) && SettleTruncateSync(s, s')
    requires Mounted(s.phase) ==> s.durableLsn <= s.phase.last
    ensures StoreInv(s') && SameHistory(s, s')
  {
    UnfoldStoreInv(s);
    if Mounted(s.phase) {
      CacheSettled(s.cache, s.vol, s.now, s.sure, s.img, s.durableLsn, s'.durableLsn);
    }
  }

  // ------------------------------------------------------ close and mount

  lemma StoreCloseMark(s: State, s': State)
    requires StoreInv(s) && CloseMark(s, s')
    ensures StoreInv(s') && SameHistory(s, s')
  {
    UnfoldStoreInv(s);
  }

  lemma StoreUnmounted(s: State, s': State)
    requires StoreInv(s) && s.now == s.sure && Unmounted(s, s') && s'.mark.clean
    ensures StoreInv(s')
  {
    UnfoldStoreInv(s);
  }

  lemma StoreMountStart(s: State, s': State)
    requires StoreInv(s) && MountStart(s, s')
    ensures StoreInv(s') && SameHistory(s, s')
  {
    UnfoldStoreInv(s);
  }

  lemma RedoWrites(disk: seq<Block>, vol: seq<Block>, unsynced: set<nat>, c: seq<Block>, img: map<nat, Block>,
                   part: map<nat, Block>, b: nat, data: Block)
    requires DiskOk(false, disk, vol, unsynced, c, img) && IsOverlay(vol, part, disk)
    requires b < |vol| && b in img
    ensures DiskOk(false, disk, vol[b := data], unsynced + {b}, c, img)
    ensures IsOverlay(vol[b := data], part[b := data], disk)
  {
  }

  lemma StoreRedoStep(s: State, s': State)
    requires StoreInv(s) && RedoStep(s, s')
    requires s'.part.Keys <= s.img.Keys
    ensures StoreInv(s') && SameHistory(s, s')
  {
    UnfoldStoreInv(s);
    var r := s.log[s.phase.next];
    if Redoable(r, s.mark.ckpt, Done(s.log)) && r.body.block < |s.vol| {
      assert r.body.block in s'.part;
      RedoWrites(s.disk, s.vol, s.unsynced, s.sure, s.img, s.part, r.body.block, r.body.data);
    }
    assert PhaseOk(s');
  }

  lemma StoreRedoDone(s: State, s': State)
    requires StoreInv(s) && RedoDone(s, s') && s.part == s.img
    ensures StoreInv(s') && SameHistory(s, s')
  {
    UnfoldStoreInv(s);
    assert s.vol == s.sure;
  }

  lemma StoreInUseMark(s: State, s': State)
    requires StoreInv(s) && InUseMark(s, s')
    ensures StoreInv(s') && SameHistory(s, s')
  {
    UnfoldStoreInv(s);
  }

  lemma StoreMountDone(s: State, s': State)
    requires StoreInv(s) && MountDone(s, s') && s.img == map[] && !s'.mark.clean
    ensures StoreInv(s')
  {
    UnfoldStoreInv(s);
    assert IsOverlay(s.sure, s.img, s.disk);
  }
}
