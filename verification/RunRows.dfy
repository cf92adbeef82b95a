/** A whole run's rows: several tiers written one after another in shuffled order, regrouped by the loader
    under concurrency, repetition and offset. */
module RunRows {
  import opened TimedTicks
  import opened TierRows

  datatype TierKey = TierKey(concurrency: int, repetition: int)

  datatype FileRow = FileRow(tier: TierKey, row: Row)

  /** What one tier wrote. */
  datatype TierRun = TierRun(tier: TierKey, ticks: seq<Stamped>)

  function Tagged(tier: TierKey, rows: seq<Row>): (r: seq<FileRow>)
    ensures |r| == |rows| && forall i | 0 <= i < |r| :: r[i] == FileRow(tier, rows[i])
  {
    seq(|rows|, i requires 0 <= i < |rows| => FileRow(tier, rows[i]))
  }

  function FileOf(run: seq<TierRun>): seq<FileRow> {
    if run == [] then []
    else
      var n := |run| - 1;
      FileOf(run[..n]) + Tagged(run[n].tier, RowsOf(run[n].ticks))
  }

  // ----- Reading the file -----

  predicate Precedes(a: TierKey, b: TierKey) {
    a.concurrency < b.concurrency || (a.concurrency == b.concurrency && a.repetition < b.repetition)
  }

  /** Puts a key in its place, once. */
  function AddKey(k: TierKey, keys: seq<TierKey>): seq<TierKey> {
    if keys == [] || Precedes(k, keys[0]) then [k] + keys
    else if k == keys[0] then keys
    else [keys[0]] + AddKey(k, keys[1..])
  }

  function TierKeys(file: seq<FileRow>): seq<TierKey> {
    if file == [] then [] else AddKey(file[|file| - 1].tier, TierKeys(file[..|file| - 1]))
  }

  function RowsIn(file: seq<FileRow>, tier: TierKey): seq<Row> {
    if file == [] then []
    else
      var n := |file| - 1;
      RowsIn(file[..n], tier) + if file[n].tier == tier then [file[n].row] else []
  }

  datatype LoadedTier = LoadedTier(tier: TierKey, ticks: seq<Loaded>)

  /** The groups in key order, each tier's offsets ascending. */
  function LoadFile(file: seq<FileRow>): (r: seq<LoadedTier>)
    ensures |r| == |TierKeys(file)|
    ensures forall i | 0 <= i < |r| :: r[i] == LoadedTier(TierKeys(file)[i], Load(RowsIn(file, TierKeys(file)[i]), 0.0))
  {
    var keys := TierKeys(file);
    seq(|keys|, i requires 0 <= i < |keys| => LoadedTier(keys[i], Load(RowsIn(file, keys[i]), 0.0)))
  }

  // ----- The keys -----

  ghost predicate KeysAscend(keys: seq<TierKey>) {
    forall i, j | 0 <= i < j < |keys| ::
      keys[i].concurrency < keys[j].concurrency ||
      (keys[i].concurrency == keys[j].concurrency && keys[i].repetition < keys[j].repetition)
  }

  lemma {:induction false} AddKeyMeans(k: TierKey, keys: seq<TierKey>)
    requires KeysAscend(keys)
    ensures KeysAscend(AddKey(k, keys))
    ensures forall x :: x in AddKey(k, keys) <==> x == k || x in keys
  {
    if keys == [] || Precedes(k, keys[0]) {
    } else if k != keys[0] {
      assert keys == [keys[0]] + keys[1..];
      AddKeyMeans(k, keys[1..]);
      var rest := AddKey(k, keys[1..]);
      forall i | 0 <= i < |rest| ensures Precedes(keys[0], rest[i]) {
        assert rest[i] in rest;
      }
    }
  }

  lemma {:induction false} TierKeysMean(file: seq<FileRow>)
    ensures KeysAscend(TierKeys(file))
    ensures forall k :: k in TierKeys(file) <==> exists r :: r in file && r.tier == k
  {
    if file != [] {
      var n := |file| - 1;
      TierKeysMean(file[..n]);
      AddKeyMeans(file[n].tier, TierKeys(file[..n]));
      hide AddKey, KeysAscend;
      assert forall r :: r in file <==> r in file[..n] || r == file[n] by {
        assert file == file[..n] + [file[n]];
      }
    }
  }

  // ----- Each tier comes back by itself -----

  ghost predicate DistinctTiers(run: seq<TierRun>) {
    forall i, j | 0 <= i < j < |run| :: run[i].tier != run[j].tier
  }

  lemma {:induction false} RowsInAppend(a: seq<FileRow>, b: seq<FileRow>, tier: TierKey)
    ensures RowsIn(a + b, tier) == RowsIn(a, tier) + RowsIn(b, tier)
  {
    if b == [] {
      assert a + b == a;
    } else {
      var n := |b| - 1;
      assert (a + b)[..|a + b| - 1] == a + b[..n];
      RowsInAppend(a, b[..n], tier);
    }
  }

  lemma {:induction false} RowsInTagged(tag: TierKey, rows: seq<Row>, tier: TierKey)
    ensures RowsIn(Tagged(tag, rows), tier) == if tag == tier then rows else []
  {
    if rows != [] {
      var n := |rows| - 1;
      RowsInTagged(tag, rows[..n], tier);
      assert Tagged(tag, rows)[..n] == Tagged(tag, rows[..n]);
      assert rows == rows[..n] + [rows[n]];
    }
  }

  lemma {:induction false} RowsOfTier(run: seq<TierRun>, tier: TierKey)
    requires DistinctTiers(run)
    ensures forall i | 0 <= i < |run| && run[i].tier == tier :: RowsIn(FileOf(run), tier) == RowsOf(run[i].ticks)
    ensures (forall i | 0 <= i < |run| :: run[i].tier != tier) ==> RowsIn(FileOf(run), tier) == []
  {
    hide RowsOf;
    if run != [] {
      var n := |run| - 1;
      RowsOfTier(run[..n], tier);
      var rows := RowsOf(run[n].ticks);
      RowsInAppend(FileOf(run[..n]), Tagged(run[n].tier, rows), tier);
      RowsInTagged(run[n].tier, rows, tier);
      assert [] + rows == rows;
      hide RowsIn;
      forall i | 0 <= i < n && run[i].tier == tier ensures RowsIn(FileOf(run), tier) == RowsOf(run[i].ticks) {
        assert run[..n][i] == run[i];
        assert RowsOf(run[i].ticks) + [] == RowsOf(run[i].ticks);
      }
    }
  }

  lemma RowsMissing(ticks: seq<Stamped>)
    requires Filled(ticks)
    ensures RowsOf(ticks) == [] <==> ticks == []
  {
    if ticks != [] {
      var n := |ticks| - 1;
      TickRowsShare(ticks[n].tick, |ticks[n].tick.byOp|);
    }
  }

  lemma {:induction false} SomeRowIff(file: seq<FileRow>, tier: TierKey)
    ensures RowsIn(file, tier) != [] <==> exists r :: r in file && r.tier == tier
  {
    if file != [] {
      var n := |file| - 1;
      SomeRowIff(file[..n], tier);
      assert forall r :: r in file <==> r in file[..n] || r == file[n] by {
        assert file == file[..n] + [file[n]];
      }
    }
  }

  /** Whatever order the tiers were run in, the file reads back tier by tier in key order: the keys are
      those of the tiers that wrote anything, and each tier's ticks are exactly its own. */
  lemma RunReloads(run: seq<TierRun>, i: nat)
    requires DistinctTiers(run) && i < |run| && Rising(run[i].ticks) && Filled(run[i].ticks)
    ensures var file := FileOf(run);
      && KeysAscend(TierKeys(file))
      && (run[i].tier in TierKeys(file) <==> run[i].ticks != [])
      && (forall l | l in LoadFile(file) && l.tier == run[i].tier :: l.ticks == Reloaded(run[i].ticks))
  {
    hide RowsOf, Load, FileOf, DistinctTiers;
    var file, tier := FileOf(run), run[i].tier;
    TierKeysMean(file);
    RowsOfTier(run, tier);
    RowsMissing(run[i].ticks);
    SomeRowIff(file, tier);
    LoadRising(run[i].ticks);
    hide TierKeys, RowsIn, KeysAscend, Rising, Filled;
  }

  /** No tier appears that was not run. */
  lemma OnlyTiersRun(run: seq<TierRun>, tier: TierKey)
    requires DistinctTiers(run) && tier in TierKeys(FileOf(run))
    ensures exists i :: 0 <= i < |run| && run[i].tier == tier
  {
    hide FileOf, TierKeys, RowsOf, DistinctTiers;
    TierKeysMean(FileOf(run));
    RowsOfTier(run, tier);
    SomeRowIff(FileOf(run), tier);
  }
}
