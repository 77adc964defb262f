/** What a merged table does to lookups in the stack it was made from. */
module CompactionView {
  import opened Bytes
  import opened Records
  import opened SparseIndex
  import opened Layers
  import opened Compactor

  ghost predicate Descending(runs: seq<Run>)
  {
    forall i, j :: 0 <= i < j < |runs| ==> runs[i].fileId > runs[j].fileId
  }

  function LayersOf(runs: seq<Run>): (s: seq<Layer>)
    ensures |s| == |runs| && forall i :: 0 <= i < |runs| ==> s[i] == runs[i].records
  {
    if runs == [] then [] else [runs[0].records] + LayersOf(runs[1..])
  }

  /** In a newest-first stack the first layer with a key is the winner of the merge. */
  lemma {:induction false} FirstWins(runs: seq<Run>, key: seq<byte>)
    requires Descending(runs)
    ensures var found := FirstIn(LayersOf(runs), key);
            && (found.None? ==> forall i :: 0 <= i < |runs| ==> FirstWithKey(runs[i].records, key).None?)
            && (found.Some? ==> exists i: nat :: WinsAt(runs, key, i) && FirstWithKey(runs[i].records, key) == found)
  {
    if runs != [] {
      var found := FirstIn(LayersOf(runs), key);
      if FirstWithKey(runs[0].records, key).Some? {
        assert WinsAt(runs, key, 0);
      } else {
        assert LayersOf(runs)[1..] == LayersOf(runs[1..]);
        FirstWins(runs[1..], key);
        if found.Some? {
          var i: nat :| WinsAt(runs[1..], key, i) && FirstWithKey(runs[1..][i].records, key) == found;
          forall j | 0 <= j < |runs| && FirstWithKey(runs[j].records, key).Some? ensures runs[j].fileId <= runs[i + 1].fileId {
            assert j > 0 && runs[j] == runs[1..][j - 1];
          }
          assert WinsAt(runs, key, i + 1);
        } else {
          assert forall i :: 1 <= i < |runs| ==> runs[i] == runs[1..][i - 1];
        }
      }
    }
  }

  lemma {:induction false} StrictFind(out: seq<LogRecord>, r: LogRecord)
    requires StrictKeys(out) && r in out
    ensures FirstWithKey(out, r.key) == Some(r)
  {
    if out[0] != r {
      var j :| 0 <= j < |out| && out[j] == r;
      assert Less(out[0].key, out[j].key);
      LessTrichotomy(out[0].key, r.key);
      assert out[1..][j - 1] == r;
      StrictFind(out[1..], r);
    }
  }

  /** The merged table answers a key with its newest version, unless that is a dropped tombstone. */
  lemma MergedLookup(runs: seq<Run>, isBottomLevel: bool, merged: seq<LogRecord>, key: seq<byte>)
    requires Inputs(runs) && Descending(runs) && IsMerge(runs, isBottomLevel, merged)
    ensures var newest := FirstIn(LayersOf(runs), key);
            FirstWithKey(merged, key) == if newest.Some? && Dropped(newest.value, isBottomLevel) then None else newest
  {
    FirstWins(runs, key);
    var newest := FirstIn(LayersOf(runs), key);
    if newest.Some? && !Dropped(newest.value, isBottomLevel) {
      var r := newest.value;
      assert r.key == key && Survives(runs, isBottomLevel, r);
      StrictFind(merged, r);
    } else if FirstWithKey(merged, key).Some? {
      FoundIsNewest(runs, isBottomLevel, merged, key);
    }
  }

  /** What the merged table holds for a key is the newest input version, not dropped. */
  lemma FoundIsNewest(runs: seq<Run>, isBottomLevel: bool, merged: seq<LogRecord>, key: seq<byte>)
    requires Inputs(runs) && Descending(runs) && IsMerge(runs, isBottomLevel, merged) && FirstWithKey(merged, key).Some?
    ensures FirstIn(LayersOf(runs), key) == FirstWithKey(merged, key)
    ensures !Dropped(FirstWithKey(merged, key).value, isBottomLevel)
  {
    var found := FirstWithKey(merged, key);
    FirstWins(runs, key);
    assert Survives(runs, isBottomLevel, found.value);
    var j: nat :| WinsAt(runs, key, j) && FirstWithKey(runs[j].records, key) == found;
    var newest := FirstIn(LayersOf(runs), key);
    assert newest.Some?;
    var i: nat :| WinsAt(runs, key, i) && FirstWithKey(runs[i].records, key) == newest;
    WinnerIsUnique(runs, key, i, j);
  }

  /** Putting the merged table in front and keeping the inputs behind it changes no answer. */
  lemma KeepingInputsChangesNothing(runs: seq<Run>, isBottomLevel: bool, merged: seq<LogRecord>, older: seq<Layer>, key: seq<byte>)
    requires Inputs(runs) && Descending(runs) && IsMerge(runs, isBottomLevel, merged)
    ensures FirstIn([merged] + LayersOf(runs) + older, key) == FirstIn(LayersOf(runs) + older, key)
  {
    MergedLookup(runs, isBottomLevel, merged, key);
    StackAppend([merged] + LayersOf(runs), older, key);
    StackAppend([merged], LayersOf(runs), key);
    StackAppend(LayersOf(runs), older, key);
    StackOfOne(merged, key);
  }

  /** Replacing the inputs by the merged table keeps a key's answer exactly unless the newest input version
      is a dropped tombstone and the older layers still answer the key with a live record. */
  lemma ReplacingInputsExact(runs: seq<Run>, isBottomLevel: bool, merged: seq<LogRecord>, older: seq<Layer>, key: seq<byte>)
    requires Inputs(runs) && Descending(runs) && IsMerge(runs, isBottomLevel, merged)
    ensures var newest := FirstIn(LayersOf(runs), key);
            Live(FirstIn([merged] + older, key)) == Live(FirstIn(LayersOf(runs) + older, key))
            <==> !(newest.Some? && Dropped(newest.value, isBottomLevel) && Live(FirstIn(older, key)).Some?)
  {
    MergedLookup(runs, isBottomLevel, merged, key);
    StackAppend([merged], older, key);
    StackAppend(LayersOf(runs), older, key);
    StackOfOne(merged, key);
  }

  /** The merge does not depend on the order in which the inputs are listed. */
  lemma AnyOrder(runs: seq<Run>, listing: seq<Run>, isBottomLevel: bool, merged: seq<LogRecord>)
    requires (forall x :: x in runs <==> x in listing) && IsMerge(listing, isBottomLevel, merged)
    ensures IsMerge(runs, isBottomLevel, merged)
  {
    forall r ensures Survives(runs, isBottomLevel, r) <==> Survives(listing, isBottomLevel, r) {
      if Survives(runs, isBottomLevel, r) { SurvivesThere(runs, listing, isBottomLevel, r); }
      if Survives(listing, isBottomLevel, r) { SurvivesThere(listing, runs, isBottomLevel, r); }
    }
  }

  lemma SurvivesThere(runs: seq<Run>, listing: seq<Run>, isBottomLevel: bool, r: LogRecord)
    requires (forall x :: x in runs <==> x in listing) && Survives(runs, isBottomLevel, r)
    ensures Survives(listing, isBottomLevel, r)
  {
    var i: nat :| WinsAt(runs, r.key, i) && FirstWithKey(runs[i].records, r.key) == Some(r);
    assert runs[i] in listing;
    var j :| 0 <= j < |listing| && listing[j] == runs[i];
    forall k | 0 <= k < |listing| && FirstWithKey(listing[k].records, r.key).Some? ensures listing[k].fileId <= listing[j].fileId {
      assert listing[k] in runs;
      var l :| 0 <= l < |runs| && runs[l] == listing[k];
    }
    assert WinsAt(listing, r.key, j);
  }
}
