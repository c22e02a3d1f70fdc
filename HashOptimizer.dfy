/** hash-optimizer.js (also inlined at the top of script.js): a table of
    `null` placeholders for every key `${i}${j}` with i, j in [1000, 1100),
    then filled in the background, a batch per timer tick, by a cursor over
    the table's keys. A batch's 5 ms budget is the number of keys it
    visits; the library `sha256` either returns a digest or throws, and
    whether it is present (`window.sha256`) is given per batch. */
module HashOptimizer {
  import opened Optional
  import opened JsNumber
  import opened Keys
  import opened Digest

  const TABLE_LO: nat := 1000
  const TABLE_HI: nat := 1100

  /** `cache`: a null placeholder is `None`. */
  type Table = map<string, Option<string>>

  /** The numeric value of a key; `Object.keys` lists integer-like keys by
      ascending value. */
  function KeyValue(k: string): nat
    requires AllDigits(k, 10)
  {
    ParseRadix(k, 10)
  }

  /** Every key is `${i}${j}` for a pair of the window. */
  ghost predicate InTableWindow(k: string) {
    exists i: nat, j: nat :: TABLE_LO <= i < TABLE_HI && TABLE_LO <= j < TABLE_HI && k == PairKey(i, j)
  }

  /** The key sequence after rows TABLE_LO..i-1 and row i below j: the
      right length, eight decimal digits each, ascending, and below the
      next key. */
  ghost predicate KeysBuilt(keys: seq<string>, i: nat, j: nat)
    requires TABLE_LO <= i && TABLE_LO <= j
  {
    && |keys| == (i - TABLE_LO) * (TABLE_HI - TABLE_LO) + (j - TABLE_LO)
    && (forall n :: 0 <= n < |keys| ==> |keys[n]| == 8 && AllDigits(keys[n], 10))
    && (forall m, n :: 0 <= m < n < |keys| ==> KeyValue(keys[m]) < KeyValue(keys[n]))
    && (forall n :: 0 <= n < |keys| ==> KeyValue(keys[n]) < i * 10000 + j)
  }

  /** The table holds exactly the keys, each a placeholder for a pair of
      the window. */
  ghost predicate TableMatches(table: Table, keys: seq<string>) {
    && (forall k :: k in table <==> k in keys)
    && (forall k :: k in table ==> table[k] == None && InTableWindow(k))
  }

  /** The table holds `${i'}${j'}` for the rows below i and for row i
      below j. */
  ghost predicate RowsStored(table: Table, i: nat, j: nat) {
    && (forall i': nat, j': nat :: TABLE_LO <= i' < i && TABLE_LO <= j' < TABLE_HI ==> PairKey(i', j') in table)
    && (forall j': nat :: TABLE_LO <= j' < j ==> PairKey(i, j') in table)
  }

  /** What the placeholder loops have built when they stand at (i, j). */
  ghost predicate Built(table: Table, keys: seq<string>, i: nat, j: nat)
    requires TABLE_LO <= i && TABLE_LO <= j
  {
    KeysBuilt(keys, i, j) && TableMatches(table, keys) && RowsStored(table, i, j)
  }

  lemma KeysStep(keys: seq<string>, i: nat, j: nat)
    requires TABLE_LO <= i < TABLE_HI && TABLE_LO <= j < TABLE_HI
    requires KeysBuilt(keys, i, j)
    ensures KeysBuilt(keys + [PairKey(i, j)], i, j + 1)
  {
    var concat := PairKey(i, j);
    PairKeyShape(i, j);
    var keys' := keys + [concat];
    assert KeyValue(concat) == i * 10000 + j;
    assert forall n :: 0 <= n < |keys| ==> keys'[n] == keys[n];
    assert keys'[|keys|] == concat;
  }

  lemma TableStep(table: Table, keys: seq<string>, i: nat, j: nat)
    requires TABLE_LO <= i < TABLE_HI && TABLE_LO <= j < TABLE_HI
    requires TableMatches(table, keys)
    ensures TableMatches(table[PairKey(i, j) := None], keys + [PairKey(i, j)])
  {
    assert InTableWindow(PairKey(i, j));
  }

  lemma RowsStep(table: Table, i: nat, j: nat)
    requires RowsStored(table, i, j)
    ensures RowsStored(table[PairKey(i, j) := None], i, j + 1)
  {
  }

  /** Storing `${i}${j}` moves the loops one key on. */
  lemma BuiltStep(table: Table, keys: seq<string>, i: nat, j: nat)
    requires TABLE_LO <= i < TABLE_HI && TABLE_LO <= j < TABLE_HI
    requires Built(table, keys, i, j)
    ensures Built(table[PairKey(i, j) := None], keys + [PairKey(i, j)], i, j + 1)
  {
    KeysStep(keys, i, j);
    TableStep(table, keys, i, j);
    RowsStep(table, i, j);
  }

  /** A finished row is the start of the next one. */
  lemma BuiltNextRow(table: Table, keys: seq<string>, i: nat)
    requires TABLE_LO <= i < TABLE_HI
    requires Built(table, keys, i, TABLE_HI)
    ensures Built(table, keys, i + 1, TABLE_LO)
  {
  }

  /** The finished placeholder table and its key list: 10000 keys of eight
      decimal digits, strictly ascending by value (so distinct and in
      `Object.keys` order), exactly the table's keys, every entry `null`,
      every key `${i}${j}` of the window and every such pair present. */
  ghost predicate Placeholders(table: Table, keys: seq<string>) {
    && |keys| == (TABLE_HI - TABLE_LO) * (TABLE_HI - TABLE_LO)
    && (forall n :: 0 <= n < |keys| ==> |keys[n]| == 8 && AllDigits(keys[n], 10))
    && (forall m, n :: 0 <= m < n < |keys| ==> KeyValue(keys[m]) < KeyValue(keys[n]))
    && (forall m, n :: 0 <= m < n < |keys| ==> keys[m] != keys[n])
    && (forall k :: k in table <==> k in keys)
    && (forall k :: k in table ==> table[k] == None && InTableWindow(k))
    && (forall i: nat, j: nat :: TABLE_LO <= i < TABLE_HI && TABLE_LO <= j < TABLE_HI ==> PairKey(i, j) in table)
  }

  /** The loops of `precomputeCommonHashes` (hash-optimizer.js:24-32):
      `table` is the placeholder table and `keys` its keys in insertion
      order, which is ascending numeric order and so `Object.keys` order. */
  method BuildPlaceholderTable() returns (table: Table, keys: seq<string>)
    ensures Placeholders(table, keys)
  {
    table := map[];
    keys := [];
    var i := TABLE_LO;
    while i < TABLE_HI
      invariant TABLE_LO <= i <= TABLE_HI
      invariant Built(table, keys, i, TABLE_LO)
    {
      var j := TABLE_LO;
      while j < TABLE_HI
        invariant TABLE_LO <= j <= TABLE_HI
        invariant Built(table, keys, i, j)
      {
        var concat := PairKey(i, j);
        BuiltStep(table, keys, i, j);
        table := table[concat := None];
        keys := keys + [concat];
        j := j + 1;
      }
      BuiltNextRow(table, keys, i);
      i := i + 1;
    }
  }

  /** One visit of the batch loop to `key` (hash-optimizer.js:51-60): a
      null entry takes the library's digest when the library is present
      and returns; anything else leaves the table as it is. */
  function FillOne(cache: Table, key: string, sha256: string -> LibReply, present: bool): (r: Table)
    ensures r.Keys == cache.Keys
  {
    if key in cache && cache[key] == None && present && sha256(key).Returned?
    then cache[key := Some(sha256(key).hex)]
    else cache
  }

  /** Visiting keys[lo..hi] in order. */
  function FillRange(cache: Table, keys: seq<string>, lo: nat, hi: nat, sha256: string -> LibReply, present: bool): (r: Table)
    requires lo <= hi <= |keys|
    ensures r.Keys == cache.Keys
    decreases hi - lo
  {
    if lo == hi then cache
    else FillOne(FillRange(cache, keys, lo, hi - 1, sha256, present), keys[hi - 1], sha256, present)
  }

  /** The entry for k once the keys have been visited: the digest when k
      was visited, was null and the library returned; else the entry as
      it was. */
  function Filled(cache: Table, k: string, visited: bool, sha256: string -> LibReply, present: bool): Option<string>
    requires k in cache
  {
    if visited && cache[k] == None && present && sha256(k).Returned? then Some(sha256(k).hex) else cache[k]
  }

  lemma FillRangeStep(cache: Table, keys: seq<string>, lo: nat, hi: nat, sha256: string -> LibReply, present: bool)
    requires lo < hi <= |keys|
    requires forall k :: k in cache ==>
      FillRange(cache, keys, lo, hi - 1, sha256, present)[k] == Filled(cache, k, k in keys[lo..hi - 1], sha256, present)
    ensures forall k :: k in cache ==>
      FillRange(cache, keys, lo, hi, sha256, present)[k] == Filled(cache, k, k in keys[lo..hi], sha256, present)
  {
    assert keys[lo..hi] == keys[lo..hi - 1] + [keys[hi - 1]];
  }

  /** The whole effect of visiting keys[lo..hi]: every entry is as
      `Filled` says. */
  lemma {:induction false} FillRangeValues(cache: Table, keys: seq<string>, lo: nat, hi: nat, sha256: string -> LibReply, present: bool)
    requires lo <= hi <= |keys|
    ensures forall k :: k in cache ==>
      FillRange(cache, keys, lo, hi, sha256, present)[k] == Filled(cache, k, k in keys[lo..hi], sha256, present)
    decreases hi - lo
  {
    if lo < hi {
      FillRangeValues(cache, keys, lo, hi - 1, sha256, present);
      FillRangeStep(cache, keys, lo, hi, sha256, present);
    }
  }

  /** Only null entries change: an entry that was set stays as it was,
      and no key is added or removed. */
  lemma FillRangeOnlyNull(cache: Table, keys: seq<string>, lo: nat, hi: nat, sha256: string -> LibReply, present: bool)
    requires lo <= hi <= |keys|
    ensures FillRange(cache, keys, lo, hi, sha256, present).Keys == cache.Keys
    ensures forall k :: k in cache && cache[k].Some? ==> FillRange(cache, keys, lo, hi, sha256, present)[k] == cache[k]
  {
    FillRangeValues(cache, keys, lo, hi, sha256, present);
  }

  /** A changed entry was null, its key was visited, the library was
      present, and the value is the library's digest of that same key. */
  lemma FillRangeWrites(cache: Table, keys: seq<string>, lo: nat, hi: nat, sha256: string -> LibReply, present: bool, k: string)
    requires lo <= hi <= |keys| && k in cache
    requires FillRange(cache, keys, lo, hi, sha256, present)[k] != cache[k]
    ensures cache[k] == None && present && k in keys[lo..hi]
    ensures sha256(k).Returned? && FillRange(cache, keys, lo, hi, sha256, present)[k] == Some(sha256(k).hex)
  {
    FillRangeValues(cache, keys, lo, hi, sha256, present);
  }

  /** A throw on one key does not stop the others: every visited null
      entry whose digest the present library returns is filled. */
  lemma FillRangeSkipsFailures(cache: Table, keys: seq<string>, lo: nat, hi: nat, sha256: string -> LibReply, n: nat)
    requires lo <= n < hi <= |keys|
    requires keys[n] in cache && cache[keys[n]] == None && sha256(keys[n]).Returned?
    ensures FillRange(cache, keys, lo, hi, sha256, true)[keys[n]] == Some(sha256(keys[n]).hex)
  {
    FillRangeValues(cache, keys, lo, hi, sha256, true);
    assert keys[n] in keys[lo..hi] by {
      assert keys[lo..hi][n - lo] == keys[n];
    }
  }

  /** Two consecutive ranges are one range. */
  lemma {:induction false} FillRangeCompose(cache: Table, keys: seq<string>, lo: nat, mid: nat, hi: nat, sha256: string -> LibReply, present: bool)
    requires lo <= mid <= hi <= |keys|
    ensures FillRange(FillRange(cache, keys, lo, mid, sha256, present), keys, mid, hi, sha256, present)
         == FillRange(cache, keys, lo, hi, sha256, present)
    decreases hi - mid
  {
    if mid < hi {
      FillRangeCompose(cache, keys, lo, mid, hi - 1, sha256, present);
    }
  }

  /** Where the cursor stands after a batch of `budget` visits. */
  function NextIndex(index: nat, budget: nat, len: nat): (r: nat)
    requires index <= len
    ensures index <= r <= len
    ensures r == len || r == index + budget
    ensures r < len ==> r == index + budget
  {
    if index + budget < len then index + budget else len
  }

  /** The cursor after a sequence of batches. */
  function CursorAfter(index: nat, budgets: seq<nat>, len: nat): (r: nat)
    requires index <= len
    ensures index <= r <= len
    decreases |budgets|
  {
    if budgets == [] then index
    else CursorAfter(NextIndex(index, budgets[0], len), budgets[1..], len)
  }

  /** Batches that each visit at least one key, as many as there are keys
      left, reach the end, so rescheduling stops. */
  lemma {:induction false} CursorCompletes(index: nat, budgets: seq<nat>, len: nat)
    requires index <= len
    requires forall n :: 0 <= n < |budgets| ==> budgets[n] >= 1
    requires |budgets| >= len - index
    ensures CursorAfter(index, budgets, len) == len
    decreases |budgets|
  {
    if budgets != [] {
      CursorCompletes(NextIndex(index, budgets[0], len), budgets[1..], len);
    }
  }

  /** The table after a sequence of batches with the library present
      throughout, or absent throughout. */
  function RunBatches(cache: Table, keys: seq<string>, index: nat, budgets: seq<nat>, sha256: string -> LibReply, present: bool): Table
    requires index <= |keys|
    decreases |budgets|
  {
    if budgets == [] then cache
    else
      var next := NextIndex(index, budgets[0], |keys|);
      RunBatches(FillRange(cache, keys, index, next, sha256, present), keys, next, budgets[1..], sha256, present)
  }

  /** Batches visit each key once, in order: together they are one pass
      from the starting cursor to the final one. */
  lemma {:induction false} RunBatchesIsOnePass(cache: Table, keys: seq<string>, index: nat, budgets: seq<nat>, sha256: string -> LibReply, present: bool)
    requires index <= |keys|
    ensures RunBatches(cache, keys, index, budgets, sha256, present)
         == FillRange(cache, keys, index, CursorAfter(index, budgets, |keys|), sha256, present)
    decreases |budgets|
  {
    if budgets != [] {
      var next := NextIndex(index, budgets[0], |keys|);
      RunBatchesIsOnePass(FillRange(cache, keys, index, next, sha256, present), keys, next, budgets[1..], sha256, present);
      FillRangeCompose(cache, keys, index, next, CursorAfter(next, budgets[1..], |keys|), sha256, present);
    }
  }

  /** With the library present and enough batches, every null entry whose
      digest the library returns is filled with it, and every other entry
      is as it was. */
  lemma PopulationComplete(cache: Table, keys: seq<string>, budgets: seq<nat>, sha256: string -> LibReply)
    requires forall k :: k in cache <==> k in keys
    requires forall n :: 0 <= n < |budgets| ==> budgets[n] >= 1
    requires |budgets| >= |keys|
    ensures RunBatches(cache, keys, 0, budgets, sha256, true).Keys == cache.Keys
    ensures forall k :: k in cache ==>
      RunBatches(cache, keys, 0, budgets, sha256, true)[k] ==
      (if cache[k] == None && sha256(k).Returned? then Some(sha256(k).hex) else cache[k])
  {
    RunBatchesIsOnePass(cache, keys, 0, budgets, sha256, true);
    CursorCompletes(0, budgets, |keys|);
    FillRangeValues(cache, keys, 0, |keys|, sha256, true);
    assert keys[0..|keys|] == keys;
  }

  /** `populateHashCacheGradually` and its `computeNextBatch`
      (hash-optimizer.js:40-71). */
  class GradualPopulator {
    /** `window.hashCache`, filled in place. */
    var cache: Table
    /** `Object.keys(cache)`, taken once. */
    const keys: seq<string>
    const sha256: string -> LibReply
    /** The cursor `index`. */
    var index: nat

    ghost predicate Valid()
      reads this
    {
      index <= |keys|
    }

    constructor (cache: Table, keys: seq<string>, sha256: string -> LibReply)
      requires forall k :: k in cache <==> k in keys
      ensures Valid()
      ensures this.cache == cache && this.keys == keys && this.sha256 == sha256 && index == 0
    {
      this.cache := cache;
      this.keys := keys;
      this.sha256 := sha256;
      index := 0;
    }

    /** One batch: visit up to `budget` keys from the cursor; `present`
        says whether `window.sha256` is defined. Another batch is
        scheduled exactly when keys remain. */
    method ComputeNextBatch(budget: nat, present: bool) returns (rescheduled: bool)
      requires Valid()
      modifies this
      ensures Valid()
      ensures index == NextIndex(old(index), budget, |keys|)
      ensures cache == FillRange(old(cache), keys, old(index), index, sha256, present)
      ensures rescheduled <==> index < |keys|
    {
      var visited := 0;
      while visited < budget && index < |keys|
        invariant old(index) <= index <= |keys|
        invariant index == old(index) + visited && visited <= budget
        invariant cache == FillRange(old(cache), keys, old(index), index, sha256, present)
      {
        var key := keys[index];
        index := index + 1;
        if key in cache && cache[key] == None {
          if present {
            match sha256(key)
            case Returned(hex) =>
              cache := cache[key := Some(hex)];
            case Threw =>
          }
        }
        visited := visited + 1;
      }
      rescheduled := index < |keys|;
    }
  }

  /** `precomputeCommonHashes` of hash-optimizer.js:20-37: with an idle
      callback, the placeholder table is built and a populator started on
      it with its cursor at the first key; without one, nothing happens. */
  method PrecomputeCommonHashes(idleCallback: bool, sha256: string -> LibReply) returns (started: Option<GradualPopulator>)
    ensures started.Some? <==> idleCallback
    ensures started.Some? ==>
      fresh(started.value) && started.value.Valid() && started.value.index == 0 &&
      started.value.sha256 == sha256 && Placeholders(started.value.cache, started.value.keys)
  {
    if !idleCallback {
      return None;
    }
    var table, keys := BuildPlaceholderTable();
    var populator := new GradualPopulator(table, keys, sha256);
    started := Some(populator);
  }
}
