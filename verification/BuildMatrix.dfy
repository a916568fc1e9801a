/** The CI build matrix: linux entries are split by architecture, the single-arch ones are sharded
    below GitHub's per-matrix limit, and every matrix gets a merge list with one entry per tag suffix. */
module BuildMatrix {
  import opened Sequences
  import opened Wrappers

  // A missing property reads as the empty string: both are falsy.
  datatype Entry = Entry(backend: string, tagSuffix: string, tagLatest: string, platformTag: string)

  datatype MergeEntry = MergeEntry(tagSuffix: string, tagLatest: string)

  const SINGLEARCH_SHARDS := 4
  const GHA_MATRIX_LIMIT := 256

  // ---------- computeMergeMatrix ----------

  // Non-empty tag suffixes in order of first appearance.
  function Suffixes(entries: seq<Entry>): seq<string> {
    if entries == [] then []
    else
      var before, e := Suffixes(entries[..|entries| - 1]), entries[|entries| - 1];
      if e.tagSuffix == "" || e.tagSuffix in before then before else before + [e.tagSuffix]
  }

  function Group(entries: seq<Entry>, suffix: string): seq<Entry> {
    if entries == [] then []
    else
      Group(entries[..|entries| - 1], suffix) +
      (if entries[|entries| - 1].tagSuffix == suffix then [entries[|entries| - 1]] else [])
  }

  ghost predicate GroupsMatch(keys: seq<string>, groups: map<string, seq<Entry>>, entries: seq<Entry>) {
    && keys == Suffixes(entries)
    && (forall k | k in groups :: k in keys)
    && (forall k | k in keys :: k in groups && groups[k] == Group(entries, k))
  }

  lemma {:induction false} UnseenGroupIsEmpty(entries: seq<Entry>, suffix: string)
    requires suffix != "" && suffix !in Suffixes(entries)
    ensures Group(entries, suffix) == []
  {
    if entries != [] {
      UnseenGroupIsEmpty(entries[..|entries| - 1], suffix);
    }
  }

  lemma {:induction false} SeenGroupHasFirst(entries: seq<Entry>, suffix: string)
    requires suffix in Suffixes(entries)
    ensures suffix != "" && Group(entries, suffix) != []
  {
    if suffix in Suffixes(entries[..|entries| - 1]) {
      SeenGroupHasFirst(entries[..|entries| - 1], suffix);
    }
  }

  // A JavaScript Map keeps its keys in insertion order: `keys` is that order.
  method GroupBySuffix(entries: seq<Entry>) returns (keys: seq<string>, groups: map<string, seq<Entry>>)
    ensures GroupsMatch(keys, groups, entries)
  {
    keys, groups := [], map[];
    for i := 0 to |entries|
      invariant GroupsMatch(keys, groups, entries[..i])
    {
      assert entries[..i + 1][..i] == entries[..i];
      var key := entries[i].tagSuffix;
      if key == "" {
        assert forall k | k in keys :: k != "" by {
          forall k | k in keys ensures k != "" { SeenGroupHasFirst(entries[..i], k); }
        }
        continue;
      }
      if key !in groups {
        UnseenGroupIsEmpty(entries[..i], key);
        keys := keys + [key];
        groups := groups[key := []];
      }
      groups := groups[key := groups[key] + [entries[i]]];
    }
    assert entries[..|entries|] == entries;
  }

  predicate IsMergeOf(merge: MergeEntry, suffix: string, entries: seq<Entry>) {
    merge.tagSuffix == suffix && Group(entries, suffix) != [] && merge.tagLatest == Group(entries, suffix)[0].tagLatest
  }

  // The first of the keys have their entries.
  ghost predicate AreMergesOf(merges: seq<MergeEntry>, keys: seq<string>, entries: seq<Entry>) {
    |merges| <= |keys| && forall k | 0 <= k < |merges| :: IsMergeOf(merges[k], keys[k], entries)
  }

  lemma OneMoreMerge(merges: seq<MergeEntry>, keys: seq<string>, merge: MergeEntry, entries: seq<Entry>)
    requires AreMergesOf(merges, keys, entries) && |merges| < |keys| && IsMergeOf(merge, keys[|merges|], entries)
    ensures AreMergesOf(merges + [merge], keys, entries)
  {}

  // One entry per listed suffix, with the tag-latest of the first of its group.
  ghost predicate IsMergeList(merges: seq<MergeEntry>, entries: seq<Entry>) {
    |merges| == |Suffixes(entries)| && AreMergesOf(merges, Suffixes(entries), entries)
  }

  // The loop body for one group.
  method MergeEntryOf(key: string, group: seq<Entry>, ghost entries: seq<Entry>) returns (merge: MergeEntry)
    requires key in Suffixes(entries) && group == Group(entries, key)
    ensures IsMergeOf(merge, key, entries)
  {
    SeenGroupHasFirst(entries, key);
    var first := group[0].tagLatest;
    merge := MergeEntry(key, first);
  }

  method ComputeMergeMatrix(entries: seq<Entry>) returns (merges: seq<MergeEntry>)
    ensures IsMergeList(merges, entries)
  {
    var keys, groups := GroupBySuffix(entries);
    merges := [];
    for k := 0 to |keys|
      invariant |merges| == k && AreMergesOf(merges, keys, entries)
    {
      var key := keys[k];
      var merge := MergeEntryOf(key, groups[key], entries);
      OneMoreMerge(merges, keys, merge, entries);
      merges := merges + [merge];
    }
  }

  // Position of the first entry with a suffix; the length if there is none.
  function FirstIndex(entries: seq<Entry>, suffix: string): (i: nat)
    ensures i <= |entries|
    ensures i < |entries| ==> entries[i].tagSuffix == suffix
    ensures forall j | 0 <= j < i :: entries[j].tagSuffix != suffix
  {
    if entries == [] || entries[0].tagSuffix == suffix then 0 else 1 + FirstIndex(entries[1..], suffix)
  }

  lemma FirstIndexInPrefix(entries: seq<Entry>, n: nat, suffix: string)
    requires n <= |entries|
    ensures FirstIndex(entries[..n], suffix) < n ==> FirstIndex(entries, suffix) == FirstIndex(entries[..n], suffix)
    ensures FirstIndex(entries[..n], suffix) == n ==> FirstIndex(entries, suffix) >= n
  {
    var i, j := FirstIndex(entries[..n], suffix), FirstIndex(entries, suffix);
    if i < n {
      assert entries[i].tagSuffix == suffix;
    }
    if j < n {
      assert entries[..n][j].tagSuffix == suffix;
    }
  }

  ghost predicate HeadsItsGroup(entries: seq<Entry>, suffix: string) {
    && suffix != "" && FirstIndex(entries, suffix) < |entries|
    && Group(entries, suffix) != [] && Group(entries, suffix)[0] == entries[FirstIndex(entries, suffix)]
  }

  lemma {:induction false} EverySuffixIsListed(entries: seq<Entry>)
    ensures forall i | 0 <= i < |entries| && entries[i].tagSuffix != "" :: entries[i].tagSuffix in Suffixes(entries)
  {
    if entries != [] {
      var front := entries[..|entries| - 1];
      EverySuffixIsListed(front);
      assert forall i | 0 <= i < |front| :: front[i] == entries[i];
    }
  }

  lemma OldSuffixStaysFirst(front: seq<Entry>, e: Entry, suffix: string)
    requires HeadsItsGroup(front, suffix)
    ensures HeadsItsGroup(front + [e], suffix)
    ensures FirstIndex(front + [e], suffix) == FirstIndex(front, suffix)
  {
    var entries := front + [e];
    assert entries[..|front|] == front;
    FirstIndexInPrefix(entries, |front|, suffix);
  }

  lemma NewSuffixComesLast(front: seq<Entry>, e: Entry)
    requires e.tagSuffix != "" && e.tagSuffix !in Suffixes(front)
    ensures HeadsItsGroup(front + [e], e.tagSuffix)
    ensures FirstIndex(front + [e], e.tagSuffix) == |front|
  {
    var entries := front + [e];
    assert entries[..|front|] == front;
    UnseenGroupIsEmpty(front, e.tagSuffix);
    EverySuffixIsListed(front);
    FirstIndexInPrefix(entries, |front|, e.tagSuffix);
    assert entries[|front|].tagSuffix == e.tagSuffix;
  }

  /** The merge list has each non-empty suffix exactly once, in order of first appearance, with the
      tag-latest of the entry where it first appears. */
  lemma {:induction false} SuffixesInFirstAppearanceOrder(entries: seq<Entry>)
    ensures forall k | 0 <= k < |Suffixes(entries)| :: HeadsItsGroup(entries, Suffixes(entries)[k])
    ensures forall k, l | 0 <= k < l < |Suffixes(entries)| ::
              FirstIndex(entries, Suffixes(entries)[k]) < FirstIndex(entries, Suffixes(entries)[l])
  {
    if entries != [] {
      var front, e := entries[..|entries| - 1], entries[|entries| - 1];
      assert entries == front + [e];
      SuffixesInFirstAppearanceOrder(front);
      var before := Suffixes(front);
      forall k | 0 <= k < |before|
        ensures HeadsItsGroup(entries, before[k]) && FirstIndex(entries, before[k]) == FirstIndex(front, before[k]) < |front|
      {
        assert HeadsItsGroup(front, before[k]);
        OldSuffixStaysFirst(front, e, before[k]);
      }
      if e.tagSuffix != "" && e.tagSuffix !in before {
        NewSuffixComesLast(front, e);
      }
    }
  }

  // ---------- splitByArch ----------

  function Multiarch(entries: seq<Entry>): seq<Entry> {
    if entries == [] then []
    else
      Multiarch(entries[..|entries| - 1]) +
      (if entries[|entries| - 1].platformTag != "" then [entries[|entries| - 1]] else [])
  }

  function Singlearch(entries: seq<Entry>): seq<Entry> {
    if entries == [] then []
    else
      Singlearch(entries[..|entries| - 1]) +
      (if entries[|entries| - 1].platformTag == "" then [entries[|entries| - 1]] else [])
  }

  lemma {:induction false} SplitIsPartition(entries: seq<Entry>)
    ensures multiset(entries) == multiset(Multiarch(entries)) + multiset(Singlearch(entries))
    ensures forall e | e in Multiarch(entries) :: e.platformTag != ""
    ensures forall e | e in Singlearch(entries) :: e.platformTag == ""
  {
    if entries != [] {
      var n := |entries| - 1;
      SplitIsPartition(entries[..n]);
      assert entries == entries[..n] + [entries[n]];
    }
  }

  /** Both lists are in the order of the entries, each entry in its place. */
  lemma {:induction false} SplitKeepsOrder(entries: seq<Entry>)
    ensures Picks(Multiarch(entries), entries, (e: Entry) => e.platformTag != "")
    ensures Picks(Singlearch(entries), entries, (e: Entry) => e.platformTag == "")
  {
    if entries == [] {
      PicksNone((e: Entry) => e.platformTag != "");
      PicksNone((e: Entry) => e.platformTag == "");
    } else {
      var front, last := entries[..|entries| - 1], entries[|entries| - 1];
      SplitKeepsOrder(front);
      PicksOneMore(Multiarch(front), front, (e: Entry) => e.platformTag != "", last);
      PicksOneMore(Singlearch(front), front, (e: Entry) => e.platformTag == "", last);
      assert front + [last] == entries;
    }
  }

  // ---------- chunkEqually ----------

  function Concat(chunks: seq<seq<Entry>>): seq<Entry> {
    if chunks == [] then [] else Concat(chunks[..|chunks| - 1]) + chunks[|chunks| - 1]
  }

  // The chunks follow each other from the front.
  lemma {:induction false} ConcatFromFront(chunk: seq<Entry>, chunks: seq<seq<Entry>>)
    ensures Concat([chunk] + chunks) == chunk + Concat(chunks)
  {
    if chunks != [] {
      var n := |chunks| - 1;
      assert ([chunk] + chunks)[..n + 1] == [chunk] + chunks[..n];
      ConcatFromFront(chunk, chunks[..n]);
    }
  }

  function ChunkSize(n: nat, shards: nat, i: nat): nat
    requires shards > 0
  {
    n / shards + (if i < n % shards then 1 else 0)
  }

  // Entries before chunk i.
  function ChunkStart(n: nat, shards: nat, i: nat): nat
    requires shards > 0
  {
    i * (n / shards) + (if i < n % shards then i else n % shards)
  }

  lemma ChunkStartStep(n: nat, shards: nat, i: nat)
    requires i < shards
    ensures ChunkStart(n, shards, i + 1) == ChunkStart(n, shards, i) + ChunkSize(n, shards, i)
    ensures ChunkStart(n, shards, i + 1) <= n
    ensures ChunkStart(n, shards, shards) == n
  {
    var base, rem := n / shards, n % shards;
    assert (i + 1) * base == i * base + base;
    assert shards * base + rem == n;
    var rest := shards - (i + 1);
    assert shards * base == (i + 1) * base + rest * base;
    assert 0 <= rest * base;
  }

  method ChunkEqually(arr: seq<Entry>, shards: nat) returns (out: seq<seq<Entry>>)
    ensures |out| == shards
    ensures shards > 0 ==> Concat(out) == arr
    ensures shards > 0 ==> forall i | 0 <= i < shards :: |out[i]| == ChunkSize(|arr|, shards, i)
  {
    out := [];
    if shards == 0 {
      return;
    }
    var base := |arr| / shards;
    var rem := |arr| % shards;
    var idx := 0;
    for i := 0 to shards
      invariant |out| == i && idx == ChunkStart(|arr|, shards, i) <= |arr|
      invariant Concat(out) == arr[..idx]
      invariant forall k | 0 <= k < i :: |out[k]| == ChunkSize(|arr|, shards, k)
    {
      ChunkStartStep(|arr|, shards, i);
      var size := base + (if i < rem then 1 else 0);
      var chunk := arr[idx..idx + size];
      assert (out + [chunk])[..i] == out;
      assert arr[..idx + size] == arr[..idx] + chunk;
      out := out + [chunk];
      idx := idx + size;
    }
    ChunkStartStep(|arr|, shards, 0);
    assert arr[..|arr|] == arr;
  }

  /** Chunk sizes never grow from one chunk to a later one, and differ by at most one. */
  lemma ChunksAreBalanced(n: nat, shards: nat, i: nat, k: nat)
    requires i <= k < shards
    ensures ChunkSize(n, shards, k) <= ChunkSize(n, shards, i) <= ChunkSize(n, shards, k) + 1
  {}

  /** The first of the four shards reaches the limit exactly from 1021 entries on. */
  lemma FirstShardOverflowsIff(n: nat)
    ensures ChunkSize(n, SINGLEARCH_SHARDS, 0) >= GHA_MATRIX_LIMIT <==> n >= 1021
  {}

  // ---------- emitSinglearchShards ----------

  // The four lines written for shard n.
  datatype ShardOutput = ShardOutput(n: nat, hasBackends: bool, hasMerges: bool, matrix: seq<Entry>, merges: seq<MergeEntry>)

  datatype Overflow = Overflow(shard: nat, size: nat)

  ghost predicate IsShardOutput(o: ShardOutput, n: nat, shard: seq<Entry>) {
    && o.n == n && o.matrix == shard && |shard| < GHA_MATRIX_LIMIT
    && IsMergeList(o.merges, shard)
    && (o.hasBackends <==> shard != [])
    && (o.hasMerges <==> exists i :: 0 <= i < |shard| && shard[i].tagSuffix != "")
  }

  lemma MergesExistIff(merges: seq<MergeEntry>, shard: seq<Entry>)
    requires IsMergeList(merges, shard)
    ensures |merges| > 0 <==> exists i :: 0 <= i < |shard| && shard[i].tagSuffix != ""
  {
    SuffixesInFirstAppearanceOrder(shard);
    EverySuffixIsListed(shard);
    if |merges| > 0 {
      assert HeadsItsGroup(shard, Suffixes(shard)[0]);
    }
  }

  function Matrices(outputs: seq<ShardOutput>): seq<Entry> {
    if outputs == [] then [] else Matrices(outputs[..|outputs| - 1]) + outputs[|outputs| - 1].matrix
  }

  lemma {:induction false} MatricesFromFront(o: ShardOutput, outputs: seq<ShardOutput>)
    ensures Matrices([o] + outputs) == o.matrix + Matrices(outputs)
  {
    if outputs != [] {
      var n := |outputs| - 1;
      assert ([o] + outputs)[..n + 1] == [o] + outputs[..n];
      MatricesFromFront(o, outputs[..n]);
    }
  }

  // One round of the loop in emitSinglearchShards, for a shard below the limit.
  method EmitShard(n: nat, shard: seq<Entry>) returns (o: ShardOutput)
    requires |shard| < GHA_MATRIX_LIMIT
    ensures IsShardOutput(o, n, shard)
  {
    var merges := ComputeMergeMatrix(shard);
    MergesExistIff(merges, shard);
    o := ShardOutput(n, |shard| > 0, |merges| > 0, shard, merges);
  }

  // The outputs written so far are those of the first shards.
  ghost predicate Emitted(outputs: seq<ShardOutput>, shards: seq<seq<Entry>>) {
    && |outputs| <= |shards|
    && (forall k | 0 <= k < |outputs| :: IsShardOutput(outputs[k], k + 1, shards[k]))
    && Matrices(outputs) == Concat(shards[..|outputs|])
  }

  lemma EmittedOneMore(outputs: seq<ShardOutput>, shards: seq<seq<Entry>>, o: ShardOutput)
    requires Emitted(outputs, shards) && |outputs| < |shards|
    requires IsShardOutput(o, |outputs| + 1, shards[|outputs|])
    ensures Emitted(outputs + [o], shards)
  {
    var i := |outputs|;
    assert (outputs + [o])[..i] == outputs;
    assert shards[..i + 1][..i] == shards[..i];
  }

  /** The emission throws exactly when there are 1021 or more single-arch entries, and then before
      anything is written; otherwise four outputs hold the whole list between them. */
  method EmitSinglearchShards(singlearch: seq<Entry>) returns (outputs: seq<ShardOutput>, thrown: Option<Overflow>)
    ensures thrown.Some? <==> |singlearch| >= 1021
    ensures thrown.Some? ==> outputs == [] && thrown.value.shard == 1 && thrown.value.size >= GHA_MATRIX_LIMIT
    ensures thrown.None? ==>
              && |outputs| == SINGLEARCH_SHARDS && Matrices(outputs) == singlearch
              && forall i | 0 <= i < SINGLEARCH_SHARDS ::
                   IsShardOutput(outputs[i], i + 1, outputs[i].matrix) &&
                   |outputs[i].matrix| == ChunkSize(|singlearch|, SINGLEARCH_SHARDS, i)
  {
    var shards := ChunkEqually(singlearch, SINGLEARCH_SHARDS);
    FirstShardOverflowsIff(|singlearch|);
    outputs, thrown := [], None;
    for i := 0 to SINGLEARCH_SHARDS
      invariant |outputs| == i && thrown.None?
      invariant i > 0 ==> |singlearch| < 1021
      invariant Emitted(outputs, shards)
    {
      var shard := shards[i];
      ChunksAreBalanced(|singlearch|, SINGLEARCH_SHARDS, 0, i);
      if |shard| >= GHA_MATRIX_LIMIT {
        return outputs, Some(Overflow(i + 1, |shard|));
      }
      var o := EmitShard(i + 1, shard);
      EmittedOneMore(outputs, shards, o);
      outputs := outputs + [o];
    }
    assert shards[..SINGLEARCH_SHARDS] == shards;
  }

  // The linux part of emitFullMatrix and emitFilteredMatrix.
  method EmitLinuxMatrices(entries: seq<Entry>)
    returns (multiarch: seq<Entry>, merges: seq<MergeEntry>, outputs: seq<ShardOutput>, thrown: Option<Overflow>)
    ensures multiarch == Multiarch(entries) && IsMergeList(merges, multiarch)
    ensures thrown.None? ==>
              && |outputs| == SINGLEARCH_SHARDS && Matrices(outputs) == Singlearch(entries)
              && forall i | 0 <= i < SINGLEARCH_SHARDS :: IsShardOutput(outputs[i], i + 1, outputs[i].matrix)
    ensures forall e | e in multiarch :: e.platformTag != ""
    ensures thrown.None? ==> multiset(entries) == multiset(multiarch) + multiset(Matrices(outputs))
    ensures thrown.None? ==> forall e | e in Matrices(outputs) :: e.platformTag == ""
    ensures thrown.Some? <==> |entries| - |multiarch| >= 1021
  {
    multiarch := Multiarch(entries);
    var singlearch := Singlearch(entries);
    SplitIsPartition(entries);
    assert |entries| == |multiarch| + |singlearch| by {
      assert |multiset(entries)| == |multiset(multiarch)| + |multiset(singlearch)|;
    }
    merges := ComputeMergeMatrix(multiarch);
    outputs, thrown := EmitSinglearchShards(singlearch);
  }
}
