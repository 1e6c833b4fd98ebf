/**
  The `Partitioner` utilities of map_reduce_job.rb: three ways of splitting a
  sequence of items into a given number of partitions.

  Each Ruby routine builds a fresh array by looping and appending, and never
  touches its input. Each is modelled twice: a function that states what the
  partitions are (Partitioned, Recombined, KeySplit) and a method that builds
  them with the Ruby loops (SimplePartitionData, RecombineAndSplit,
  SplitByFirstEntry), proved equal to the function. The lemmas state coverage,
  sizes, order and key co-location of the functions.
*/
module Partitioner {
  import opened Wrappers

  type Byte = b: int | 0 <= b < 256

  /** A record for the key splitter: a Ruby array `[key, ...]` whose first
      entry is a string, kept here as its bytes. */
  datatype Record<V> = Record(key: seq<Byte>, rest: V)

  function Min(a: int, b: int): int
  {
    if a <= b then a else b
  }

  // ---------------------------------------------------------------------------
  // Flattening
  // ---------------------------------------------------------------------------

  /** The partitions concatenated: partition order first, item order within. */
  function Flatten<T>(parts: seq<seq<T>>): seq<T>
  {
    if parts == [] then [] else Flatten(parts[..|parts| - 1]) + parts[|parts| - 1]
  }

  /** A partition that is Ruby's `nil` read as an empty one. */
  function OrEmpty<T>(part: Option<seq<T>>): seq<T>
  {
    if part.Some? then part.value else []
  }

  function NilAsEmpty<T>(parts: seq<Option<seq<T>>>): seq<seq<T>>
  {
    seq(|parts|, i requires 0 <= i < |parts| => OrEmpty(parts[i]))
  }

  lemma {:induction false} FlattenConcat<T>(a: seq<seq<T>>, b: seq<seq<T>>)
    ensures Flatten(a + b) == Flatten(a) + Flatten(b)
  {
    if b == [] {
      assert a + b == a;
    } else {
      var m := |b| - 1;
      var ab := a + b;
      assert ab[..|ab| - 1] == a + b[..m] && ab[|ab| - 1] == b[m];
      calc {
        Flatten(ab);
        Flatten(a + b[..m]) + b[m];
        { FlattenConcat(a, b[..m]); }
        Flatten(a) + Flatten(b[..m]) + b[m];
        Flatten(a) + (Flatten(b[..m]) + b[m]);
      }
    }
  }

  lemma {:induction false} FlattenOfEmpties<T>(parts: seq<seq<T>>)
    requires forall i :: 0 <= i < |parts| ==> parts[i] == []
    ensures Flatten(parts) == []
  {
    if parts != [] {
      FlattenOfEmpties(parts[..|parts| - 1]);
    }
  }

  /** Appending one item to one partition adds exactly that item to the whole. */
  lemma {:induction false} FlattenUpdateAppend<T>(parts: seq<seq<T>>, j: nat, x: T)
    requires j < |parts|
    ensures multiset(Flatten(parts[j := parts[j] + [x]])) == multiset(Flatten(parts)) + multiset{x}
  {
    var m := |parts| - 1;
    if j == m {
      FlattenAppendLast(parts, x);
    } else {
      var updated := parts[j := parts[j] + [x]];
      calc {
        multiset(Flatten(updated));
        { assert updated[..m] == parts[..m][j := parts[..m][j] + [x]] && updated[m] == parts[m]; }
        multiset(Flatten(parts[..m][j := parts[..m][j] + [x]])) + multiset(parts[m]);
        { FlattenUpdateAppend(parts[..m], j, x); }
        multiset(Flatten(parts[..m])) + multiset{x} + multiset(parts[m]);
        multiset(Flatten(parts)) + multiset{x};
      }
    }
  }

  lemma FlattenAppendLast<T>(parts: seq<seq<T>>, x: T)
    requires parts != []
    ensures var m := |parts| - 1;
            Flatten(parts[m := parts[m] + [x]]) == Flatten(parts) + [x]
  {
    var m := |parts| - 1;
    assert parts[m := parts[m] + [x]][..m] == parts[..m];
  }

  /** Every item of every partition is an item of the flattened data. */
  lemma MemberOfPartition<T>(parts: seq<seq<T>>, p: nat, x: T)
    requires p < |parts| && x in parts[p]
    ensures x in Flatten(parts)
  {
    assert parts == parts[..p + 1] + parts[p + 1..];
    FlattenConcat(parts[..p + 1], parts[p + 1..]);
    assert parts[..p + 1][..p] == parts[..p];
  }

  // ---------------------------------------------------------------------------
  // simple_partition_data
  // ---------------------------------------------------------------------------

  /** The slice size of the contiguous branch: `L / n`, plus one when `n`
      does not divide `L`. */
  function ChunkSize(len: nat, n: nat): nat
    requires n >= 1
  {
    if len % n != 0 then len / n + 1 else len / n
  }

  /** Ruby's `data[start, size]`: `nil` when `start` is past the end,
      otherwise at most `size` items from `start`, cut off at the end. */
  function Slice<T>(data: seq<T>, start: nat, size: nat): Option<seq<T>>
  {
    if start > |data| then None else Some(data[start..Min(start + size, |data|)])
  }

  /** Round-robin entry `j`: the items whose index is `j` modulo `n`, in input order. */
  function Column<T>(data: seq<T>, n: nat, j: nat): seq<T>
    requires n >= 1
  {
    if data == [] then []
    else
      var last := |data| - 1;
      Column(data[..last], n, j) + (if last % n == j then [data[last]] else [])
  }

  function Columns<T>(data: seq<T>, n: nat): seq<seq<T>>
  {
    seq(n, j requires 0 <= j < n => Column(data, n, j))
  }

  /** What `simple_partition_data(data, n)` returns: `n` contiguous slices of
      `ChunkSize` items when there are at least two items per partition,
      round-robin columns otherwise. */
  function Partitioned<T>(data: seq<T>, n: nat): (r: seq<Option<seq<T>>>)
    requires n >= 1
    ensures |r| == n
  {
    if |data| >= 2 * n then
      var size := ChunkSize(|data|, n);
      seq(n, i requires 0 <= i < n => Slice(data, i * size, size))
    else
      seq(n, j requires 0 <= j < n => Some(Column(data, n, j)))
  }

  /** `Partitioner.simple_partition_data`. `partitions` must be positive: the
      Ruby code divides by it. */
  method SimplePartitionData<T>(data: seq<T>, partitions: nat) returns (parts: seq<Option<seq<T>>>)
    requires partitions >= 1
    ensures parts == Partitioned(data, partitions)
  {
    if |data| >= partitions * 2 {
      parts := ContiguousSlices(data, partitions);
    } else {
      parts := RoundRobin(data, partitions);
    }
  }

  /** The first branch: slice `i` starts at `i * size`, where `size` is
      `L / n` rounded up. */
  method ContiguousSlices<T>(data: seq<T>, partitions: nat) returns (parts: seq<Option<seq<T>>>)
    requires partitions >= 1
    ensures |parts| == partitions
    ensures forall i :: 0 <= i < partitions ==> parts[i] == Slice(data, i * ChunkSize(|data|, partitions), ChunkSize(|data|, partitions))
  {
    var size := |data| / partitions;
    if |data| % partitions != 0 {
      size := size + 1;
    }
    parts := [];
    for i := 0 to partitions
      invariant |parts| == i
      invariant forall k :: 0 <= k < i ==> parts[k] == Slice(data, k * size, size)
    {
      var slice := Slice(data, i * size, size);
      forall k | 0 <= k < i + 1
        ensures (parts + [slice])[k] == Slice(data, k * size, size)
      {
        if k < i {
          assert (parts + [slice])[k] == parts[k];
        }
      }
      parts := parts + [slice];
    }
  }

  /** The second branch: item `i` is appended to entry `i % n`, so entry `j`
      is round-robin column `j`, and an entry no item reaches is empty. */
  method RoundRobin<T>(data: seq<T>, partitions: nat) returns (parts: seq<Option<seq<T>>>)
    requires partitions >= 1
    ensures |parts| == partitions
    ensures forall j :: 0 <= j < partitions ==> parts[j] == Some(Column(data, partitions, j))
  {
    var columns: seq<seq<T>> := [];
    for i := 0 to partitions
      invariant |columns| == i
      invariant forall j :: 0 <= j < i ==> columns[j] == []
    {
      columns := columns + [[]];
    }
    for i := 0 to |data|
      invariant |columns| == partitions
      invariant forall j :: 0 <= j < partitions ==> columns[j] == Column(data[..i], partitions, j)
    {
      ColumnSnoc(data, partitions, i);
      columns := columns[i % partitions := columns[i % partitions] + [data[i]]];
    }
    assert data[..|data|] == data;
    parts := seq(partitions, j requires 0 <= j < partitions => Some(columns[j]));
  }

  /** One more item extends exactly the column its index selects. */
  lemma ColumnSnoc<T>(data: seq<T>, n: nat, i: nat)
    requires n >= 1 && i < |data|
    ensures forall j :: 0 <= j < n ==>
              Column(data[..i + 1], n, j) == Column(data[..i], n, j) + (if i % n == j then [data[i]] else [])
  {
    assert data[..i + 1][..i] == data[..i];
  }

  // ---- arithmetic helpers ----

  lemma MulMonotone(a: nat, b: nat, c: nat)
    requires a <= b
    ensures a * c <= b * c
  {
  }

  lemma DivModUnique(x: nat, n: nat, q: nat, r: nat)
    requires n >= 1 && r < n && x == q * n + r
    ensures x / n == q && x % n == r
  {
    var q', r' := x / n, x % n;
    assert x == q' * n + r';
    if q' > q {
      MulMonotone(q + 1, q', n);
      assert false;
    } else if q' < q {
      MulMonotone(q' + 1, q, n);
      assert false;
    }
  }

  lemma DivModStep(len: nat, n: nat)
    requires n >= 1
    ensures len % n < n - 1 ==> (len + 1) / n == len / n && (len + 1) % n == len % n + 1
    ensures len % n == n - 1 ==> (len + 1) / n == len / n + 1 && (len + 1) % n == 0
  {
    var q, r := len / n, len % n;
    if r < n - 1 {
      DivModUnique(len + 1, n, q, r + 1);
    } else {
      DivModUnique(len + 1, n, q + 1, 0);
    }
  }

  /** The slice size is the ceiling of `L / n`. */
  lemma ChunkSizeIsCeiling(len: nat, n: nat)
    requires n >= 1
    ensures (ChunkSize(len, n) - 1) * n < len <= ChunkSize(len, n) * n
  {
    var q, r := len / n, len % n;
    assert len == q * n + r;
    if r != 0 {
      assert (q + 1) * n == q * n + n;
    } else {
      assert (q - 1) * n == q * n - n;
    }
  }

  // ---- contiguous branch ----

  /** Contiguous branch: the first `i` entries, nil read as empty, are the
      first `i * size` items. */
  lemma {:induction false} ContiguousPrefix<T>(data: seq<T>, n: nat, i: nat)
    requires n >= 1 && |data| >= 2 * n && i <= n
    ensures Flatten(NilAsEmpty(Partitioned(data, n))[..i]) == data[..Min(i * ChunkSize(|data|, n), |data|)]
  {
    if i > 0 {
      var size := ChunkSize(|data|, n);
      var entries := NilAsEmpty(Partitioned(data, n));
      var start := (i - 1) * size;
      var entry := OrEmpty(Slice(data, start, size));
      calc {
        Flatten(entries[..i]);
        { assert entries[..i][..i - 1] == entries[..i - 1] && entries[..i][i - 1] == entry; }
        Flatten(entries[..i - 1]) + entry;
        { ContiguousPrefix(data, n, i - 1); }
        data[..Min(start, |data|)] + entry;
        { SliceAfterPrefix(data, start, size); }
        data[..Min(start + size, |data|)];
        { MulSucc(i, size); }
        data[..Min(i * size, |data|)];
      }
    }
  }

  /** The prefix up to a slice's start followed by the slice is the prefix up
      to the slice's end. */
  lemma SliceAfterPrefix<T>(data: seq<T>, start: nat, size: nat)
    ensures data[..Min(start, |data|)] + OrEmpty(Slice(data, start, size)) == data[..Min(start + size, |data|)]
  {
    if start <= |data| {
      assert data[..start] + data[start..Min(start + size, |data|)] == data[..Min(start + size, |data|)];
    }
  }

  lemma MulSucc(i: nat, size: nat)
    requires i >= 1
    ensures i * size == (i - 1) * size + size
  {
  }

  /** Contiguous branch: the entries, nil read as empty, concatenate back to `data`. */
  lemma ContiguousRoundTrip<T>(data: seq<T>, n: nat)
    requires n >= 1 && |data| >= 2 * n
    ensures Flatten(NilAsEmpty(Partitioned(data, n))) == data
  {
    var size := ChunkSize(|data|, n);
    ChunkSizeIsCeiling(|data|, n);
    ContiguousPrefix(data, n, n);
    assert NilAsEmpty(Partitioned(data, n))[..n] == NilAsEmpty(Partitioned(data, n));
    assert n * size == size * n;
    assert data[..|data|] == data;
  }

  /** Contiguous branch: entry `i` is `data[i*size ..]` cut to `size` items,
      nil exactly when `i * size` is past the end; no entry is longer than
      `size`; and once one entry falls short of `size`, every later entry is
      nil, so the shortfall is not confined to the last entry. */
  lemma ContiguousShape<T>(data: seq<T>, n: nat, i: nat)
    requires n >= 1 && |data| >= 2 * n && i < n
    ensures var size := ChunkSize(|data|, n);
            var e := Partitioned(data, n)[i];
            && (e.None? <==> i * size > |data|)
            && (e.Some? ==> e.value == data[i * size..Min((i + 1) * size, |data|)] && |e.value| <= size)
            && ((i + 1) * size <= |data| ==> e.Some? && |e.value| == size)
            && (e.Some? && |e.value| < size ==>
                  forall later :: i < later < n ==> Partitioned(data, n)[later].None?)
  {
    var size := ChunkSize(|data|, n);
    var start := i * size;
    assert Partitioned(data, n)[i] == Slice(data, start, size);
    MulSucc(i + 1, size);
    SliceShape(data, start, size);
    forall later | i < later < n
      ensures start + size > |data| ==> Partitioned(data, n)[later].None?
    {
      assert Partitioned(data, n)[later] == Slice(data, later * size, size);
      MulMonotone(i + 1, later, size);
    }
  }

  /** Ruby's `data[start, size]`: nil exactly past the end; otherwise at most
      `size` items, exactly `size` when the data reaches that far. */
  lemma SliceShape<T>(data: seq<T>, start: nat, size: nat)
    ensures Slice(data, start, size).None? <==> start > |data|
    ensures Slice(data, start, size).Some? ==> |Slice(data, start, size).value| <= size
    ensures start + size <= |data| ==> Slice(data, start, size).Some? && |Slice(data, start, size).value| == size
    ensures Slice(data, start, size).Some? && |Slice(data, start, size).value| < size ==> start + size > |data|
  {
  }

  // ---- round-robin branch ----

  /** Column `j` holds one item per full round plus one for the first `L mod n` columns. */
  lemma {:induction false} ColumnSize<T>(data: seq<T>, n: nat, j: nat)
    requires n >= 1 && j < n
    ensures |Column(data, n, j)| == |data| / n + (if j < |data| % n then 1 else 0)
  {
    if data != [] {
      var last := |data| - 1;
      ColumnSize(data[..last], n, j);
      DivModStep(last, n);
    }
  }

  /** Item `m` sits in column `m mod n`, at position `m / n`. */
  lemma {:induction false} ColumnPlacement<T>(data: seq<T>, n: nat, m: nat)
    requires n >= 1 && m < |data|
    ensures m / n < |Column(data, n, m % n)| && Column(data, n, m % n)[m / n] == data[m]
  {
    var last := |data| - 1;
    var prefix := data[..last];
    ColumnSize(prefix, n, m % n);
    if m < last {
      ColumnPlacement(prefix, n, m);
    }
  }

  /** Round-robin branch: no entry is nil; entry `j` has `L / n` items, one
      more for the first `L mod n` entries, so sizes differ by at most one. */
  lemma RoundRobinSizes<T>(data: seq<T>, n: nat)
    requires n >= 1 && |data| < 2 * n
    ensures forall j :: 0 <= j < n ==>
              Partitioned(data, n)[j].Some? &&
              |Partitioned(data, n)[j].value| == |data| / n + (if j < |data| % n then 1 else 0)
    ensures forall a, b :: 0 <= a < n && 0 <= b < n ==>
              |Partitioned(data, n)[a].value| <= |Partitioned(data, n)[b].value| + 1
  {
    var r := Partitioned(data, n);
    var q := |data| / n;
    forall j | 0 <= j < n
      ensures r[j].Some? && |r[j].value| == q + (if j < |data| % n then 1 else 0)
    {
      ColumnSize(data, n, j);
    }
  }

  /** Round-robin branch: item `m` is entry `m mod n`'s item number `m / n`. */
  lemma RoundRobinPlacement<T>(data: seq<T>, n: nat, m: nat)
    requires n >= 1 && |data| < 2 * n && m < |data|
    ensures Partitioned(data, n)[m % n].Some?
    ensures m / n < |Partitioned(data, n)[m % n].value|
    ensures Partitioned(data, n)[m % n].value[m / n] == data[m]
  {
    ColumnPlacement(data, n, m);
  }

  /** The columns of `data` are those of all but its last item, with that
      item appended to the column its index selects. */
  lemma ColumnsSnoc<T>(data: seq<T>, n: nat)
    requires n >= 1 && data != []
    ensures var last := |data| - 1;
            var before := Columns(data[..last], n);
            Columns(data, n) == before[last % n := before[last % n] + [data[last]]]
  {
    var last := |data| - 1;
    var before := Columns(data[..last], n);
    var after := before[last % n := before[last % n] + [data[last]]];
    ColumnSnoc(data, n, last);
    assert data[..last + 1] == data;
    forall j | 0 <= j < n
      ensures Columns(data, n)[j] == after[j]
    {
    }
  }

  /** The round-robin columns hold exactly the items of `data`. */
  lemma {:induction false} ColumnsPreserveItems<T>(data: seq<T>, n: nat)
    requires n >= 1
    ensures multiset(Flatten(Columns(data, n))) == multiset(data)
  {
    if data == [] {
      FlattenOfEmpties(Columns(data, n));
    } else {
      var last := |data| - 1;
      var prefix := data[..last];
      var x := data[last];
      var before := Columns(prefix, n);
      calc {
        multiset(Flatten(Columns(data, n)));
        { ColumnsSnoc(data, n); }
        multiset(Flatten(before[last % n := before[last % n] + [x]]));
        { FlattenUpdateAppend(before, last % n, x); }
        multiset(Flatten(before)) + multiset{x};
        { ColumnsPreserveItems(prefix, n); }
        multiset(prefix) + multiset{x};
        { assert data == prefix + [x]; }
        multiset(data);
      }
    }
  }

  /** Both branches: every item of `data` lands in exactly one entry, as
      often as it occurs in `data`; nothing is lost or duplicated. */
  lemma PartitionedPreservesItems<T>(data: seq<T>, n: nat)
    requires n >= 1
    ensures multiset(Flatten(NilAsEmpty(Partitioned(data, n)))) == multiset(data)
  {
    if |data| >= 2 * n {
      ContiguousRoundTrip(data, n);
    } else {
      assert NilAsEmpty(Partitioned(data, n)) == Columns(data, n);
      ColumnsPreserveItems(data, n);
    }
  }

  // ---------------------------------------------------------------------------
  // recombine_and_split
  // ---------------------------------------------------------------------------

  /** What `recombine_and_split.call(pd, k)` returns. */
  function Recombined<T>(pd: seq<seq<T>>, k: nat): (r: seq<Option<seq<T>>>)
    requires k >= 1
    ensures |r| == k
  {
    Partitioned(Flatten(pd), k)
  }

  /** `Partitioner.recombine_and_split`, the body of the lambda it returns. */
  method RecombineAndSplit<T>(pd: seq<seq<T>>, newPartitions: nat) returns (parts: seq<Option<seq<T>>>)
    requires newPartitions >= 1
    ensures parts == Recombined(pd, newPartitions)
  {
    var data: seq<T> := [];
    for p := 0 to |pd|
      invariant data == Flatten(pd[..p])
    {
      for q := 0 to |pd[p]|
        invariant data == Flatten(pd[..p]) + pd[p][..q]
      {
        data := data + [pd[p][q]];
      }
      assert pd[..p + 1][..p] == pd[..p];
      assert pd[p][..|pd[p]|] == pd[p];
    }
    assert pd[..|pd|] == pd;
    parts := SimplePartitionData(data, newPartitions);
  }

  /** Recombining keeps every item of every input partition, once. */
  lemma RecombinePreservesItems<T>(pd: seq<seq<T>>, k: nat)
    requires k >= 1
    ensures multiset(Flatten(NilAsEmpty(Recombined(pd, k)))) == multiset(Flatten(pd))
  {
    PartitionedPreservesItems(Flatten(pd), k);
  }

  /** Recombining a nil-free contiguous split into `k` partitions is the same
      as splitting the original data into `k` partitions. */
  lemma RecombineAfterContiguous<T>(data: seq<T>, n: nat, k: nat)
    requires n >= 1 && k >= 1 && |data| >= 2 * n
    requires forall i :: 0 <= i < n ==> Partitioned(data, n)[i].Some?
    ensures Recombined(NilAsEmpty(Partitioned(data, n)), k) == Partitioned(data, k)
  {
    ContiguousRoundTrip(data, n);
  }

  // ---------------------------------------------------------------------------
  // array_data_split_by_first_entry
  // ---------------------------------------------------------------------------

  /** The key digest: the sum of the key's bytes. */
  function ByteSum(s: seq<Byte>): nat
  {
    if s == [] then 0 else ByteSum(s[..|s| - 1]) + s[|s| - 1]
  }

  /** The records routed to output list `b`, in input order. */
  function Bucket<V>(records: seq<Record<V>>, k: nat, b: nat): seq<Record<V>>
    requires k >= 1
  {
    if records == [] then []
    else
      var last := |records| - 1;
      Bucket(records[..last], k, b) + (if ByteSum(records[last].key) % k == b then [records[last]] else [])
  }

  function Buckets<V>(records: seq<Record<V>>, k: nat): seq<seq<Record<V>>>
  {
    seq(k, b requires 0 <= b < k => Bucket(records, k, b))
  }

  /** What `array_data_split_by_first_entry.call(pd, k)` returns. With `k`
      zero the Ruby code divides by zero as soon as there is a record. */
  function KeySplit<V>(pd: seq<seq<Record<V>>>, k: nat): (r: seq<seq<Record<V>>>)
    requires k >= 1 || Flatten(pd) == []
    ensures |r| == k
  {
    Buckets(Flatten(pd), k)
  }

  /** `Partitioner.array_data_split_by_first_entry`, the body of the lambda it returns. */
  method SplitByFirstEntry<V>(pd: seq<seq<Record<V>>>, newPartitions: nat) returns (parts: seq<seq<Record<V>>>)
    requires newPartitions >= 1 || Flatten(pd) == []
    ensures parts == KeySplit(pd, newPartitions)
  {
    parts := [];
    for i := 0 to newPartitions
      invariant |parts| == i
      invariant forall b :: 0 <= b < i ==> parts[b] == []
    {
      parts := parts + [[]];
    }
    for p := 0 to |pd|
      invariant |parts| == newPartitions
      invariant forall b :: 0 <= b < newPartitions ==> parts[b] == Bucket(Flatten(pd[..p]), newPartitions, b)
    {
      assert Flatten(pd[..p]) + pd[p][..0] == Flatten(pd[..p]);
      for q := 0 to |pd[p]|
        invariant |parts| == newPartitions
        invariant forall b :: 0 <= b < newPartitions ==>
                    parts[b] == Bucket(Flatten(pd[..p]) + pd[p][..q], newPartitions, b)
      {
        var record := pd[p][q];
        MemberOfPartition(pd, p, record);
        var key := 0;
        for c := 0 to |record.key|
          invariant key == ByteSum(record.key[..c])
        {
          assert record.key[..c + 1][..c] == record.key[..c];
          key := key + record.key[c];
        }
        assert record.key[..|record.key|] == record.key;
        ghost var seen := Flatten(pd[..p]) + pd[p][..q];
        assert seen + [record] == Flatten(pd[..p]) + pd[p][..q + 1];
        assert (seen + [record])[..|seen|] == seen;
        parts := parts[key % newPartitions := parts[key % newPartitions] + [record]];
      }
      assert pd[..p + 1][..p] == pd[..p];
      assert pd[p][..|pd[p]|] == pd[p];
    }
    assert pd[..|pd|] == pd;
  }

  lemma {:induction false} BucketMembership<V>(records: seq<Record<V>>, k: nat, b: nat, x: Record<V>)
    requires k >= 1
    ensures x in Bucket(records, k, b) <==> x in records && ByteSum(x.key) % k == b
  {
    if records != [] {
      var last := |records| - 1;
      BucketMembership(records[..last], k, b, x);
      assert records == records[..last] + [records[last]];
    }
  }

  lemma {:induction false} BucketConcat<V>(a: seq<Record<V>>, c: seq<Record<V>>, k: nat, b: nat)
    requires k >= 1
    ensures Bucket(a + c, k, b) == Bucket(a, k, b) + Bucket(c, k, b)
  {
    if c == [] {
      assert a + c == a;
    } else {
      var m := |c| - 1;
      assert (a + c)[..|a + c| - 1] == a + c[..m];
      BucketConcat(a, c[..m], k, b);
    }
  }

  /** The buckets of `records` are those of all but its last record, with
      that record appended to the bucket its key selects. */
  lemma BucketsSnoc<V>(records: seq<Record<V>>, k: nat)
    requires k >= 1 && records != []
    ensures var last := |records| - 1;
            var before := Buckets(records[..last], k);
            var h := ByteSum(records[last].key) % k;
            Buckets(records, k) == before[h := before[h] + [records[last]]]
  {
    var last := |records| - 1;
    var before := Buckets(records[..last], k);
    var h := ByteSum(records[last].key) % k;
    forall b | 0 <= b < k
      ensures Buckets(records, k)[b] == before[h := before[h] + [records[last]]][b]
    {
    }
  }

  lemma {:induction false} BucketsPreserveRecords<V>(records: seq<Record<V>>, k: nat)
    requires k >= 1
    ensures multiset(Flatten(Buckets(records, k))) == multiset(records)
  {
    if records == [] {
      FlattenOfEmpties(Buckets(records, k));
    } else {
      var last := |records| - 1;
      var prefix := records[..last];
      var x := records[last];
      var h := ByteSum(x.key) % k;
      var before := Buckets(prefix, k);
      calc {
        multiset(Flatten(Buckets(records, k)));
        { BucketsSnoc(records, k); }
        multiset(Flatten(before[h := before[h] + [x]]));
        { FlattenUpdateAppend(before, h, x); }
        multiset(Flatten(before)) + multiset{x};
        { BucketsPreserveRecords(prefix, k); }
        multiset(prefix) + multiset{x};
        { assert records == prefix + [x]; }
        multiset(records);
      }
    }
  }

  /** Each input record is in output list `b` exactly when `b` is its key's
      byte sum modulo `k`. */
  lemma KeySplitRouting<V>(pd: seq<seq<Record<V>>>, k: nat, x: Record<V>)
    requires k >= 1 && x in Flatten(pd)
    ensures forall b :: 0 <= b < k ==> (x in KeySplit(pd, k)[b] <==> b == ByteSum(x.key) % k)
  {
    forall b | 0 <= b < k
      ensures x in Bucket(Flatten(pd), k, b) <==> b == ByteSum(x.key) % k
    {
      BucketMembership(Flatten(pd), k, b, x);
    }
  }

  /** Records with the same key share an output list, whichever input
      partitions they came from. */
  lemma KeySplitColocation<V>(pd: seq<seq<Record<V>>>, k: nat, p1: nat, p2: nat, x1: Record<V>, x2: Record<V>)
    requires k >= 1 && p1 < |pd| && p2 < |pd| && x1 in pd[p1] && x2 in pd[p2]
    requires x1.key == x2.key
    ensures ByteSum(x1.key) % k < k
    ensures x1 in KeySplit(pd, k)[ByteSum(x1.key) % k] && x2 in KeySplit(pd, k)[ByteSum(x1.key) % k]
  {
    MemberOfPartition(pd, p1, x1);
    MemberOfPartition(pd, p2, x2);
    KeySplitRouting(pd, k, x1);
    KeySplitRouting(pd, k, x2);
  }

  /** No record is lost or duplicated by the key split. */
  lemma KeySplitPreservesRecords<V>(pd: seq<seq<Record<V>>>, k: nat)
    requires k >= 1 || Flatten(pd) == []
    ensures multiset(Flatten(KeySplit(pd, k))) == multiset(Flatten(pd))
  {
    if k >= 1 {
      BucketsPreserveRecords(Flatten(pd), k);
    }
  }

  /** Output list `b` is input partition 0's records for `b`, then partition
      1's, and so on, each in its input order. */
  lemma {:induction false} KeySplitKeepsOrder<V>(pd: seq<seq<Record<V>>>, k: nat, b: nat)
    requires k >= 1 && b < k
    ensures KeySplit(pd, k)[b] == Flatten(seq(|pd|, p requires 0 <= p < |pd| => Bucket(pd[p], k, b)))
  {
    var per := seq(|pd|, p requires 0 <= p < |pd| => Bucket(pd[p], k, b));
    if pd != [] {
      var m := |pd| - 1;
      KeySplitKeepsOrder(pd[..m], k, b);
      assert per[..m] == seq(m, p requires 0 <= p < m => Bucket(pd[..m][p], k, b));
      BucketConcat(Flatten(pd[..m]), pd[m], k, b);
    }
  }

  // ---------------------------------------------------------------------------
  // The cases of test/test_data_partition.rb, and the nil case
  // ---------------------------------------------------------------------------

  /** The test's `sample_data(size)`: the integers 1..size. */
  function SampleData(size: nat): seq<int>
  {
    seq(size, i => i + 1)
  }

  lemma HundredIntoFiveAndSeven()
    ensures var r := Partitioned(SampleData(100), 5);
            r[0] == Some(SampleData(100)[0..20]) && r[0].value[0] == 1 && r[0].value[19] == 20 &&
            r[4] == Some(SampleData(100)[80..100]) && r[4].value[0] == 81 && r[4].value[19] == 100
    ensures var r := Partitioned(SampleData(100), 7);
            |r[0].value| == 15 && |r[5].value| == 15 && |r[6].value| == 10
    ensures var r := Partitioned(SampleData(100), 1);
            |r| == 1 && |r[0].value| == 100
  {
    assert ChunkSize(100, 5) == 20;
    assert ChunkSize(100, 7) == 15;
    assert ChunkSize(100, 1) == 100;
  }

  lemma EightIntoSix()
    ensures var r := Partitioned(SampleData(8), 6);
            |r[0].value| == 2 && |r[1].value| == 2 && |r[2].value| == 1 &&
            |r[3].value| == 1 && |r[4].value| == 1 && |r[5].value| == 1
  {
    RoundRobinSizes(SampleData(8), 6);
  }

  /** Fourteen items into six: sizes 3, 3, 3, 3, 2 and then nil. */
  lemma FourteenIntoSix()
    ensures var data := SampleData(14);
            var r := Partitioned(data, 6);
            r[0] == Some([1, 2, 3]) && r[3] == Some([10, 11, 12]) &&
            r[4] == Some([13, 14]) && r[5] == None
  {
    var data := SampleData(14);
    assert ChunkSize(14, 6) == 3;
    assert data[12..14] == [13, 14];
    assert data[0..3] == [1, 2, 3];
    assert data[9..12] == [10, 11, 12];
  }

  /** test_default_reduce: 100 items into 5, recombined into 20 five-item
      partitions holding 1..100 in order. */
  lemma HundredRecombinedIntoTwenty()
    ensures var r := Recombined(NilAsEmpty(Partitioned(SampleData(100), 5)), 20);
            |r| == 20 && r == Partitioned(SampleData(100), 20) &&
            |r[0].value| == 5 && r[0].value[0] == 1 && r[19].value[4] == 100
  {
    var data := SampleData(100);
    assert ChunkSize(100, 5) == 20;
    RecombineAfterContiguous(data, 5, 20);
    assert ChunkSize(100, 20) == 5;
  }
}
