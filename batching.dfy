/** How a list of runs is cut into batches that run one after another:
    `max_parallel = ncores // np` runs side by side, and the list is cut into
    consecutive chunks of that many. */
module Batching {
  import opened Results
  import opened Seqs
  import opened Text

  /** Python's `a // b`: the quotient rounded toward negative infinity. */
  function FloorDiv(a: int, b: int): (q: int)
    requires b != 0
    ensures b > 0 ==> b * q <= a < b * q + b
    ensures b < 0 ==> b * q + b < a <= b * q
  {
    if b > 0 then a / b else (-a) / (-b)
  }

  /** `ZeroDivisionError` from `ncores // 0`, and the `ValueError` of a batch
      size of zero (`range` with step 0, `Parallel(n_jobs=0)`). */
  datatype BatchError = ZeroDivision | ZeroBatchSize

  /** `int(ncores // np)`: how many runs go side by side. */
  function MaxParallel(ncores: int, np: int): (r: Result<int, BatchError>)
    ensures r.Err? <==> np == 0
    ensures r.Err? ==> r.error == ZeroDivision
    ensures r.Ok? && np > 0 ==> r.value * np <= ncores < r.value * np + np
    ensures r.Ok? && np > 0 && ncores >= 0 ==> r.value >= 0
  {
    if np == 0 then Err(ZeroDivision) else Ok(FloorDiv(ncores, np))
  }

  /** `f"mpirun -np {np} {lmp_command}"`. */
  function MpiCommand(np: int, lmpCommand: string): string
  {
    "mpirun -np " + IntToString(np) + " " + lmpCommand
  }

  /** The shell receives `mpirun`, `-np`, the count, then the words of the
      LAMMPS command. */
  lemma MpiCommandWords(np: int, lmpWords: seq<string>)
    requires |lmpWords| > 0 && forall i :: 0 <= i < |lmpWords| ==> IsWord(lmpWords[i])
    ensures SplitWs(MpiCommand(np, Join(lmpWords, " "))) == ["mpirun", "-np", IntToString(np)] + lmpWords
  {
    var head := ["mpirun", "-np", IntToString(np)];
    assert MpiCommand(np, Join(lmpWords, " ")) == Join(head + lmpWords, " ") by {
      MpiHead(np);
      JoinAppend(head, lmpWords, " ");
    }
    MpiHead(np);
    WordsAppend(head, lmpWords);
    SplitJoin(head + lmpWords);
  }

  lemma MpiHead(np: int)
    ensures var head := ["mpirun", "-np", IntToString(np)];
      && Join(head, " ") == "mpirun -np " + IntToString(np)
      && forall i :: 0 <= i < |head| ==> IsWord(head[i])
  {
    var head := ["mpirun", "-np", IntToString(np)];
    assert Join(head[2..], " ") == IntToString(np);
    assert IsWord("mpirun") && IsWord("-np");
  }

  /** `[s[i:i + size] for i in range(0, len(s), size)]`: the first `size`
      elements (or all of them), then the chunks of the rest. */
  function Chunks<T>(s: seq<T>, size: nat): (r: seq<seq<T>>)
    requires size > 0
    decreases |s|
  {
    if |s| <= size then (if s == [] then [] else [s])
    else [s[..size]] + Chunks(s[size..], size)
  }

  /** `ceil(n / size)` chunks: the fewest that hold `n` elements `size` at a time. */
  lemma {:induction false} ChunksCount<T>(s: seq<T>, size: nat)
    requires size > 0
    ensures var m := |Chunks(s, size)|; (m - 1) * size < |s| <= m * size
    decreases |s|
  {
    if |s| > size {
      ChunksCount(s[size..], size);
      MulPred(|Chunks(s, size)|, size);
    }
  }

  /** Chunk `k` is the slice `s[k * size:k * size + size]` that the
      comprehension takes at offset `k * size` of the range. */
  lemma {:induction false} ChunkAt<T>(s: seq<T>, size: nat, k: nat)
    requires size > 0 && k < |Chunks(s, size)|
    ensures Chunks(s, size)[k] == PySlice(s, k * size, k * size + size)
    decreases k
  {
    if k > 0 {
      var rest := s[size..];
      ChunkAt(rest, size, k - 1);
      MulPred(k, size);
      SliceShift(s, size, k * size, (k - 1) * size);
    } else if |s| > size {
      assert Chunks(s, size)[0] == s[..size];
    }
  }

  /** The chunks are exactly `[s[i:i + size] for i in range(0, len(s), size)]`. */
  lemma ChunksIndexed<T>(s: seq<T>, size: nat)
    requires size > 0
    ensures var c := Chunks(s, size);
      && (|c| - 1) * size < |s| <= |c| * size
      && forall k :: 0 <= k < |c| ==> c[k] == PySlice(s, k * size, k * size + size)
  {
    ChunksCount(s, size);
    forall k | 0 <= k < |Chunks(s, size)|
      ensures Chunks(s, size)[k] == PySlice(s, k * size, k * size + size)
    {
      ChunkAt(s, size, k);
    }
  }

  lemma MulPred(k: nat, size: nat)
    requires k > 0
    ensures k * size == (k - 1) * size + size && (k - 1) * size >= 0
  {
  }

  /** Slicing `s` at offset `o = j + size` is slicing `s[size..]` at offset `j`. */
  lemma SliceShift<T>(s: seq<T>, size: nat, o: int, j: int)
    requires 0 < size < |s| && j >= 0 && o == j + size
    ensures PySlice(s, o, o + size) == PySlice(s[size..], j, j + size)
  {
    var rest := s[size..];
    var lo, hi := PyBound(j, |rest|), PyBound(j + size, |rest|);
    assert PyBound(o, |s|) == lo + size;
    assert PyBound(o + size, |s|) == hi + size;
    if lo < hi {
      assert s[lo + size..hi + size] == rest[lo..hi];
    }
  }

  /** The chunks put back together give the list. */
  lemma {:induction false} ChunksConcat<T>(s: seq<T>, size: nat)
    requires size > 0
    ensures Concat(Chunks(s, size)) == s
    decreases |s|
  {
    if |s| <= size {
      if s != [] {
        assert Concat([s]) == s + Concat([s][1..]);
      }
    } else {
      ChunksConcat(s[size..], size);
      var c := Chunks(s, size);
      assert c[1..] == Chunks(s[size..], size);
      assert s[..size] + s[size..] == s;
    }
  }

  /** Every chunk is non-empty and holds at most `size` elements; all but the
      last hold exactly `size`. */
  lemma {:induction false} ChunksSizes<T>(s: seq<T>, size: nat)
    requires size > 0
    ensures var c := Chunks(s, size);
      && (forall k :: 0 <= k < |c| ==> 0 < |c[k]| <= size)
      && (forall k :: 0 <= k < |c| - 1 ==> |c[k]| == size)
    decreases |s|
  {
    var c := Chunks(s, size);
    if |s| > size {
      ChunksSizes(s[size..], size);
      forall k | 0 <= k < |c|
        ensures 0 < |c[k]| <= size && (k < |c| - 1 ==> |c[k]| == size)
      {
        if k > 0 {
          assert c[k] == Chunks(s[size..], size)[k - 1];
        }
      }
    }
  }

  /** The batches `run` and `run_all_jobs_mpi` execute, in order: everything
      in one batch when it fits, otherwise the chunks; a negative batch size
      gives no batch at all. */
  function Batches<T>(units: seq<T>, maxParallel: int): (r: Result<seq<seq<T>>, BatchError>)
    ensures r.Err? <==> maxParallel == 0
  {
    if maxParallel == 0 then Err(ZeroBatchSize)
    else if |units| <= maxParallel then Ok([units])
    else if maxParallel < 0 then Ok([])
    else Ok(Chunks(units, maxParallel))
  }

  /** With a positive batch size the batches run every unit once, in order,
      at most `maxParallel` at a time; a negative one runs nothing. */
  lemma BatchesCover<T>(units: seq<T>, maxParallel: int)
    requires maxParallel != 0
    ensures var b := Batches(units, maxParallel).value;
      && (maxParallel > 0 ==> Concat(b) == units && forall k :: 0 <= k < |b| ==> |b[k]| <= maxParallel)
      && (maxParallel < 0 ==> b == [])
      && (|units| <= maxParallel ==> b == [units])
  {
    var b := Batches(units, maxParallel).value;
    if maxParallel > 0 {
      if |units| <= maxParallel {
        assert Concat(b) == units + Concat(b[1..]);
      } else {
        ChunksConcat(units, maxParallel);
        ChunksSizes(units, maxParallel);
      }
    }
  }
}
