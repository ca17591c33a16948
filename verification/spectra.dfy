/** Reading the absorbance spectra of one folder's files (`readOpusFiles`). */
module Spectra {
  import opened Errors
  import Paths

  /** One decoded data block of an OPUS file: its kind and its x/y samples. */
  datatype Block<V> = Block(kind: string, x: seq<V>, y: seq<V>)

  /** The kind of block the converter consumes. */
  const Absorbance: string := "AB"

  /** The decoder: the blocks of a file, in the order the file lists them. */
  type Decoder<V> = string -> seq<Block<V>>

  /** The absorbance blocks among `blocks`, in order. */
  function AbsorbanceOf<V>(blocks: seq<Block<V>>): (ab: seq<Block<V>>)
    ensures |ab| <= |blocks|
    ensures forall k :: 0 <= k < |ab| ==> ab[k] in blocks && ab[k].kind == Absorbance
    ensures forall k :: 0 <= k < |blocks| && blocks[k].kind == Absorbance ==> blocks[k] in ab
    ensures |blocks| == 1 ==> ab == if blocks[0].kind == Absorbance then blocks else []
  {
    if |blocks| == 0 then []
    else
      var last := blocks[|blocks| - 1];
      AbsorbanceOf(blocks[..|blocks| - 1]) + (if last.kind == Absorbance then [last] else [])
  }

  /** Filtering a concatenation keeps the order: the blocks of `a` come before those of `b`. */
  lemma {:induction false} AbsorbanceOfConcat<V>(a: seq<Block<V>>, b: seq<Block<V>>)
    ensures AbsorbanceOf(a + b) == AbsorbanceOf(a) + AbsorbanceOf(b)
    decreases |b|
  {
    if |b| > 0 {
      var b' := b[..|b| - 1];
      assert (a + b)[..|a + b| - 1] == a + b';
      assert (a + b)[|a + b| - 1] == b[|b| - 1];
      AbsorbanceOfConcat(a, b');
    } else {
      assert a + b == a;
    }
  }

  /** Extending a prefix of `blocks` by one block keeps that block exactly when it is an absorbance block. */
  lemma AbsorbanceOfPrefix<V>(blocks: seq<Block<V>>, j: nat)
    requires j < |blocks|
    ensures AbsorbanceOf(blocks[..j + 1])
      == AbsorbanceOf(blocks[..j]) + if blocks[j].kind == Absorbance then [blocks[j]] else []
  {
    assert blocks[..j + 1][..j] == blocks[..j];
  }

  /** The absorbance blocks of all files, file by file and block by block. */
  function BatchBlocks<V>(files: seq<string>, decode: Decoder<V>): seq<Block<V>>
  {
    if |files| == 0 then []
    else BatchBlocks(files[..|files| - 1], decode) + AbsorbanceOf(decode(files[|files| - 1]))
  }

  /** Extending a prefix of `files` by one file appends that file's absorbance blocks. */
  lemma BatchBlocksPrefix<V>(files: seq<string>, decode: Decoder<V>, i: nat)
    requires i < |files|
    ensures BatchBlocks(files[..i + 1], decode) == BatchBlocks(files[..i], decode) + AbsorbanceOf(decode(files[i]))
  {
    assert files[..i + 1][..i] == files[..i];
  }

  /** The x-axes of `blocks`, in order. */
  function XAxes<V>(blocks: seq<Block<V>>): (xs: seq<seq<V>>)
    ensures |xs| == |blocks| && forall k :: 0 <= k < |xs| ==> xs[k] == blocks[k].x
  {
    seq(|blocks|, k requires 0 <= k < |blocks| => blocks[k].x)
  }

  /** The y-axes of `blocks`, in order. */
  function YAxes<V>(blocks: seq<Block<V>>): (ys: seq<seq<V>>)
    ensures |ys| == |blocks| && forall k :: 0 <= k < |ys| ==> ys[k] == blocks[k].y
  {
    seq(|blocks|, k requires 0 <= k < |blocks| => blocks[k].y)
  }

  /** Appending a block appends its axes. */
  lemma AxesAppend<V>(blocks: seq<Block<V>>, b: Block<V>)
    ensures XAxes(blocks + [b]) == XAxes(blocks) + [b.x]
    ensures YAxes(blocks + [b]) == YAxes(blocks) + [b.y]
  {
    assert XAxes(blocks + [b])[|blocks|] == b.x;
  }

  /** The spectra matrix (one row per absorbance block) and the shared wavenumber axis. */
  datatype Batch<V> = Batch(values: seq<seq<V>>, wavenumbers: seq<V>)

  /** True when every x-axis in `xs` equals the first one. */
  predicate AllEqualFirst<V(==)>(xs: seq<seq<V>>)
  {
    forall k :: 0 <= k < |xs| ==> xs[k] == xs[0]
  }

  /**
   * The batch of a folder's files: no absorbance block is the IndexError
   * failure; differing x-axes are the assertion naming the first file's
   * folder; otherwise the y rows in order and the first x-axis.
   */
  function ReadOpusFiles<V(==)>(files: seq<string>, decode: Decoder<V>): Result<Batch<V>, Failure>
  {
    var ab := BatchBlocks(files, decode);
    if |ab| == 0 then Err(NoAbsorbanceBlocks)
    else if !AllEqualFirst(XAxes(ab)) then Err(InconsistentWavenumbers(Paths.Head(files[0])))
    else Ok(Batch(YAxes(ab), ab[0].x))
  }

  /**
   * The converter's loop: walk the files, keep the absorbance blocks, collect
   * their axes, then check the x-axes against the first.
   */
  method ReadOpusFilesLoop<V(==)>(files: seq<string>, decode: Decoder<V>)
    returns (r: Result<Batch<V>, Failure>)
    ensures |BatchBlocks(files, decode)| == 0 <==> r == Err(NoAbsorbanceBlocks)
    ensures r.Ok? <==>
      |BatchBlocks(files, decode)| > 0 && forall k :: 0 <= k < |BatchBlocks(files, decode)| ==>
        BatchBlocks(files, decode)[k].x == BatchBlocks(files, decode)[0].x
    ensures r.Ok? ==>
      r.value.wavenumbers == BatchBlocks(files, decode)[0].x &&
      r.value.values == YAxes(BatchBlocks(files, decode))
    ensures r.Err? && r.error != NoAbsorbanceBlocks ==>
      |files| > 0 && r.error == InconsistentWavenumbers(Paths.Head(files[0]))
    ensures r == ReadOpusFiles(files, decode)
  {
    var wavenumbers: seq<seq<V>> := [];
    var values: seq<seq<V>> := [];
    ghost var kept: seq<Block<V>> := [];
    for i := 0 to |files|
      invariant kept == BatchBlocks(files[..i], decode)
      invariant wavenumbers == XAxes(kept) && values == YAxes(kept)
    {
      var blocks := decode(files[i]);
      ghost var before := kept;
      for j := 0 to |blocks|
        invariant kept == before + AbsorbanceOf(blocks[..j])
        invariant wavenumbers == XAxes(kept) && values == YAxes(kept)
      {
        AbsorbanceOfPrefix(blocks, j);
        if blocks[j].kind == Absorbance {
          AxesAppend(kept, blocks[j]);
          wavenumbers := wavenumbers + [blocks[j].x];
          values := values + [blocks[j].y];
          kept := kept + [blocks[j]];
        }
      }
      assert blocks[..|blocks|] == blocks;
      BatchBlocksPrefix(files, decode, i);
    }
    assert files[..|files|] == files;
    if |wavenumbers| == 0 {
      return Err(NoAbsorbanceBlocks);
    }
    if forall k :: 0 <= k < |wavenumbers| ==> wavenumbers[k] == wavenumbers[0] {
      r := Ok(Batch(values, wavenumbers[0]));
    } else {
      BatchBlocksNonEmpty(files, decode);
      r := Err(InconsistentWavenumbers(Paths.Head(files[0])));
    }
  }

  /** Some absorbance block implies some file. */
  lemma BatchBlocksNonEmpty<V>(files: seq<string>, decode: Decoder<V>)
    requires |BatchBlocks(files, decode)| > 0
    ensures |files| > 0
  {
  }

  /** True when every file holds exactly one absorbance block. */
  predicate OneAbsorbanceEach<V>(files: seq<string>, decode: Decoder<V>)
  {
    forall i :: 0 <= i < |files| ==> |AbsorbanceOf(decode(files[i]))| == 1
  }

  /**
   * With one absorbance block per file, the batch has one block per file and
   * block i comes from file i: spectra rows then line up with files.
   */
  lemma {:induction false} OneBlockPerFileAligns<V>(files: seq<string>, decode: Decoder<V>)
    requires OneAbsorbanceEach(files, decode)
    ensures |BatchBlocks(files, decode)| == |files|
    ensures forall i :: 0 <= i < |files| ==>
      BatchBlocks(files, decode)[i] == AbsorbanceOf(decode(files[i]))[0]
  {
    if |files| > 0 {
      var init := files[..|files| - 1];
      assert OneAbsorbanceEach(init, decode) by {
        forall i | 0 <= i < |init|
          ensures |AbsorbanceOf(decode(init[i]))| == 1
        {
          assert init[i] == files[i];
        }
      }
      OneBlockPerFileAligns(init, decode);
      forall i | 0 <= i < |files|
        ensures BatchBlocks(files, decode)[i] == AbsorbanceOf(decode(files[i]))[0]
      {
        if i < |init| {
          assert init[i] == files[i];
        }
      }
    }
  }
}
