/** The greedy split of a file manifest into chunks under a file cap and a byte cap. */
module ChunkPlanner {

  datatype File = File(id: string, size: nat)

  datatype Chunk = Chunk(files: seq<File>, fileCount: nat, estimatedBytes: nat)

  function Bytes(files: seq<File>): nat {
    if files == [] then 0 else Bytes(files[..|files| - 1]) + files[|files| - 1].size
  }

  /** The caps of the planner; 0 switches a cap off. A single file may exceed the byte cap. */
  predicate Meets(files: seq<File>, maxFiles: nat, maxBytes: nat) {
    files != [] && (maxFiles > 0 ==> |files| <= maxFiles) &&
    (maxBytes > 0 ==> |files| == 1 || Bytes(files) <= maxBytes)
  }

  function Concat(parts: seq<seq<File>>): seq<File> {
    if parts == [] then [] else parts[0] + Concat(parts[1..])
  }

  predicate AllMeet(parts: seq<seq<File>>, maxFiles: nat, maxBytes: nat) {
    forall k :: 0 <= k < |parts| ==> Meets(parts[k], maxFiles, maxBytes)
  }

  /** No chunk could have taken the first file of the next one. */
  predicate Greedy(parts: seq<seq<File>>, maxFiles: nat, maxBytes: nat) {
    AllMeet(parts, maxFiles, maxBytes) &&
    forall k :: 0 <= k < |parts| - 1 ==> !Meets(parts[k] + [parts[k + 1][0]], maxFiles, maxBytes)
  }

  lemma {:induction false} BytesConcat(a: seq<File>, b: seq<File>)
    ensures Bytes(a + b) == Bytes(a) + Bytes(b)
  {
    if b == [] {
      assert a + b == a;
    } else {
      assert (a + b)[..|a + b| - 1] == a + b[..|b| - 1];
      BytesConcat(a, b[..|b| - 1]);
    }
  }

  /** A chunk with a contiguous part that does not meet the caps does not meet them either. */
  lemma {:induction false} PartFails(before: seq<File>, part: seq<File>, after: seq<File>, maxFiles: nat, maxBytes: nat)
    requires part != [] && !Meets(part, maxFiles, maxBytes)
    ensures !Meets(before + part + after, maxFiles, maxBytes)
  {
    BytesConcat(before + part, after);
    BytesConcat(before, part);
  }

  /** A greedy split of what is left after x needs no more chunks than any split of the whole. */
  lemma {:induction false} GreedyStaysAhead(greedy: seq<seq<File>>, other: seq<seq<File>>, x: seq<File>,
                                            maxFiles: nat, maxBytes: nat)
    requires Greedy(greedy, maxFiles, maxBytes) && AllMeet(other, maxFiles, maxBytes)
    requires Concat(other) == x + Concat(greedy)
    ensures |greedy| <= |other|
    decreases |other|
  {
    if greedy != [] {
      assert Meets(greedy[0], maxFiles, maxBytes);
      assert |Concat(other)| > 0;
      var first, rest := other[0], Concat(other[1..]);
      assert Meets(first, maxFiles, maxBytes);
      assert AllMeet(other[1..], maxFiles, maxBytes);
      if |first| <= |x| {
        assert first == Concat(other)[..|first|] == x[..|first|];
        assert rest == x[|first|..] + Concat(greedy);
        GreedyStaysAhead(greedy, other[1..], x[|first|..], maxFiles, maxBytes);
      } else {
        var y := first[|x|..];
        FirstChunkCovers(greedy, other, x, y, maxFiles, maxBytes);
        assert rest == greedy[0][|y|..] + Concat(greedy[1..]);
        GreedyTail(greedy, maxFiles, maxBytes);
        GreedyStaysAhead(greedy[1..], other[1..], greedy[0][|y|..], maxFiles, maxBytes);
      }
    }
  }

  lemma {:induction false} GreedyTail(greedy: seq<seq<File>>, maxFiles: nat, maxBytes: nat)
    requires Greedy(greedy, maxFiles, maxBytes) && greedy != []
    ensures Greedy(greedy[1..], maxFiles, maxBytes)
  {
    forall k | 0 <= k < |greedy[1..]| - 1
      ensures !Meets(greedy[1..][k] + [greedy[1..][k + 1][0]], maxFiles, maxBytes)
    {
      assert !Meets(greedy[k + 1] + [greedy[k + 2][0]], maxFiles, maxBytes);
    }
  }

  lemma {:induction false} CutPrefix(a: seq<File>, b: seq<File>, x: seq<File>, all: seq<File>)
    requires a + b == x + all && |x| <= |a|
    ensures a == x + a[|x|..] && a[|x|..] + b == all
  {
    assert (a + b)[..|x|] == x && (a + b)[|x|..] == all;
    assert (a + b)[..|x|] == a[..|x|] && (a + b)[|x|..] == a[|x|..] + b;
  }

  lemma {:induction false} ConcatOfOne(parts: seq<seq<File>>)
    requires parts != []
    ensures |parts| == 1 ==> Concat(parts) == parts[0]
  {
    assert |parts| == 1 ==> parts[1..] == [];
  }

  /** A chunk that takes the first greedy chunk and more does not meet the caps. */
  lemma {:induction false} LongerDoesNotMeet(greedy: seq<seq<File>>, x: seq<File>, y: seq<File>, rest: seq<File>,
                                             maxFiles: nat, maxBytes: nat)
    requires Greedy(greedy, maxFiles, maxBytes) && greedy != []
    requires y + rest == Concat(greedy) && |y| > |greedy[0]|
    ensures !Meets(x + y, maxFiles, maxBytes)
  {
    var all := Concat(greedy);
    ConcatOfOne(greedy);
    assert |greedy| > 1;
    assert Meets(greedy[1], maxFiles, maxBytes) && !Meets(greedy[0] + [greedy[1][0]], maxFiles, maxBytes);
    var more := greedy[0] + [greedy[1][0]];
    assert all[|greedy[0]|] == greedy[1][0];
    assert y[..|more|] == all[..|more|] == more;
    assert x + y == x + more + y[|more|..];
    PartFails(x, more, y[|more|..], maxFiles, maxBytes);
  }

  /** What another chunk takes beyond x fits into the first greedy chunk. */
  lemma {:induction false} FirstChunkCovers(greedy: seq<seq<File>>, other: seq<seq<File>>, x: seq<File>, y: seq<File>,
                                            maxFiles: nat, maxBytes: nat)
    requires Greedy(greedy, maxFiles, maxBytes) && greedy != [] && other != [] && Meets(other[0], maxFiles, maxBytes)
    requires Concat(other) == x + Concat(greedy) && |x| < |other[0]| && y == other[0][|x|..]
    ensures |y| <= |greedy[0]| && Concat(other[1..]) == greedy[0][|y|..] + Concat(greedy[1..])
  {
    var rest := Concat(other[1..]);
    CutPrefix(other[0], rest, x, Concat(greedy));
    if |y| > |greedy[0]| {
      LongerDoesNotMeet(greedy, x, y, rest, maxFiles, maxBytes);
    }
    CutPrefix(greedy[0], Concat(greedy[1..]), y, rest);
  }

  /** No other in-order contiguous split that meets the caps has fewer chunks. */
  lemma {:induction false} GreedyIsOptimal(greedy: seq<seq<File>>, other: seq<seq<File>>, maxFiles: nat, maxBytes: nat)
    requires Greedy(greedy, maxFiles, maxBytes) && AllMeet(other, maxFiles, maxBytes) && Concat(other) == Concat(greedy)
    ensures |greedy| <= |other|
  {
    assert Concat(other) == [] + Concat(greedy);
    GreedyStaysAhead(greedy, other, [], maxFiles, maxBytes);
  }

  function Parts(chunks: seq<Chunk>): seq<seq<File>> {
    seq(|chunks|, k requires 0 <= k < |chunks| => chunks[k].files)
  }

  lemma {:induction false} ConcatAppend(parts: seq<seq<File>>, last: seq<File>)
    ensures Concat(parts + [last]) == Concat(parts) + last
  {
    if parts == [] {
      assert parts + [last] == [last];
      assert [last][1..] == [];
    } else {
      assert (parts + [last])[1..] == parts[1..] + [last];
      ConcatAppend(parts[1..], last);
    }
  }

  lemma {:induction false} StartChunk(parts: seq<seq<File>>, row: File, maxFiles: nat, maxBytes: nat)
    requires Greedy(parts, maxFiles, maxBytes)
    requires parts != [] ==> !Meets(parts[|parts| - 1] + [row], maxFiles, maxBytes)
    ensures Greedy(parts + [[row]], maxFiles, maxBytes)
    ensures Concat(parts + [[row]]) == Concat(parts) + [row]
  {
    ConcatAppend(parts, [row]);
  }

  lemma {:induction false} ExtendChunk(parts: seq<seq<File>>, current: seq<File>, row: File, maxFiles: nat,
                                       maxBytes: nat)
    requires Greedy(parts + [current], maxFiles, maxBytes) && Meets(current + [row], maxFiles, maxBytes)
    ensures Greedy(parts + [current + [row]], maxFiles, maxBytes)
    ensures Concat(parts + [current + [row]]) == Concat(parts + [current]) + [row]
  {
    var before, after := parts + [current], parts + [current + [row]];
    assert Meets(current, maxFiles, maxBytes) by { assert before[|parts|] == current; }
    forall k | 0 <= k < |after| ensures Meets(after[k], maxFiles, maxBytes) {
      assert k < |parts| ==> after[k] == before[k];
    }
    forall k | 0 <= k < |after| - 1 ensures !Meets(after[k] + [after[k + 1][0]], maxFiles, maxBytes) {
      assert !Meets(before[k] + [before[k + 1][0]], maxFiles, maxBytes);
    }
    ConcatAppend(parts, current);
    ConcatAppend(parts, current + [row]);
  }

  lemma {:induction false} TakeOneMore(files: seq<File>, k: nat)
    requires k < |files|
    ensures files[..k + 1] == files[..k] + [files[k]]
  {
  }

  /** The mutable state of the planning loop: the chunks written and the one being filled. */
  class ChunkPlan {
    const maxFiles: nat
    const maxBytes: nat
    var chunks: seq<Chunk>
    var current: seq<File>
    var currentBytes: nat

    constructor (maxFiles: nat, maxBytes: nat)
      ensures this.maxFiles == maxFiles && this.maxBytes == maxBytes && chunks == [] && current == []
      ensures Valid()
    {
      this.maxFiles, this.maxBytes := maxFiles, maxBytes;
      chunks, current, currentBytes := [], [], 0;
    }

    predicate Recorded()
      reads this
    {
      forall k :: 0 <= k < |chunks| ==>
        chunks[k].fileCount == |chunks[k].files| && chunks[k].estimatedBytes == Bytes(chunks[k].files)
    }

    /** The chunks so far, with the current one if it has files. */
    function AllParts(): seq<seq<File>>
      reads this
    {
      Parts(chunks) + if current == [] then [] else [current]
    }

    ghost predicate Valid()
      reads this
    {
      currentBytes == Bytes(current) && Recorded() && Greedy(AllParts(), maxFiles, maxBytes)
    }

    method Flush()
      requires Valid()
      modifies this
      ensures Valid() && current == [] && AllParts() == old(AllParts()) == Parts(chunks)
    {
      if current == [] {
        assert AllParts() == Parts(chunks);
        return;
      }
      var before := chunks;
      chunks := chunks + [Chunk(current, |current|, currentBytes)];
      assert Parts(chunks) == Parts(before) + [current];
      current := [];
      currentBytes := 0;
      assert AllParts() == Parts(chunks);
    }

    /** Adds the next file, to the current chunk if the caps allow it. */
    method Add(row: File)
      requires Valid() && (current == [] ==> chunks == [])
      modifies this
      ensures Valid() && current != [] && Concat(AllParts()) == old(Concat(AllParts())) + [row]
    {
      BytesConcat(current, [row]);
      assert [row][..0] == [];
      var fileCap := maxFiles > 0 && |current| >= maxFiles;
      var byteCap := maxBytes > 0 && currentBytes + row.size > maxBytes;
      ghost var parts := AllParts();
      if current != [] && (fileCap || byteCap) {
        assert parts[|parts| - 1] == current;
        Flush();
      }
      if current == [] {
        StartChunk(parts, row, maxFiles, maxBytes);
        assert Parts(chunks) == parts && current + [row] == [row];
      } else {
        ExtendChunk(Parts(chunks), current, row, maxFiles, maxBytes);
      }
      BytesConcat(current, [row]);
      current := current + [row];
      currentBytes := currentBytes + row.size;
      assert AllParts() == Parts(chunks) + [current];
    }

    /** Plans all files: the chunks are the files in order, meet the caps, and none could have been filled further. */
    method Plan(files: seq<File>)
      requires Valid() && chunks == [] && current == []
      modifies this
      ensures Concat(Parts(chunks)) == files
      ensures Greedy(Parts(chunks), maxFiles, maxBytes) && Recorded()
    {
      for k := 0 to |files|
        invariant Valid() && (current == [] ==> chunks == []) && Concat(AllParts()) == files[..k]
      {
        Add(files[k]);
        TakeOneMore(files, k);
      }
      Flush();
      assert files[..|files|] == files;
    }
  }
}
