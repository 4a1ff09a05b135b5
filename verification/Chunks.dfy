/** Chunks of bytecode with their run-length line table (src/chunk/chunk.c,
    src/chunk/sourceinfo.c). */
module Chunks {
  import opened Bytecode
  import T = Tables

  /** uint16_t */
  type Linenumber = n: int | 0 <= n < 0x1_0000 witness 0

  /** What the decoder returns past the end: -1 as a uint16_t. */
  const NO_LINE: Linenumber := 0xFFFF

  function Repeat(line: Linenumber, n: nat): (r: seq<Linenumber>)
    ensures |r| == n && forall i :: 0 <= i < n ==> r[i] == line
  {
    seq(n, _ => line)
  }

  /** The line of every byte, for the runs of a table. */
  function Expand(lines: seq<Linenumber>, runs: seq<nat>): seq<Linenumber>
    requires |lines| == |runs|
  {
    if lines == [] then []
    else
      var n := |lines| - 1;
      Expand(lines[..n], runs[..n]) + Repeat(lines[n], runs[n])
  }

  /** Runs are not empty, and neighbours are for different lines. */
  ghost predicate Compressed(lines: seq<Linenumber>, runs: seq<nat>) {
    && |lines| == |runs|
    && (forall i :: 0 <= i < |runs| ==> runs[i] > 0)
    && (forall i :: 0 <= i < |lines| - 1 ==> lines[i] != lines[i + 1])
  }

  lemma ExpandNewRun(lines: seq<Linenumber>, runs: seq<nat>, line: Linenumber)
    requires |lines| == |runs|
    ensures Expand(lines + [line], runs + [1]) == Expand(lines, runs) + [line]
  {
    assert (lines + [line])[..|lines|] == lines && (runs + [1])[..|runs|] == runs;
  }

  lemma ExpandLongerRun(lines: seq<Linenumber>, runs: seq<nat>)
    requires |lines| == |runs| > 0
    ensures var n := |lines| - 1;
      Expand(lines, runs[n := runs[n] + 1]) == Expand(lines, runs) + [lines[n]]
  {
    var n := |lines| - 1;
    assert runs[n := runs[n] + 1][..n] == runs[..n];
    assert Repeat(lines[n], runs[n] + 1) == Repeat(lines[n], runs[n]) + [lines[n]];
  }

  /** A prefix of the table is the table of a prefix. */
  lemma {:induction false} ExpandPrefix(lines: seq<Linenumber>, runs: seq<nat>, i: nat)
    requires |lines| == |runs| && i <= |lines|
    ensures Expand(lines[..i], runs[..i]) <= Expand(lines, runs)
    decreases |lines|
  {
    var n := |lines| - 1;
    if i == |lines| {
      assert lines[..i] == lines && runs[..i] == runs;
    } else {
      ExpandPrefix(lines[..n], runs[..n], i);
      assert lines[..n][..i] == lines[..i] && runs[..n][..i] == runs[..i];
    }
  }

  class SourceInfo {
    var count: nat
    var linenumbers: array<Linenumber>
    var linenumberCounter: array<nat>

    ghost predicate Valid()
      reads this, linenumbers, linenumberCounter
    {
      && count <= linenumbers.Length == linenumberCounter.Length
      && (count == 0 <==> linenumbers.Length == 0)
      && Compressed(linenumbers[..count], linenumberCounter[..count])
    }

    /** The line of every byte that has been added. */
    ghost function Lines(): seq<Linenumber>
      requires Valid()
      reads this, linenumbers, linenumberCounter
    {
      Expand(linenumbers[..count], linenumberCounter[..count])
    }

    constructor ()
      ensures Valid() && Lines() == [] && fresh(linenumbers) && fresh(linenumberCounter)
    {
      count := 0;
      linenumbers, linenumberCounter := new Linenumber[0], new nat[0];
    }

    /** GROW_ARRAY on both arrays */
    method Grow()
      requires count == linenumbers.Length == linenumberCounter.Length
      modifies this`linenumbers, this`linenumberCounter
      ensures fresh(linenumbers) && fresh(linenumberCounter)
      ensures linenumbers.Length == linenumberCounter.Length > count
      ensures linenumbers[..count] == old(linenumbers[..]) && linenumberCounter[..count] == old(linenumberCounter[..])
    {
      var capacity := T.GrowCapacity(count);
      var lines, runs := new Linenumber[capacity], new nat[capacity];
      for i := 0 to count
        modifies lines, runs
        invariant lines[..i] == linenumbers[..i] && runs[..i] == linenumberCounter[..i]
      {
        lines[i], runs[i] := linenumbers[i], linenumberCounter[i];
      }
      linenumbers, linenumberCounter := lines, runs;
    }

    method WriteLine(line: Linenumber)
      requires Valid() && (count > 0 ==> linenumbers[count - 1] != line)
      modifies this, linenumbers, linenumberCounter
      ensures Valid() && Lines() == old(Lines()) + [line]
      ensures linenumbers == old(linenumbers) || fresh(linenumbers)
      ensures linenumberCounter == old(linenumberCounter) || fresh(linenumberCounter)
    {
      ghost var lines, runs := linenumbers[..count], linenumberCounter[..count];
      if linenumbers.Length < count + 1 {
        Grow();
      }
      linenumbers[count] := line;
      linenumberCounter[count] := 1;
      count := count + 1;
      assert linenumbers[..count] == lines + [line] && linenumberCounter[..count] == runs + [1];
      ExpandNewRun(lines, runs, line);
    }

    method AddLinenumber(line: Linenumber)
      requires Valid()
      modifies this, linenumbers, linenumberCounter
      ensures Valid() && Lines() == old(Lines()) + [line]
      ensures linenumbers == old(linenumbers) || fresh(linenumbers)
      ensures linenumberCounter == old(linenumberCounter) || fresh(linenumberCounter)
    {
      if linenumbers.Length == 0 {
        WriteLine(line);
        return;
      }
      var last := linenumbers[count - 1];
      if last == line {
        ghost var lines, runs := linenumbers[..count], linenumberCounter[..count];
        linenumberCounter[count - 1] := linenumberCounter[count - 1] + 1;
        assert linenumberCounter[..count] == runs[count - 1 := runs[count - 1] + 1];
        ExpandLongerRun(lines, runs);
      } else {
        WriteLine(line);
      }
    }

    /** The line of the byte at an offset. */
    method GetLinenumber(offset: nat) returns (line: Linenumber)
      requires Valid()
      ensures line == if offset < |Lines()| then Lines()[offset] else NO_LINE
    {
      ghost var lines, runs := linenumbers[..count], linenumberCounter[..count];
      var lastOffset := -1;
      var currentOffset := 0;
      for i := 0 to count
        invariant currentOffset == |Expand(lines[..i], runs[..i])| <= offset
        invariant lastOffset <= offset
      {
        assert lines[..i + 1][..i] == lines[..i] && runs[..i + 1][..i] == runs[..i];
        ExpandPrefix(lines, runs, i + 1);
        currentOffset := currentOffset + linenumberCounter[i];
        if lastOffset <= offset && currentOffset > offset {
          return linenumbers[i];
        }
        lastOffset := currentOffset;
      }
      assert lines[..count] == lines && runs[..count] == runs;
      return NO_LINE;
    }
  }

  class Chunk {
    var count: nat
    var code: array<Byte>
    const sourceinfo: SourceInfo

    /** Code and lines stay in step. */
    ghost predicate Valid()
      reads this, code, sourceinfo, sourceinfo.linenumbers, sourceinfo.linenumberCounter
    {
      count <= code.Length && sourceinfo.Valid() && |sourceinfo.Lines()| == count
    }

    constructor ()
      ensures Valid() && count == 0 && fresh(code) && fresh(sourceinfo)
      ensures fresh(sourceinfo.linenumbers) && fresh(sourceinfo.linenumberCounter)
    {
      count := 0;
      code := new Byte[0];
      sourceinfo := new SourceInfo();
    }

    method Grow()
      requires count == code.Length
      modifies this`code
      ensures fresh(code) && code.Length > count && code[..count] == old(code[..])
    {
      var bytes := new Byte[T.GrowCapacity(count)];
      for i := 0 to count
        modifies bytes
        invariant bytes[..i] == code[..i]
      {
        bytes[i] := code[i];
      }
      code := bytes;
    }

    /** `line` is an int that is narrowed to a uint16_t. */
    method WriteChunk(b: Byte, line: int)
      requires Valid()
      modifies this, code, sourceinfo, sourceinfo.linenumbers, sourceinfo.linenumberCounter
      ensures Valid() && code[..count] == old(code[..count]) + [b]
      ensures sourceinfo.Lines() == old(sourceinfo.Lines()) + [line % 0x1_0000]
      ensures code == old(code) || fresh(code)
      ensures sourceinfo.linenumbers == old(sourceinfo.linenumbers) || fresh(sourceinfo.linenumbers)
      ensures sourceinfo.linenumberCounter == old(sourceinfo.linenumberCounter) || fresh(sourceinfo.linenumberCounter)
    {
      if code.Length < count + 1 {
        Grow();
      }
      sourceinfo.AddLinenumber(line % 0x1_0000);
      code[count] := b;
      count := count + 1;
    }
  }

  /** Every byte is found with the line it was written with, up to lines of 16 bits. */
  method RoundTrip(bytes: seq<Byte>, lines: seq<int>, offset: nat) returns (line: Linenumber)
    requires |bytes| == |lines|
    ensures line == if offset < |lines| then lines[offset] % 0x1_0000 else 65535
  {
    var chunk := new Chunk();
    for i := 0 to |bytes|
      invariant fresh(chunk) && fresh(chunk.code) && fresh(chunk.sourceinfo)
      invariant fresh(chunk.sourceinfo.linenumbers) && fresh(chunk.sourceinfo.linenumberCounter)
      invariant chunk.Valid() && chunk.code[..chunk.count] == bytes[..i] && |chunk.sourceinfo.Lines()| == i
      invariant forall j :: 0 <= j < i ==> chunk.sourceinfo.Lines()[j] == lines[j] % 0x1_0000
    {
      chunk.WriteChunk(bytes[i], lines[i]);
    }
    line := chunk.sourceinfo.GetLinenumber(offset);
  }
}
