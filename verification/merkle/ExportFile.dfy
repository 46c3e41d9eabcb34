/** From the raw export file to its lines: exact slicing, and the file as the thing a root commits to. */
module ExportFile {
  import opened Bytes
  import opened MerkleTree

  const NEWLINE: byte := 0x0a

  function Concat(chunks: seq<Bytes>): Bytes {
    if chunks == [] then [] else chunks[0] + Concat(chunks[1..])
  }

  /** A line: nonempty, and a newline can only be its last byte. */
  predicate IsLine(chunk: Bytes) {
    |chunk| > 0 && NEWLINE !in chunk[..|chunk| - 1]
  }

  predicate Ends(chunk: Bytes) {
    |chunk| > 0 && chunk[|chunk| - 1] == NEWLINE
  }

  /** Every chunk is a line, and every chunk but the last is ended by its newline. */
  predicate AreLines(chunks: seq<Bytes>) {
    && (forall c <- chunks :: IsLine(c))
    && (forall j :: 0 <= j < |chunks| - 1 ==> Ends(chunks[j]))
  }

  lemma {:induction false} ConcatSnoc(chunks: seq<Bytes>, last: Bytes)
    ensures Concat(chunks + [last]) == Concat(chunks) + last
  {
    if chunks == [] {
      assert chunks + [last] == [last];
      assert Concat([last]) == last + Concat([]);
    } else {
      assert (chunks + [last])[1..] == chunks[1..] + [last];
      ConcatSnoc(chunks[1..], last);
    }
  }

  /** sliceRawExportLines: the slices are lines and put together again are the file. */
  method SliceRawExportLines(file: Bytes) returns (lines: seq<Bytes>)
    ensures AreLines(lines)
    ensures Concat(lines) == file
  {
    lines := [];
    var start := 0;
    for i := 0 to |file|
      invariant 0 <= start <= i
      invariant AreLines(lines) && forall c <- lines :: Ends(c)
      invariant Concat(lines) == file[..start]
      invariant NEWLINE !in file[start..i]
    {
      if file[i] == NEWLINE {
        var line := file[start..i + 1];
        assert line[..|line| - 1] == file[start..i];
        ConcatSnoc(lines, line);
        assert file[..start] + line == file[..i + 1];
        lines := lines + [line];
        start := i + 1;
      }
    }
    if start < |file| {
      var line := file[start..];
      assert NEWLINE !in file[start..|file|];
      ConcatSnoc(lines, line);
      assert file[..start] + line == file;
      lines := lines + [line];
    } else {
      assert file[..start] == file;
    }
  }

  /** Two first lines of one text, when each is ended or is the whole text, are one line. */
  lemma FirstLineUnique(a: Bytes, restA: Bytes, b: Bytes, restB: Bytes)
    requires IsLine(a) && IsLine(b)
    requires a + restA == b + restB
    requires (Ends(a) || restA == []) && (Ends(b) || restB == [])
    ensures a == b && restA == restB
  {
    var text := a + restA;
    assert text[..|a|] == a && text[|a|..] == restA;
    assert text[..|b|] == b && text[|b|..] == restB;
    if |a| < |b| {
      assert false;
    } else if |b| < |a| {
      assert false;
    }
  }

  lemma ConcatEmpty(chunks: seq<Bytes>)
    requires AreLines(chunks)
    ensures Concat(chunks) == [] <==> chunks == []
  {
    if chunks != [] {
      assert IsLine(chunks[0]);
      assert |Concat(chunks)| >= |chunks[0]|;
    }
  }

  /** There is only one way to slice a file into lines. */
  lemma {:induction false} SlicingUnique(a: seq<Bytes>, b: seq<Bytes>)
    requires AreLines(a) && AreLines(b) && Concat(a) == Concat(b)
    ensures a == b
    decreases |a|
  {
    ConcatEmpty(a);
    ConcatEmpty(b);
    if a != [] {
      assert IsLine(a[0]) && IsLine(b[0]);
      if |a| > 1 {
        assert Ends(a[0]);
      }
      if |b| > 1 {
        assert Ends(b[0]);
      }
      FirstLineUnique(a[0], Concat(a[1..]), b[0], Concat(b[1..]));
      TailLines(a);
      TailLines(b);
      SlicingUnique(a[1..], b[1..]);
      assert a == [a[0]] + a[1..] && b == [b[0]] + b[1..];
    }
  }

  lemma TailLines(chunks: seq<Bytes>)
    requires AreLines(chunks) && chunks != []
    ensures AreLines(chunks[1..])
  {
    forall c | c in chunks[1..] ensures IsLine(c) {
      assert c in chunks;
    }
    forall j | 0 <= j < |chunks[1..]| - 1 ensures Ends(chunks[1..][j]) {
      assert Ends(chunks[j + 1]);
    }
  }

  /** The root of the sliced file commits to the file itself: two files, one line count, one root, a collision. */
  function FileCollision(h: HashFn, file1: Bytes, lines1: seq<Bytes>, file2: Bytes, lines2: seq<Bytes>): (c: Collision)
    requires Concat(lines1) == file1 && Concat(lines2) == file2
    requires |lines1| == |lines2| && TreeHash(h, lines1) == TreeHash(h, lines2)
    requires file1 != file2
    ensures IsCollision(h, c)
  {
    RootCollision(h, lines1, lines2)
  }
}
