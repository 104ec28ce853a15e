// A store over several files: it reads and writes as if the files were one
// sequence of bytes.

module FileStores {
  import opened Bytes
  import opened Protocol

  // ---- Concatenation ----

  ghost function Concat(parts: seq<seq<byte>>): seq<byte> {
    if parts == [] then [] else Concat(parts[..|parts| - 1]) + parts[|parts| - 1]
  }

  // Where part i starts.
  ghost function Offset(parts: seq<seq<byte>>, i: nat): nat
    requires i <= |parts|
  {
    |Concat(parts[..i])|
  }

  lemma OffsetStep(parts: seq<seq<byte>>, i: nat)
    requires i < |parts|
    ensures Offset(parts, i + 1) == Offset(parts, i) + |parts[i]|
  {
    assert parts[..i + 1][..i] == parts[..i];
  }

  lemma OffsetEnds(parts: seq<seq<byte>>)
    ensures Offset(parts, 0) == 0 && Offset(parts, |parts|) == |Concat(parts)|
  {
    assert parts[..|parts|] == parts;
  }

  // Part i is the slice of the concatenation that starts at its offset.
  lemma {:induction false} PartOf(parts: seq<seq<byte>>, i: nat)
    requires i < |parts|
    ensures Offset(parts, i) + |parts[i]| <= |Concat(parts)|
    ensures forall x :: 0 <= x < |parts[i]| ==> Concat(parts)[Offset(parts, i) + x] == parts[i][x]
    decreases |parts|
  {
    var init := parts[..|parts| - 1];
    if i < |init| {
      PartOf(init, i);
      assert init[..i] == parts[..i];
    }
  }

  // Replacing a part by one of the same length moves nothing.
  lemma {:induction false} ReplacePart(parts: seq<seq<byte>>, i: nat, part: seq<byte>)
    requires i < |parts| && |part| == |parts[i]|
    ensures Concat(parts[i := part]) == Splice(Concat(parts), Offset(parts, i), part)
    decreases |parts|
  {
    var parts' := parts[i := part];
    var init, last := parts[..|parts| - 1], |parts| - 1;
    if i < last {
      ReplacePart(init, i, part);
      PartOf(init, i);
      assert parts'[..last] == init[i := part];
      assert init[..i] == parts[..i];
    } else {
      assert parts'[..last] == init;
    }
  }

  lemma WriteInPart(parts: seq<seq<byte>>, i: nat, off: nat, p: seq<byte>)
    requires i < |parts| && off + |p| <= |parts[i]|
    ensures Concat(parts[i := Splice(parts[i], off, p)]) == Splice(Concat(parts), Offset(parts, i) + off, p)
  {
    ReplacePart(parts, i, Splice(parts[i], off, p));
    PartOf(parts, i);
  }

  // ---- One file ----

  class File {
    var bytes: seq<byte>

    constructor (length: nat)
      ensures |bytes| == length
    {
      bytes := seq(length, _ => 0);
    }

    // A read fills the first n bytes of p[lo..hi]; only a failing one stops
    // early, and it may leave anything behind them.
    method ReadAt(p: array<byte>, lo: nat, hi: nat, off: nat) returns (n: nat, ok: bool)
      requires lo <= hi <= p.Length && off + (hi - lo) <= |bytes|
      modifies p
      ensures n <= hi - lo && (ok ==> n == hi - lo)
      ensures forall x :: lo <= x < lo + n ==> p[x] == bytes[off + x - lo]
      ensures forall x :: 0 <= x < p.Length && !(lo <= x < hi) ==> p[x] == old(p[x])
    {
      ok := *;
      n := hi - lo;
      if !ok {
        n :| 0 <= n <= hi - lo;
      }
      forall i | 0 <= i < n { p[lo + i] := bytes[off + i]; }
    }

    method WriteAt(p: seq<byte>, off: nat) returns (n: nat, ok: bool)
      requires off + |p| <= |bytes|
      modifies this`bytes
      ensures n <= |p| && (ok ==> n == |p|)
      ensures bytes == Splice(old(bytes), off, p[..n])
    {
      ok := *;
      n := |p|;
      if !ok {
        n :| 0 <= n <= |p|;
      }
      bytes := Splice(bytes, off, p[..n]);
    }
  }

  datatype WriteError = NoError | IoError | NonZeroTail

  // ---- The store ----

  ghost function PartsOf(files: seq<File>): (r: seq<seq<byte>>)
    reads files
    ensures |r| == |files| && forall i :: 0 <= i < |files| ==> r[i] == files[i].bytes
  {
    seq(|files|, i requires 0 <= i < |files| reads files => files[i].bytes)
  }

  class FileStore {
    const files: seq<File>
    const lengths: seq<nat>
    const offsets: seq<nat>
    const totalSize: nat

    ghost function Parts(): (r: seq<seq<byte>>)
      reads files
      ensures |r| == |files|
    {
      PartsOf(files)
    }

    ghost function Contents(): seq<byte>
      reads files
    {
      Concat(Parts())
    }

    ghost predicate Valid()
      reads files
    {
      && |lengths| == |offsets| == |files|
      && (forall i, j :: 0 <= i < j < |files| ==> files[i] != files[j])
      && (forall i :: 0 <= i < |files| ==> lengths[i] == |files[i].bytes|)
      && StartOf(0) == 0
      && (forall i :: 0 <= i < |files| ==> StartOf(i) + lengths[i] == StartOf(i + 1))
    }

    lemma {:induction false} StartIsOffset(i: nat)
      requires Valid() && i <= |files|
      ensures StartOf(i) == Offset(Parts(), i)
    {
      OffsetEnds(Parts());
      if i > 0 {
        StartIsOffset(i - 1);
        OffsetStep(Parts(), i - 1);
      }
    }

    lemma SizeIsTotal()
      requires Valid()
      ensures totalSize == |Contents()|
    {
      StartIsOffset(|files|);
      OffsetEnds(Parts());
    }

    lemma {:induction false} StartsGrow(i: nat, j: nat)
      requires Valid() && i <= j <= |files|
      ensures StartOf(i) <= StartOf(j)
      decreases j - i
    {
      if i < j { StartsGrow(i, j - 1); }
    }

    // Where file i starts, or where the store ends.
    function StartOf(i: nat): nat
      requires |offsets| == |files|
    {
      if i < |files| then offsets[i] else totalSize
    }

    // The offset table of the files, in their order.
    constructor (files: seq<File>)
      requires forall i, j :: 0 <= i < j < |files| ==> files[i] != files[j]
      ensures Valid() && this.files == files
    {
      var lengths: seq<nat>, offsets: seq<nat>, totalSize: nat := [], [], 0;
      for i := 0 to |files|
        invariant |lengths| == |offsets| == i
        invariant forall j :: 0 <= j < i ==> lengths[j] == |files[j].bytes|
        invariant i == 0 ==> totalSize == 0
        invariant i > 0 ==> offsets[0] == 0 && offsets[i - 1] + lengths[i - 1] == totalSize
        invariant forall j :: 0 <= j < i - 1 ==> offsets[j] + lengths[j] == offsets[j + 1]
      {
        lengths := lengths + [|files[i].bytes|];
        offsets := offsets + [totalSize];
        totalSize := totalSize + |files[i].bytes|;
      }
      this.files := files;
      this.lengths := lengths;
      this.offsets := offsets;
      this.totalSize := totalSize;
    }

    // The last file that starts at or before the offset.
    method Find(offset: nat) returns (low: nat)
      requires Valid()
      ensures files == [] ==> low == 0
      ensures files != [] ==> low < |files| && offsets[low] <= offset
      ensures forall i :: low < i < |files| ==> offset < offsets[i]
      ensures files == [] ==> totalSize == 0
    {
      low := 0;
      var high := |offsets|;
      while low + 1 < high
        invariant files == [] ==> low == high == 0
        invariant files != [] ==> low < high <= |files| && offsets[low] <= offset
        invariant forall i :: high <= i < |files| ==> offset < offsets[i]
      {
        var probe := (low + high) / 2;
        if offset < offsets[probe] {
          forall i | probe <= i < |files| ensures offset < offsets[i] { StartsGrow(probe, i); }
          high := probe;
        } else {
          low := probe;
        }
      }
    }

    // The first n bytes of p from lo on are those of the store from off on.
    ghost predicate Filled(p: array<byte>, lo: nat, n: nat, off: nat)
      reads p, files
    {
      && lo + n <= p.Length && (n > 0 ==> off + n <= |Contents()|)
      && forall x :: lo <= x < lo + n ==> p[x] == Contents()[off + x - lo]
    }

    // Reads from one file what lies in it, from position off + n of the store on.
    method ReadPart(index: nat, p: array<byte>, lo: nat, hi: nat, off: nat, n: nat) returns (m: nat, ok: bool)
      requires Valid() && lo + n < hi <= p.Length && index < |files| && offsets[index] <= off + n
      requires Filled(p, lo, n, off)
      modifies p
      ensures n <= m <= hi - lo && Filled(p, lo, m, off)
      ensures ok && lo + m < hi ==> StartOf(index + 1) <= off + m
      ensures forall x :: 0 <= x < p.Length && !(lo <= x < hi) ==> p[x] == old(p[x])
    {
      ghost var parts := Parts();
      PartOf(parts, index);
      StartIsOffset(index);
      m, ok := n, true;
      var itemOffset := off + n - offsets[index];
      if itemOffset < lengths[index] {
        var space := lengths[index] - itemOffset;
        var chunk := if space < hi - lo - n then space else hi - lo - n;
        var nThisTime;
        nThisTime, ok := files[index].ReadAt(p, lo + n, lo + n + chunk, itemOffset);
        m := n + nThisTime;
        forall x | lo <= x < lo + m ensures p[x] == Contents()[off + x - lo] {
          if x >= lo + n { assert parts[index][itemOffset + x - (lo + n)] == p[x]; }
        }
      }
    }

    // Fills p[lo..hi] with what the files hold from off on, and with zeros past
    // their end. n counts the bytes that came from files; when a file fails,
    // these are all that is promised.
    method RawReadAt(p: array<byte>, lo: nat, hi: nat, off: nat) returns (n: nat, ok: bool)
      requires Valid() && lo <= hi <= p.Length
      modifies p
      ensures n <= InFile(|Contents()|, off, hi - lo) && (ok ==> n == InFile(|Contents()|, off, hi - lo))
      ensures Filled(p, lo, n, off)
      ensures ok ==> forall x :: lo + n <= x < hi ==> p[x] == 0
      ensures forall x :: 0 <= x < p.Length && !(lo <= x < hi) ==> p[x] == old(p[x])
    {
      ghost var content := Contents();
      n, ok := ReadFiles(p, lo, hi, off);
      if !ok {
        return;
      }
      for i := lo + n to hi
        invariant forall x :: lo + n <= x < i ==> p[x] == 0
        invariant forall x :: lo <= x < lo + n ==> p[x] == content[off + x - lo]
        invariant forall x :: 0 <= x < p.Length && !(lo <= x < hi) ==> p[x] == old(p[x])
      {
        p[i] := 0;
      }
    }

    method ReadFiles(p: array<byte>, lo: nat, hi: nat, off: nat) returns (n: nat, ok: bool)
      requires Valid() && lo <= hi <= p.Length
      modifies p
      ensures n <= InFile(|Contents()|, off, hi - lo) && (ok ==> n == InFile(|Contents()|, off, hi - lo))
      ensures Filled(p, lo, n, off)
      ensures forall x :: 0 <= x < p.Length && !(lo <= x < hi) ==> p[x] == old(p[x])
    {
      SizeIsTotal();
      var index := Find(off);
      n, ok := 0, true;
      while lo + n < hi && index < |offsets|
        invariant index <= |files| && lo + n <= hi && ok
        invariant lo + n < hi ==> StartOf(index) <= off + n
        invariant Filled(p, lo, n, off)
        invariant forall x :: 0 <= x < p.Length && !(lo <= x < hi) ==> p[x] == old(p[x])
        decreases |offsets| - index
      {
        n, ok := ReadPart(index, p, lo, hi, off, n);
        if !ok {
          return;
        }
        index := index + 1;
      }
    }

    // Writes to one file what falls into it, from position off + n of the store on.
    method WritePart(index: nat, p: seq<byte>, off: nat, n: nat) returns (m: nat, ok: bool)
      requires Valid() && n < |p| && index < |files| && StartOf(index) <= off + n
      modifies {files[index]}`bytes
      ensures Valid() && n <= m <= |p|
      ensures Contents() == Splice(old(Contents()), off + n, p[n..m])
      ensures ok && m < |p| ==> StartOf(index + 1) <= off + m
      ensures m > n || !ok ==> off + n < totalSize && off + m <= totalSize
    {
      ghost var parts := Parts();
      m, ok := n, true;
      SizeIsTotal();
      PartOf(parts, index);
      StartIsOffset(index);
      var itemOffset := off + n - offsets[index];
      if itemOffset < lengths[index] {
        var space := lengths[index] - itemOffset;
        var chunk := if space < |p| - n then space else |p| - n;
        var nThisTime;
        nThisTime, ok := files[index].WriteAt(p[n..n + chunk], itemOffset);
        m := n + nThisTime;
        assert p[n..n + chunk][..nThisTime] == p[n..m];
        assert Parts() == parts[index := Splice(parts[index], itemOffset, p[n..m])];
        WriteInPart(parts, index, itemOffset, p[n..m]);
      } else {
        SpliceNothing(Contents(), off + n);
        assert p[n..m] == [];
      }
    }

    method WriteNext(index: nat, p: seq<byte>, off: nat, n: nat, ghost before: seq<byte>) returns (m: nat, ok: bool)
      requires Valid() && n < |p| && index < |files| && StartOf(index) <= off + n
      requires Contents() == Splice(before, off, p[..n])
      modifies {files[index]}`bytes
      ensures Valid() && n <= m <= |p| && Contents() == Splice(before, off, p[..m])
      ensures ok && m < |p| ==> StartOf(index + 1) <= off + m
      ensures m > n || !ok ==> off + n < totalSize && off + m <= totalSize
    {
      m, ok := WritePart(index, p, off, n);
      SpliceThenSplice(before, off, p[..n], p[n..m]);
      assert p[..n] + p[n..m] == p[..m];
    }

    method WriteFiles(p: seq<byte>, off: nat) returns (n: nat, ok: bool)
      requires Valid()
      modifies files`bytes
      ensures Valid() && n <= |p| && Contents() == Splice(old(Contents()), off, p[..n])
      ensures n > 0 ==> off + n <= totalSize
      ensures ok && n < |p| ==> totalSize <= off + n
      ensures !ok ==> off < totalSize && p != []
    {
      var index := Find(off);
      assert index <= |files| && StartOf(index) <= off;
      n, ok := WriteFrom(index, p, off);
    }

    // Writes to the files from the index-th on.
    method WriteFrom(first: nat, p: seq<byte>, off: nat) returns (n: nat, ok: bool)
      requires Valid() && first <= |files| && StartOf(first) <= off
      modifies files`bytes
      ensures Valid() && n <= |p| && Contents() == Splice(old(Contents()), off, p[..n])
      ensures n > 0 ==> off + n <= totalSize
      ensures ok && n < |p| ==> totalSize <= off + n
      ensures !ok ==> off < totalSize && p != []
    {
      ghost var before := Contents();
      var index := first;
      n, ok := 0, true;
      SpliceNothing(before, off);
      assert p[..0] == [];
      while n < |p| && index < |offsets|
        invariant Valid() && index <= |files| && n <= |p| && ok
        invariant n < |p| ==> StartOf(index) <= off + n
        invariant n > 0 ==> off + n <= totalSize
        invariant Contents() == Splice(before, off, p[..n])
        decreases |offsets| - index
      {
        n, ok := WriteNext(index, p, off, n, before);
        if !ok {
          return;
        }
        index := index + 1;
      }
    }

    // Splices p into the files. A failing file leaves a prefix written; a tail
    // past the end of the files must be zero and is counted as written.
    method RawWriteAt(p: seq<byte>, off: nat) returns (n: nat, err: WriteError)
      requires Valid()
      modifies files`bytes
      ensures Valid() && n <= |p| && Contents() == Splice(old(Contents()), off, p[..n])
      ensures (Contents(), err == NoError)
        == Written(old(Contents()), off, p, if err == IoError then WriteStops(n) else Healthy)
      ensures err == NoError ==> n == |p|
      ensures err == NonZeroTail ==> InFile(|old(Contents())|, off, |p|) <= n < |p| && p[n] != 0
      ensures err == NonZeroTail ==> AllZero(p[InFile(|old(Contents())|, off, |p|)..n])
      ensures err == IoError ==> 0 < InFile(|old(Contents())|, off, |p|) && n <= InFile(|old(Contents())|, off, |p|)
    {
      ghost var before := Contents();
      SizeIsTotal();
      var ok;
      n, ok := WriteFiles(p, off);
      if !ok {
        return n, IoError;
      }
      var i := FirstNonZero(p, n);
      TailOnly(before, off, p, n, i);
      return i, if i < |p| then NonZeroTail else NoError;
    }
  }

  // Where the zeros that p has from n on end.
  method FirstNonZero(p: seq<byte>, n: nat) returns (i: nat)
    requires n <= |p|
    ensures n <= i <= |p| && AllZero(p[n..i]) && (i < |p| ==> p[i] != 0)
  {
    i := n;
    while i < |p|
      invariant n <= i <= |p|
      invariant forall x :: n <= x < i ==> p[x] == 0
    {
      if p[i] != 0 {
        return;
      }
      i := i + 1;
    }
  }

  lemma TailOnly(content: seq<byte>, off: nat, p: seq<byte>, n: nat, i: nat)
    requires InFile(|content|, off, |p|) == n <= i <= |p| && AllZero(p[n..i]) && (i < |p| ==> p[i] != 0)
    ensures Splice(content, off, p[..n]) == Splice(content, off, p[..i]) == Splice(content, off, p)
    ensures i == |p| <==> AllZero(p[n..])
  {
    TailIsLost(content, off, p, n);
    TailIsLost(content, off, p, i);
    if i < |p| { assert p[n..][i - n] != 0; } else { assert p[n..i] == p[n..]; }
  }

  // What is past the end of the store makes no difference to its content.
  lemma TailIsLost(content: seq<byte>, off: nat, p: seq<byte>, n: nat)
    requires InFile(|content|, off, |p|) <= n <= |p|
    ensures Splice(content, off, p[..n]) == Splice(content, off, p)
  {
  }
}
