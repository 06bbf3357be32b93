/** The log directory and the file watcher of `src/csgo`: picking the latest log file
    by name, and reading what a growing log file gained since the last read. The file
    system is abstracted: a directory is the array of its entries' file names, compared
    character by character, a file the sequence of its bytes at the moment of a call. */
module Logs {
  import opened Common

  /* ---- latest_log_file ---- */

  /** The order of paths of one directory: lexicographic by character, which for
      UTF-8 names is the byte order. */
  predicate NameLe(a: string, b: string)
    decreases |a|
  {
    |a| == 0 || (|b| > 0 && (a[0] < b[0] || (a[0] == b[0] && NameLe(a[1..], b[1..]))))
  }

  lemma {:induction false} NameLeTotal(a: string, b: string)
    ensures NameLe(a, b) || NameLe(b, a)
    decreases |a|
  {
    if |a| > 0 && |b| > 0 && a[0] == b[0] {
      NameLeTotal(a[1..], b[1..]);
    }
  }

  lemma {:induction false} NameLeTrans(a: string, b: string, c: string)
    requires NameLe(a, b) && NameLe(b, c)
    ensures NameLe(a, c)
    decreases |a|
  {
    if |a| > 0 && a[0] == b[0] && b[0] == c[0] {
      NameLeTrans(a[1..], b[1..], c[1..]);
    }
  }

  /** Two different paths are never equivalent, so the greatest one is unique. */
  lemma {:induction false} NameLeAntisymmetric(a: string, b: string)
    requires NameLe(a, b) && NameLe(b, a)
    ensures a == b
    decreases |a|
  {
    if |a| > 0 {
      NameLeAntisymmetric(a[1..], b[1..]);
      assert a == [a[0]] + a[1..] && b == [b[0]] + b[1..];
    }
  }

  predicate Ascending(s: seq<string>) {
    forall p, q :: 0 <= p < q < |s| ==> NameLe(s[p], s[q])
  }

  /** The first `i` entries are in order and none is above an entry after them. */
  predicate SortedUpTo(s: seq<string>, i: nat) {
    (forall p, q :: 0 <= p < q < i && q < |s| ==> NameLe(s[p], s[q]))
    && (forall p, q :: 0 <= p < i <= q < |s| ==> NameLe(s[p], s[q]))
  }

  /** Swapping a least remaining entry into position `i` extends the sorted part. */
  lemma SelectStep(s: seq<string>, i: nat, m: nat)
    requires i <= m < |s| && SortedUpTo(s, i)
    requires forall k :: i <= k < |s| ==> NameLe(s[m], s[k])
    ensures SortedUpTo(s[i := s[m]][m := s[i]], i + 1)
  {
    var t := s[i := s[m]][m := s[i]];
    assert forall q :: i < q < |s| ==> t[q] == s[q] || (q == m && t[q] == s[i]);
  }

  /** `files.sort_by_key(|dir| dir.path())`, here a selection sort: ascending, and the
      same entries. */
  method SortAscending(a: array<string>)
    modifies a
    ensures Ascending(a[..]) && multiset(a[..]) == multiset(old(a[..]))
  {
    var i := 0;
    while i < a.Length
      invariant 0 <= i <= a.Length
      invariant multiset(a[..]) == multiset(old(a[..]))
      invariant SortedUpTo(a[..], i)
    {
      var m := MinFrom(a, i);
      ghost var b := a[..];
      SelectStep(b, i, m);
      a[i], a[m] := a[m], a[i];
      assert a[..] == b[i := b[m]][m := b[i]];
      i := i + 1;
    }
  }

  /** The position of a least entry from `i` on. */
  method MinFrom(a: array<string>, i: nat) returns (m: nat)
    requires i < a.Length
    ensures i <= m < a.Length && forall k :: i <= k < a.Length ==> NameLe(a[m], a[k])
  {
    m := i;
    NameLeTotal(a[i], a[i]);
    var j := i + 1;
    while j < a.Length
      invariant i <= m < j <= a.Length
      invariant forall k :: i <= k < j ==> NameLe(a[m], a[k])
    {
      NameLeTotal(a[m], a[j]);
      if !NameLe(a[m], a[j]) {
        NameLeTotal(a[j], a[j]);
        forall k | i <= k < j
          ensures NameLe(a[j], a[k])
        {
          NameLeTrans(a[j], a[m], a[k]);
        }
        m := j;
      }
      j := j + 1;
    }
  }

  /** `files.reverse()` */
  method Reverse(a: array<string>)
    modifies a
    ensures forall k :: 0 <= k < a.Length ==> a[k] == old(a[a.Length - 1 - k])
  {
    var i, j := 0, a.Length - 1;
    while i < j
      invariant 0 <= i <= a.Length - i && j == a.Length - 1 - i
      invariant forall k :: 0 <= k < i ==> a[k] == old(a[a.Length - 1 - k])
      invariant forall k :: j < k < a.Length ==> a[k] == old(a[a.Length - 1 - k])
      invariant forall k :: i <= k <= j ==> a[k] == old(a[k])
    {
      a[i], a[j] := a[j], a[i];
      i, j := i + 1, j - 1;
    }
  }

  /** `latest_log_file`: nothing for an empty directory, else (after sorting the
      entries ascending and reversing them) the first entry, which is the greatest
      path. */
  method LatestLogFile(files: array<string>) returns (latest: Option<string>)
    modifies files
    ensures latest.None? <==> files.Length == 0
    ensures latest.Some? ==>
      latest.value in old(files[..]) && forall f :: f in old(files[..]) ==> NameLe(f, latest.value)
  {
    if files.Length == 0 {
      return None;
    }
    SortAscending(files);
    ghost var sorted := files[..];
    Reverse(files);
    assert files[0] == sorted[files.Length - 1];
    assert sorted[files.Length - 1] in multiset(old(files[..]));
    forall f | f in old(files[..])
      ensures NameLe(f, files[0])
    {
      assert f in multiset(sorted);
      var k :| 0 <= k < |sorted| && sorted[k] == f;
      if k < |sorted| - 1 {
        assert NameLe(sorted[k], sorted[|sorted| - 1]);
      } else {
        NameLeTotal(f, f);
      }
    }
    return Some(files[0]);
  }

  /** The greatest path is unique: any entry that every entry is at most is the one
      `LatestLogFile` returns. */
  lemma GreatestUnique(files: seq<string>, x: string, y: string)
    requires x in files && y in files
    requires forall f :: f in files ==> NameLe(f, x)
    requires forall f :: f in files ==> NameLe(f, y)
    ensures x == y
  {
    NameLeAntisymmetric(x, y);
  }

  /* ---- Watcher ---- */

  /** What a watcher remembers between reads: the seek position and the file length
      recorded at the last successful read (at open, the length then). */
  datatype Cursor = Cursor(pos: nat, recorded: nat)

  datatype Read = Read(cursor: Cursor, data: seq<byte>)

  /** Seeking to `pos` and reading to the end. */
  function Tail(file: seq<byte>, pos: nat): seq<byte> {
    if pos <= |file| then file[pos..] else []
  }

  /** `read_latest` as written: from position 0 it always reads the whole file, from
      elsewhere only when the file is longer than recorded; a non-empty read moves the
      position to the length recorded before the read. */
  function ReadStep(c: Cursor, file: seq<byte>): Read {
    var data := if c.pos == 0 || |file| > c.recorded then Tail(file, c.pos) else [];
    if data == [] then Read(c, []) else Read(Cursor(c.recorded, |file|), data)
  }

  /** From position 0 the whole file is returned, whatever its length. */
  lemma ReadFromStart(c: Cursor, file: seq<byte>)
    requires c.pos == 0
    ensures ReadStep(c, file).data == file
  {
  }

  /** From elsewhere, the bytes after the position, and only if the file grew past the
      recorded length. */
  lemma ReadAfterStart(c: Cursor, file: seq<byte>)
    requires c.pos != 0
    ensures ReadStep(c, file).data
      == (if |file| > c.recorded && c.pos <= |file| then file[c.pos..] else [])
  {
  }

  /** An empty read changes nothing; a non-empty one records the current length and
      moves the position to the length recorded before. */
  lemma ReadMoves(c: Cursor, file: seq<byte>)
    ensures var r := ReadStep(c, file);
      if r.data == [] then r.cursor == c else r.cursor == Cursor(c.recorded, |file|)
  {
  }

  /** A watcher opened on an empty file never leaves position 0: every read returns
      the whole file again. */
  lemma OpenedEmptyRereads(c: Cursor, file: seq<byte>)
    requires c.pos == 0 && c.recorded == 0
    ensures var r := ReadStep(c, file);
      r.data == file && r.cursor.pos == 0
  {
  }

  /** The bytes delivered by successive reads of the file as it was at each call. */
  function Delivered(c: Cursor, files: seq<seq<byte>>): seq<byte>
    decreases |files|
  {
    if |files| == 0 then [] else
      var r := ReadStep(c, files[0]);
      r.data + Delivered(r.cursor, files[1..])
  }

  /** After a read that followed growth past the recorded length, the next growth is
      read from that recorded length again, so the bytes between it and the end of the
      previous read come a second time. */
  lemma Redelivers(c: Cursor, f: seq<byte>, g: seq<byte>)
    requires 0 < c.pos <= c.recorded < |f| && f < g
    ensures var r1 := ReadStep(c, f);
      var r2 := ReadStep(r1.cursor, g);
      r1.data == f[c.pos..] && r2.data == g[c.recorded..] && f[c.recorded..] <= r2.data
  {
  }

  /** Opened on one byte, then reading as the file grows to two and then three bytes,
      the second byte is delivered twice. */
  lemma RedeliveryExample()
    ensures Delivered(Cursor(0, 1), [[1, 2], [1, 2, 3]]) == [1, 2, 2, 3] != [1, 2, 3]
  {
    var files: seq<seq<byte>> := [[1, 2], [1, 2, 3]];
    assert ReadStep(Cursor(0, 1), [1, 2]) == Read(Cursor(1, 2), [1, 2]);
    assert ReadStep(Cursor(1, 2), [1, 2, 3]) == Read(Cursor(2, 3), [2, 3]);
    assert files[1..] == [[1, 2, 3]] && files[1..][1..] == [];
  }

  /** `read_latest` as evidently intended by "new seek position": a non-empty read
      moves the position to the end of what it read. */
  function FixedReadStep(c: Cursor, file: seq<byte>): Read {
    var data := if c.pos == 0 || |file| > c.recorded then Tail(file, c.pos) else [];
    if data == [] then Read(c, []) else Read(Cursor(|file|, |file|), data)
  }

  function FixedDelivered(c: Cursor, files: seq<seq<byte>>): seq<byte>
    decreases |files|
  {
    if |files| == 0 then [] else
      var r := FixedReadStep(c, files[0]);
      r.data + FixedDelivered(r.cursor, files[1..])
  }

  /** Each file snapshot extends the previous one (an append-only log). */
  predicate Growing(files: seq<seq<byte>>) {
    forall k :: 0 < k < |files| ==> files[k - 1] <= files[k]
  }

  /** What the fixed watcher has delivered: nothing while at position 0, else the
      whole file as last read, whose length is both position and recorded length. */
  predicate InSync(c: Cursor, sent: seq<byte>, last: seq<byte>) {
    (c.pos == 0 && sent == []) || (c.pos == c.recorded == |last| && sent == last)
  }

  /** One read of a file that extends the last one read brings the delivered bytes up
      to the whole file. */
  lemma FixedReadSync(c: Cursor, sent: seq<byte>, last: seq<byte>, f: seq<byte>)
    requires InSync(c, sent, last) && last <= f
    ensures var r := FixedReadStep(c, f); InSync(r.cursor, sent + r.data, f) && sent + r.data == f
  {
    var r := FixedReadStep(c, f);
    if c.pos != 0 {
      if |f| > c.recorded {
        assert f == last + f[|last|..];
      } else {
        assert |f| == |last|;
      }
    }
  }

  /** With the fix, reading an append-only log delivers every byte exactly once and in
      order: the delivered bytes are the last snapshot read. */
  lemma {:induction false} FixedExactlyOnce(c: Cursor, sent: seq<byte>, last: seq<byte>, files: seq<seq<byte>>)
    requires InSync(c, sent, last) && Growing(files) && |files| > 0 && last <= files[0]
    ensures sent + FixedDelivered(c, files) == files[|files| - 1]
    decreases |files|
  {
    var r := FixedReadStep(c, files[0]);
    FixedReadSync(c, sent, last, files[0]);
    if |files| == 1 {
      assert FixedDelivered(r.cursor, files[1..]) == [];
    } else {
      assert files[1..][0] == files[1];
      FixedExactlyOnce(r.cursor, sent + r.data, files[0], files[1..]);
      assert sent + (r.data + FixedDelivered(r.cursor, files[1..]))
          == (sent + r.data) + FixedDelivered(r.cursor, files[1..]);
    }
  }

  /** From a fixed watcher just opened on any file, the reads of a growing log deliver
      exactly the last snapshot. */
  lemma FixedFromOpen(atOpen: seq<byte>, files: seq<seq<byte>>)
    requires Growing(files) && |files| > 0
    ensures FixedDelivered(Cursor(0, |atOpen|), files) == files[|files| - 1]
  {
    FixedExactlyOnce(Cursor(0, |atOpen|), [], [], files);
  }

  /** The watcher of `src/csgo/logs.rs`, reading as written. */
  class Watcher {
    var pos: nat
    /** The length in the metadata recorded at open or at the last successful read. */
    var recorded: nat
    const delay: nat

    /** `Watcher::new` on a file whose content at open is `file`. */
    constructor (file: seq<byte>)
      ensures pos == 0 && recorded == |file| && delay == 1
    {
      pos := 0;
      recorded := |file|;
      delay := 1;
    }

    /** `read_latest` on the file as it is now. */
    method ReadLatest(file: seq<byte>) returns (data: seq<byte>)
      modifies this
      ensures ReadStep(old(Cursor(pos, recorded)), file) == Read(Cursor(pos, recorded), data)
    {
      var latest := |file|;
      data := [];
      if pos == 0 {
        data := Tail(file, pos);
        if data != [] {
          pos := recorded;
          recorded := latest;
        }
      } else if latest > recorded {
        data := Tail(file, pos);
        if data != [] {
          pos := recorded;
          recorded := latest;
        }
      }
    }
  }
}
