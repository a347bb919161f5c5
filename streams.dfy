/** The block reader: streams read in lock-step, `block` bytes at a time. */
module Streams {
  import opened ByteRender

  /** The first `n` bytes of `s`, or all of it when it is shorter: what a read of `n` returns. */
  function Take(s: seq<Byte>, n: nat): (r: seq<Byte>)
    ensures |r| == if n <= |s| then n else |s|
  {
    if n <= |s| then s[..n] else s
  }

  /** What is left of `s` after a read of `n`. */
  function Drop(s: seq<Byte>, n: nat): (r: seq<Byte>)
    ensures |r| == if n <= |s| then |s| - n else 0
    ensures Take(s, n) + r == s
  {
    if n <= |s| then s[n..] else []
  }

  /**
   * An open input file: its name, the offset it was opened at and the bytes not read yet
   * (the read position is where `unread` starts).
   */
  class Stream {
    const name: string
    const offset: int
    var unread: seq<Byte>

    constructor (name: string, offset: int, data: seq<Byte>)
      ensures this.name == name && this.offset == offset && unread == data
    {
      this.name := name;
      this.offset := offset;
      unread := data;
    }

    /** `fp.read(n)`: the next `n` bytes, fewer at the end, none once the stream is exhausted. */
    method Read(n: nat) returns (chunk: seq<Byte>)
      modifies this
      ensures chunk == Take(old(unread), n) && unread == Drop(old(unread), n)
      ensures chunk + unread == old(unread) && |chunk| <= n
      ensures |chunk| < n ==> unread == []
    {
      var m := if n <= |unread| then n else |unread|;
      chunk := unread[..m];
      unread := unread[m..];
    }
  }

  /** No stream appears twice (the block-set is keyed by stream). */
  ghost predicate Distinct(files: seq<Stream>) {
    forall j, k :: 0 <= j < k < |files| ==> files[j] != files[k]
  }

  /** The unread bytes of every stream, in order. */
  ghost function RestOf(files: seq<Stream>): (rest: seq<seq<Byte>>)
    reads files
    ensures |rest| == |files|
    ensures forall k :: 0 <= k < |files| ==> rest[k] == files[k].unread
  {
    seq(|files|, k requires 0 <= k < |files| reads files => files[k].unread)
  }

  /** `rest` is what is left unread of every stream. */
  ghost predicate Unread(files: seq<Stream>, rest: seq<seq<Byte>>)
    reads files
  {
    |rest| == |files| && forall m :: 0 <= m < |files| ==> files[m].unread == rest[m]
  }

  /** The block-set one iteration reads from streams whose unread bytes are `rest`. */
  function Blocks(rest: seq<seq<Byte>>, B: nat): (blocks: seq<seq<Byte>>)
    ensures |blocks| == |rest|
    ensures forall k :: 0 <= k < |rest| ==> blocks[k] == Take(rest[k], B)
  {
    seq(|rest|, k requires 0 <= k < |rest| => Take(rest[k], B))
  }

  /** The unread bytes after that iteration. */
  function Advance(rest: seq<seq<Byte>>, B: nat): (next: seq<seq<Byte>>)
    ensures |next| == |rest|
    ensures forall k :: 0 <= k < |rest| ==> next[k] == Drop(rest[k], B)
  {
    seq(|rest|, k requires 0 <= k < |rest| => Drop(rest[k], B))
  }

  predicate AllEmpty(blocks: seq<seq<Byte>>) {
    forall k :: 0 <= k < |blocks| ==> blocks[k] == []
  }

  /** `done_files` after the first `j` reads: how many of those blocks are empty. */
  function EmptyCount(blocks: seq<seq<Byte>>, j: nat): nat
    requires j <= |blocks|
    decreases j
  {
    if j == 0 then 0 else EmptyCount(blocks, j - 1) + if |blocks[j - 1]| == 0 then 1 else 0
  }

  /** `done_files == len(target_files)` exactly when every block is empty. */
  lemma {:induction false} EmptyCountAll(blocks: seq<seq<Byte>>, j: nat)
    requires j <= |blocks|
    ensures EmptyCount(blocks, j) <= j
    ensures EmptyCount(blocks, j) == j <==> forall m :: 0 <= m < j ==> blocks[m] == []
    decreases j
  {
    if j > 0 {
      EmptyCountAll(blocks, j - 1);
    }
  }

  /** The counts of two block lists agree on a common prefix. */
  lemma {:induction false} EmptyCountPrefix(a: seq<seq<Byte>>, b: seq<seq<Byte>>, j: nat)
    requires j <= |a| && j <= |b| && a[..j] == b[..j]
    ensures EmptyCount(a, j) == EmptyCount(b, j)
    decreases j
  {
    if j > 0 {
      assert a[..j - 1] == a[..j][..j - 1];
      assert b[..j - 1] == b[..j][..j - 1];
      assert a[j - 1] == a[..j][j - 1];
      assert b[j - 1] == b[..j][j - 1];
      EmptyCountPrefix(a, b, j - 1);
    }
  }

  /**
   * Part-way through one iteration: the first `j` streams have been read, giving
   * `blockData`, and `now` is what is left unread of every stream.
   */
  ghost predicate ReadUpTo(rest: seq<seq<Byte>>, B: nat, j: nat, blockData: seq<seq<Byte>>, now: seq<seq<Byte>>) {
    && j <= |rest| && |blockData| == j && |now| == |rest|
    && (forall m :: 0 <= m < j ==> blockData[m] == Take(rest[m], B) && now[m] == Drop(rest[m], B))
    && (forall m :: j <= m < |rest| ==> now[m] == rest[m])
  }

  /** Reading stream `j` extends the block-set and the count of empty blocks by one read. */
  lemma ReadOneMore(rest: seq<seq<Byte>>, B: nat, j: nat, blockData: seq<seq<Byte>>, now: seq<seq<Byte>>)
    requires ReadUpTo(rest, B, j, blockData, now) && j < |rest|
    ensures ReadUpTo(rest, B, j + 1, blockData + [Take(now[j], B)], now[j := Drop(now[j], B)])
    ensures EmptyCount(blockData + [Take(now[j], B)], j + 1) ==
            EmptyCount(blockData, j) + if |Take(now[j], B)| == 0 then 1 else 0
  {
    EmptyCountPrefix(blockData + [Take(now[j], B)], blockData, j);
  }

  /** Once every stream has been read the iteration read `Blocks` and left `Advance`. */
  lemma ReadAll(rest: seq<seq<Byte>>, B: nat, blockData: seq<seq<Byte>>, now: seq<seq<Byte>>)
    requires ReadUpTo(rest, B, |rest|, blockData, now)
    ensures blockData == Blocks(rest, B) && now == Advance(rest, B)
  {
  }

  /** The length of the longest of the sequences. */
  function MaxLen(rest: seq<seq<Byte>>): (m: nat)
    decreases |rest|
  {
    if rest == [] then 0
    else
      var m := MaxLen(rest[..|rest| - 1]);
      var last := |rest[|rest| - 1]|;
      if last > m then last else m
  }

  lemma {:induction false} MaxLenBound(rest: seq<seq<Byte>>)
    ensures forall k :: 0 <= k < |rest| ==> |rest[k]| <= MaxLen(rest)
    decreases |rest|
  {
    if rest != [] {
      var init := rest[..|rest| - 1];
      MaxLenBound(init);
      assert forall k :: 0 <= k < |rest| - 1 ==> init[k] == rest[k];
    }
  }

  /** Some stream is as long as the longest. */
  lemma {:induction false} MaxLenAttained(rest: seq<seq<Byte>>)
    requires rest != []
    ensures exists k :: 0 <= k < |rest| && |rest[k]| == MaxLen(rest)
    decreases |rest|
  {
    var init := rest[..|rest| - 1];
    var last := |rest[|rest| - 1]|;
    if init == [] || last > MaxLen(init) {
      assert |rest[|rest| - 1]| == MaxLen(rest);
    } else {
      MaxLenAttained(init);
      var k :| 0 <= k < |init| && |init[k]| == MaxLen(init);
      assert rest[k] == init[k];
    }
  }

  /** An iteration reads nothing from any stream iff every stream is exhausted. */
  lemma AllEmptyIffExhausted(rest: seq<seq<Byte>>, B: nat)
    requires B > 0
    ensures AllEmpty(Blocks(rest, B)) <==> MaxLen(rest) == 0
  {
    var blocks := Blocks(rest, B);
    if MaxLen(rest) > 0 {
      MaxLenAttained(rest);
      var k :| 0 <= k < |rest| && |rest[k]| == MaxLen(rest);
      assert |blocks[k]| > 0;
    } else {
      MaxLenBound(rest);
    }
  }

  /** An iteration shortens the longest remaining stream by `B`, down to nothing. */
  lemma AdvanceMaxLen(rest: seq<seq<Byte>>, B: nat)
    ensures MaxLen(Advance(rest, B)) == if MaxLen(rest) <= B then 0 else MaxLen(rest) - B
  {
    var next := Advance(rest, B);
    var m := MaxLen(rest);
    var target := if m <= B then 0 else m - B;
    if rest != [] {
      MaxLenBound(rest);
      MaxLenAttained(next);
      var j :| 0 <= j < |next| && |next[j]| == MaxLen(next);
      assert |rest[j]| <= m;
      assert MaxLen(next) <= target;
      if m > B {
        MaxLenAttained(rest);
        var k :| 0 <= k < |rest| && |rest[k]| == m;
        MaxLenBound(next);
        assert |next[k]| == m - B;
      }
    }
  }
}
