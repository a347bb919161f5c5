/** The per-byte classification of `hexascii`: how many streams of the block-set disagree. */
module Classify {
  import opened ByteRender
  import opened Colors

  /** A block differs from `b` at index `i` when it has another byte there or is too short to have index `i`. */
  predicate DiffersAt(block: seq<Byte>, b: Byte, i: nat) {
    i >= |block| || block[i] != b
  }

  /** `diff_count`: the number of blocks of the block-set that differ from `b` at index `i`. */
  function DiffCount(blocks: seq<seq<Byte>>, b: Byte, i: nat): nat
    decreases |blocks|
  {
    if blocks == [] then 0
    else DiffCount(blocks[..|blocks| - 1], b, i) + (if DiffersAt(blocks[|blocks| - 1], b, i) then 1 else 0)
  }

  /** The colour chosen from `diff_count` and the number `n` of streams; the red test comes first. */
  function ColorOf(diffCount: int, n: int): Color {
    if diffCount == n - 1 then Red
    else if diffCount > 0 then Blue
    else Green
  }

  /** At most every block differs, and none does iff all of them hold `b` at `i`. */
  lemma {:induction false} DiffCountRange(blocks: seq<seq<Byte>>, b: Byte, i: nat)
    ensures DiffCount(blocks, b, i) <= |blocks|
    ensures DiffCount(blocks, b, i) == 0 <==> forall j :: 0 <= j < |blocks| ==> !DiffersAt(blocks[j], b, i)
    decreases |blocks|
  {
    if blocks != [] {
      var init := blocks[..|blocks| - 1];
      DiffCountRange(init, b, i);
      assert forall j :: 0 <= j < |init| ==> init[j] == blocks[j];
    }
  }

  /** A block that agrees is not counted, so the count stays below the number of blocks. */
  lemma {:induction false} DiffCountOneAgrees(blocks: seq<seq<Byte>>, b: Byte, i: nat, k: nat)
    requires k < |blocks| && !DiffersAt(blocks[k], b, i)
    ensures DiffCount(blocks, b, i) <= |blocks| - 1
    decreases |blocks|
  {
    var init := blocks[..|blocks| - 1];
    if k == |blocks| - 1 {
      DiffCountRange(init, b, i);
    } else {
      assert init[k] == blocks[k];
      DiffCountOneAgrees(init, b, i, k);
    }
  }

  /** Two distinct blocks that agree leave the count at most n - 2. */
  lemma {:induction false} DiffCountTwoAgree(blocks: seq<seq<Byte>>, b: Byte, i: nat, k: nat, m: nat)
    requires k < |blocks| && m < |blocks| && k != m
    requires !DiffersAt(blocks[k], b, i) && !DiffersAt(blocks[m], b, i)
    ensures DiffCount(blocks, b, i) <= |blocks| - 2
    decreases |blocks|
  {
    var init := blocks[..|blocks| - 1];
    if k == |blocks| - 1 {
      assert init[m] == blocks[m];
      DiffCountOneAgrees(init, b, i, m);
    } else if m == |blocks| - 1 {
      assert init[k] == blocks[k];
      DiffCountOneAgrees(init, b, i, k);
    } else {
      assert init[k] == blocks[k] && init[m] == blocks[m];
      DiffCountTwoAgree(init, b, i, k, m);
    }
  }

  /** When only block `k` agrees, every other block is counted. */
  lemma {:induction false} DiffCountOnlyOneAgrees(blocks: seq<seq<Byte>>, b: Byte, i: nat, k: nat)
    requires k < |blocks| && !DiffersAt(blocks[k], b, i)
    requires forall j :: 0 <= j < |blocks| && j != k ==> DiffersAt(blocks[j], b, i)
    ensures DiffCount(blocks, b, i) == |blocks| - 1
    decreases |blocks|
  {
    var init := blocks[..|blocks| - 1];
    assert forall j :: 0 <= j < |init| ==> init[j] == blocks[j];
    if k == |blocks| - 1 {
      DiffCountAllDiffer(init, b, i);
    } else {
      DiffCountOnlyOneAgrees(init, b, i, k);
    }
  }

  lemma {:induction false} DiffCountAllDiffer(blocks: seq<seq<Byte>>, b: Byte, i: nat)
    requires forall j :: 0 <= j < |blocks| ==> DiffersAt(blocks[j], b, i)
    ensures DiffCount(blocks, b, i) == |blocks|
    decreases |blocks|
  {
    if blocks != [] {
      var init := blocks[..|blocks| - 1];
      assert forall j :: 0 <= j < |init| ==> init[j] == blocks[j];
      DiffCountAllDiffer(init, b, i);
    }
  }

  /**
   * The classification of byte `i` of block `k`, compared against that block's own byte:
   * the count lies in [0, n-1]; red iff every other block differs there (so always with one
   * stream); green iff there are at least two streams and all hold the byte; blue iff some
   * other block agrees and some block differs.
   */
  lemma Classification(blocks: seq<seq<Byte>>, k: nat, i: nat)
    requires k < |blocks| && i < |blocks[k]|
    ensures var n, b := |blocks|, blocks[k][i];
      var count := DiffCount(blocks, b, i);
      var c := ColorOf(count, n);
      && 0 <= count <= n - 1
      && (c == Red <==> forall j :: 0 <= j < n && j != k ==> DiffersAt(blocks[j], b, i))
      && (c == Green <==> n >= 2 && forall j :: 0 <= j < n ==> !DiffersAt(blocks[j], b, i))
      && (c == Blue <==> (exists j :: 0 <= j < n && j != k && !DiffersAt(blocks[j], b, i)) &&
                         (exists j :: 0 <= j < n && DiffersAt(blocks[j], b, i)))
  {
    var n, b := |blocks|, blocks[k][i];
    var count := DiffCount(blocks, b, i);
    DiffCountRange(blocks, b, i);
    DiffCountOneAgrees(blocks, b, i, k);
    if forall j :: 0 <= j < n && j != k ==> DiffersAt(blocks[j], b, i) {
      DiffCountOnlyOneAgrees(blocks, b, i, k);
    } else {
      var m :| 0 <= m < n && m != k && !DiffersAt(blocks[m], b, i);
      DiffCountTwoAgree(blocks, b, i, k, m);
    }
  }

  /** With exactly two streams a present byte is never blue. */
  lemma TwoStreamsNeverBlue(blocks: seq<seq<Byte>>, k: nat, i: nat)
    requires |blocks| == 2 && k < 2 && i < |blocks[k]|
    ensures ColorOf(DiffCount(blocks, blocks[k][i], i), 2) != Blue
  {
    Classification(blocks, k, i);
  }

  /** With a single stream every present byte is red. */
  lemma OneStreamAlwaysRed(blocks: seq<seq<Byte>>, i: nat)
    requires |blocks| == 1 && i < |blocks[0]|
    ensures ColorOf(DiffCount(blocks, blocks[0][i], i), 1) == Red
  {
    Classification(blocks, 0, i);
  }

  /** A block too short to have index `i` keeps a present byte at `i` from being green. */
  lemma ShortBlockNotGreen(blocks: seq<seq<Byte>>, k: nat, i: nat, m: nat)
    requires k < |blocks| && i < |blocks[k]| && m < |blocks| && i >= |blocks[m]|
    ensures ColorOf(DiffCount(blocks, blocks[k][i], i), |blocks|) != Green
  {
    Classification(blocks, k, i);
  }
}
