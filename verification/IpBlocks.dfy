/** The private IPv4 list as intervals of numbers. */
module IpBlocks {
  import opened Bits
  import opened IpAddresses

  lemma BlockSizes()
    ensures Pow2(24) == 0x100_0000 && Pow2(22) == 0x40_0000 && Pow2(16) == 0x1_0000 && Pow2(20) == 0x10_0000
    ensures Pow2(8) == 0x100 && Pow2(17) == 0x2_0000 && Pow2(28) == 0x1000_0000
  {
    Pow2Of(32);
    Pow2Splits(16, 8);
    assert Pow2(17) == 2 * Pow2(16);
    assert Pow2(18) == 2 * Pow2(17) && Pow2(19) == 2 * Pow2(18) && Pow2(20) == 2 * Pow2(19);
    assert Pow2(21) == 2 * Pow2(20) && Pow2(22) == 2 * Pow2(21);
    assert Pow2(25) == 2 * Pow2(24) && Pow2(26) == 2 * Pow2(25) && Pow2(27) == 2 * Pow2(26) && Pow2(28) == 2 * Pow2(27);
  }

  predicate Within(value: nat, a: nat, b: nat, c: nat, size: nat) {
    QuadValue(a, b, c, 0) <= value < QuadValue(a, b, c, 0) + size
  }

  predicate Covers(value: nat, block: Block) {
    block.prefix <= 32 && Low(block) <= value < Low(block) + Size(block)
  }

  predicate Covered(value: nat) { exists i :: 0 <= i < |BLOCKS| && Covers(value, BLOCKS[i]) }

  /** Membership in the list without any bit arithmetic: twelve intervals and everything from 224.0.0.0 up. */
  predicate InPrivateInterval(value: nat) {
    || Within(value, 0, 0, 0, 0x100_0000)
    || Within(value, 10, 0, 0, 0x100_0000)
    || Within(value, 100, 64, 0, 0x40_0000)
    || Within(value, 127, 0, 0, 0x100_0000)
    || Within(value, 169, 254, 0, 0x1_0000)
    || Within(value, 172, 16, 0, 0x10_0000)
    || Within(value, 192, 0, 0, 0x100)
    || Within(value, 192, 0, 2, 0x100)
    || Within(value, 192, 168, 0, 0x1_0000)
    || Within(value, 198, 18, 0, 0x2_0000)
    || Within(value, 198, 51, 100, 0x100)
    || Within(value, 203, 0, 113, 0x100)
    || value >= 0xE000_0000
  }

  lemma AllAligned(i: nat)
    requires i < |BLOCKS|
    ensures Aligned(BLOCKS[i])
  {
    BlockSizes();
  }

  lemma CoveredIsIntervals(value: nat)
    requires value < WORD
    ensures Covered(value) <==> InPrivateInterval(value)
  {
    BlockSizes();
    assert |BLOCKS| == 14;
    if InPrivateInterval(value) {
      SomeCovers(value);
    }
  }

  lemma SomeCovers(value: nat)
    requires value < WORD && InPrivateInterval(value)
    ensures Covered(value)
  {
    BlockSizes();
    if Within(value, 0, 0, 0, 0x100_0000) {
      assert Covers(value, BLOCKS[0]);
    } else if Within(value, 10, 0, 0, 0x100_0000) {
      assert Covers(value, BLOCKS[1]);
    } else if Within(value, 100, 64, 0, 0x40_0000) {
      assert Covers(value, BLOCKS[2]);
    } else if Within(value, 127, 0, 0, 0x100_0000) {
      assert Covers(value, BLOCKS[3]);
    } else if Within(value, 169, 254, 0, 0x1_0000) {
      assert Covers(value, BLOCKS[4]);
    } else if Within(value, 172, 16, 0, 0x10_0000) {
      assert Covers(value, BLOCKS[5]);
    } else if Within(value, 192, 0, 0, 0x100) {
      assert Covers(value, BLOCKS[6]);
    } else if Within(value, 192, 0, 2, 0x100) {
      assert Covers(value, BLOCKS[7]);
    } else if Within(value, 192, 168, 0, 0x1_0000) {
      assert Covers(value, BLOCKS[8]);
    } else if Within(value, 198, 18, 0, 0x2_0000) {
      assert Covers(value, BLOCKS[9]);
    } else if Within(value, 198, 51, 100, 0x100) {
      assert Covers(value, BLOCKS[10]);
    } else if Within(value, 203, 0, 113, 0x100) {
      assert Covers(value, BLOCKS[11]);
    } else if value < 0xF000_0000 {
      assert Covers(value, BLOCKS[12]);
    } else {
      assert Covers(value, BLOCKS[13]);
    }
  }

  /** The list of masked blocks is a union of intervals. */
  lemma PrivateIsIntervals(value: nat)
    requires value < WORD
    ensures PrivateNumber(value) <==> InPrivateInterval(value)
  {
    forall i | 0 <= i < |BLOCKS| ensures InBlock(value, BLOCKS[i]) <==> Covers(value, BLOCKS[i]) {
      AllAligned(i);
      BlockIsInterval(value, BLOCKS[i]);
    }
    CoveredIsIntervals(value);
  }
}
