/** Powers of two. */
module Powers {

  function Pow2(n: nat): (r: nat)
    ensures r > 0
  {
    if n == 0 then 1 else 2 * Pow2(n - 1)
  }

  lemma {:induction false} Pow2Adds(p: nat, q: nat)
    ensures Pow2(p + q) == Pow2(q) * Pow2(p)
    decreases q
  {
    if q > 0 {
      Pow2Adds(p, q - 1);
      assert Pow2(p + q) == 2 * Pow2(p + q - 1);
      Twice(Pow2(p), Pow2(q - 1));
    }
  }

  lemma Twice(a: nat, b: nat)
    ensures 2 * (b * a) == (2 * b) * a
  {
  }

  lemma {:induction false} Pow2Small()
    ensures Pow2(1) == 2 && Pow2(4) == 16 && Pow2(5) == 32 && Pow2(6) == 64 && Pow2(8) == 0x100
  {
  }

  lemma Pow2Short()
    ensures Pow2(8) == 0x100 && Pow2(16) == 0x1_0000 && Pow2(17) == 0x2_0000 && Pow2(20) == 0x10_0000
    ensures Pow2(22) == 0x40_0000 && Pow2(24) == 0x100_0000 && Pow2(29) == 0x2000_0000
    ensures Pow2(32) == 0x1_0000_0000
  {
    hide Pow2;
    Pow2Small();
    Pow2Adds(8, 8);
    Pow2Adds(16, 1);
    Pow2Adds(16, 4);
    Pow2Adds(16, 6);
    Pow2Adds(16, 8);
    Pow2Adds(24, 5);
    Pow2Adds(24, 8);
  }

  lemma Pow2Long()
    ensures Pow2(118) == 0x40_0000_0000_0000_0000_0000_0000_0000
    ensures Pow2(120) == 0x100_0000_0000_0000_0000_0000_0000_0000
    ensures Pow2(121) == 0x200_0000_0000_0000_0000_0000_0000_0000
    ensures Pow2(128) == 0x1_0000_0000_0000_0000_0000_0000_0000_0000
  {
    hide Pow2;
    Pow2Small();
    Pow2Short();
    Pow2Adds(32, 32);
    Pow2Adds(64, 32);
    Pow2Adds(96, 22);
    Pow2Adds(96, 24);
    Pow2Adds(120, 1);
    Pow2Adds(120, 8);
  }
}
