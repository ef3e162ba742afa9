// Matrices in row-major flat memory.
module Flat {
  import Gcds

  // The address of entry j of row i in rows of width w.
  function Index(i: nat, j: nat, w: nat): nat {
    i * w + j
  }

  lemma Split(i: nat, j: nat, w: nat)
    requires j < w
    ensures (i * w + j) / w == i && (i * w + j) % w == j
  {
    Gcds.ModUnique(i * w + j, w, i, j);
  }

  lemma Join(x: nat, w: nat)
    requires w > 0
    ensures (x / w) * w + x % w == x
  {
  }

  lemma Inside(i: nat, j: nat, h: nat, w: nat)
    requires i < h && j < w
    ensures i * w + j < h * w && i * w + w <= h * w
  {
    Gcds.ScaleAtLeast(h - i, w);
    assert h * w == i * w + (h - i) * w;
  }

  lemma RowBelow(x: nat, h: nat, w: nat)
    requires x < h * w
    ensures w > 0 && x / w < h
  {
    assert w == 0 ==> h * w == 0;
    Inverse(x / w, h, w);
  }

  lemma Inverse(q: nat, h: nat, w: nat)
    ensures q >= h ==> q * w >= h * w
  {
    if q >= h {
      assert q * w == h * w + (q - h) * w;
    }
  }

  lemma Next(k: nat, w: nat)
    ensures (k + 1) * w == k * w + w
  {
  }
}
