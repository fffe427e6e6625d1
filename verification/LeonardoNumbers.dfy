/** Leonardo numbers: the sizes of the trees smoothsort keeps, by their order. */
module LeonardoNumbers {
  function L(k: nat): (n: nat)
    ensures 1 <= n
  {
    if k < 2 then 1 else L(k - 1) + L(k - 2) + 1
  }

  lemma {:induction false} LMonotone(i: nat, k: nat)
    requires i <= k
    ensures L(i) <= L(k)
    ensures 1 <= i < k ==> L(i) < L(k)
    decreases k
  {
    if i < k {
      LMonotone(i, k - 1);
    }
  }

  lemma LThree(k: nat)
    ensures L(k + 2) == L(k + 1) + L(k) + 1
  {
  }

  lemma TwoLater(k: nat, x: nat, y: nat)
    requires L(k) >= x && L(k + 1) >= y
    ensures L(k + 2) >= x + y + 1 && L(k + 3) >= x + 2 * y + 2
  {
    assert L(k + 2) == L(k + 1) + L(k) + 1 && L(k + 3) == L(k + 2) + L(k + 1) + 1;
  }

  lemma TenLater(k: nat, x: nat, y: nat)
    requires L(k) >= x && L(k + 1) >= y
    ensures L(k + 10) >= 34 * x + 55 * y + 88
    ensures L(k + 11) >= 55 * x + 89 * y + 143
  {
    hide L;
    TwoLater(k, x, y);
    TwoLater(k + 2, x + y + 1, x + 2 * y + 2);
    TwoLater(k + 4, 2 * x + 3 * y + 4, 3 * x + 5 * y + 7);
    TwoLater(k + 6, 5 * x + 8 * y + 12, 8 * x + 13 * y + 20);
    TwoLater(k + 8, 13 * x + 21 * y + 33, 21 * x + 34 * y + 54);
  }

  /** A tree no larger than any object a C program can have is of one of the first ninety orders. */
  lemma LeonardoExceedsPtrdiff(k: nat)
    ensures L(k) < 0x8000_0000_0000_0000 ==> k < 90
  {
    if k >= 90 {
      var m := k - 90;
      TenLater(m, 1, 1);
      TenLater(m + 10, 177, 287);
      TenLater(m + 20, 21891, 35421);
      TenLater(m + 30, 2692537, 4356617);
      TenLater(m + 40, 331160281, 535828591);
      TenLater(m + 50, 40730022147, 65902560197);
      TenLater(m + 60, 5009461563921, 8105479075761);
      TenLater(m + 70, 616123042340257, 996908023758527);
      TenLater(m + 80, 75778124746287811, 122611581443223181);
    }
  }
}
