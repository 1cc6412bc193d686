/**
  Flags packed into 64-bit words (local_macros/src/lib.rs): setting or clearing the bit of one flag
  leaves the bit of every other flag as it was. A word is a number below 2^64, and the bitwise
  operations are written out digit by digit.
 */
module FlagBits {

  /** The mask `1 << i`. */
  function Pow2(i: nat): (p: nat)
    ensures p > 0
  {
    if i == 0 then 1 else 2 * Pow2(i - 1)
  }

  type Word = w: nat | w < Pow2(64)

  /** The binary digit of weight `2^i`. */
  predicate Digit(w: nat, i: nat) {
    if i == 0 then w % 2 == 1 else Digit(w / 2, i - 1)
  }

  function One(b: bool): nat { if b then 1 else 0 }

  function And(a: nat, b: nat): nat {
    if a == 0 || b == 0 then 0 else 2 * And(a / 2, b / 2) + One(a % 2 == 1 && b % 2 == 1)
  }

  function Or(a: nat, b: nat): nat
    decreases a + b
  {
    if a == 0 && b == 0 then 0 else 2 * Or(a / 2, b / 2) + One(a % 2 == 1 || b % 2 == 1)
  }

  /** `a & !b`. */
  function AndNot(a: nat, b: nat): nat {
    if a == 0 then 0 else 2 * AndNot(a / 2, b / 2) + One(a % 2 == 1 && b % 2 == 0)
  }

  lemma Halve(x: nat, b: bool)
    ensures (2 * x + One(b)) / 2 == x
    ensures (2 * x + One(b)) % 2 == 1 <==> b
  {
  }

  lemma {:induction false} ZeroDigit(i: nat)
    ensures !Digit(0, i)
  {
    if i > 0 {
      ZeroDigit(i - 1);
    }
  }

  lemma {:induction false} OrDigit(a: nat, b: nat, i: nat)
    ensures Digit(Or(a, b), i) <==> Digit(a, i) || Digit(b, i)
    decreases i
  {
    if a == 0 && b == 0 {
      ZeroDigit(i);
    } else {
      Halve(Or(a / 2, b / 2), a % 2 == 1 || b % 2 == 1);
      if i > 0 {
        OrDigit(a / 2, b / 2, i - 1);
      }
    }
  }

  lemma {:induction false} AndNotDigit(a: nat, b: nat, i: nat)
    ensures Digit(AndNot(a, b), i) <==> Digit(a, i) && !Digit(b, i)
    decreases i
  {
    if a == 0 {
      ZeroDigit(i);
    } else {
      Halve(AndNot(a / 2, b / 2), a % 2 == 1 && b % 2 == 0);
      if i > 0 {
        AndNotDigit(a / 2, b / 2, i - 1);
      }
    }
  }

  lemma {:induction false} MaskDigit(i: nat, j: nat)
    ensures Digit(Pow2(i), j) <==> i == j
  {
    if i == 0 {
      if j > 0 {
        ZeroDigit(j - 1);
      }
    } else {
      Halve(Pow2(i - 1), false);
      if j > 0 {
        MaskDigit(i - 1, j - 1);
      }
    }
  }

  /** The test of the code, `word & mask != 0`. */
  predicate Test(w: nat, i: nat) { And(w, Pow2(i)) != 0 }

  lemma {:induction false} TestDigit(w: nat, i: nat)
    ensures Test(w, i) <==> Digit(w, i)
  {
    if w == 0 {
      ZeroDigit(i);
    } else if i == 0 {
      assert And(w / 2, 0) == 0;
    } else {
      TestDigit(w / 2, i - 1);
      Halve(Pow2(i - 1), false);
    }
  }

  lemma {:induction false} OrBound(a: nat, b: nat, n: nat)
    requires a < Pow2(n) && b < Pow2(n)
    ensures Or(a, b) < Pow2(n)
  {
    if n > 0 {
      OrBound(a / 2, b / 2, n - 1);
    }
  }

  lemma {:induction false} AndNotBound(a: nat, b: nat)
    ensures AndNot(a, b) <= a
  {
    if a > 0 {
      AndNotBound(a / 2, b / 2);
    }
  }

  lemma {:induction false} MaskBound(i: nat, n: nat)
    requires i < n
    ensures Pow2(i) < Pow2(n)
  {
    if i + 1 < n {
      MaskBound(i, n - 1);
    }
  }

  // ---------- one word ----------

  function SetBit(w: Word, i: nat): Word
    requires i < 64
  {
    MaskBound(i, 64);
    OrBound(w, Pow2(i), 64);
    Or(w, Pow2(i))
  }

  function ClearBit(w: Word, i: nat): Word
    requires i < 64
  {
    AndNotBound(w, Pow2(i));
    AndNot(w, Pow2(i))
  }

  lemma SetBitTest(w: Word, i: nat, j: nat)
    requires i < 64
    ensures Test(SetBit(w, i), j) <==> i == j || Test(w, j)
  {
    TestDigit(w, j);
    TestDigit(SetBit(w, i), j);
    OrDigit(w, Pow2(i), j);
    MaskDigit(i, j);
  }

  lemma ClearBitTest(w: Word, i: nat, j: nat)
    requires i < 64
    ensures Test(ClearBit(w, i), j) <==> i != j && Test(w, j)
  {
    TestDigit(w, j);
    TestDigit(ClearBit(w, i), j);
    AndNotDigit(w, Pow2(i), j);
    MaskDigit(i, j);
  }

  // ---------- by flag id ----------

  predicate BitOf(ws: seq<Word>, id: nat)
    requires id / 64 < |ws|
  {
    Test(ws[id / 64], id % 64)
  }

  function FetchOr(ws: seq<Word>, id: nat): seq<Word>
    requires id / 64 < |ws|
  {
    ws[id / 64 := SetBit(ws[id / 64], id % 64)]
  }

  function FetchAndNot(ws: seq<Word>, id: nat): seq<Word>
    requires id / 64 < |ws|
  {
    ws[id / 64 := ClearBit(ws[id / 64], id % 64)]
  }

  lemma SameBit(id: nat, j: nat)
    ensures id == j <==> id / 64 == j / 64 && id % 64 == j % 64
  {
  }

  lemma FetchOrBit(ws: seq<Word>, id: nat, j: nat)
    requires id / 64 < |ws| && j / 64 < |ws|
    ensures BitOf(FetchOr(ws, id), j) <==> id == j || BitOf(ws, j)
  {
    SameBit(id, j);
    if id / 64 == j / 64 {
      SetBitTest(ws[id / 64], id % 64, j % 64);
    }
  }

  lemma FetchAndNotBit(ws: seq<Word>, id: nat, j: nat)
    requires id / 64 < |ws| && j / 64 < |ws|
    ensures BitOf(FetchAndNot(ws, id), j) <==> id != j && BitOf(ws, j)
  {
    SameBit(id, j);
    if id / 64 == j / 64 {
      ClearBitTest(ws[id / 64], id % 64, j % 64);
    }
  }
}
