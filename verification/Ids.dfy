/** Identifiers the programs build by gluing texts together with colons. */
module Ids {
  import opened Utf16

  const COLON: CodeUnit := 58
  const DIGITS: Text := [48, 49, 50, 51, 52, 53, 54, 55, 56, 57]

  lemma SignsSpell()
    ensures Spells(DIGITS, "0123456789") && Spells([COLON], ":")
  {
  }

  function Digit(d: nat): CodeUnit
    requires d < 10
  {
    DIGITS[d]
  }

  /** String(n) for an index. */
  function Decimal(n: nat): Text {
    if n < 10 then [Digit(n)] else Decimal(n / 10) + [Digit(n % 10)]
  }

  lemma {:induction false} DecimalHasNoColon(n: nat)
    ensures COLON !in Decimal(n) && Decimal(n) != []
  {
    if n < 10 {
    } else {
      DecimalHasNoColon(n / 10);
    }
  }

  predicate IsDigit(c: CodeUnit) {
    48 <= c as int <= 57
  }

  /** The number a text of digits reads as. */
  function Value(t: Text): nat
    requires forall c <- t :: IsDigit(c)
  {
    if t == [] then 0
    else
      assert IsDigit(Last(t));
      10 * Value(Init(t)) + (Last(t) as int - 48)
  }

  lemma DigitReads(d: nat)
    requires d < 10
    ensures IsDigit(Digit(d)) && Digit(d) as int - 48 == d
  {
  }

  lemma ValueOfMore(t: Text, d: nat)
    requires d < 10 && forall c <- t :: IsDigit(c)
    ensures (forall c <- t + [Digit(d)] :: IsDigit(c)) && Value(t + [Digit(d)]) == 10 * Value(t) + d
  {
    DigitReads(d);
    hide IsDigit, Digit;
    assert Init(t + [Digit(d)]) == t;
  }

  lemma DigitsDiffer(i: nat, j: nat)
    requires i < 10 && j < 10 && Digit(i) == Digit(j)
    ensures i == j
  {
  }

  /** An index reads back as itself, without leading zeros. */
  lemma {:induction false} DecimalReads(n: nat)
    ensures (forall c <- Decimal(n) :: IsDigit(c)) && Value(Decimal(n)) == n
    ensures Decimal(n) != [] && (n > 0 ==> Decimal(n)[0] != Digit(0))
  {
    hide IsDigit, Digit;
    if n < 10 {
      ValueOfMore([], n);
      assert [] + [Digit(n)] == [Digit(n)];
      if n > 0 && Digit(n) == Digit(0) { DigitsDiffer(n, 0); }
    } else {
      DecimalReads(n / 10);
      ValueOfMore(Decimal(n / 10), n % 10);
    }
  }

  lemma {:induction false} DecimalInjective(n: nat, m: nat)
    requires Decimal(n) == Decimal(m)
    ensures n == m
  {
    hide Digit;
    DecimalHasNoColon(n / 10);
    DecimalHasNoColon(m / 10);
    assert Last(Decimal(n)) == Digit(n % 10) && Last(Decimal(m)) == Digit(m % 10);
    DigitsDiffer(n % 10, m % 10);
    if n < 10 || m < 10 {
    } else {
      assert Decimal(n / 10) == Init(Decimal(n)) && Decimal(m / 10) == Init(Decimal(m));
      DecimalInjective(n / 10, m / 10);
    }
  }

  lemma ColonInside(u1: Text, p1: Text, u2: Text, p2: Text)
    requires u1 + [COLON] + p1 == u2 + [COLON] + p2
    ensures |u1| < |u2| ==> COLON in p1
  {
    var k := u2 + [COLON] + p2;
    assert k[|u2|] == COLON;
    if |u1| < |u2| { assert p1[|u2| - |u1| - 1] == k[|u2|]; }
  }

  /** What follows the last colon is determined, and so is what precedes it. */
  lemma LastColonSplits(u1: Text, p1: Text, u2: Text, p2: Text)
    requires COLON !in p1 && COLON !in p2
    requires u1 + [COLON] + p1 == u2 + [COLON] + p2
    ensures u1 == u2 && p1 == p2
  {
    ColonInside(u1, p1, u2, p2);
    ColonInside(u2, p2, u1, p1);
    var k1, k2 := u1 + [COLON] + p1, u2 + [COLON] + p2;
    assert u1 == k1[..|u1|] && u2 == k2[..|u2|];
    assert p1 == k1[|u1| + 1..] && p2 == k2[|u2| + 1..];
  }

  /** `${sourceId}:${index}`. */
  function ChunkId(sourceId: Text, index: nat): Text {
    sourceId + [COLON] + Decimal(index)
  }

  /** Chunk ids name their source and index, whatever colons the source has of its own. */
  lemma ChunkIdInjective(s: Text, i: nat, t: Text, j: nat)
    requires ChunkId(s, i) == ChunkId(t, j)
    ensures s == t && i == j
  {
    DecimalHasNoColon(i);
    DecimalHasNoColon(j);
    LastColonSplits(s, Decimal(i), t, Decimal(j));
    DecimalInjective(i, j);
  }
}
