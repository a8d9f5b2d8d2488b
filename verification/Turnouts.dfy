/** The turnout bitmap (user/turnout.c): one bit per turnout, set when it is curved. */
module Turnouts {
  import opened Common
  import opened Bits

  /** Turnouts are numbered 1 to 18 and 153 to 156. */
  predicate ValidTurnout(num: int) {
    1 <= num <= 18 || 153 <= num <= 156
  }

  function BitAddress(num: int): (a: nat)
    requires ValidTurnout(num)
    ensures a < 22
  {
    if 153 <= num <= 156 then num - 135 else num - 1
  }

  lemma AddressesDiffer(m: int, n: int)
    requires ValidTurnout(m) && ValidTurnout(n)
    ensures BitAddress(m) == BitAddress(n) <==> m == n
  {
  }

  predicate IsCurved(bitmap: nat, num: int)
    requires ValidTurnout(num)
  {
    Bit(bitmap, BitAddress(num))
  }

  function SetBitmap(bitmap: nat, num: int, curved: bool): nat
    requires ValidTurnout(num)
  {
    if curved then Or(bitmap, Pow2(BitAddress(num))) else AndNot(bitmap, Pow2(BitAddress(num)))
  }

  /** Setting one turnout sets that one and leaves every other as it was. */
  lemma SetTurnoutSetsOnlyIt(bitmap: nat, num: int, curved: bool, other: int)
    requires ValidTurnout(num) && ValidTurnout(other)
    ensures IsCurved(SetBitmap(bitmap, num, curved), other) <==>
      if other == num then curved else IsCurved(bitmap, other)
  {
    SetBit(bitmap, BitAddress(num));
    ClearBit(bitmap, BitAddress(num));
    AddressesDiffer(num, other);
  }

  lemma BitmapFits(bitmap: nat, num: int, curved: bool)
    requires ValidTurnout(num) && bitmap < WORD
    ensures SetBitmap(bitmap, num, curved) < WORD
  {
    WordIsPow2();
    Pow2Increases(BitAddress(num), 32);
    OrBound(bitmap, Pow2(BitAddress(num)), 32);
    AndNotBound(bitmap, Pow2(BitAddress(num)));
  }

  class Turnouts {
    var bitmap: nat

    constructor ()
      ensures bitmap == 0
    {
      bitmap := 0;
    }

    method SetTurnout(num: int, direction: char)
      requires ValidTurnout(num) && bitmap < WORD && (direction == 'c' || direction == 's')
      modifies this
      ensures bitmap == SetBitmap(old(bitmap), num, direction == 'c') && bitmap < WORD
    {
      BitmapFits(bitmap, num, direction == 'c');
      var address := BitAddress(num);
      if direction == 'c' {
        bitmap := Or(bitmap, Pow2(address));
      } else {
        bitmap := AndNot(bitmap, Pow2(address));
      }
    }

    /** The start-up positions: everything straight except turnouts 11 and 153. */
    method InitTurnouts()
      requires bitmap < WORD
      modifies this
      ensures bitmap < WORD
      ensures forall n :: ValidTurnout(n) ==> (IsCurved(bitmap, n) <==> n == 11 || n == 153)
    {
      for i := 1 to 19
        invariant bitmap < WORD
        invariant forall n :: 1 <= n < i ==> (IsCurved(bitmap, n) <==> n == 11)
      {
        Setting(i, i == 11);
        SetTurnout(i, if i == 11 then 'c' else 's');
      }
      Setting(153, true);
      SetTurnout(153, 'c');
      for i := 154 to 157
        invariant bitmap < WORD
        invariant forall n :: 1 <= n <= 18 || 153 <= n < i ==> (IsCurved(bitmap, n) <==> n == 11 || n == 153)
      {
        Setting(i, false);
        SetTurnout(i, 's');
      }
    }

    lemma Setting(num: int, curved: bool)
      requires ValidTurnout(num)
      ensures forall n :: ValidTurnout(n) ==>
        (IsCurved(SetBitmap(bitmap, num, curved), n) <==> if n == num then curved else IsCurved(bitmap, n))
    {
      forall n | ValidTurnout(n)
        ensures IsCurved(SetBitmap(bitmap, num, curved), n) <==> if n == num then curved else IsCurved(bitmap, n)
      {
        SetTurnoutSetsOnlyIt(bitmap, num, curved, n);
      }
    }
  }
}
