/**
 * The parser's two's-complement conversion of a binary field, as
 * written: a leading '0' gives the unsigned value of the first 16
 * characters; a leading '1' inverts every character, adds one with a
 * carry loop, reads the first 16 characters and negates. The carry loop
 * stops at the middle of the string, so a carry that would reach the
 * upper half is dropped.
 */
module Conversion {
  import opened Bits

  /**
   * The lowest index the add-one loop visits. The loop runs while
   * j > count and count grows by one as j falls by one, so it stops once
   * j has reached half the length, rounded up.
   */
  function CarryLimit(n: nat): (r: nat)
    ensures r <= n
  {
    if n < 2 then n else CarryLimit(n - 2) + 1
  }

  /** The loop visits exactly the indices j with 2 * j >= n: the limit is half the length, rounded up. */
  lemma {:induction false} CarryLimitHalf(n: nat)
    ensures n <= 2 * CarryLimit(n) <= n + 1
  {
    if n >= 2 {
      CarryLimitHalf(n - 2);
    }
  }

  /**
   * The add-one loop from index `j` down: a '0' becomes '1' and the loop
   * stops; anything else becomes '0' and the carry moves left, but never
   * below index `lo`.
   */
  function AddOneFrom(s: string, j: int, lo: nat): (r: string)
    requires -1 <= j < |s|
    ensures |r| == |s|
    decreases j + 1
  {
    if j < lo then s
    else if s[j] == '0' then s[j := '1']
    else AddOneFrom(s[j := '0'], j - 1, lo)
  }

  function AddOne(s: string): (r: string)
    ensures |r| == |s|
  {
    AddOneFrom(s, |s| - 1, CarryLimit(|s|))
  }

  /**
   * What convertBinToInt returns for a binary string: a leading '0'
   * gives a non-negative value, anything else a non-positive one, both
   * within the 16 bits the bitset keeps.
   */
  function BinToInt(bin: string): (r: int)
    requires |bin| >= 1
    ensures bin[0] == '0' ==> 0 <= r < Pow2(16)
    ensures bin[0] != '0' ==> -(Pow2(16) as int) < r <= 0
  {
    if bin[0] == '0' then BitsetValue(bin, 16)
    else -(BitsetValue(AddOne(Invert(bin)), 16) as int)
  }

  /**
   * The carry loop adds one below index j + 1, unless every bit it may
   * visit (from `lo` to `j`) is '1': then those bits all become '0' and
   * the carry out of index `lo` is lost. Bits below `lo` never change.
   */
  lemma {:induction false} AddOneFromValue(s: string, j: int, lo: nat)
    requires IsBinary(s)
    requires -1 <= j < |s| && lo <= j + 1
    ensures IsBinary(AddOneFrom(s, j, lo))
    ensures AddOneFrom(s, j, lo)[..lo] == s[..lo]
    ensures Unsigned(AddOneFrom(s, j, lo)) ==
      if AllChar(s[lo..j + 1], '1')
      then Unsigned(s) - Pow2(|s| - lo) + Pow2(|s| - 1 - j)
      else Unsigned(s) + Pow2(|s| - 1 - j)
    decreases j + 1, 1
  {
    if j < lo {
      assert s[lo..j + 1] == [];
    } else if s[j] == '0' {
      AddOneStop(s, j, lo);
    } else {
      AddOneCarry(s, j, lo);
    }
  }

  /** The loop meets a '0': it becomes '1' and the value grows by that bit's weight. */
  lemma AddOneStop(s: string, j: nat, lo: nat)
    requires IsBinary(s)
    requires lo <= j < |s| && s[j] == '0'
    ensures AddOneFrom(s, j, lo) == s[j := '1']
    ensures IsBinary(s[j := '1'])
    ensures s[j := '1'][..lo] == s[..lo]
    ensures !AllChar(s[lo..j + 1], '1')
    ensures Unsigned(s[j := '1']) == Unsigned(s) + Pow2(|s| - 1 - j)
  {
    UnsignedUpdate(s, j, '1');
    assert s[lo..j + 1][j - lo] == '0';
  }

  /** The loop meets a '1': it becomes '0' and the carry moves one place left. */
  lemma {:induction false} AddOneCarry(s: string, j: nat, lo: nat)
    requires IsBinary(s)
    requires lo <= j < |s| && s[j] == '1'
    ensures IsBinary(AddOneFrom(s, j, lo))
    ensures AddOneFrom(s, j, lo)[..lo] == s[..lo]
    ensures Unsigned(AddOneFrom(s, j, lo)) ==
      if AllChar(s[lo..j + 1], '1')
      then Unsigned(s) - Pow2(|s| - lo) + Pow2(|s| - 1 - j)
      else Unsigned(s) + Pow2(|s| - 1 - j)
    decreases j + 1, 0
  {
    var s' := s[j := '0'];
    var r := AddOneFrom(s', j - 1, lo);
    assert AddOneFrom(s, j, lo) == r;
    ClearBit(s, j, lo);
    OnesSnoc(s, j, lo);
    AddOneFromValue(s', j - 1, lo);
    assert s'[lo..(j - 1) + 1] == s[lo..j];
    var w := Pow2(|s| - 1 - j);
    var p := Pow2(|s| - lo);
    var all := AllChar(s[lo..j], '1');
    assert |s'| == |s|;
    assert Pow2(|s'| - 1 - (j - 1)) == 2 * w by {
      assert |s'| - 1 - (j - 1) == (|s| - 1 - j) + 1;
    }
    assert Pow2(|s'| - lo) == p;
    assert AllChar(s'[lo..(j - 1) + 1], '1') == all;
    CarryArith(Unsigned(s), Unsigned(s'), Unsigned(r), p, w, all);
  }

  /** The arithmetic of one carry step: clearing a bit of weight `w` and adding `2 * w` above it. */
  lemma CarryArith(u: int, u': int, ur: int, p: int, w: int, all: bool)
    requires u' == u - w
    requires ur == if all then u' - p + 2 * w else u' + 2 * w
    ensures ur == if all then u - p + w else u + w
  {
  }

  /** Clearing a set bit at `j` keeps the string binary, leaves the other bits and lowers the value by its weight. */
  lemma ClearBit(s: string, j: nat, lo: nat)
    requires IsBinary(s)
    requires lo <= j < |s| && s[j] == '1'
    ensures IsBinary(s[j := '0'])
    ensures s[j := '0'][lo..j] == s[lo..j] && s[j := '0'][..lo] == s[..lo]
    ensures Unsigned(s[j := '0']) == Unsigned(s) - Pow2(|s| - 1 - j)
  {
    UnsignedUpdate(s, j, '0');
    assert BitValue(s[j]) == 1 && BitValue('0') == 0;
  }

  /** The bits from `lo` to `j` are all '1' exactly when those below `j` are, given that bit `j` is. */
  lemma OnesSnoc(s: string, j: nat, lo: nat)
    requires lo <= j < |s| && s[j] == '1'
    ensures AllChar(s[lo..j + 1], '1') <==> AllChar(s[lo..j], '1')
  {
    assert s[lo..j + 1] == s[lo..j] + [s[j]];
    AllCharSnoc(s[lo..j], s[j], '1');
  }

  /** On a 16-character field the carry loop visits indices 15 down to 8. */
  lemma AddOneField16(x: string)
    requires |x| == 16 && IsBinary(x)
    ensures IsBinary(AddOne(x))
    ensures Unsigned(AddOne(x)) ==
      if AllChar(x[8..], '1') then Unsigned(x) - 255 else Unsigned(x) + 1
  {
    var u: int, ur: int := Unsigned(x), Unsigned(AddOne(x));
    assert IsBinary(AddOne(x)) && ur == if AllChar(x[8..], '1') then u - 256 + 1 else u + 1 by {
      assert CarryLimit(16) == 8;
      AddOneFromValue(x, 15, 8);
      AllCharTail(x, 8, '1');
      assert Pow2(|x| - 8) == 256 by {
        PowValues();
      }
    }
  }


  /**
   * convertBinToInt on a 16-character field: the two's-complement value,
   * except when the sign bit is set and the lower 8 bits are all '0',
   * where the dropped carry leaves the result 256 too large.
   */
  lemma {:induction false} BinToInt16(bin: string)
    requires |bin| == 16 && IsBinary(bin)
    ensures BinToInt(bin) ==
      if bin[0] == '1' && AllChar(bin[8..], '0')
      then TwosComplement(bin) + 256
      else TwosComplement(bin)
  {
    assert bin[..16] == bin;
    PowValues();
    if bin[0] == '1' {
      var x := Invert(bin);
      InvertUnsigned(bin);
      InvertAllChar(bin[8..]);
      assert Invert(bin[8..]) == x[8..];
      AddOneField16(x);
      assert AddOne(x)[..16] == AddOne(x);
    }
  }

  /**
   * convertBinToInt on a branch field with the two zero bits appended
   * (18 characters): the two's-complement value of the field, except
   * when the sign bit is set and bits 9..15 of the field are all '0',
   * where the dropped carry leaves the result 128 too large.
   */
  lemma {:induction false} BinToIntBranch(field: string)
    requires |field| == 16 && IsBinary(field)
    ensures BinToInt(field + "00") ==
      if field[0] == '1' && AllChar(field[9..], '0')
      then TwosComplement(field) + 128
      else TwosComplement(field)
  {
    var bin := field + "00";
    assert bin[..16] == field && bin[0] == field[0];
    PowValues();
    if field[0] == '1' {
      var p := Invert(field);
      var r := AddOne(Invert(bin));
      assert Unsigned(p) == 65535 - Unsigned(field) by {
        InvertUnsigned(field);
      }
      var all := AllChar(field[9..], '0');
      assert Unsigned(r) == if all then 4 * Unsigned(p) - 508 else 4 * Unsigned(p) + 4 by {
        BranchCarry(field);
      }
      DropLowPair(r);
      var high, low := Unsigned(r[..16]), 2 * BitValue(r[16]) + BitValue(r[17]);
      if all {
        QuarterUnique(high, low, Unsigned(p) - 127, 0);
      } else {
        QuarterUnique(high, low, Unsigned(p) + 1, 0);
      }
      assert BinToInt(bin) == -(high as int);
    }
  }

  /**
   * The carry loop on a branch field with "00" appended and inverted:
   * the appended bits are '1' and carry on into the field, and the carry
   * is lost when bits 9..15 of the field are all '0'.
   */
  lemma BranchCarry(field: string)
    requires |field| == 16 && IsBinary(field)
    ensures Unsigned(AddOne(Invert(field + "00"))) ==
      if AllChar(field[9..], '0') then 4 * Unsigned(Invert(field)) - 508
      else 4 * Unsigned(Invert(field)) + 4
  {
    var p := Invert(field);
    assert Invert(field + "00") == p + "11" by {
      InvertConcat(field, "00");
      assert Invert("00") == "11";
    }
    assert IsBinary(p) by {
      InvertUnsigned(field);
    }
    assert AllChar(p[9..], '1') <==> AllChar(field[9..], '0') by {
      InvertAllChar(field[9..]);
      InvertSuffix(field, 9);
    }
    CarryIntoField(p, p + "11");
  }

  /** Adding one to a 16-bit string with "11" appended: the carry stops inside bits 9..15 or is lost. */
  lemma CarryIntoField(p: string, x: string)
    requires |p| == 16 && IsBinary(p) && x == p + "11"
    ensures Unsigned(AddOne(x)) ==
      if AllChar(p[9..], '1') then 4 * Unsigned(p) - 508 else 4 * Unsigned(p) + 4
  {
    AppendOnes(p, x);
    assert CarryLimit(18) == 9;
    AddOneFromValue(x, 17, 9);
    assert Pow2(|x| - 9) == 512 by {
      PowValues();
    }
  }

  /** Appending "11" to a 16-bit string: still binary, four times the value plus three, and bits 9..17 all '1' exactly when bits 9..15 are. */
  lemma AppendOnes(p: string, x: string)
    requires |p| == 16 && IsBinary(p) && x == p + "11"
    ensures |x| == 18 && IsBinary(x)
    ensures Unsigned(x) == 4 * Unsigned(p) + 3
    ensures AllChar(x[9..18], '1') <==> AllChar(p[9..], '1')
  {
    assert forall i :: 0 <= i < 16 ==> x[i] == p[i];
    assert Unsigned(x) == 4 * Unsigned(p) + 3 by {
      assert x == (p + ['1']) + ['1'];
      UnsignedSnoc(p, '1');
      UnsignedSnoc(p + ['1'], '1');
    }
    assert x[9..18] == p[9..] + "11";
    AllCharConcat(p[9..], "11", '1');
  }

  /** An 18-character string is its first 16 characters shifted past the last two. */
  lemma DropLowPair(r: string)
    requires |r| == 18
    ensures Unsigned(r) == 4 * Unsigned(r[..16]) + 2 * BitValue(r[16]) + BitValue(r[17])
  {
    assert r == r[..17] + [r[17]];
    assert r[..17] == r[..16] + [r[16]];
    UnsignedSnoc(r[..17], r[17]);
    UnsignedSnoc(r[..16], r[16]);
  }

  /** Division by four has a unique quotient. */
  lemma QuarterUnique(a: int, b: int, c: int, d: int)
    requires 4 * a + b == 4 * c + d && 0 <= b < 4 && 0 <= d < 4
    ensures a == c && b == d
  {
  }

  /** A field made of a run of `a` followed by a run of `b`, split after `k` characters. */
  lemma TwoRuns(s: string, k: nat, a: char, b: char)
    requires k <= |s| && IsBit(a) && IsBit(b)
    requires AllChar(s[..k], a) && AllChar(s[k..], b)
    ensures IsBinary(s)
    ensures Unsigned(s) == Unsigned(s[..k]) * Pow2(|s| - k) + Unsigned(s[k..])
    ensures a == '0' ==> Unsigned(s[..k]) == 0
    ensures a == '1' ==> Unsigned(s[..k]) == Pow2(k) - 1
    ensures b == '0' ==> Unsigned(s[k..]) == 0
    ensures b == '1' ==> Unsigned(s[k..]) == Pow2(|s| - k) - 1
  {
    assert s == s[..k] + s[k..];
    forall i | 0 <= i < |s| ensures IsBit(s[i]) {
      if i < k { assert s[..k][i] == s[i]; } else { assert s[k..][i - k] == s[i]; }
    }
    UnsignedConcat(s[..k], s[k..]);
    UnsignedUniform(s[..k]);
    UnsignedUniform(s[k..]);
  }

  /** The field 0000000000000001 reads as 1. */
  lemma {:induction false} OneField(s: string)
    requires |s| == 16 && AllChar(s[..15], '0') && AllChar(s[15..], '1')
    ensures BinToInt(s) == 1
  {
    TwoRuns(s, 15, '0', '1');
    assert s[0] == s[..15][0];
    assert Pow2(1) == 2;
    assert s[..16] == s;
  }

  /** The field 0111111111111111 reads as 32767, the largest 16-bit value. */
  lemma {:induction false} LargestField(s: string)
    requires |s| == 16 && AllChar(s[..1], '0') && AllChar(s[1..], '1')
    ensures BinToInt(s) == 32767
  {
    TwoRuns(s, 1, '0', '1');
    assert s[0] == s[..1][0];
    PowValues();
    assert s[..16] == s;
  }

  /** The field 1111111111111111 reads as -1. */
  lemma {:induction false} AllOnesField(s: string)
    requires |s| == 16 && AllChar(s[..8], '1') && AllChar(s[8..], '1')
    ensures BinToInt(s) == -1
  {
    TwoRuns(s, 8, '1', '1');
    BinToInt16(s);
    assert s[0] == s[..8][0] && s[8..][0] == '1';
    PowValues();
  }

  /** The dropped carry: the field 1000000000000000 reads as -32512, not as -32768. */
  lemma {:induction false} SignBitOnlyField(s: string)
    requires |s| == 16 && AllChar(s[..1], '1') && AllChar(s[1..], '0')
    ensures BinToInt(s) == -32512
  {
    var u: int := Unsigned(s);
    assert IsBinary(s) && u == 32768 by {
      TwoRuns(s, 1, '1', '0');
      PowValues();
      assert Pow2(|s| - 1) == 32768;
    }
    assert s[0] == '1' by {
      assert s[0] == s[..1][0];
    }
    assert AllChar(s[8..], '0') by {
      assert s[8..] == s[1..][7..];
    }
    assert TwosComplement(s) == u - 65536 by {
      PowValues();
    }
    BinToInt16(s);
  }

  /** The dropped carry: the field 1111111100000000 reads as 0, not as -256. */
  lemma {:induction false} MinusTwoFiftySixField(s: string)
    requires |s| == 16 && AllChar(s[..8], '1') && AllChar(s[8..], '0')
    ensures BinToInt(s) == 0
  {
    TwoRuns(s, 8, '1', '0');
    BinToInt16(s);
    assert s[0] == s[..8][0];
    PowValues();
  }
}
