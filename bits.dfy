/**
 * Binary strings as the disassembler sees them: a string of '0'/'1'
 * characters, most significant bit first, and the unsigned and
 * two's-complement values such a string denotes.
 */
module Bits {

  predicate IsBit(c: char) {
    c == '0' || c == '1'
  }

  predicate IsBinary(s: string) {
    forall i :: 0 <= i < |s| ==> IsBit(s[i])
  }

  /** Every character of `s` is `c`. */
  predicate AllChar(s: string, c: char) {
    forall i :: 0 <= i < |s| ==> s[i] == c
  }

  /** A suffix taken up to the end is the suffix. */
  lemma AllCharTail(s: string, i: nat, ch: char)
    requires i <= |s|
    ensures AllChar(s[i..|s|], ch) <==> AllChar(s[i..], ch)
  {
    assert s[i..|s|] == s[i..];
  }

  lemma AllCharSnoc(a: string, c: char, ch: char)
    ensures AllChar(a + [c], ch) <==> AllChar(a, ch) && c == ch
  {
    if AllChar(a, ch) && c == ch {
      forall i | 0 <= i < |a + [c]| ensures (a + [c])[i] == ch {
        if i < |a| { assert (a + [c])[i] == a[i]; }
      }
    }
    if AllChar(a + [c], ch) {
      assert (a + [c])[|a|] == c;
      forall i | 0 <= i < |a| ensures a[i] == ch {
        assert (a + [c])[i] == a[i];
      }
    }
  }

  lemma AllCharConcat(a: string, b: string, ch: char)
    ensures AllChar(a + b, ch) <==> AllChar(a, ch) && AllChar(b, ch)
  {
    if AllChar(a + b, ch) {
      forall i | 0 <= i < |a| ensures a[i] == ch { assert (a + b)[i] == a[i]; }
      forall i | 0 <= i < |b| ensures b[i] == ch { assert (a + b)[|a| + i] == b[i]; }
    }
  }

  function Pow2(n: nat): (r: nat)
    ensures r >= 1
  {
    if n == 0 then 1 else 2 * Pow2(n - 1)
  }

  function BitValue(c: char): (b: nat)
    ensures b <= 1
    ensures b == 1 <==> c == '1'
  {
    if c == '1' then 1 else 0
  }

  /** The unsigned value of a binary string, most significant bit first. */
  function Unsigned(s: string): (r: nat)
    ensures r < Pow2(|s|)
  {
    if s == [] then 0 else 2 * Unsigned(s[..|s| - 1]) + BitValue(s[|s| - 1])
  }

  /**
   * What `std::bitset<n>` built from `s` holds: only the first `n`
   * characters of a longer string are read.
   */
  function BitsetValue(s: string, n: nat): (r: nat)
    ensures r < Pow2(n)
  {
    var m := if |s| < n then |s| else n;
    PowMonotone(m, n);
    Unsigned(s[..m])
  }

  /**
   * The two's-complement reading of a binary string: the leading bit
   * weighs -2^(n-1).
   */
  function TwosComplement(s: string): (r: int)
    requires |s| >= 1
    ensures -(Pow2(|s| - 1) as int) <= r < Pow2(|s| - 1)
    ensures r >= 0 <==> s[0] != '1'
  {
    UnsignedConcat(s[..1], s[1..]);
    assert s[..1] + s[1..] == s;
    assert Unsigned(s[..1]) == BitValue(s[0]) by {
      assert s[..1][..0] == [];
    }
    if s[0] == '1' then Unsigned(s) - Pow2(|s|) else Unsigned(s)
  }

  lemma PowValues()
    ensures Pow2(2) == 4 && Pow2(5) == 32 && Pow2(8) == 256 && Pow2(9) == 512 && Pow2(16) == 65536
  {
    assert Pow2(1) == 2;
    assert Pow2(2) == 4;
    assert Pow2(3) == 8;
    assert Pow2(4) == 16;
    assert Pow2(5) == 32;
    assert Pow2(6) == 64;
    assert Pow2(7) == 128;
    assert Pow2(8) == 256;
    assert Pow2(9) == 512;
    assert Pow2(10) == 1024;
    assert Pow2(11) == 2048;
    assert Pow2(12) == 4096;
    assert Pow2(13) == 8192;
    assert Pow2(14) == 16384;
    assert Pow2(15) == 32768;
  }

  lemma PowMonotone(m: nat, n: nat)
    requires m <= n
    ensures Pow2(m) <= Pow2(n)
    decreases n
  {
    if m < n { PowMonotone(m, n - 1); }
  }

  lemma {:induction false} PowAdd(m: nat, n: nat)
    ensures Pow2(m + n) == Pow2(m) * Pow2(n)
    decreases n
  {
    if n > 0 {
      PowAdd(m, n - 1);
      calc {
        Pow2(m + n);
        2 * Pow2(m + n - 1);
        2 * (Pow2(m) * Pow2(n - 1));
        Pow2(m) * (2 * Pow2(n - 1));
        Pow2(m) * Pow2(n);
      }
    }
  }

  /** Appending a bit doubles the value and adds the bit. */
  lemma UnsignedSnoc(s: string, c: char)
    ensures Unsigned(s + [c]) == 2 * Unsigned(s) + BitValue(c)
  {
    assert (s + [c])[..|s|] == s;
  }

  /** The value of a concatenation: the left part is shifted past the right part. */
  lemma {:induction false} UnsignedConcat(a: string, b: string)
    ensures Unsigned(a + b) == Unsigned(a) * Pow2(|b|) + Unsigned(b)
    decreases |b|
  {
    if b == [] {
      assert a + b == a;
    } else {
      var b' := b[..|b| - 1];
      assert (a + b)[..|a + b| - 1] == a + b';
      assert (a + b)[|a + b| - 1] == b[|b| - 1];
      UnsignedConcat(a, b');
      var x, p, u', bit := Unsigned(a), Pow2(|b'|), Unsigned(b'), BitValue(b[|b| - 1]);
      assert Unsigned(a + b) == 2 * Unsigned(a + b') + bit;
      assert Unsigned(b) == 2 * u' + bit;
      assert Pow2(|b|) == 2 * p;
      DoubleProduct(x, p);
    }
  }

  lemma DoubleProduct(x: nat, p: nat)
    ensures x * (2 * p) == 2 * (x * p)
  {
  }

  /**
   * Overwriting the bit at index `j` changes the value by the difference
   * of the two bits, weighted by the position of `j` from the right.
   */
  lemma UnsignedUpdate(s: string, j: nat, c: char)
    requires j < |s|
    ensures Unsigned(s[j := c]) + BitValue(s[j]) * Pow2(|s| - 1 - j)
         == Unsigned(s) + BitValue(c) * Pow2(|s| - 1 - j)
  {
    var s' := s[j := c];
    assert s'[..j] == s[..j] && s'[j + 1..] == s[j + 1..] && s'[j] == c;
    UnsignedAt(s, j);
    UnsignedAt(s', j);
  }

  /** The value of a string split around index `j`. */
  lemma UnsignedAt(s: string, j: nat)
    requires j < |s|
    ensures Unsigned(s) == Unsigned(s[..j]) * Pow2(|s| - j) + BitValue(s[j]) * Pow2(|s| - 1 - j)
                           + Unsigned(s[j + 1..])
  {
    var pre, rest, post := s[..j], s[j..], s[j + 1..];
    assert s == pre + rest;
    assert rest == [s[j]] + post;
    assert |rest| == |s| - j && |post| == |s| - 1 - j;
    UnsignedConcat(pre, rest);
    SingleBitConcat(s[j], post);
  }

  /** A run of '0's is worth nothing; a run of '1's is worth one less than the next power of two. */
  lemma {:induction false} UnsignedUniform(s: string)
    ensures AllChar(s, '0') ==> Unsigned(s) == 0
    ensures AllChar(s, '1') ==> Unsigned(s) == Pow2(|s|) - 1
    decreases |s|
  {
    if s != [] {
      UnsignedUniform(s[..|s| - 1]);
    }
  }

  /** A bit placed in front of `post` weighs 2^|post|. */
  lemma SingleBitConcat(b: char, post: string)
    ensures Unsigned([b] + post) == BitValue(b) * Pow2(|post|) + Unsigned(post)
  {
    UnsignedConcat([b], post);
    assert Unsigned([b]) == BitValue(b) by { assert [b][..0] == []; }
  }

  /** The character-wise inversion the conversion routine performs: '1' and '0' swap, anything else stays. */
  function FlipChar(c: char): (d: char)
    ensures IsBit(c) ==> IsBit(d) && d != c
  {
    if c == '1' then '0' else if c == '0' then '1' else c
  }

  function Invert(s: string): (r: string)
    ensures |r| == |s|
    ensures forall i :: 0 <= i < |s| ==> r[i] == FlipChar(s[i])
  {
    seq(|s|, i requires 0 <= i < |s| => FlipChar(s[i]))
  }

  /** Inverting a suffix is taking the suffix of the inversion. */
  lemma InvertSuffix(s: string, i: nat)
    requires i <= |s|
    ensures Invert(s[i..]) == Invert(s)[i..]
  {
    assert forall k :: 0 <= k < |s| - i ==> Invert(s[i..])[k] == FlipChar(s[i + k]);
  }

  /** Inverting a concatenation inverts each part. */
  lemma InvertConcat(a: string, b: string)
    ensures Invert(a + b) == Invert(a) + Invert(b)
  {
    var l, r := Invert(a + b), Invert(a) + Invert(b);
    assert |l| == |r|;
    forall k | 0 <= k < |l|
      ensures l[k] == r[k]
    {
      if k < |a| {
        assert (a + b)[k] == a[k];
      } else {
        assert (a + b)[k] == b[k - |a|];
      }
    }
  }

  /** Inverting a binary string yields its ones' complement. */
  lemma {:induction false} InvertUnsigned(s: string)
    requires IsBinary(s)
    ensures IsBinary(Invert(s))
    ensures Unsigned(Invert(s)) + Unsigned(s) == Pow2(|s|) - 1
    decreases |s|
  {
    if s != [] {
      var s' := s[..|s| - 1];
      assert Invert(s)[..|s| - 1] == Invert(s');
      InvertUnsigned(s');
    }
  }

  /** Inverting turns a run of '0's into a run of '1's and back. */
  lemma InvertAllChar(s: string)
    requires IsBinary(s)
    ensures AllChar(Invert(s), '1') <==> AllChar(s, '0')
  {
  }
}
