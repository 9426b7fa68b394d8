/**
 * Hexadecimal digits as `Number.prototype.toString(16)` writes a value in
 * 0..15, and strings made of them.
 */
module Hex {
  import opened Js

  /** A random draw `Math.random() * 16` truncated to an integer. */
  type Nibble = n: int | 0 <= n < 16

  const Digits: string := "0123456789abcdef"

  predicate IsLowerHex(c: char)
  {
    '0' <= c <= '9' || 'a' <= c <= 'f'
  }

  /** `n.toString(16)` for 0 <= n < 16: one lower-case digit. */
  function Digit(n: Nibble): (c: char)
    ensures IsLowerHex(c)
    ensures n < 10 ==> c as int == '0' as int + n
    ensures 10 <= n ==> c as int == 'a' as int + (n - 10)
  {
    Digits[n]
  }

  /** The value of a lower-case hex digit. */
  function Value(c: char): (n: Nibble)
    requires IsLowerHex(c)
    ensures Digit(n) == c
  {
    if c <= '9' then c as int - '0' as int else c as int - 'a' as int + 10
  }

  lemma DigitInjective(m: Nibble, n: Nibble)
    requires Digit(m) == Digit(n)
    ensures m == n
  {
  }

  predicate AllLowerHex(s: string)
  {
    forall i :: 0 <= i < |s| ==> IsLowerHex(s[i])
  }

  /** `Array.from({ length: |rs| }, draw).join('')`, one digit per draw. */
  function HexString(rs: seq<Nibble>): (s: string)
    ensures |s| == |rs|
    ensures forall i :: 0 <= i < |rs| ==> s[i] == Digit(rs[i])
  {
    seq(|rs|, i requires 0 <= i < |rs| => Digit(rs[i]))
  }

  /** Reads a string of lower-case hex digits back into the draws. */
  function ParseHex(s: string): (r: Option<seq<Nibble>>)
    ensures r.Some? <==> AllLowerHex(s)
    ensures r.Some? ==> |r.value| == |s| && HexString(r.value) == s
  {
    if AllLowerHex(s) then Some(seq(|s|, i requires 0 <= i < |s| => Value(s[i]))) else None
  }

  /** Writing draws as hex and reading them back gives the same draws. */
  lemma ParseHexString(rs: seq<Nibble>)
    ensures ParseHex(HexString(rs)) == Some(rs)
  {
    var s := HexString(rs);
    assert AllLowerHex(s);
    var back := ParseHex(s).value;
    forall i | 0 <= i < |rs| ensures back[i] == rs[i] {
      DigitInjective(back[i], rs[i]);
    }
    assert back == rs;
  }
}
