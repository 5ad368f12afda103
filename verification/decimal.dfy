/** Decimal text of numbers, as JavaScript's `toString` writes it for
    integers, and the link ids the replayer builds from it. */
module Decimal {
  import opened Wrappers

  predicate IsDigit(ch: char) {
    '0' <= ch <= '9'
  }

  predicate AllDigits(s: string) {
    forall i :: 0 <= i < |s| ==> IsDigit(s[i])
  }

  function DigitChar(d: nat): (ch: char)
    requires d < 10
    ensures IsDigit(ch)
  {
    ('0' as int + d) as char
  }

  function DigitValue(ch: char): (d: nat)
    requires IsDigit(ch)
    ensures d < 10
  {
    ch as int - '0' as int
  }

  /** `n.toString()`: the decimal digits, most significant first, with no
      leading zero except for 0 itself. */
  function NatToString(n: nat): (r: string)
    ensures |r| >= 1 && AllDigits(r)
    ensures (|r| == 1) == (n < 10)
    decreases n
  {
    if n < 10 then [DigitChar(n)] else NatToString(n / 10) + [DigitChar(n % 10)]
  }

  /** `i.toString()` for any integer: a minus sign before the digits of a
      negative one. */
  function IntToString(i: int): (r: string)
    ensures |r| >= 1
    ensures (r[0] == '-') == (i < 0)
  {
    if i < 0 then "-" + NatToString(-i) else NatToString(i)
  }

  /** Reads back a run of decimal digits. */
  function ParseNat(s: string): nat
    requires AllDigits(s)
  {
    if s == [] then 0 else ParseNat(s[..|s| - 1]) * 10 + DigitValue(s[|s| - 1])
  }

  /** Reads back an optional minus sign and a run of digits. */
  function ParseInt(s: string): Option<int> {
    if |s| >= 1 && s[0] == '-' then
      if AllDigits(s[1..]) then Some(-(ParseNat(s[1..]) as int)) else None
    else if AllDigits(s) then Some(ParseNat(s))
    else None
  }

  lemma {:induction false} ParseNatToString(n: nat)
    ensures ParseNat(NatToString(n)) == n
    decreases n
  {
    if n >= 10 {
      var s := NatToString(n);
      assert s[..|s| - 1] == NatToString(n / 10);
      ParseNatToString(n / 10);
    }
  }

  lemma ParseIntToString(i: int)
    ensures ParseInt(IntToString(i)) == Some(i)
  {
    var s := IntToString(i);
    if i < 0 {
      assert s[1..] == NatToString(-i);
      assert AllDigits(s[1..]);
      ParseNatToString(-i);
      assert ParseInt(s) == Some(-(ParseNat(s[1..]) as int));
    } else {
      ParseNatToString(i);
    }
  }

  /** Different numbers have different text. */
  lemma NatToStringInjective(a: nat, b: nat)
    ensures NatToString(a) == NatToString(b) ==> a == b
  {
    ParseNatToString(a);
    ParseNatToString(b);
  }

  /** The id the replayer gives the link from `source` to `target`: both
      numbers' text joined by a minus sign. */
  function LinkId(source: nat, target: int): string {
    NatToString(source) + "-" + IntToString(target)
  }

  /** The position of the first minus sign, or the length when there is
      none. */
  function FirstDash(s: string): (k: nat)
    ensures k <= |s| && (k < |s| ==> s[k] == '-')
    ensures forall i :: 0 <= i < k ==> s[i] != '-'
  {
    if s == [] then 0
    else if s[0] == '-' then 0
    else 1 + FirstDash(s[1..])
  }

  /** Reads a link id back into its source and target. */
  function SplitLinkId(id: string): Option<(nat, int)> {
    var k := FirstDash(id);
    if k < |id| && AllDigits(id[..k]) then
      match ParseInt(id[k + 1..])
      case Some(t) => Some((ParseNat(id[..k]), t))
      case None => None
    else None
  }

  lemma SplitLinkIdOfLinkId(source: nat, target: int)
    ensures SplitLinkId(LinkId(source, target)) == Some((source, target))
  {
    var a := NatToString(source);
    var id := LinkId(source, target);
    assert id[|a|] == '-';
    assert forall i :: 0 <= i < |a| ==> id[i] == a[i] && IsDigit(a[i]);
    assert FirstDash(id) == |a|;
    assert id[..|a|] == a;
    assert id[|a| + 1..] == IntToString(target);
    ParseNatToString(source);
    ParseIntToString(target);
  }

  /** Different links get different ids. */
  lemma LinkIdInjective(s1: nat, t1: int, s2: nat, t2: int)
    requires LinkId(s1, t1) == LinkId(s2, t2)
    ensures s1 == s2 && t1 == t2
  {
    SplitLinkIdOfLinkId(s1, t1);
    SplitLinkIdOfLinkId(s2, t2);
  }
}
