/** Line identifiers: the grid names slot k "line_<k>" and a spacing change recovers k with
    `parseInt(id.split('_')[1])`. */
module LineIds {
  import opened CanvasTypes

  predicate IsDigit(c: char) { '0' <= c <= '9' }

  function DigitChar(d: nat): (c: char)
    requires d < 10
    ensures IsDigit(c)
  {
    (('0' as int) + d) as char
  }

  function DigitValue(c: char): nat
    requires IsDigit(c)
  {
    (c as int) - ('0' as int)
  }

  predicate AllDigits(s: string) { forall i :: 0 <= i < |s| ==> IsDigit(s[i]) }

  /** Decimal rendering of a template-literal number, most significant digit first. */
  function NatToString(n: nat): (s: string)
    ensures |s| > 0 && AllDigits(s)
    decreases n
  {
    if n < 10 then [DigitChar(n)] else NatToString(n / 10) + [DigitChar(n % 10)]
  }

  /** The value of a string of decimal digits. */
  function DigitsValue(s: string): nat
    requires AllDigits(s)
  {
    if s == [] then 0 else DigitsValue(s[..|s| - 1]) * 10 + DigitValue(s[|s| - 1])
  }

  /** `line_${k}` */
  function LineId(k: nat): string
  {
    "line_" + NatToString(k)
  }

  /** Index of the first `c` in `s`, or -1. */
  function IndexOfChar(s: string, c: char): (r: int)
    ensures -1 <= r < |s|
    ensures r >= 0 ==> s[r] == c && forall j :: 0 <= j < r ==> s[j] != c
    ensures r < 0 ==> forall j :: 0 <= j < |s| ==> s[j] != c
  {
    if |s| == 0 then -1
    else if s[0] == c then 0
    else
      var r := IndexOfChar(s[1..], c);
      if r < 0 then -1 else r + 1
  }

  /** `s.split('_')[1]`: the text between the first '_' and the next one; undefined without '_'. */
  function SecondField(s: string): Option<string>
  {
    var i := IndexOfChar(s, '_');
    if i < 0 then None
    else
      var rest := s[i + 1..];
      var j := IndexOfChar(rest, '_');
      Some(if j < 0 then rest else rest[..j])
  }

  /** Length of the longest prefix of `s` made of decimal digits. */
  function DigitPrefixLength(s: string): (n: nat)
    ensures n <= |s| && AllDigits(s[..n])
    ensures n < |s| ==> !IsDigit(s[n])
  {
    if |s| == 0 || !IsDigit(s[0]) then 0
    else
      var n := DigitPrefixLength(s[1..]);
      assert s[..n + 1] == [s[0]] + s[1..][..n];
      n + 1
  }

  /** `parseInt(id.split('_')[1])`: the leading digits of the second field; None stands for NaN. */
  function ParseLineIndex(id: string): Option<nat>
  {
    match SecondField(id)
    case None => None
    case Some(field) =>
      var n := DigitPrefixLength(field);
      if n == 0 then None else Some(DigitsValue(field[..n]))
  }

  lemma {:induction false} DigitsValueOfNatToString(n: nat)
    ensures DigitsValue(NatToString(n)) == n
    decreases n
  {
    if n >= 10 {
      var s := NatToString(n / 10);
      var t := s + [DigitChar(n % 10)];
      assert t[..|t| - 1] == s;
      DigitsValueOfNatToString(n / 10);
    }
  }

  /** Parsing the suffix of a generated id gives back its slot index. */
  lemma ParseLineIndexOfLineId(k: nat)
    ensures ParseLineIndex(LineId(k)) == Some(k)
  {
    var d := NatToString(k);
    var id := LineId(k);
    assert id[4] == '_';
    assert forall j :: 0 <= j < 4 ==> id[j] != '_';
    assert IndexOfChar(id, '_') == 4;
    assert id[5..] == d;
    assert forall j :: 0 <= j < |d| ==> d[j] != '_' by {
      forall j | 0 <= j < |d| ensures d[j] != '_' { assert IsDigit(d[j]); }
    }
    assert IndexOfChar(d, '_') == -1;
    assert SecondField(id) == Some(d);
    assert DigitPrefixLength(d) == |d|;
    assert d[..|d|] == d;
    DigitsValueOfNatToString(k);
  }

  /** Distinct slots get distinct ids. */
  lemma LineIdInjective(a: nat, b: nat)
    ensures LineId(a) == LineId(b) <==> a == b
  {
    ParseLineIndexOfLineId(a);
    ParseLineIndexOfLineId(b);
  }
}
