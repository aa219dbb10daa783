/** Decimal text of C++ `int` values: what `operator<<` writes for an int, and
    what `std::stoi` and `istream >> int` read back. Both readers skip leading
    white space, accept one optional sign and then the longest run of digits,
    and fail when there is no digit or the value does not fit in a 32-bit int. */
module Decimal {

  datatype Option<T> = None | Some(value: T)

  const IntMin: int := -0x8000_0000
  const IntMax: int := 0x7FFF_FFFF

  predicate IsInt32(v: int) { IntMin <= v <= IntMax }

  /** `isspace` in the C locale: space, \t, \n, \v, \f and \r. */
  predicate IsSpace(c: char) {
    c == ' ' || c == '\t' || c == '\n' || c == '\U{B}' || c == '\U{C}' || c == '\r'
  }

  predicate IsDigit(c: char) { '0' <= c <= '9' }

  predicate AllDigits(s: string) { forall i :: 0 <= i < |s| ==> IsDigit(s[i]) }

  function DigitChar(d: nat): (c: char)
    requires d < 10
    ensures IsDigit(c) && c as int - '0' as int == d
  {
    (('0' as int) + d) as char
  }

  function DigitValue(c: char): nat
    requires IsDigit(c)
  {
    c as int - '0' as int
  }

  /** What `operator<<` writes for the int `v`: a '-' for a negative value,
      then the decimal digits, most significant first, without leading
      zeros. */
  function Show(v: int): (s: string)
    ensures |s| >= 1
    decreases if v < 0 then 1 - 2 * v else 2 * v
  {
    if v < 0 then "-" + Show(-v)
    else if v < 10 then [DigitChar(v)]
    else Show(v / 10) + [DigitChar(v % 10)]
  }

  /** The number a run of digits denotes. */
  function ValueOf(ds: string): nat
    requires AllDigits(ds)
  {
    if ds == [] then 0 else ValueOf(ds[..|ds| - 1]) * 10 + DigitValue(ds[|ds| - 1])
  }

  /** The number of white-space characters at the front of `s`. */
  function LeadingSpaces(s: string): (n: nat)
    ensures n <= |s|
    ensures forall i :: 0 <= i < n ==> IsSpace(s[i])
    ensures n < |s| ==> !IsSpace(s[n])
  {
    if s != [] && IsSpace(s[0]) then 1 + LeadingSpaces(s[1..]) else 0
  }

  /** The number of digits at the front of `s`. */
  function LeadingDigits(s: string): (n: nat)
    ensures n <= |s|
    ensures AllDigits(s[..n])
    ensures n < |s| ==> !IsDigit(s[n])
  {
    if s != [] && IsDigit(s[0]) then
      var n := 1 + LeadingDigits(s[1..]);
      assert s[..n] == [s[0]] + s[1..][..n - 1];
      n
    else 0
  }

  /** Reads an optional sign and a run of digits from the very front of `s`:
      None when no digit follows the sign, or when the value is outside the int
      range; otherwise the value and the number of characters consumed. */
  function ReadSigned(s: string): (r: Option<(int, nat)>)
    ensures r.Some? ==> 0 < r.value.1 <= |s| && IsInt32(r.value.0)
  {
    var signed := s != [] && (s[0] == '-' || s[0] == '+');
    var j := if signed then 1 else 0;
    var d := LeadingDigits(s[j..]);
    if d == 0 then None
    else
      assert s[j..][..d] == s[j..j + d];
      var m: int := ValueOf(s[j..j + d]);
      var v: int := if signed && s[0] == '-' then -m else m;
      if IsInt32(v) then Some((v, j + d)) else None
  }

  /** Reads one int from the front of `s`, after any white space: None when
      no digit follows the white space and the optional sign, or when the
      value is outside the int range; otherwise the value and the number of
      characters consumed. */
  function ReadInt(s: string): (r: Option<(int, nat)>)
    ensures r.Some? ==> 0 < r.value.1 <= |s| && IsInt32(r.value.0)
  {
    var i := LeadingSpaces(s);
    match ReadSigned(s[i..])
    case None => None
    case Some((v, n)) => Some((v, i + n))
  }

  /** `std::stoi`: the value `ReadInt` finds, failing (throwing, in C++) when
      it finds none. */
  function Stoi(s: string): (r: Option<int>)
    ensures r.Some? ==> IsInt32(r.value)
  {
    match ReadInt(s)
    case None => None
    case Some((v, _)) => Some(v)
  }

  /** The values as `operator<<` writes them, one text per value. */
  function ShowAll(vs: seq<int>): (ts: seq<string>)
    ensures |ts| == |vs| && forall k :: 0 <= k < |vs| ==> ts[k] == Show(vs[k])
  {
    seq(|vs|, k requires 0 <= k < |vs| => Show(vs[k]))
  }

  lemma ShowAllCons(vs: seq<int>)
    requires vs != []
    ensures ShowAll(vs) == [Show(vs[0])] + ShowAll(vs[1..])
  {
    var ts, tail := ShowAll(vs), ShowAll(vs[1..]);
    assert forall k :: 1 <= k < |ts| ==> ts[k] == tail[k - 1];
  }

  /** A non-negative value is written as digits that denote it. */
  lemma {:induction false} ShowNat(n: nat)
    ensures AllDigits(Show(n)) && ValueOf(Show(n)) == n
    decreases n
  {
    if n < 10 {
      assert Show(n)[..0] == [];
    } else {
      var s := Show(n);
      ShowNat(n / 10);
      assert s[..|s| - 1] == Show(n / 10);
    }
  }

  /** What `operator<<` writes holds no white space. */
  lemma ShowNoSpace(v: int)
    ensures forall i :: 0 <= i < |Show(v)| ==> !IsSpace(Show(v)[i])
  {
    if v < 0 {
      var ds := Show(-v);
      ShowNat(-v);
      assert Show(v) == "-" + ds;
      forall i | 0 <= i < |Show(v)|
        ensures !IsSpace(Show(v)[i])
      {
        if i > 0 {
          assert Show(v)[i] == ds[i - 1];
        }
      }
    } else {
      ShowNat(v);
    }
  }

  lemma {:induction false} LeadingDigitsOfRun(ds: string, rest: string)
    requires AllDigits(ds)
    requires rest == [] || !IsDigit(rest[0])
    ensures LeadingDigits(ds + rest) == |ds|
    decreases |ds|
  {
    if ds != [] {
      assert (ds + rest)[1..] == ds[1..] + rest;
      LeadingDigitsOfRun(ds[1..], rest);
    }
  }

  /** Reading back what `operator<<` wrote gives the value, and stops right
      after the last digit. */
  lemma ReadShow(v: int, rest: string)
    requires IsInt32(v)
    requires rest == [] || !IsDigit(rest[0])
    ensures ReadInt(Show(v) + rest) == Some((v, |Show(v)|))
  {
    var s := Show(v) + rest;
    ReadSignedShow(v, rest);
    ShowFirst(v);
    assert s[0] == Show(v)[0];
    assert LeadingSpaces(s) == 0;
    assert s[0..] == s;
  }

  /** What `operator<<` writes starts with '-' or a digit. */
  lemma ShowFirst(v: int)
    ensures Show(v)[0] == '-' || IsDigit(Show(v)[0])
  {
    if v >= 0 {
      ShowNat(v);
    }
  }

  lemma ReadSignedShow(v: int, rest: string)
    requires IsInt32(v)
    requires rest == [] || !IsDigit(rest[0])
    ensures ReadSigned(Show(v) + rest) == Some((v, |Show(v)|))
  {
    if v < 0 {
      var ds := Show(-v);
      ShowNat(-v);
      LeadingDigitsOfRun(ds, rest);
      NegativeRead(ds, rest, v);
      assert Show(v) == "-" + ds;
      assert Show(v) + rest == "-" + ds + rest;
    } else {
      var ds := Show(v);
      ShowNat(v);
      LeadingDigitsOfRun(ds, rest);
      PositiveRead(ds, rest, v);
    }
  }

  lemma NegativeRead(ds: string, rest: string, v: int)
    requires v < 0 && IsInt32(v) && AllDigits(ds) && ValueOf(ds) == -v
    requires LeadingDigits(ds + rest) == |ds| && |ds| > 0
    ensures ReadSigned("-" + ds + rest) == Some((v, 1 + |ds|))
  {
    var s := "-" + ds + rest;
    assert s[1..] == ds + rest;
    assert s[1..1 + |ds|] == ds;
  }

  lemma PositiveRead(ds: string, rest: string, v: int)
    requires 0 <= v && IsInt32(v) && AllDigits(ds) && ValueOf(ds) == v
    requires LeadingDigits(ds + rest) == |ds| && |ds| > 0
    ensures ReadSigned(ds + rest) == Some((v, |ds|))
  {
    var s := ds + rest;
    assert s[0] == ds[0];
    assert s[0..] == s;
    assert s[0..|ds|] == ds;
  }

  lemma StoiShow(v: int)
    requires IsInt32(v)
    ensures Stoi(Show(v)) == Some(v)
  {
    ReadShow(v, []);
    assert Show(v) + [] == Show(v);
  }
}
