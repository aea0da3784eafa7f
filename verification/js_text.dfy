/**
 * The few JavaScript string operations the routes and the page depend on:
 * truthiness of an optional string field, `parseInt(s, 10)`, and
 * `String.prototype.split` on a single separator character.
 */
module JsText {
  import opened Wrappers

  /** `!!x` for a field that is a string or missing: `undefined`, `null` and "" are falsy. */
  predicate Truthy(o: Option<string>) {
    o.Some? && o.value != ""
  }

  predicate IsDigit(c: char) {
    '0' <= c <= '9'
  }

  predicate AllDigits(s: string) {
    forall i :: 0 <= i < |s| ==> IsDigit(s[i])
  }

  /** The white space `parseInt` skips before the number (the ASCII part of it). */
  predicate IsSpace(c: char) {
    c == ' ' || c == '\t' || c == '\n' || c == '\r' || c as int == 11 || c as int == 12
  }

  function DigitValue(c: char): (d: nat)
    requires IsDigit(c)
    ensures d < 10
  {
    c as int - '0' as int
  }

  function DigitChar(d: nat): (c: char)
    requires d < 10
    ensures IsDigit(c) && DigitValue(c) == d
  {
    ('0' as int + d) as char
  }

  /** The value of a string of decimal digits, most significant first. */
  function DigitsValue(ds: string): nat
    requires AllDigits(ds)
  {
    if |ds| == 0 then 0 else DigitsValue(ds[..|ds| - 1]) * 10 + DigitValue(ds[|ds| - 1])
  }

  /** `s` without its leading white space. */
  function TrimStart(s: string): (r: string)
    ensures |r| <= |s| && r == s[|s| - |r|..]
    ensures forall i :: 0 <= i < |s| - |r| ==> IsSpace(s[i])
    ensures |r| > 0 ==> !IsSpace(r[0])
  {
    if |s| > 0 && IsSpace(s[0]) then TrimStart(s[1..]) else s
  }

  /** Length of the longest prefix of `s` made of decimal digits. */
  function DigitRun(s: string): (n: nat)
    ensures n <= |s|
    ensures AllDigits(s[..n])
    ensures n < |s| ==> !IsDigit(s[n])
  {
    if |s| > 0 && IsDigit(s[0]) then
      var n := 1 + DigitRun(s[1..]);
      assert s[..n] == [s[0]] + s[1..][..n - 1];
      n
    else 0
  }

  /**
   * JavaScript `parseInt(s, 10)`: skip leading white space, read an optional
   * sign, then the longest run of digits; anything after it is ignored.
   * `None` is `NaN` (no digit where the number should start).
   */
  function ParseInt(s: string): (r: Option<int>)
    ensures r.Some? ==> exists i :: 0 <= i < |s| && IsDigit(s[i])
  {
    var t := TrimStart(s);
    var signed := |t| > 0 && (t[0] == '-' || t[0] == '+');
    var u := if signed then t[1..] else t;
    match ReadDigits(u)
    case None => None
    case Some(digits) =>
      assert u[0] == s[|s| - |u|];
      var magnitude: int := digits;
      Some(if signed && t[0] == '-' then -magnitude else magnitude)
  }

  /** The value of the digit run `u` starts with; `None` when it does not start with a digit. */
  function ReadDigits(u: string): (r: Option<nat>)
    ensures r.Some? ==> |u| > 0 && IsDigit(u[0])
  {
    var n := DigitRun(u);
    if n == 0 then None else Some(DigitsValue(u[..n]))
  }

  /** `Number.MAX_SAFE_INTEGER`, 2^53 - 1: every integer up to it is exactly a double. */
  const MAX_SAFE_INTEGER: int := 0x1F_FFFF_FFFF_FFFF

  /** Shortest decimal spelling of `n`; the inverse of `DigitsValue`. */
  function NatToString(n: nat): (ds: string)
    ensures |ds| > 0 && AllDigits(ds)
  {
    if n < 10 then [DigitChar(n)] else NatToString(n / 10) + [DigitChar(n % 10)]
  }

  /** What `String(n)` prints for an integer. */
  function IntToString(n: int): (s: string)
    ensures |s| > 0 && (IsDigit(s[0]) || s[0] == '-')
  {
    if n < 0 then "-" + NatToString(-n) else NatToString(n)
  }

  lemma {:induction false} DigitsValueOfNatToString(n: nat)
    ensures DigitsValue(NatToString(n)) == n
  {
    if n >= 10 {
      var p := NatToString(n / 10);
      var ds := p + [DigitChar(n % 10)];
      assert ds[..|ds| - 1] == p;
      DigitsValueOfNatToString(n / 10);
    }
  }

  lemma {:induction false} DigitRunStopsAtNonDigit(ds: string, rest: string)
    requires AllDigits(ds)
    requires |rest| == 0 || !IsDigit(rest[0])
    ensures DigitRun(ds + rest) == |ds|
  {
    if |ds| > 0 {
      assert (ds + rest)[1..] == ds[1..] + rest;
      DigitRunStopsAtNonDigit(ds[1..], rest);
    }
  }

  lemma TrimStartNoSpace(s: string)
    requires |s| > 0 && !IsSpace(s[0])
    ensures TrimStart(s) == s
  {
  }

  /** After the sign, `parseInt` reads exactly the printed digits. */
  lemma {:induction false} DigitsReadBack(m: nat, rest: string)
    requires |rest| == 0 || !IsDigit(rest[0])
    ensures ReadDigits(NatToString(m) + rest) == Some(m)
  {
    var ds := NatToString(m);
    DigitRunStopsAtNonDigit(ds, rest);
    assert (ds + rest)[..|ds|] == ds;
    DigitsValueOfNatToString(m);
  }

  /** An unsigned number: `parseInt` reads its digit run. */
  lemma ParseIntUnsigned(u: string, m: nat)
    requires ReadDigits(u) == Some(m)
    ensures ParseInt(u) == Some(m)
  {
    TrimStartNoSpace(u);
  }

  /** A minus sign, then a number: `parseInt` reads the negated digit run. */
  lemma ParseIntNegative(u: string, m: nat)
    requires ReadDigits(u) == Some(m)
    ensures ParseInt("-" + u) == Some(-(m as int))
  {
    var s := "-" + u;
    TrimStartNoSpace(s);
    assert s[1..] == u;
  }

  lemma ConcatAssoc(a: string, b: string, c: string)
    ensures (a + b) + c == a + (b + c)
  {
  }

  /**
   * `parseInt` reads back what `String(n)` printed, whatever follows it as long
   * as it does not continue the digit run ("4", "4 stars", "-12abc"). Only
   * safe integers are claimed: beyond them JavaScript rounds the value read
   * to a double, which `ParseInt` does not model.
   */
  lemma ParseIntOfPrinted(n: int, rest: string)
    requires -MAX_SAFE_INTEGER <= n <= MAX_SAFE_INTEGER
    requires |rest| == 0 || !IsDigit(rest[0])
    ensures ParseInt(IntToString(n) + rest) == Some(n)
  {
    if n < 0 {
      var ds := NatToString(-n);
      DigitsReadBack(-n, rest);
      ParseIntNegative(ds + rest, -n);
      assert IntToString(n) == "-" + ds;
      ConcatAssoc("-", ds, rest);
    } else {
      DigitsReadBack(n, rest);
      ParseIntUnsigned(NatToString(n) + rest, n);
    }
  }

  /** A string with no digit at all parses to `NaN`. */
  lemma ParseIntWithoutDigits(s: string)
    requires forall i :: 0 <= i < |s| ==> !IsDigit(s[i])
    ensures ParseInt(s) == None
  {
  }

  /**
   * `s.split(sep)` for a one-character separator: the pieces between
   * separators, in order. Like JavaScript, "" splits into [""] and a string
   * without the separator into [s].
   */
  function Split(s: string, sep: char): (pieces: seq<string>)
    ensures |pieces| >= 1
    ensures forall i :: 0 <= i < |pieces| ==> sep !in pieces[i]
  {
    if |s| == 0 then [""]
    else if s[0] == sep then [""] + Split(s[1..], sep)
    else
      var rest := Split(s[1..], sep);
      [[s[0]] + rest[0]] + rest[1..]
  }

  /** `pieces.join(sep)`, the inverse of `Split`. */
  function Join(pieces: seq<string>, sep: char): string
    requires |pieces| >= 1
  {
    if |pieces| == 1 then pieces[0] else pieces[0] + [sep] + Join(pieces[1..], sep)
  }

  lemma {:induction false} JoinConsChar(c: char, first: string, more: seq<string>, sep: char)
    ensures Join([[c] + first] + more, sep) == [c] + Join([first] + more, sep)
  {
    var a := [[c] + first] + more;
    var b := [first] + more;
    assert a[0] == [c] + b[0] && a[1..] == b[1..];
  }

  /** Splitting loses nothing: joining the pieces back gives the original string. */
  lemma {:induction false} JoinSplit(s: string, sep: char)
    ensures Join(Split(s, sep), sep) == s
  {
    if |s| > 0 {
      var rest := Split(s[1..], sep);
      JoinSplit(s[1..], sep);
      if s[0] == sep {
        assert ([""] + rest)[1..] == rest;
      } else {
        assert rest == [rest[0]] + rest[1..];
        JoinConsChar(s[0], rest[0], rest[1..], sep);
      }
      assert s == [s[0]] + s[1..];
    }
  }

  /** What follows the second piece of a split: nothing, or the separator and the later pieces. */
  function AfterSecondPiece(pieces: seq<string>, sep: char): string
    requires |pieces| >= 2
  {
    if |pieces| == 2 then [] else [sep] + Join(pieces[2..], sep)
  }

  /**
   * The first two pieces of a split, in the string: the first piece, the
   * separator, the second piece, then nothing or the separator and the rest.
   */
  lemma {:induction false} SplitFirstTwo(s: string, sep: char)
    requires |Split(s, sep)| >= 2
    ensures var p := Split(s, sep);
      var rest := AfterSecondPiece(p, sep);
      s == p[0] + [sep] + p[1] + rest && (|rest| == 0 || rest[0] == sep)
  {
    var p := Split(s, sep);
    JoinSplit(s, sep);
    var tail := p[1..];
    assert Join(p, sep) == p[0] + [sep] + Join(tail, sep);
    if |tail| > 1 {
      assert tail[1..] == p[2..];
    }
    assert Join(tail, sep) == p[1] + AfterSecondPiece(p, sep);
  }

  /** A piece free of the separator, then the separator, splits off as the first piece. */
  lemma {:induction false} SplitAfterPiece(piece: string, sep: char, rest: string)
    requires sep !in piece
    ensures Split(piece + [sep] + rest, sep) == [piece] + Split(rest, sep)
  {
    if |piece| > 0 {
      var s := piece + [sep] + rest;
      assert s[0] == piece[0] && s[1..] == piece[1..] + [sep] + rest;
      SplitAfterPiece(piece[1..], sep, rest);
      assert [piece[0]] + piece[1..] == piece;
    } else {
      assert piece + [sep] + rest == [sep] + rest;
    }
  }

  /** A string free of the separator is a single piece. */
  lemma {:induction false} SplitWithoutSeparator(s: string, sep: char)
    requires sep !in s
    ensures Split(s, sep) == [s]
  {
    if |s| > 0 {
      assert sep !in s[1..];
      SplitWithoutSeparator(s[1..], sep);
      assert [s[0]] + s[1..] == s;
    }
  }
}
