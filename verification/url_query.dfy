/**
 * The query string between the search page and the hotels endpoint: the
 * page serialises its form with `new URLSearchParams(form).toString()` and
 * the endpoint reads it back with `new URL(request.url).searchParams.get`.
 * Both follow the application/x-www-form-urlencoded serializer and parser of
 * the WHATWG URL Standard (section 5, "application/x-www-form-urlencoded").
 */
module UrlQuery {
  import opened Wrappers
  import opened JsText

  /** A name and its value, in the order they were appended. */
  type Param = (string, string)

  /** The characters the serializer leaves as they are (besides non-ASCII ones, see `EncodeChar`). */
  predicate Unreserved(c: char) {
    'a' <= c <= 'z' || 'A' <= c <= 'Z' || IsDigit(c) || c == '*' || c == '-' || c == '.' || c == '_'
  }

  predicate IsHex(c: char) {
    IsDigit(c) || 'A' <= c <= 'F' || 'a' <= c <= 'f'
  }

  function HexDigit(d: nat): (c: char)
    requires d < 16
    ensures IsHex(c) && c != '+' && c != '%'
  {
    if d < 10 then DigitChar(d) else ('A' as int + (d - 10)) as char
  }

  function HexValue(c: char): (d: nat)
    requires IsHex(c)
    ensures d < 16
  {
    if IsDigit(c) then DigitValue(c)
    else if 'A' <= c <= 'F' then c as int - 'A' as int + 10
    else c as int - 'a' as int + 10
  }

  lemma HexValueOfDigit(d: nat)
    requires d < 16
    ensures HexValue(HexDigit(d)) == d
  {
  }

  /** None of the characters that delimit a query string or end the URL's query. */
  predicate Inert(c: char) {
    c != '&' && c != '=' && c != '#'
  }

  /**
   * One character as the serializer writes it: a space as '+', another ASCII
   * character outside the unreserved set as '%' and two upper-case hex
   * digits, anything else as itself.
   */
  function EncodeChar(c: char): (e: string)
    ensures |e| > 0 && forall i :: 0 <= i < |e| ==> Inert(e[i])
  {
    if c == ' ' then "+"
    else if c as int < 128 && !Unreserved(c) then ['%', HexDigit(c as int / 16), HexDigit(c as int % 16)]
    else [c]
  }

  /** A name or value as it appears in the query string: free of '&', '=' and '#'. */
  function Encode(s: string): (e: string)
    ensures forall i :: 0 <= i < |e| ==> Inert(e[i])
  {
    if |s| == 0 then "" else EncodeChar(s[0]) + Encode(s[1..])
  }

  /**
   * The parser's percent-decoding: '+' is a space, '%' and two hex digits
   * the character with that code, anything else itself (a stray '%'
   * included).
   */
  function Decode(e: string): string {
    if |e| == 0 then ""
    else if e[0] == '+' then " " + Decode(e[1..])
    else if e[0] == '%' && |e| >= 3 && IsHex(e[1]) && IsHex(e[2]) then
      [(HexValue(e[1]) * 16 + HexValue(e[2])) as char] + Decode(e[3..])
    else [e[0]] + Decode(e[1..])
  }

  lemma DecodeEncodeChar(c: char, rest: string)
    ensures Decode(EncodeChar(c) + rest) == [c] + Decode(rest)
  {
    var e := EncodeChar(c) + rest;
    if c == ' ' {
      assert e[1..] == rest;
    } else if c as int < 128 && !Unreserved(c) {
      HexValueOfDigit(c as int / 16);
      HexValueOfDigit(c as int % 16);
      assert e[3..] == rest;
    } else {
      assert e[1..] == rest;
    }
  }

  /** Decoding undoes encoding, for every string. */
  lemma {:induction false} DecodeEncode(s: string)
    ensures Decode(Encode(s)) == s
  {
    if |s| > 0 {
      DecodeEncodeChar(s[0], Encode(s[1..]));
      DecodeEncode(s[1..]);
      assert s == [s[0]] + s[1..];
    }
  }

  /** `URLSearchParams.toString()`: each pair as `name=value`, joined by '&'. */
  function Serialize(params: seq<Param>): (q: string)
    ensures '#' !in q
  {
    if |params| == 0 then ""
    else
      var first := EncodePair(params[0]);
      if |params| == 1 then first else first + "&" + Serialize(params[1..])
  }

  /** `s` cut at the first `sep`: what precedes it, and what follows it when `sep` occurs. */
  function BreakAt(s: string, sep: char): (r: (string, Option<string>))
    ensures sep !in r.0
    ensures r.1.None? <==> sep !in s
    ensures r.1.None? ==> r.0 == s
  {
    if |s| == 0 then ("", None)
    else if s[0] == sep then ("", Some(s[1..]))
    else
      var (before, after) := BreakAt(s[1..], sep);
      ([s[0]] + before, after)
  }

  lemma {:induction false} BreakAtFirst(a: string, sep: char, b: string)
    requires sep !in a
    ensures BreakAt(a + [sep] + b, sep) == (a, Some(b))
  {
    var s := a + [sep] + b;
    if |a| > 0 {
      assert s[0] == a[0] && s[1..] == a[1..] + [sep] + b;
      BreakAtFirst(a[1..], sep, b);
      assert [a[0]] + a[1..] == a;
    } else {
      assert s[1..] == b;
    }
  }

  /** One `name=value` piece; a piece without '=' is a name with the empty value. */
  function ParsePiece(piece: string): Param {
    var (name, value) := BreakAt(piece, '=');
    (Decode(name), Decode(if value.Some? then value.value else ""))
  }

  /** The pieces in order, the empty ones skipped. */
  function ParsePieces(pieces: seq<string>): seq<Param> {
    if |pieces| == 0 then []
    else if pieces[0] == "" then ParsePieces(pieces[1..])
    else [ParsePiece(pieces[0])] + ParsePieces(pieces[1..])
  }

  /** The query string parser: split on '&', then each piece at its first '='. */
  function Parse(q: string): seq<Param> {
    ParsePieces(Split(q, '&'))
  }

  lemma ParseEncodedPair(name: string, value: string)
    ensures ParsePiece(Encode(name) + "=" + Encode(value)) == (name, value)
  {
    BreakAtFirst(Encode(name), '=', Encode(value));
    DecodeEncode(name);
    DecodeEncode(value);
  }

  /** An encoded pair is one non-empty piece: it holds no '&'. */
  function EncodePair(p: Param): (piece: string)
    ensures |piece| > 0 && '&' !in piece
  {
    var piece := Encode(p.0) + "=" + Encode(p.1);
    assert forall i :: 0 <= i < |piece| ==> piece[i] != '&' by {
      forall i | 0 <= i < |piece| ensures piece[i] != '&' {
        if i > |Encode(p.0)| {
          assert piece[i] == Encode(p.1)[i - |Encode(p.0)| - 1];
        }
      }
    }
    piece
  }

  lemma ParsePiecesCons(piece: string, more: seq<string>)
    requires piece != ""
    ensures ParsePieces([piece] + more) == [ParsePiece(piece)] + ParsePieces(more)
  {
    assert ([piece] + more)[1..] == more;
  }

  /** Parsing what the serializer wrote gives back every pair, in order. */
  lemma {:induction false} ParseSerialize(params: seq<Param>)
    ensures Parse(Serialize(params)) == params
  {
    if |params| > 0 {
      var first := EncodePair(params[0]);
      ParseEncodedPair(params[0].0, params[0].1);
      if |params| == 1 {
        SplitWithoutSeparator(first, '&');
        ParsePiecesCons(first, []);
      } else {
        var more := Serialize(params[1..]);
        assert Serialize(params) == first + "&" + more;
        SplitAfterPiece(first, '&', more);
        ParsePiecesCons(first, Split(more, '&'));
        ParseSerialize(params[1..]);
        assert params == [params[0]] + params[1..];
      }
    }
  }

  /** `searchParams.get(name)`: the value of the first pair with that name; `None` is `null`. */
  function Get(params: seq<Param>, name: string): (r: Option<string>)
    ensures r.None? <==> forall i :: 0 <= i < |params| ==> params[i].0 != name
    ensures r.Some? ==>
      exists i :: 0 <= i < |params| && params[i] == (name, r.value) && forall k :: 0 <= k < i ==> params[k].0 != name
  {
    if |params| == 0 then None
    else if params[0].0 == name then Some(params[0].1)
    else
      var r := Get(params[1..], name);
      assert forall i :: 0 <= i < |params[1..]| ==> params[1..][i] == params[i + 1];
      r
  }

  /** With names all different, each name gets its own value back. */
  lemma {:induction false} GetDistinct(params: seq<Param>, i: nat)
    requires i < |params|
    requires forall j, k :: 0 <= j < k < |params| ==> params[j].0 != params[k].0
    ensures Get(params, params[i].0) == Some(params[i].1)
  {
    if i > 0 {
      assert params[0].0 != params[i].0;
      assert params[1..][i - 1] == params[i];
      GetDistinct(params[1..], i - 1);
    }
  }

  /** The query of a URL: what follows the first '?', up to a '#'. */
  function SearchOf(url: string): string {
    var (_, query) := BreakAt(url, '?');
    if query.None? then "" else BreakAt(query.value, '#').0
  }

  /** A URL built as a path without '?', then '?' and a serialised query, has that query. */
  lemma SearchOfSerialized(path: string, params: seq<Param>)
    requires '?' !in path
    ensures SearchOf(path + "?" + Serialize(params)) == Serialize(params)
  {
    BreakAtFirst(path, '?', Serialize(params));
  }
}
