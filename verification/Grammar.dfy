/**
 What the lexer accepts, against the grammar of RFC 8259: strings (section 7) and numbers
 (section 6), and that a text counts as cut exactly when something can complete it.
 */
module Grammar {
  import opened Errors
  import opened Json
  import opened Lexer
  import opened Numerals
  import opened LexCut
  import Metadata

  // -------------------------------------------------------------------- strings

  /** A hexadecimal digit, in either case. */
  datatype Hex = Hex(n: nat, upper: bool)

  /** A character of a string body as it is written: itself, behind a backslash, or by its number. */
  datatype Written = Plain(c: char) | Short(c: char) | Numbered(h0: Hex, h1: Hex, h2: Hex, h3: Hex)

  function HexText(h: Hex): char
    requires h.n < 16
  {
    if h.upper then "0123456789ABCDEF"[h.n] else "0123456789abcdef"[h.n]
  }

  predicate IsWritten(w: Written) {
    match w
    case Plain(c) => c != '\"' && c != '\\' && c as int >= 0x20
    case Short(c) => c in "\"\\/bfnrt"
    case Numbered(a, b, c, d) => a.n < 16 && b.n < 16 && c.n < 16 && d.n < 16
  }

  function WrittenText(w: Written): string
    requires IsWritten(w)
  {
    match w
    case Plain(c) => [c]
    case Short(c) => ['\\', c]
    case Numbered(a, b, c, d) => ['\\', 'u', HexText(a), HexText(b), HexText(c), HexText(d)]
  }

  /** The character that is meant; half of a surrogate pair means the replacement character. */
  function Meant(w: Written): char
    requires IsWritten(w)
  {
    match w
    case Plain(c) => c
    case Short(c) =>
      (match c
       case 'b' => 8 as char
       case 'f' => 12 as char
       case 'n' => 10 as char
       case 'r' => 13 as char
       case 't' => 9 as char
       case _ => c)
    case Numbered(a, b, c, d) =>
      var n := a.n * 4096 + b.n * 256 + c.n * 16 + d.n;
      if 0xD800 <= n <= 0xDFFF then 0xFFFD as char else n as char
  }

  predicate AllWritten(ws: seq<Written>) {
    forall w :: w in ws ==> IsWritten(w)
  }

  function Texts(ws: seq<Written>): string
    requires AllWritten(ws)
  {
    if ws == [] then "" else WrittenText(ws[0]) + Texts(ws[1..])
  }

  function AllMeant(ws: seq<Written>): string
    requires AllWritten(ws)
  {
    if ws == [] then "" else [Meant(ws[0])] + AllMeant(ws[1..])
  }

  lemma {:induction false} HexOfText(h: Hex)
    requires h.n < 16
    ensures IsHex(HexText(h)) && HexValue(HexText(h)) == h.n
  {
    var c := HexText(h);
    assert c == if h.n < 10 then '0' + h.n as char else (if h.upper then 'A' else 'a') + (h.n - 10) as char;
  }

  /** Every digit is one in either case. */
  function HexOf(c: char): (h: Hex)
    requires IsHex(c)
    ensures h.n < 16 && HexText(h) == c
  {
    Hex(HexValue(c), 'A' <= c <= 'F')
  }

  lemma {:induction false} PieceOfNumbered(w: Written, t: string)
    requires w.Numbered? && IsWritten(w) && 6 <= |t| && t[..6] == WrittenText(w)
    ensures PieceAt(t) == Some(Piece(Meant(w), 6))
  {
    hide HexText;
    assert t[0] == t[..6][0] && t[1] == t[..6][1] && t[2] == t[..6][2];
    assert t[3] == t[..6][3] && t[4] == t[..6][4] && t[5] == t[..6][5];
    HexOfText(w.h0);
    HexOfText(w.h1);
    HexOfText(w.h2);
    HexOfText(w.h3);
  }

  lemma {:induction false} PieceOfWritten(w: Written, u: string)
    requires IsWritten(w)
    ensures PieceAt(WrittenText(w) + u) == Some(Piece(Meant(w), |WrittenText(w)|))
    ensures (WrittenText(w) + u)[0] != '\"'
  {
    hide HexText;
    var t := WrittenText(w) + u;
    match w
    case Plain(_) => assert t[0] == w.c;
    case Short(_) => assert t[0] == '\\' && t[1] == w.c;
    case Numbered(_, _, _, _) =>
      hide PieceAt, Meant;
      assert t[..6] == WrittenText(w);
      PieceOfNumbered(w, t);
  }

  /** Every piece that the scanner takes is written in one of these ways. */
  lemma {:induction false} WrittenOfPiece(t: string) returns (w: Written)
    requires t != "" && PieceAt(t).Some?
    ensures IsWritten(w) && WrittenText(w) == t[..PieceAt(t).value.len] && Meant(w) == PieceAt(t).value.c
  {
    hide HexText, HexValue;
    if t[0] != '\\' {
      w := Plain(t[0]);
    } else if t[1] != 'u' {
      w := Short(t[1]);
    } else {
      w := Numbered(HexOf(t[2]), HexOf(t[3]), HexOf(t[4]), HexOf(t[5]));
      NumberedOfPiece(w, t);
    }
  }

  lemma {:induction false} NumberedOfPiece(w: Written, t: string)
    requires |t| >= 6 && t[0] == '\\' && t[1] == 'u' && IsHex(t[2]) && IsHex(t[3]) && IsHex(t[4]) && IsHex(t[5])
    requires w == Numbered(HexOf(t[2]), HexOf(t[3]), HexOf(t[4]), HexOf(t[5]))
    ensures IsWritten(w) && WrittenText(w) == t[..6] && PieceAt(t) == Some(Piece(Meant(w), 6))
  {
    hide HexText, PieceAt, HexOf, HexValue;
    assert WrittenText(w) == t[..6];
    PieceOfNumbered(w, t);
  }

  lemma {:induction false} BodyOfTexts(ws: seq<Written>, u: string)
    requires AllWritten(ws)
    ensures StrBody(Texts(ws) + ("\"" + u)) == Some(Decoded(AllMeant(ws), |Texts(ws)| + 1))
  {
    hide PieceAt, IsWritten, WrittenText;
    var t := Texts(ws) + ("\"" + u);
    if ws != [] {
      var rest := Texts(ws[1..]) + ("\"" + u);
      assert t == WrittenText(ws[0]) + rest;
      PieceOfWritten(ws[0], rest);
      assert t[|WrittenText(ws[0])|..] == rest;
      BodyOfTexts(ws[1..], u);
    }
  }

  lemma {:induction false} TextsOfBody(t: string) returns (ws: seq<Written>)
    requires StrBody(t).Some?
    ensures AllWritten(ws) && AllMeant(ws) == StrBody(t).value.s
    ensures t[..StrBody(t).value.len] == Texts(ws) + "\""
    decreases |t|
  {
    hide PieceAt, IsWritten, WrittenText;
    if t[0] == '\"' {
      ws := [];
    } else {
      var n := PieceAt(t).value.len;
      var w := WrittenOfPiece(t);
      var rest := TextsOfBody(t[n..]);
      ws := [w] + rest;
      assert ws[1..] == rest;
      assert t[..n + StrBody(t[n..]).value.len] == t[..n] + t[n..][..StrBody(t[n..]).value.len];
    }
  }

  /** The first `n` characters are these, written one after the other, and a quote; they mean `s`. */
  predicate IsBody(ws: seq<Written>, t: string, s: string, n: nat) {
    n <= |t| && AllWritten(ws) && t[..n] == Texts(ws) + "\"" && s == AllMeant(ws)
  }

  /** A string body is decoded if and only if it is written in these ways up to a quote, and to what that means. */
  lemma {:induction false} StringGrammar(t: string, s: string, n: nat)
    ensures StrBody(t) == Some(Decoded(s, n)) <==> exists ws :: IsBody(ws, t, s, n)
  {
    hide StrBody, Texts, AllMeant, AllWritten;
    if StrBody(t) == Some(Decoded(s, n)) {
      var ws := TextsOfBody(t);
      assert IsBody(ws, t, s, n);
    }
    forall ws | IsBody(ws, t, s, n) ensures StrBody(t) == Some(Decoded(s, n)) {
      BodyOfTexts(ws, t[n..]);
      assert |t[..n]| == |Texts(ws)| + 1;
      assert t == t[..n] + t[n..] == Texts(ws) + ("\"" + t[n..]);
    }
  }

  lemma {:induction false} PieceStays(t: string, u: string)
    requires t != "" && PieceAt(t).Some?
    ensures PieceAt(t + u) == PieceAt(t)
  {
    var n := PieceAt(t).value.len;
    assert forall i :: 0 <= i < n ==> (t + u)[i] == t[i];
  }

  lemma {:induction false} CompleteEscape(t: string) returns (u: string)
    requires EscapeCut(t)
    ensures StrBody(t + u).Some? && StrBody(t + u).value.len > |t|
  {
    if |t| == 1 {
      u := "\"\"";
      assert (t + u)[2..] == "\"";
    } else {
      u := "0000"[..6 - |t|] + "\"";
      EscapeOfDigits(t + u);
    }
  }

  lemma {:induction false} EscapeOfDigits(t: string)
    requires |t| == 7 && t[0] == '\\' && t[1] == 'u' && IsHex(t[2]) && IsHex(t[3]) && IsHex(t[4]) && IsHex(t[5])
    requires t[6] == '\"'
    ensures StrBody(t).Some? && StrBody(t).value.len == 7
  {
    hide HexValue;
    assert PieceAt(t).Some? && PieceAt(t).value.len == 6;
    assert t[6..] == "\"";
  }

  lemma {:induction false} Complete(t: string) returns (u: string)
    requires StrCut(t)
    ensures StrBody(t + u).Some? && StrBody(t + u).value.len > |t|
    decreases |t|
  {
    hide PieceAt, EscapeCut;
    if t == "" {
      u := "\"";
    } else if PieceAt(t).Some? {
      var n := PieceAt(t).value.len;
      u := Complete(t[n..]);
      PieceStays(t, u);
      assert (t + u)[n..] == t[n..] + u;
    } else {
      u := CompleteEscape(t);
    }
  }

  /** A string body is cut if and only if more text can complete it. */
  lemma {:induction false} StrCutExact(t: string)
    ensures StrCut(t) <==> exists u :: StrBody(t + u).Some? && StrBody(t + u).value.len > |t|
  {
    if StrCut(t) {
      var u := Complete(t);
      assert StrBody(t + u).Some? && StrBody(t + u).value.len > |t|;
    }
    forall u | StrBody(t + u).Some? && StrBody(t + u).value.len > |t| ensures StrCut(t) {
      StringPrefix(t + u, |t|);
      assert (t + u)[..|t|] == t;
    }
  }

  // -------------------------------------------------------------------- numbers

  datatype Exponent = Exponent(letter: char, sign: string, digits: string)

  /** The parts of a number: sign, whole part, digits behind the point, and exponent. */
  datatype Number = Number(minus: bool, whole: string, fraction: Option<string>, exponent: Option<Exponent>)

  predicate SomeDigits(t: string) {
    t != "" && AllDigits(t)
  }

  predicate ExponentFits(e: Option<Exponent>) {
    e.Some? ==> e.value.letter in "eE" && e.value.sign in {"", "+", "-"} && SomeDigits(e.value.digits)
  }

  predicate FractionFits(f: Option<string>) {
    f.Some? ==> SomeDigits(f.value)
  }

  predicate IsParts(x: Number) {
    SomeDigits(x.whole) && (x.whole[0] == '0' ==> x.whole == "0") && FractionFits(x.fraction) &&
    ExponentFits(x.exponent)
  }

  function ExponentText(e: Option<Exponent>): string {
    if e.None? then "" else [e.value.letter] + e.value.sign + e.value.digits
  }

  function FractionText(f: Option<string>): string {
    if f.None? then "" else "." + f.value
  }

  function NumberText(x: Number): string {
    (if x.minus then "-" else "") + x.whole + FractionText(x.fraction) + ExponentText(x.exponent)
  }

  lemma {:induction false} DigitsThen(d: string, u: string)
    requires AllDigits(d) && (u != "" ==> !IsDigit(u[0]))
    ensures DigitsLen(d + u) == |d|
  {
    if d != "" {
      assert (d + u)[1..] == d[1..] + u;
      DigitsThen(d[1..], u);
    } else {
      assert d + u == u;
    }
  }

  lemma {:induction false} DigitsSplit(t: string)
    ensures var n := DigitsLen(t); AllDigits(t[..n]) && (n < |t| ==> !IsDigit(t[n]))
  {
    if t != "" && IsDigit(t[0]) {
      var n := DigitsLen(t[1..]);
      DigitsSplit(t[1..]);
      assert t[..n + 1] == [t[0]] + t[1..][..n];
    }
  }

  lemma {:induction false} ExponentOfText(e: Option<Exponent>)
    requires ExponentFits(e)
    ensures IsExponent(ExponentText(e))
    ensures ExponentText(e) != "" ==> !IsDigit(ExponentText(e)[0]) && ExponentText(e)[0] != '.'
  {
    if e.Some? {
      var d := e.value.digits;
      Metadata.DigitsLenExact(d);
      assert ExponentText(e)[1 + |e.value.sign|..] == d;
      assert e.value.sign == "" ==> ExponentText(e)[1] == d[0];
      assert e.value.sign != "" ==> ExponentText(e)[1] == e.value.sign[0];
    }
  }

  lemma {:induction false} TextOfExponent(t: string) returns (e: Option<Exponent>)
    requires IsExponent(t)
    ensures ExponentFits(e)
    ensures ExponentText(e) == t
  {
    if t == "" {
      e := None;
    } else {
      var n := if |t| > 1 && (t[1] == '+' || t[1] == '-') then 2 else 1;
      Metadata.DigitsLenExact(t[n..]);
      e := Some(Exponent(t[0], t[1..n], t[n..]));
      assert n == 2 ==> t[1..2] == [t[1]];
      assert t == [t[0]] + t[1..n] + t[n..];
    }
  }

  lemma {:induction false} FractionOfText(f: Option<string>, e: string)
    requires FractionFits(f) && IsExponent(e) && (e != "" ==> !IsDigit(e[0]) && e[0] != '.')
    ensures var t := FractionText(f) + e; IsFraction(t) && (t != "" ==> !IsDigit(t[0]))
  {
    hide IsExponent;
    if f.Some? {
      assert (FractionText(f) + e)[1..] == f.value + e;
      DigitsThen(f.value, e);
      assert (f.value + e)[|f.value|..] == e;
    } else {
      assert FractionText(f) + e == e;
    }
  }

  lemma {:induction false} NumberOfParts(x: Number)
    requires IsParts(x)
    ensures IsNumber(NumberText(x))
  {
    hide IsFraction, IsExponent, FractionText, ExponentText, FractionFits, ExponentFits, DigitsLen;
    var f := FractionText(x.fraction) + ExponentText(x.exponent);
    ExponentOfText(x.exponent);
    FractionOfText(x.fraction, ExponentText(x.exponent));
    var u := x.whole + f;
    DigitsThen(x.whole, f);
    assert u[|x.whole|..] == f && u[0] == x.whole[0];
    if x.minus {
      assert NumberText(x) == "-" + u;
      assert NumberText(x)[1..] == u;
    } else {
      assert NumberText(x) == u;
    }
  }

  lemma {:induction false} PartsOfFraction(t: string) returns (f: Option<string>, e: Option<Exponent>)
    requires IsFraction(t)
    ensures FractionFits(f)
    ensures ExponentFits(e)
    ensures FractionText(f) + ExponentText(e) == t
  {
    hide IsExponent;
    if t != "" && t[0] == '.' {
      var n := DigitsLen(t[1..]);
      DigitsSplit(t[1..]);
      f := Some(t[1..][..n]);
      e := TextOfExponent(t[1..][n..]);
    } else {
      f := None;
      e := TextOfExponent(t);
    }
  }

  lemma {:induction false} PartsOfNumber(t: string) returns (x: Number)
    requires IsNumber(t)
    ensures IsParts(x) && NumberText(x) == t
  {
    hide IsFraction, FractionText, ExponentText, FractionFits, ExponentFits, DigitsLen;
    var minus := t[0] == '-';
    var u := if minus then t[1..] else t;
    var n := DigitsLen(u);
    DigitsSplit(u);
    var f, e := PartsOfFraction(u[n..]);
    x := Number(minus, u[..n], f, e);
    assert x.whole[0] == u[0];
    WholeText(minus, u, n);
    PartsInOrder(x, u[n..]);
  }

  lemma {:induction false} PartsInOrder(x: Number, u: string)
    requires FractionText(x.fraction) + ExponentText(x.exponent) == u
    ensures NumberText(x) == (if x.minus then "-" else "") + (x.whole + u)
  {
    hide FractionText, ExponentText;
  }

  lemma {:induction false} WholeText(minus: bool, u: string, n: nat)
    requires n <= |u|
    ensures (if minus then "-" else "") + (u[..n] + u[n..]) == if minus then "-" + u else u
  {
  }

  /** A text is a number if and only if it is made of these parts. */
  lemma {:induction false} NumberGrammar(t: string)
    ensures IsNumber(t) <==> exists x :: IsParts(x) && NumberText(x) == t
  {
    if IsNumber(t) {
      var x := PartsOfNumber(t);
      assert IsParts(x) && NumberText(x) == t;
    }
    forall x | IsParts(x) && NumberText(x) == t ensures IsNumber(t) {
      NumberOfParts(x);
    }
  }

  /** What is no name and no number is the beginning of one if and only if more text makes it one. */
  lemma {:induction false} LitCutExact(t: string)
    requires t != "" && LitKind(t) == Bad
    ensures LitCut(t) <==> exists u :: LitKind(t + u) != Bad
  {
    hide IsNumber;
    if LitCut(t) {
      var u := if t <= "true" then "true"[|t|..] else if t <= "false" then "false"[|t|..]
               else if t <= "null" then "null"[|t|..] else "0";
      assert LitKind(t + u) != Bad;
    }
    forall u | LitKind(t + u) != Bad ensures LitCut(t) {
      if u == "" {
        assert t + u == t;
      } else {
        NamePrefix(t + u, |t|);
        assert (t + u)[..|t|] == t;
      }
    }
  }
}
