/**
 JSON text: splitting it into lexemes, and writing lexemes as text.
 Characters stand for the bytes of the stream; UTF-8 is not modelled.
 */
module Lexer {
  import opened Errors
  import opened Json

  predicate IsSpace(c: char) {
    c == ' ' || c == '\t' || c == '\r' || c == '\n'
  }

  predicate IsPunct(c: char) {
    c == '{' || c == '}' || c == '[' || c == ']' || c == ':' || c == ','
  }

  /** A character that can only belong to a number or to a literal name. */
  predicate IsLit(c: char) {
    !IsSpace(c) && !IsPunct(c) && c != '\"'
  }

  function PunctKind(c: char): Kind
    requires IsPunct(c)
  {
    if c == '{' then LBrace else if c == '}' then RBrace
    else if c == '[' then LBracket else if c == ']' then RBracket
    else if c == ':' then Colon else Comma
  }

  // ------------------------------------------------------------------ strings

  predicate IsHex(c: char) {
    '0' <= c <= '9' || 'a' <= c <= 'f' || 'A' <= c <= 'F'
  }

  function HexValue(c: char): (n: nat)
    requires IsHex(c)
    ensures n < 16
  {
    if '0' <= c <= '9' then c as int - '0' as int
    else if 'a' <= c <= 'f' then c as int - 'a' as int + 10
    else c as int - 'A' as int + 10
  }

  function HexDigit(n: nat): (c: char)
    requires n < 16
    ensures IsHex(c) && HexValue(c) == n
  {
    "0123456789abcdef"[n]
  }

  predicate IsSurrogate(n: int) {
    0xD800 <= n < 0xE000
  }

  /** One character of a string body, with the number of source characters it took. */
  datatype Piece = Piece(c: char, len: nat)

  /** The character at the front of a non-empty string body, or None where the scanner stops. */
  function PieceAt(t: string): (r: Option<Piece>)
    requires t != ""
    ensures r.Some? ==> 1 <= r.value.len <= |t|
  {
    if t[0] == '\"' || t[0] < ' ' then None
    else if t[0] != '\\' then Some(Piece(t[0], 1))
    else if |t| < 2 then None
    else if t[1] == '\"' || t[1] == '\\' || t[1] == '/' then Some(Piece(t[1], 2))
    else if t[1] == 'n' then Some(Piece('\n', 2))
    else if t[1] == 'r' then Some(Piece('\r', 2))
    else if t[1] == 't' then Some(Piece('\t', 2))
    else if t[1] == 'b' then Some(Piece('\U{8}', 2))
    else if t[1] == 'f' then Some(Piece('\U{c}', 2))
    else if t[1] != 'u' || |t| < 6 || !(IsHex(t[2]) && IsHex(t[3]) && IsHex(t[4]) && IsHex(t[5])) then None
    else
      var n := ((HexValue(t[2]) * 16 + HexValue(t[3])) * 16 + HexValue(t[4])) * 16 + HexValue(t[5]);
      Some(Piece(if IsSurrogate(n) then '\U{FFFD}' else n as char, 6))
  }

  /** A decoded string body; `len` counts the source characters up to and including the closing quote. */
  datatype Decoded = Decoded(s: string, len: nat)

  function StrBody(t: string): (r: Option<Decoded>)
    ensures r.Some? ==> 1 <= r.value.len <= |t|
  {
    if t == "" then None
    else if t[0] == '\"' then Some(Decoded("", 1))
    else
      match PieceAt(t)
      case None => None
      case Some(p) =>
        match StrBody(t[p.len..])
        case None => None
        case Some(b) => Some(Decoded([p.c] + b.s, p.len + b.len))
  }

  /** The text ends inside an escape sequence that may still become valid. */
  predicate EscapeCut(t: string) {
    t != "" && t[0] == '\\' &&
    (|t| == 1 || (t[1] == 'u' && |t| < 6 && forall i :: 2 <= i < |t| ==> IsHex(t[i])))
  }

  /** The text ends before the string body does, with nothing wrong so far. */
  predicate StrCut(t: string) {
    t == "" ||
    (t[0] != '\"' && if PieceAt(t).Some? then StrCut(t[PieceAt(t).value.len..]) else EscapeCut(t))
  }

  /** encoding/json's string encoder, which also escapes what is unsafe inside HTML. */
  function EscapeChar(c: char): (t: string)
    ensures t != ""
  {
    if c == '\"' || c == '\\' then ['\\', c]
    else if c == '\n' then "\\n"
    else if c == '\r' then "\\r"
    else if c == '\t' then "\\t"
    else if c < ' ' || c == '<' || c == '>' || c == '&' then
      "\\u00" + [HexDigit(c as int / 16), HexDigit(c as int % 16)]
    else if c == '\U{2028}' then "\\u2028"
    else if c == '\U{2029}' then "\\u2029"
    else [c]
  }

  function EscapeAll(s: string): string {
    if s == "" then "" else EscapeChar(s[0]) + EscapeAll(s[1..])
  }

  function Marshal(s: string): string {
    "\"" + EscapeAll(s) + "\""
  }

  lemma {:induction false} HexEscape(a: nat, b: nat, u: string)
    requires a < 16 && b < 16
    ensures var t := "\\u00" + [HexDigit(a), HexDigit(b)];
            PieceAt(t + u) == Some(Piece((a * 16 + b) as char, 6))
  {
    var t := "\\u00" + [HexDigit(a), HexDigit(b)] + u;
    assert t[2] == '0' && t[3] == '0' && t[4] == HexDigit(a) && t[5] == HexDigit(b);
  }

  lemma {:induction false} PieceOfEscape(c: char, u: string)
    ensures PieceAt(EscapeChar(c) + u) == Some(Piece(c, |EscapeChar(c)|))
    ensures (EscapeChar(c) + u)[0] != '\"'
  {
    if c != '\n' && c != '\r' && c != '\t' && (c < ' ' || c == '<' || c == '>' || c == '&') {
      HexEscape(c as int / 16, c as int % 16, u);
    }
  }

  /** Decoding what Marshal wrote gives the string back, whatever follows. */
  lemma {:induction false} StrBodyOfMarshal(s: string, u: string)
    ensures StrBody(EscapeAll(s) + "\"" + u) == Some(Decoded(s, |EscapeAll(s)| + 1))
  {
    hide PieceAt, EscapeChar;
    var t := EscapeAll(s) + "\"" + u;
    if s != "" {
      var rest := EscapeAll(s[1..]) + "\"" + u;
      assert t == EscapeChar(s[0]) + rest;
      PieceOfEscape(s[0], rest);
      assert t[|EscapeChar(s[0])|..] == rest;
      StrBodyOfMarshal(s[1..], u);
      assert s == [s[0]] + s[1..];
    }
  }

  // ---------------------------------------------------------- names and numbers

  function DigitsLen(t: string): (n: nat)
    ensures n <= |t|
  {
    if t != "" && '0' <= t[0] <= '9' then 1 + DigitsLen(t[1..]) else 0
  }

  predicate IsExponent(t: string) {
    t == "" ||
    ((t[0] == 'e' || t[0] == 'E') &&
     var d := if |t| > 1 && (t[1] == '+' || t[1] == '-') then t[2..] else t[1..];
     d != "" && DigitsLen(d) == |d|)
  }

  predicate IsFraction(t: string) {
    if t != "" && t[0] == '.' then
      var n := DigitsLen(t[1..]);
      n > 0 && IsExponent(t[1..][n..])
    else IsExponent(t)
  }

  /** The number grammar of section 6 of RFC 8259. */
  predicate IsNumber(t: string) {
    var u := if t != "" && t[0] == '-' then t[1..] else t;
    var n := DigitsLen(u);
    n > 0 && (u[0] == '0' ==> n == 1) && IsFraction(u[n..])
  }

  predicate IsLitKind(k: Kind) {
    k.Num? || k == True || k == False || k == Null
  }

  function LitKind(t: string): (k: Kind)
    ensures k == Bad || IsLitKind(k)
  {
    if t == "true" then True
    else if t == "false" then False
    else if t == "null" then Null
    else if IsNumber(t) then Num(t)
    else Bad
  }

  /** No name or number, but the beginning of one: a digit is what every unfinished number lacks. */
  predicate LitCut(t: string) {
    t <= "true" || t <= "false" || t <= "null" || IsNumber(t + "0")
  }

  // ------------------------------------------------------------------- lexemes

  function SpaceLen(t: string): (n: nat)
    ensures n <= |t|
    ensures n < |t| ==> !IsSpace(t[n])
  {
    if t != "" && IsSpace(t[0]) then 1 + SpaceLen(t[1..]) else 0
  }

  function LitLen(t: string): (n: nat)
    ensures n <= |t|
    ensures n < |t| ==> !IsLit(t[n])
    ensures t != "" && IsLit(t[0]) ==> n > 0
    ensures n > 0 ==> IsLit(t[n - 1])
  {
    if t != "" && IsLit(t[0]) then 1 + LitLen(t[1..]) else 0
  }

  datatype Lexeme = Lexeme(kind: Kind, len: nat)

  /** What a lexeme's neighbours look like: a literal takes every literal character there is. */
  predicate Maximal(t: string, l: Lexeme)
    requires 1 <= l.len <= |t|
  {
    IsLitKind(l.kind) ==> IsLit(t[l.len - 1]) && (l.len < |t| ==> !IsLit(t[l.len]))
  }

  /** The lexeme at the front of a text that does not begin with a space. */
  function LexHere(t: string): (l: Lexeme)
    requires t != "" && !IsSpace(t[0])
    ensures 1 <= l.len <= |t| && Maximal(t, l)
  {
    if IsPunct(t[0]) then Lexeme(PunctKind(t[0]), 1)
    else if t[0] == '\"' then
      match StrBody(t[1..])
      case Some(b) => Lexeme(Str(b.s), 1 + b.len)
      case None => Lexeme(if StrCut(t[1..]) then Cut(true) else Bad, |t|)
    else
      var n := LitLen(t);
      var k := LitKind(t[..n]);
      if k != Bad then Lexeme(k, n)
      else Lexeme(if n == |t| && LitCut(t) then Cut(false) else Bad, |t|)
  }

  /** The next lexeme and the characters it takes, leading space included. */
  function LexOne(t: string): (r: Option<Lexeme>)
    ensures r.Some? ==> 1 <= r.value.len <= |t| && Maximal(t, r.value)
  {
    var n := SpaceLen(t);
    if n == |t| then None
    else
      var l := LexHere(t[n..]);
      Some(l.(len := n + l.len))
  }

  function KindsOf(t: string): Kinds {
    match LexOne(t)
    case None => []
    case Some(l) => [l.kind] + KindsOf(t[l.len..])
  }

  /** The text that is left after `j` lexemes. */
  function After(t: string, j: nat): (u: string)
    ensures |u| <= |t|
  {
    if j == 0 then t
    else
      match LexOne(t)
      case None => t
      case Some(l) => After(t[l.len..], j - 1)
  }

  lemma {:induction false} AfterIsSuffix(t: string, j: nat)
    ensures After(t, j) == t[|t| - |After(t, j)|..]
  {
    hide LexOne;
    if j > 0 && LexOne(t).Some? {
      AfterIsSuffix(t[LexOne(t).value.len..], j - 1);
    }
  }

  lemma {:induction false} KindsAfter(t: string, j: nat)
    requires j <= |KindsOf(t)|
    ensures KindsOf(After(t, j)) == KindsOf(t)[j..]
  {
    hide LexOne;
    if j == 0 {
      assert KindsOf(t)[0..] == KindsOf(t);
    } else {
      var l := LexOne(t).value;
      var ks := KindsOf(t[l.len..]);
      KindsAfter(t[l.len..], j - 1);
      assert KindsOf(t) == [l.kind] + ks;
      assert ([l.kind] + ks)[j..] == ks[j - 1..];
    }
  }

  lemma {:induction false} AfterAfter(t: string, a: nat, b: nat)
    requires a + b <= |KindsOf(t)|
    ensures After(After(t, a), b) == After(t, a + b)
  {
    hide LexOne;
    if a > 0 {
      AfterAfter(t[LexOne(t).value.len..], a - 1, b);
    }
  }

  // ------------------------------------------------------------- source text of values

  function TrimSpace(t: string): string {
    t[SpaceLen(t)..]
  }

  /** A json.RawMessage: the source of a value without its colon or comma and the space around that. */
  function RawValue(consumed: string): string {
    var separated := KindsOf(consumed) != [] && (KindsOf(consumed)[0] == Colon || KindsOf(consumed)[0] == Comma);
    TrimSpace(if separated then After(consumed, 1) else consumed)
  }

  function Consumed(t: string, left: string): string
    requires |left| <= |t|
  {
    t[..|t| - |left|]
  }

  predicate Suffix(u: string, t: string) {
    |u| <= |t| && t[|t| - |u|..] == u
  }

  lemma {:induction false} SuffixTransitive(a: string, b: string, c: string)
    requires Suffix(a, b) && Suffix(b, c)
    ensures Suffix(a, c)
  {
  }

  lemma {:induction false} AfterSuffix(t: string, j: nat)
    ensures Suffix(After(t, j), t)
  {
    hide After;
    AfterIsSuffix(t, j);
  }

  // -------------------------------------------- streams that do not end with EOF

  /** Only what follows a scalar tells that it is complete. */
  predicate MayGoOn(k: Kind) {
    k.Str? || IsLitKind(k)
  }

  /** The last lexeme is a scalar and nothing follows it, not even a space. */
  predicate EndsInScalar(t: string) {
    var n := |KindsOf(t)|;
    n > 0 && MayGoOn(KindsOf(t)[n - 1]) && After(t, n) == ""
  }

  /**
   What a decoder makes of text behind which the reader reports `end`. Only EOF completes a
   scalar at the end of the text: another error comes before the decoder knows its length.
   */
  function KindsAt(t: string, end: Error): (ks: Kinds)
    ensures |ks| == |KindsOf(t)|
  {
    var ks := KindsOf(t);
    var n := |ks| - 1;
    if end != EOF && EndsInScalar(t) then ks[..n] + [Cut(ks[n].Str?)] else ks
  }

  lemma {:induction false} KindsAtAfter(t: string, end: Error, j: nat)
    requires j <= |KindsOf(t)|
    ensures KindsAt(After(t, j), end) == KindsAt(t, end)[j..]
  {
    hide KindsOf, After, MayGoOn;
    var ks := KindsOf(t);
    KindsAfter(t, j);
    AfterAfter(t, j, |ks| - j);
    if j < |ks| {
      assert ks[j..][|ks| - j - 1] == ks[|ks| - 1];
    }
  }

  lemma {:induction false} KindsAtEof(t: string)
    ensures KindsAt(t, EOF) == KindsOf(t)
  {
  }

  /** Behind a delimiter there is nothing to wait for. */
  lemma {:induction false} KindsAtDelim(t: string, end: Error)
    requires KindsOf(t) == [] || !MayGoOn(KindsOf(t)[|KindsOf(t)| - 1])
    ensures KindsAt(t, end) == KindsOf(t)
  {
    hide KindsOf, After;
  }

  /** Lexemes that are whole are those of the text. */
  lemma {:induction false} KindsAtWhole(t: string, end: Error, j: nat)
    requires j <= |KindsOf(t)| && AllWhole(KindsAt(t, end)[..j])
    ensures KindsAt(t, end)[..j] == KindsOf(t)[..j]
  {
    hide KindsOf, After, EndsInScalar;
    var n := |KindsOf(t)|;
    if j == n && n > 0 {
      assert KindsAt(t, end)[..j][n - 1] == KindsAt(t, end)[n - 1];
    }
  }

  /** A string that was delivered is followed by something. */
  lemma {:induction false} StringIsFollowed(t: string, end: Error, j: nat)
    requires end != EOF && 0 < j <= |KindsOf(t)| && KindsAt(t, end)[j - 1].Str?
    ensures After(t, j) != ""
  {
    hide KindsOf, After;
    KindsAfter(t, j);
    if After(t, j) == "" {
      NoText();
    }
  }

  lemma {:induction false} NoText()
    ensures KindsOf("") == []
  {
  }

  // ------------------------------------------------- lexing is local to a lexeme

  lemma {:induction false} PieceLocal(t: string, u: string)
    requires t != "" && PieceAt(t).Some?
    ensures var p := PieceAt(t).value; PieceAt(t[..p.len] + u) == Some(p)
  {
    var p := PieceAt(t).value;
    var t' := t[..p.len] + u;
    assert forall i :: 0 <= i < p.len ==> t'[i] == t[i];
  }

  lemma {:induction false} StrBodyLocal(t: string, u: string)
    requires StrBody(t).Some?
    ensures var b := StrBody(t).value; StrBody(t[..b.len] + u) == Some(b)
  {
    hide PieceAt;
    var b := StrBody(t).value;
    var t' := t[..b.len] + u;
    if t[0] != '\"' {
      var p := PieceAt(t).value;
      var b' := StrBody(t[p.len..]).value;
      StrBodyLocal(t[p.len..], u);
      assert t'[p.len..] == t[p.len..][..b'.len] + u;
      PieceLocal(t, t'[p.len..]);
      assert t' == t[..p.len] + t'[p.len..];
    }
  }

  lemma {:induction false} LitLenLocal(t: string, u: string)
    requires u == "" || !IsLit(u[0])
    ensures LitLen(t[..LitLen(t)] + u) == LitLen(t)
  {
    if t != "" && IsLit(t[0]) {
      LitLenLocal(t[1..], u);
      assert (t[..LitLen(t)] + u)[1..] == t[1..][..LitLen(t[1..])] + u;
    } else {
      assert t[..0] + u == u;
    }
  }

  lemma {:induction false} SpaceLenLocal(t: string, m: nat, u: string)
    requires SpaceLen(t) < m <= |t|
    ensures SpaceLen(t[..m] + u) == SpaceLen(t)
  {
    if IsSpace(t[0]) {
      SpaceLenLocal(t[1..], m - 1, u);
      assert (t[..m] + u)[1..] == t[1..][..m - 1] + u;
    }
  }

  lemma {:induction false} LexStringLocal(t: string, u: string)
    requires t != "" && t[0] == '\"' && Whole(LexHere(t).kind)
    ensures LexHere(t[..LexHere(t).len] + u) == LexHere(t)
  {
    hide StrBody;
    var l := LexHere(t);
    var t' := t[..l.len] + u;
    StrBodyLocal(t[1..], u);
    assert t'[0] == t[0];
    assert t'[1..] == t[1..][..l.len - 1] + u;
  }

  lemma {:induction false} LexNameLocal(t: string, u: string)
    requires t != "" && IsLit(t[0]) && Whole(LexHere(t).kind)
    requires u == "" || !IsLit(u[0])
    ensures LexHere(t[..LexHere(t).len] + u) == LexHere(t)
  {
    hide LitKind;
    var l := LexHere(t);
    var t' := t[..l.len] + u;
    LitLenLocal(t, u);
    assert t'[0] == t[0];
    assert t'[..l.len] == t[..l.len];
  }

  lemma {:induction false} LexHereLocal(t: string, u: string)
    requires t != "" && !IsSpace(t[0])
    requires Whole(LexHere(t).kind)
    requires IsLitKind(LexHere(t).kind) ==> u == "" || !IsLit(u[0])
    ensures LexHere(t[..LexHere(t).len] + u) == LexHere(t)
  {
    if IsPunct(t[0]) {
      assert (t[..1] + u)[0] == t[0];
    } else if t[0] == '\"' {
      LexStringLocal(t, u);
    } else {
      hide LitKind;
      LexNameLocal(t, u);
    }
  }

  lemma {:induction false} LexLocal(t: string, u: string)
    requires LexOne(t).Some? && Whole(LexOne(t).value.kind)
    requires IsLitKind(LexOne(t).value.kind) ==> u == "" || !IsLit(u[0])
    ensures var l := LexOne(t).value; LexOne(t[..l.len] + u) == Some(l)
  {
    hide LexHere, LitKind;
    var n, l := SpaceLen(t), LexOne(t).value;
    SpaceLenLocal(t, l.len, u);
    LexHereLocal(t[n..], u);
    assert (t[..l.len] + u)[n..] == t[n..][..l.len - n] + u;
  }

  lemma {:induction false} NoLexeme(t: string)
    requires LexOne(t).None?
    ensures SpaceLen(t) == |t|
  {
  }

  lemma {:induction false} KindsSkipSpace(a: string, b: string)
    requires SpaceLen(a) == |a|
    ensures SpaceLen(a + b) == |a| + SpaceLen(b)
    ensures KindsOf(a + b) == KindsOf(b)
  {
    if a == "" {
      assert a + b == b;
    } else {
      KindsSkipSpace(a[1..], b);
      assert (a + b)[1..] == a[1..] + b;
      LexSkipSpace(a + b);
    }
  }

  lemma {:induction false} LexOneSkipSpace(t: string)
    requires t != "" && IsSpace(t[0])
    ensures LexOne(t) == match LexOne(t[1..]) case None => None case Some(l) => Some(l.(len := l.len + 1))
  {
    hide LexHere;
    var n := SpaceLen(t[1..]);
    assert t[1..][n..] == t[n + 1..];
  }

  lemma {:induction false} LexSkipSpace(t: string)
    requires t != "" && IsSpace(t[0])
    ensures KindsOf(t) == KindsOf(t[1..])
  {
    hide LexOne;
    LexOneSkipSpace(t);
    if LexOne(t).Some? {
      var n := LexOne(t).value.len;
      assert t[1..][n - 1..] == t[n..];
    }
  }

  lemma {:induction false} SpacePrefix(t: string)
    ensures SpaceLen(t[..SpaceLen(t)]) == SpaceLen(t)
  {
    var n := SpaceLen(t);
    if n > 0 {
      SpacePrefix(t[1..]);
      assert t[..n][1..] == t[1..][..n - 1];
    }
  }

  lemma {:induction false} KindsOfTrimmed(t: string)
    ensures KindsOf(TrimSpace(t)) == KindsOf(t)
  {
    hide KindsOf;
    var n := SpaceLen(t);
    SpacePrefix(t);
    KindsSkipSpace(t[..n], t[n..]);
    assert t == t[..n] + t[n..];
  }

  /** `a` and `b` may be written next to each other without two literals running together. */
  predicate Clean(a: string, b: string) {
    b == "" || !IsLit(b[0]) || a == "" || !IsLit(a[|a| - 1])
  }

  lemma {:induction false} KindsConcat(a: string, b: string)
    requires AllWhole(KindsOf(a)) && Clean(a, b)
    ensures KindsOf(a + b) == KindsOf(a) + KindsOf(b)
    decreases |a|
  {
    hide LexOne, Clean, KindsOf;
    KindsUnfold(a);
    match LexOne(a)
    case None =>
      NoLexeme(a);
      KindsSkipSpace(a, b);
    case Some(l) =>
      var rest := a[l.len..];
      AllWholeCons(l.kind, KindsOf(rest));
      CleanBehind(a, l, b);
      KindsConcat(rest, b);
      KindsCons(a, l, rest + b);
      assert a + b == a[..l.len] + (rest + b);
      assert [l.kind] + (KindsOf(rest) + KindsOf(b)) == [l.kind] + KindsOf(rest) + KindsOf(b);
  }

  lemma {:induction false} KindsUnfold(t: string)
    ensures KindsOf(t) == match LexOne(t) case None => [] case Some(l) => [l.kind] + KindsOf(t[l.len..])
  {
    hide LexOne;
  }

  lemma {:induction false} CleanBehind(a: string, l: Lexeme, b: string)
    requires LexOne(a) == Some(l) && Clean(a, b)
    ensures Clean(a[l.len..], b)
    ensures IsLitKind(l.kind) ==> a[l.len..] + b == "" || !IsLit((a[l.len..] + b)[0])
  {
    hide LexOne;
  }

  /** A whole lexeme in front of other text. */
  lemma {:induction false} KindsCons(a: string, l: Lexeme, u: string)
    requires LexOne(a) == Some(l) && Whole(l.kind) && (IsLitKind(l.kind) ==> u == "" || !IsLit(u[0]))
    ensures KindsOf(a[..l.len] + u) == [l.kind] + KindsOf(u)
  {
    hide LexOne;
    LexLocal(a, u);
    assert (a[..l.len] + u)[l.len..] == u;
  }

  lemma {:induction false} LexEmpty()
    ensures LexOne("").None?
  {
  }

  /** Cutting a text between two lexemes cuts its lexemes there. */
  lemma {:induction false} KindsBefore(t: string, j: nat)
    requires j <= |KindsOf(t)| && AllWhole(KindsOf(t)[..j])
    ensures KindsOf(t[..|t| - |After(t, j)|]) == KindsOf(t)[..j]
  {
    hide LexOne;
    if j == 0 {
      LexEmpty();
      assert t[..0] == "";
    } else {
      var l := LexOne(t).value;
      var t1 := t[l.len..];
      assert KindsOf(t)[..j] == [l.kind] + KindsOf(t1)[..j - 1];
      AllWholeCons(l.kind, KindsOf(t1)[..j - 1]);
      KindsBefore(t1, j - 1);
      var u := t1[..|t1| - |After(t1, j - 1)|];
      var cut := t[..|t| - |After(t, j)|];
      assert cut == t[..l.len] + u;
      assert cut[l.len..] == u;
      LexLocal(t, u);
    }
  }

  // ---------------------------------------------------------- writing JSON text

  function KindText(k: Kind): string {
    match k
    case LBrace => "{"
    case RBrace => "}"
    case LBracket => "["
    case RBracket => "]"
    case Colon => ":"
    case Comma => ","
    case Str(s) => Marshal(s)
    case Num(t) => t
    case True => "true"
    case False => "false"
    case Null => "null"
    case Bad => ""
    case Cut(_) => ""
  }

  function KindsText(ks: Kinds): string {
    if ks == [] then "" else KindText(ks[0]) + KindsText(ks[1..])
  }

  /** The compact text of a value, as encoding/json writes it. */
  function Print(v: Value): string {
    KindsText(Flatten(v))
  }

  /** Every number in the lexemes has the form the grammar asks for, and no lexeme is bad. */
  predicate Writable(ks: Kinds) {
    forall i :: 0 <= i < |ks| ==> WritableKind(ks[i])
  }

  predicate WritableKind(k: Kind) {
    Whole(k) && (k.Num? ==> IsNumber(k.text))
  }

  /** No two literals are next to each other. */
  predicate Spaced(ks: Kinds) {
    forall i :: 0 <= i < |ks| - 1 && IsLitKind(ks[i]) ==> !IsLitKind(ks[i + 1])
  }

  lemma {:induction false} DigitsAreLit(t: string, i: nat)
    requires i < DigitsLen(t)
    ensures IsLit(t[i])
  {
    if i > 0 {
      DigitsAreLit(t[1..], i - 1);
    }
  }

  lemma {:induction false} ExponentIsLit(t: string)
    requires IsExponent(t)
    ensures forall i :: 0 <= i < |t| ==> IsLit(t[i])
  {
    if t != "" {
      var m := if |t| > 1 && (t[1] == '+' || t[1] == '-') then 2 else 1;
      forall i | m <= i < |t| ensures IsLit(t[i]) {
        DigitsAreLit(t[m..], i - m);
      }
    }
  }

  lemma {:induction false} FractionIsLit(t: string)
    requires IsFraction(t)
    ensures forall i :: 0 <= i < |t| ==> IsLit(t[i])
  {
    if t != "" && t[0] == '.' {
      var n := DigitsLen(t[1..]);
      ExponentIsLit(t[1..][n..]);
      forall i | 0 < i < |t| ensures IsLit(t[i]) {
        if i <= n {
          DigitsAreLit(t[1..], i - 1);
        } else {
          assert t[i] == t[1..][n..][i - 1 - n];
        }
      }
    } else {
      ExponentIsLit(t);
    }
  }

  lemma {:induction false} NumberIsLit(t: string)
    requires IsNumber(t)
    ensures t != "" && forall i :: 0 <= i < |t| ==> IsLit(t[i])
  {
    hide IsFraction;
    var m := if t[0] == '-' then 1 else 0;
    var u := t[m..];
    var n := DigitsLen(u);
    FractionIsLit(u[n..]);
    forall i | m <= i < |t| ensures IsLit(t[i]) {
      if i < m + n {
        DigitsAreLit(u, i - m);
      } else {
        assert t[i] == u[n..][i - m - n];
      }
    }
  }

  lemma {:induction false} LitLenExact(t: string, u: string)
    requires forall i :: 0 <= i < |t| ==> IsLit(t[i])
    requires u == "" || !IsLit(u[0])
    ensures LitLen(t + u) == |t|
  {
    if t == "" {
      assert t + u == u;
    } else {
      LitLenExact(t[1..], u);
      assert (t + u)[1..] == t[1..] + u;
    }
  }

  lemma {:induction false} LexName(t: string, u: string)
    requires t != "" && LitKind(t) != Bad && forall i :: 0 <= i < |t| ==> IsLit(t[i])
    requires u == "" || !IsLit(u[0])
    ensures LexHere(t + u) == Lexeme(LitKind(t), |t|)
  {
    hide LitKind;
    LitLenExact(t, u);
    assert (t + u)[0] == t[0];
    assert (t + u)[..|t|] == t;
  }

  lemma {:induction false} LexString(s: string, u: string)
    ensures LexHere(Marshal(s) + u) == Lexeme(Str(s), |Marshal(s)|)
  {
    hide StrBody, EscapeAll;
    StrBodyOfMarshal(s, u);
    assert (Marshal(s) + u)[1..] == EscapeAll(s) + "\"" + u;
  }

  lemma {:induction false} NameText(k: Kind)
    requires WritableKind(k) && IsLitKind(k)
    ensures var t := KindText(k);
            t != "" && LitKind(t) == k && forall i :: 0 <= i < |t| ==> IsLit(t[i])
  {
    hide IsNumber;
    if k.Num? {
      NumberIsLit(k.text);
      NumberIsNoName(k.text);
    }
  }

  lemma {:induction false} LexText(k: Kind, u: string)
    requires WritableKind(k)
    requires IsLitKind(k) ==> u == "" || !IsLit(u[0])
    ensures var t := KindText(k);
            t != "" && !IsSpace(t[0]) && LexHere(t + u) == Lexeme(k, |t|)
  {
    hide IsNumber, LitKind, StrBody, EscapeAll;
    if k.Str? {
      LexString(k.s, u);
    } else if IsLitKind(k) {
      NameText(k);
      LexName(KindText(k), u);
    }
  }

  lemma {:induction false} NumberIsNoName(t: string)
    requires IsNumber(t)
    ensures t != "true" && t != "false" && t != "null"
  {
    var u := if t != "" && t[0] == '-' then t[1..] else t;
    assert DigitsLen(u) > 0;
  }

  /** Lexing the text of one lexeme, followed by anything, gives the lexeme back. */
  lemma {:induction false} KindsOfText(k: Kind, u: string)
    requires WritableKind(k)
    requires IsLitKind(k) ==> u == "" || !IsLit(u[0])
    ensures KindsOf(KindText(k) + u) == [k] + KindsOf(u)
  {
    hide LexHere, KindText;
    LexText(k, u);
    var t := KindText(k);
    assert SpaceLen(t + u) == 0;
    assert (t + u)[0..] == t + u;
    assert (t + u)[|t|..] == u;
  }

  lemma {:induction false} TextHead(ks: Kinds)
    requires Writable(ks) && ks != []
    ensures var t := KindsText(ks); t != "" && (IsLitKind(ks[0]) <==> IsLit(t[0]))
  {
    hide IsNumber;
    if ks[0].Num? {
      NumberIsLit(ks[0].text);
    }
  }

  /** Lexing undoes writing, for every sequence of lexemes that can be written side by side. */
  lemma {:induction false} KindsOfKindsText(ks: Kinds, u: string)
    requires Writable(ks) && Spaced(ks)
    requires ks != [] && IsLitKind(ks[|ks| - 1]) ==> u == "" || !IsLit(u[0])
    ensures KindsOf(KindsText(ks) + u) == ks + KindsOf(u)
  {
    hide KindText, KindsOf, IsNumber;
    if ks == [] {
      assert KindsText(ks) + u == u;
    } else {
      var rest := KindsText(ks[1..]) + u;
      if ks[1..] == [] {
        assert rest == u;
      } else {
        TextHead(ks[1..]);
        assert ks[1..][0] == ks[1];
      }
      KindsOfText(ks[0], rest);
      KindsOfKindsText(ks[1..], u);
      assert KindsText(ks) + u == KindText(ks[0]) + rest;
    }
  }

  lemma {:induction false} SpacedAppend(a: Kinds, b: Kinds)
    requires Spaced(a) && Spaced(b)
    requires a != [] && b != [] ==> !IsLitKind(a[|a| - 1]) || !IsLitKind(b[0])
    ensures Spaced(a + b)
  {
  }

  lemma {:induction false} SpacedFlatten(v: Value)
    ensures Spaced(Flatten(v))
    decreases v, 2
  {
    hide FlattenItems, FlattenMembers;
    match v
    case JArr(items) =>
      SpacedItems(false, items);
      SpacedInside(LBracket, FlattenItems(false, items), RBracket);
    case JObj(members) =>
      SpacedMembers(false, members);
      SpacedInside(LBrace, FlattenMembers(false, members), RBrace);
    case _ =>
  }

  lemma {:induction false} SpacedInside(open: Kind, ks: Kinds, close: Kind)
    requires Spaced(ks) && !IsLitKind(open) && !IsLitKind(close)
    ensures Spaced([open] + ks + [close])
  {
    SpacedAppend([open], ks);
    SpacedAppend([open] + ks, [close]);
  }

  lemma {:induction false} SpacedItems(lead: bool, items: seq<Value>)
    ensures Spaced(FlattenItems(lead, items))
    ensures lead && items != [] ==> FlattenItems(lead, items)[0] == Comma
    decreases items, 0
  {
    if items != [] {
      SpacedFlatten(items[0]);
      SpacedItems(true, items[1..]);
      hide Flatten, Spaced;
      SpacedSep(lead, Flatten(items[0]));
      SpacedAppend(Sep(lead) + Flatten(items[0]), FlattenItems(true, items[1..]));
    }
  }

  lemma {:induction false} SpacedSep(lead: bool, ks: Kinds)
    requires Spaced(ks)
    ensures Spaced(Sep(lead) + ks)
  {
  }

  lemma {:induction false} SpacedMember(x: Member)
    requires Spaced(Flatten(x.value))
    ensures Spaced(FlattenMember(x))
  {
    SpacedAppend([Str(x.key), Colon], Flatten(x.value));
  }

  lemma {:induction false} SpacedMembers(lead: bool, members: seq<Member>)
    ensures Spaced(FlattenMembers(lead, members))
    ensures lead && members != [] ==> FlattenMembers(lead, members)[0] == Comma
    decreases members, 0
  {
    if members != [] {
      SpacedFlatten(members[0].value);
      SpacedMembers(true, members[1..]);
      SpacedMember(members[0]);
      hide Flatten, Spaced, FlattenMember;
      SpacedSep(lead, FlattenMember(members[0]));
      SpacedAppend(Sep(lead) + FlattenMember(members[0]), FlattenMembers(true, members[1..]));
    }
  }

  /** Printing a value and lexing the text gives the lexemes of the value. */
  lemma {:induction false} KindsOfPrint(v: Value, u: string)
    requires Writable(Flatten(v))
    requires u == "" || !IsLit(u[0])
    ensures KindsOf(Print(v) + u) == Flatten(v) + KindsOf(u)
  {
    hide KindsText, KindsOf, Flatten, IsNumber;
    SpacedFlatten(v);
    KindsOfKindsText(Flatten(v), u);
  }

  /** Text behind one lexeme, as a decoder sees it. */
  lemma {:induction false} KindsAtText(k: Kind, u: string, end: Error)
    requires WritableKind(k) && (IsLitKind(k) ==> u == "" || !IsLit(u[0]))
    requires MayGoOn(k) && end != EOF ==> u != ""
    ensures KindsAt(KindText(k) + u, end) == [k] + KindsAt(u, end)
  {
    hide LexHere, KindText, KindsOf, After, EndsInScalar, MayGoOn, WritableKind, IsLit;
    KindsOfText(k, u);
    EndsInText(k, u);
    var ks := KindsOf(u);
    if ks != [] {
      var n := |ks| - 1;
      assert ([k] + ks)[n + 1] == ks[n] && ([k] + ks)[..n + 1] == [k] + ks[..n];
      assert [k] + ks[..n] + [Cut(ks[n].Str?)] == [k] + (ks[..n] + [Cut(ks[n].Str?)]);
    }
  }

  lemma {:induction false} EndsInText(k: Kind, u: string)
    requires WritableKind(k) && (IsLitKind(k) ==> u == "" || !IsLit(u[0]))
    ensures EndsInScalar(KindText(k) + u) <==>
            if KindsOf(u) == [] then MayGoOn(k) && u == "" else EndsInScalar(u)
  {
    hide LexHere, KindText, KindsOf, MayGoOn, WritableKind, IsLit;
    var t, n := KindText(k) + u, |KindsOf(u)|;
    KindsOfText(k, u);
    AfterText(k, u);
    AfterAfter(t, 1, n);
    AfterNone(u);
    hide After;
    assert After(t, n + 1) == After(u, n);
    if n > 0 {
      assert KindsOf(t)[n] == KindsOf(u)[n - 1];
    }
  }

  lemma {:induction false} AfterNone(t: string)
    ensures After(t, 0) == t
  {
  }

  lemma {:induction false} AfterText(k: Kind, u: string)
    requires WritableKind(k) && (IsLitKind(k) ==> u == "" || !IsLit(u[0]))
    ensures After(KindText(k) + u, 1) == u
  {
    hide LexHere, KindText;
    LexText(k, u);
    var t := KindText(k);
    assert SpaceLen(t + u) == 0 && (t + u)[0..] == t + u;
    assert (t + u)[|t|..] == u;
    assert After(u, 0) == u;
  }
}
