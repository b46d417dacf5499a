/**
 The token machine of encoding/json's Decoder as a pure state machine over lexemes:
 `Token`, `Decode` and `More`, with the container state that decides where a comma,
 a colon, a key or a value may stand.
 */
module Decoding {
  import opened Errors
  import opened Json

  datatype TokState =
    | TopValue
    | ArrayStart | ArrayValue | ArrayComma
    | ObjectStart | ObjectKey | ObjectColon | ObjectValue | ObjectComma

  datatype Token = Delim(d: char) | Text(s: string) | Scalar(v: Value)

  /**
   `rest` is what has not been consumed, `end` the error that the reader reports behind it,
   `failed` the scanner error that every later Decode repeats.
   */
  datatype Dec = Dec(rest: Kinds, end: Error, st: TokState, stack: seq<TokState>, failed: Option<Error>)

  datatype Step<+T> = Step(res: Result<T>, dec: Dec)

  function NewDec(rest: Kinds, end: Error): Dec {
    Dec(rest, end, TopValue, [], None)
  }

  predicate ValueAllowed(st: TokState) {
    st == TopValue || st == ArrayStart || st == ArrayValue || st == ObjectValue
  }

  /** The state behind a completed value. */
  function ValueEnd(st: TokState): TokState {
    if st == ArrayStart || st == ArrayValue then ArrayComma
    else if st == ObjectValue then ObjectComma
    else st
  }

  predicate More(d: Dec) {
    d.rest != [] && d.rest[0] != RBracket && d.rest[0] != RBrace
  }

  function Skip(d: Dec, st: TokState): Dec
    requires d.rest != []
  {
    d.(rest := d.rest[1..], st := st)
  }

  function Open(d: Dec, st: TokState): Dec
    requires d.rest != []
  {
    d.(rest := d.rest[1..], st := st, stack := d.stack + [d.st])
  }

  function Close(d: Dec): Dec
    requires d.rest != [] && d.stack != []
  {
    d.(rest := d.rest[1..],
       st := ValueEnd(d.stack[|d.stack| - 1]),
       stack := d.stack[..|d.stack| - 1])
  }

  predicate InArray(d: Dec) {
    d.stack != [] && (d.st == ArrayStart || d.st == ArrayComma)
  }

  predicate InObject(d: Dec) {
    d.stack != [] && (d.st == ObjectStart || d.st == ObjectComma)
  }

  /** Consumes the comma or colon that must stand before the value, if one must. */
  function Prepare(d: Dec): (r: Result<Dec>)
    ensures r.Ok? ==> |r.value.rest| <= |d.rest| && r.value.end == d.end
    ensures r.Ok? && ValueAllowed(d.st) ==> r.value == d
  {
    if d.st == ArrayComma then
      if d.rest == [] then Err(d.end)
      else if d.rest[0] != Comma then Err(SyntaxError)
      else Ok(Skip(d, ArrayValue))
    else if d.st == ObjectColon then
      if d.rest == [] then Err(d.end)
      else if d.rest[0] != Colon then Err(SyntaxError)
      else Ok(Skip(d, ObjectValue))
    else Ok(d)
  }

  /** What Decode reports when the stream ends before a value does. */
  function CutShort(d: Dec): Error {
    if d.end != EOF then d.end else if d.rest == [] then EOF else UnexpectedEOF
  }

  function DecodeHere(d: Dec): (s: Step<Value>)
    ensures s.res.Ok? ==> |s.dec.rest| < |d.rest|
    ensures |s.dec.rest| <= |d.rest| && s.dec.end == d.end
  {
    if !ValueAllowed(d.st) then Step(Err(SyntaxError), d)
    else
      match ScanValue(d.rest)
      case Done(v, rest) => Step(Ok(v), d.(rest := rest, st := ValueEnd(d.st)))
      case Incomplete => Step(Err(CutShort(d)), d.(failed := Some(CutShort(d))))
      case Malformed => Step(Err(SyntaxError), d.(failed := Some(SyntaxError)))
  }

  function DecodeStep(d: Dec): (s: Step<Value>)
    ensures s.res.Ok? ==> |s.dec.rest| < |d.rest|
    ensures |s.dec.rest| <= |d.rest| && s.dec.end == d.end
  {
    if d.failed.Some? then Step(Err(d.failed.value), d)
    else
      match Prepare(d)
      case Err(e) => Step(Err(e), d)
      case Ok(d') => DecodeHere(d')
  }

  function TokenStep(d: Dec): (s: Step<Token>)
    ensures s.res.Ok? ==> |s.dec.rest| < |d.rest|
    ensures |s.dec.rest| <= |d.rest| && s.dec.end == d.end
    decreases |d.rest|
  {
    if d.rest == [] then Step(Err(d.end), d)
    else
      match d.rest[0]
      case LBracket =>
        if ValueAllowed(d.st) then Step(Ok(Delim('[')), Open(d, ArrayStart)) else Step(Err(SyntaxError), d)
      case LBrace =>
        if ValueAllowed(d.st) then Step(Ok(Delim('{')), Open(d, ObjectStart)) else Step(Err(SyntaxError), d)
      case RBracket =>
        if InArray(d) then Step(Ok(Delim(']')), Close(d)) else Step(Err(SyntaxError), d)
      case RBrace =>
        if InObject(d) then Step(Ok(Delim('}')), Close(d)) else Step(Err(SyntaxError), d)
      case Colon =>
        if d.st == ObjectColon then TokenStep(Skip(d, ObjectValue)) else Step(Err(SyntaxError), d)
      case Comma =>
        if d.st == ArrayComma then TokenStep(Skip(d, ArrayValue))
        else if d.st == ObjectComma then TokenStep(Skip(d, ObjectKey))
        else Step(Err(SyntaxError), d)
      case Str(s) =>
        if d.st == ObjectStart || d.st == ObjectKey then
          if d.failed.Some? then Step(Err(d.failed.value), d)
          else Step(Ok(Text(s)), Skip(d, ObjectColon))
        else ScalarStep(d)
      case Cut(_) =>
        if d.rest[0].str && (d.st == ObjectStart || d.st == ObjectKey) then BrokenKey(d) else ScalarStep(d)
      case _ => ScalarStep(d)
  }

  /** A key that the input breaks off in. */
  function BrokenKey(d: Dec): Step<Token> {
    if d.failed.Some? then Step(Err(d.failed.value), d)
    else Step(Err(CutShort(d)), d.(failed := Some(CutShort(d))))
  }

  function ScalarStep(d: Dec): (s: Step<Token>)
    ensures s.res.Ok? ==> |s.dec.rest| < |d.rest|
    ensures |s.dec.rest| <= |d.rest| && s.dec.end == d.end
  {
    if !ValueAllowed(d.st) then Step(Err(SyntaxError), d)
    else
      var s := DecodeStep(d);
      match s.res
      case Err(e) => Step(Err(e), s.dec)
      case Ok(v) => Step(Ok(if v.JStr? then Text(v.s) else Scalar(v)), s.dec)
  }

  // --------------------------------------------------- only a prefix is consumed

  predicate IsRest(d: Dec, d': Dec) {
    |d'.rest| <= |d.rest| && d'.rest == d.rest[|d.rest| - |d'.rest|..]
  }

  lemma {:induction false} DecodeHereIsRest(d: Dec)
    ensures IsRest(d, DecodeHere(d).dec)
  {
    hide ScanItems, ScanMembers;
    if ValueAllowed(d.st) && ScanValue(d.rest).Done? {
      ScanSound(d.rest);
    }
  }

  lemma {:induction false} PrepareIsRest(d: Dec)
    requires Prepare(d).Ok?
    ensures IsRest(d, Prepare(d).value)
  {
  }

  lemma {:induction false} IsRestTransitive(d0: Dec, d1: Dec, d2: Dec)
    requires IsRest(d0, d1) && IsRest(d1, d2)
    ensures IsRest(d0, d2)
  {
  }

  lemma {:induction false} DecodeIsRest(d: Dec)
    ensures IsRest(d, DecodeStep(d).dec)
  {
    hide DecodeHere, Prepare;
    if d.failed.None? && Prepare(d).Ok? {
      PrepareIsRest(d);
      var d1 := Prepare(d).value;
      DecodeHereIsRest(d1);
      IsRestTransitive(d, d1, DecodeHere(d1).dec);
    }
  }

  lemma {:induction false} ScalarIsRest(d: Dec)
    ensures IsRest(d, ScalarStep(d).dec) && IsRest(d, BrokenKey(d).dec) && IsRest(d, d)
  {
    hide DecodeStep;
    DecodeIsRest(d);
  }

  lemma {:induction false} SkipIsRest(d: Dec, st: TokState, d': Dec)
    requires d.rest != [] && IsRest(Skip(d, st), d')
    ensures IsRest(d, d')
  {
  }

  lemma {:induction false} TokenIsRest(d: Dec)
    ensures IsRest(d, TokenStep(d).dec)
    decreases |d.rest|
  {
    hide ScalarStep, BrokenKey, IsRest;
    ScalarIsRest(d);
    if d.rest != [] {
      if d.rest[0] == Colon && d.st == ObjectColon {
        TokenIsRest(Skip(d, ObjectValue));
        SkipIsRest(d, ObjectValue, TokenStep(d).dec);
      } else if d.rest[0] == Comma && (d.st == ArrayComma || d.st == ObjectComma) {
        var st := if d.st == ArrayComma then ArrayValue else ObjectKey;
        TokenIsRest(Skip(d, st));
        SkipIsRest(d, st, TokenStep(d).dec);
      } else {
        OneIsRest(d);
      }
    }
  }

  lemma {:induction false} OneIsRest(d: Dec)
    requires d.rest != []
    ensures d.stack != [] ==> IsRest(d, Close(d))
    ensures forall st :: IsRest(d, Skip(d, st)) && IsRest(d, Open(d, st))
  {
  }
}
