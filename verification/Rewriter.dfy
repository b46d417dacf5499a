/**
 copyWithAttachmentStubs (db.go): a streaming rewrite of a JSON document that replaces the
 value of its first `_attachments` member and writes every key it meets before that
 without escaping it.
 */
module Rewriter {
  import opened Errors
  import opened Json
  import opened Lexer
  import opened Decoding
  import opened IterSpec
  import opened Members
  import opened Envelope
  import opened IterTheorems
  import opened Stream

  const ATTACHMENTS := "_attachments"

  /** fmt's `"%s":` does not escape anything. */
  function KeyText(key: string): string {
    "\"" + key + "\":"
  }

  datatype Copied = Copied(out: string, err: Option<Error>)

  function Prepend(s: string, c: Copied): Copied {
    c.(out := s + c.out)
  }

  function CopyLoop(d: Dec, t: string, first: bool, stubs: string): Copied
    requires d.rest == KindsAt(t, d.end)
    decreases |d.rest|
  {
    hide KindsOf, KindsAt, After, DecodeStep, TokenStep, RawValue;
    var s := TokenStep(d);
    var j := |d.rest| - |s.dec.rest|;
    var t1 := After(t, j);
    AfterToken(d, t);
    match s.res
    case Err(e) =>
      if e == EOF then Copied("", None) else Copied("", Some(BadRequest(e)))
    case Ok(Delim(x)) =>
      if x == '}' then Prepend("}", CopyLoop(s.dec, t1, first, stubs)) else Copied("", Some(UnexpectedToken))
    case Ok(Scalar(_)) =>
      CopyLoop(s.dec, t1, first, stubs)
    case Ok(Text(key)) =>
      var head := (if first then "" else ",") + KeyText(key);
      var v := DecodeStep(s.dec);
      var t2 := After(t1, |s.dec.rest| - |v.dec.rest|);
      AfterDecode(s.dec, t1);
      match v.res
      case Err(e) => Copied(head, Some(e))
      case Ok(_) =>
        if key == ATTACHMENTS then
          Copied(head + (stubs + t2), if d.end == EOF then None else Some(d.end))
        else
          Prepend(head + RawValue(Consumed(t1, t2)), CopyLoop(v.dec, t2, false, stubs))
  }

  lemma {:induction false} AfterToken(d: Dec, t: string)
    requires d.rest == KindsAt(t, d.end)
    ensures KindsAt(After(t, |d.rest| - |TokenStep(d).dec.rest|), d.end) == TokenStep(d).dec.rest
  {
    hide TokenStep, KindsOf, KindsAt, After;
    TokenIsRest(d);
    KindsAtAfter(t, d.end, |d.rest| - |TokenStep(d).dec.rest|);
  }

  lemma {:induction false} AfterDecode(d: Dec, t: string)
    requires d.rest == KindsAt(t, d.end)
    ensures KindsAt(After(t, |d.rest| - |DecodeStep(d).dec.rest|), d.end) == DecodeStep(d).dec.rest
  {
    hide DecodeStep, KindsOf, KindsAt, After;
    DecodeIsRest(d);
    KindsAtAfter(t, d.end, |d.rest| - |DecodeStep(d).dec.rest|);
  }

  /** The whole copy. Input that ends before its first token is written as `<nil>`. */
  function CopyText(t: string, end: Error, stubs: string): Copied {
    hide KindsOf, KindsAt, After, TokenStep;
    var d := NewDec(KindsAt(t, end), end);
    var s := TokenStep(d);
    AfterToken(d, t);
    var t1 := After(t, |d.rest| - |s.dec.rest|);
    match s.res
    case Err(e) =>
      if e != EOF then Copied("", Some(e)) else Prepend("<nil>", CopyLoop(s.dec, t1, true, stubs))
    case Ok(tok) =>
      if tok != Delim('{') then Copied("", Some(BadRequest(UnexpectedToken)))
      else Prepend("{", CopyLoop(s.dec, t1, true, stubs))
  }

  // ------------------------------------------------------------------ the streaming code

  method CopyWithAttachmentStubs(r: Reader, stubs: string) returns (out: string, err: Option<Error>)
    modifies r
    ensures Copied(out, err) == CopyText(old(r.unread), r.end, stubs)
  {
    hide TokenStep, KindsOf, KindsAt, After, CopyLoop;
    var dec := new Decoder(r);
    assert dec.Pending() == r.unread;
    out := "";
    var t := dec.Token();
    if t.Err? {
      if t.error != EOF {
        return "", Some(t.error);
      }
      out := "<nil>";
    } else {
      if t.value != Delim('{') {
        return "", Some(BadRequest(UnexpectedToken));
      }
      out := "{";
    }
    var body;
    body, err := CopyMembers(dec, r, stubs);
    out := out + body;
  }

  method CopyMembers(dec: Decoder, r: Reader, stubs: string) returns (out: string, err: Option<Error>)
    requires dec.src == r
    modifies dec, r
    ensures Copied(out, err) == CopyLoop(old(dec.View()), old(dec.Pending()), true, stubs)
  {
    hide TokenStep, DecodeStep, KindsOf, KindsAt, After, RawValue;
    out, err := "", None;
    var first := true;
    ghost var whole := CopyLoop(dec.View(), dec.Pending(), true, stubs);
    while true
      invariant whole == Prepend(out, CopyLoop(dec.View(), dec.Pending(), first, stubs))
      decreases |dec.View().rest|
    {
      ghost var before := CopyLoop(dec.View(), dec.Pending(), first, stubs);
      var part, done;
      part, first, err, done := CopyMember(dec, r, first, stubs);
      ghost var after := CopyLoop(dec.View(), dec.Pending(), first, stubs);
      assert !done ==> out + (part + after.out) == (out + part) + after.out;
      out := out + part;
      if done {
        return;
      }
    }
  }

  /** One token of the document and what it causes to be written. */
  method CopyMember(dec: Decoder, r: Reader, first: bool, stubs: string)
    returns (part: string, first': bool, err: Option<Error>, done: bool)
    requires dec.src == r
    modifies dec, r
    ensures var before := CopyLoop(old(dec.View()), old(dec.Pending()), first, stubs);
            if done then before == Copied(part, err)
            else
              before == Prepend(part, CopyLoop(dec.View(), dec.Pending(), first', stubs)) &&
              |dec.View().rest| < |old(dec.View()).rest|
  {
    hide TokenStep, DecodeStep, KindsOf, KindsAt, After, RawValue;
    part, first', err, done := "", first, None, true;
    var t := dec.Token();
    if t.Err? {
      err := if t.error == EOF then None else Some(BadRequest(t.error));
      return;
    }
    match t.value
    case Delim(x) =>
      if x != '}' {
        err := Some(UnexpectedToken);
        return;
      }
      part, done := "}", false;
    case Scalar(_) =>
      done := false;
    case Text(key) =>
      part := (if first then "" else ",") + KeyText(key);
      first' := false;
      ghost var t1 := dec.Pending();
      var v, raw := dec.Decode();
      if v.Err? {
        err := Some(v.error);
        return;
      }
      if key == ATTACHMENTS {
        // the rest of the input is streamed unaltered
        var buffered := dec.buf;
        var rest, e := r.ReadAll();
        part, err := part + (stubs + (buffered + rest)), e;
        return;
      }
      assert raw == Consumed(t1, dec.Pending());
      part, done := part + RawValue(raw), false;
  }
}
