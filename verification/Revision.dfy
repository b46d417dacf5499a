/**
 Finding a document's revision in a response body (chttp/chttp.go): a scan over tokens that
 knows nothing about nesting, and a body that must read the same afterwards.
 */
module Revision {
  import opened Errors
  import opened Json
  import opened Lexer
  import opened Decoding
  import opened Members
  import opened Stream
  import Metadata

  const REV := "_rev"

  /** The loop of readRev. */
  function RevLoop(d: Dec): Result<string>
    decreases |d.rest|
  {
    if !More(d) then Err(NotFound)
    else
      var s := TokenStep(d);
      match s.res
      case Err(e) => Err(e)
      case Ok(tok) =>
        if tok == Text(REV) then RevValue(s.dec) else RevLoop(s.dec)
  }

  /** Whatever token follows is taken for the revision if it is a string. */
  function RevValue(d: Dec): Result<string> {
    match TokenStep(d).res
    case Err(e) => Err(e)
    case Ok(Text(v)) => Ok(v)
    case Ok(_) => Err(UnexpectedToken)
  }

  function ReadRevFrom(d: Dec): Result<string> {
    var s := TokenStep(d);
    match s.res
    case Err(e) => Err(e)
    case Ok(tok) => if tok != Delim('{') then Err(UnexpectedToken) else RevLoop(s.dec)
  }

  // ------------------------------------------------------------------------ the code

  method ReadRev(dec: Decoder) returns (r: Result<string>)
    modifies dec, dec.src`unread, dec.src`taken, dec.src`ended
    ensures r == ReadRevFrom(old(dec.View()))
    ensures dec.src.taken + dec.src.unread == old(dec.src.taken + dec.src.unread)
    ensures |dec.src.unread| <= |old(dec.src.unread)|
  {
    hide TokenStep, KindsOf, KindsAt, More;
    var t := dec.Token();
    if t.Err? {
      return Err(t.error);
    }
    if t.value != Delim('{') {
      return Err(UnexpectedToken);
    }
    ghost var want := RevLoop(dec.View());
    var more := dec.HasMore();
    while more
      invariant more == More(dec.View()) && want == RevLoop(dec.View())
      invariant dec.src.taken + dec.src.unread == old(dec.src.taken + dec.src.unread)
      invariant |dec.src.unread| <= |old(dec.src.unread)|
      decreases |dec.View().rest|
    {
      t := dec.Token();
      if t.Err? {
        return Err(t.error);
      }
      if t.value == Text(REV) {
        t := dec.Token();
        if t.Err? {
          return Err(t.error);
        }
        return if t.value.Text? then Ok(t.value.s) else Err(UnexpectedToken);
      }
      more := dec.HasMore();
    }
    r := Err(NotFound);
  }

  class Response {
    var body: Reader
    const status: int
    const isHead: bool
    const isJson: bool // by its content type, and not empty
    const etag: Option<string>

    constructor (body: Reader, status: int, isHead: bool, isJson: bool, etag: Option<string>)
      ensures this.body == body && this.status == status && this.isHead == isHead
      ensures this.isJson == isJson && this.etag == etag
    {
      this.body, this.status, this.isHead, this.isJson, this.etag := body, status, isHead, isJson, etag;
    }
  }

  /** An error status uses up the body, whatever could be decoded from it, and closes it. */
  method ResponseError(resp: Response) returns (err: Option<Error>)
    modifies resp.body
    ensures resp.body == old(resp.body)
    ensures err == if resp.status < 400 then None else Some(HTTPError(resp.status))
    ensures var body := resp.body;
            if err.None? then
              body.unread == old(body.unread) && body.taken == old(body.taken) &&
              body.closes == old(body.closes) && body.ended == old(body.ended)
            else body.unread == "" && body.closes == old(body.closes) + 1
  {
    hide KindsOf, KindsAt;
    if resp.status < 400 {
      return None;
    }
    if !resp.isHead && resp.isJson {
      var dec := new Decoder(resp.body);
      var _, _ := dec.Decode();
    }
    var _, _ := resp.body.ReadAll();
    var _ := resp.body.Close();
    err := Some(HTTPError(resp.status));
  }

  /**
   Scans the body through a tee and puts the body back: what the tee has seen, then the
   rest. The restored body reads exactly as the original did, whatever the scan found and
   however far the decoder read ahead.
   */
  method ExtractRev(resp: Response) returns (r: Result<string>)
    modifies resp, resp.body`unread, resp.body`taken, resp.body`ended
    ensures resp.body.unread == old(resp.body.unread)
    ensures resp.body.end == old(resp.body).end && resp.body.closeErr == old(resp.body).closeErr
    ensures r == if resp.isHead then Err(NotFound)
                 else ReadRevFrom(NewDec(KindsAt(old(resp.body.unread), old(resp.body).end), old(resp.body).end))
  {
    hide KindsOf, KindsAt, ReadRevFrom;
    if resp.isHead {
      return Err(NotFound);
    }
    var input := resp.body;
    var before := |input.taken|;
    var dec := new Decoder(input);
    r := ReadRev(dec);
    assert (input.taken + input.unread)[before..] == old(input.unread);
    var seen := input.taken[before..];
    assert seen + input.unread == old(input.unread);
    resp.body := new Reader(seen + input.unread, input.end, input.closeErr);
  }

  /** GetRev: an error status, else the ETag header without its quotes if there is one, else the scan. */
  method GetRev(resp: Response) returns (r: Result<string>)
    modifies resp, resp.body
    ensures resp.body.unread == if resp.status < 400 then old(resp.body.unread) else ""
    ensures resp.status >= 400 ==> r == Err(HTTPError(resp.status))
    ensures resp.status < 400 && resp.etag.Some? ==> r.Ok? && Metadata.IsTrimmed(r.value, resp.etag.value)
    ensures resp.status < 400 && resp.etag.None? ==>
              r == if resp.isHead then Err(NotFound)
                   else ReadRevFrom(NewDec(KindsAt(old(resp.body.unread), old(resp.body).end), old(resp.body).end))
  {
    hide KindsOf, KindsAt, ReadRevFrom;
    var err := ResponseError(resp);
    if err.Some? {
      return Err(err.value);
    }
    if resp.etag.Some? {
      Metadata.TrimTrims(resp.etag.value);
      return Ok(Metadata.TrimRight(Metadata.TrimLeft(resp.etag.value)));
    }
    r := ExtractRev(resp);
  }

  // ---------------------------------------------------- what the scan finds in an object

  /** The result of the scan, by structure: it stops at the first end of a container. */
  function Find(v: Value): Result<string>
    requires !IsScalar(v)
    decreases v, 1
  {
    match v
    case JArr(items) => FindInItems(items)
    case JObj(members) => FindInMembers(members)
  }

  function FindInItems(items: seq<Value>): Result<string>
    decreases items, 0
  {
    if items == [] then Err(NotFound)
    else if !IsScalar(items[0]) then Find(items[0])
    else if items[0] == JStr(REV) then
      if |items| > 1 && items[1].JStr? then Ok(items[1].s) else Err(UnexpectedToken)
    else FindInItems(items[1..])
  }

  function FindInMembers(members: seq<Member>): Result<string>
    decreases members, 0
  {
    if members == [] then Err(NotFound)
    else
      var x := members[0];
      if x.key == REV then if x.value.JStr? then Ok(x.value.s) else Err(UnexpectedToken)
      else if !IsScalar(x.value) then Find(x.value)
      else if x.value == JStr(REV) then if |members| > 1 then Ok(members[1].key) else Err(UnexpectedToken)
      else FindInMembers(members[1..])
  }

  function TokenOf(v: Value): Token {
    match v
    case JArr(_) => Delim('[')
    case JObj(_) => Delim('{')
    case JStr(s) => Text(s)
    case _ => Scalar(v)
  }

  /** Inside a container that has just been opened where `d` expects a value. */
  function Into(d: Dec, rest: Kinds, v: Value): Dec
    requires !IsScalar(v)
  {
    var st := if d.st == ObjectColon then ObjectValue else if d.st == ArrayComma then ArrayValue else d.st;
    d.(rest := rest, st := if v.JArr? then ArrayStart else ObjectStart, stack := d.stack + [st])
  }

  function Inner(v: Value): Kinds
    requires !IsScalar(v)
  {
    if v.JArr? then FlattenItems(false, v.items) + [RBracket] else FlattenMembers(false, v.members) + [RBrace]
  }

  lemma {:induction false} FlattenOuter(v: Value, rest: Kinds)
    requires !IsScalar(v)
    ensures Flatten(v) + rest == [if v.JArr? then LBracket else LBrace] + (Inner(v) + rest)
  {
  }

  lemma {:induction false} ScalarScans(v: Value, rest: Kinds)
    requires IsScalar(v)
    ensures ScanValue(Flatten(v) + rest) == Done(v, rest)
  {
    ScanFlatten(v, rest);
  }

  /** The token at a value, behind the comma or colon it needs. */
  lemma {:induction false} ValueToken(d: Dec, v: Value, rest: Kinds)
    requires d.failed.None? && d.stack != []
    requires d.st == ObjectColon || AtItem(d)
    requires d.rest == (if d.st == ObjectColon then [Colon] else Sep(Lead(d))) + (Flatten(v) + rest)
    ensures More(d)
    ensures TokenStep(d) ==
            Step(Ok(TokenOf(v)),
                 if IsScalar(v) then At(d, rest, if d.st == ObjectColon then ObjectComma else ArrayComma)
                 else Into(d, Inner(v) + rest, v))
  {
    hide ScanValue;
    FlattenHead(v);
    var ks := Flatten(v) + rest;
    if d.st == ObjectColon {
      assert d.rest[1..] == ks;
      assert TokenStep(d) == TokenStep(Skip(d, ObjectValue));
      TokenHere(Skip(d, ObjectValue), v, rest);
    } else if Lead(d) {
      assert d.rest[1..] == ks;
      assert TokenStep(d) == TokenStep(Skip(d, ArrayValue));
      TokenHere(Skip(d, ArrayValue), v, rest);
    } else {
      assert d.rest == ks;
      TokenHere(d, v, rest);
    }
  }

  lemma {:induction false} TokenHere(d: Dec, v: Value, rest: Kinds)
    requires d.failed.None? && (d.st == ObjectValue || d.st == ArrayValue || d.st == ArrayStart)
    requires d.rest == Flatten(v) + rest
    ensures TokenStep(d) ==
            Step(Ok(TokenOf(v)),
                 if IsScalar(v) then At(d, rest, ValueEnd(d.st))
                 else d.(rest := Inner(v) + rest, st := if v.JArr? then ArrayStart else ObjectStart,
                         stack := d.stack + [d.st]))
  {
    if IsScalar(v) {
      ScalarScans(v, rest);
    } else {
      FlattenOuter(v, rest);
      assert d.rest[1..] == Inner(v) + rest;
    }
  }

  lemma {:induction false} RegroupTail(a: Kinds, b: Kinds, c: Kinds, d: Kinds)
    ensures a + b + c + d == a + (b + (c + d))
  {
  }

  lemma {:induction false} RevLoopStep(d: Dec)
    requires More(d) && TokenStep(d).res.Ok?
    ensures RevLoop(d) ==
            if TokenStep(d).res.value == Text(REV) then RevValue(TokenStep(d).dec) else RevLoop(TokenStep(d).dec)
  {
    hide TokenStep, More;
  }

  lemma {:induction false} RevValueOf(d: Dec, v: Value, rest: Kinds)
    requires d.failed.None? && d.stack != []
    requires d.st == ObjectColon || AtItem(d)
    requires d.rest == (if d.st == ObjectColon then [Colon] else Sep(Lead(d))) + (Flatten(v) + rest)
    ensures RevValue(d) == if v.JStr? then Ok(v.s) else Err(UnexpectedToken)
  {
    hide TokenStep, Flatten;
    ValueToken(d, v, rest);
  }

  lemma {:induction false} RevValueAtClose(d: Dec, rest: Kinds)
    requires (AtItem(d) && d.rest == [RBracket] + rest) || (AtMember(d) && d.rest == [RBrace] + rest)
    ensures RevValue(d) == Err(UnexpectedToken)
  {
  }

  lemma {:induction false} AppendTail(a: Kinds, b: Kinds, c: Kinds)
    ensures a + b + c == a + (b + c)
  {
  }

  lemma {:induction false} LoopInside(d: Dec, v: Value, rest: Kinds)
    requires !IsScalar(v) && d.failed.None? && d.rest == Inner(v) + rest && d.stack != []
    requires d.st == if v.JArr? then ArrayStart else ObjectStart
    ensures RevLoop(d) == Find(v)
    decreases v, 1
  {
    hide RevLoop, Flatten, FlattenItems, FlattenMembers, FindInItems, FindInMembers;
    if v.JArr? {
      AppendTail(FlattenItems(false, v.items), [RBracket], rest);
      LoopItems(d, v.items, rest);
    } else {
      AppendTail(FlattenMembers(false, v.members), [RBrace], rest);
      LoopMembers(d, v.members, rest);
    }
  }

  lemma {:induction false} LoopItems(d: Dec, items: seq<Value>, rest: Kinds)
    requires AtItem(d) && d.rest == FlattenItems(Lead(d), items) + ([RBracket] + rest)
    ensures RevLoop(d) == FindInItems(items)
    decreases items, 0
  {
    hide TokenStep, Inner, RevValue;
    var tail := [RBracket] + rest;
    if items == [] {
      assert d.rest == tail;
    } else {
      var v, more := items[0], FlattenItems(true, items[1..]) + tail;
      RegroupTail(Sep(Lead(d)), Flatten(v), FlattenItems(true, items[1..]), tail);
      hide RevLoop;
      ValueToken(d, v, more);
      RevLoopStep(d);
      var d1 := TokenStep(d).dec;
      if !IsScalar(v) {
        LoopInside(d1, v, more);
      } else if v == JStr(REV) {
        if items[1..] == [] {
          assert more == tail;
          RevValueAtClose(d1, rest);
        } else {
          assert items[1..][0] == items[1];
          var later := FlattenItems(true, items[1..][1..]) + tail;
          RegroupTail(Sep(true), Flatten(items[1]), FlattenItems(true, items[1..][1..]), tail);
          RevValueOf(d1, items[1], later);
        }
      } else {
        LoopItems(d1, items[1..], rest);
      }
    }
  }

  lemma {:induction false} MembersTail(lead: bool, members: seq<Member>, tail: Kinds)
    requires members != []
    ensures FlattenMembers(lead, members) + tail ==
            Sep(lead) + [Str(members[0].key)] +
            ([Colon] + (Flatten(members[0].value) + (FlattenMembers(true, members[1..]) + tail)))
  {
    hide Flatten, FlattenMembers;
    var x, more := members[0], FlattenMembers(true, members[1..]);
    assert members == [x] + members[1..];
    FlattenMembersCons(lead, x, members[1..]);
    assert FlattenMember(x) == [Str(x.key), Colon] + Flatten(x.value);
    assert [Str(x.key), Colon] == [Str(x.key)] + [Colon];
    MemberTail(Sep(lead), [Str(x.key)], [Colon], Flatten(x.value), more, tail);
  }

  lemma {:induction false} MemberTail(sep: Kinds, key: Kinds, colon: Kinds, value: Kinds, more: Kinds, tail: Kinds)
    ensures sep + (key + colon + value) + more + tail == sep + key + (colon + (value + (more + tail)))
  {
  }

  lemma {:induction false} LoopMembers(d: Dec, members: seq<Member>, rest: Kinds)
    requires AtMember(d) && d.rest == FlattenMembers(Lead(d), members) + ([RBrace] + rest)
    ensures RevLoop(d) == FindInMembers(members)
    decreases members, 0
  {
    hide TokenStep, Inner, RevValue;
    var tail := [RBrace] + rest;
    if members == [] {
      assert d.rest == tail;
    } else {
      hide RevLoop;
      var x, more := members[0], FlattenMembers(true, members[1..]) + tail;
      MembersTail(Lead(d), members, tail);
      var value := [Colon] + (Flatten(x.value) + more);
      KeyReads(d, x.key, value);
      RevLoopStep(d);
      var d1 := At(d, value, ObjectColon);
      if x.key == REV {
        RevValueOf(d1, x.value, more);
      } else {
        ValueToken(d1, x.value, more);
        RevLoopStep(d1);
        var d2 := TokenStep(d1).dec;
        if !IsScalar(x.value) {
          LoopInside(d2, x.value, more);
        } else if x.value == JStr(REV) {
          LoopKeyAsValue(d2, members[1..], rest);
        } else {
          LoopMembers(d2, members[1..], rest);
        }
      }
    }
  }

  /** Behind a value that reads like the key, the next key is taken for the revision. */
  lemma {:induction false} LoopKeyAsValue(d: Dec, members: seq<Member>, rest: Kinds)
    requires AtMember(d) && Lead(d) && d.rest == FlattenMembers(true, members) + ([RBrace] + rest)
    ensures RevValue(d) == if members == [] then Err(UnexpectedToken) else Ok(members[0].key)
  {
    hide TokenStep, Flatten;
    var tail := [RBrace] + rest;
    if members == [] {
      assert d.rest == tail;
      RevValueAtClose(d, rest);
    } else {
      MembersTail(true, members, tail);
      KeyReads(d, members[0].key, [Colon] + (Flatten(members[0].value) + (FlattenMembers(true, members[1..]) + tail)));
    }
  }

  /** What the scan of any object finds, whatever follows the object. */
  lemma {:induction false} RevOfObject(members: seq<Member>, rest: Kinds, end: Error)
    ensures ReadRevFrom(NewDec(Flatten(JObj(members)) + rest, end)) == FindInMembers(members)
  {
    hide RevLoop;
    var ks := Flatten(JObj(members)) + rest;
    var none: seq<TokState> := [];
    assert none + [TopValue] == [TopValue];
    var d := Dec(ks[1..], end, ObjectStart, [TopValue], None);
    assert ks[1..] == FlattenMembers(false, members) + ([RBrace] + rest);
    LoopMembers(d, members, rest);
  }

  /** A body that is no object. */
  lemma {:induction false} RevOfNoObject(ks: Kinds, end: Error)
    requires ks == [] || ks[0] != LBrace
    ensures ReadRevFrom(NewDec(ks, end)) ==
            Err(if ks == [] then end
                else if ks[0] == LBracket || ks[0].Str? || IsLitKind(ks[0]) then UnexpectedToken
                else if ks[0].Cut? then (if end != EOF then end else UnexpectedEOF)
                else SyntaxError)
  {
    hide ScanItems, ScanMembers, RevLoop;
  }

  // -------------------------------------------------------------- when that is the revision

  /** Scalars that the scan does not mistake for the key. */
  predicate Quiet(members: seq<Member>) {
    forall x :: x in members ==> IsScalar(x.value) && x.value != JStr("_rev")
  }

  function WithRev(pre: seq<Member>, rev: string, post: seq<Member>): seq<Member> {
    pre + ([Member("_rev", JStr(rev))] + post)
  }

  predicate NoRev(members: seq<Member>) {
    forall x :: x in members ==> x.key != "_rev"
  }

  lemma {:induction false} QuietFinds(pre: seq<Member>, rev: string, post: seq<Member>)
    requires NoRev(pre) && Quiet(pre)
    ensures FindInMembers(WithRev(pre, rev, post)) == Ok(rev)
    decreases |pre|
  {
    var all := WithRev(pre, rev, post);
    if pre == [] {
      assert all[0] == Member(REV, JStr(rev));
    } else {
      assert all[0] == pre[0] && all[1..] == WithRev(pre[1..], rev, post);
      assert pre[0] in pre;
      assert forall x :: x in pre[1..] ==> x in pre;
      QuietFinds(pre[1..], rev, post);
    }
  }

  /** Behind anything else the scan never reaches the revision. */
  lemma {:induction false} LoudMisses(pre: seq<Member>, a: string, b: string, post: seq<Member>)
    requires NoRev(pre) && !Quiet(pre)
    ensures FindInMembers(WithRev(pre, a, post)) == FindInMembers(WithRev(pre, b, post))
    decreases |pre|
  {
    var s, t := WithRev(pre, a, post), WithRev(pre, b, post);
    assert pre[0] in pre;
    assert s[0] == pre[0] && t[0] == pre[0];
    assert s[1..] == WithRev(pre[1..], a, post) && t[1..] == WithRev(pre[1..], b, post);
    if IsScalar(pre[0].value) && pre[0].value != JStr(REV) {
      assert pre == [pre[0]] + pre[1..];
      assert forall x :: x in pre[1..] ==> x in pre;
      LoudMisses(pre[1..], a, b, post);
    } else {
      hide Find;
      assert s[1].key == t[1].key;
    }
  }

  /**
   The scan returns the document's revision, whatever that is and whatever follows it,
   exactly when every member before it is a scalar other than the string `_rev`.
   */
  lemma {:induction false} RevExact(pre: seq<Member>, post: seq<Member>, rest: Kinds, end: Error)
    requires NoRev(pre)
    ensures Quiet(pre) <==>
            forall rev :: ReadRevFrom(NewDec(Flatten(JObj(WithRev(pre, rev, post))) + rest, end)) == Ok(rev)
  {
    hide ReadRevFrom, FindInMembers, Flatten, Quiet, WithRev;
    forall rev
      ensures ReadRevFrom(NewDec(Flatten(JObj(WithRev(pre, rev, post))) + rest, end)) ==
              FindInMembers(WithRev(pre, rev, post))
    {
      RevOfObject(WithRev(pre, rev, post), rest, end);
    }
    if Quiet(pre) {
      forall rev
        ensures FindInMembers(WithRev(pre, rev, post)) == Ok(rev)
      {
        QuietFinds(pre, rev, post);
      }
    } else {
      LoudMisses(pre, "1-a", "2-b", post);
      assert Ok("1-a") != Ok("2-b");
    }
  }

  /** A document whose attachments come first: the revision is there, but it is not found. */
  lemma {:induction false} NestedObjectHidesRev(rest: Kinds, end: Error)
    ensures var doc := [Member("_attachments", JObj([])), Member("_rev", JStr("1-a"))];
            ReadRevFrom(NewDec(Flatten(JObj(doc)) + rest, end)) == Err(NotFound)
  {
    var doc := [Member("_attachments", JObj([])), Member("_rev", JStr("1-a"))];
    RevOfObject(doc, rest, end);
    assert FindInMembers([]) == Err(NotFound);
  }

  // -------------------------------------------------------------------- on any input

  /** Somewhere a string `_rev`, a separator, and the string `v` follow each other. */
  predicate RevAt(ks: Kinds, i: nat, v: string) {
    i + 2 < |ks| && ks[i] == Str("_rev") && (ks[i + 1] == Colon || ks[i + 1] == Comma) && ks[i + 2] == Str(v)
  }

  /** Behind a string token the decoder wants a separator. */
  predicate WantsSeparator(d: Dec) {
    d.failed.None? && (d.st == ObjectColon || d.st == ArrayComma || d.st == ObjectComma)
  }

  lemma {:induction false} RevValueSound(d: Dec)
    requires WantsSeparator(d) && RevValue(d).Ok?
    ensures |d.rest| >= 2 && (d.rest[0] == Colon || d.rest[0] == Comma) && d.rest[1] == Str(RevValue(d).value)
  {
    hide ScanItems, ScanMembers;
    if d.rest != [] && (d.rest[0] == Colon || d.rest[0] == Comma) {
      var st := if d.st == ObjectColon then ObjectValue else if d.st == ArrayComma then ArrayValue else ObjectKey;
      assert RevValue(d) == RevValue(Skip(d, st));
      assert |d.rest| > 1 ==> d.rest[1..][0] == d.rest[1];
    }
  }

  /** The scan only ever stands inside a container. */
  predicate Scanning(d: Dec) {
    d.failed.None? && d.stack != [] && d.st != TopValue
  }

  /** A scalar token leaves the decoder behind a value. */
  lemma {:induction false} ScalarTokenScans(d: Dec)
    requires Scanning(d) && d.rest != [] && ScalarStep(d).res.Ok?
    requires !d.rest[0].LBrace? && !d.rest[0].LBracket?
    ensures var s := ScalarStep(d);
            WantsSeparator(s.dec) && s.dec.stack == d.stack && s.dec.rest == d.rest[1..] &&
            (s.res.value.Text? ==> d.rest[0] == Str(s.res.value.s))
  {
    hide ScanItems, ScanMembers;
  }

  /** Where a step of the scan leads, and where a string that it returns was written. */
  predicate Scanned(d: Dec, s: Step<Token>) {
    Scanning(s.dec) &&
    match s.res
    case Ok(Text(v)) =>
      var c := |d.rest| - |s.dec.rest|;
      1 <= c <= |d.rest| && d.rest[c - 1] == Str(v) && WantsSeparator(s.dec)
    case _ => true
  }

  lemma {:induction false} SkipScanned(d: Dec, st: TokState, s: Step<Token>)
    requires d.rest != [] && Scanned(Skip(d, st), s) && |s.dec.rest| < |d.rest|
    ensures Scanned(d, s)
  {
  }

  /** A token that no colon or comma stands before. */
  lemma {:induction false} HereScans(d: Dec)
    requires Scanning(d) && TokenStep(d).res.Ok? && d.rest != [] && !d.rest[0].Colon? && !d.rest[0].Comma?
    requires More(d) || d.st == ArrayValue || d.st == ObjectKey || d.st == ObjectValue
    ensures Scanned(d, TokenStep(d))
  {
    hide ScalarStep;
    if !d.rest[0].LBrace? && !d.rest[0].LBracket? && ScalarStep(d).res.Ok? {
      ScalarTokenScans(d);
    }
  }

  lemma {:induction false} TokenScans(d: Dec)
    requires Scanning(d) && TokenStep(d).res.Ok?
    requires More(d) || d.st == ArrayValue || d.st == ObjectKey || d.st == ObjectValue
    ensures Scanned(d, TokenStep(d))
    decreases |d.rest|
  {
    hide ScalarStep, Scanned;
    if d.rest[0] == Colon {
      TokenScans(Skip(d, ObjectValue));
      SkipScanned(d, ObjectValue, TokenStep(d));
    } else if d.rest[0] == Comma {
      var st := if d.st == ArrayComma then ArrayValue else ObjectKey;
      TokenScans(Skip(d, st));
      SkipScanned(d, st, TokenStep(d));
    } else {
      HereScans(d);
    }
  }

  lemma {:induction false} LoopSound(d: Dec) returns (i: nat)
    requires Scanning(d) && RevLoop(d).Ok?
    ensures RevAt(d.rest, i, RevLoop(d).value)
    decreases |d.rest|
  {
    hide TokenStep, RevValue;
    TokenScans(d);
    TokenIsRest(d);
    var s := TokenStep(d);
    var c := |d.rest| - |s.dec.rest|;
    assert s.dec.rest == d.rest[c..];
    if s.res.value == Text(REV) {
      RevValueSound(s.dec);
      i := c - 1;
      assert s.dec.rest[0] == d.rest[c] && s.dec.rest[1] == d.rest[c + 1];
    } else {
      var j := LoopSound(s.dec);
      i := c + j;
      RevLater(d.rest, c, j, RevLoop(s.dec).value);
    }
  }

  lemma {:induction false} RevLater(ks: Kinds, c: nat, j: nat, v: string)
    requires c <= |ks| && RevAt(ks[c..], j, v)
    ensures RevAt(ks, c + j, v)
  {
  }

  /** On any input at all, a revision that is returned is the string behind a `_rev` string. */
  lemma {:induction false} RevSound(ks: Kinds, end: Error) returns (i: nat)
    requires ReadRevFrom(NewDec(ks, end)).Ok?
    ensures RevAt(ks, i, ReadRevFrom(NewDec(ks, end)).value)
  {
    hide RevLoop;
    var d := TokenStep(NewDec(ks, end)).dec;
    FirstBrace(ks, end);
    var j := LoopSound(d);
    i := j + 1;
  }

  lemma {:induction false} FirstBrace(ks: Kinds, end: Error)
    requires TokenStep(NewDec(ks, end)).res == Ok(Delim('{'))
    ensures var d := TokenStep(NewDec(ks, end)).dec; ks != [] && d.rest == ks[1..] && Scanning(d)
  {
    hide ScanValue;
  }
}
