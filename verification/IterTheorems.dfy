/**
 The result iterator from end to end: for every lexeme stream, exactly which streams it
 drains to EOF in each of its modes, and what it has delivered by then.
 */
module IterTheorems {
  import opened Errors
  import opened Json
  import opened Decoding
  import opened Metadata
  import opened IterSpec
  import opened Members
  import opened Envelope

  /** A response: metadata, the row array, more metadata. */
  datatype Response = Response(pre: seq<Member>, items: seq<Value>, post: seq<Member>)

  /** The response without its braces. */
  function Body(key: string, r: Response): Kinds {
    Head(false, r.pre, key) + (FlattenItems(false, r.items) + ([RBracket] + FlattenMembers(true, r.post)))
  }

  lemma {:induction false} MembersAppend(lead: bool, a: seq<Member>, b: seq<Member>)
    ensures FlattenMembers(lead, a + b) == FlattenMembers(lead, a) + FlattenMembers(lead || a != [], b)
    decreases |a|
  {
    if a == [] {
      assert a + b == b;
    } else {
      assert a == [a[0]] + a[1..];
      assert a + b == [a[0]] + (a[1..] + b);
      MembersAppend(true, a[1..], b);
      FlattenMembersCons(lead, a[0], a[1..] + b);
      FlattenMembersCons(lead, a[0], a[1..]);
    }
  }

  lemma {:induction false} OneMember(lead: bool, x: Member)
    ensures FlattenMembers(lead, [x]) == Sep(lead) + FlattenMember(x)
  {
    assert [x][1..] == [];
    assert FlattenMembers(true, []) == [];
  }

  /** With its braces, a response is the JSON object one would expect. */
  lemma {:induction false} ResponseIsObject(key: string, r: Response)
    ensures [LBrace] + Body(key, r) + [RBrace] ==
            Flatten(JObj(r.pre + [Member(key, JArr(r.items))] + r.post))
  {
    hide FlattenItems, FlattenMembers;
    var x := Member(key, JArr(r.items));
    var rows := FlattenItems(false, r.items) + [RBracket];
    MembersAppend(false, r.pre + [x], r.post);
    MembersAppend(false, r.pre, [x]);
    OneMember(r.pre != [], x);
    assert FlattenMember(x) == [Str(key), Colon, LBracket] + rows;
    assert Head(false, r.pre, key) + rows == FlattenMembers(false, r.pre + [x]);
    assert Body(key, r) == Head(false, r.pre, key) + rows + FlattenMembers(true, r.post);
  }

  predicate Acceptable(key: string, m: Meta, r: Response) {
    NoKey(r.pre, key) && StoreAll(m, r.pre + r.post).Ok?
  }

  /** Inside the row array of the object whose members begin at `d`. */
  function RowsAt(d: Dec, rest: Kinds, m: Meta): It {
    It(Opened(d, rest, ArrayStart), true, false, m)
  }

  /** Behind the row array of the object whose members begin at `d`. */
  function Behind(d: Dec, rest: Kinds): Dec {
    At(d, rest, ObjectComma)
  }

  lemma {:induction false} FinishBehind(c: Config, d: Dec, rest: Kinds, lead: bool, m: Meta)
    requires Keyed(c) && d.failed.None?
    ensures var s := RowsState(RowsAt(d, [], m), [RBracket] + rest, lead);
            Finish(c, s.dec, m) == FinishLoop(Behind(d, rest), m)
  {
    hide FinishLoop;
    var s := RowsState(RowsAt(d, [], m), [RBracket] + rest, lead);
    CloseReads(s.dec, rest);
    assert (d.stack + [ObjectValue])[..|d.stack|] == d.stack;
  }

  /** From the row array on: all items, and then whatever `finish` makes of what follows. */
  lemma {:induction false} RowsThenFinish(c: Config, d: Dec, m: Meta, items: seq<Value>, rest: Kinds)
    requires Keyed(c) && c.parser != RevsDiffParser && d.failed.None?
    ensures var s := RowsAt(d, FlattenItems(false, items) + ([RBracket] + rest), m);
            var f := FinishLoop(Behind(d, rest), m);
            var err := if f.err.Some? then f.err else c.closeErr;
            Drain(c, s) == Run(Plain(items), if err.Some? then err.value else EOF,
                               It(f.dec, true, true, f.meta))
  {
    hide Drain, FinishLoop, Finish;
    var s := RowsAt(d, FlattenItems(false, items) + ([RBracket] + rest), m);
    RowsRead(c, s, items, rest);
    FinishBehind(c, d, rest, items != [], m);
  }

  lemma {:induction false} DrainBegun(c: Config, s: It)
    requires !s.begun && !s.closed
    ensures var b := Begin(c, s.dec, s.meta);
            if b.err.Some? then
              Drain(c, s) == Run([], Gateway(b.err.value), It(b.dec, true, false, b.meta))
            else
              Drain(c, s) == Drain(c, It(b.dec, true, false, b.meta))
  {
    hide Begin, RowStep;
    var b := Begin(c, s.dec, s.meta);
    if b.err.None? {
      assert Next(c, s) == Next(c, It(b.dec, true, false, b.meta));
    }
  }

  // --------------------------------------------- the members of one response

  lemma {:induction false} BodySplit(key: string, r: Response, tail: Kinds)
    ensures Body(key, r) + tail ==
            Head(false, r.pre, key) +
            (FlattenItems(false, r.items) + ([RBracket] + (FlattenMembers(true, r.post) + tail)))
  {
  }

  /** At the first member of an object. */
  predicate AtBody(d: Dec) {
    AtMember(d) && d.st == ObjectStart
  }

  predicate IsKeyed(c: Config, m: Meta) {
    Keyed(c) && c.parser != RevsDiffParser && !m.NoMeta? && c.closeErr != Some(EOF)
  }

  /** Draining from the first member on, once `begin` has found the rows. */
  function DrainBody(c: Config, d: Dec, m: Meta): Run {
    var b := BeginLoop(c.expectedKey, d, m);
    Drain(c, It(b.dec, true, false, b.meta))
  }

  /** A complete object: its items, and whatever closing the body reports. */
  lemma {:induction false} BodyReads(c: Config, d: Dec, m: Meta, r: Response, tail: Kinds)
    requires IsKeyed(c, m) && Acceptable(c.expectedKey, m, r) && AtBody(d)
    requires d.rest == Body(c.expectedKey, r) + ([RBrace] + tail)
    ensures BeginLoop(c.expectedKey, d, m).err.None?
    ensures DrainBody(c, d, m) ==
            Run(Plain(r.items), if c.closeErr.Some? then c.closeErr.value else EOF,
                It(Closed(d, tail), true, true, Final(m, r.pre + r.post)))
  {
    hide Drain, BeginLoop, FinishLoop, Head, Store, Final, ExpectDelim, Closed;
    StoreAllAppend(m, r.pre, r.post);
    StoreAllIsFinal(m, r.pre + r.post);
    var m1 := StoreAll(m, r.pre).value;
    StoreAllFits(m, r.pre);
    var post := FlattenMembers(true, r.post) + ([RBrace] + tail);
    BodySplit(c.expectedKey, r, [RBrace] + tail);
    BeginReads(c.expectedKey, d, m, r.pre, FlattenItems(false, r.items) + ([RBracket] + post));
    RowsThenFinish(c, d, m1, r.items, post);
    FinishReads(Behind(d, post), m1, r.post, tail);
    ClosedAt(d, post, tail);
  }

  /** An object cut off between a comma and the value of a member behind the rows: EOF all the same. */
  lemma {:induction false} BodyCutShort(c: Config, d: Dec, m: Meta, r: Response, cut: Kinds)
    requires IsKeyed(c, m) && Acceptable(c.expectedKey, m, r) && AtBody(d)
    requires d.end == EOF && CutOff(cut) && d.rest == Body(c.expectedKey, r) + cut
    ensures BeginLoop(c.expectedKey, d, m).err.None?
    ensures var run := DrainBody(c, d, m);
            run.rows == Plain(r.items) && run.err == EOF &&
            run.it.meta == Final(m, r.pre + r.post) && run.it.dec.rest == [] && run.it.dec.end == EOF
  {
    hide Drain, BeginLoop, FinishLoop, Head, Store, Final, ExpectDelim;
    StoreAllAppend(m, r.pre, r.post);
    StoreAllIsFinal(m, r.pre + r.post);
    var m1 := StoreAll(m, r.pre).value;
    StoreAllFits(m, r.pre);
    var post := FlattenMembers(true, r.post) + cut;
    BodySplit(c.expectedKey, r, cut);
    BeginReads(c.expectedKey, d, m, r.pre, FlattenItems(false, r.items) + ([RBracket] + post));
    RowsThenFinish(c, d, m1, r.items, post);
    FinishCutShort(Behind(d, post), m1, r.post, cut);
  }

  predicate BodyStream(c: Config, m: Meta, ks: Kinds, end: Error, r: Response, tail: Kinds) {
    Acceptable(c.expectedKey, m, r) &&
    ((c.closeErr.None? && ks == Body(c.expectedKey, r) + ([RBrace] + tail)) ||
     (end == EOF && CutOff(tail) && ks == Body(c.expectedKey, r) + tail))
  }

  lemma {:induction false} BodySound(c: Config, d: Dec, m: Meta) returns (r: Response, tail: Kinds)
    requires IsKeyed(c, m) && AtBody(d)
    requires BeginLoop(c.expectedKey, d, m).err.None? && DrainBody(c, d, m).err == EOF
    ensures BodyStream(c, m, d.rest, d.end, r, tail)
  {
    hide Drain, BeginLoop, FinishLoop, Head, Store, StoreAll, ExpectDelim, CutOff, FlattenItems, FlattenMembers, Body;
    var key := c.expectedKey;
    var pre, rows := BeginSound(key, d, m);
    var m1 := StoreAll(m, pre).value;
    StoreAllFits(m, pre);
    var items, rest := RowsSound(c, RowsAt(d, rows, m1));
    RowsThenFinish(c, d, m1, items, rest);
    var post, last := FinishSound(Behind(d, rest), m1);
    StoreAllAppend(m, pre, post);
    r, tail := Response(pre, items, post), last;
    BodySplit(key, r, [RBrace] + tail);
    BodySplit(key, r, tail);
  }

  // ------------------------------------------------------------------ keyed mode

  function Inside(ks: Kinds, end: Error, st: TokState): Dec {
    Dec(ks, end, st, [TopValue], None)
  }

  lemma {:induction false} OpenBrace(ks: Kinds, end: Error)
    ensures var t := ExpectDelim(NewDec(ks, end), '{');
            if ks != [] && ks[0] == LBrace then t == Try(None, Inside(ks[1..], end, ObjectStart))
            else t.err.Some?
  {
    hide ScanValue;
    var none: seq<TokState> := [];
    assert none + [TopValue] == [TopValue];
  }

  lemma {:induction false} ClosedTop(ks: Kinds, tail: Kinds, end: Error)
    ensures Closed(Inside(ks, end, ObjectStart), tail) == NewDec(tail, end)
  {
  }

  lemma {:induction false} DrainObject(c: Config, ks: Kinds, end: Error, m: Meta)
    requires Keyed(c)
    ensures var d := Inside(ks, end, ObjectStart);
            var b := BeginLoop(c.expectedKey, d, m);
            var run := Drain(c, Start([LBrace] + ks, end, m));
            if b.err.Some? then run.rows == [] && run.err == Gateway(b.err.value)
            else run == DrainBody(c, d, m)
  {
    hide Drain, BeginLoop, ExpectDelim;
    OpenBrace([LBrace] + ks, end);
    assert ([LBrace] + ks)[1..] == ks;
    DrainBegun(c, Start([LBrace] + ks, end, m));
  }

  /** Complete response: all rows in order, the final metadata, and everything up to the brace consumed. */
  lemma {:induction false} KeyedReads(c: Config, end: Error, m: Meta, r: Response, tail: Kinds)
    requires IsKeyed(c, m) && Acceptable(c.expectedKey, m, r)
    ensures Drain(c, Start([LBrace] + Body(c.expectedKey, r) + [RBrace] + tail, end, m)) ==
            Run(Plain(r.items), if c.closeErr.Some? then c.closeErr.value else EOF,
                It(NewDec(tail, end), true, true, Final(m, r.pre + r.post)))
  {
    hide Drain, DrainBody, BeginLoop, Body, Final, Closed;
    var ks := Body(c.expectedKey, r) + ([RBrace] + tail);
    assert [LBrace] + Body(c.expectedKey, r) + [RBrace] + tail == [LBrace] + ks;
    DrainObject(c, ks, end, m);
    BodyReads(c, Inside(ks, end, ObjectStart), m, r, tail);
    ClosedTop(ks, tail, end);
  }

  /**
   A response that breaks off between a comma and the value of a member behind the rows
   is drained to EOF as if it were complete: the final brace is not guaranteed.
   */
  lemma {:induction false} KeyedCutShort(c: Config, m: Meta, r: Response, cut: Kinds)
    requires IsKeyed(c, m) && Acceptable(c.expectedKey, m, r) && CutOff(cut)
    ensures var run := Drain(c, Start([LBrace] + Body(c.expectedKey, r) + cut, EOF, m));
            run.rows == Plain(r.items) && run.err == EOF && run.it.meta == Final(m, r.pre + r.post)
  {
    hide Drain, DrainBody, BeginLoop, Body, Final, CutOff;
    var ks := Body(c.expectedKey, r) + cut;
    assert [LBrace] + Body(c.expectedKey, r) + cut == [LBrace] + ks;
    DrainObject(c, ks, EOF, m);
    BodyCutShort(c, Inside(ks, EOF, ObjectStart), m, r, cut);
  }

  /** Such a response is no complete JSON value. */
  lemma {:induction false} CutIsIncomplete(key: string, r: Response, cut: Kinds)
    requires CutOff(cut)
    ensures ScanValue([LBrace] + Body(key, r) + cut).Incomplete?
  {
    hide Body, ScanValue, FlattenMembers;
    var x := Member(if |cut| == 1 then "" else cut[1].s, JNull);
    var r' := r.(post := r.post + [x]);
    var ks := [LBrace] + Body(key, r) + cut;
    OneMember(true, x);
    MembersAppend(true, r.post, [x]);
    BodyAppend(key, r, x);
    ResponseIsObject(key, r');
    var whole := [LBrace] + (Body(key, r) + FlattenMembers(true, [x])) + [RBrace];
    var text: Kinds := [Comma, Str(x.key), Colon, Null];
    assert FlattenMembers(true, [x]) == text;
    assert cut == text[..|cut|];
    assert whole == ks + (text[|cut|..] + [RBrace]);
    assert ks <= whole && |ks| < |whole|;
    BrokenOffIncomplete(JObj(r'.pre + [Member(key, JArr(r'.items))] + r'.post), ks);
  }

  lemma {:induction false} BodyAppend(key: string, r: Response, x: Member)
    ensures Body(key, r.(post := r.post + [x])) == Body(key, r) + FlattenMembers(true, [x])
  {
    hide FlattenMembers, FlattenItems;
    MembersAppend(true, r.post, [x]);
  }

  /** The streams that are drained to EOF: complete ones, and those cut off as above. */
  predicate KeyedStream(c: Config, m: Meta, ks: Kinds, end: Error, r: Response, tail: Kinds) {
    Acceptable(c.expectedKey, m, r) &&
    ((c.closeErr.None? && ks == [LBrace] + Body(c.expectedKey, r) + [RBrace] + tail) ||
     (end == EOF && CutOff(tail) && ks == [LBrace] + Body(c.expectedKey, r) + tail))
  }

  /** Whatever is drained to EOF was such a stream, so the bracket closing the rows was there. */
  lemma {:induction false} KeyedSound(c: Config, ks: Kinds, end: Error, m: Meta)
    returns (r: Response, tail: Kinds)
    requires IsKeyed(c, m) && Drain(c, Start(ks, end, m)).err == EOF
    ensures KeyedStream(c, m, ks, end, r, tail)
  {
    hide Drain, DrainBody, BeginLoop, ExpectDelim, Body, CutOff;
    OpenBrace(ks, end);
    DrainBegun(c, Start(ks, end, m));
    assert ks == [LBrace] + ks[1..];
    DrainObject(c, ks[1..], end, m);
    r, tail := BodySound(c, Inside(ks[1..], end, ObjectStart), m);
    BraceBody(Body(c.expectedKey, r), tail);
  }

  lemma {:induction false} BraceBody(body: Kinds, tail: Kinds)
    ensures [LBrace] + (body + ([RBrace] + tail)) == [LBrace] + body + [RBrace] + tail
    ensures [LBrace] + (body + tail) == [LBrace] + body + tail
  {
  }

  /**
   Keyed mode: EOF is reported for exactly these streams, with exactly the items of the
   array as rows and each metadata field at its final value.
   */
  lemma {:induction false} KeyedExact(c: Config, ks: Kinds, end: Error, m: Meta, rows: seq<Item>, meta: Meta)
    requires IsKeyed(c, m)
    ensures var run := Drain(c, Start(ks, end, m));
            (run.err == EOF && run.rows == rows && run.it.meta == meta) <==>
            exists r: Response, tail: Kinds ::
              KeyedStream(c, m, ks, end, r, tail) && Plain(r.items) == rows && Final(m, r.pre + r.post) == meta
  {
    hide Drain, CutOff, Final, KeyedStream, Plain;
    var run := Drain(c, Start(ks, end, m));
    if run.err == EOF {
      var r, tail := KeyedSound(c, ks, end, m);
      KeyedDrains(c, ks, end, m, r, tail);
    }
    if r: Response, tail: Kinds :| KeyedStream(c, m, ks, end, r, tail) && Plain(r.items) == rows &&
                                   Final(m, r.pre + r.post) == meta {
      KeyedDrains(c, ks, end, m, r, tail);
    }
  }

  lemma {:induction false} KeyedDrains(c: Config, ks: Kinds, end: Error, m: Meta, r: Response, tail: Kinds)
    requires IsKeyed(c, m) && KeyedStream(c, m, ks, end, r, tail)
    ensures var run := Drain(c, Start(ks, end, m));
            run.err == EOF && run.rows == Plain(r.items) && run.it.meta == Final(m, r.pre + r.post)
  {
    hide Drain, CutOff, Final, Body;
    if c.closeErr.None? && ks == [LBrace] + Body(c.expectedKey, r) + [RBrace] + tail {
      KeyedReads(c, end, m, r, tail);
    } else {
      KeyedCutShort(c, m, r, tail);
    }
  }

  // ----------------------------------------------------------------- object mode

  predicate IsObject(c: Config) {
    c.objMode && c.parser == RevsDiffParser && c.closeErr != Some(EOF)
  }

  function Named(members: seq<Member>): (r: seq<Item>)
    ensures |r| == |members|
  {
    seq(|members|, i requires 0 <= i < |members| => Item(members[i].key, members[i].value))
  }

  predicate InMembers(s: It) {
    AtMember(s.dec) && s.begun && !s.closed
  }

  function MembersState(s: It, rest: Kinds): It {
    s.(dec := At(s.dec, rest, ObjectComma))
  }

  lemma {:induction false} MemberReads(c: Config, s: It, x: Member, rest: Kinds)
    requires InMembers(s) && IsObject(c)
    requires s.dec.rest == Sep(Lead(s.dec)) + [Str(x.key)] + ([Colon] + Flatten(x.value) + rest)
    ensures Next(c, s) == NextStep(Row(Item(x.key, x.value)), MembersState(s, rest))
  {
    hide DecodeStep, TokenStep, Ending;
    KeyReads(s.dec, x.key, [Colon] + Flatten(x.value) + rest);
    ValueReads(At(s.dec, [Colon] + Flatten(x.value) + rest, ObjectColon), x.value, rest);
  }

  /** decodeItem's type assertion on the key token cannot fail. */
  lemma {:induction false} RevsDiffTokenIsText(d: Dec)
    requires AtMember(d) && More(d) && TokenStep(d).res.Ok?
    ensures TokenStep(d).res.value.Text?
  {
    TokenSound(d);
  }

  lemma {:induction false} MemberSound(c: Config, s: It) returns (x: Member)
    requires InMembers(s) && IsObject(c) && Next(c, s).out.Row?
    ensures var n := Next(c, s);
            n.out == Row(Item(x.key, x.value)) && n.it == MembersState(s, n.it.dec.rest) &&
            s.dec.rest == Sep(Lead(s.dec)) + [Str(x.key)] + ([Colon] + Flatten(x.value) + n.it.dec.rest)
  {
    hide DecodeStep, TokenStep, Ending;
    TokenSound(s.dec);
    var t := TokenStep(s.dec);
    ValueSound(t.dec);
    x := Member(t.res.value.s, DecodeStep(t.dec).res.value);
  }

  lemma {:induction false} ObjectEnd(c: Config, s: It, tail: Kinds)
    requires InMembers(s) && IsObject(c) && s.dec.rest == [RBrace] + tail
    ensures Drain(c, s) ==
            Run([], if c.closeErr.Some? then c.closeErr.value else EOF, It(Closed(s.dec, tail), true, true, s.meta))
  {
    hide ExpectDelim, DecodeItem;
    CloseReads(s.dec, tail);
  }

  lemma {:induction false} MembersDrain(c: Config, s: It, members: seq<Member>, tail: Kinds)
    requires InMembers(s) && IsObject(c)
    requires s.dec.rest == FlattenMembers(Lead(s.dec), members) + ([RBrace] + tail)
    ensures Drain(c, s) == Run(Named(members), if c.closeErr.Some? then c.closeErr.value else EOF,
                               It(Closed(s.dec, tail), true, true, s.meta))
    decreases |members|
  {
    hide Next, Drain, Flatten;
    if members == [] {
      assert s.dec.rest == [RBrace] + tail;
      ObjectEnd(c, s, tail);
    } else {
      DrainUnfold(c, s);
      var x, more := members[0], FlattenMembers(true, members[1..]) + ([RBrace] + tail);
      assert members == [x] + members[1..];
      MembersCons(Lead(s.dec), x, members[1..], [RBrace] + tail);
      MemberReads(c, s, x, more);
      MembersDrain(c, MembersState(s, more), members[1..], tail);
      assert Named(members) == [Item(x.key, x.value)] + Named(members[1..]);
    }
  }

  lemma {:induction false} TokenEofIsEnd(d: Dec)
    requires d.failed.None? && TokenStep(d).res == Err(EOF)
    ensures TokenStep(d).dec.rest == []
    decreases |d.rest|
  {
    hide DecodeStep;
    if d.rest != [] {
      if d.rest[0] == Colon && d.st == ObjectColon {
        TokenEofIsEnd(Skip(d, ObjectValue));
      } else if d.rest[0] == Comma && d.st == ArrayComma {
        TokenEofIsEnd(Skip(d, ArrayValue));
      } else if d.rest[0] == Comma && d.st == ObjectComma {
        TokenEofIsEnd(Skip(d, ObjectKey));
      } else if ValueAllowed(d.st) {
        DecodeHead(d);
      }
    }
  }

  lemma {:induction false} DecodeHead(d: Dec)
    requires d.failed.None? && ValueAllowed(d.st) && d.rest != []
    ensures DecodeStep(d).res != Err(EOF)
  {
    hide ScanValue;
  }

  lemma {:induction false} MembersStop(c: Config, s: It) returns (tail: Kinds)
    requires InMembers(s) && IsObject(c) && Next(c, s).out == Stop(EOF)
    ensures s.dec.rest == [RBrace] + tail && c.closeErr.None?
  {
    hide DecodeStep, TokenStep;
    var r := NextRow(c.parser, s.dec);
    assert r.res == Err(EOF);
    if More(s.dec) {
      var t := TokenStep(s.dec);
      if t.res.Err? {
        TokenEofIsEnd(s.dec);
      } else {
        TokenSound(s.dec);
        DecodeEofIsEnd(t.dec);
      }
      NoDelimAtEnd(r.dec, '}');
    }
    assert ExpectDelim(r.dec, '}').err.None?;
    CloseSound(s.dec);
    tail := ExpectDelim(s.dec, '}').dec.rest;
  }

  lemma {:induction false} MembersDrainSound(c: Config, s: It) returns (members: seq<Member>, tail: Kinds)
    requires InMembers(s) && IsObject(c) && Drain(c, s).err == EOF
    ensures c.closeErr.None?
    ensures s.dec.rest == FlattenMembers(Lead(s.dec), members) + ([RBrace] + tail)
    decreases |s.dec.rest|
  {
    hide Next;
    var n := Next(c, s);
    if n.out.Stop? {
      tail := MembersStop(c, s);
      members := [];
      assert s.dec.rest == [] + ([RBrace] + tail);
    } else {
      var x := MemberSound(c, s);
      members, tail := MembersDrainSound(c, n.it);
      MembersCons(Lead(s.dec), x, members, [RBrace] + tail);
      members := [x] + members;
    }
  }

  /** Object mode on any object: every member in order, then the end, and nothing past the brace consumed. */
  lemma {:induction false} ObjectReads(c: Config, end: Error, members: seq<Member>, tail: Kinds)
    requires IsObject(c)
    ensures Drain(c, Start(Flatten(JObj(members)) + tail, end, NoMeta)) ==
            Run(Named(members), if c.closeErr.Some? then c.closeErr.value else EOF,
                It(NewDec(tail, end), true, true, NoMeta))
  {
    hide Drain, ExpectDelim, Closed;
    var ks := Flatten(JObj(members)) + tail;
    OpenBrace(ks, end);
    DrainBegun(c, Start(ks, end, NoMeta));
    assert ks[1..] == FlattenMembers(false, members) + ([RBrace] + tail);
    var d := Inside(ks[1..], end, ObjectStart);
    MembersDrain(c, It(d, true, false, NoMeta), members, tail);
    ClosedTop(ks[1..], tail, end);
  }

  /** Object mode: EOF is reported exactly when the stream begins with a complete object, whose members the rows are. */
  lemma {:induction false} ObjectExact(c: Config, ks: Kinds, end: Error, rows: seq<Item>)
    requires IsObject(c)
    ensures var run := Drain(c, Start(ks, end, NoMeta));
            (run.err == EOF && run.rows == rows) <==>
            c.closeErr.None? &&
            exists members, tail :: ks == Flatten(JObj(members)) + tail && Named(members) == rows
  {
    hide Drain, ExpectDelim, Named, FlattenMembers;
    var run := Drain(c, Start(ks, end, NoMeta));
    if run.err == EOF {
      OpenBrace(ks, end);
      DrainBegun(c, Start(ks, end, NoMeta));
      var members, tail := MembersDrainSound(c, It(Inside(ks[1..], end, ObjectStart), true, false, NoMeta));
      assert ks == [LBrace] + ks[1..];
      assert ks == Flatten(JObj(members)) + tail;
      ObjectReads(c, end, members, tail);
    }
    if members, tail :| ks == Flatten(JObj(members)) + tail && Named(members) == rows {
      ObjectReads(c, end, members, tail);
    }
  }

  // ------------------------------------------------------------- continuous mode

  predicate IsContinuous(c: Config) {
    Continuous(c) && c.parser != RevsDiffParser && c.closeErr != Some(EOF)
  }

  function FlattenAll(items: seq<Value>): Kinds {
    if items == [] then [] else Flatten(items[0]) + FlattenAll(items[1..])
  }

  function Feed(ks: Kinds, end: Error, m: Meta): It {
    It(NewDec(ks, end), true, false, m)
  }

  lemma {:induction false} FeedReads(c: Config, v: Value, rest: Kinds, end: Error, m: Meta)
    requires IsContinuous(c)
    ensures Next(c, Feed(Flatten(v) + rest, end, m)) == NextStep(Row(Item("", v)), Feed(rest, end, m))
  {
    hide Ending;
    FlattenHead(v);
    ScanFlatten(v, rest);
  }

  lemma {:induction false} FeedSound(c: Config, ks: Kinds, end: Error, m: Meta) returns (v: Value)
    requires IsContinuous(c) && Next(c, Feed(ks, end, m)).out.Row?
    ensures var n := Next(c, Feed(ks, end, m));
            n.out == Row(Item("", v)) && n.it == Feed(n.it.dec.rest, end, m) && ks == Flatten(v) + n.it.dec.rest
  {
    hide Ending;
    ScanSound(ks);
    v := ScanValue(ks).value;
  }

  lemma {:induction false} FeedStop(c: Config, ks: Kinds, end: Error, m: Meta)
    requires IsContinuous(c) && c.parser == ChangesParser
    ensures Next(c, Feed(ks, end, m)).out == Stop(EOF) <==> ks == [] && end == EOF && c.closeErr.None?
    ensures ks == [] && end == EOF ==>
              Next(c, Feed(ks, end, m)) ==
              NextStep(Stop(if c.closeErr.Some? then c.closeErr.value else EOF), It(NewDec([], EOF), true, true, m))
  {
    hide ScanValue;
    if ks != [] && !More(Feed(ks, end, m).dec) {
      assert TokenStep(NewDec(ks, end)).res == Err(SyntaxError);
    }
  }

  lemma {:induction false} FeedDrain(c: Config, items: seq<Value>, m: Meta)
    requires IsContinuous(c) && c.parser == ChangesParser
    ensures Drain(c, Feed(FlattenAll(items), EOF, m)) ==
            Run(Plain(items), if c.closeErr.Some? then c.closeErr.value else EOF, It(NewDec([], EOF), true, true, m))
    decreases |items|
  {
    hide Next;
    if items == [] {
      FeedStop(c, [], EOF, m);
    } else {
      FeedReads(c, items[0], FlattenAll(items[1..]), EOF, m);
      FeedDrain(c, items[1..], m);
      assert Plain(items) == [Item("", items[0])] + Plain(items[1..]);
    }
  }

  lemma {:induction false} FeedDrainSound(c: Config, ks: Kinds, end: Error, m: Meta) returns (items: seq<Value>)
    requires IsContinuous(c) && c.parser == ChangesParser && Drain(c, Feed(ks, end, m)).err == EOF
    ensures ks == FlattenAll(items) && end == EOF && c.closeErr.None?
    decreases |ks|
  {
    hide Next;
    var n := Next(c, Feed(ks, end, m));
    if n.out.Stop? {
      FeedStop(c, ks, end, m);
      items := [];
    } else {
      var v := FeedSound(c, ks, end, m);
      items := FeedDrainSound(c, n.it.dec.rest, end, m);
      items := [v] + items;
    }
  }

  /**
   Continuous mode: EOF is reported exactly when the whole stream is a sequence of complete
   values that ends without a read error; a stray closing delimiter never looks like EOF.
   No metadata is ever read.
   */
  lemma {:induction false} ContinuousExact(c: Config, ks: Kinds, end: Error, m: Meta, rows: seq<Item>)
    requires IsContinuous(c) && c.parser == ChangesParser
    ensures var run := Drain(c, Start(ks, end, m));
            (run.err == EOF && run.rows == rows) <==>
            end == EOF && c.closeErr.None? && exists items :: ks == FlattenAll(items) && Plain(items) == rows
    ensures Drain(c, Start(ks, end, m)).err == EOF ==> Drain(c, Start(ks, end, m)).it.meta == m
  {
    hide Drain, FlattenAll, Plain;
    DrainBegun(c, Start(ks, end, m));
    if Drain(c, Start(ks, end, m)).err == EOF {
      var items := FeedDrainSound(c, ks, end, m);
      FeedDrain(c, items, m);
    }
    if items :| end == EOF && c.closeErr.None? && ks == FlattenAll(items) && Plain(items) == rows {
      FeedDrain(c, items, m);
    }
  }

  // -------------------------------------------------------------- after the end

  function NextTimes(c: Config, s: It, n: nat): It
    decreases n
  {
    if n == 0 then s else NextTimes(c, Next(c, s).it, n - 1)
  }

  /** After EOF every later call answers EOF and changes nothing. */
  lemma {:induction false} EofForever(c: Config, s: It, n: nat)
    requires Next(c, s).out == Stop(EOF)
    ensures var s' := Next(c, s).it;
            NextTimes(c, s', n) == s' && Next(c, NextTimes(c, s', n)).out == Stop(EOF)
    decreases n
  {
    hide RowStep, Begin;
    if n > 0 {
      var s' := Next(c, s).it;
      assert Next(c, s') == NextStep(Stop(EOF), s');
      EofForever(c, s', n - 1);
    }
  }
}
