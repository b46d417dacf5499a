/**
 The multi-query iterator from end to end: which responses it drains to EOF, what it
 delivers for them, and how its fallback compares with the plain iterator.
 */
module MultiTheorems {
  import opened Errors
  import opened Json
  import opened Decoding
  import opened Metadata
  import opened IterSpec
  import opened Members
  import opened Envelope
  import opened IterTheorems
  import opened MultiSpec

  function RowEvents(index: nat, rows: seq<Item>): (r: seq<Event>)
    ensures |r| == |rows|
  {
    seq(|rows|, i requires 0 <= i < |rows| => RowOf(index, rows[i]))
  }

  lemma {:induction false} RowEventsCons(index: nat, x: Item, rows: seq<Item>)
    ensures RowEvents(index, [x] + rows) == [RowOf(index, x)] + RowEvents(index, rows)
  {
  }

  predicate InQuery(m: Multi) {
    Usable(m) && InStep(m) && m.begun && !RowsClosed(m)
  }

  /** The state once the rows of the current query are at `s`. */
  function WithRows(m: Multi, s: It): Multi {
    m.(rows := Some(s), dec := if m.legacy then m.dec else s.dec)
  }

  /** Unfolds a run by one call inside a query. */
  lemma {:induction false} DrainMultiStep(m: Multi, closeErr: Option<Error>)
    requires InQuery(m)
    ensures var n := Next(QUERY, m.rows.value);
            var m' := WithRows(m, n.it);
            Usable(m') && InStep(m') &&
            match n.out
            case Row(x) =>
              InQuery(m') && Left(m') < Left(m) &&
              var r := DrainMulti(m', closeErr);
              DrainMulti(m, closeErr) == MultiRun([RowOf(m.index, x)] + r.events, r.err, r.multi)
            case Stop(e) =>
              if e == EOF && !m.legacy then
                RowsClosed(m') &&
                var r := DrainMulti(m', closeErr);
                DrainMulti(m, closeErr) == MultiRun([EndOf(m.index, n.it.meta)] + r.events, r.err, r.multi)
              else DrainMulti(m, closeErr) == MultiRun([], e, m')
  {
    hide Next, DrainMulti;
    var n := Next(QUERY, m.rows.value);
    NextBegun(QUERY, m.rows.value);
    assert NextMulti(m, closeErr) == NextInQuery(m);
    assert NextInQuery(m).multi == WithRows(m, n.it);
    DrainMultiUnfold(m, closeErr);
  }

  lemma {:induction false} DrainMultiUnfold(m: Multi, closeErr: Option<Error>)
    requires Usable(m) && InStep(m)
    ensures var s := NextMulti(m, closeErr);
            if s.answer.Ended? then DrainMulti(m, closeErr) == MultiRun([], s.answer.err, s.multi)
            else
              Usable(s.multi) && InStep(s.multi) && s.multi.begun &&
              var r := DrainMulti(s.multi, closeErr);
              DrainMulti(m, closeErr) == MultiRun([EventOf(s.answer, s.multi)] + r.events, r.err, r.multi)
  {
    hide NextMulti;
    if !NextMulti(m, closeErr).answer.Ended? {
      MultiProgress(m, closeErr);
    }
  }

  /**
   Within one query the multi-query iterator is the plain iterator: the same rows, and an
   end-of-query mark where the plain one, outside legacy mode, reports EOF.
   */
  lemma {:induction false} QueryFollows(m: Multi, closeErr: Option<Error>)
    requires InQuery(m)
    ensures var r := Drain(QUERY, m.rows.value);
            var m' := WithRows(m, r.it);
            if r.err == EOF && !m.legacy then
              Usable(m') && InStep(m') && RowsClosed(m') &&
              var rest := DrainMulti(m', closeErr);
              DrainMulti(m, closeErr) ==
              MultiRun(RowEvents(m.index, r.rows) + ([EndOf(m.index, r.it.meta)] + rest.events), rest.err, rest.multi)
            else
              DrainMulti(m, closeErr) == MultiRun(RowEvents(m.index, r.rows), r.err, m')
    decreases Left(m)
  {
    hide Next, DrainMulti, RowEvents;
    var n := Next(QUERY, m.rows.value);
    DrainMultiStep(m, closeErr);
    if n.out.Row? {
      QueryFollows(WithRows(m, n.it), closeErr);
      RowEventsCons(m.index, n.out.item, Drain(QUERY, n.it).rows);
    } else {
      RowEventsNil(m.index);
    }
  }

  lemma {:induction false} RowEventsNil(index: nat)
    ensures RowEvents(index, []) == []
  {
  }

  lemma {:induction false} NextBegun(c: Config, s: It)
    requires s.begun
    ensures Next(c, s).it.begun
  {
    hide RowStep;
  }

  // ------------------------------------------------- several results, one after another

  function QueryText(r: Response): Kinds {
    [LBrace] + Body("rows", r) + [RBrace]
  }

  function FlattenQueries(lead: bool, rs: seq<Response>): Kinds
    decreases |rs|
  {
    if rs == [] then [] else Sep(lead) + QueryText(rs[0]) + FlattenQueries(true, rs[1..])
  }

  /** The results of one query: its rows, then its end with the metadata that it set. */
  function QueryEvents(index: nat, rs: seq<Response>): seq<Event>
    decreases |rs|
  {
    if rs == [] then []
    else
      RowEvents(index, Plain(rs[0].items)) +
      ([EndOf(index, Final(EMPTY_ROWS_META, rs[0].pre + rs[0].post))] + QueryEvents(index + 1, rs[1..]))
  }

  predicate AllAcceptable(rs: seq<Response>) {
    forall r :: r in rs ==> Acceptable("rows", EMPTY_ROWS_META, r)
  }

  /** The shared decoder between two results. */
  function Between(rest: Kinds, end: Error, lead: bool): Dec {
    Dec(rest, end, if lead then ArrayComma else ArrayStart, [TopValue, ObjectValue], None)
  }

  /** The shared decoder at the first member of a result. */
  function InResult(rest: Kinds, end: Error, lead: bool): Dec {
    Dec(rest, end, ObjectStart, [TopValue, ObjectValue, if lead then ArrayValue else ArrayStart], None)
  }

  lemma {:induction false} BraceReads(ks: Kinds, end: Error, lead: bool)
    ensures ExpectDelim(Between(Sep(lead) + [LBrace] + ks, end, lead), '{') == Try(None, InResult(ks, end, lead))
  {
    var d := Between(Sep(lead) + [LBrace] + ks, end, lead);
    var st := if lead then ArrayValue else ArrayStart;
    assert [TopValue, ObjectValue] + [st] == [TopValue, ObjectValue, st];
    if lead {
      assert d.rest[1..] == [LBrace] + ks;
      assert TokenStep(d) == TokenStep(Skip(d, ArrayValue));
      assert ([LBrace] + ks)[1..] == ks;
    } else {
      assert d.rest[1..] == ks;
    }
  }

  /** The brace that must stand here, no comma before it. */
  lemma {:induction false} BraceHere(d: Dec)
    requires d.stack == [TopValue, ObjectValue] && (d.st == ArrayStart || d.st == ArrayValue) && d.failed.None?
    ensures var t := ExpectDelim(d, '{');
            t.dec.end == d.end &&
            (t.err == Some(UnexpectedDelim(']')) <==> d.st == ArrayStart && d.rest != [] && d.rest[0] == RBracket) &&
            (t.err.None? ==> d.rest == [LBrace] + t.dec.rest &&
                             t.dec == Dec(t.dec.rest, d.end, ObjectStart, [TopValue, ObjectValue, d.st], None))
  {
    hide ScanValue;
    assert [TopValue, ObjectValue] + [d.st] == [TopValue, ObjectValue, d.st];
    if d.rest != [] {
      assert d.rest == [d.rest[0]] + d.rest[1..];
    }
  }

  lemma {:induction false} BraceSound(rest: Kinds, end: Error, lead: bool)
    ensures var t := ExpectDelim(Between(rest, end, lead), '{');
            (t.err == Some(UnexpectedDelim(']')) <==> rest != [] && rest[0] == RBracket) &&
            (t.err.None? ==> rest == Sep(lead) + [LBrace] + t.dec.rest && t.dec == InResult(t.dec.rest, end, lead)) &&
            t.dec.end == end
  {
    hide ScanValue;
    var d := Between(rest, end, lead);
    if !lead {
      BraceHere(d);
    } else if rest != [] && rest[0] == Comma {
      var d1 := Skip(d, ArrayValue);
      assert TokenStep(d) == TokenStep(d1);
      BraceHere(d1);
      assert rest == [Comma] + d1.rest;
    }
  }

  /** Between queries: the previous result has ended and left `meta`. */
  function Paused(rest: Kinds, end: Error, index: nat, meta: Meta): Multi {
    Multi(Between(rest, end, true), true, Some(It(Between(rest, end, true), true, true, meta)), index, 0, false)
  }

  /** In a query whose members begin at `ks`, at its rows. */
  function Running(ks: Kinds, end: Error, lead: bool, index: nat): Multi {
    var b := BeginLoop("rows", InResult(ks, end, lead), EMPTY_ROWS_META);
    Multi(b.dec, true, Some(It(b.dec, true, false, b.meta)), index, 0, false)
  }

  function HeadError(ks: Kinds, end: Error, lead: bool): Option<Error> {
    BeginLoop("rows", InResult(ks, end, lead), EMPTY_ROWS_META).err
  }

  lemma {:induction false} DrainBodyOf(ks: Kinds, end: Error, lead: bool, index: nat)
    ensures Drain(QUERY, Running(ks, end, lead, index).rows.value) ==
            DrainBody(QUERY, InResult(ks, end, lead), EMPTY_ROWS_META)
  {
    hide BeginLoop, Drain;
  }

  lemma {:induction false} ClosedResult(ks: Kinds, end: Error, lead: bool, tail: Kinds)
    ensures Closed(InResult(ks, end, lead), tail) == Between(tail, end, true)
  {
    var stack := [TopValue, ObjectValue, if lead then ArrayValue else ArrayStart];
    assert stack[..2] == [TopValue, ObjectValue];
  }

  /** One complete result: its rows and its end, and then the run goes on behind it. */
  lemma {:induction false} ResultRuns(
      ks: Kinds, end: Error, lead: bool, index: nat, r: Response, tail: Kinds, closeErr: Option<Error>)
    requires Acceptable("rows", EMPTY_ROWS_META, r)
    requires ks == Body("rows", r) + ([RBrace] + tail)
    ensures HeadError(ks, end, lead).None? && InQuery(Running(ks, end, lead, index))
    ensures var meta := Final(EMPTY_ROWS_META, r.pre + r.post);
            var rest := DrainMulti(Paused(tail, end, index, meta), closeErr);
            DrainMulti(Running(ks, end, lead, index), closeErr) ==
            MultiRun(RowEvents(index, Plain(r.items)) + ([EndOf(index, meta)] + rest.events), rest.err, rest.multi)
  {
    hide DrainMulti, Drain, DrainBody, BeginLoop, Body, Final, Closed, RowEvents, Plain;
    BodyReads(QUERY, InResult(ks, end, lead), EMPTY_ROWS_META, r, tail);
    ClosedResult(ks, end, lead, tail);
    DrainBodyOf(ks, end, lead, index);
    QueryFollows(Running(ks, end, lead, index), closeErr);
  }

  /** An error that comes out of the reader itself. */
  predicate ReaderError(e: Error) {
    e == EOF || e.ReadFailure?
  }

  lemma {:induction false} DecodeErrorIsPlain(d: Dec)
    requires d.failed.None? && DecodeStep(d).res.Err?
    ensures DecodeStep(d).res.error in {d.end, EOF, UnexpectedEOF, SyntaxError}
  {
    hide ScanValue;
  }

  lemma {:induction false} TokenErrorIsPlain(d: Dec)
    requires d.failed.None? && TokenStep(d).res.Err?
    ensures TokenStep(d).res.error in {d.end, EOF, UnexpectedEOF, SyntaxError}
    decreases |d.rest|
  {
    hide DecodeStep;
    if d.rest != [] {
      if d.rest[0] == Colon && d.st == ObjectColon {
        TokenErrorIsPlain(Skip(d, ObjectValue));
      } else if d.rest[0] == Comma && d.st == ArrayComma {
        TokenErrorIsPlain(Skip(d, ArrayValue));
      } else if d.rest[0] == Comma && d.st == ObjectComma {
        TokenErrorIsPlain(Skip(d, ObjectKey));
      } else if ValueAllowed(d.st) && DecodeStep(d).res.Err? {
        DecodeErrorIsPlain(d);
      }
    }
  }

  lemma {:induction false} BracketError(d: Dec)
    requires AtColon(d)
    ensures ExpectDelim(d, '[').err != Some(UnexpectedDelim(']'))
  {
    hide DecodeStep;
    if d.rest != [] && d.rest[0] == Colon {
      assert TokenStep(d) == TokenStep(Skip(d, ObjectValue));
    }
  }

  lemma {:induction false} StoreErrorIsPlain(m: Meta)
    ensures forall key, v :: Store(m, key, v) != Err(UnexpectedDelim(']'))
  {
    hide ParseInt64;
  }

  /** The metadata loop never mistakes the end of the result array for its own. */
  lemma {:induction false} HeadErrorIsNoBracket(key: string, d: Dec, m: Meta)
    requires AtMember(d) && !m.NoMeta? && ReaderError(d.end)
    ensures BeginLoop(key, d, m).err != Some(UnexpectedDelim(']'))
    decreases |d.rest|
  {
    hide DecodeStep, Store, TokenStep, ExpectDelim;
    var k := NextKey(d);
    if k.res.Err? {
      if TokenStep(d).res.Err? {
        TokenErrorIsPlain(d);
      }
    } else {
      KeySound(d);
      if k.res.value == key {
        BracketError(k.dec);
      } else if ParseMeta(k.dec, m, k.res.value).err.Some? {
        if DecodeStep(k.dec).res.Err? {
          DecodeErrorIsPlain(k.dec);
        }
        StoreErrorIsPlain(m);
      } else {
        var v := MetaSound(k.dec, m, k.res.value);
        var p := ParseMeta(k.dec, m, k.res.value);
        HeadErrorIsNoBracket(key, p.dec, p.meta);
      }
    }
  }

  /** The iterator has closed itself behind the last result. */
  predicate ClosedOnce(m: Multi) {
    m.closes == 1 && !m.legacy && RowsClosed(m) && !m.begun
  }

  function CloseAnswer(end: Error, closeErr: Option<Error>): Error {
    if end != EOF then end else if closeErr.Some? then closeErr.value else EOF
  }

  /** A call has failed at the end of the stream and left the iterator open there. */
  predicate Stranded(m: Multi) {
    m.closes == 0 && !m.legacy && m.begun && InStep(m) && m.dec.rest == [] && (m.rows.Some? ==> m.rows.value.begun)
  }

  /** What the call behind the end of one result does. */
  lemma {:induction false} PausedStep(rest: Kinds, end: Error, index: nat, meta: Meta, closeErr: Option<Error>)
    requires ReaderError(end)
    ensures Usable(Paused(rest, end, index, meta)) && InStep(Paused(rest, end, index, meta))
    ensures var run := DrainMulti(Paused(rest, end, index, meta), closeErr);
            var t := ExpectDelim(Between(rest, end, true), '{');
            if rest != [] && rest[0] == RBracket then
              run.events == [] && run.err == CloseAnswer(end, closeErr) && ClosedOnce(run.multi)
            else if t.err.Some? then run.events == [] && run.err == t.err.value
            else if HeadError(t.dec.rest, end, true).Some? then
              run.events == [] && run.err == HeadError(t.dec.rest, end, true).value &&
              (Running(t.dec.rest, end, true, 0).dec.rest == [] ==> Stranded(run.multi))
            else
              InQuery(Running(t.dec.rest, end, true, index + 1)) &&
              run == DrainMulti(Running(t.dec.rest, end, true, index + 1), closeErr)
  {
    hide DrainMulti, BeginLoop, ExpectDelim, NextInQuery;
    var m := Paused(rest, end, index, meta);
    var t := ExpectDelim(Between(rest, end, true), '{');
    BraceSound(rest, end, true);
    DrainMultiUnfold(m, closeErr);
    if t.err.None? {
      HeadErrorIsNoBracket("rows", t.dec, EMPTY_ROWS_META);
      if HeadError(t.dec.rest, end, true).None? {
        var o := Running(t.dec.rest, end, true, index + 1);
        assert NextQuery(m, closeErr) == Opening(None, o);
        DrainMultiUnfold(o, closeErr);
      }
    }
  }

  /** Up to the first member of the result at the front. */
  lemma {:induction false} QueriesCons(lead: bool, r: Response, rs: seq<Response>, tail: Kinds)
    ensures FlattenQueries(lead, [r] + rs) + tail ==
            Sep(lead) + [LBrace] + (Body("rows", r) + ([RBrace] + (FlattenQueries(true, rs) + tail)))
  {
    hide Body;
    assert ([r] + rs)[1..] == rs;
  }

  lemma {:induction false} EventsCons(index: nat, r: Response, rs: seq<Response>)
    ensures QueryEvents(index, [r] + rs) ==
            RowEvents(index, Plain(r.items)) +
            ([EndOf(index, Final(EMPTY_ROWS_META, r.pre + r.post))] + QueryEvents(index + 1, rs))
  {
    assert ([r] + rs)[1..] == rs;
  }

  /** All the results that are left, then the end of the array, then EOF. */
  lemma {:induction false} QueriesRead(
      rs: seq<Response>, tail: Kinds, end: Error, index: nat, meta: Meta, closeErr: Option<Error>)
    requires AllAcceptable(rs) && ReaderError(end)
    ensures var run := DrainMulti(Paused(FlattenQueries(true, rs) + ([RBracket] + tail), end, index, meta), closeErr);
            run.events == QueryEvents(index + 1, rs) && run.err == CloseAnswer(end, closeErr) && ClosedOnce(run.multi)
    decreases |rs|
  {
    hide DrainMulti, Running, HeadError, Body, RowEvents, Plain, Final, Acceptable, ExpectDelim;
    var after := [RBracket] + tail;
    var rest := FlattenQueries(true, rs) + after;
    PausedStep(rest, end, index, meta, closeErr);
    if rs == [] {
      assert rest == after;
    } else {
      var r, more := rs[0], FlattenQueries(true, rs[1..]) + after;
      assert rs == [r] + rs[1..];
      var ks := Body("rows", r) + ([RBrace] + more);
      QueriesCons(true, r, rs[1..], after);
      assert rest == Sep(true) + [LBrace] + ks;
      BraceReads(ks, end, true);
      ResultRuns(ks, end, true, index + 1, r, more, closeErr);
      QueriesRead(rs[1..], tail, end, index + 1, Final(EMPTY_ROWS_META, r.pre + r.post), closeErr);
      EventsCons(index + 1, r, rs[1..]);
    }
  }

  /** A result that breaks off in the metadata before its rows. */
  function CutText(lead: bool, pre: seq<Member>, cut: Kinds): Kinds {
    Sep(lead) + [LBrace] + (FlattenMembers(false, pre) + cut)
  }

  predicate IsCut(pre: seq<Member>, cut: Kinds) {
    NoKey(pre, "rows") && StoreAll(EMPTY_ROWS_META, pre).Ok? && HeadCut(pre != [], "rows", cut)
  }

  lemma {:induction false} CutHead(pre: seq<Member>, cut: Kinds, lead: bool)
    requires IsCut(pre, cut)
    ensures HeadError(FlattenMembers(false, pre) + cut, EOF, lead) == Some(EOF)
    ensures Running(FlattenMembers(false, pre) + cut, EOF, lead, 0).dec.rest == []
  {
    hide BeginLoop, HeadCut, StoreAll;
    BeginCut("rows", InResult(FlattenMembers(false, pre) + cut, EOF, lead), EMPTY_ROWS_META, pre, cut);
  }

  /** The raw EOF of such a result ends the run like the end of a complete response. */
  lemma {:induction false} QueriesCut(
      rs: seq<Response>, pre: seq<Member>, cut: Kinds, index: nat, meta: Meta, closeErr: Option<Error>)
    requires AllAcceptable(rs) && IsCut(pre, cut)
    ensures var rest := FlattenQueries(true, rs) + CutText(true, pre, cut);
            var run := DrainMulti(Paused(rest, EOF, index, meta), closeErr);
            run.events == QueryEvents(index + 1, rs) && run.err == EOF && Stranded(run.multi)
    decreases |rs|
  {
    hide DrainMulti, Running, HeadError, Body, RowEvents, Plain, Final, Acceptable, ExpectDelim, IsCut;
    var after := CutText(true, pre, cut);
    var rest := FlattenQueries(true, rs) + after;
    PausedStep(rest, EOF, index, meta, closeErr);
    if rs == [] {
      assert rest == after;
      BraceReads(FlattenMembers(false, pre) + cut, EOF, true);
      CutHead(pre, cut, true);
    } else {
      hide CutText;
      var r, more := rs[0], FlattenQueries(true, rs[1..]) + after;
      assert rs == [r] + rs[1..];
      var ks := Body("rows", r) + ([RBrace] + more);
      QueriesCons(true, r, rs[1..], after);
      assert rest == Sep(true) + [LBrace] + ks;
      BraceReads(ks, EOF, true);
      ResultRuns(ks, EOF, true, index + 1, r, more, closeErr);
      QueriesCut(rs[1..], pre, cut, index + 1, Final(EMPTY_ROWS_META, r.pre + r.post), closeErr);
      EventsCons(index + 1, r, rs[1..]);
    }
  }

  /** With nothing left behind a result, the next call reports a gateway error. */
  lemma {:induction false} PausedAtEnd(m: Multi, closeErr: Option<Error>)
    requires Usable(m) && InStep(m) && m.begun && !m.legacy && RowsClosed(m) && m.dec.rest == []
    ensures DrainMulti(m, closeErr) == MultiRun([], Gateway(m.dec.end), DrainMulti(m, closeErr).multi)
  {
    hide DrainMulti, BeginLoop;
    NoDelimAtEnd(m.dec, '{');
    DrainMultiUnfold(m, closeErr);
  }

  /** A run from inside a result that reaches EOF has read that result completely. */
  lemma {:induction false} RunningSound(ks: Kinds, end: Error, lead: bool, index: nat, closeErr: Option<Error>)
    returns (r: Response, tail: Kinds)
    requires HeadError(ks, end, lead).None? && InQuery(Running(ks, end, lead, index))
    requires DrainMulti(Running(ks, end, lead, index), closeErr).err == EOF
    ensures Acceptable("rows", EMPTY_ROWS_META, r) && ks == Body("rows", r) + ([RBrace] + tail)
    ensures DrainMulti(Paused(tail, end, index, Final(EMPTY_ROWS_META, r.pre + r.post)), closeErr).err == EOF
  {
    hide DrainMulti, Drain, DrainBody, BeginLoop, Body, Final, RowEvents, Plain, Acceptable, CutOff;
    var d := InResult(ks, end, lead);
    DrainBodyOf(ks, end, lead, index);
    QueryFollows(Running(ks, end, lead, index), closeErr);
    r, tail := BodySound(QUERY, d, EMPTY_ROWS_META);
    if ks == Body("rows", r) + ([RBrace] + tail) {
      ResultRuns(ks, end, lead, index, r, tail, closeErr);
    } else {
      BodyCutShort(QUERY, d, EMPTY_ROWS_META, r, tail);
      PausedAtEnd(WithRows(Running(ks, end, lead, index), DrainBody(QUERY, d, EMPTY_ROWS_META).it), closeErr);
    }
  }

  /** How a stream may end behind `rs`: completely, or cut off inside the next result's metadata. */
  predicate Ends(lead: bool, rest: Kinds, end: Error, closeErr: Option<Error>,
                 rs: seq<Response>, pre: seq<Member>, tail: Kinds) {
    AllAcceptable(rs) && end == EOF &&
    ((closeErr.None? && rest == FlattenQueries(lead, rs) + ([RBracket] + tail)) ||
     (IsCut(pre, tail) && rest == FlattenQueries(lead, rs) + CutText(lead || rs != [], pre, tail)))
  }

  lemma {:induction false} CutSound(ks: Kinds, end: Error, lead: bool) returns (pre: seq<Member>, cut: Kinds)
    requires HeadError(ks, end, lead) == Some(EOF)
    ensures end == EOF && IsCut(pre, cut) && ks == FlattenMembers(false, pre) + cut
  {
    hide BeginLoop, HeadCut, StoreAll;
    pre, cut := BeginEof("rows", InResult(ks, end, lead), EMPTY_ROWS_META);
  }

  lemma {:induction false} QueriesSound(rest: Kinds, end: Error, index: nat, meta: Meta, closeErr: Option<Error>)
    returns (rs: seq<Response>, pre: seq<Member>, tail: Kinds)
    requires ReaderError(end) && closeErr != Some(EOF)
    requires Usable(Paused(rest, end, index, meta)) && InStep(Paused(rest, end, index, meta))
    requires DrainMulti(Paused(rest, end, index, meta), closeErr).err == EOF
    ensures Ends(true, rest, end, closeErr, rs, pre, tail)
    decreases |rest|
  {
    hide DrainMulti, Running, HeadError, Body, RowEvents, Plain, Final, Acceptable, ExpectDelim, IsCut;
    PausedStep(rest, end, index, meta, closeErr);
    BraceSound(rest, end, true);
    rs, pre, tail := [], [], [];
    if rest != [] && rest[0] == RBracket {
      tail := rest[1..];
      assert rest == [] + ([RBracket] + tail);
    } else {
      var t := ExpectDelim(Between(rest, end, true), '{');
      ExpectDelimNoEof(Between(rest, end, true), '{');
      var ks := t.dec.rest;
      if HeadError(ks, end, true).Some? {
        pre, tail := CutSound(ks, end, true);
        assert rest == [] + CutText(true, pre, tail);
      } else {
        hide CutText;
        var r, more := RunningSound(ks, end, true, index + 1, closeErr);
        PausedShape(more, end, index + 1, Final(EMPTY_ROWS_META, r.pre + r.post));
        rs, pre, tail := QueriesSound(more, end, index + 1, Final(EMPTY_ROWS_META, r.pre + r.post), closeErr);
        QueriesCons(true, r, rs, [RBracket] + tail);
        QueriesCons(true, r, rs, CutText(true, pre, tail));
        rs := [r] + rs;
      }
    }
  }

  lemma {:induction false} ExpectDelimNoEof(d: Dec, c: char)
    ensures ExpectDelim(d, c).err != Some(EOF)
  {
    hide TokenStep;
  }

  lemma {:induction false} PausedShape(rest: Kinds, end: Error, index: nat, meta: Meta)
    ensures Usable(Paused(rest, end, index, meta)) && InStep(Paused(rest, end, index, meta))
  {
  }

  // --------------------------------------------------------------- whole responses

  const RESULTS_HEAD: Kinds := [LBrace, Str("results"), Colon, LBracket]

  /** The response begins with a member other than `results`. */
  predicate IsLegacy(ks: Kinds) {
    |ks| >= 2 && ks[0] == LBrace && ks[1].Str? && ks[1].s != "results"
  }

  /** The first call on a response that begins with the `results` array. */
  lemma {:induction false} StartStep(rest: Kinds, end: Error, closeErr: Option<Error>)
    ensures var m := StartMulti(RESULTS_HEAD + rest, end);
            var run := DrainMulti(m, closeErr);
            var t := ExpectDelim(Between(rest, end, false), '{');
            if t.err.Some? then run.events == [] && run.err == t.err.value
            else if HeadError(t.dec.rest, end, false).Some? then
              run.events == [] && run.err == HeadError(t.dec.rest, end, false).value &&
              (Running(t.dec.rest, end, false, 0).dec.rest == [] ==> Stranded(run.multi))
            else
              InQuery(Running(t.dec.rest, end, false, 0)) &&
              run == DrainMulti(Running(t.dec.rest, end, false, 0), closeErr)
  {
    hide DrainMulti, BeginLoop, NextInQuery, ExpectDelim;
    var m := StartMulti(RESULTS_HEAD + rest, end);
    StartDecoder(rest, end);
    BraceSound(rest, end, false);
    var t := ExpectDelim(Between(rest, end, false), '{');
    DrainMultiUnfold(m, closeErr);
    if t.err.None? && HeadError(t.dec.rest, end, false).None? {
      var o := Running(t.dec.rest, end, false, 0);
      assert BeginMulti(m) == Opening(None, o);
      DrainMultiUnfold(o, closeErr);
    }
  }

  lemma {:induction false} StartDecoder(rest: Kinds, end: Error)
    ensures var a := ExpectDelim(NewDec(RESULTS_HEAD + rest, end), '{');
            var k := NextKey(a.dec);
            a.err.None? && k.res == Ok("results") &&
            ExpectDelim(k.dec, '[') == Try(None, Between(rest, end, false))
  {
    hide ExpectDelim, TokenStep;
    var ks := RESULTS_HEAD + rest;
    OpenBrace(ks, end);
    var d := Inside(ks[1..], end, ObjectStart);
    assert d.rest == Sep(false) + [Str("results")] + ([Colon, LBracket] + rest);
    KeyReads(d, "results", [Colon, LBracket] + rest);
    ArrayOpenReads(At(d, [Colon, LBracket] + rest, ObjectColon), rest);
    assert [TopValue] + [ObjectValue] == [TopValue, ObjectValue];
  }

  /**
   A complete multi-query response of one or more results: each result's rows in order and
   its end-of-query mark with its own metadata, numbered from zero, and then EOF.
   */
  lemma {:induction false} MultiReads(rs: seq<Response>, tail: Kinds, end: Error, closeErr: Option<Error>)
    requires rs != [] && AllAcceptable(rs) && ReaderError(end)
    ensures var ks := RESULTS_HEAD + (FlattenQueries(false, rs) + ([RBracket] + tail));
            var run := DrainMulti(StartMulti(ks, end), closeErr);
            run.events == QueryEvents(0, rs) && run.err == CloseAnswer(end, closeErr) && ClosedOnce(run.multi)
  {
    hide DrainMulti, Running, Paused, HeadError, Body, RowEvents, Plain, Final, Acceptable, ExpectDelim,
      FlattenQueries, QueryEvents, InQuery;
    var after := [RBracket] + tail;
    var r, more := rs[0], FlattenQueries(true, rs[1..]) + after;
    assert rs == [r] + rs[1..];
    var ks := Body("rows", r) + ([RBrace] + more);
    QueriesCons(false, r, rs[1..], after);
    ResultRuns(ks, end, false, 0, r, more, closeErr);
    FirstResult(ks, end, closeErr);
    QueriesRead(rs[1..], tail, end, 0, Final(EMPTY_ROWS_META, r.pre + r.post), closeErr);
    EventsCons(0, r, rs[1..]);
  }

  /** The run as far as the rows of the first result. */
  lemma {:induction false} FirstResult(ks: Kinds, end: Error, closeErr: Option<Error>)
    requires HeadError(ks, end, false).None?
    ensures DrainMulti(StartMulti(RESULTS_HEAD + (Sep(false) + [LBrace] + ks), end), closeErr) ==
            DrainMulti(Running(ks, end, false, 0), closeErr)
  {
    hide DrainMulti, Running, HeadError, ExpectDelim;
    StartStep(Sep(false) + [LBrace] + ks, end, closeErr);
    BraceReads(ks, end, false);
  }

  function Objects(rs: seq<Response>): (r: seq<Value>)
    ensures |r| == |rs|
  {
    seq(|rs|, i requires 0 <= i < |rs| => JObj(rs[i].pre + [Member("rows", JArr(rs[i].items))] + rs[i].post))
  }

  lemma {:induction false} QueriesAreItems(lead: bool, rs: seq<Response>)
    ensures FlattenQueries(lead, rs) == FlattenItems(lead, Objects(rs))
    decreases |rs|
  {
    hide Flatten, Body;
    if rs != [] {
      ResponseIsObject("rows", rs[0]);
      QueriesAreItems(true, rs[1..]);
      FlattenItemsCons(lead, Objects(rs)[0], Objects(rs[1..]));
      assert Objects(rs) == [Objects(rs)[0]] + Objects(rs[1..]);
    }
  }

  /** The lexemes of a multi-query response are those of the JSON object one would expect. */
  lemma {:induction false} QueriesAreObject(rs: seq<Response>)
    ensures RESULTS_HEAD + (FlattenQueries(false, rs) + [RBracket, RBrace]) ==
            Flatten(JObj([Member("results", JArr(Objects(rs)))]))
  {
    hide FlattenQueries, FlattenItems, FlattenMembers, Objects;
    QueriesAreItems(false, rs);
    var x := Member("results", JArr(Objects(rs)));
    var items := FlattenItems(false, Objects(rs));
    OneMember(false, x);
    assert FlattenMember(x) == [Str("results"), Colon] + ([LBracket] + items + [RBracket]);
    assert Flatten(JObj([x])) == [LBrace] + FlattenMember(x) + [RBrace];
  }

  /** An empty `results` array is an error, not an empty response. */
  lemma {:induction false} EmptyResultsFail(tail: Kinds, end: Error, closeErr: Option<Error>)
    ensures var run := DrainMulti(StartMulti(RESULTS_HEAD + ([RBracket] + tail), end), closeErr);
            run.events == [] && run.err == UnexpectedDelim(']')
  {
    hide DrainMulti, ExpectDelim, HeadError, Running;
    StartStep([RBracket] + tail, end, closeErr);
    BraceSound([RBracket] + tail, end, false);
  }

  lemma {:induction false} MultiCut(rs: seq<Response>, pre: seq<Member>, cut: Kinds, closeErr: Option<Error>)
    requires AllAcceptable(rs) && IsCut(pre, cut)
    ensures var ks := RESULTS_HEAD + (FlattenQueries(false, rs) + CutText(rs != [], pre, cut));
            var run := DrainMulti(StartMulti(ks, EOF), closeErr);
            run.events == QueryEvents(0, rs) && run.err == EOF && Stranded(run.multi)
  {
    hide DrainMulti, Running, HeadError, Body, RowEvents, Plain, Final, Acceptable, ExpectDelim, IsCut;
    var after := CutText(rs != [], pre, cut);
    StartStep(FlattenQueries(false, rs) + after, EOF, closeErr);
    if rs == [] {
      assert FlattenQueries(false, rs) + after == after;
      BraceReads(FlattenMembers(false, pre) + cut, EOF, false);
      CutHead(pre, cut, false);
    } else {
      hide CutText;
      var r, more := rs[0], FlattenQueries(true, rs[1..]) + after;
      assert rs == [r] + rs[1..];
      var ks := Body("rows", r) + ([RBrace] + more);
      QueriesCons(false, r, rs[1..], after);
      assert FlattenQueries(false, rs) + after == Sep(false) + [LBrace] + ks;
      BraceReads(ks, EOF, false);
      ResultRuns(ks, EOF, false, 0, r, more, closeErr);
      QueriesCut(rs[1..], pre, cut, 0, Final(EMPTY_ROWS_META, r.pre + r.post), closeErr);
      EventsCons(0, r, rs[1..]);
    }
  }

  /** A response that ends behind its first brace. */
  lemma {:induction false} OnlyBrace(closeErr: Option<Error>)
    ensures DrainMulti(StartMulti([LBrace], EOF), closeErr).err == EOF
    ensures DrainMulti(StartMulti([LBrace], EOF), closeErr).events == []
    ensures Stranded(DrainMulti(StartMulti([LBrace], EOF), closeErr).multi)
  {
    hide DrainMulti, ExpectDelim;
    OpenBrace([LBrace], EOF);
    NextKeyCut(Inside([], EOF, ObjectStart));
    DrainMultiUnfold(StartMulti([LBrace], EOF), closeErr);
  }

  /** The responses that are drained to EOF. */
  predicate MultiStream(ks: Kinds, end: Error, closeErr: Option<Error>,
                        rs: seq<Response>, pre: seq<Member>, tail: Kinds) {
    (ks == [LBrace] && end == EOF && rs == []) ||
    (|ks| >= 4 && ks[..4] == RESULTS_HEAD && Ends(false, ks[4..], end, closeErr, rs, pre, tail) &&
     (rs == [] ==> IsCut(pre, tail) && ks[4..] == CutText(false, pre, tail)))
  }

  lemma {:induction false} MultiSound(ks: Kinds, end: Error, closeErr: Option<Error>)
    returns (rs: seq<Response>, pre: seq<Member>, tail: Kinds)
    requires !IsLegacy(ks) && ReaderError(end) && closeErr != Some(EOF)
    requires DrainMulti(StartMulti(ks, end), closeErr).err == EOF
    ensures MultiStream(ks, end, closeErr, rs, pre, tail)
  {
    hide DrainMulti, Running, HeadError, Body, RowEvents, Plain, Final, Acceptable, ExpectDelim, IsCut;
    rs, pre, tail := [], [], [];
    if ks == [LBrace] && end == EOF {
      return;
    }
    ResultsHeadSound(ks, end, closeErr);
    var rest := ks[4..];
    assert ks == RESULTS_HEAD + rest;
    StartStep(rest, end, closeErr);
    BraceSound(rest, end, false);
    var t := ExpectDelim(Between(rest, end, false), '{');
    ExpectDelimNoEof(Between(rest, end, false), '{');
    if HeadError(t.dec.rest, end, false).Some? {
      pre, tail := CutSound(t.dec.rest, end, false);
      assert rest == CutText(false, pre, tail);
      assert rest == [] + CutText(false, pre, tail);
    } else {
      hide CutText;
      var r, more := RunningSound(t.dec.rest, end, false, 0, closeErr);
      PausedShape(more, end, 0, Final(EMPTY_ROWS_META, r.pre + r.post));
      rs, pre, tail := QueriesSound(more, end, 0, Final(EMPTY_ROWS_META, r.pre + r.post), closeErr);
      QueriesCons(false, r, rs, [RBracket] + tail);
      QueriesCons(false, r, rs, CutText(true, pre, tail));
      rs := [r] + rs;
    }
  }

  lemma {:induction false} KeyErrorIsNoEof(d: Dec)
    requires AtMember(d) && !Lead(d) && (d.rest == [] ==> d.end != EOF) && NextKey(d).res.Err?
    ensures NextKey(d).res.error != EOF
  {
    hide NextKey;
    if NextKey(d).res.error == EOF {
      NextKeyEof(d);
    }
  }

  /** The bracket of the results is there unless opening it failed with a marked error. */
  lemma {:induction false} FirstSound(m: Multi) returns (rest: Kinds)
    requires AtColon(m.dec)
    requires OpenFirst(m, "results").err.None? || OpenFirst(m, "results").err == Some(EOF)
    ensures m.dec.rest == [Colon, LBracket] + rest
  {
    hide OpenQuery, ExpectDelim;
    ExpectDelimNoEof(m.dec, '[');
    ArrayOpenSound(m.dec);
    rest := ExpectDelim(m.dec, '[').dec.rest;
  }

  lemma {:induction false} ResultsHeadSound(ks: Kinds, end: Error, closeErr: Option<Error>)
    requires !IsLegacy(ks) && ReaderError(end) && !(ks == [LBrace] && end == EOF)
    requires Usable(StartMulti(ks, end)) && InStep(StartMulti(ks, end))
    requires DrainMulti(StartMulti(ks, end), closeErr).err == EOF
    ensures |ks| >= 4 && ks[..4] == RESULTS_HEAD
  {
    hide DrainMulti, ExpectDelim, NextKey, OpenFirst, NextInQuery, TokenStep;
    DrainMultiUnfold(StartMulti(ks, end), closeErr);
    OpenBrace(ks, end);
    ExpectDelimNoEof(NewDec(ks, end), '{');
    var d := Inside(ks[1..], end, ObjectStart);
    assert ks == [LBrace] + d.rest;
    var k := NextKey(d);
    if k.res.Err? {
      KeyErrorIsNoEof(d);
    } else {
      KeySound(d);
      assert d.rest == [Str(k.res.value)] + k.dec.rest;
      assert ks[1] == Str(k.res.value);
      var rest := FirstSound(StartMulti(ks, end).(begun := true, dec := k.dec));
      assert ks == RESULTS_HEAD + rest;
    }
  }

  /**
   Exactly which responses end in EOF: complete ones with at least one result, those cut
   off in the metadata before the rows of a result, and a lone opening brace. What has been
   delivered by then is every row and every end of the complete results.
   */
  lemma {:induction false} MultiExact(ks: Kinds, end: Error, closeErr: Option<Error>, events: seq<Event>)
    requires !IsLegacy(ks) && ReaderError(end) && closeErr != Some(EOF)
    ensures var run := DrainMulti(StartMulti(ks, end), closeErr);
            (run.err == EOF && run.events == events) <==>
            exists rs, pre, tail :: MultiStream(ks, end, closeErr, rs, pre, tail) && QueryEvents(0, rs) == events
  {
    hide DrainMulti, MultiStream, QueryEvents;
    if DrainMulti(StartMulti(ks, end), closeErr).err == EOF {
      var rs, pre, tail := MultiSound(ks, end, closeErr);
      MultiDrains(ks, end, closeErr, rs, pre, tail);
    }
    if rs, pre, tail :| MultiStream(ks, end, closeErr, rs, pre, tail) && QueryEvents(0, rs) == events {
      MultiDrains(ks, end, closeErr, rs, pre, tail);
    }
  }

  lemma {:induction false} MultiDrains(ks: Kinds, end: Error, closeErr: Option<Error>,
                                       rs: seq<Response>, pre: seq<Member>, tail: Kinds)
    requires MultiStream(ks, end, closeErr, rs, pre, tail) && closeErr != Some(EOF)
    ensures var run := DrainMulti(StartMulti(ks, end), closeErr);
            run.err == EOF && run.events == QueryEvents(0, rs)
  {
    hide DrainMulti, AllAcceptable, IsCut, CutText, FlattenQueries;
    if ks == [LBrace] {
      OnlyBrace(closeErr);
      assert QueryEvents(0, []) == [];
    } else {
      var rest := ks[4..];
      assert ks == RESULTS_HEAD + rest;
      if closeErr.None? && rs != [] && rest == FlattenQueries(false, rs) + ([RBracket] + tail) {
        MultiReads(rs, tail, end, closeErr);
      } else {
        NoQueries(false);
        assert rest == FlattenQueries(false, rs) + CutText(rs != [], pre, tail);
        MultiCut(rs, pre, tail, closeErr);
      }
    }
  }

  lemma {:induction false} NoQueries(lead: bool)
    ensures FlattenQueries(lead, []) == []
  {
  }

  /** A truncated response that the iterator reports as complete: the metadata of its second result is cut off. */
  lemma {:induction false} CutResponseLooksComplete(r: Response, closeErr: Option<Error>)
    requires Acceptable("rows", EMPTY_ROWS_META, r)
    ensures var ks := RESULTS_HEAD + (FlattenQueries(false, [r]) + [Comma, LBrace, Str("offset")]);
            var run := DrainMulti(StartMulti(ks, EOF), closeErr);
            run.err == EOF && run.events == QueryEvents(0, [r])
  {
    hide DrainMulti, QueryEvents, FlattenQueries;
    assert StoreAll(EMPTY_ROWS_META, []) == Ok(EMPTY_ROWS_META);
    assert HeadCut(false, "rows", [Str("offset")]);
    assert CutText(true, [], [Str("offset")]) == [Comma, LBrace, Str("offset")];
    MultiCut([r], [], [Str("offset")], closeErr);
  }

  // ------------------------------------------------------------------- the fallback

  /**
   The fallback refines the plain iterator on every stream that does not begin with the
   `results` member, well formed or not: the same rows, the same metadata, never an end of
   query, and the same end, except that an error before the rows is handed out unwrapped.
   */
  lemma {:induction false} LegacyRefinesPlain(key: string, rest: Kinds, end: Error, closeErr: Option<Error>)
    requires key != "results"
    ensures var ks := [LBrace, Str(key)] + rest;
            var plain := Drain(QUERY, Start(ks, end, EMPTY_ROWS_META));
            var multi := DrainMulti(StartMulti(ks, end), closeErr);
            multi.events == RowEvents(0, plain.rows) &&
            multi.multi == Multi(NewDec([], end), true, Some(plain.it), 0, 0, true) &&
            (if Begin(QUERY, NewDec(ks, end), EMPTY_ROWS_META).err.Some? then
               plain.rows == [] && plain.err == Gateway(multi.err)
             else plain.err == multi.err)
  {
    hide DrainMulti, Drain, Begin, ExpectDelim, TokenStep, RowEvents, Next;
    var ks := [LBrace, Str(key)] + rest;
    var m := StartMulti(ks, end);
    OpenBrace(ks, end);
    var d := Inside(ks[1..], end, ObjectStart);
    assert ks[1..] == Sep(false) + [Str(key)] + rest;
    KeyReads(d, key, rest);
    assert Splice(key, rest) == ks;
    DrainBegun(QUERY, Start(ks, end, EMPTY_ROWS_META));
    DrainMultiUnfold(m, closeErr);
    var o := BeginMulti(m);
    RowEventsNil(0);
    if o.err.None? {
      LegacyOpened(m, closeErr);
      QueryFollows(o.multi, closeErr);
    }
  }

  lemma {:induction false} RowEventsInjective(index: nat, a: seq<Item>, b: seq<Item>)
    requires RowEvents(index, a) == RowEvents(index, b)
    ensures a == b
  {
    assert |a| == |b|;
    forall i | 0 <= i < |a| ensures a[i] == b[i] {
      assert RowEvents(index, a)[i] == RowEvents(index, b)[i];
    }
  }

  /** A response of one result set that breaks off in the metadata before its rows. */
  predicate IsHeadCut(ks: Kinds, end: Error, pre: seq<Member>, cut: Kinds) {
    end == EOF && IsCut(pre, cut) && ks == [LBrace] + (FlattenMembers(false, pre) + cut)
  }

  /** Behind the first brace, `begin` is its key loop. */
  lemma {:induction false} BeginBehindBrace(ks: Kinds, end: Error)
    ensures Begin(QUERY, NewDec([LBrace] + ks, end), EMPTY_ROWS_META) ==
            BeginLoop("rows", Inside(ks, end, ObjectStart), EMPTY_ROWS_META)
  {
    hide BeginLoop, ExpectDelim;
    OpenBrace([LBrace] + ks, end);
    assert ([LBrace] + ks)[1..] == ks;
  }

  /** `begin` reports a bare EOF for exactly these streams. */
  lemma {:induction false} HeadCutExact(ks: Kinds, end: Error)
    requires ks != [] && ks[0] == LBrace
    ensures var b := Begin(QUERY, NewDec(ks, end), EMPTY_ROWS_META);
            (b.err == Some(EOF) <==> exists pre, cut :: IsHeadCut(ks, end, pre, cut)) &&
            (b.err == Some(EOF) ==> b.dec.rest == [])
  {
    hide BeginLoop, Begin, StoreAll, HeadCut;
    var rest := ks[1..];
    var d := Inside(rest, end, ObjectStart);
    assert ks == [LBrace] + rest;
    BeginBehindBrace(rest, end);
    if BeginLoop("rows", d, EMPTY_ROWS_META).err == Some(EOF) {
      var pre, cut := BeginEof("rows", d, EMPTY_ROWS_META);
      BeginCut("rows", d, EMPTY_ROWS_META, pre, cut);
      assert IsHeadCut(ks, end, pre, cut);
    }
    if pre, cut :| IsHeadCut(ks, end, pre, cut) {
      assert rest == FlattenMembers(false, pre) + cut;
      BeginCut("rows", d, EMPTY_ROWS_META, pre, cut);
    }
  }

  /**
   The fallback, exactly: EOF is reported for the responses that the plain iterator drains to
   EOF, with exactly their rows, and for those that break off in the metadata before the
   rows, with none.
   */
  lemma {:induction false} LegacyExact(
      key: string, rest: Kinds, end: Error, closeErr: Option<Error>, rows: seq<Item>)
    requires key != "results"
    ensures var ks := [LBrace, Str(key)] + rest;
            var run := DrainMulti(StartMulti(ks, end), closeErr);
            (run.err == EOF && run.events == RowEvents(0, rows)) <==>
            ((exists r, tail :: KeyedStream(QUERY, EMPTY_ROWS_META, ks, end, r, tail) && Plain(r.items) == rows) ||
             (rows == [] && exists pre, cut :: IsHeadCut(ks, end, pre, cut)))
  {
    hide DrainMulti, Drain, Begin, RowEvents, KeyedStream, IsHeadCut, Plain, Final;
    var ks := [LBrace, Str(key)] + rest;
    var plain := Drain(QUERY, Start(ks, end, EMPTY_ROWS_META));
    var run := DrainMulti(StartMulti(ks, end), closeErr);
    LegacyRefinesPlain(key, rest, end, closeErr);
    DrainBegun(QUERY, Start(ks, end, EMPTY_ROWS_META));
    HeadCutExact(ks, end);
    KeyedExact(QUERY, ks, end, EMPTY_ROWS_META, plain.rows, plain.it.meta);
    if run.events == RowEvents(0, rows) {
      RowEventsInjective(0, rows, plain.rows);
    }
    if r, tail :| KeyedStream(QUERY, EMPTY_ROWS_META, ks, end, r, tail) && Plain(r.items) == rows {
      KeyedDrains(QUERY, ks, end, EMPTY_ROWS_META, r, tail);
    }
  }

  /** A reply of an old server that breaks off behind its first key: no rows, and a normal end. */
  lemma {:induction false} CutFallbackLooksEmpty(closeErr: Option<Error>)
    ensures var run := DrainMulti(StartMulti([LBrace, Str("total_rows"), Colon], EOF), closeErr);
            run.err == EOF && run.events == []
  {
    hide DrainMulti, RowEvents, KeyedStream;
    var cut := [Str("total_rows"), Colon];
    var ks := [LBrace, Str("total_rows")] + [Colon];
    assert ks == [LBrace, Str("total_rows"), Colon];
    assert FlattenMembers(false, []) == [];
    assert ks == [LBrace] + ([] + cut);
    assert StoreAll(EMPTY_ROWS_META, []) == Ok(EMPTY_ROWS_META);
    assert HeadCut(false, "rows", cut);
    assert IsHeadCut(ks, EOF, [], cut);
    LegacyExact("total_rows", [Colon], EOF, closeErr, []);
    RowEventsNil(0);
  }

  lemma {:induction false} LegacyOpened(m: Multi, closeErr: Option<Error>)
    requires Usable(m) && !m.begun && BeginMulti(m).err.None? && BeginMulti(m).multi.legacy && !m.legacy
    requires InStep(m)
    ensures var o := BeginMulti(m).multi; InQuery(o) && DrainMulti(m, closeErr) == DrainMulti(o, closeErr)
  {
    hide DrainMulti, Begin, ExpectDelim, TokenStep, NextInQuery;
    var o := BeginMulti(m).multi;
    assert NextMulti(m, closeErr) == NextInQuery(o);
    DrainMultiUnfold(m, closeErr);
    DrainMultiUnfold(o, closeErr);
  }

  /** The call after the EOF of the fallback closes the reader. */
  lemma {:induction false} LegacyAfterEnd(m: Multi, closeErr: Option<Error>)
    requires m.closes == 0 && m.legacy && RowsClosed(m)
    ensures var s := NextMulti(m, closeErr);
            s.answer == Ended(CloseAnswer(m.dec.end, closeErr)) && s.multi.closes == 1 && s.multi.legacy
  {
  }
}
