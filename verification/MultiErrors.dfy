/** Which error the multi-query iterator reports, in terms of what stands in the stream. */
module MultiErrors {
  import opened Errors
  import opened Json
  import opened Decoding
  import opened Metadata
  import opened IterSpec
  import opened Members
  import opened Envelope
  import opened IterTheorems
  import opened IterErrors
  import opened MultiSpec
  import opened MultiTheorems

  /** Up to the array of results: no rows, and the first fault, which is not wrapped. */
  lemma {:induction false} FaultAtOnce(ks: Kinds, end: Error, closeErr: Option<Error>)
    requires ks == [] || ks[0] != LBrace
    ensures var run := DrainMulti(StartMulti(ks, end), closeErr);
            run.events == [] && Some(run.err) == OpenFault(ks, '{', end)
  {
    hide DrainMulti, ExpectDelim, OpenFirst, NextKey;
    NoObjectFault(ks, end);
    OpenDelim(NewDec(ks, end), '{');
    DrainMultiUnfold(StartMulti(ks, end), closeErr);
  }

  lemma {:induction false} NoObjectFault(ks: Kinds, end: Error)
    requires ks == [] || ks[0] != LBrace
    ensures OpenFault(ks, '{', end).Some?
  {
  }

  lemma {:induction false} FaultInKey(tail: Kinds, end: Error, closeErr: Option<Error>)
    requires KeyFault(false, tail, end).Some?
    ensures var run := DrainMulti(StartMulti([LBrace] + tail, end), closeErr);
            run.events == [] &&
            run.err == if tail != [] && tail[0] == RBrace then UnexpectedToken else KeyFault(false, tail, end).value
  {
    hide DrainMulti, ExpectDelim, OpenFirst, TokenStep, KeyFault;
    var ks := [LBrace] + tail;
    OpenBrace(ks, end);
    assert ks[1..] == tail;
    var d := Inside(tail, end, ObjectStart);
    if tail != [] && tail[0] == RBrace {
      BraceIsNoKey(d);
    } else {
      KeyTokens(d);
    }
    DrainMultiUnfold(StartMulti(ks, end), closeErr);
  }

  lemma {:induction false} FaultInArray(tail: Kinds, end: Error, closeErr: Option<Error>)
    requires BracketFault(tail, end).Some?
    ensures var run := DrainMulti(StartMulti([LBrace, Str("results")] + tail, end), closeErr);
            run.events == [] && Some(run.err) == BracketFault(tail, end)
  {
    hide DrainMulti, ExpectDelim, OpenQuery, TokenStep, BracketFault;
    var ks := [LBrace, Str("results")] + tail;
    OpenBrace(ks, end);
    var d := Inside(ks[1..], end, ObjectStart);
    assert ks[1..] == Sep(false) + [Str("results")] + tail;
    KeyReads(d, "results", tail);
    BracketFails(At(d, tail, ObjectColon));
    DrainMultiUnfold(StartMulti(ks, end), closeErr);
  }

  /** Where the next result should begin. Only behind a result may the array end. */
  function ResultFault(lead: bool, ks: Kinds, end: Error): Option<Error> {
    if ks == [] then Some(Gateway(end))
    else if ks[0] == RBracket then (if lead then None else Some(UnexpectedDelim(']')))
    else if lead && ks[0] != Comma then Some(Gateway(SyntaxError))
    else OpenFault(ks[|Sep(lead)|..], '{', end)
  }

  lemma {:induction false} ResultFails(rest: Kinds, end: Error, lead: bool)
    requires ResultFault(lead, rest, end).Some?
    ensures ExpectDelim(Between(rest, end, lead), '{').err == ResultFault(lead, rest, end)
  {
    hide ScanValue;
    var d := Between(rest, end, lead);
    if rest != [] && lead && rest[0] == Comma {
      var d1 := Skip(d, ArrayValue);
      assert TokenStep(d) == TokenStep(d1);
      OpenDelim(d1, '{');
    } else if !lead && rest != [] && rest[0] != RBracket {
      assert rest[0..] == rest;
      FirstOpens(d);
    }
  }

  lemma {:induction false} FirstOpens(d: Dec)
    requires d.failed.None? && d.st == ArrayStart && d.rest != [] && d.rest[0] != RBracket
    requires OpenFault(d.rest, '{', d.end).Some?
    ensures ExpectDelim(d, '{').err == OpenFault(d.rest, '{', d.end)
  {
    hide ScanItems, ScanMembers;
  }

  /** Results that are in order come first, and then the run goes on behind them. */
  lemma {:induction false} ResultsPass(
      rs: seq<Response>, tail: Kinds, end: Error, index: nat, meta: Meta, closeErr: Option<Error>)
    returns (index': nat, meta': Meta)
    requires AllAcceptable(rs) && ReaderError(end)
    ensures index' == index + |rs|
    ensures Usable(Paused(tail, end, index', meta')) && InStep(Paused(tail, end, index', meta'))
    ensures var run := DrainMulti(Paused(FlattenQueries(true, rs) + tail, end, index, meta), closeErr);
            var rest := DrainMulti(Paused(tail, end, index', meta'), closeErr);
            run.events == QueryEvents(index + 1, rs) + rest.events && run.err == rest.err
    decreases |rs|
  {
    hide DrainMulti, Running, HeadError, Body, RowEvents, Plain, Final, Acceptable, ExpectDelim;
    var rest := FlattenQueries(true, rs) + tail;
    PausedShape(tail, end, index, meta);
    index', meta' := index, meta;
    if rs == [] {
      assert rest == tail;
      var run := DrainMulti(Paused(tail, end, index, meta), closeErr);
      assert [] + run.events == run.events;
    } else {
      PausedStep(rest, end, index, meta, closeErr);
      var r, more := rs[0], FlattenQueries(true, rs[1..]) + tail;
      assert rs == [r] + rs[1..];
      var ks := Body("rows", r) + ([RBrace] + more);
      QueriesCons(true, r, rs[1..], tail);
      assert rest == Sep(true) + [LBrace] + ks;
      BraceReads(ks, end, true);
      ResultRuns(ks, end, true, index + 1, r, more, closeErr);
      var meta1 := Final(EMPTY_ROWS_META, r.pre + r.post);
      index', meta' := ResultsPass(rs[1..], tail, end, index + 1, meta1, closeErr);
      EventsCons(index + 1, r, rs[1..]);
      Joined(RowEvents(index + 1, Plain(r.items)), [EndOf(index + 1, meta1)], QueryEvents(index + 2, rs[1..]),
             DrainMulti(Paused(tail, end, index', meta'), closeErr).events);
    }
  }

  lemma {:induction false} Joined(a: seq<Event>, b: seq<Event>, c: seq<Event>, d: seq<Event>)
    ensures a + (b + (c + d)) == (a + (b + c)) + d
  {
  }

  /** From the array of results on: what the first results give, and then the state behind them. */
  lemma {:induction false} AllResultsPass(rs: seq<Response>, tail: Kinds, end: Error, closeErr: Option<Error>)
    returns (meta: Meta)
    requires rs != [] && AllAcceptable(rs) && ReaderError(end)
    ensures Usable(Paused(tail, end, |rs| - 1, meta)) && InStep(Paused(tail, end, |rs| - 1, meta))
    ensures var run := DrainMulti(StartMulti(RESULTS_HEAD + (FlattenQueries(false, rs) + tail), end), closeErr);
            var rest := DrainMulti(Paused(tail, end, |rs| - 1, meta), closeErr);
            run.events == QueryEvents(0, rs) + rest.events && run.err == rest.err
  {
    hide DrainMulti, Running, HeadError, Body, RowEvents, Plain, Final, Acceptable, ExpectDelim;
    var r, more := rs[0], FlattenQueries(true, rs[1..]) + tail;
    assert rs == [r] + rs[1..];
    var ks := Body("rows", r) + ([RBrace] + more);
    QueriesCons(false, r, rs[1..], tail);
    ResultRuns(ks, end, false, 0, r, more, closeErr);
    FirstResult(ks, end, closeErr);
    var meta1 := Final(EMPTY_ROWS_META, r.pre + r.post);
    var index;
    index, meta := ResultsPass(rs[1..], tail, end, 0, meta1, closeErr);
    EventsCons(0, r, rs[1..]);
    Joined(RowEvents(0, Plain(r.items)), [EndOf(0, meta1)], QueryEvents(1, rs[1..]),
           DrainMulti(Paused(tail, end, index, meta), closeErr).events);
  }

  /** A fault where the next result should begin: all results before it, and the fault. */
  lemma {:induction false} FaultAtResult(rs: seq<Response>, tail: Kinds, end: Error, closeErr: Option<Error>)
    requires AllAcceptable(rs) && ReaderError(end) && ResultFault(rs != [], tail, end).Some?
    ensures var run := DrainMulti(StartMulti(RESULTS_HEAD + (FlattenQueries(false, rs) + tail), end), closeErr);
            run.events == QueryEvents(0, rs) && Some(run.err) == ResultFault(rs != [], tail, end)
  {
    hide DrainMulti, ExpectDelim, HeadError, Running, Paused, ResultFault, QueryEvents;
    ResultFails(tail, end, rs != []);
    ExpectDelimNoEof(Between(tail, end, rs != []), '{');
    NoEvents();
    if rs == [] {
      NoQueries(false);
      assert FlattenQueries(false, rs) + tail == tail;
      StartStep(tail, end, closeErr);
    } else {
      var meta := AllResultsPass(rs, tail, end, closeErr);
      PausedStep(tail, end, |rs| - 1, meta, closeErr);
      BraceSound(tail, end, true);
      NoBracketFault(tail, end);
      assert QueryEvents(0, rs) + [] == QueryEvents(0, rs);
    }
  }

  lemma {:induction false} NoEvents()
    ensures QueryEvents(0, []) == []
  {
  }

  lemma {:induction false} NoBracketFault(tail: Kinds, end: Error)
    requires ResultFault(true, tail, end).Some?
    ensures !(tail != [] && tail[0] == RBracket)
  {
  }

  /** A result whose members are wrong before its rows. */
  lemma {:induction false} FaultInHead(
      rs: seq<Response>, pre: seq<Member>, tail: Kinds, end: Error, closeErr: Option<Error>)
    requires AllAcceptable(rs) && ReaderError(end) && NoKey(pre, "rows") && StoreAll(EMPTY_ROWS_META, pre).Ok?
    requires HeadFault(pre != [], "rows", StoreAll(EMPTY_ROWS_META, pre).value, tail, end).Some?
    ensures var ks := Sep(rs != []) + [LBrace] + (FlattenMembers(false, pre) + tail);
            var run := DrainMulti(StartMulti(RESULTS_HEAD + (FlattenQueries(false, rs) + ks), end), closeErr);
            run.events == QueryEvents(0, rs) &&
            Some(run.err) == HeadFault(pre != [], "rows", StoreAll(EMPTY_ROWS_META, pre).value, tail, end)
  {
    hide DrainMulti, ExpectDelim, BeginLoop, Paused, HeadFault, QueryEvents, StoreAll;
    var lead, inside := rs != [], FlattenMembers(false, pre) + tail;
    var ks := Sep(lead) + [LBrace] + inside;
    var d := InResult(inside, end, lead);
    BeginPasses("rows", d, EMPTY_ROWS_META, pre, tail);
    StoreAllFits(EMPTY_ROWS_META, pre);
    BeginFails("rows", At(d, tail, if pre == [] then d.st else ObjectComma), StoreAll(EMPTY_ROWS_META, pre).value);
    BraceReads(inside, end, lead);
    NoEvents();
    if rs == [] {
      NoQueries(false);
      assert FlattenQueries(false, rs) + ks == ks;
      StartStep(ks, end, closeErr);
    } else {
      var meta := AllResultsPass(rs, ks, end, closeErr);
      PausedStep(ks, end, |rs| - 1, meta, closeErr);
      assert QueryEvents(0, rs) + [] == QueryEvents(0, rs);
    }
  }
}
