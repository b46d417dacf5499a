/**
 The multi-query iterator under every sequence of calls, Close among them: what the count
 of closes does to the calls behind it.
 */
module MultiClosing {
  import opened Errors
  import opened Json
  import opened Decoding
  import opened Metadata
  import opened IterSpec
  import opened Envelope
  import opened IterTheorems
  import opened MultiSpec
  import opened MultiTheorems

  datatype Call = CallNext | CallClose

  function Called(m: Multi, calls: seq<Call>, closeErr: Option<Error>): Multi
    decreases |calls|
  {
    if calls == [] then m
    else Called(if calls[0] == CallNext then NextMulti(m, closeErr).multi else CloseMulti(m), calls[1..], closeErr)
  }

  function Times(call: Call, n: nat): (calls: seq<Call>)
    ensures |calls| == n
  {
    seq(n, i requires 0 <= i < n => call)
  }

  /** What holds of a multi-query iterator whatever has been called on it. */
  predicate Sound(m: Multi) {
    (m.legacy ==> m.rows.Some?) && InStep(m) &&
    if m.closes == 0 then m.rows.Some? ==> m.begun && m.rows.value.begun
    else m.dec.rest == [] && (m.rows.Some? ==> !m.begun && m.rows.value.closed)
  }

  lemma {:induction false} CloseKeepsSound(m: Multi)
    requires Sound(m)
    ensures Sound(CloseMulti(m))
    ensures CloseMulti(m).closes == m.closes + 1 && CloseMulti(m).legacy == m.legacy
  {
  }

  lemma {:induction false} QueryKeepsSound(m: Multi)
    requires Sound(m) && m.closes == 0 && m.rows.Some?
    ensures Sound(NextInQuery(m).multi) && NextInQuery(m).multi.closes == 0
  {
    hide Next;
    NextBegun(QUERY, m.rows.value);
  }

  lemma {:induction false} BeginKeepsSound(m: Multi)
    requires Sound(m) && !m.begun && m.rows.None?
    ensures Sound(BeginMulti(m).multi) && BeginMulti(m).multi.closes == m.closes
    ensures m.closes > 0 ==> BeginMulti(m).err == Some(Gateway(m.dec.end))
  {
    hide BeginLoop, Begin;
  }

  lemma {:induction false} NextQueryKeepsSound(m: Multi, closeErr: Option<Error>)
    requires Sound(m) && m.rows.Some? && (m.begun || m.legacy) && m.closes != 1
    ensures var o := NextQuery(m, closeErr);
            Sound(o.multi) && (o.err.None? ==> o.multi.closes == 0 && m.closes == 0)
    ensures m.closes > 0 ==> NextQuery(m, closeErr) == Opening(Some(EOF), m.(closes := m.closes + 1))
  {
    hide Begin;
  }

  lemma {:induction false} NextKeepsSound(m: Multi, closeErr: Option<Error>)
    requires Sound(m)
    ensures Sound(NextMulti(m, closeErr).multi)
  {
    hide BeginMulti, NextQuery, NextInQuery;
    if m.closes == 1 {
    } else if RowsClosed(m) {
      if m.legacy || m.begun {
        NextQueryKeepsSound(m, closeErr);
        var o := NextQuery(m, closeErr);
        if o.err.None? {
          QueryKeepsSound(o.multi);
        }
      }
    } else if !m.begun {
      BeginKeepsSound(m);
      var o := BeginMulti(m);
      if o.err.None? {
        QueryKeepsSound(o.multi);
      }
    } else if m.rows.Some? {
      QueryKeepsSound(m);
    }
  }

  /** Over every sequence of calls. */
  lemma {:induction false} CallsKeepSound(m: Multi, calls: seq<Call>, closeErr: Option<Error>)
    requires Sound(m)
    ensures Sound(Called(m, calls, closeErr))
    decreases |calls|
  {
    hide NextMulti, CloseMulti, Sound;
    if calls != [] {
      NextKeepsSound(m, closeErr);
      CloseKeepsSound(m);
      var m' := if calls[0] == CallNext then NextMulti(m, closeErr).multi else CloseMulti(m);
      CallsKeepSound(m', calls[1..], closeErr);
    }
  }

  /** What a call answers once the iterator has been closed `m.closes` times. */
  lemma {:induction false} AnswerAfterClose(m: Multi, closeErr: Option<Error>)
    requires Sound(m) && m.closes > 0
    ensures var s := NextMulti(m, closeErr);
            s.answer == Ended(if m.closes == 1 || m.legacy then EOF
                              else if m.begun || m.rows.Some? then Panic
                              else Gateway(m.dec.end)) &&
            s.multi.legacy == m.legacy && s.multi.closes >= m.closes && (m.closes == 1 ==> s.multi == m)
  {
    hide BeginMulti, NextQuery, NextInQuery;
    if m.closes > 1 {
      if m.rows.Some? {
        if m.legacy {
          NextQueryKeepsSound(m, closeErr);
        }
      } else if !m.begun {
        BeginKeepsSound(m);
        BeginKeepsMode(m);
      }
    }
  }

  lemma {:induction false} BeginKeepsMode(m: Multi)
    requires BeginMulti(m).err == Some(Gateway(m.dec.end)) && m.dec.rest == []
    ensures BeginMulti(m).multi.legacy == m.legacy
  {
  }

  lemma {:induction false} TimesCons(call: Call, n: nat)
    requires n > 0
    ensures Times(call, n) == [call] + Times(call, n - 1)
  {
  }

  lemma {:induction false} EofRepeats(m: Multi, n: nat, closeErr: Option<Error>)
    requires Sound(m) && m.closes > 0 && (m.closes == 1 || m.legacy)
    ensures var m' := Called(m, Times(CallNext, n), closeErr);
            Sound(m') && m'.closes > 0 && (m'.closes == 1 || m'.legacy)
    decreases n
  {
    hide NextMulti, Sound, Times;
    if n > 0 {
      AnswerAfterClose(m, closeErr);
      NextKeepsSound(m, closeErr);
      TimesCons(CallNext, n);
      var rest := Times(CallNext, n - 1);
      assert ([CallNext] + rest)[1..] == rest;
      EofRepeats(NextMulti(m, closeErr).multi, n - 1, closeErr);
    }
  }

  /** Every further call of Next answers EOF. */
  ghost predicate EofFromNowOn(m: Multi, closeErr: Option<Error>) {
    forall n: nat :: NextMulti(Called(m, Times(CallNext, n), closeErr), closeErr).answer == Ended(EOF)
  }

  lemma {:induction false} EofFromClosed(m: Multi, closeErr: Option<Error>)
    requires Sound(m) && m.closes > 0
    ensures EofFromNowOn(m, closeErr) <==> m.closes == 1 || m.legacy
  {
    hide NextMulti, Sound, Times;
    if m.closes == 1 || m.legacy {
      forall n: nat ensures NextMulti(Called(m, Times(CallNext, n), closeErr), closeErr).answer == Ended(EOF) {
        EofRepeats(m, n, closeErr);
        AnswerAfterClose(Called(m, Times(CallNext, n), closeErr), closeErr);
      }
    } else {
      NoCalls(m, closeErr);
      AnswerAfterClose(m, closeErr);
    }
  }

  /**
   Whatever has been called on the iterator, once it is closed it answers EOF from then on
   if and only if Close has run exactly once, the iterator's own Close counted, or the
   iterator has fallen back to a single result set.
   */
  lemma {:induction false} EofAfterClosing(ks: Kinds, end: Error, calls: seq<Call>, closeErr: Option<Error>)
    ensures var m := Called(StartMulti(ks, end), calls, closeErr);
            m.closes > 0 ==> (EofFromNowOn(m, closeErr) <==> m.closes == 1 || m.legacy)
  {
    hide NextMulti, Sound, EofFromNowOn;
    StartIsSound(ks, end);
    CallsKeepSound(StartMulti(ks, end), calls, closeErr);
    var m := Called(StartMulti(ks, end), calls, closeErr);
    if m.closes > 0 {
      EofFromClosed(m, closeErr);
    }
  }

  lemma {:induction false} NoCalls(m: Multi, closeErr: Option<Error>)
    ensures Called(m, Times(CallNext, 0), closeErr) == m
  {
  }

  lemma {:induction false} StartIsSound(ks: Kinds, end: Error)
    ensures Sound(StartMulti(ks, end)) && StartMulti(ks, end).closes == 0
  {
  }

  /** Closing `n` times in a row, from any state that calls have led to. */
  lemma {:induction false} ClosedTimes(m: Multi, n: nat, closeErr: Option<Error>)
    ensures var m' := Called(m, Times(CallClose, n), closeErr);
            m'.closes == m.closes + n && m'.legacy == m.legacy && m'.rows.Some? == m.rows.Some?
    decreases n
  {
    hide Times, NextMulti;
    if n > 0 {
      TimesCons(CallClose, n);
      var rest := Times(CallClose, n - 1);
      assert ([CallClose] + rest)[1..] == rest;
      ClosedTimes(CloseMulti(m), n - 1, closeErr);
    }
  }

  /** Closing an open iterator `n` times: only the first Close makes every later call answer EOF. */
  lemma {:induction false} EofAfterCloses(
      ks: Kinds, end: Error, calls: seq<Call>, n: nat, closeErr: Option<Error>)
    requires n > 0 && Called(StartMulti(ks, end), calls, closeErr).closes == 0
    ensures var m := Called(StartMulti(ks, end), calls, closeErr);
            EofFromNowOn(Called(m, Times(CallClose, n), closeErr), closeErr) <==> n == 1 || m.legacy
  {
    hide NextMulti, CloseMulti, Sound, EofFromNowOn, Times;
    StartIsSound(ks, end);
    CallsKeepSound(StartMulti(ks, end), calls, closeErr);
    var m := Called(StartMulti(ks, end), calls, closeErr);
    CallsKeepSound(m, Times(CallClose, n), closeErr);
    ClosedTimes(m, n, closeErr);
    EofFromClosed(Called(m, Times(CallClose, n), closeErr), closeErr);
  }

  // -------------------------------------------------------------- behind a run to EOF

  /** A run leaves the iterator in a sound state. */
  lemma {:induction false} DrainKeepsSound(m: Multi, closeErr: Option<Error>)
    requires Usable(m) && InStep(m) && Sound(m)
    ensures Sound(DrainMulti(m, closeErr).multi)
    decreases Left(m), if RowsClosed(m) then 0 else 1
  {
    hide NextMulti, DrainMulti, Sound;
    DrainMultiUnfold(m, closeErr);
    NextKeepsSound(m, closeErr);
    var s := NextMulti(m, closeErr);
    if !s.answer.Ended? {
      MultiProgress(m, closeErr);
      DrainKeepsSound(s.multi, closeErr);
    }
  }

  /** Having closed itself, the iterator answers EOF until somebody else calls Close. */
  lemma {:induction false} DrainedStaysEof(ks: Kinds, end: Error, closeErr: Option<Error>)
    ensures var m := DrainMulti(StartMulti(ks, end), closeErr).multi;
            m.closes == 1 ==> EofFromNowOn(m, closeErr)
  {
    hide NextMulti, DrainMulti, Sound, EofFromNowOn;
    StartIsSound(ks, end);
    DrainKeepsSound(StartMulti(ks, end), closeErr);
    var m := DrainMulti(StartMulti(ks, end), closeErr).multi;
    if m.closes == 1 {
      EofFromClosed(m, closeErr);
    }
  }

  /** With nothing left to read, an open iterator has an error for everybody who asks again. */
  lemma {:induction false} StrandedAgain(m: Multi, closeErr: Option<Error>)
    requires Stranded(m)
    ensures NextMulti(m, closeErr).answer.Ended? && NextMulti(m, closeErr).answer.err != EOF
  {
    hide BeginLoop;
    if m.rows.Some? {
      NoDelimAtEnd(m.dec, ']');
      NoDelimAtEnd(m.dec, '{');
    }
  }

  /** A complete response of one or more results, whatever follows it. */
  predicate IsComplete(ks: Kinds, rs: seq<Response>, tail: Kinds) {
    rs != [] && AllAcceptable(rs) && ks == RESULTS_HEAD + (FlattenQueries(false, rs) + ([RBracket] + tail))
  }

  /**
   Outside the fallback, EOF does not tell a complete response from one that is cut off, but
   asking once more does: of the responses that are drained to EOF exactly the complete ones
   answer EOF again.
   */
  lemma {:induction false} AgainExact(ks: Kinds, end: Error, closeErr: Option<Error>)
    requires !IsLegacy(ks) && ReaderError(end) && closeErr != Some(EOF)
    requires DrainMulti(StartMulti(ks, end), closeErr).err == EOF
    ensures var m := DrainMulti(StartMulti(ks, end), closeErr).multi;
            NextMulti(m, closeErr).answer.Ended? &&
            (NextMulti(m, closeErr).answer.err == EOF <==> exists rs, tail :: IsComplete(ks, rs, tail))
  {
    hide NextMulti, DrainMulti, FlattenQueries, AllAcceptable, IsCut, CutText;
    var m := DrainMulti(StartMulti(ks, end), closeErr).multi;
    if rs, tail :| IsComplete(ks, rs, tail) {
      MultiReads(rs, tail, end, closeErr);
      OnceClosed(m, closeErr);
    } else {
      var rs, pre, tail := MultiSound(ks, end, closeErr);
      if ks == [LBrace] {
        OnlyBrace(closeErr);
        StrandedAgain(m, closeErr);
      } else if !IsComplete(ks, rs, tail) {
        var rest := ks[4..];
        assert ks == RESULTS_HEAD + rest;
        NoQueries(false);
        assert rest == FlattenQueries(false, rs) + CutText(rs != [], pre, tail);
        MultiCut(rs, pre, tail, closeErr);
        StrandedAgain(m, closeErr);
      }
    }
  }

  lemma {:induction false} OnceClosed(m: Multi, closeErr: Option<Error>)
    requires m.closes == 1
    ensures NextMulti(m, closeErr).answer == Ended(EOF)
  {
  }

  /** `begin` failed at the end of the stream, and so does finishing the rows that it left. */
  lemma {:induction false} LegacyStrandedAgain(m: Multi, closeErr: Option<Error>)
    requires m.closes == 0 && m.legacy && m.begun && m.rows.Some?
    requires m.rows.value.begun && !m.rows.value.closed && m.rows.value.dec.rest == []
    ensures NextMulti(m, closeErr).answer == Ended(Gateway(m.rows.value.dec.end))
  {
    NoDelimAtEnd(m.rows.value.dec, ']');
  }

  /**
   In the fallback asking once more tells less: once the reader closes cleanly, EOF is answered
   again for every response that the plain iterator drains to EOF, whether complete or cut off
   behind its rows, and only for those. A response cut off before its rows answers an error.
   */
  lemma {:induction false} LegacyAgainExact(key: string, rest: Kinds, end: Error, closeErr: Option<Error>)
    requires key != "results"
    requires DrainMulti(StartMulti([LBrace, Str(key)] + rest, end), closeErr).err == EOF
    ensures var ks := [LBrace, Str(key)] + rest;
            var m := DrainMulti(StartMulti(ks, end), closeErr).multi;
            NextMulti(m, closeErr).answer.Ended? &&
            (NextMulti(m, closeErr).answer.err == EOF <==>
             CloseAnswer(end, closeErr) == EOF &&
             exists r, tail :: KeyedStream(QUERY, EMPTY_ROWS_META, ks, end, r, tail))
  {
    hide DrainMulti, Drain, Begin, KeyedStream, IsHeadCut, NextMulti, Plain, Final;
    var ks := [LBrace, Str(key)] + rest;
    var plain := Drain(QUERY, Start(ks, end, EMPTY_ROWS_META));
    var m := DrainMulti(StartMulti(ks, end), closeErr).multi;
    LegacyRefinesPlain(key, rest, end, closeErr);
    DrainBegun(QUERY, Start(ks, end, EMPTY_ROWS_META));
    HeadCutExact(ks, end);
    KeyedExact(QUERY, ks, end, EMPTY_ROWS_META, plain.rows, plain.it.meta);
    if Begin(QUERY, NewDec(ks, end), EMPTY_ROWS_META).err.None? {
      LegacyAfterEnd(m, closeErr);
    } else {
      LegacyStrandedAgain(m, closeErr);
    }
    if r, tail :| KeyedStream(QUERY, EMPTY_ROWS_META, ks, end, r, tail) {
      KeyedDrains(QUERY, ks, end, EMPTY_ROWS_META, r, tail);
    }
  }

  /** A reply of an old server that is cut off behind its rows answers EOF again and again. */
  lemma {:induction false} CutFallbackAgain(r: Response, cut: Kinds)
    requires Acceptable("rows", EMPTY_ROWS_META, r) && CutOff(cut)
    requires IsLegacy([LBrace] + Body("rows", r) + cut)
    ensures var ks := [LBrace] + Body("rows", r) + cut;
            var run := DrainMulti(StartMulti(ks, EOF), None);
            ScanValue(ks).Incomplete? && run.err == EOF && run.events == RowEvents(0, Plain(r.items)) &&
            NextMulti(run.multi, None).answer == Ended(EOF)
  {
    hide DrainMulti, NextMulti, Body, Acceptable, CutOff, RowEvents, Plain, ScanValue;
    var ks := [LBrace] + Body("rows", r) + cut;
    var key, rest := ks[1].s, ks[2..];
    assert ks == [LBrace, Str(key)] + rest;
    CutIsIncomplete("rows", r, cut);
    assert KeyedStream(QUERY, EMPTY_ROWS_META, ks, EOF, r, cut);
    LegacyExact(key, rest, EOF, None, Plain(r.items));
    LegacyAgainExact(key, rest, EOF, None);
  }

  /** A complete response that has been drained, and then closed by its reader, must not be asked again. */
  lemma {:induction false} DrainedThenClosed(rs: seq<Response>, tail: Kinds, end: Error, closeErr: Option<Error>)
    requires rs != [] && AllAcceptable(rs) && ReaderError(end)
    ensures var ks := RESULTS_HEAD + (FlattenQueries(false, rs) + ([RBracket] + tail));
            var m := DrainMulti(StartMulti(ks, end), closeErr).multi;
            NextMulti(m, closeErr).answer == Ended(EOF) &&
            NextMulti(CloseMulti(m), closeErr).answer == Ended(Panic)
  {
    hide DrainMulti, FlattenQueries;
    MultiReads(rs, tail, end, closeErr);
  }

  /** Closed twice without ever having been used. */
  lemma {:induction false} UnusedThenClosed(ks: Kinds, end: Error, closeErr: Option<Error>)
    ensures var m := CloseMulti(CloseMulti(StartMulti(ks, end)));
            NextMulti(m, closeErr).answer == Ended(Gateway(end))
  {
    hide BeginLoop, Begin;
  }

  lemma {:induction false} NextKeepsEnd(c: Config, s: It)
    ensures Next(c, s).it.dec.end == s.dec.end
  {
    hide Begin, NextRow, Finish;
  }

  lemma {:induction false} CallKeepsEnd(m: Multi, closeErr: Option<Error>)
    requires Sound(m)
    ensures CloseMulti(m).dec.end == m.dec.end && NextMulti(m, closeErr).multi.dec.end == m.dec.end
  {
    hide Begin, Next;
    if m.closes == 1 {
    } else if RowsClosed(m) {
      if m.legacy || m.begun {
        var o := NextQuery(m, closeErr);
        if o.err.None? {
          NextQueryKeepsSound(m, closeErr);
          NextKeepsEnd(QUERY, o.multi.rows.value);
        }
      }
    } else if !m.begun {
      var o := BeginMulti(m);
      if o.err.None? {
        BeginKeepsSound(m);
        NextKeepsEnd(QUERY, o.multi.rows.value);
      }
    } else if m.rows.Some? {
      NextKeepsEnd(QUERY, m.rows.value);
    }
  }

  lemma {:induction false} EndStays(m: Multi, calls: seq<Call>, closeErr: Option<Error>)
    requires Sound(m)
    ensures Called(m, calls, closeErr).dec.end == m.dec.end
    decreases |calls|
  {
    hide NextMulti, CloseMulti, Sound;
    if calls != [] {
      CallKeepsEnd(m, closeErr);
      NextKeepsSound(m, closeErr);
      CloseKeepsSound(m);
      var m' := if calls[0] == CallNext then NextMulti(m, closeErr).multi else CloseMulti(m);
      EndStays(m', calls[1..], closeErr);
    }
  }

  /** What Close reports, whatever has been called before: the first one how the reader ends, and no other anything. */
  lemma {:induction false} CloseReports(
      ks: Kinds, end: Error, calls: seq<Call>, closeErr: Option<Error>)
    ensures var m := Called(StartMulti(ks, end), calls, closeErr);
            CloseError(m, closeErr) ==
            if m.closes > 0 then None else if end != EOF then Some(end) else closeErr
  {
    hide NextMulti, CloseMulti, Sound;
    StartIsSound(ks, end);
    EndStays(StartMulti(ks, end), calls, closeErr);
  }
}
