/**
 The multi-query iterator of rows.go as an object: one decoder shared by the iterators of
 the result sets, and the fallback that splices consumed input back in front of the stream.
 Each method is proved to follow the state machine of MultiSpec.
 */
module MultiRows {
  import opened Errors
  import opened Json
  import opened Lexer
  import opened Decoding
  import opened Metadata
  import opened IterSpec
  import opened Members
  import opened Envelope
  import opened MultiSpec
  import opened Sequences
  import opened Stream
  import opened Iter
  import opened IterTheorems
  import opened MultiTheorems

  /** The spliced text lexes to a brace, the key, and what was left, wherever the buffer ended. */
  lemma {:induction false} SpliceKinds(key: string, rest: string, end: Error)
    requires end != EOF ==> rest != ""
    ensures KindsAt("{" + Marshal(key) + rest, end) == Splice(key, KindsAt(rest, end))
  {
    hide KindsOf, KindsAt, Marshal;
    KindsAtText(Str(key), rest, end);
    KindsAtText(LBrace, Marshal(key) + rest, end);
    assert KindText(Str(key)) == Marshal(key);
    assert "{" + (Marshal(key) + rest) == "{" + Marshal(key) + rest;
    assert [LBrace] + ([Str(key)] + KindsAt(rest, end)) == Splice(key, KindsAt(rest, end));
  }

  /** A key that was read is followed by more input, unless the input ends with EOF. */
  lemma {:induction false} KeyIsFollowed(d: Dec, t: string)
    requires AtMember(d) && d.rest == KindsAt(t, d.end) && d.end != EOF && NextKey(d).res.Ok?
    ensures After(t, |d.rest| - |NextKey(d).dec.rest|) != ""
  {
    hide KindsOf, KindsAt, After, NextKey;
    KeySound(d);
    StringIsFollowed(t, d.end, |d.rest| - |NextKey(d).dec.rest|);
  }

  class MultiRows {
    const r: Reader
    var dec: Decoder?
    var rows: Iter?
    var queryIndex: nat
    var closes: nat
    var legacy: bool

    constructor (r: Reader)
      ensures Valid() && this.r == r && closes == 0 && dec == null && rows == null
      ensures View() == StartMulti(KindsAt(r.unread, r.end), r.end)
    {
      this.r, this.dec, this.rows := r, null, null;
      this.queryIndex, this.closes, this.legacy := 0, 0, false;
    }

    /** Iterates one result set and closes nothing of its own. */
    predicate RowsValid(it: Iter)
      reads it
    {
      it.body == null && it.dec != null && it.expectedKey == "rows" && !it.objMode && it.parser == ItemParser
    }

    predicate Valid()
      reads this, r, dec, rows
    {
      (dec != null ==> dec.src == r) &&
      (rows != null ==> RowsValid(rows)) &&
      (legacy ==> rows != null) &&
      if closes == 0 then
        rows != null ==> dec != null && (if legacy then rows.dec.src != r else rows.dec == dec)
      else
        r.unread == "" && (rows != null ==> rows.closed && dec == null) && (dec != null ==> dec.buf == "")
    }

    function SharedDec(): Dec
      reads this, r, dec
      requires dec != null ==> dec.src == r
    {
      if dec == null then NewDec(KindsAt(r.unread, r.end), r.end)
      else if legacy then NewDec([], r.end)
      else dec.View()
    }

    /** What a closed result set keeps in its buffer is never looked at again. */
    function RowsView(): Option<It>
      requires Valid()
      reads this, r, dec, rows
      reads if rows == null then {} else {rows.dec}
      reads if rows == null || rows.dec == null then {} else {rows.dec.src}
    {
      if rows == null then None
      else if closes == 0 then Some(rows.View())
      else Some(It(NewDec([], r.end), true, true, rows.meta))
    }

    function View(): Multi
      requires Valid()
      reads this, r, dec, rows
      reads if rows == null then {} else {rows.dec}
      reads if rows == null || rows.dec == null then {} else {rows.dec.src}
    {
      Multi(SharedDec(), dec != null, RowsView(), queryIndex, closes, legacy)
    }

    /** Drains and closes the reader the first time, and then only counts. */
    method Close() returns (err: Option<Error>)
      requires Valid()
      modifies this, r, if rows == null then {} else {rows}
      ensures Valid() && View() == CloseMulti(old(View())) && err == CloseError(old(View()), r.closeErr)
      ensures r.closes == old(r.closes) + (if old(closes) > 0 then 0 else if r.end == EOF then 2 else 1)
      ensures rows == old(rows) && (rows != null ==> rows.dec == old(rows.dec))
      ensures dec == if old(closes) > 0 then old(dec) else null
    {
      hide KindsOf, KindsAt, Suffix, SequenceFrom;
      closes := closes + 1;
      if closes > 1 {
        return None;
      }
      dec := null;
      var _, drain := r.ReadAll();
      if drain.Some? {
        err := drain;
      } else {
        err := r.Close();
      }
      // the deferred calls
      var _ := r.Close();
      if rows != null {
        var _ := rows.Close();
      }
      NothingKinds();
    }

    /** Starts the result set at the front of the shared decoder. */
    method OpenRows() returns (err: Option<Error>, it: Iter)
      requires dec != null && dec.src == r
      modifies dec, r`unread, r`taken, r`ended
      ensures fresh(it) && it.body == r && it.dec == dec && !it.closed
      ensures it.expectedKey == "rows" && !it.objMode && it.parser == ItemParser
      ensures MetaStep(err, dec.View(), it.meta) == IterSpec.Begin(QUERY, old(dec.View()), EMPTY_ROWS_META)
    {
      hide IterSpec.Begin, KindsOf, KindsAt, Suffix, SequenceFrom;
      it := new Iter(EMPTY_ROWS_META, "rows", false, r, ItemParser);
      it.dec := dec;
      err := it.Begin();
      BeginIgnoresClose(it.Cfg(), QUERY, old(dec.View()), EMPTY_ROWS_META);
    }

    /** Continues with a plain iterator over the brace, the key again, and all remaining input. */
    method FallBack(key: string) returns (err: Option<Error>)
      requires dec != null && dec.src == r && rows == null && !legacy
      requires r.end != EOF ==> dec.Pending() != ""
      modifies this, dec, r`unread, r`taken, r`ended
      ensures legacy && dec == old(dec) && rows != null && fresh(rows) && fresh(rows.dec) && fresh(rows.dec.src)
      ensures RowsValid(rows) && !rows.closed && closes == old(closes) && queryIndex == old(queryIndex)
      ensures var d := NewDec(Splice(key, old(dec.View()).rest), r.end);
              MetaStep(err, rows.dec.View(), rows.meta) == IterSpec.Begin(QUERY, d, EMPTY_ROWS_META)
    {
      hide IterSpec.Begin, KindsOf, KindsAt, Suffix, SequenceFrom, Marshal;
      legacy := true;
      // io.MultiReader over the pieces, as one reader over their concatenation
      var buffered := dec.buf;
      var rest := r.Read(|r.unread|);
      SpliceKinds(key, buffered + rest, r.end);
      assert "{" + Marshal(key) + (buffered + rest) == "{" + Marshal(key) + buffered + rest;
      assert buffered + rest == old(dec.Pending());
      var input := new Reader("{" + Marshal(key) + buffered + rest, r.end, r.closeErr);
      rows := new Iter(EMPTY_ROWS_META, "rows", false, input, ItemParser);
      rows.body := null;
      rows.dec := new Decoder(input);
      BeginIgnoresClose(rows.Cfg(), QUERY, rows.dec.View(), EMPTY_ROWS_META);
      err := rows.Begin();
    }

    method Begin() returns (err: Option<Error>)
      requires Valid() && dec == null && rows == null
      modifies this, r
      ensures Valid() && Opening(err, View()) == BeginMulti(old(View()))
      ensures dec != null && fresh(dec)
      ensures rows != null ==> fresh(rows) && fresh(rows.dec) && (fresh(rows.dec.src) || rows.dec.src == r)
    {
      hide OpenFirst, ExpectDelim, NextKey, KindsOf, KindsAt, Suffix, SequenceFrom;
      dec := new Decoder(r);
      NothingKinds();
      err := ConsumeDelim(dec, '{');
      if err.Some? {
        return;
      }
      assert closes == 0;
      ghost var d, t := dec.View(), dec.Pending();
      var k := ReadKey(dec);
      if k.Err? {
        return Some(k.error);
      }
      BraceThenMember(old(View()).dec);
      if r.end != EOF {
        KeyIsFollowed(d, t);
      }
      err := Enter(k.value);
    }

    method Enter(key: string) returns (err: Option<Error>)
      requires Valid() && dec != null && rows == null && closes == 0
      requires r.end != EOF ==> dec.Pending() != ""
      modifies this, dec, r`unread, r`taken, r`ended
      ensures Valid() && Opening(err, View()) == OpenFirst(old(View()), key)
      ensures dec == old(dec)
      ensures rows != null ==>
                fresh(rows) && (rows.dec == dec || fresh(rows.dec)) && (fresh(rows.dec.src) || rows.dec.src == r)
    {
      hide IterSpec.Begin, ExpectDelim, KindsOf, KindsAt, Suffix, SequenceFrom, Splice;
      if key != "results" {
        err := FallBack(key);
        return;
      }
      err := OpenResults();
    }

    /** Enters the results array and starts its first result set. */
    method OpenResults() returns (err: Option<Error>)
      requires dec != null && dec.src == r && rows == null && !legacy
      modifies `rows, dec, r`unread, r`taken, r`ended
      ensures rows != null ==> fresh(rows) && rows.dec == dec && RowsValid(rows) && !rows.closed
      ensures var a := ExpectDelim(old(dec.View()), '[');
              if a.err.Some? then Try(err, dec.View()) == a && rows == null
              else
                rows != null &&
                MetaStep(err, dec.View(), rows.meta) == IterSpec.Begin(QUERY, a.dec, EMPTY_ROWS_META)
    {
      hide IterSpec.Begin, ExpectDelim, KindsOf, KindsAt, Suffix, SequenceFrom;
      err := ConsumeDelim(dec, '[');
      if err.Some? {
        return;
      }
      var it;
      err, it := OpenRows();
      it.body := null;
      rows := it;
    }

    method NextQuery() returns (err: Option<Error>)
      requires Valid() && rows != null && (legacy || dec != null)
      modifies this, r, dec, rows
      ensures Valid() && Opening(err, View()) == MultiSpec.NextQuery(old(View()), r.closeErr)
      ensures dec == old(dec) || dec == null
      ensures rows != null && (rows == old(rows) || (fresh(rows) && rows.dec == dec))
      ensures legacy == old(legacy) && rows.dec == old(rows.dec)
    {
      hide IterSpec.Begin, KindsOf, KindsAt, Suffix, SequenceFrom;
      if legacy {
        var e := Close();
        return Some(if e.Some? then e.value else EOF);
      }
      var it;
      err, it := OpenRows();
      if err.Some? {
        if err.value == UnexpectedDelim(']') {
          var e := Close();
          return Some(if e.Some? then e.value else EOF);
        }
        return;
      }
      it.body := null;
      queryIndex, rows := queryIndex + 1, it;
    }

    /** The next row, the end of a query, or the error that ends the rows. */
    method Next() returns (a: Answer)
      requires Valid()
      modifies this, r, dec, rows,
               if rows == null then {} else {rows.dec},
               if rows == null || rows.dec == null then {} else {rows.dec.src}
      ensures Valid() && MultiStep(a, View()) == NextMulti(old(View()), r.closeErr)
      ensures dec == old(dec) || dec == null || fresh(dec)
      ensures rows == old(rows) || fresh(rows)
      ensures rows != null ==> rows.dec == dec || fresh(rows.dec) || (rows == old(rows) && rows.dec == old(rows.dec))
      ensures rows != null ==>
                rows.dec.src == r || fresh(rows.dec.src) || (rows == old(rows) && rows.dec == old(rows.dec))
    {
      hide IterSpec.Next, BeginMulti, MultiSpec.NextQuery, KindsOf, KindsAt, Suffix, SequenceFrom;
      if closes == 1 {
        return Ended(EOF);
      }
      if rows != null && rows.closed {
        if !legacy && dec == null {
          return Ended(Panic);
        }
        var err := NextQuery();
        if err.Some? {
          return Ended(err.value);
        }
      }
      if dec == null {
        var err := Begin();
        if err.Some? {
          return Ended(err.value);
        }
      }
      if rows == null {
        return Ended(Panic);
      }
      a := NextOfRows();
    }

    method NextOfRows() returns (a: Answer)
      requires Valid() && closes == 0 && rows != null
      modifies rows, rows.dec, rows.dec.src
      ensures Valid() && rows.dec == old(rows.dec)
      ensures MultiStep(a, View()) == NextInQuery(old(View()))
    {
      hide IterSpec.Next, KindsOf, KindsAt, Suffix, SequenceFrom;
      var out := rows.Next();
      match out
      case Row(item) => a := Delivered(item);
      case Stop(e) => a := if e == EOF && !legacy then EndOfQuery else Ended(e);
    }
  }

  lemma {:induction false} NothingKinds()
    ensures forall end :: KindsAt("", end) == []
  {
    NoText();
  }

  lemma {:induction false} BraceThenMember(d: Dec)
    requires d == NewDec(d.rest, d.end) && ExpectDelim(d, '{').err.None?
    ensures AtMember(ExpectDelim(d, '{').dec)
  {
    hide ScanValue;
  }

  /** A client that calls Next until it answers neither a row nor the end of a query. */
  method ReadQueries(r: Reader) returns (events: seq<Event>, err: Error, m: MultiRows)
    modifies r
    ensures fresh(m)
    ensures var run := DrainMulti(StartMulti(KindsAt(old(r.unread), r.end), r.end), r.closeErr);
            m.Valid() && MultiRun(events, err, m.View()) == run
  {
    hide NextMulti, DrainMulti, KindsOf, KindsAt, Suffix, SequenceFrom;
    m := new MultiRows(r);
    events := [];
    ghost var whole := DrainMulti(m.View(), r.closeErr);
    while true
      invariant fresh(m) && m.r == r && m.Valid()
      invariant m.dec == null || fresh(m.dec)
      invariant m.rows == null || (fresh(m.rows) && fresh(m.rows.dec) && (m.rows.dec.src == r || fresh(m.rows.dec.src)))
      invariant Usable(m.View()) && InStep(m.View())
      invariant var run := DrainMulti(m.View(), r.closeErr);
                MultiRun(events + run.events, run.err, run.multi) == whole
      decreases Left(m.View()), if RowsClosed(m.View()) then 0 else 1
    {
      ghost var v := m.View();
      DrainMultiUnfold(v, r.closeErr);
      if !NextMulti(v, r.closeErr).answer.Ended? {
        MultiProgress(v, r.closeErr);
      }
      var a := m.Next();
      if a.Ended? {
        assert events + [] == events;
        return events, a.err, m;
      }
      var e := if a.Delivered? then RowOf(m.queryIndex, a.item) else EndOf(m.queryIndex, m.rows.meta);
      ghost var run := DrainMulti(m.View(), r.closeErr);
      assert events + ([e] + run.events) == (events + [e]) + run.events;
      events := events + [e];
    }
  }

  /** Reading a complete multi-query response from its text. */
  method ReadMultiResponse(r: Reader, ghost rs: seq<Response>) returns (events: seq<Event>, err: Error, m: MultiRows)
    requires rs != [] && AllAcceptable(rs) && r.end == EOF && r.closeErr.None?
    requires KindsOf(r.unread) == Flatten(JObj([Member("results", JArr(Objects(rs)))]))
    modifies r
    ensures events == QueryEvents(0, rs) && err == EOF && m.closes == 1
  {
    hide DrainMulti, KindsOf, KindsAt, Suffix, SequenceFrom, Flatten, FlattenQueries, QueryEvents, AllAcceptable;
    QueriesAreObject(rs);
    assert [RBracket, RBrace] == [RBracket] + [RBrace];
    KindsAtEof(r.unread);
    MultiReads(rs, [RBrace], EOF, r.closeErr);
    events, err, m := ReadQueries(r);
  }
}
