/**
 The multi-query iterator of rows.go as a state machine on values: one decoder shared by
 the result sets of several queries, an end-of-query mark between them, and the fallback
 to a single result set when the response does not begin with a `results` member.
 */
module MultiSpec {
  import opened Errors
  import opened Json
  import opened Decoding
  import opened Metadata
  import opened IterSpec

  /** Iterators inside a multi-query response have no body of their own to close. */
  const QUERY := Config("rows", false, ItemParser, None)

  /**
   `dec` is the shared decoder; while a query of a multi-query response is iterated it is
   the decoder of `rows` as well. In legacy mode `rows` has a decoder of its own, which has
   taken over the whole input, and `dec` only tells how the reader ends. Unless `begun`,
   there is no decoder yet, or none any more, and `dec` is what a new one would read.
   `closes` counts the calls of Close, those of the iterator itself among them.
   */
  datatype Multi = Multi(dec: Dec, begun: bool, rows: Option<It>, index: nat, closes: nat, legacy: bool)

  datatype Answer = Delivered(item: Item) | EndOfQuery | Ended(err: Error)

  datatype MultiStep = MultiStep(answer: Answer, multi: Multi)

  function StartMulti(ks: Kinds, end: Error): Multi {
    Multi(NewDec(ks, end), false, None, 0, 0, false)
  }

  /** Open, and not left without rows by a `begin` that failed early. */
  predicate Usable(m: Multi) {
    m.closes == 0 && (m.begun <==> m.rows.Some?) && (m.rows.Some? ==> m.rows.value.begun)
  }

  function Left(m: Multi): nat {
    if m.rows.Some? then |m.rows.value.dec.rest| else |m.dec.rest|
  }

  function RowsClosed(m: Multi): bool {
    m.rows.Some? && m.rows.value.closed
  }

  /** The first Close drains and closes the reader; another Close reports nothing. */
  function CloseError(m: Multi, closeErr: Option<Error>): Option<Error> {
    if m.closes > 0 then None
    else if m.dec.end != EOF then Some(m.dec.end)
    else closeErr
  }

  /** The first Close also drops the decoder; another Close only counts. */
  function CloseMulti(m: Multi): Multi {
    if m.closes > 0 then m.(closes := m.closes + 1)
    else
      var drained := NewDec([], m.dec.end);
      m.(closes := 1, begun := false, dec := drained,
         rows := match m.rows case Some(s) => Some(s.(closed := true, dec := drained)) case None => None)
  }

  datatype Opening = Opening(err: Option<Error>, multi: Multi)

  /** Starts the result set whose object is next in the shared decoder. */
  function OpenQuery(m: Multi): Opening {
    var b := Begin(QUERY, m.dec, EMPTY_ROWS_META);
    Opening(b.err, m.(dec := b.dec, rows := Some(It(b.dec, true, false, b.meta))))
  }

  /** The spliced stream: a brace, the key again, and everything the decoder has not consumed. */
  function Splice(key: string, rest: Kinds): Kinds {
    [LBrace, Str(key)] + rest
  }

  /** Behind the first key: a single result set, or the first of several. */
  function OpenFirst(m: Multi, key: string): (o: Opening)
    ensures o.err.None? ==> o.multi.rows.Some? && o.multi.rows.value.begun && !o.multi.rows.value.closed
  {
    if key != "results" then
      var b := Begin(QUERY, NewDec(Splice(key, m.dec.rest), m.dec.end), EMPTY_ROWS_META);
      Opening(b.err, m.(legacy := true, dec := NewDec([], m.dec.end), rows := Some(It(b.dec, true, false, b.meta))))
    else
      var a := ExpectDelim(m.dec, '[');
      var m' := m.(dec := a.dec);
      if a.err.Some? then Opening(a.err, m') else OpenQuery(m')
  }

  function BeginMulti(m: Multi): (o: Opening)
    ensures o.err.None? ==> o.multi.rows.Some? && o.multi.rows.value.begun && !o.multi.rows.value.closed
  {
    var t := ExpectDelim(m.dec, '{');
    var m1 := m.(begun := true, dec := t.dec);
    if t.err.Some? then Opening(t.err, m1)
    else
      var k := NextKey(t.dec);
      var m2 := m1.(dec := k.dec);
      match k.res
      case Err(e) => Opening(Some(e), m2)
      case Ok(key) => OpenFirst(m2, key)
  }

  /** Moves on to the next result set, or reports why there is none. */
  function NextQuery(m: Multi, closeErr: Option<Error>): (o: Opening)
    requires m.rows.Some?
    ensures o.err.None? ==> o.multi.rows.Some? && o.multi.rows.value.begun && !o.multi.rows.value.closed
  {
    if m.legacy then
      var err := CloseError(m, closeErr);
      Opening(Some(if err.Some? then err.value else EOF), CloseMulti(m))
    else
      var o := OpenQuery(m);
      if o.err.None? then Opening(None, o.multi.(index := m.index + 1))
      else
        var m1 := m.(dec := o.multi.dec, rows := Some(m.rows.value.(dec := o.multi.dec)));
        if o.err.value == UnexpectedDelim(']') then
          var err := CloseError(m1, closeErr);
          Opening(Some(if err.Some? then err.value else EOF), CloseMulti(m1))
        else Opening(o.err, m1)
  }

  function NextInQuery(m: Multi): (s: MultiStep)
    requires m.rows.Some?
    ensures s.answer.Delivered? ==> Left(s.multi) < Left(m) && !RowsClosed(s.multi)
    ensures s.answer.EndOfQuery? ==> Left(s.multi) <= Left(m) && RowsClosed(s.multi)
    ensures s.multi.begun == m.begun && s.multi.rows.Some?
    ensures m.rows.value.begun ==> s.multi.rows.value.begun
  {
    var n := Next(QUERY, m.rows.value);
    var m' := m.(rows := Some(n.it), dec := if m.legacy then m.dec else n.it.dec);
    MultiStep(match n.out
              case Row(item) => Delivered(item)
              case Stop(e) => if e == EOF && !m.legacy then EndOfQuery else Ended(e),
              m')
  }

  /**
   One call of Next. Its guard asks for exactly one Close. Behind a second one it goes on
   without a decoder, and so does a call behind a `begin` that left no rows.
   */
  function NextMulti(m: Multi, closeErr: Option<Error>): MultiStep {
    if m.closes == 1 then MultiStep(Ended(EOF), m)
    else if RowsClosed(m) then
      if !m.legacy && !m.begun then MultiStep(Ended(Panic), m)
      else
        var o := NextQuery(m, closeErr);
        if o.err.Some? then MultiStep(Ended(o.err.value), o.multi) else NextInQuery(o.multi)
    else if !m.begun then
      var o := BeginMulti(m);
      if o.err.Some? then MultiStep(Ended(o.err.value), o.multi) else NextInQuery(o.multi)
    else if m.rows.None? then MultiStep(Ended(Panic), m)
    else NextInQuery(m)
  }

  lemma {:induction false} OpenQueryProgress(m: Multi)
    requires OpenQuery(m).err.None?
    ensures Left(OpenQuery(m).multi) < |m.dec.rest|
  {
    hide BeginLoop;
  }

  /** Every answer but the last consumes input or moves from a result set to its end. */
  lemma {:induction false} MultiProgress(m: Multi, closeErr: Option<Error>)
    requires Usable(m) && InStep(m)
    requires !NextMulti(m, closeErr).answer.Ended?
    ensures var m' := NextMulti(m, closeErr).multi;
            Usable(m') && InStep(m') && m'.begun &&
            (Left(m') < Left(m) || (Left(m') == Left(m) && m.begun && !RowsClosed(m) && RowsClosed(m')))
  {
    hide Begin, Next;
    if m.begun && !RowsClosed(m) {
    } else if m.begun {
      OpenQueryProgress(m);
    } else {
      BeginProgress(m);
    }
  }

  /** The decoder and the rows of a multi-query response agree on what is left. */
  predicate InStep(m: Multi) {
    m.rows.Some? && !m.legacy ==> m.rows.value.dec == m.dec
  }

  lemma {:induction false} BeginProgress(m: Multi)
    requires BeginMulti(m).err.None? && m.rows.None?
    ensures var m' := BeginMulti(m).multi;
            m'.begun && Left(m') < |m.dec.rest| && (InStep(m) ==> InStep(m'))
  {
    hide BeginLoop, TokenStep;
  }

  // ------------------------------------------------------------------ whole runs

  datatype Event = RowOf(index: nat, item: Item) | EndOf(index: nat, meta: Meta)

  datatype MultiRun = MultiRun(events: seq<Event>, err: Error, multi: Multi)

  function EventOf(a: Answer, m: Multi): Event
    requires !a.Ended? && m.rows.Some?
  {
    if a.Delivered? then RowOf(m.index, a.item) else EndOf(m.index, m.rows.value.meta)
  }

  function DrainMulti(m: Multi, closeErr: Option<Error>): MultiRun
    requires Usable(m) && InStep(m)
    decreases Left(m), if RowsClosed(m) then 0 else 1
  {
    var s := NextMulti(m, closeErr);
    if s.answer.Ended? then MultiRun([], s.answer.err, s.multi)
    else
      MultiProgress(m, closeErr);
      var r := DrainMulti(s.multi, closeErr);
      MultiRun([EventOf(s.answer, s.multi)] + r.events, r.err, r.multi)
  }
}
