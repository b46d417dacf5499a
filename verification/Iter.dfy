/**
 The result iterator of iter.go as an object over a decoder, proved to follow the state
 machine of IterSpec call by call.
 */
module Iter {
  import opened Errors
  import opened Json
  import opened Lexer
  import opened Decoding
  import opened Metadata
  import opened IterSpec
  import opened Sequences
  import opened Stream

  /** Consumes the expected delimiter from the stream, or reports what stands there. */
  method ConsumeDelim(dec: Decoder, expected: char) returns (err: Option<Error>)
    modifies dec, dec.src`unread, dec.src`taken, dec.src`ended
    ensures Try(err, dec.View()) == ExpectDelim(old(dec.View()), expected)
    ensures dec.src.taken + dec.src.unread == old(dec.src.taken + dec.src.unread)
    ensures dec.Pending() == After(old(dec.Pending()), |old(dec.View()).rest| - |dec.View().rest|)
    ensures Suffix(dec.Pending(), old(dec.Pending()))
  {
    hide TokenStep, KindsOf, KindsAt;
    var t := dec.Token();
    match t
    case Err(e) => err := Some(Gateway(e));
    case Ok(Delim(d)) => err := if d == expected then None else Some(UnexpectedDelim(d));
    case Ok(_) => err := Some(Gateway(UnexpectedToken));
  }

  method ReadKey(dec: Decoder) returns (r: Result<string>)
    modifies dec, dec.src`unread, dec.src`taken, dec.src`ended
    ensures Step(r, dec.View()) == NextKey(old(dec.View()))
    ensures dec.src.taken + dec.src.unread == old(dec.src.taken + dec.src.unread)
    ensures dec.Pending() == After(old(dec.Pending()), |old(dec.View()).rest| - |dec.View().rest|)
    ensures Suffix(dec.Pending(), old(dec.Pending()))
  {
    hide TokenStep, KindsOf, KindsAt;
    var t := dec.Token();
    match t
    case Err(e) => r := Err(e);
    case Ok(Text(key)) => r := Ok(key);
    case Ok(_) => r := Err(UnexpectedToken);
  }

  class Iter {
    const expectedKey: string
    const objMode: bool
    const parser: Parser
    var meta: Meta
    var sequence: string // the text of the metadata's sequence ID
    var body: Reader? // null while a multi-query result set is iterated
    var dec: Decoder?
    var closed: bool

    constructor (meta: Meta, expectedKey: string, objMode: bool, body: Reader, parser: Parser)
      ensures Valid() && this.body == body && dec == null
      ensures Cfg() == Config(expectedKey, objMode, parser, body.Report())
      ensures View() == Start(KindsAt(body.unread, body.end), body.end, meta)
      ensures Input() == body.unread && sequence == ""
    {
      this.meta, this.expectedKey, this.objMode, this.parser := meta, expectedKey, objMode, parser;
      this.body, this.dec, this.closed, this.sequence := body, null, false, "";
    }

    predicate Valid()
      reads this
    {
      dec == null ==> body != null
    }

    function CfgWith(report: Option<Error>): Config
      reads this
    {
      Config(expectedKey, objMode, parser, report)
    }

    function Cfg(): Config
      reads this, body
    {
      CfgWith(if body == null then None else body.Report())
    }

    function View(): It
      requires Valid()
      reads this, body, dec, if dec == null then {} else {dec.src}
    {
      if dec == null then It(NewDec(KindsAt(body.unread, body.end), body.end), false, closed, meta)
      else It(dec.View(), true, closed, meta)
    }

    /** Everything that has not been consumed yet. */
    function Input(): string
      requires Valid()
      reads this, body, dec, if dec == null then {} else {dec.src}
    {
      if dec == null then body.unread else dec.Pending()
    }

    method ReadMeta(key: string) returns (err: Option<Error>)
      requires dec != null
      modifies `meta, `sequence, dec, dec.src`unread, dec.src`taken, dec.src`ended
      ensures MetaStep(err, dec.View(), meta) == ParseMeta(old(dec.View()), old(meta), key)
      ensures Suffix(dec.Pending(), old(dec.Pending()))
      ensures if err.None? && !meta.NoMeta? && key == SequenceKey(meta)
              then IsTrimmed(sequence, RawValue(Consumed(old(dec.Pending()), dec.Pending())))
              else sequence == old(sequence)
      ensures SequenceFrom(old(dec.Pending()), old(meta), old(sequence), meta, sequence)
    {
      hide DecodeStep, Store, IsTrimmed, RawValue, KindsOf, KindsAt, After, Written;
      if meta.NoMeta? {
        return None;
      }
      ghost var d, t := dec.View(), dec.Pending();
      var r, raw := dec.Decode();
      if r.Err? {
        return Some(r.error);
      }
      var m := Store(meta, key, r.value);
      if m.Err? {
        return Some(m.error);
      }
      StoreSequence(meta, key, r.value);
      assert t == raw + dec.Pending();
      assert raw == Consumed(t, dec.Pending());
      RawIsSource(d, t);
      TrimTrims(RawValue(raw));
      if key == SequenceKey(meta) {
        sequence := SequenceID(RawValue(raw));
      }
      err, meta := None, m.value;
    }

    /** Parses the top level of the result object until the rows. */
    method Begin() returns (err: Option<Error>)
      requires dec != null
      modifies `meta, `sequence, dec, dec.src`unread, dec.src`taken, dec.src`ended
      ensures MetaStep(err, dec.View(), meta) == IterSpec.Begin(Cfg(), old(dec.View()), old(meta))
      ensures Suffix(dec.Pending(), old(dec.Pending()))
      ensures SequenceFrom(old(dec.Pending()), old(meta), old(sequence), meta, sequence)
    {
      hide ExpectDelim, BeginLoop, KindsOf, KindsAt, After, Written;
      ghost var t := dec.Pending();
      if expectedKey == "" && !objMode {
        return None;
      }
      err := ConsumeDelim(dec, '{');
      ghost var u := dec.Pending();
      if err.Some? || objMode {
        return;
      }
      err := SkipToRows();
      SequenceLater(t, u, dec.Pending(), old(meta), old(sequence), old(meta), old(sequence), meta, sequence);
    }

    method SkipToRows() returns (err: Option<Error>)
      requires dec != null
      modifies `meta, `sequence, dec, dec.src`unread, dec.src`taken, dec.src`ended
      ensures MetaStep(err, dec.View(), meta) == BeginLoop(expectedKey, old(dec.View()), old(meta))
      ensures Suffix(dec.Pending(), old(dec.Pending()))
      ensures SequenceFrom(old(dec.Pending()), old(meta), old(sequence), meta, sequence)
    {
      hide ExpectDelim, NextKey, ParseMeta, KindsOf, KindsAt, After, Written, SequenceFrom, Suffix;
      ghost var t, m0, s0 := dec.Pending(), meta, sequence;
      NothingYet(t, meta, sequence);
      while true
        invariant BeginLoop(expectedKey, dec.View(), meta) == BeginLoop(expectedKey, old(dec.View()), old(meta))
        invariant Suffix(dec.Pending(), t) && SequenceFrom(t, m0, s0, meta, sequence)
        decreases |dec.View().rest|
      {
        ghost var u, m1, s1 := dec.Pending(), meta, sequence;
        var k := ReadKey(dec);
        ghost var w := dec.Pending();
        NothingYet(u, meta, sequence);
        SequenceLater(t, u, w, m0, s0, meta, sequence, meta, sequence);
        if k.Err? {
          return Some(k.error);
        }
        if k.value == expectedKey {
          err := ConsumeDelim(dec, '[');
          NothingYet(w, meta, sequence);
          SequenceLater(t, w, dec.Pending(), m0, s0, meta, sequence, meta, sequence);
          return;
        }
        err := ReadMeta(k.value);
        SequenceLater(t, w, dec.Pending(), m0, s0, m1, s1, meta, sequence);
        if err.Some? {
          return;
        }
      }
    }

    method ReadItem() returns (r: Result<Item>)
      requires dec != null
      modifies dec, dec.src`unread, dec.src`taken, dec.src`ended
      ensures Step(r, dec.View()) == DecodeItem(parser, old(dec.View()))
      ensures Suffix(dec.Pending(), old(dec.Pending()))
    {
      hide DecodeStep, TokenStep, KindsOf, KindsAt;
      match parser
      case ItemParser =>
        var v, _ := dec.Decode();
        r := if v.Err? then Err(v.error) else Ok(Item("", v.value));
      case ChangesParser =>
        var v, _ := dec.Decode();
        r := if v.Err? then Err(Gateway(v.error)) else Ok(Item("", v.value));
      case RevsDiffParser =>
        ghost var before := dec.Pending();
        var t := dec.Token();
        if t.Err? {
          return Err(t.error);
        }
        ghost var between := dec.Pending();
        var v, _ := dec.Decode();
        SuffixTransitive(dec.Pending(), between, before);
        if v.Err? {
          return Err(v.error);
        }
        r := if t.value.Text? then Ok(Item(t.value.s, v.value)) else Err(UnexpectedToken);
    }

    method NextRow() returns (r: Result<Item>)
      requires dec != null
      modifies dec, dec.src`unread, dec.src`taken, dec.src`ended
      ensures Step(r, dec.View()) == IterSpec.NextRow(parser, old(dec.View()))
      ensures Suffix(dec.Pending(), old(dec.Pending()))
    {
      hide DecodeItem, KindsOf, KindsAt, More;
      var more := dec.HasMore();
      if !more {
        return Err(EOF);
      }
      r := ReadItem();
    }

    /** One turn of the loop behind the rows. */
    method SkipMember() returns (err: Option<Error>)
      requires dec != null && More(dec.View())
      modifies `meta, `sequence, dec, dec.src`unread, dec.src`taken, dec.src`ended
      ensures if err.Some? then
                MetaStep(err, dec.View(), meta) == FinishLoop(old(dec.View()), old(meta))
              else
                FinishLoop(dec.View(), meta) == FinishLoop(old(dec.View()), old(meta)) &&
                |dec.View().rest| < |old(dec.View()).rest|
      ensures Suffix(dec.Pending(), old(dec.Pending()))
      ensures SequenceFrom(old(dec.Pending()), old(meta), old(sequence), meta, sequence)
    {
      hide ExpectDelim, TokenStep, ParseMeta, KindsOf, KindsAt, More, After, Written;
      ghost var input := dec.Pending();
      var t := dec.Token();
      if t.Err? {
        return Some(t.error);
      }
      ghost var u := dec.Pending();
      match t.value
      case Delim(d) =>
        err := if d == '}' then None else Some(UnexpectedToken);
      case Text(key) =>
        err := ReadMeta(key);
        SequenceLater(input, u, dec.Pending(), old(meta), old(sequence), old(meta), old(sequence), meta, sequence);
      case Scalar(_) =>
        err := Some(UnexpectedToken);
    }

    method SkipToEnd() returns (err: Option<Error>)
      requires dec != null
      modifies `meta, `sequence, dec, dec.src`unread, dec.src`taken, dec.src`ended
      ensures MetaStep(err, dec.View(), meta) == FinishLoop(old(dec.View()), old(meta))
      ensures Suffix(dec.Pending(), old(dec.Pending()))
      ensures SequenceFrom(old(dec.Pending()), old(meta), old(sequence), meta, sequence)
    {
      hide ExpectDelim, TokenStep, ParseMeta, KindsOf, KindsAt, More, After, Written, SequenceFrom, Suffix;
      ghost var t, m0, s0 := dec.Pending(), meta, sequence;
      NothingYet(t, meta, sequence);
      var more := dec.HasMore();
      while more
        invariant more == More(dec.View())
        invariant Suffix(dec.Pending(), t) && SequenceFrom(t, m0, s0, meta, sequence)
        invariant FinishLoop(dec.View(), meta) == FinishLoop(old(dec.View()), old(meta))
        decreases |dec.View().rest|
      {
        ghost var u, m1, s1 := dec.Pending(), meta, sequence;
        err := SkipMember();
        SequenceLater(t, u, dec.Pending(), m0, s0, m1, s1, meta, sequence);
        if err.Some? {
          return;
        }
        more := dec.HasMore();
      }
      ghost var u := dec.Pending();
      err := ConsumeDelim(dec, '}');
      NothingYet(u, meta, sequence);
      SequenceLater(t, u, dec.Pending(), m0, s0, meta, sequence, meta, sequence);
    }

    method FinishBody() returns (err: Option<Error>)
      requires dec != null
      modifies `meta, `sequence, dec, dec.src`unread, dec.src`taken, dec.src`ended
      ensures MetaStep(err, dec.View(), meta) == IterSpec.Finish(Cfg(), old(dec.View()), old(meta))
      ensures Suffix(dec.Pending(), old(dec.Pending()))
      ensures SequenceFrom(old(dec.Pending()), old(meta), old(sequence), meta, sequence)
    {
      hide ExpectDelim, TokenStep, FinishLoop, KindsOf, KindsAt, After, Written;
      ghost var input := dec.Pending();
      if expectedKey == "" && !objMode {
        var t := dec.Token();
        return if t.Err? && t.error != EOF then Some(Gateway(t.error)) else None;
      }
      if objMode {
        var e := ConsumeDelim(dec, '}');
        return if e.Some? && e.value != EOF then Some(Gateway(e.value)) else None;
      }
      err := ConsumeDelim(dec, ']');
      ghost var u := dec.Pending();
      if err.Some? {
        return;
      }
      err := SkipToEnd();
      SequenceLater(input, u, dec.Pending(), old(meta), old(sequence), old(meta), old(sequence), meta, sequence);
    }

    /** Reads what follows the rows and closes the iterator whatever that gave. */
    method Finish() returns (err: Option<Error>)
      requires dec != null
      modifies `meta, `sequence, `closed, dec, dec.src`unread, dec.src`taken, dec.src`ended, body
      ensures NextStep(Stop(if err.Some? then err.value else EOF), View()) ==
              Ending(Cfg(), old(dec.View()), old(meta))
      ensures closed
      ensures Suffix(dec.Pending(), old(dec.Pending()))
      ensures SequenceFrom(old(dec.Pending()), old(meta), old(sequence), meta, sequence)
    {
      hide IterSpec.Finish, KindsOf, KindsAt, After, Written, SequenceFrom, Suffix;
      err := FinishBody();
      label closing:
      var e2 := Close();
      assert dec.View() == old@closing(dec.View());
      if err.None? {
        err := e2;
      }
    }

    /** Closes the body unless it is closed already, and reports what its first closing stored. */
    method Close() returns (err: Option<Error>)
      modifies `closed, body
      ensures closed && err == Cfg().closeErr
      ensures body != null ==>
                body.unread == old(body.unread) && body.taken == old(body.taken) && body.ended == old(body.ended)
      ensures body != null && old(body.closes) == 0 && !body.ended ==> body.closes == 1
      ensures body != null && (old(body.closes) > 0 || body.ended) ==> body.closes == old(body.closes)
    {
      closed := true;
      if body == null {
        return None;
      }
      if body.closes == 0 && !body.ended {
        var _ := body.Close();
      }
      err := body.Report();
    }

    /** The next row, or the error that ends the rows. */
    method Next() returns (out: Outcome)
      requires Valid()
      modifies this, body, dec, if dec == null then {} else {dec.src}
      ensures Valid() && body == old(body)
      ensures NextStep(out, View()) == IterSpec.Next(Cfg(), old(View()))
      ensures Suffix(Input(), old(Input()))
      ensures SequenceFrom(old(Input()), old(meta), old(sequence), meta, sequence)
      ensures if old(dec) != null then dec == old(dec) else closed || (fresh(dec) && dec.src == body)
    {
      hide IterSpec.Begin, RowStep, KindsOf, KindsAt, After, Written, SequenceFrom, Suffix;
      ghost var t := Input();
      NothingYet(t, meta, sequence);
      if closed {
        return Stop(EOF);
      }
      if dec == null {
        dec := new Decoder(body);
        assert dec.Pending() == t;
        var err := Begin();
        if err.Some? {
          return Stop(Gateway(err.value));
        }
      }
      ghost var c, u, m1, s1 := Cfg(), dec.Pending(), meta, sequence;
      out := RowOrEnd();
      SequenceLater(t, u, dec.Pending(), old(meta), old(sequence), m1, s1, meta, sequence);
      BeginIgnoresClose(c, Cfg(), old(View()).dec, old(meta));
    }

    method RowOrEnd() returns (out: Outcome)
      requires dec != null && !closed
      modifies `meta, `sequence, `closed, dec, dec.src`unread, dec.src`taken, dec.src`ended, body
      ensures NextStep(out, View()) == RowStep(Cfg(), old(dec.View()), old(meta))
      ensures Suffix(dec.Pending(), old(dec.Pending()))
      ensures SequenceFrom(old(dec.Pending()), old(meta), old(sequence), meta, sequence)
    {
      hide IterSpec.NextRow, Ending, KindsOf, KindsAt, After, Written;
      ghost var t := dec.Pending();
      var r := NextRow();
      ghost var u := dec.Pending();
      if r.Ok? {
        return Row(r.value);
      }
      if r.error == EOF {
        var e := Finish();
        SequenceLater(t, u, dec.Pending(), old(meta), old(sequence), old(meta), old(sequence), meta, sequence);
        return Stop(if e.Some? then e.value else EOF);
      }
      return Stop(r.error);
    }
  }

  /** A client that calls Next until it answers no row. */
  method ReadRows(it: Iter) returns (rows: seq<Item>, err: Error)
    requires it.Valid()
    modifies it, it.body, it.dec, if it.dec == null then {} else {it.dec.src}
    ensures it.Valid() && it.body == old(it.body)
    ensures Run(rows, err, it.View()) == Drain(it.Cfg(), old(it.View()))
    ensures SequenceFrom(old(it.Input()), old(it.meta), old(it.sequence), it.meta, it.sequence)
  {
    hide IterSpec.Next, Drain, Continues, KindsOf, KindsAt, After, Written, SequenceFrom, Suffix;
    ghost var t, m0, s0 := it.Input(), it.meta, it.sequence;
    NothingYet(t, m0, s0);
    rows := [];
    ghost var first, s := it.View(), it.View();
    ghost var shape := it.CfgWith(None);
    forall c ensures Continues(c, first, [], first) {
      NothingRead(c, first);
    }
    while true
      invariant it.Valid() && it.body == old(it.body) && it.CfgWith(None) == shape
      invariant it.dec == old(it.dec) || (fresh(it.dec) && it.dec.src == it.body)
      invariant Suffix(it.Input(), t) && SequenceFrom(t, m0, s0, it.meta, it.sequence)
      invariant s == it.View() && forall c: Config :: c.(closeErr := None) == shape ==> Continues(c, first, rows, s)
      decreases |s.dec.rest|
    {
      ghost var u, m1, s1 := it.Input(), it.meta, it.sequence;
      var out := it.Next();
      SequenceLater(t, u, it.Input(), m0, s0, m1, s1, it.meta, it.sequence);
      ghost var n := IterSpec.Next(it.Cfg(), s);
      assert it.Cfg().(closeErr := None) == shape && n == NextStep(out, it.View());
      if out.Stop? {
        ContinuesToEnd(it.Cfg(), first, rows, s);
        return rows, out.err;
      }
      forall c: Config | c.(closeErr := None) == shape ensures Continues(c, first, rows + [out.item], n.it) {
        RowIgnoresClose(c, it.Cfg(), s);
        ContinuesToRow(c, first, rows, s);
      }
      rows, s := rows + [out.item], n.it;
    }
  }

  /** Having come from `first` to `s` with these rows. */
  predicate Continues(c: Config, first: It, rows: seq<Item>, s: It) {
    var r := Drain(c, s);
    Drain(c, first) == Run(rows + r.rows, r.err, r.it)
  }

  lemma {:induction false} NothingRead(c: Config, s: It)
    ensures Continues(c, s, [], s)
  {
    hide Drain;
    var r := Drain(c, s);
    assert [] + r.rows == r.rows;
  }

  lemma {:induction false} ContinuesToEnd(c: Config, first: It, rows: seq<Item>, s: It)
    requires Continues(c, first, rows, s) && IterSpec.Next(c, s).out.Stop?
    ensures var n := IterSpec.Next(c, s); Drain(c, first) == Run(rows, n.out.err, n.it)
  {
    hide IterSpec.Next;
    assert rows + [] == rows;
  }

  lemma {:induction false} ContinuesToRow(c: Config, first: It, rows: seq<Item>, s: It)
    requires Continues(c, first, rows, s) && IterSpec.Next(c, s).out.Row?
    ensures var n := IterSpec.Next(c, s); Continues(c, first, rows + [n.out.item], n.it)
  {
    hide IterSpec.Next;
    var n := IterSpec.Next(c, s);
    var r := Drain(c, n.it);
    assert rows + ([n.out.item] + r.rows) == (rows + [n.out.item]) + r.rows;
  }

  /** What closing would report plays no part before the rows end. */
  lemma {:induction false} BeginIgnoresClose(c: Config, c': Config, d: Dec, m: Meta)
    requires c.(closeErr := None) == c'.(closeErr := None)
    ensures IterSpec.Begin(c, d, m) == IterSpec.Begin(c', d, m)
  {
    hide BeginLoop, ExpectDelim;
  }

  lemma {:induction false} RowIgnoresClose(c: Config, c': Config, s: It)
    requires c.(closeErr := None) == c'.(closeErr := None) && IterSpec.Next(c', s).out.Row?
    ensures IterSpec.Next(c, s) == IterSpec.Next(c', s)
  {
    hide BeginLoop, IterSpec.NextRow;
  }
}
