/**
 Which error the iterators report, in terms of what stands in the stream: at the place where
 a key, a value or a delimiter is missing.
 */
module IterErrors {
  import opened Errors
  import opened Json
  import opened Decoding
  import opened Metadata
  import opened IterSpec
  import opened Members
  import opened Envelope
  import opened IterTheorems

  // -------------------------------------------------- what is wrong at one place of a stream

  /** The input ends inside a lexeme or a value. */
  function EndInside(end: Error): Error {
    if end != EOF then end else UnexpectedEOF
  }

  /** A value that should begin here. */
  function ValueFault(ks: Kinds, end: Error): Option<Error> {
    if ks == [] then Some(end)
    else
      match ScanValue(ks)
      case Done(_, _) => None
      case Incomplete => Some(EndInside(end))
      case Malformed => Some(SyntaxError)
  }

  /** A colon, and the value behind it. */
  function ColonFault(ks: Kinds, end: Error): Option<Error> {
    if ks == [] then Some(end) else if ks[0] != Colon then Some(SyntaxError) else ValueFault(ks[1..], end)
  }

  /** A key, behind the comma that other members ask for. */
  function KeyFault(lead: bool, ks: Kinds, end: Error): Option<Error> {
    if ks == [] then Some(end)
    else if lead && ks[0] != Comma then Some(SyntaxError)
    else
      var u := ks[|Sep(lead)|..];
      if u == [] then Some(end)
      else if u[0].Str? then None
      else if u[0] == Cut(true) then Some(EndInside(end))
      else Some(SyntaxError)
  }

  /** The delimiter that `expected` asks for, where a value may begin. */
  function OpenFault(ks: Kinds, expected: char, end: Error): Option<Error> {
    if ks == [] then Some(Gateway(end))
    else
      match ks[0]
      case LBracket => if expected == '[' then None else Some(UnexpectedDelim('['))
      case LBrace => if expected == '{' then None else Some(UnexpectedDelim('{'))
      case Str(_) | Num(_) | True | False | Null => Some(Gateway(UnexpectedToken))
      case Cut(_) => Some(Gateway(EndInside(end)))
      case _ => Some(Gateway(SyntaxError))
  }

  /** The value of the row member: a colon and a bracket. */
  function BracketFault(ks: Kinds, end: Error): Option<Error> {
    if ks == [] then Some(Gateway(end))
    else if ks[0] != Colon then Some(Gateway(SyntaxError))
    else OpenFault(ks[1..], '[', end)
  }

  /** A metadata member behind its key. */
  function MetaFault(m: Meta, name: string, ks: Kinds, end: Error): Option<Error> {
    if ColonFault(ks, end).Some? then ColonFault(ks, end)
    else
      match Store(m, name, ScanValue(ks[1..]).value)
      case Err(e) => Some(e)
      case Ok(_) => None
  }

  /** The first member that is wrong before the rows; a brace leaves no place for them. */
  function HeadFault(lead: bool, key: string, m: Meta, ks: Kinds, end: Error): Option<Error> {
    if ks != [] && ks[0] == RBrace then Some(UnexpectedToken)
    else if KeyFault(lead, ks, end).Some? then KeyFault(lead, ks, end)
    else
      var u := ks[|Sep(lead)|..];
      if u[0].s == key then BracketFault(u[1..], end) else MetaFault(m, u[0].s, u[1..], end)
  }

  lemma {:induction false} OpenDelim(d: Dec, c: char)
    requires d.failed.None? && ValueAllowed(d.st) && OpenFault(d.rest, c, d.end).Some?
    requires d.st != ArrayStart
    ensures ExpectDelim(d, c).err == OpenFault(d.rest, c, d.end)
  {
  }

  lemma {:induction false} ColonDecodes(d: Dec)
    requires AtColon(d)
    ensures match ColonFault(d.rest, d.end)
            case Some(e) => DecodeStep(d).res == Err(e)
            case None => DecodeStep(d).res == Ok(ScanValue(d.rest[1..]).value)
  {
    if d.rest != [] && d.rest[0] == Colon {
      assert Prepare(d).value == Skip(d, ObjectValue);
    }
  }

  lemma {:induction false} KeyTokens(d: Dec)
    requires AtMember(d) && KeyFault(Lead(d), d.rest, d.end).Some?
    requires d.rest != [] ==> d.rest[0] != RBrace
    ensures TokenStep(d).res == Err(KeyFault(Lead(d), d.rest, d.end).value)
  {
    if d.rest != [] && d.rest[0] == Comma && Lead(d) {
      assert TokenStep(d) == TokenStep(Skip(d, ObjectKey));
    }
  }

  /** A key at its place. */
  lemma {:induction false} KeyStands(d: Dec)
    requires AtMember(d) && KeyFault(Lead(d), d.rest, d.end).None?
    ensures var u := d.rest[|Sep(Lead(d))|..];
            u != [] && u[0].Str? && d.rest == Sep(Lead(d)) + [Str(u[0].s)] + u[1..] && More(d)
  {
    var u := d.rest[|Sep(Lead(d))|..];
    assert u == [u[0]] + u[1..];
  }

  /** The key loop of `begin` fails with the first fault. */
  lemma {:induction false} BeginFails(key: string, d: Dec, m: Meta)
    requires AtMember(d) && !m.NoMeta? && HeadFault(Lead(d), key, m, d.rest, d.end).Some?
    ensures BeginLoop(key, d, m).err == HeadFault(Lead(d), key, m, d.rest, d.end)
  {
    hide TokenStep, DecodeStep, ExpectDelim, Store, ColonFault, KeyFault, BracketFault;
    if d.rest != [] && d.rest[0] == RBrace {
      BraceIsNoKey(d);
    } else if KeyFault(Lead(d), d.rest, d.end).Some? {
      KeyTokens(d);
    } else {
      KeyStands(d);
      var u := d.rest[|Sep(Lead(d))|..];
      KeyReads(d, u[0].s, u[1..]);
      var d1 := At(d, u[1..], ObjectColon);
      if u[0].s == key {
        BracketFails(d1);
      } else {
        ColonDecodes(d1);
      }
    }
  }

  lemma {:induction false} BraceIsNoKey(d: Dec)
    requires AtMember(d) && d.rest != [] && d.rest[0] == RBrace
    ensures NextKey(d).res == Err(UnexpectedToken)
  {
  }

  lemma {:induction false} BracketFails(d: Dec)
    requires AtColon(d) && BracketFault(d.rest, d.end).Some?
    ensures ExpectDelim(d, '[').err == BracketFault(d.rest, d.end)
  {
    if d.rest != [] && d.rest[0] == Colon {
      var d1 := Skip(d, ObjectValue);
      assert TokenStep(d) == TokenStep(d1);
      OpenDelim(d1, '[');
    }
  }

  /** Members that are in order are passed over. */
  lemma {:induction false} BeginPasses(key: string, d: Dec, m: Meta, pre: seq<Member>, tail: Kinds)
    requires AtMember(d) && !m.NoMeta? && NoKey(pre, key) && StoreAll(m, pre).Ok?
    requires d.rest == FlattenMembers(Lead(d), pre) + tail
    ensures var st := if pre == [] then d.st else ObjectComma;
            BeginLoop(key, d, m) == BeginLoop(key, At(d, tail, st), StoreAll(m, pre).value)
    decreases |pre|
  {
    hide TokenStep, Store, ExpectDelim, StoreAll, ParseMeta;
    if pre == [] {
      assert d.rest == tail;
      StoreAllNil(m);
    } else {
      var x := pre[0];
      assert pre == [x] + pre[1..];
      var more := FlattenMembers(true, pre[1..]) + tail;
      MembersCons(Lead(d), x, pre[1..], tail);
      KeyReads(d, x.key, [Colon] + Flatten(x.value) + more);
      StoreAllCons(m, pre);
      MetaReads(At(d, [Colon] + Flatten(x.value) + more, ObjectColon), m, x, more);
      BeginPasses(key, At(d, more, ObjectComma), Store(m, x.key, x.value).value, pre[1..], tail);
    }
  }

  // ----------------------------------------------------------------- whole streams, keyed

  /** No object at all. */
  lemma {:induction false} NoObject(c: Config, ks: Kinds, end: Error, m: Meta)
    requires !Continuous(c) && (ks == [] || ks[0] != LBrace)
    ensures OpenFault(ks, '{', end).Some?
    ensures var run := Drain(c, Start(ks, end, m));
            run.rows == [] && run.err == Gateway(OpenFault(ks, '{', end).value)
  {
    hide Drain, BeginLoop, ExpectDelim;
    OpenDelim(NewDec(ks, end), '{');
    DrainBegun(c, Start(ks, end, m));
  }

  /** An error before the rows: no rows, and a gateway error with the first fault. */
  lemma {:induction false} FaultBeforeRows(c: Config, pre: seq<Member>, tail: Kinds, end: Error, m: Meta)
    requires IsKeyed(c, m) && NoKey(pre, c.expectedKey) && StoreAll(m, pre).Ok?
    requires HeadFault(pre != [], c.expectedKey, StoreAll(m, pre).value, tail, end).Some?
    ensures var run := Drain(c, Start([LBrace] + (FlattenMembers(false, pre) + tail), end, m));
            run.rows == [] &&
            run.err == Gateway(HeadFault(pre != [], c.expectedKey, StoreAll(m, pre).value, tail, end).value)
  {
    hide Drain, DrainBody, BeginLoop, StoreAll, HeadFault;
    var ks := FlattenMembers(false, pre) + tail;
    var d := Inside(ks, end, ObjectStart);
    DrainObject(c, ks, end, m);
    BeginPasses(c.expectedKey, d, m, pre, tail);
    StoreAllFits(m, pre);
    BeginFails(c.expectedKey, At(d, tail, if pre == [] then d.st else ObjectComma), StoreAll(m, pre).value);
  }

  /** What should be a row, or the end of the rows. */
  function RowFault(c: Config, lead: bool, ks: Kinds, end: Error): Option<Error> {
    if ks == [] then Some(Gateway(end))
    else if ks[0] == RBrace then Some(Gateway(SyntaxError))
    else if ks[0] == RBracket then None
    else
      var fault := if lead && ks[0] != Comma then Some(SyntaxError) else ValueFault(ks[|Sep(lead)|..], end);
      match fault
      case None => None
      case Some(e) => Some(if e == EOF || c.parser.ChangesParser? then Gateway(e) else e)
  }

  lemma {:induction false} RowFails(c: Config, s: It)
    requires InRows(s) && Keyed(c) && c.parser != RevsDiffParser
    requires RowFault(c, Lead(s.dec), s.dec.rest, s.dec.end).Some?
    ensures var run := Drain(c, s);
            run.rows == [] && run.err == RowFault(c, Lead(s.dec), s.dec.rest, s.dec.end).value
  {
    hide FinishLoop, TokenStep;
    var d := s.dec;
    if !More(d) {
      NoClose(d);
    } else {
      ItemFails(d);
      if DecodeStep(d).res == Err(EOF) {
        DecodeEofIsEnd(d);
        NoDelimAtEnd(DecodeStep(d).dec, ']');
      }
    }
  }

  /**
   The error of a row that cannot be read leaves the iterator open, and every later call
   reports it again, unless a comma stands before nothing.
   */
  lemma {:induction false} RowErrorRepeats(c: Config, s: It, n: nat)
    requires InRows(s) && Keyed(c) && c.parser != RevsDiffParser && More(s.dec)
    requires RowFault(c, Lead(s.dec), s.dec.rest, s.dec.end).Some?
    requires s.dec.rest[0] == Comma ==> |s.dec.rest| > 1 && s.dec.rest[1] != RBracket && s.dec.rest[1] != RBrace
    ensures var e := RowFault(c, Lead(s.dec), s.dec.rest, s.dec.end).value;
            Next(c, s).out == Stop(e) && NextTimes(c, Next(c, s).it, n) == Next(c, s).it &&
            Next(c, Next(c, s).it).out == Stop(e)
    decreases n
  {
    hide Ending, ScanValue;
    ItemFails(s.dec);
    var s1 := Next(c, s).it;
    FailsAgain(s.dec);
    assert Next(c, s1) == NextStep(Next(c, s).out, s1);
    Unmoved(c, s1, n);
  }

  lemma {:induction false} Unmoved(c: Config, s: It, n: nat)
    requires Next(c, s).it == s
    ensures NextTimes(c, s, n) == s
    decreases n
  {
    hide Next;
    if n > 0 {
      Unmoved(c, s, n - 1);
    }
  }

  lemma {:induction false} FailsAgain(d: Dec)
    requires AtItem(d) && More(d) && DecodeStep(d).res.Err?
    requires d.rest[0] == Comma ==> |d.rest| > 1 && d.rest[1] != RBracket && d.rest[1] != RBrace
    ensures DecodeStep(d).res != Err(EOF) && DecodeStep(DecodeStep(d).dec) == DecodeStep(d)
    ensures More(DecodeStep(d).dec)
  {
    hide ScanValue;
  }

  lemma {:induction false} NoClose(d: Dec)
    requires AtItem(d) && (d.rest == [] || d.rest[0] == RBrace)
    ensures ExpectDelim(d, ']').err == Some(Gateway(if d.rest == [] then d.end else SyntaxError))
  {
  }

  lemma {:induction false} ItemFails(d: Dec)
    requires AtItem(d) && More(d)
    ensures var lead := Lead(d);
            match (if lead && d.rest[0] != Comma then Some(SyntaxError) else ValueFault(d.rest[|Sep(lead)|..], d.end))
            case Some(e) => DecodeStep(d).res == Err(e) && DecodeStep(d).dec.end == d.end
            case None => DecodeStep(d).res.Ok?
  {
    if Lead(d) && d.rest[0] == Comma {
      assert Prepare(d).value == Skip(d, ArrayValue);
    } else if !Lead(d) {
      assert d.rest[0..] == d.rest;
    }
  }

  /** Rows that are in order are delivered before the error. */
  lemma {:induction false} RowsThenFault(c: Config, s: It, items: seq<Value>, tail: Kinds)
    requires InRows(s) && Keyed(c) && c.parser != RevsDiffParser
    requires s.dec.rest == FlattenItems(Lead(s.dec), items) + tail
    requires RowFault(c, Lead(s.dec) || items != [], tail, s.dec.end).Some?
    ensures var run := Drain(c, s);
            run.rows == Plain(items) && run.err == RowFault(c, Lead(s.dec) || items != [], tail, s.dec.end).value
    decreases |items|
  {
    hide Next, Drain, RowFault, Flatten;
    if items == [] {
      assert s.dec.rest == tail;
      RowFails(c, s);
    } else {
      var v, more := items[0], FlattenItems(true, items[1..]) + tail;
      Regroup(Sep(Lead(s.dec)), Flatten(v), FlattenItems(true, items[1..]), tail);
      assert s.dec.rest == Sep(Lead(s.dec)) + Flatten(v) + more;
      RowReads(c, s, v, more);
      RowsStateFacts(s, more, tail);
      DrainUnfold(c, s);
      RowsThenFault(c, RowsState(s, more, true), items[1..], tail);
      assert Plain(items) == [Item("", v)] + Plain(items[1..]);
    }
  }

  /** An error in the rows: all rows before it, and then the error of the decoder. */
  lemma {:induction false} FaultInRows(
      c: Config, pre: seq<Member>, items: seq<Value>, tail: Kinds, end: Error, m: Meta)
    requires IsKeyed(c, m) && NoKey(pre, c.expectedKey) && StoreAll(m, pre).Ok?
    requires RowFault(c, items != [], tail, end).Some?
    ensures var ks := [LBrace] + (Head(false, pre, c.expectedKey) + (FlattenItems(false, items) + tail));
            var run := Drain(c, Start(ks, end, m));
            run.rows == Plain(items) && run.err == RowFault(c, items != [], tail, end).value
  {
    hide Drain, BeginLoop, StoreAll, RowFault, Head;
    var rows := FlattenItems(false, items) + tail;
    var ks := Head(false, pre, c.expectedKey) + rows;
    var d := Inside(ks, end, ObjectStart);
    DrainObject(c, ks, end, m);
    BeginReads(c.expectedKey, d, m, pre, rows);
    RowsThenFault(c, RowsAt(d, rows, StoreAll(m, pre).value), items, tail);
  }

  /** The first thing that is wrong behind the rows. Here the errors are not wrapped, except at the end. */
  function TailFault(m: Meta, ks: Kinds, end: Error): Option<Error> {
    if ks == [] then Some(Gateway(end))
    else if ks[0] == RBracket then Some(Gateway(SyntaxError))
    else if ks[0] == RBrace then None
    else if KeyFault(true, ks, end).Some? then KeyFault(true, ks, end)
    else MetaFault(m, ks[1].s, ks[2..], end)
  }

  lemma {:induction false} FinishFails(d: Dec, m: Meta)
    requires AtMember(d) && Lead(d) && !m.NoMeta? && TailFault(m, d.rest, d.end).Some?
    ensures FinishLoop(d, m).err == TailFault(m, d.rest, d.end)
  {
    hide TokenStep, DecodeStep, ExpectDelim, Store, ColonFault, KeyFault;
    if !More(d) {
      NoBrace(d);
    } else if KeyFault(true, d.rest, d.end).Some? {
      KeyTokens(d);
    } else {
      KeyStands(d);
      var u := d.rest[1..];
      KeyReads(d, u[0].s, u[1..]);
      ColonDecodes(At(d, u[1..], ObjectColon));
      assert d.rest[1] == u[0] && d.rest[2..] == u[1..];
    }
  }

  lemma {:induction false} NoBrace(d: Dec)
    requires AtMember(d) && Lead(d) && (d.rest == [] || d.rest[0] == RBracket)
    ensures ExpectDelim(d, '}').err == Some(Gateway(if d.rest == [] then d.end else SyntaxError))
  {
  }

  lemma {:induction false} FinishPasses(d: Dec, m: Meta, post: seq<Member>, tail: Kinds)
    requires AtMember(d) && Lead(d) && !m.NoMeta? && StoreAll(m, post).Ok?
    requires d.rest == FlattenMembers(true, post) + tail
    ensures FinishLoop(d, m) == FinishLoop(At(d, tail, ObjectComma), StoreAll(m, post).value)
    decreases |post|
  {
    hide TokenStep, Store, ExpectDelim, StoreAll, ParseMeta;
    if post == [] {
      assert d.rest == tail;
      StoreAllNil(m);
    } else {
      var x := post[0];
      assert post == [x] + post[1..];
      var more := FlattenMembers(true, post[1..]) + tail;
      MembersCons(true, x, post[1..], tail);
      KeyReads(d, x.key, [Colon] + Flatten(x.value) + more);
      StoreAllCons(m, post);
      MetaReads(At(d, [Colon] + Flatten(x.value) + more, ObjectColon), m, x, more);
      FinishPasses(At(d, more, ObjectComma), Store(m, x.key, x.value).value, post[1..], tail);
    }
  }

  /** An error behind the rows: all rows, and then the first fault. */
  lemma {:induction false} FaultBehindRows(c: Config, r: Response, tail: Kinds, end: Error, m: Meta)
    requires IsKeyed(c, m) && Acceptable(c.expectedKey, m, r)
    requires TailFault(StoreAll(m, r.pre + r.post).value, tail, end).Some?
    ensures var run := Drain(c, Start([LBrace] + (Body(c.expectedKey, r) + tail), end, m));
            run.rows == Plain(r.items) && run.err == TailFault(StoreAll(m, r.pre + r.post).value, tail, end).value
  {
    hide Drain, BeginLoop, FinishLoop, StoreAll, TailFault, Head;
    var ks := Body(c.expectedKey, r) + tail;
    var d := Inside(ks, end, ObjectStart);
    StoreAllAppend(m, r.pre, r.post);
    var m1 := StoreAll(m, r.pre).value;
    StoreAllFits(m, r.pre);
    StoreAllFits(m1, r.post);
    DrainObject(c, ks, end, m);
    BodySplit(c.expectedKey, r, tail);
    var post := FlattenMembers(true, r.post) + tail;
    BeginReads(c.expectedKey, d, m, r.pre, FlattenItems(false, r.items) + ([RBracket] + post));
    RowsThenFinish(c, d, m1, r.items, post);
    FinishPasses(Behind(d, post), m1, r.post, tail);
    FinishFails(At(Behind(d, post), tail, ObjectComma), StoreAll(m1, r.post).value);
  }

  // ----------------------------------------------------------- no stream is left out

  lemma {:induction false} ValueAt(ks: Kinds, end: Error) returns (rest: Kinds)
    requires ValueFault(ks, end).None?
    ensures ScanValue(ks).Done? && ks == Flatten(ScanValue(ks).value) + rest && |rest| < |ks|
  {
    ScanSound(ks);
    rest := ScanValue(ks).rest;
  }

  lemma {:induction false} KeyAt(lead: bool, ks: Kinds, end: Error) returns (key: string, rest: Kinds)
    requires KeyFault(lead, ks, end).None?
    ensures ks == Sep(lead) + ([Str(key)] + rest) && ks[|Sep(lead)|..] == [Str(key)] + rest
  {
    var u := ks[|Sep(lead)|..];
    assert ks == Sep(lead) + u;
    key, rest := u[0].s, u[1..];
    assert u == [u[0]] + u[1..];
  }

  lemma {:induction false} MemberAt(m: Meta, name: string, ks: Kinds, end: Error) returns (x: Member, rest: Kinds)
    requires MetaFault(m, name, ks, end).None?
    ensures ks == [Colon] + (Flatten(x.value) + rest) && x.key == name && Store(m, x.key, x.value).Ok? && |rest| < |ks|
  {
    hide Store, ValueFault, Flatten;
    rest := ValueAt(ks[1..], end);
    x := Member(name, ScanValue(ks[1..]).value);
    assert ks == [Colon] + ks[1..];
  }

  lemma {:induction false} BracketAt(ks: Kinds, end: Error) returns (rest: Kinds)
    requires BracketFault(ks, end).None?
    ensures ks == [Colon, LBracket] + rest
  {
    rest := ks[2..];
  }

  /** The row member, up to its bracket. */
  predicate OpensRows(lead: bool, key: string, ks: Kinds) {
    var open := Sep(lead) + [Str(key), Colon, LBracket];
    |open| <= |ks| && ks[..|open|] == open
  }

  lemma {:induction false} RowsOpen(lead: bool, key: string, rest: Kinds)
    ensures OpensRows(lead, key, Sep(lead) + ([Str(key)] + ([Colon, LBracket] + rest)))
  {
  }

  lemma {:induction false} OneMore(lead: bool, x: Member, ms: seq<Member>, tail: Kinds)
    ensures Sep(lead) + ([Str(x.key)] + ([Colon] + (Flatten(x.value) + (FlattenMembers(true, ms) + tail)))) ==
            FlattenMembers(lead, [x] + ms) + tail
  {
    hide Flatten, FlattenMembers;
    MembersCons(lead, x, ms, tail);
  }

  lemma {:induction false} NoneYet(lead: bool, ks: Kinds)
    ensures FlattenMembers(lead, []) + ks == ks && FlattenItems(lead, []) + ks == ks
  {
  }

  /** Up to the rows, or to the first fault. */
  lemma {:induction false} HeadSplit(lead: bool, key: string, m: Meta, ks: Kinds, end: Error)
    returns (pre: seq<Member>, tail: Kinds)
    requires !m.NoMeta?
    ensures ks == FlattenMembers(lead, pre) + tail && NoKey(pre, key) && StoreAll(m, pre).Ok?
    ensures HeadFault(lead || pre != [], key, StoreAll(m, pre).value, tail, end).Some? ||
            OpensRows(lead || pre != [], key, tail)
    decreases |ks|
  {
    hide StoreAll, Store, KeyFault, MetaFault, BracketFault, FlattenMembers, Flatten, OpensRows;
    StoreAllNil(m);
    NoneYet(lead, ks);
    pre, tail := [], ks;
    if HeadFault(lead, key, m, ks, end).None? {
      var name, rest := KeyAt(lead, ks, end);
      assert ([Str(name)] + rest)[1..] == rest;
      if name == key {
        var more := BracketAt(rest, end);
        RowsOpen(lead, key, more);
      } else {
        var x, more := MemberAt(m, name, rest, end);
        StoreKeeps(m, x);
        pre, tail := HeadSplit(true, key, Store(m, x.key, x.value).value, more, end);
        OneMore(lead, x, pre, tail);
        StoreAllPrepend(m, x, pre);
        pre := [x] + pre;
      }
    }
  }

  lemma {:induction false} StoreKeeps(m: Meta, x: Member)
    requires Store(m, x.key, x.value).Ok? && !m.NoMeta?
    ensures !Store(m, x.key, x.value).value.NoMeta?
  {
    StoreFits(m, x);
  }

  lemma {:induction false} RowAt(c: Config, lead: bool, ks: Kinds, end: Error) returns (v: Value, rest: Kinds)
    requires RowFault(c, lead, ks, end).None? && ks[0] != RBracket
    ensures ks == Sep(lead) + Flatten(v) + rest && |rest| < |ks|
  {
    hide ValueFault, Flatten, ScanValue;
    var u := ks[|Sep(lead)|..];
    assert ks == Sep(lead) + u;
    rest := ValueAt(u, end);
    v := ScanValue(u).value;
    assert Sep(lead) + (Flatten(v) + rest) == Sep(lead) + Flatten(v) + rest;
  }

  /** Up to the end of the rows, or to the first fault. */
  lemma {:induction false} RowsSplit(c: Config, lead: bool, ks: Kinds, end: Error)
    returns (items: seq<Value>, tail: Kinds)
    ensures ks == FlattenItems(lead, items) + tail
    ensures RowFault(c, lead || items != [], tail, end).Some? || (tail != [] && tail[0] == RBracket)
    decreases |ks|
  {
    hide Flatten, FlattenItems, ValueFault;
    NoneYet(lead, ks);
    items, tail := [], ks;
    if RowFault(c, lead, ks, end).None? && ks[0] != RBracket {
      var v, more := RowAt(c, lead, ks, end);
      items, tail := RowsSplit(c, true, more, end);
      FlattenItemsCons(lead, v, items);
      assert Sep(lead) + Flatten(v) + (FlattenItems(true, items) + tail) ==
             Sep(lead) + Flatten(v) + FlattenItems(true, items) + tail;
      items := [v] + items;
    }
  }

  /** Up to the closing brace, or to the first fault. */
  lemma {:induction false} TailSplit(m: Meta, ks: Kinds, end: Error) returns (post: seq<Member>, tail: Kinds)
    requires !m.NoMeta?
    ensures ks == FlattenMembers(true, post) + tail && StoreAll(m, post).Ok?
    ensures TailFault(StoreAll(m, post).value, tail, end).Some? || (tail != [] && tail[0] == RBrace)
    decreases |ks|
  {
    hide StoreAll, Store, KeyFault, MetaFault, FlattenMembers, Flatten;
    StoreAllNil(m);
    NoneYet(true, ks);
    post, tail := [], ks;
    if TailFault(m, ks, end).None? && ks[0] != RBrace {
      var name, rest := KeyAt(true, ks, end);
      assert ks[1] == Str(name) && ks[2..] == rest;
      var x, more := MemberAt(m, name, rest, end);
      StoreKeeps(m, x);
      post, tail := TailSplit(Store(m, x.key, x.value).value, more, end);
      OneMore(true, x, post, tail);
      StoreAllPrepend(m, x, post);
      post := [x] + post;
    }
  }

  /** Where a stream goes wrong, or that it does not. */
  datatype Place =
    | AtOnce
    | BeforeRows(pre: seq<Member>)
    | AmongRows(pre: seq<Member>, items: seq<Value>)
    | BehindRows(r: Response)
    | Nowhere(r: Response)

  /** What has been read up to there is in order, and `tail` is not. */
  predicate GoesWrong(c: Config, m: Meta, ks: Kinds, end: Error, place: Place, tail: Kinds) {
    match place
    case AtOnce => ks == tail && (tail == [] || tail[0] != LBrace)
    case BeforeRows(pre) =>
      ks == [LBrace] + (FlattenMembers(false, pre) + tail) && NoKey(pre, c.expectedKey) && StoreAll(m, pre).Ok? &&
      HeadFault(pre != [], c.expectedKey, StoreAll(m, pre).value, tail, end).Some?
    case AmongRows(pre, items) =>
      ks == [LBrace] + (Head(false, pre, c.expectedKey) + (FlattenItems(false, items) + tail)) &&
      NoKey(pre, c.expectedKey) && StoreAll(m, pre).Ok? && RowFault(c, items != [], tail, end).Some?
    case BehindRows(r) =>
      ks == [LBrace] + (Body(c.expectedKey, r) + tail) && Acceptable(c.expectedKey, m, r) &&
      TailFault(StoreAll(m, r.pre + r.post).value, tail, end).Some?
    case Nowhere(r) =>
      ks == [LBrace] + Body(c.expectedKey, r) + [RBrace] + tail && Acceptable(c.expectedKey, m, r)
  }

  /** The rows that come out first. */
  function RowsBefore(place: Place): seq<Item> {
    match place
    case AtOnce => []
    case BeforeRows(_) => []
    case AmongRows(_, items) => Plain(items)
    case BehindRows(r) => Plain(r.items)
    case Nowhere(r) => Plain(r.items)
  }

  function Wrapped(err: Option<Error>): Option<Error> {
    if err.Some? then Some(Gateway(err.value)) else None
  }

  /** The error behind them: errors before the rows are gateway errors. */
  function ErrorAt(c: Config, m: Meta, end: Error, place: Place, tail: Kinds): Option<Error> {
    match place
    case AtOnce => Wrapped(OpenFault(tail, '{', end))
    case BeforeRows(pre) =>
      if StoreAll(m, pre).Err? then None
      else Wrapped(HeadFault(pre != [], c.expectedKey, StoreAll(m, pre).value, tail, end))
    case AmongRows(_, items) => RowFault(c, items != [], tail, end)
    case BehindRows(r) =>
      if StoreAll(m, r.pre + r.post).Err? then None else TailFault(StoreAll(m, r.pre + r.post).value, tail, end)
    case Nowhere(_) => Some(if c.closeErr.Some? then c.closeErr.value else EOF)
  }

  lemma {:induction false} WrongHere(c: Config, m: Meta, ks: Kinds, end: Error, place: Place, tail: Kinds)
    requires IsKeyed(c, m) && GoesWrong(c, m, ks, end, place, tail)
    ensures var run := Drain(c, Start(ks, end, m));
            run.rows == RowsBefore(place) && Some(run.err) == ErrorAt(c, m, end, place, tail)
  {
    hide Drain, HeadFault, RowFault, TailFault, StoreAll, Body, Head, Final, OpenFault;
    hide FlattenMembers, FlattenItems, NoKey;
    match place
    case AtOnce => NoObject(c, ks, end, m);
    case BeforeRows(pre) => FaultBeforeRows(c, pre, tail, end, m);
    case AmongRows(pre, items) => FaultInRows(c, pre, items, tail, end, m);
    case BehindRows(r) => FaultBehindRows(c, r, tail, end, m);
    case Nowhere(r) => KeyedReads(c, end, m, r, tail);
  }

  /** Every stream goes wrong somewhere, or is a complete response. */
  lemma {:induction false} EveryStream(c: Config, m: Meta, ks: Kinds, end: Error) returns (place: Place, tail: Kinds)
    requires IsKeyed(c, m)
    ensures GoesWrong(c, m, ks, end, place, tail)
  {
    hide HeadFault, RowFault, TailFault, StoreAll, Body, Head, Final, FlattenMembers, FlattenItems;
    if ks == [] || ks[0] != LBrace {
      return AtOnce, ks;
    }
    var pre, rest := HeadSplit(false, c.expectedKey, m, ks[1..], end);
    assert ks == [LBrace] + ks[1..];
    place, tail := BeforeRows(pre), rest;
    StoreAllFits(m, pre);
    if HeadFault(pre != [], c.expectedKey, StoreAll(m, pre).value, rest, end).None? {
      var open := Sep(pre != []) + [Str(c.expectedKey), Colon, LBracket];
      var more := rest[|open|..];
      assert rest == open + more;
      HeadWhole(pre, c.expectedKey, more);
      place, tail := FromRows(c, m, pre, more, end);
    }
  }

  /** The same from the rows on. */
  lemma {:induction false} FromRows(c: Config, m: Meta, pre: seq<Member>, rows: Kinds, end: Error)
    returns (place: Place, tail: Kinds)
    requires IsKeyed(c, m) && NoKey(pre, c.expectedKey) && StoreAll(m, pre).Ok?
    ensures GoesWrong(c, m, [LBrace] + (Head(false, pre, c.expectedKey) + rows), end, place, tail)
  {
    hide HeadFault, RowFault, TailFault, StoreAll, Body, Head, Final, FlattenMembers, FlattenItems;
    var items, after := RowsSplit(c, false, rows, end);
    place, tail := AmongRows(pre, items), after;
    if RowFault(c, items != [], after, end).None? {
      StoreAllFits(m, pre);
      var post, last := TailSplit(StoreAll(m, pre).value, after[1..], end);
      assert after == [RBracket] + after[1..];
      StoreAllAppend(m, pre, post);
      var r := Response(pre, items, post);
      BodyWhole(c.expectedKey, r, last);
      place, tail := BehindRows(r), last;
      if TailFault(StoreAll(m, pre + post).value, last, end).None? {
        assert last == [RBrace] + last[1..];
        Whole(Body(c.expectedKey, r), last[1..]);
        place, tail := Nowhere(r), last[1..];
      }
    }
  }

  lemma {:induction false} BodyWhole(key: string, r: Response, tail: Kinds)
    ensures Head(false, r.pre, key) +
            (FlattenItems(false, r.items) + ([RBracket] + (FlattenMembers(true, r.post) + tail))) ==
            Body(key, r) + tail
  {
    hide Head, FlattenItems, FlattenMembers;
    BodySplit(key, r, tail);
  }

  lemma {:induction false} HeadWhole(pre: seq<Member>, key: string, more: Kinds)
    ensures FlattenMembers(false, pre) + (Sep(pre != []) + [Str(key), Colon, LBracket] + more) ==
            Head(false, pre, key) + more
  {
  }

  lemma {:induction false} Whole(body: Kinds, tail: Kinds)
    ensures [LBrace] + (body + ([RBrace] + tail)) == [LBrace] + body + [RBrace] + tail
  {
  }

  /**
   Keyed mode, for every stream whatsoever: the rows and the error that come out are those of
   the place where the stream goes wrong, and there always is such a place unless the
   response is complete.
   */
  lemma {:induction false} KeyedOutcome(c: Config, m: Meta, ks: Kinds, end: Error, rows: seq<Item>, err: Error)
    requires IsKeyed(c, m)
    ensures var run := Drain(c, Start(ks, end, m));
            (run.rows == rows && run.err == err) <==>
            exists place, tail :: GoesWrong(c, m, ks, end, place, tail) &&
                                  RowsBefore(place) == rows && ErrorAt(c, m, end, place, tail) == Some(err)
  {
    hide Drain, GoesWrong, RowsBefore, ErrorAt;
    var place, tail := EveryStream(c, m, ks, end);
    WrongHere(c, m, ks, end, place, tail);
    if place', tail' :| GoesWrong(c, m, ks, end, place', tail') && RowsBefore(place') == rows &&
                        ErrorAt(c, m, end, place', tail') == Some(err) {
      WrongHere(c, m, ks, end, place', tail');
    }
  }

  // ------------------------------------------------------------------------ object mode

  /** What a raw EOF, or no more to read, comes to in object mode. */
  function AtEnd(e: Error): Error {
    if e == EOF then Gateway(Gateway(EOF)) else e
  }

  /** The next member, or the end of the object. */
  function PairFault(lead: bool, ks: Kinds, end: Error): Option<Error> {
    if ks == [] then Some(Gateway(Gateway(end)))
    else if ks[0] == RBrace then None
    else if ks[0] == RBracket then Some(Gateway(Gateway(SyntaxError)))
    else
      match KeyFault(lead, ks, end)
      case Some(e) => Some(AtEnd(e))
      case None =>
        match ColonFault(ks[|Sep(lead)| + 1..], end)
        case Some(e) => Some(AtEnd(e))
        case None => None
  }

  lemma {:induction false} PairEnds(c: Config, s: It)
    requires InMembers(s) && IsObject(c) && !More(s.dec) && PairFault(Lead(s.dec), s.dec.rest, s.dec.end).Some?
    ensures var run := Drain(c, s);
            run.rows == [] && run.err == PairFault(Lead(s.dec), s.dec.rest, s.dec.end).value
  {
    hide TokenStep, DecodeStep, ColonFault, KeyFault, ExpectDelim;
    NotClosed(s.dec);
  }

  lemma {:induction false} PairKeyFails(c: Config, s: It)
    requires InMembers(s) && IsObject(c) && More(s.dec) && KeyFault(Lead(s.dec), s.dec.rest, s.dec.end).Some?
    ensures var run := Drain(c, s);
            run.rows == [] && run.err == AtEnd(KeyFault(Lead(s.dec), s.dec.rest, s.dec.end).value)
  {
    hide TokenStep, DecodeStep, ColonFault, KeyFault, ExpectDelim;
    var d := s.dec;
    KeyTokens(d);
    if TokenStep(d).res == Err(EOF) {
      TokenEofIsEnd(d);
      NoDelimAtEnd(TokenStep(d).dec, '}');
      TokenEnd(d);
    }
  }

  lemma {:induction false} PairValueFails(c: Config, s: It, key: string, d1: Dec)
    requires InMembers(s) && IsObject(c) && More(s.dec)
    requires TokenStep(s.dec) == Step(Ok(Text(key)), d1) && AtColon(d1) && ColonFault(d1.rest, d1.end).Some?
    ensures var run := Drain(c, s); run.rows == [] && run.err == AtEnd(ColonFault(d1.rest, d1.end).value)
  {
    hide TokenStep, DecodeStep, ColonFault, ExpectDelim;
    ColonDecodes(d1);
    if DecodeStep(d1).res == Err(EOF) {
      DecodeEofIsEnd(d1);
      NoDelimAtEnd(DecodeStep(d1).dec, '}');
      DecodeEnd(d1);
    }
  }

  lemma {:induction false} PairFails(c: Config, s: It)
    requires InMembers(s) && IsObject(c) && PairFault(Lead(s.dec), s.dec.rest, s.dec.end).Some?
    ensures var run := Drain(c, s);
            run.rows == [] && run.err == PairFault(Lead(s.dec), s.dec.rest, s.dec.end).value
  {
    hide Drain, TokenStep, ColonFault, KeyFault;
    var d := s.dec;
    if !More(d) {
      PairEnds(c, s);
    } else if KeyFault(Lead(d), d.rest, d.end).Some? {
      PairKeyFails(c, s);
    } else {
      var key, rest := KeyAt(Lead(d), d.rest, d.end);
      KeyReads(d, key, rest) by {
        assert d.rest == Sep(Lead(d)) + [Str(key)] + rest;
      }
      assert d.rest[|Sep(Lead(d))| + 1..] == rest;
      PairValueFails(c, s, key, At(d, rest, ObjectColon));
    }
  }

  lemma {:induction false} TokenEnd(d: Dec)
    requires TokenStep(d).res == Err(EOF) && AtMember(d) && TokenStep(d).dec.rest == []
    ensures TokenStep(d).dec.end == EOF
    decreases |d.rest|
  {
    hide DecodeStep;
    if d.rest != [] && d.rest[0] == Comma && Lead(d) {
      assert TokenStep(d) == TokenStep(Skip(d, ObjectKey));
    }
  }

  lemma {:induction false} DecodeEnd(d: Dec)
    requires d.failed.None? && DecodeStep(d).res == Err(EOF)
    ensures DecodeStep(d).dec.end == EOF
  {
    hide ScanValue;
  }

  lemma {:induction false} NotClosed(d: Dec)
    requires AtMember(d) && (d.rest == [] || d.rest[0] == RBracket)
    ensures ExpectDelim(d, '}').err == Some(Gateway(if d.rest == [] then d.end else SyntaxError))
  {
  }

  lemma {:induction false} PairsThenFault(c: Config, s: It, members: seq<Member>, tail: Kinds)
    requires InMembers(s) && IsObject(c) && s.dec.rest == FlattenMembers(Lead(s.dec), members) + tail
    requires PairFault(Lead(s.dec) || members != [], tail, s.dec.end).Some?
    ensures var run := Drain(c, s);
            run.rows == Named(members) &&
            run.err == PairFault(Lead(s.dec) || members != [], tail, s.dec.end).value
    decreases |members|
  {
    hide Next, Drain, PairFault, Flatten, FlattenMembers;
    NoneYet(Lead(s.dec), tail);
    if members == [] {
      PairFails(c, s);
    } else {
      var x, more := members[0], FlattenMembers(true, members[1..]) + tail;
      assert members == [x] + members[1..];
      MembersCons(Lead(s.dec), x, members[1..], tail);
      MemberReads(c, s, x, more);
      DrainUnfold(c, s);
      PairsThenFault(c, MembersState(s, more), members[1..], tail);
      assert Named(members) == [Item(x.key, x.value)] + Named(members[1..]);
    }
  }

  lemma {:induction false} PairsSplit(lead: bool, ks: Kinds, end: Error) returns (members: seq<Member>, tail: Kinds)
    ensures ks == FlattenMembers(lead, members) + tail
    ensures PairFault(lead || members != [], tail, end).Some? || (tail != [] && tail[0] == RBrace)
    decreases |ks|
  {
    hide KeyFault, ColonFault, FlattenMembers, Flatten;
    NoneYet(lead, ks);
    members, tail := [], ks;
    if PairFault(lead, ks, end).None? && ks[0] != RBrace {
      var name, rest := KeyAt(lead, ks, end);
      assert ks[|Sep(lead)| + 1..] == rest;
      var v, more := ColonAt(rest, end);
      members, tail := PairsSplit(true, more, end);
      OneMore(lead, Member(name, v), members, tail);
      members := [Member(name, v)] + members;
    }
  }

  lemma {:induction false} ColonAt(ks: Kinds, end: Error) returns (v: Value, rest: Kinds)
    requires ColonFault(ks, end).None?
    ensures ks == [Colon] + (Flatten(v) + rest) && |rest| < |ks|
  {
    hide ValueFault, Flatten;
    rest := ValueAt(ks[1..], end);
    v := ScanValue(ks[1..]).value;
    assert ks == [Colon] + ks[1..];
  }

  /** A complete object, or its members up to the first fault. */
  predicate ObjectStream(c: Config, ks: Kinds, end: Error, members: seq<Member>, tail: Kinds, err: Error) {
    ks == [LBrace] + (FlattenMembers(false, members) + tail) &&
    (PairFault(members != [], tail, end) == Some(err) ||
     (tail != [] && tail[0] == RBrace && err == if c.closeErr.Some? then c.closeErr.value else EOF))
  }

  lemma {:induction false} ObjectDrains(
      c: Config, ks: Kinds, end: Error, members: seq<Member>, tail: Kinds, err: Error)
    requires IsObject(c) && ObjectStream(c, ks, end, members, tail, err)
    ensures var run := Drain(c, Start(ks, end, NoMeta)); run.rows == Named(members) && run.err == err
  {
    hide Drain, PairFault, FlattenMembers, Flatten, Named;
    if PairFault(members != [], tail, end) == Some(err) {
      ObjectBroken(c, end, members, tail);
    } else {
      assert tail == [RBrace] + tail[1..];
      FlattenOf(members, tail[1..]);
      ObjectReads(c, end, members, tail[1..]);
    }
  }

  lemma {:induction false} ObjectBroken(c: Config, end: Error, members: seq<Member>, tail: Kinds)
    requires IsObject(c) && PairFault(members != [], tail, end).Some?
    ensures var run := Drain(c, Start([LBrace] + (FlattenMembers(false, members) + tail), end, NoMeta));
            run.rows == Named(members) && run.err == PairFault(members != [], tail, end).value
  {
    hide Drain, ExpectDelim, PairFault, FlattenMembers, Named;
    var rest := FlattenMembers(false, members) + tail;
    var ks := [LBrace] + rest;
    assert ks[1..] == rest;
    OpenBrace(ks, end);
    DrainBegun(c, Start(ks, end, NoMeta));
    PairsThenFault(c, It(Inside(rest, end, ObjectStart), true, false, NoMeta), members, tail);
  }

  lemma {:induction false} FlattenOf(members: seq<Member>, tail: Kinds)
    ensures Flatten(JObj(members)) + tail == [LBrace] + (FlattenMembers(false, members) + ([RBrace] + tail))
  {
    hide FlattenMembers;
  }

  lemma {:induction false} ObjectSplit(c: Config, ks: Kinds, end: Error)
    returns (members: seq<Member>, tail: Kinds, err: Error)
    requires ks != [] && ks[0] == LBrace
    ensures ObjectStream(c, ks, end, members, tail, err)
  {
    hide PairFault, FlattenMembers;
    assert ks == [LBrace] + ks[1..];
    members, tail := PairsSplit(false, ks[1..], end);
    err := if PairFault(members != [], tail, end).Some? then PairFault(members != [], tail, end).value
           else if c.closeErr.Some? then c.closeErr.value else EOF;
  }

  /** Object mode, for every stream whatsoever. */
  lemma {:induction false} ObjectOutcome(c: Config, ks: Kinds, end: Error, rows: seq<Item>, err: Error)
    requires IsObject(c)
    ensures var run := Drain(c, Start(ks, end, NoMeta));
            (run.rows == rows && run.err == err) <==>
            if ks == [] || ks[0] != LBrace then rows == [] && Some(err) == Wrapped(OpenFault(ks, '{', end))
            else exists members, tail :: ObjectStream(c, ks, end, members, tail, err) && Named(members) == rows
  {
    hide Drain, OpenFault, ObjectStream, Named;
    if ks == [] || ks[0] != LBrace {
      NoObject(c, ks, end, NoMeta);
    } else {
      var members, tail, e := ObjectSplit(c, ks, end);
      ObjectDrains(c, ks, end, members, tail, e);
      if members', tail' :| ObjectStream(c, ks, end, members', tail', err) && Named(members') == rows {
        ObjectDrains(c, ks, end, members', tail', err);
      }
    }
  }

  // -------------------------------------------------------------------- continuous mode

  /** The next change, or the end of the feed. */
  function FeedFault(ks: Kinds, end: Error): Option<Error> {
    if ks == [] then (if end == EOF then None else Some(Gateway(end)))
    else match ValueFault(ks, end) case Some(e) => Some(Gateway(e)) case None => None
  }

  predicate FeedStream(c: Config, ks: Kinds, end: Error, items: seq<Value>, tail: Kinds, err: Error) {
    ks == FlattenAll(items) + tail &&
    (FeedFault(tail, end) == Some(err) ||
     (tail == [] && end == EOF && err == if c.closeErr.Some? then c.closeErr.value else EOF))
  }

  lemma {:induction false} FeedFails(c: Config, ks: Kinds, end: Error, m: Meta)
    requires IsContinuous(c) && c.parser == ChangesParser && FeedFault(ks, end).Some?
    ensures var run := Drain(c, Feed(ks, end, m)); run.rows == [] && run.err == FeedFault(ks, end).value
  {
    hide ScanItems, ScanMembers;
    if ks != [] && !More(NewDec(ks, end)) {
      assert TokenStep(NewDec(ks, end)).res == Err(SyntaxError);
    }
  }

  lemma {:induction false} FeedDrains(
      c: Config, ks: Kinds, end: Error, m: Meta, items: seq<Value>, tail: Kinds, err: Error)
    requires IsContinuous(c) && c.parser == ChangesParser && FeedStream(c, ks, end, items, tail, err)
    ensures var run := Drain(c, Feed(ks, end, m)); run.rows == Plain(items) && run.err == err
    decreases |items|
  {
    hide Next, Drain, FeedFault, Flatten;
    if items == [] {
      assert ks == tail;
      if FeedFault(tail, end) == Some(err) {
        FeedFails(c, ks, end, m);
      } else {
        FeedStop(c, [], EOF, m);
        DrainUnfold(c, Feed([], EOF, m));
      }
    } else {
      var rest := FlattenAll(items[1..]) + tail;
      assert ks == Flatten(items[0]) + rest;
      FeedReads(c, items[0], rest, end, m);
      DrainUnfold(c, Feed(ks, end, m));
      FeedDrains(c, rest, end, m, items[1..], tail, err);
      assert Plain(items) == [Item("", items[0])] + Plain(items[1..]);
    }
  }

  lemma {:induction false} FlattenAllCons(v: Value, items: seq<Value>, tail: Kinds)
    ensures Flatten(v) + (FlattenAll(items) + tail) == FlattenAll([v] + items) + tail
  {
    hide Flatten;
    assert ([v] + items)[1..] == items;
  }

  lemma {:induction false} FeedSplit(c: Config, ks: Kinds, end: Error)
    returns (items: seq<Value>, tail: Kinds, err: Error)
    ensures FeedStream(c, ks, end, items, tail, err)
    decreases |ks|
  {
    hide Flatten, ValueFault, ScanValue;
    items, tail := [], ks;
    assert FlattenAll([]) + ks == ks;
    if FeedFault(ks, end).Some? {
      err := FeedFault(ks, end).value;
    } else if ks == [] {
      err := if c.closeErr.Some? then c.closeErr.value else EOF;
    } else {
      var more := ValueAt(ks, end);
      var v := ScanValue(ks).value;
      items, tail, err := FeedSplit(c, more, end);
      FlattenAllCons(v, items, tail);
      items := [v] + items;
    }
  }

  /** A feed, for every stream whatsoever: all changes up to the first fault, which is a gateway error. */
  lemma {:induction false} FeedOutcome(c: Config, ks: Kinds, end: Error, m: Meta, rows: seq<Item>, err: Error)
    requires IsContinuous(c) && c.parser == ChangesParser
    ensures var run := Drain(c, Start(ks, end, m));
            (run.rows == rows && run.err == err) <==>
            exists items, tail :: FeedStream(c, ks, end, items, tail, err) && Plain(items) == rows
  {
    hide Drain, FeedStream, Plain;
    DrainBegun(c, Start(ks, end, m));
    var items, tail, e := FeedSplit(c, ks, end);
    FeedDrains(c, ks, end, m, items, tail, e);
    if items', tail' :| FeedStream(c, ks, end, items', tail', err) && Plain(items') == rows {
      FeedDrains(c, ks, end, m, items', tail', err);
    }
  }
}
