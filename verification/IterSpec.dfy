/**
 The result iterator of iter.go as a state machine on values: what one call of `next`
 answers and leaves behind, in keyed, object and continuous mode.
 */
module IterSpec {
  import opened Errors
  import opened Json
  import opened Decoding
  import opened Metadata

  /** ItemParser stands for rowParser, findParser and bulkParser, which consume one value. */
  datatype Parser = ItemParser | ChangesParser | RevsDiffParser

  /** What a row carries: only _revs_diff rows have an id of their own. */
  datatype Item = Item(id: string, value: Value)

  /** `closeErr` is what closing the body reports; Close itself never reports EOF. */
  datatype Config = Config(expectedKey: string, objMode: bool, parser: Parser, closeErr: Option<Error>)

  datatype It = It(dec: Dec, begun: bool, closed: bool, meta: Meta)

  datatype Outcome = Row(item: Item) | Stop(err: Error)

  datatype Try = Try(err: Option<Error>, dec: Dec)

  function Start(ks: Kinds, end: Error, meta: Meta): It {
    It(NewDec(ks, end), false, false, meta)
  }

  predicate Continuous(c: Config) {
    c.expectedKey == "" && !c.objMode
  }

  predicate Keyed(c: Config) {
    c.expectedKey != "" && !c.objMode
  }

  function ExpectDelim(d: Dec, c: char): (t: Try)
    ensures t.err.None? ==> |t.dec.rest| < |d.rest|
    ensures |t.dec.rest| <= |d.rest| && t.dec.end == d.end
    ensures t.err != Some(EOF)
  {
    var s := TokenStep(d);
    match s.res
    case Err(e) => Try(Some(Gateway(e)), s.dec)
    case Ok(Delim(x)) => Try(if x == c then None else Some(UnexpectedDelim(x)), s.dec)
    case Ok(_) => Try(Some(Gateway(UnexpectedToken)), s.dec)
  }

  function NextKey(d: Dec): (s: Step<string>)
    ensures s.res.Ok? ==> |s.dec.rest| < |d.rest|
    ensures |s.dec.rest| <= |d.rest| && s.dec.end == d.end
  {
    var s := TokenStep(d);
    match s.res
    case Err(e) => Step(Err(e), s.dec)
    case Ok(Text(key)) => Step(Ok(key), s.dec)
    case Ok(_) => Step(Err(UnexpectedToken), s.dec)
  }

  /** The key loop of `begin`, up to the bracket that opens the row array. */
  function BeginLoop(key: string, d: Dec, m: Meta): (s: MetaStep)
    ensures |s.dec.rest| <= |d.rest| && s.dec.end == d.end
    decreases |d.rest|
  {
    var k := NextKey(d);
    match k.res
    case Err(e) => MetaStep(Some(e), k.dec, m)
    case Ok(name) =>
      if name == key then
        var t := ExpectDelim(k.dec, '[');
        MetaStep(t.err, t.dec, m)
      else
        var p := ParseMeta(k.dec, m, name);
        if p.err.Some? then p else BeginLoop(key, p.dec, p.meta)
  }

  function Begin(c: Config, d: Dec, m: Meta): (s: MetaStep)
    ensures |s.dec.rest| <= |d.rest| && s.dec.end == d.end
  {
    if Continuous(c) then MetaStep(None, d, m)
    else
      var t := ExpectDelim(d, '{');
      if t.err.Some? || c.objMode then MetaStep(t.err, t.dec, m)
      else BeginLoop(c.expectedKey, t.dec, m)
  }

  function DecodeItem(p: Parser, d: Dec): (s: Step<Item>)
    ensures s.res.Ok? ==> |s.dec.rest| < |d.rest|
    ensures |s.dec.rest| <= |d.rest| && s.dec.end == d.end
  {
    match p
    case ItemParser => (
      var s := DecodeStep(d);
      match s.res
      case Err(e) => Step(Err(e), s.dec)
      case Ok(v) => Step(Ok(Item("", v)), s.dec))
    case ChangesParser => (
      var s := DecodeStep(d);
      match s.res
      case Err(e) => Step(Err(Gateway(e)), s.dec)
      case Ok(v) => Step(Ok(Item("", v)), s.dec))
    case RevsDiffParser =>
      var t := TokenStep(d);
      match t.res
      case Err(e) => Step(Err(e), t.dec)
      case Ok(tok) =>
        var s := DecodeStep(t.dec);
        match s.res
        case Err(e) => Step(Err(e), s.dec)
        case Ok(v) =>
          // A token that is no string panics here; RevsDiffTokenIsText shows there is none.
          if tok.Text? then Step(Ok(Item(tok.s, v)), s.dec) else Step(Err(UnexpectedToken), s.dec)
  }

  function NextRow(p: Parser, d: Dec): (s: Step<Item>)
    ensures s.res.Ok? ==> |s.dec.rest| < |d.rest|
    ensures |s.dec.rest| <= |d.rest| && s.dec.end == d.end
  {
    if !More(d) then Step(Err(EOF), d) else DecodeItem(p, d)
  }

  /** The metadata loop of `finish`, up to the closing brace. */
  function FinishLoop(d: Dec, m: Meta): (s: MetaStep)
    ensures |s.dec.rest| <= |d.rest| && s.dec.end == d.end
    decreases |d.rest|
  {
    if !More(d) then
      var t := ExpectDelim(d, '}');
      MetaStep(t.err, t.dec, m)
    else
      var s := TokenStep(d);
      match s.res
      case Err(e) => MetaStep(Some(e), s.dec, m)
      case Ok(Delim(x)) =>
        if x == '}' then FinishLoop(s.dec, m) else MetaStep(Some(UnexpectedToken), s.dec, m)
      case Ok(Text(name)) =>
        var p := ParseMeta(s.dec, m, name);
        if p.err.Some? then p else FinishLoop(p.dec, p.meta)
      case Ok(Scalar(_)) => MetaStep(Some(UnexpectedToken), s.dec, m)
  }

  function Finish(c: Config, d: Dec, m: Meta): (s: MetaStep)
    ensures |s.dec.rest| <= |d.rest| && s.dec.end == d.end
  {
    if Continuous(c) then
      var s := TokenStep(d);
      MetaStep(if s.res.Err? && s.res.error != EOF then Some(Gateway(s.res.error)) else None, s.dec, m)
    else if c.objMode then
      var t := ExpectDelim(d, '}');
      MetaStep(match t.err case Some(e) => Some(Gateway(e)) case None => None, t.dec, m)
    else
      var t := ExpectDelim(d, ']');
      if t.err.Some? then MetaStep(t.err, t.dec, m) else FinishLoop(t.dec, m)
  }

  datatype NextStep = NextStep(out: Outcome, it: It)

  /** What ends the rows: `finish`, then Close, whose error counts only if `finish` had none. */
  function Ending(c: Config, d: Dec, m: Meta): (n: NextStep)
    ensures n.out.Stop? && n.it.closed && n.it.begun
    ensures |n.it.dec.rest| <= |d.rest|
  {
    var f := Finish(c, d, m);
    var err := if f.err.Some? then f.err else c.closeErr;
    NextStep(Stop(if err.Some? then err.value else EOF), It(f.dec, true, true, f.meta))
  }

  function RowStep(c: Config, d: Dec, m: Meta): (n: NextStep)
    ensures n.it.begun && |n.it.dec.rest| <= |d.rest|
    ensures n.out.Row? ==> |n.it.dec.rest| < |d.rest| && !n.it.closed
    ensures n.out == Stop(EOF) ==> n.it.closed
  {
    var s := NextRow(c.parser, d);
    match s.res
    case Ok(item) => NextStep(Row(item), It(s.dec, true, false, m))
    case Err(e) =>
      if e == EOF then Ending(c, s.dec, m) else NextStep(Stop(e), It(s.dec, true, false, m))
  }

  /** One call of `next`. A row costs at least one lexeme, and EOF leaves the iterator closed. */
  function Next(c: Config, s: It): (n: NextStep)
    ensures |n.it.dec.rest| <= |s.dec.rest|
    ensures n.out.Row? ==> |n.it.dec.rest| < |s.dec.rest| && !n.it.closed
    ensures n.out == Stop(EOF) ==> n.it.closed
  {
    if s.closed then NextStep(Stop(EOF), s)
    else if s.begun then RowStep(c, s.dec, s.meta)
    else
      var b := Begin(c, s.dec, s.meta);
      if b.err.Some? then NextStep(Stop(Gateway(b.err.value)), It(b.dec, true, false, b.meta))
      else RowStep(c, b.dec, b.meta)
  }

  /** A run to the first call that does not answer a row. */
  datatype Run = Run(rows: seq<Item>, err: Error, it: It)

  function Drain(c: Config, s: It): (r: Run)
    ensures |r.rows| + |r.it.dec.rest| <= |s.dec.rest|
    ensures r.err == EOF ==> r.it.closed
    decreases |s.dec.rest|
  {
    var n := Next(c, s);
    match n.out
    case Stop(e) => Run([], e, n.it)
    case Row(item) =>
      var r := Drain(c, n.it);
      Run([item] + r.rows, r.err, r.it)
  }

  lemma {:induction false} DrainUnfold(c: Config, s: It)
    ensures var n := Next(c, s);
            Drain(c, s) ==
            match n.out
            case Stop(e) => Run([], e, n.it)
            case Row(item) => var r := Drain(c, n.it); Run([item] + r.rows, r.err, r.it)
  {
    hide Next;
  }
}
