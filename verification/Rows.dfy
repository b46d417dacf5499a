/** The iterators that the driver hands out, over response text (rows.go, changes.go, db.go). */
module Rows {
  import opened Errors
  import opened Json
  import opened Lexer
  import opened Decoding
  import opened Metadata
  import opened IterSpec
  import opened Envelope
  import opened IterTheorems
  import opened Sequences
  import opened Stream
  import opened Iter

  method NewRows(body: Reader) returns (it: Iter)
    ensures fresh(it) && it.Valid() && it.body == body && it.dec == null && it.sequence == ""
    ensures it.Cfg() == Config("rows", false, ItemParser, body.Report())
    ensures it.View() == Start(KindsAt(body.unread, body.end), body.end, RowsMeta(0, 0, None, "", ""))
  {
    it := new Iter(EMPTY_ROWS_META, "rows", false, body, ItemParser);
  }

  method NewFindRows(body: Reader) returns (it: Iter)
    ensures fresh(it) && it.Valid() && it.body == body && it.dec == null && it.sequence == ""
    ensures it.Cfg() == Config("docs", false, ItemParser, body.Report())
    ensures it.View() == Start(KindsAt(body.unread, body.end), body.end, RowsMeta(0, 0, None, "", ""))
  {
    it := new Iter(EMPTY_ROWS_META, "docs", false, body, ItemParser);
  }

  method NewBulkGetRows(body: Reader) returns (it: Iter)
    ensures fresh(it) && it.Valid() && it.body == body && it.dec == null && it.sequence == ""
    ensures it.Cfg() == Config("results", false, ItemParser, body.Report())
    ensures it.View() == Start(KindsAt(body.unread, body.end), body.end, RowsMeta(0, 0, None, "", ""))
  {
    it := new Iter(EMPTY_ROWS_META, "results", false, body, ItemParser);
  }

  /** Keyed for `results`, continuous and without metadata for an empty key. */
  method NewChangesRows(key: string, body: Reader) returns (it: Iter)
    ensures fresh(it) && it.Valid() && it.body == body && it.dec == null && it.sequence == ""
    ensures it.Cfg() == Config(key, false, ChangesParser, body.Report())
    ensures var meta := if key != "" then ChangesMeta(None, 0) else NoMeta;
            it.View() == Start(KindsAt(body.unread, body.end), body.end, meta)
  {
    it := new Iter(if key != "" then EMPTY_CHANGES_META else NoMeta, key, false, body, ChangesParser);
  }

  method NewRevsDiffRows(body: Reader) returns (it: Iter)
    ensures fresh(it) && it.Valid() && it.body == body && it.dec == null && it.sequence == ""
    ensures it.Cfg() == Config("", true, RevsDiffParser, body.Report())
    ensures it.View() == Start(KindsAt(body.unread, body.end), body.end, NoMeta)
  {
    it := new Iter(NoMeta, "", true, body, RevsDiffParser);
  }

  /** The text of a response with metadata around the array called `key`. */
  ghost predicate IsResponse(text: string, key: string, r: Response) {
    KindsOf(text) == Flatten(JObj(r.pre + [Member(key, JArr(r.items))] + r.post))
  }

  lemma {:induction false} ResponseDrains(c: Config, text: string, end: Error, m: Meta, r: Response)
    requires IsKeyed(c, m) && Acceptable(c.expectedKey, m, r)
    requires IsResponse(text, c.expectedKey, r)
    ensures var run := Drain(c, Start(KindsOf(text), end, m));
            run.rows == Plain(r.items) && run.err == EndOr(c.closeErr) && run.it.closed &&
            run.it.meta == Final(m, r.pre + r.post)
  {
    hide Drain, KindsOf, KindsAt, Flatten, Body, Final, Acceptable;
    ResponseIsObject(c.expectedKey, r);
    assert [LBrace] + Body(c.expectedKey, r) + [RBrace] + [] == [LBrace] + Body(c.expectedKey, r) + [RBrace];
    KeyedReads(c, end, m, r, []);
  }

  /** The text of an object is complete whatever the reader reports behind it. */
  lemma {:induction false} ObjectKinds(t: string, end: Error, members: seq<Member>)
    requires KindsOf(t) == Flatten(JObj(members))
    ensures KindsAt(t, end) == KindsOf(t)
  {
    hide KindsOf, KindsAt, FlattenMembers;
    KindsAtDelim(t, end);
  }

  /** What the call behind the last row answers. */
  function EndOr(report: Option<Error>): Error {
    if report.Some? then report.value else EOF
  }

  /** Reading a view, find or bulk-get response through the iterator object, from its text. */
  method ReadKeyedRows(it: Iter, ghost r: Response) returns (rows: seq<Item>, err: Error)
    requires it.Valid() && it.body != null && it.dec == null && !it.closed
    requires IsKeyed(it.Cfg(), it.meta) && Acceptable(it.expectedKey, it.meta, r)
    requires IsResponse(it.body.unread, it.expectedKey, r)
    requires SequenceOf(it.meta).None? && it.sequence == ""
    modifies it, it.body
    ensures it.body == old(it.body) && rows == Plain(r.items) && err == EndOr(it.body.Report()) && it.closed
    ensures it.body.end == EOF && it.body.closeErr.None? ==> err == EOF
    ensures it.meta == Final(old(it.meta), r.pre + r.post)
    ensures match SequenceOf(it.meta)
            case None => it.sequence == ""
            case Some(v) => Written(old(it.body.unread), v, it.sequence)
  {
    hide Drain, KindsOf, KindsAt, Flatten, Final, Acceptable, Written;
    ObjectKinds(it.body.unread, it.body.end, r.pre + [Member(it.expectedKey, JArr(r.items))] + r.post);
    rows, err := ReadRows(it);
    ResponseDrains(it.Cfg(), old(it.body.unread), it.body.end, old(it.meta), r);
  }

  /** A continuous feed of complete changes. */
  method ReadFeed(body: Reader, ghost changes: seq<Value>) returns (rows: seq<Item>, err: Error)
    requires KindsOf(body.unread) == FlattenAll(changes) && body.end == EOF && body.closeErr.None?
    modifies body
    ensures rows == Plain(changes) && err == EOF
  {
    hide Drain, KindsOf, KindsAt, FlattenAll;
    var it := NewChangesRows("", body);
    KindsAtEof(body.unread);
    rows, err := ReadRows(it);
    ContinuousExact(it.Cfg(), old(KindsOf(body.unread)), EOF, NoMeta, Plain(changes));
  }

  /** A _revs_diff response. */
  method ReadRevsDiff(body: Reader, ghost diffs: seq<Member>) returns (rows: seq<Item>, err: Error)
    requires KindsOf(body.unread) == Flatten(JObj(diffs))
    modifies body
    ensures rows == Named(diffs) && err == EndOr(body.Report())
  {
    hide Drain, KindsOf, KindsAt, Flatten;
    var it := NewRevsDiffRows(body);
    ObjectKinds(body.unread, body.end, diffs);
    assert KindsOf(body.unread) == Flatten(JObj(diffs)) + [];
    rows, err := ReadRows(it);
    ObjectReads(it.Cfg(), body.end, diffs, []);
  }
}
