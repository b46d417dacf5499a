/**
 The keyed envelope, piece by piece: the members before the row array, the rows, and
 the members after them. Each piece is read back exactly as it was written, and whatever
 the iterator accepts was written that way.
 */
module Envelope {
  import opened Errors
  import opened Json
  import opened Decoding
  import opened Metadata
  import opened IterSpec
  import opened Members

  predicate NoKey(members: seq<Member>, key: string) {
    forall x :: x in members ==> x.key != key
  }

  // ------------------------------------------------------------ before the rows

  /** The lexemes from the first member up to the bracket that opens the row array. */
  function Head(lead: bool, pre: seq<Member>, key: string): Kinds {
    FlattenMembers(lead, pre) + Sep(lead || pre != []) + [Str(key), Colon, LBracket]
  }

  lemma {:induction false} HeadCons(lead: bool, x: Member, pre: seq<Member>, key: string, tail: Kinds)
    ensures Head(lead, [x] + pre, key) + tail ==
            Sep(lead) + [Str(x.key)] + ([Colon] + Flatten(x.value) + (Head(true, pre, key) + tail))
  {
    hide Flatten, FlattenMembers;
    FlattenMembersCons(lead, x, pre);
  }

  lemma {:induction false} HeadNil(lead: bool, key: string, tail: Kinds)
    ensures Head(lead, [], key) + tail == Sep(lead) + [Str(key)] + ([Colon, LBracket] + tail)
  {
  }

  lemma {:induction false} BeginReads(key: string, d: Dec, m: Meta, pre: seq<Member>, tail: Kinds)
    requires AtMember(d) && !m.NoMeta? && NoKey(pre, key)
    requires d.rest == Head(Lead(d), pre, key) + tail
    requires StoreAll(m, pre).Ok?
    ensures BeginLoop(key, d, m) == MetaStep(None, Opened(d, tail, ArrayStart), StoreAll(m, pre).value)
    decreases |pre|
  {
    hide TokenStep, Store, ExpectDelim, ParseMeta, Head, StoreAll;
    if pre == [] {
      HeadNil(Lead(d), key, tail);
      KeyReads(d, key, [Colon, LBracket] + tail);
      ArrayOpenReads(At(d, [Colon, LBracket] + tail, ObjectColon), tail);
      StoreAllNil(m);
    } else {
      var x := pre[0];
      assert pre == [x] + pre[1..];
      var more := Head(true, pre[1..], key) + tail;
      HeadCons(Lead(d), x, pre[1..], key, tail);
      KeyReads(d, x.key, [Colon] + Flatten(x.value) + more);
      StoreAllCons(m, pre);
      MetaReads(At(d, [Colon] + Flatten(x.value) + more, ObjectColon), m, x, more);
      BeginReads(key, At(d, more, ObjectComma), Store(m, x.key, x.value).value, pre[1..], tail);
    }
  }

  lemma {:induction false} StoreAllNil(m: Meta)
    ensures StoreAll(m, []) == Ok(m)
  {
  }

  lemma {:induction false} StoreAllCons(m: Meta, members: seq<Member>)
    requires members != [] && StoreAll(m, members).Ok?
    ensures Store(m, members[0].key, members[0].value).Ok?
    ensures var m' := Store(m, members[0].key, members[0].value).value;
            !m.NoMeta? ==> !m'.NoMeta?
    ensures StoreAll(Store(m, members[0].key, members[0].value).value, members[1..]) == StoreAll(m, members)
  {
    hide Store;
    StoreFits(m, members[0]);
  }

  lemma {:induction false} BeginSound(key: string, d: Dec, m: Meta) returns (pre: seq<Member>, tail: Kinds)
    requires AtMember(d) && !m.NoMeta?
    requires BeginLoop(key, d, m).err.None?
    ensures NoKey(pre, key) && d.rest == Head(Lead(d), pre, key) + tail
    ensures StoreAll(m, pre).Ok?
    ensures BeginLoop(key, d, m) == MetaStep(None, Opened(d, tail, ArrayStart), StoreAll(m, pre).value)
    decreases |d.rest|
  {
    hide Store, ExpectDelim, ParseMeta, Head, StoreAll;
    KeySound(d);
    hide TokenStep, NextKey;
    var k := NextKey(d);
    if k.res.value == key {
      ArrayOpenSound(k.dec);
      pre, tail := [], ExpectDelim(k.dec, '[').dec.rest;
      HeadNil(Lead(d), key, tail);
      StoreAllNil(m);
    } else {
      var p := ParseMeta(k.dec, m, k.res.value);
      var v := MetaSound(k.dec, m, k.res.value);
      var x := Member(k.res.value, v);
      pre, tail := BeginSound(key, p.dec, p.meta);
      HeadCons(Lead(d), x, pre, key, tail);
      StoreAllPrepend(m, x, pre);
      pre := [x] + pre;
    }
  }

  lemma {:induction false} StoreAllPrepend(m: Meta, x: Member, members: seq<Member>)
    requires Store(m, x.key, x.value).Ok?
    ensures StoreAll(m, [x] + members) == StoreAll(Store(m, x.key, x.value).value, members)
  {
    hide Store;
    assert ([x] + members)[1..] == members;
  }

  lemma {:induction false} KeySound(d: Dec)
    requires AtMember(d) && NextKey(d).res.Ok?
    ensures var k := NextKey(d);
            d.rest == Sep(Lead(d)) + [Str(k.res.value)] + k.dec.rest &&
            k.dec == At(d, k.dec.rest, ObjectColon)
  {
    if !More(d) {
      assert false;
    }
    TokenSound(d);
  }

  // --------------------------------------------------------------------- the rows

  function Plain(items: seq<Value>): (r: seq<Item>)
    ensures |r| == |items|
  {
    seq(|items|, i requires 0 <= i < |items| => Item("", items[i]))
  }

  predicate InRows(s: It) {
    AtItem(s.dec) && s.begun && !s.closed
  }

  function RowsState(s: It, rest: Kinds, lead: bool): It {
    s.(dec := At(s.dec, rest, if lead then ArrayComma else ArrayStart))
  }

  lemma {:induction false} RowReads(c: Config, s: It, v: Value, rest: Kinds)
    requires InRows(s) && c.parser != RevsDiffParser
    requires s.dec.rest == Sep(Lead(s.dec)) + Flatten(v) + rest
    ensures Next(c, s) == NextStep(Row(Item("", v)), RowsState(s, rest, true))
  {
    hide DecodeStep, Ending;
    ItemReads(s.dec, v, rest);
  }

  /** Draining delivers the items of the array in order and then ends as `finish` ends. */
  lemma {:induction false} RowsRead(c: Config, s: It, items: seq<Value>, tail: Kinds)
    requires InRows(s) && c.parser != RevsDiffParser
    requires s.dec.rest == FlattenItems(Lead(s.dec), items) + ([RBracket] + tail)
    ensures var d := RowsState(s, [RBracket] + tail, Lead(s.dec) || items != []).dec;
            var n := Ending(c, d, s.meta);
            Drain(c, s) == Run(Plain(items), n.out.err, n.it)
    decreases |items|
  {
    hide Next, Ending, At, AtItem;
    if items == [] {
      assert s.dec.rest == [RBracket] + tail;
      RowsEnd(c, s);
      assert s == RowsState(s, [RBracket] + tail, Lead(s.dec)) by { RowsStateSelf(s); }
    } else {
      var v, more := items[0], FlattenItems(true, items[1..]) + ([RBracket] + tail);
      Regroup(Sep(Lead(s.dec)), Flatten(v), FlattenItems(true, items[1..]), [RBracket] + tail);
      assert s.dec.rest == Sep(Lead(s.dec)) + Flatten(v) + more;
      RowReads(c, s, v, more);
      RowsStateFacts(s, more, [RBracket] + tail);
      RowsRead(c, RowsState(s, more, true), items[1..], tail);
      assert Plain(items) == [Item("", v)] + Plain(items[1..]);
    }
  }

  lemma {:induction false} RowsStateSelf(s: It)
    requires AtItem(s.dec)
    ensures s == RowsState(s, s.dec.rest, Lead(s.dec))
  {
  }

  lemma {:induction false} RowsStateFacts(s: It, a: Kinds, b: Kinds)
    requires InRows(s)
    ensures InRows(RowsState(s, a, true)) && Lead(RowsState(s, a, true).dec)
    ensures RowsState(s, a, true).dec.rest == a && RowsState(s, a, true).meta == s.meta
    ensures RowsState(RowsState(s, a, true), b, true) == RowsState(s, b, true)
  {
  }

  lemma {:induction false} RowsEnd(c: Config, s: It)
    requires s.begun && !s.closed && !More(s.dec)
    ensures var n := Ending(c, s.dec, s.meta); Drain(c, s) == Run([], n.out.err, n.it)
  {
    hide DecodeItem, Ending;
    assert Next(c, s) == RowStep(c, s.dec, s.meta);
  }

  /** A raw EOF from Decode means that nothing at all is left. */
  lemma {:induction false} DecodeEofIsEnd(d: Dec)
    requires d.failed.None? && DecodeStep(d).res == Err(EOF)
    ensures DecodeStep(d).dec.rest == []
  {
  }

  lemma {:induction false} NoDelimAtEnd(d: Dec, c: char)
    requires d.rest == []
    ensures ExpectDelim(d, c) == Try(Some(Gateway(d.end)), d)
  {
  }

  /** EOF inside a row array is only reported where the closing bracket stands. */
  lemma {:induction false} StopSound(c: Config, s: It) returns (tail: Kinds)
    requires InRows(s) && Keyed(c) && c.parser != RevsDiffParser
    requires Next(c, s).out == Stop(EOF)
    ensures s.dec.rest == [RBracket] + tail
  {
    hide DecodeStep, FinishLoop, TokenStep;
    var r := NextRow(c.parser, s.dec);
    assert r.res == Err(EOF);
    if More(s.dec) {
      DecodeEofIsEnd(s.dec);
      NoDelimAtEnd(r.dec, ']');
    }
    var t := ExpectDelim(r.dec, ']');
    assert t.err.None?;
    CloseSound(s.dec);
    tail := t.dec.rest;
  }

  lemma {:induction false} RowSound(c: Config, s: It) returns (v: Value)
    requires InRows(s) && c.parser != RevsDiffParser && Next(c, s).out.Row?
    ensures var n := Next(c, s);
            n.out == Row(Item("", v)) && n.it == RowsState(s, n.it.dec.rest, true) &&
            s.dec.rest == Sep(Lead(s.dec)) + Flatten(v) + n.it.dec.rest
  {
    hide DecodeStep, Ending;
    ItemSound(s.dec);
    v := DecodeStep(s.dec).res.value;
  }

  lemma {:induction false} RowsSound(c: Config, s: It) returns (items: seq<Value>, tail: Kinds)
    requires InRows(s) && Keyed(c) && c.parser != RevsDiffParser
    requires Drain(c, s).err == EOF
    ensures s.dec.rest == FlattenItems(Lead(s.dec), items) + ([RBracket] + tail)
    decreases |s.dec.rest|
  {
    hide Next, At;
    var n := Next(c, s);
    if n.out.Stop? {
      tail := StopSound(c, s);
      items := [];
      assert s.dec.rest == [] + ([RBracket] + tail);
    } else {
      var v := RowSound(c, s);
      RowsStateFacts(s, n.it.dec.rest, []);
      items, tail := RowsSound(c, n.it);
      Regroup(Sep(Lead(s.dec)), Flatten(v), FlattenItems(true, items), [RBracket] + tail);
      FlattenItemsCons(Lead(s.dec), v, items);
      items := [v] + items;
    }
  }

  // -------------------------------------------------------------- after the rows

  lemma {:induction false} MembersCons(lead: bool, x: Member, post: seq<Member>, tail: Kinds)
    ensures FlattenMembers(lead, [x] + post) + tail ==
            Sep(lead) + [Str(x.key)] + ([Colon] + Flatten(x.value) + (FlattenMembers(true, post) + tail))
  {
    FlattenMembersCons(lead, x, post);
  }

  lemma {:induction false} FinishReads(d: Dec, m: Meta, post: seq<Member>, tail: Kinds)
    requires AtMember(d) && !m.NoMeta?
    requires d.rest == FlattenMembers(Lead(d), post) + ([RBrace] + tail)
    requires StoreAll(m, post).Ok?
    ensures FinishLoop(d, m) == MetaStep(None, Closed(d, tail), StoreAll(m, post).value)
    decreases |post|
  {
    hide TokenStep, Store, ExpectDelim, ParseMeta, StoreAll, Closed;
    if post == [] {
      assert d.rest == [RBrace] + tail;
      CloseReads(d, tail);
      StoreAllNil(m);
    } else {
      var x := post[0];
      assert post == [x] + post[1..];
      var more := FlattenMembers(true, post[1..]) + ([RBrace] + tail);
      MembersCons(Lead(d), x, post[1..], [RBrace] + tail);
      KeyReads(d, x.key, [Colon] + Flatten(x.value) + more);
      StoreAllCons(m, post);
      MetaReads(At(d, [Colon] + Flatten(x.value) + more, ObjectColon), m, x, more);
      FinishReads(At(d, more, ObjectComma), Store(m, x.key, x.value).value, post[1..], tail);
      ClosedAt(d, more, tail);
    }
  }

  lemma {:induction false} ClosedAt(d: Dec, a: Kinds, b: Kinds)
    requires AtMember(d)
    ensures Closed(At(d, a, ObjectComma), b) == Closed(d, b)
  {
  }

  /** The places between a comma and the value of a member where a stream may break off. */
  predicate CutOff(ks: Kinds) {
    (|ks| == 1 && ks[0] == Comma) ||
    (|ks| == 2 && ks[0] == Comma && ks[1].Str?) ||
    (|ks| == 3 && ks[0] == Comma && ks[1].Str? && ks[2] == Colon)
  }

  lemma {:induction false} CutKey(d: Dec)
    requires AtMember(d) && Lead(d) && d.end == EOF && d.rest == [Comma]
    ensures More(d) && TokenStep(d).res == Err(EOF) && TokenStep(d).dec.rest == []
  {
    assert TokenStep(d) == TokenStep(Skip(d, ObjectKey));
  }

  lemma {:induction false} CutValue(d: Dec)
    requires AtColon(d) && d.end == EOF && (d.rest == [] || d.rest == [Colon])
    ensures DecodeStep(d).res == Err(EOF) && DecodeStep(d).dec.rest == []
  {
  }

  lemma {:induction false} FinishCut(d: Dec, m: Meta, cut: Kinds)
    requires AtMember(d) && Lead(d) && !m.NoMeta? && d.end == EOF && CutOff(cut) && d.rest == cut
    ensures var f := FinishLoop(d, m); f.err == Some(EOF) && f.dec.rest == [] && f.meta == m
  {
    hide TokenStep, DecodeStep, Store, ExpectDelim;
    if |cut| == 1 {
      assert d.rest == [Comma];
      CutKey(d);
    } else {
      var key, left := cut[1].s, cut[2..];
      assert d.rest == Sep(true) + [Str(key)] + left;
      KeyReads(d, key, left);
      CutValue(At(d, left, ObjectColon));
    }
  }

  /** Broken off there, with nothing but EOF behind, `finish` answers EOF like a complete response. */
  lemma {:induction false} FinishCutShort(d: Dec, m: Meta, post: seq<Member>, cut: Kinds)
    requires AtMember(d) && Lead(d) && !m.NoMeta? && d.end == EOF
    requires CutOff(cut) && d.rest == FlattenMembers(true, post) + cut
    requires StoreAll(m, post).Ok?
    ensures var f := FinishLoop(d, m);
            f.err == Some(EOF) && f.dec.rest == [] && f.meta == StoreAll(m, post).value
    decreases |post|
  {
    hide TokenStep, DecodeStep, Store, ExpectDelim, StoreAll;
    if post == [] {
      assert d.rest == cut;
      StoreAllNil(m);
      FinishCut(d, m, cut);
    } else {
      hide ParseMeta, CutOff, Flatten, FlattenMembers;
      var x := post[0];
      assert post == [x] + post[1..];
      var more := FlattenMembers(true, post[1..]) + cut;
      MembersCons(true, x, post[1..], cut);
      KeyReads(d, x.key, [Colon] + Flatten(x.value) + more);
      StoreAllCons(m, post);
      MetaReads(At(d, [Colon] + Flatten(x.value) + more, ObjectColon), m, x, more);
      FinishCutShort(At(d, more, ObjectComma), Store(m, x.key, x.value).value, post[1..], cut);
    }
  }

  lemma {:induction false} KeyEof(d: Dec)
    requires AtMember(d) && Lead(d) && More(d) && TokenStep(d).res == Err(EOF)
    ensures d.end == EOF && d.rest == [Comma]
  {
    assert d.rest[0] == Comma;
    assert TokenStep(d) == TokenStep(Skip(d, ObjectKey));
    assert d.rest == [Comma] + d.rest[1..];
  }

  lemma {:induction false} ValueEof(d: Dec, m: Meta, key: string)
    requires AtColon(d) && !m.NoMeta? && ParseMeta(d, m, key).err == Some(EOF)
    ensures d.end == EOF && (d.rest == [] || d.rest == [Colon])
  {
    hide ScanValue, Store;
    StoreError(m);
    assert DecodeStep(d).res == Err(EOF);
    if d.rest != [] {
      assert d.rest == [Colon] + d.rest[1..];
    }
  }

  lemma {:induction false} StoreError(m: Meta)
    ensures forall key, v :: Store(m, key, v) != Err(EOF)
  {
    hide ParseInt64;
  }

  /**
   `finish` answers nothing but success or a raw EOF in two cases only: the members after
   the rows are complete up to the closing brace, or the stream was cut off between a
   comma and the value of a member.
   */
  lemma {:induction false} FinishSound(d: Dec, m: Meta) returns (post: seq<Member>, tail: Kinds)
    requires AtMember(d) && Lead(d) && !m.NoMeta?
    requires FinishLoop(d, m).err == None || FinishLoop(d, m).err == Some(EOF)
    ensures StoreAll(m, post).Ok?
    ensures FinishLoop(d, m).err == None ==> d.rest == FlattenMembers(true, post) + ([RBrace] + tail)
    ensures FinishLoop(d, m).err == Some(EOF) ==>
              d.end == EOF && CutOff(tail) && d.rest == FlattenMembers(true, post) + tail
    decreases |d.rest|
  {
    hide TokenStep, DecodeStep, Store, ExpectDelim, StoreAll, ParseMeta;
    StoreAllNil(m);
    post := [];
    if !More(d) {
      CloseSound(d);
      tail := ExpectDelim(d, '}').dec.rest;
      assert d.rest == [] + ([RBrace] + tail);
      return;
    }
    var s := TokenStep(d);
    if s.res.Err? {
      KeyEof(d);
      tail := d.rest;
      assert d.rest == [] + tail;
      return;
    }
    TokenSound(d);
    var name := s.res.value.s;
    var p := ParseMeta(s.dec, m, name);
    if p.err.Some? {
      ValueEof(s.dec, m, name);
      tail := d.rest;
      assert d.rest == [] + tail;
    } else {
      var v := MetaSound(s.dec, m, name);
      var x := Member(name, v);
      post, tail := FinishSound(p.dec, p.meta);
      MembersCons(true, x, post, [RBrace] + tail);
      MembersCons(true, x, post, tail);
      StoreAllPrepend(m, x, post);
      post := [x] + post;
    }
  }

  // ------------------------------------------- streams cut off before the rows

  /** Where a stream may break off before the row array without an error of its own. */
  predicate HeadCut(lead: bool, key: string, cut: Kinds) {
    var n := |Sep(lead)|;
    cut == [] ||
    (lead && cut == [Comma]) ||
    ((|cut| == n + 1 || |cut| == n + 2) && (lead ==> cut[0] == Comma) &&
     cut[n].Str? && cut[n].s != key && (|cut| == n + 2 ==> cut[n + 1] == Colon))
  }

  lemma {:induction false} NextKeyCut(d: Dec)
    requires AtMember(d) && d.end == EOF && (d.rest == [] || (Lead(d) && d.rest == [Comma]))
    ensures NextKey(d).res == Err(EOF) && NextKey(d).dec.rest == []
  {
    if d.rest != [] {
      assert TokenStep(d) == TokenStep(Skip(d, ObjectKey));
    }
  }

  lemma {:induction false} BeginCutHere(key: string, d: Dec, m: Meta)
    requires AtMember(d) && !m.NoMeta? && d.end == EOF && HeadCut(Lead(d), key, d.rest)
    ensures BeginLoop(key, d, m).err == Some(EOF) && BeginLoop(key, d, m).dec.rest == []
  {
    hide TokenStep, DecodeStep, Store, ExpectDelim;
    if d.rest == [] || (Lead(d) && d.rest == [Comma]) {
      NextKeyCut(d);
    } else {
      var n := |Sep(Lead(d))|;
      var left := d.rest[n + 1..];
      assert d.rest == Sep(Lead(d)) + [Str(d.rest[n].s)] + left;
      KeyReads(d, d.rest[n].s, left);
      CutValue(At(d, left, ObjectColon));
    }
  }

  lemma {:induction false} HeadCutEnd(lead: bool, key: string, cut: Kinds)
    requires cut == [] || (lead && cut == [Comma])
    ensures HeadCut(lead, key, cut)
  {
  }

  lemma {:induction false} HeadCutMember(lead: bool, key: string, name: string, left: Kinds)
    requires name != key && (left == [] || left == [Colon])
    ensures HeadCut(lead, key, Sep(lead) + [Str(name)] + left)
  {
  }

  /** The key loop of `begin` hands out the raw EOF of such a stream. */
  lemma {:induction false} BeginCut(key: string, d: Dec, m: Meta, pre: seq<Member>, cut: Kinds)
    requires AtMember(d) && !m.NoMeta? && NoKey(pre, key) && d.end == EOF
    requires d.rest == FlattenMembers(Lead(d), pre) + cut
    requires HeadCut(Lead(d) || pre != [], key, cut)
    requires StoreAll(m, pre).Ok?
    ensures BeginLoop(key, d, m).err == Some(EOF) && BeginLoop(key, d, m).dec.rest == []
    decreases |pre|
  {
    hide TokenStep, Store, ExpectDelim, StoreAll, ParseMeta, HeadCut;
    if pre == [] {
      assert d.rest == cut;
      BeginCutHere(key, d, m);
    } else {
      var x := pre[0];
      assert pre == [x] + pre[1..];
      var more := FlattenMembers(true, pre[1..]) + cut;
      MembersCons(Lead(d), x, pre[1..], cut);
      KeyReads(d, x.key, [Colon] + Flatten(x.value) + more);
      StoreAllCons(m, pre);
      MetaReads(At(d, [Colon] + Flatten(x.value) + more, ObjectColon), m, x, more);
      BeginCut(key, At(d, more, ObjectComma), Store(m, x.key, x.value).value, pre[1..], cut);
    }
  }

  lemma {:induction false} NextKeyEof(d: Dec)
    requires AtMember(d) && NextKey(d).res == Err(EOF)
    ensures d.end == EOF && (d.rest == [] || (Lead(d) && d.rest == [Comma]))
  {
    if d.rest != [] && d.rest[0] == Comma && Lead(d) {
      assert TokenStep(d) == TokenStep(Skip(d, ObjectKey));
      assert d.rest == [Comma] + d.rest[1..];
    }
  }

  lemma {:induction false} BeginEof(key: string, d: Dec, m: Meta) returns (pre: seq<Member>, cut: Kinds)
    requires AtMember(d) && !m.NoMeta? && BeginLoop(key, d, m).err == Some(EOF)
    ensures d.end == EOF && NoKey(pre, key) && StoreAll(m, pre).Ok?
    ensures d.rest == FlattenMembers(Lead(d), pre) + cut
    ensures HeadCut(Lead(d) || pre != [], key, cut)
    decreases |d.rest|
  {
    hide NextKey, Store, ExpectDelim, StoreAll, ParseMeta, HeadCut;
    StoreAllNil(m);
    pre, cut := [], d.rest;
    assert d.rest == [] + cut;
    var k := NextKey(d);
    if k.res.Err? {
      NextKeyEof(d);
      HeadCutEnd(Lead(d), key, cut);
      return;
    }
    KeySound(d);
    var p := ParseMeta(k.dec, m, k.res.value);
    if p.err.Some? {
      ValueEof(k.dec, m, k.res.value);
      HeadCutMember(Lead(d), key, k.res.value, k.dec.rest);
    } else {
      var v := MetaSound(k.dec, m, k.res.value);
      var x := Member(k.res.value, v);
      pre, cut := BeginEof(key, p.dec, p.meta);
      MembersCons(Lead(d), x, pre, cut);
      StoreAllPrepend(m, x, pre);
      pre := [x] + pre;
    }
  }
}
