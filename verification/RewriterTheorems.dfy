/**
 The rewrite keeps the meaning of a document, except for its attachments, exactly when the
 keys it writes need no escaping (section 7 of RFC 8259).
 */
module RewriterTheorems {
  import opened Errors
  import opened Json
  import opened Lexer
  import opened Decoding
  import opened IterSpec
  import opened Members
  import opened Envelope
  import opened IterTheorems
  import opened Rewriter

  /** A key that stands for itself between quotes. */
  predicate PlainKey(key: string) {
    forall i :: 0 <= i < |key| ==> PlainChar(key[i])
  }

  predicate PlainChar(c: char) {
    c != '\"' && c != '\\' && c >= ' '
  }

  // --------------------------------------------------------- keys as they are written

  lemma {:induction false} PlainBody(key: string, u: string)
    requires PlainKey(key)
    ensures StrBody(key + "\"" + u) == Some(Decoded(key, |key| + 1))
  {
    var t := key + "\"" + u;
    if key != "" {
      var rest := key[1..] + "\"" + u;
      assert PlainChar(key[0]);
      assert t == [key[0]] + rest;
      assert forall i :: 0 <= i < |key[1..]| ==> key[1..][i] == key[i + 1];
      PlainBody(key[1..], u);
      assert t[1..] == rest;
      assert key == [key[0]] + key[1..];
    }
  }

  /** A plain key is read back as the key it was. */
  lemma {:induction false} PlainKeyReads(key: string, u: string)
    requires PlainKey(key)
    ensures KindsOf(KeyText(key) + u) == [Str(key), Colon] + KindsOf(u)
  {
    hide StrBody, KindsOf;
    var rest := ":" + u;
    var t := KeyText(key) + u;
    PlainBody(key, rest);
    assert t[1..] == key + "\"" + rest;
    assert t[|key| + 2..] == rest;
    assert LexHere(t) == Lexeme(Str(key), |key| + 2);
    LexFirst(t);
    KindsOfText(Colon, u);
  }

  lemma {:induction false} LexFirst(t: string)
    requires t != "" && !IsSpace(t[0])
    ensures KindsOf(t) == [LexHere(t).kind] + KindsOf(t[LexHere(t).len..])
  {
    hide LexHere;
    assert SpaceLen(t) == 0;
    assert t[0..] == t;
  }

  lemma {:induction false} QuoteEnds(t: string)
    requires t != "" && t[0] == '\"'
    ensures StrBody(t) == Some(Decoded("", 1))
  {
  }

  lemma {:induction false} BodyStep(t: string)
    requires t != "" && t[0] != '\"' && StrBody(t).Some?
    ensures PieceAt(t).Some?
    ensures var p := PieceAt(t).value;
            StrBody(t[p.len..]).Some? && StrBody(t).value.s == [p.c] + StrBody(t[p.len..]).value.s
  {
    hide PieceAt;
  }

  /**
   Behind a backslash the decoded key lags behind the source. Up to `a` the source holds no
   quote, so a quote can not be what the key asks for, and the string cannot catch up.
   */
  lemma {:induction false} LaggingBody(key: string, a: nat, b: nat, u: string)
    requires b < a <= |key| && forall i :: 0 <= i < a ==> key[i] != '\"'
    ensures var r := StrBody(key[a..] + "\"" + u);
            r.Some? ==> r.value.s != key[b..]
    decreases |key| - a
  {
    hide PieceAt, StrBody;
    var t := key[a..] + "\"" + u;
    var r := StrBody(t);
    if t[0] == '\"' {
      QuoteEnds(t);
    } else if r.Some? {
      BodyStep(t);
      var p := PieceAt(t).value;
      if p.c == key[b] {
        PieceInside(key, a, u);
        assert t[p.len..] == key[a + p.len..] + "\"" + u;
        LaggingBody(key, a + p.len, b + 1, u);
        assert key[b..] == [key[b]] + key[b + 1..];
      }
    }
  }

  /** A piece that does not stand for a quote ends inside the key and takes no quote from it. */
  lemma {:induction false} PieceInside(key: string, a: nat, u: string)
    requires a < |key|
    requires PieceAt(key[a..] + "\"" + u).Some? && PieceAt(key[a..] + "\"" + u).value.c != '\"'
    ensures var p := PieceAt(key[a..] + "\"" + u).value;
            a + p.len <= |key| && forall i :: a <= i < a + p.len ==> key[i] != '\"'
  {
    var t := key[a..] + "\"" + u;
    var p := PieceAt(t).value;
    assert forall i :: 0 <= i < |key| - a ==> t[i] == key[a + i];
    assert t[|key| - a] == '\"';
  }

  lemma {:induction false} OneCharPiece(t: string)
    requires t != "" && PieceAt(t).Some? && PieceAt(t).value.len == 1
    ensures PlainChar(t[0])
  {
  }

  /** A key that is not plain is never read back as itself, whatever is written behind it. */
  lemma {:induction false} UnplainBody(key: string, a: nat, u: string)
    requires a <= |key| && (forall i :: 0 <= i < a ==> PlainChar(key[i])) && !PlainKey(key)
    ensures var r := StrBody(key[a..] + "\"" + u);
            r.Some? ==> r.value.s != key[a..]
    decreases |key| - a
  {
    hide PieceAt, StrBody;
    var t := key[a..] + "\"" + u;
    var r := StrBody(t);
    if t[0] == '\"' {
      QuoteEnds(t);
    } else if r.Some? {
      BodyStep(t);
      var p := PieceAt(t).value;
      if p.c == key[a] {
        PieceInside(key, a, u);
        assert t[p.len..] == key[a + p.len..] + "\"" + u;
        if p.len == 1 {
          OneCharPiece(t);
          UnplainBody(key, a + 1, u);
        } else {
          LaggingBody(key, a + p.len, a + 1, u);
        }
        assert key[a..] == [key[a]] + key[a + 1..];
      }
    }
  }

  lemma {:induction false} UnplainKeyReads(key: string, u: string)
    requires !PlainKey(key)
    ensures KindsOf(KeyText(key) + u) != [] && KindsOf(KeyText(key) + u)[0] != Str(key)
  {
    hide StrBody, KindsOf, LitKind;
    var rest := ":" + u;
    var t := KeyText(key) + u;
    UnplainBody(key, 0, rest);
    assert key[0..] == key;
    assert t[1..] == key + "\"" + rest;
    LexFirst(t);
  }

  // ------------------------------------------------------------ values as they are copied

  lemma {:induction false} NothingBroken(v: Value)
    ensures AllWhole(Flatten(v))
    decreases v, 2
  {
    match v
    case JArr(items) => NothingBrokenItems(false, items);
    case JObj(members) => NothingBrokenMembers(false, members);
    case _ =>
  }

  lemma {:induction false} NothingBrokenItems(lead: bool, items: seq<Value>)
    ensures AllWhole(FlattenItems(lead, items))
    decreases items, 0
  {
    if items != [] {
      NothingBroken(items[0]);
      NothingBrokenItems(true, items[1..]);
    }
  }

  lemma {:induction false} NothingBrokenMembers(lead: bool, members: seq<Member>)
    ensures AllWhole(FlattenMembers(lead, members))
    decreases members, 0
  {
    if members != [] {
      NothingBroken(members[0].value);
      NothingBrokenMembers(true, members[1..]);
    }
  }

  /** The raw text of a member's value lexes to the value. */
  lemma {:induction false} RawReads(t: string, v: Value, more: Kinds)
    requires KindsOf(t) == [Colon] + Flatten(v) + more
    ensures var t2 := After(t, 1 + |Flatten(v)|);
            KindsOf(t2) == more && KindsOf(RawValue(Consumed(t, t2))) == Flatten(v)
  {
    hide KindsOf, After, TrimSpace, Flatten;
    var j := 1 + |Flatten(v)|;
    var c := Consumed(t, After(t, j));
    NothingBroken(v);
    assert KindsOf(t)[..j] == [Colon] + Flatten(v);
    KindsBefore(t, j);
    KindsAfter(t, j);
    KindsAfter(c, 1);
    assert ([Colon] + Flatten(v))[1..] == Flatten(v);
    KindsOfTrimmed(After(c, 1));
  }

  // ------------------------------------------------------------------- member by member

  function Replaced(members: seq<Member>, stubs: Value): (r: seq<Member>)
    ensures |r| == |members|
    decreases |members|
  {
    if members == [] then []
    else if members[0].key == ATTACHMENTS then [Member(ATTACHMENTS, stubs)] + members[1..]
    else [members[0]] + Replaced(members[1..], stubs)
  }

  /** Every key that is written out again, up to the first `_attachments`, is plain. */
  predicate PlainKeys(members: seq<Member>)
    decreases |members|
  {
    members == [] ||
    (PlainKey(members[0].key) && (members[0].key == ATTACHMENTS || PlainKeys(members[1..])))
  }

  /** The encoded stubs: some JSON text that ends in a newline or a brace. */
  predicate IsStubs(text: string, v: Value) {
    KindsOf(text) == Flatten(v) && text != "" && !IsLit(text[|text| - 1])
  }

  predicate AtTop(d: Dec, t: string) {
    AtMember(d) && d.stack == [TopValue] && d.end == EOF && d.rest == KindsOf(t)
  }

  function MemberHead(lead: bool, key: string): string {
    (if lead then "," else "") + KeyText(key)
  }

  lemma {:induction false} CopyStep(d: Dec, t: string, x: Member, more: Kinds, stubs: string)
    returns (raw: string, t2: string)
    requires AtTop(d, t)
    requires d.rest == Sep(Lead(d)) + [Str(x.key)] + ([Colon] + Flatten(x.value) + more)
    ensures KindsOf(raw) == Flatten(x.value) && KindsOf(t2) == more && AtTop(At(d, more, ObjectComma), t2)
    ensures CopyLoop(d, t, !Lead(d), stubs) ==
            (var head := MemberHead(Lead(d), x.key);
             if x.key == ATTACHMENTS then Copied(head + (stubs + t2), None)
             else Prepend(head + raw, CopyLoop(At(d, more, ObjectComma), t2, false, stubs)))
  {
    hide KindsOf, After, DecodeStep, TokenStep, RawValue, Flatten;
    var tail := [Colon] + Flatten(x.value) + more;
    KeyReads(d, x.key, tail);
    AfterToken(d, t);
    var t1 := After(t, |d.rest| - |tail|);
    var d1 := At(d, tail, ObjectColon);
    ValueReads(d1, x.value, more);
    RawReads(t1, x.value, more);
    t2 := After(t1, |tail| - |more|);
    raw := RawValue(Consumed(t1, t2));
    AfterDecode(d1, t1);
  }

  lemma {:induction false} CopyClose(d: Dec, t: string, stubs: string)
    requires AtTop(d, t) && d.rest == [RBrace]
    ensures CopyLoop(d, t, !Lead(d), stubs) == Copied("}", None)
  {
    hide KindsOf, After;
    AfterToken(d, t);
    var s := TokenStep(d);
    assert s == Step(Ok(Delim('}')), NewDec([], EOF));
    var t1 := After(t, 1);
    assert CopyLoop(NewDec([], EOF), t1, !Lead(d), stubs) == Copied("", None) by {
      AfterToken(NewDec([], EOF), t1);
    }
  }

  lemma {:induction false} CopyEnd(d: Dec, t: string, stubs: string)
    requires AtTop(d, t) && d.rest == []
    ensures CopyLoop(d, t, !Lead(d), stubs) == Copied("", None)
  {
    hide KindsOf, After;
    AfterToken(d, t);
  }

  lemma {:induction false} HeadReads(lead: bool, key: string, u: string)
    requires PlainKey(key)
    ensures KindsOf(MemberHead(lead, key) + u) == Sep(lead) + [Str(key), Colon] + KindsOf(u)
    ensures !IsLit((MemberHead(lead, key) + u)[0])
  {
    hide KindsOf, PlainKey;
    PlainKeyReads(key, u);
    if lead {
      KindsOfText(Comma, KeyText(key) + u);
      assert MemberHead(lead, key) + u == "," + (KeyText(key) + u);
    } else {
      assert MemberHead(lead, key) == KeyText(key);
    }
  }

  /** Writing a member: key, value and whatever follows. */
  lemma {:induction false} WrittenReads(lead: bool, x: Member, value: string, u: string)
    requires PlainKey(x.key) && KindsOf(value) == Flatten(x.value) && Clean(value, u)
    ensures KindsOf(MemberHead(lead, x.key) + (value + u)) ==
            Sep(lead) + [Str(x.key)] + ([Colon] + Flatten(x.value) + KindsOf(u))
    ensures !IsLit((MemberHead(lead, x.key) + (value + u))[0])
  {
    hide KindsOf, PlainKey, Flatten, MemberHead, Clean;
    HeadReads(lead, x.key, value + u);
    NothingBroken(x.value);
    KindsConcat(value, u);
  }

  /**
   Copying the rest of an object whose written keys are plain: the same members with the
   first `_attachments` replaced.
   */
  lemma {:induction false} CopyReads(d: Dec, t: string, members: seq<Member>, stubs: string, v: Value)
    requires AtTop(d, t) && d.rest == FlattenMembers(Lead(d), members) + [RBrace]
    requires IsStubs(stubs, v) && PlainKeys(members)
    ensures var c := CopyLoop(d, t, !Lead(d), stubs);
            c.err.None? &&
            KindsOf(c.out) == FlattenMembers(Lead(d), Replaced(members, v)) + [RBrace] &&
            (c.out == "" || !IsLit(c.out[0]))
    decreases |members|
  {
    hide KindsOf, CopyLoop, PlainKey, Flatten, FlattenMember, FlattenMembers, MemberHead, TokenStep, IsStubs, IsLit;
    if members == [] {
      NoMembers(Lead(d));
      assert d.rest == [RBrace];
      CopyClose(d, t, stubs);
      BraceKinds();
    } else {
      var x := members[0];
      assert members == [x] + members[1..];
      var more := FlattenMembers(true, members[1..]) + [RBrace];
      MembersCons(Lead(d), x, members[1..], [RBrace]);
      var raw, t2 := CopyStep(d, t, x, more, stubs);
      if x.key == ATTACHMENTS {
        StubsAreClean(stubs, v, t2);
        CopyWritten(Lead(d), Member(ATTACHMENTS, v), members[1..], [RBrace], stubs, t2);
      } else {
        var d2 := At(d, more, ObjectComma);
        CopyReads(d2, t2, members[1..], stubs, v);
        CopyWritten(Lead(d), x, Replaced(members[1..], v), [RBrace], raw, CopyLoop(d2, t2, false, stubs).out);
      }
    }
  }

  lemma {:induction false} BraceKinds()
    ensures KindsOf("}") == [RBrace] && !IsLit("}"[0])
  {
    hide KindsOf;
    KindsOfText(RBrace, "");
    NoKinds();
    assert "}" + "" == "}";
  }

  lemma {:induction false} StubsAreClean(stubs: string, v: Value, u: string)
    requires IsStubs(stubs, v)
    ensures KindsOf(stubs) == Flatten(v) && Clean(stubs, u)
  {
    hide KindsOf, Flatten;
  }

  /** A member that has been written in front of others. */
  lemma {:induction false} CopyWritten(
      lead: bool, x: Member, others: seq<Member>, closing: Kinds, value: string, rest: string)
    requires PlainKey(x.key) && KindsOf(value) == Flatten(x.value) && Clean(value, rest)
    requires KindsOf(rest) == FlattenMembers(true, others) + closing
    ensures var out := MemberHead(lead, x.key) + value + rest;
            out == MemberHead(lead, x.key) + (value + rest) &&
            KindsOf(out) == FlattenMembers(lead, [x] + others) + closing && out != "" && !IsLit(out[0])
  {
    hide KindsOf, PlainKey, Flatten, MemberHead, FlattenMembers, Clean, IsLit;
    WrittenReads(lead, x, value, rest);
    MembersCons(lead, x, others, closing);
  }

  lemma {:induction false} NoMembers(lead: bool)
    ensures FlattenMembers(lead, []) == []
  {
  }

  lemma {:induction false} NoKinds()
    ensures KindsOf("") == []
  {
  }

  /** An unplain key spoils the copy from there on, whatever is written behind it. */
  lemma {:induction false} UnplainHead(lead: bool, x: Member, u: string, rest: Kinds)
    requires !PlainKey(x.key)
    ensures MemberHead(lead, x.key) + u != ""
    ensures KindsOf(MemberHead(lead, x.key) + u) != Sep(lead) + [Str(x.key)] + rest
    ensures !IsLit((MemberHead(lead, x.key) + u)[0])
  {
    hide KindsOf, PlainKey;
    UnplainKeyReads(x.key, u);
    if lead {
      var ks := KindsOf(KeyText(x.key) + u);
      KindsOfText(Comma, KeyText(x.key) + u);
      assert MemberHead(lead, x.key) + u == "," + (KeyText(x.key) + u);
      assert ([Comma] + ks)[1] == ks[0];
      assert ([Comma] + [Str(x.key)] + rest)[1] == Str(x.key);
    } else {
      assert MemberHead(lead, x.key) == KeyText(x.key);
      assert ([] + [Str(x.key)] + rest)[0] == Str(x.key);
    }
  }

  lemma {:induction false} AttachmentsArePlain()
    ensures PlainKey(ATTACHMENTS)
  {
  }

  lemma {:induction false} CopyBreaks(d: Dec, t: string, members: seq<Member>, stubs: string, v: Value)
    requires AtTop(d, t) && d.rest == FlattenMembers(Lead(d), members) + [RBrace]
    requires IsStubs(stubs, v) && !PlainKeys(members)
    ensures var c := CopyLoop(d, t, !Lead(d), stubs);
            KindsOf(c.out) != FlattenMembers(Lead(d), Replaced(members, v)) + [RBrace] &&
            c.out != "" && !IsLit(c.out[0])
    decreases |members|
  {
    hide KindsOf, CopyLoop, PlainKey, Flatten, MemberHead, IsLit;
    AttachmentsArePlain();
    var x := members[0];
    assert members == [x] + members[1..];
    var more := FlattenMembers(true, members[1..]) + [RBrace];
    MembersCons(Lead(d), x, members[1..], [RBrace]);
    var raw, t2 := CopyStep(d, t, x, more, stubs);
    var d2 := At(d, more, ObjectComma);
    var rest := CopyLoop(d2, t2, false, stubs).out;
    var others := Replaced(members[1..], v);
    assert MemberHead(Lead(d), x.key) + raw + rest == MemberHead(Lead(d), x.key) + (raw + rest);
    MembersCons(Lead(d), x, others, [RBrace]);
    if PlainKey(x.key) {
      CopyBreaks(d2, t2, members[1..], stubs, v);
      WrittenReads(Lead(d), x, raw, rest);
      var want := FlattenMembers(true, others) + [RBrace];
      var before, value := Sep(Lead(d)) + [Str(x.key)], [Colon] + Flatten(x.value);
      if before + (value + KindsOf(rest)) == before + (value + want) {
        SameTail(before, value, KindsOf(rest), want);
      }
    } else {
      var want := [Colon] + Flatten(x.value) + (FlattenMembers(true, others) + [RBrace]);
      UnplainHead(Lead(d), x, raw + rest, want);
      assert x.key != ATTACHMENTS;
      assert FlattenMembers(Lead(d), Replaced(members, v)) + [RBrace] == Sep(Lead(d)) + [Str(x.key)] + want;
      assert CopyLoop(d, t, !Lead(d), stubs).out == MemberHead(Lead(d), x.key) + (raw + rest);
    }
  }

  lemma {:induction false} SameTail(a: Kinds, b: Kinds, c: Kinds, d: Kinds)
    requires a + (b + c) == a + (b + d)
    ensures c == d
  {
    assert c == (a + (b + c))[|a| + |b|..];
    assert d == (a + (b + d))[|a| + |b|..];
  }

  // --------------------------------------------------------------------- whole documents

  lemma {:induction false} CopyOpens(t: string, rest: Kinds, stubs: string) returns (d: Dec, t1: string)
    requires KindsOf(t) == [LBrace] + rest
    ensures AtTop(d, t1) && d.rest == rest && !Lead(d)
    ensures CopyText(t, EOF, stubs) == Prepend("{", CopyLoop(d, t1, true, stubs))
  {
    hide KindsOf, After, CopyLoop;
    var d0 := NewDec(KindsOf(t), EOF);
    AfterToken(d0, t);
    d := TokenStep(d0).dec;
    t1 := After(t, 1);
    var none: seq<TokState> := [];
    assert none + [TopValue] == [TopValue];
    assert ([LBrace] + rest)[1..] == rest;
  }

  lemma {:induction false} BraceText(u: string)
    ensures KindsOf("{" + u) == [LBrace] + KindsOf(u)
  {
    KindsOfText(LBrace, u);
  }

  /**
   The output of the rewrite parses to the same members in the same order with only the value
   of the first `_attachments` replaced, exactly when every key up to there is plain.
   */
  lemma {:induction false} CopyExact(t: string, members: seq<Member>, stubs: string, v: Value)
    requires KindsOf(t) == Flatten(JObj(members)) && IsStubs(stubs, v)
    ensures PlainKeys(members) <==>
            KindsOf(CopyText(t, EOF, stubs).out) == Flatten(JObj(Replaced(members, v)))
    ensures PlainKeys(members) ==> CopyText(t, EOF, stubs).err.None?
  {
    hide KindsOf, CopyLoop, CopyText, PlainKeys, FlattenMembers, Replaced, IsStubs;
    var rest := FlattenMembers(false, members) + [RBrace];
    assert Flatten(JObj(members)) == [LBrace] + rest;
    var d, t1 := CopyOpens(t, rest, stubs);
    BraceText(CopyLoop(d, t1, true, stubs).out);
    var want := FlattenMembers(false, Replaced(members, v)) + [RBrace];
    assert Flatten(JObj(Replaced(members, v))) == [LBrace] + want;
    if PlainKeys(members) {
      CopyReads(d, t1, members, stubs, v);
    } else {
      CopyBreaks(d, t1, members, stubs, v);
      var got := KindsOf(CopyLoop(d, t1, true, stubs).out);
      assert ([LBrace] + got)[1..] == got && ([LBrace] + want)[1..] == want;
    }
  }

  /** The place of the first `_attachments` member, or the number of members. */
  function FirstAttachments(members: seq<Member>): (i: nat)
    ensures i <= |members|
    ensures i < |members| ==> members[i].key == "_attachments"
    ensures forall j :: 0 <= j < i ==> members[j].key != "_attachments"
    decreases |members|
  {
    if members == [] || members[0].key == ATTACHMENTS then 0
    else
      var i := FirstAttachments(members[1..]);
      assert forall j :: 0 < j < |members| ==> members[j] == members[1..][j - 1];
      i + 1
  }

  /** The one member of that place is replaced, and nothing else changes. */
  lemma {:induction false} ReplacedAt(members: seq<Member>, v: Value)
    ensures var i := FirstAttachments(members);
            Replaced(members, v) ==
            if i < |members| then members[..i] + [Member("_attachments", v)] + members[i + 1..] else members
    decreases |members|
  {
    if members != [] && members[0].key != ATTACHMENTS {
      ReplacedAt(members[1..], v);
      var i := FirstAttachments(members);
      hide FirstAttachments;
      if i < |members| {
        ReplaceBehind(members, i, Member(ATTACHMENTS, v));
      }
    }
  }

  lemma {:induction false} ReplaceBehind(members: seq<Member>, i: nat, x: Member)
    requires 0 < i < |members|
    ensures [members[0]] + (members[1..][..i - 1] + [x] + members[1..][i..]) == members[..i] + [x] + members[i + 1..]
  {
  }

  // ----------------------------------------------------------------------- read failures

  /** Nothing yet has been taken for the end of the input, and the reader will not report it. */
  predicate Endless(d: Dec) {
    d.end != EOF && d.failed != Some(EOF)
  }

  lemma {:induction false} DecodeEndless(d: Dec)
    requires Endless(d)
    ensures DecodeStep(d).res != Err(EOF) && Endless(DecodeStep(d).dec)
  {
    hide ScanValue;
  }

  lemma {:induction false} TokenEndless(d: Dec)
    requires Endless(d)
    ensures TokenStep(d).res != Err(EOF) && Endless(TokenStep(d).dec)
    decreases |d.rest|
  {
    hide DecodeStep;
    DecodeEndless(d);
    if d.rest != [] {
      if d.rest[0] == Colon && d.st == ObjectColon {
        TokenEndless(Skip(d, ObjectValue));
      } else if d.rest[0] == Comma && (d.st == ArrayComma || d.st == ObjectComma) {
        TokenEndless(Skip(d, if d.st == ArrayComma then ArrayValue else ObjectKey));
      }
    }
  }

  lemma {:induction false} LoopReports(d: Dec, t: string, first: bool, stubs: string)
    requires d.rest == KindsAt(t, d.end) && Endless(d)
    ensures var err := CopyLoop(d, t, first, stubs).err; err.Some? && err != Some(EOF)
    decreases |d.rest|
  {
    hide KindsOf, KindsAt, After, DecodeStep, TokenStep, RawValue, Endless;
    var s := TokenStep(d);
    var t1 := After(t, |d.rest| - |s.dec.rest|);
    AfterToken(d, t);
    TokenEndless(d);
    if s.res.Ok? {
      if s.res.value.Text? {
        var v := DecodeStep(s.dec);
        AfterDecode(s.dec, t1);
        DecodeEndless(s.dec);
        EndlessEnd(d);
        if v.res.Ok? && s.res.value.s != ATTACHMENTS {
          LoopReports(v.dec, After(t1, |s.dec.rest| - |v.dec.rest|), false, stubs);
        }
      } else if s.res.value.Scalar? || s.res.value == Delim('}') {
        LoopReports(s.dec, t1, first, stubs);
      }
    }
  }

  lemma {:induction false} EndlessEnd(d: Dec)
    requires Endless(d)
    ensures d.end != EOF
  {
  }

  /** For every input, malformed or not: a read failure is an error, and never the end of the input. */
  lemma {:induction false} FailureIsReported(t: string, end: Error, stubs: string)
    requires end != EOF
    ensures var err := CopyText(t, end, stubs).err; err.Some? && err != Some(EOF)
  {
    hide KindsOf, KindsAt, After, TokenStep, CopyLoop;
    var d := NewDec(KindsAt(t, end), end);
    var s := TokenStep(d);
    AfterToken(d, t);
    TokenEndless(d);
    if s.res == Ok(Delim('{')) {
      LoopReports(s.dec, After(t, |d.rest| - |s.dec.rest|), true, stubs);
    }
  }
}
