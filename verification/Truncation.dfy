/**
 Documents that break off: where the rewrite notices it, with which error, and what it has
 written by then.
 */
module Truncation {
  import opened Errors
  import opened Json
  import opened Lexer
  import LexCut
  import opened Decoding
  import opened Members
  import opened Envelope
  import opened IterTheorems
  import opened IterErrors
  import opened Rewriter
  import opened RewriterTheorems

  /** Where the text of an object breaks off; `k` members before that are complete. */
  datatype Break =
    | Blank                          // no lexeme at all
    | BehindMember(k: nat)           // or behind the opening brace
    | BehindComma(k: nat)
    | InKey(k: nat)
    | BehindKey(k: nat)
    | BehindColon(k: nat)
    | InValue(k: nat, part: Kinds)   // `part` is what there is of the value
    | Complete

  function Count(members: seq<Member>, b: Break): nat {
    match b
    case Blank => 0
    case Complete => |members|
    case _ => b.k
  }

  /** What follows the complete members. */
  function Piece(members: seq<Member>, b: Break): Kinds {
    match b
    case Blank => []
    case BehindMember(_) => []
    case BehindComma(_) => [Comma]
    case InKey(k) => Sep(k > 0) + [Cut(true)]
    case BehindKey(k) => if k < |members| then Sep(k > 0) + [Str(members[k].key)] else []
    case BehindColon(k) => if k < |members| then Sep(k > 0) + [Str(members[k].key), Colon] else []
    case InValue(k, part) => if k < |members| then Sep(k > 0) + [Str(members[k].key), Colon] + part else []
    case Complete => [RBrace]
  }

  /** A value has begun and cannot be complete yet. */
  predicate InsideOf(part: Kinds, v: Value) {
    part != [] && !part[0].Num? && BrokenOff(part, Flatten(v))
  }

  predicate IsBreak(members: seq<Member>, b: Break) {
    Count(members, b) <= |members| &&
    (b.BehindComma? ==> 0 < b.k) &&
    (b.BehindComma? || b.InKey? || b.BehindKey? || b.BehindColon? || b.InValue? ==> b.k < |members|) &&
    (b.InValue? ==> InsideOf(b.part, members[b.k].value))
  }

  predicate BreaksAt(ks: Kinds, members: seq<Member>, b: Break) {
    IsBreak(members, b) &&
    if b.Blank? then ks == []
    else ks == [LBrace] + (FlattenMembers(false, members[..Count(members, b)]) + Piece(members, b))
  }

  // ------------------------------------------------- every way to break off is one of these

  /** The same inside an object, where `lead` members have gone before; a number may be cut short. */
  ghost predicate BodyBreaksAt(ks: Kinds, lead: bool, members: seq<Member>, k: nat, piece: Kinds) {
    k <= |members| && ks == FlattenMembers(lead, members[..k]) + piece &&
    (piece == [] || (k < |members| && MemberBreaksAt(piece, lead || k > 0, members[k])))
  }

  /** A member that breaks off, with or without a comma in front of it. */
  ghost predicate MemberBreaksAt(piece: Kinds, lead: bool, x: Member) {
    var sep := Sep(lead);
    (lead && piece == [Comma]) || piece == sep + [Cut(true)] || piece == sep + [Str(x.key)] ||
    piece == sep + [Str(x.key), Colon] ||
    (exists part: Kinds :: piece == sep + [Str(x.key), Colon] + part && InsideOf(part, x.value)) ||
    (x.value.JNum? && exists n :: piece == sep + [Str(x.key), Colon, Num(n)])
  }

  lemma {:induction false} MemberBreaks(ks: Kinds, lead: bool, x: Member)
    requires BrokenOff(ks, Sep(lead) + FlattenMember(x)) && ks != []
    ensures MemberBreaksAt(ks, lead, x)
  {
    hide Flatten, InsideOf, BrokenOff;
    var sep, key := Sep(lead), [Str(x.key), Colon];
    assert FlattenMember(x) == key + Flatten(x.value);
    var q := BrokenOffSep(lead, ks, FlattenMember(x));
    var part := BrokenOffIn(q, key, Flatten(x.value));
    if BrokenOff(q, key) {
      KeyBreaks(q, x.key);
    } else {
      assert ks == sep + key + part;
      InValueOrNumber(part, x.value);
      if part == [] {
        assert ks == sep + key;
      } else if part[0].Num? {
        assert part == [Num(part[0].text)];
        assert ks == sep + [Str(x.key), Colon, Num(part[0].text)];
      }
    }
  }

  lemma {:induction false} KeyBreaks(q: Kinds, key: string)
    requires BrokenOff(q, [Str(key), Colon])
    ensures q == [] || q == [Cut(true)] || q == [Str(key)]
  {
  }

  lemma {:induction false} InValueOrNumber(part: Kinds, v: Value)
    requires BrokenOff(part, Flatten(v))
    ensures part == [] || (!part[0].Num? && InsideOf(part, v)) || (v.JNum? && |part| == 1 && part[0].Num?)
  {
  }

  lemma {:induction false} BodyBreaks(ks: Kinds, lead: bool, members: seq<Member>) returns (k: nat, piece: Kinds)
    requires BrokenOff(ks, FlattenMembers(lead, members) + [RBrace])
    ensures BodyBreaksAt(ks, lead, members, k, piece)
    decreases |members|
  {
    hide Flatten, FlattenMember, IsStump, MemberBreaksAt;
    NoMembers(lead);
    assert members[..0] == [] && [] + ks == ks;
    k, piece := 0, ks;
    if members == [] {
      assert [] + [RBrace] == [RBrace];
      NothingBreaks(ks);
    } else if ks != [] {
      var first, more := Sep(lead) + FlattenMember(members[0]), FlattenMembers(true, members[1..]) + [RBrace];
      assert first + FlattenMembers(true, members[1..]) + [RBrace] == first + more;
      var q := BrokenOffIn(ks, first, more);
      if BrokenOff(ks, first) {
        assert (lead || 0 > 0) == lead;
        MemberBreaks(ks, lead, members[0]);
      } else {
        k, piece := BodyBreaks(q, true, members[1..]);
        BreakBehind(q, lead, members, k, piece);
        k := k + 1;
      }
    }
  }

  lemma {:induction false} NothingBreaks(ks: Kinds)
    requires BrokenOff(ks, [RBrace])
    ensures ks == []
  {
  }

  lemma {:induction false} BreakBehind(q: Kinds, lead: bool, members: seq<Member>, k: nat, piece: Kinds)
    requires members != [] && BodyBreaksAt(q, true, members[1..], k, piece)
    ensures BodyBreaksAt(Sep(lead) + FlattenMember(members[0]) + q, lead, members, k + 1, piece)
  {
    hide Flatten, FlattenMember, MemberBreaksAt;
    var first, some := Sep(lead) + FlattenMember(members[0]), members[1..][..k];
    assert members[..k + 1] == [members[0]] + some;
    FlattenMembersCons(lead, members[0], some);
    assert first + (FlattenMembers(true, some) + piece) == first + FlattenMembers(true, some) + piece;
  }

  /** The members, except that one number may have become another. */
  predicate SameButNumber(members': seq<Member>, members: seq<Member>) {
    members' == members ||
    exists k :: 0 <= k < |members| && members[k].value.JNum? && |members'| == |members| && members'[k].value.JNum? &&
                members' == members[k := Member(members[k].key, members'[k].value)]
  }

  /** The lexemes of an object, whole or broken off anywhere. */
  predicate Begins(ks: Kinds, members: seq<Member>) {
    ks == Flatten(JObj(members)) || BrokenOff(ks, Flatten(JObj(members)))
  }

  /** Every way for an object to break off is one of those, but its last number may be cut short. */
  lemma {:induction false} BeginsBreaks(ks: Kinds, members: seq<Member>) returns (b: Break, members': seq<Member>)
    requires Begins(ks, members)
    ensures SameButNumber(members', members) && BreaksAt(ks, members', b)
    ensures b.Complete? ==> members' == members
  {
    hide FlattenMembers, InsideOf, IsStump;
    members' := members;
    FlattenObject(members);
    var body := FlattenMembers(false, members) + [RBrace];
    assert Flatten(JObj(members)) == [LBrace] + body;
    if ks == Flatten(JObj(members)) {
      b := Complete;
      assert members[..|members|] == members;
    } else if ks == [] {
      b := Blank;
    } else {
      var q := BrokenOffIn(ks, [LBrace], body);
      LoneBrace(ks);
      var k, piece := BodyBreaks(q, false, members);
      b, members' := BreakOf(k, piece, members);
      if members' != members || b.k != k {
        ShortenedBreaks(ks, k, piece, members, members');
      }
    }
  }

  lemma {:induction false} LoneBrace(ks: Kinds)
    requires ks != []
    ensures !BrokenOff(ks, [LBrace])
  {
  }

  /** The number of the member at `k` has been cut short. */
  ghost predicate IsShortened(k: nat, piece: Kinds, members: seq<Member>, members': seq<Member>) {
    k < |members| && members[k].value.JNum? &&
    exists n :: piece == Sep(k > 0) + [Str(members[k].key), Colon, Num(n)] &&
                members' == members[k := Member(members[k].key, JNum(n))]
  }

  lemma {:induction false} BreakOf(k: nat, piece: Kinds, members: seq<Member>) returns (b: Break, members': seq<Member>)
    requires k <= |members| && (piece == [] || (k < |members| && MemberBreaksAt(piece, k > 0, members[k])))
    ensures !b.Blank? && !b.Complete?
    ensures if members' == members && b.k == k then IsBreak(members, b) && Piece(members, b) == piece
            else b == BehindMember(k + 1) && IsShortened(k, piece, members, members')
  {
    hide InsideOf, Flatten;
    members' := members;
    b := BehindMember(k);
    if piece == [] {
      return;
    }
    if piece != [] {
      var sep, x := Sep(k > 0), members[k];
      if k > 0 && piece == [Comma] {
        b := BehindComma(k);
      } else if piece == sep + [Cut(true)] {
        b := InKey(k);
      } else if piece == sep + [Str(x.key)] {
        b := BehindKey(k);
      } else if piece == sep + [Str(x.key), Colon] {
        b := BehindColon(k);
      } else if part: Kinds :| piece == sep + [Str(x.key), Colon] + part && InsideOf(part, x.value) {
        b := InValue(k, part);
      } else {
        var n :| piece == sep + [Str(x.key), Colon, Num(n)];
        b, members' := BehindMember(k + 1), members[k := Member(x.key, JNum(n))];
      }
    }
  }

  lemma {:induction false} ShortenedBreaks(ks: Kinds, k: nat, piece: Kinds, members: seq<Member>, members': seq<Member>)
    requires IsShortened(k, piece, members, members')
    requires ks == [LBrace] + (FlattenMembers(false, members[..k]) + piece)
    ensures SameButNumber(members', members) && BreaksAt(ks, members', BehindMember(k + 1))
  {
    hide FlattenMembers;
    var n :| piece == Sep(k > 0) + [Str(members[k].key), Colon, Num(n)] &&
             members' == members[k := Member(members[k].key, JNum(n))];
    var x := members'[k];
    assert members'[..k + 1] == members[..k] + [x];
    MembersAppend(false, members[..k], [x]);
    OneMember(k > 0, x);
    assert FlattenMember(x) == [Str(x.key), Colon] + [Num(n)];
    assert FlattenMembers(k > 0, [x]) == piece;
    assert FlattenMembers(false, members[..k]) + piece + [] == FlattenMembers(false, members[..k]) + piece;
  }

  // --------------------------------------------------------------- what the copy does there

  /** What has been written may be followed by `u`, as no literal begins there. */
  predicate Starts(u: string) {
    u == "" || !IsLit(u[0])
  }

  predicate AllPlain(members: seq<Member>) {
    forall x :: x in members ==> PlainKey(x.key)
  }

  predicate NoAttachments(members: seq<Member>) {
    forall x :: x in members ==> x.key != ATTACHMENTS
  }

  /** The copy of members before the first `_attachments`, whatever follows them. */
  lemma {:induction false} CopyPrefix(d: Dec, t: string, done: seq<Member>, tail: Kinds, stubs: string)
    returns (out: string, d': Dec, t': string)
    requires AtTop(d, t) && d.rest == FlattenMembers(Lead(d), done) + tail && NoAttachments(done)
    ensures AtTop(d', t') && d'.rest == tail && Lead(d') == (Lead(d) || done != [])
    ensures CopyLoop(d, t, !Lead(d), stubs) == Prepend(out, CopyLoop(d', t', !Lead(d'), stubs))
    ensures AllPlain(done) ==> forall u :: Starts(u) ==>
              Starts(out + u) && KindsOf(out + u) == FlattenMembers(Lead(d), done) + KindsOf(u)
    decreases |done|
  {
    hide KindsOf, CopyLoop, PlainKey, Flatten, FlattenMember, MemberHead, TokenStep, IsLit;
    if done == [] {
      NoMembers(Lead(d));
      out, d', t' := "", d, t;
      assert d.rest == tail;
      forall u ensures out + u == u {
      }
    } else {
      var x, more := done[0], FlattenMembers(true, done[1..]) + tail;
      assert done == [x] + done[1..] && x in done;
      MembersCons(Lead(d), x, done[1..], tail);
      var raw, t2 := CopyStep(d, t, x, more, stubs);
      var d2 := At(d, more, ObjectComma);
      var rest;
      rest, d', t' := CopyPrefix(d2, t2, done[1..], tail, stubs);
      var head := MemberHead(Lead(d), x.key);
      out := head + raw + rest;
      PrependTwice(head + raw, rest, CopyLoop(d', t', !Lead(d'), stubs));
      if AllPlain(done) {
        forall u | Starts(u) ensures Starts(out + u) && KindsOf(out + u) == FlattenMembers(Lead(d), done) + KindsOf(u) {
          PrefixWritten(Lead(d), x, done[1..], raw, rest, u);
        }
      }
    }
  }

  lemma {:induction false} PrependTwice(a: string, b: string, c: Copied)
    ensures Prepend(a, Prepend(b, c)) == Prepend(a + b, c)
  {
    assert a + (b + c.out) == a + b + c.out;
  }

  lemma {:induction false} PrefixWritten(
      lead: bool, x: Member, others: seq<Member>, raw: string, rest: string, u: string)
    requires PlainKey(x.key) && KindsOf(raw) == Flatten(x.value) && Starts(rest + u)
    requires KindsOf(rest + u) == FlattenMembers(true, others) + KindsOf(u)
    ensures var out := MemberHead(lead, x.key) + raw + rest;
            Starts(out + u) && KindsOf(out + u) == FlattenMembers(lead, [x] + others) + KindsOf(u)
  {
    hide KindsOf, PlainKey, Flatten, FlattenMembers, MemberHead, IsLit;
    var head := MemberHead(lead, x.key);
    CopyWritten(lead, x, others, KindsOf(u), raw, rest + u);
    assert head + raw + (rest + u) == head + raw + rest + u;
  }

  lemma {:induction false} CopyComma(d: Dec, t: string, stubs: string)
    requires AtTop(d, t) && Lead(d) && d.rest == [Comma]
    ensures CopyLoop(d, t, !Lead(d), stubs) == Copied("", None)
  {
    hide KindsOf, After;
    AfterToken(d, t);
    assert d.rest[1..] == [];
    assert TokenStep(d) == TokenStep(Skip(d, ObjectKey));
  }

  /** A key that breaks off is not copied, nor the comma before it. */
  lemma {:induction false} CopyBrokenKey(d: Dec, t: string, stubs: string)
    requires AtTop(d, t) && d.rest == Sep(Lead(d)) + [Cut(true)]
    ensures CopyLoop(d, t, !Lead(d), stubs) == Copied("", Some(BadRequest(UnexpectedEOF)))
  {
    hide KindsOf, After;
    AfterToken(d, t);
    if Lead(d) {
      assert d.rest[1..] == [Cut(true)];
      assert TokenStep(d) == TokenStep(Skip(d, ObjectKey));
    }
  }

  /** A member that breaks off before its value is complete. */
  lemma {:induction false} CopyBroken(d: Dec, t: string, key: string, part: Kinds, stubs: string)
    requires AtTop(d, t) && d.rest == Sep(Lead(d)) + [Str(key)] + part
    requires part != [] ==> part[0] == Colon && ScanValue(part[1..]).Incomplete?
    ensures CopyLoop(d, t, !Lead(d), stubs) ==
            Copied(MemberHead(Lead(d), key), Some(if |part| <= 1 then EOF else UnexpectedEOF))
  {
    hide KindsOf, After, TokenStep, ScanValue, RawValue;
    KeyReads(d, key, part);
    AfterToken(d, t);
    var t1 := After(t, |d.rest| - |part|);
    var d1 := At(d, part, ObjectColon);
    AfterDecode(d1, t1);
  }

  // -------------------------------------------------------------------- whole documents

  /** What the copy reports. */
  function Outcome(members: seq<Member>, b: Break): Option<Error> {
    if b.Blank? || b.BehindMember? || b.BehindComma? || b.Complete? || b.k > FirstAttachments(members) then None
    else if b.InKey? then Some(BadRequest(UnexpectedEOF))
    else if b.InValue? then Some(UnexpectedEOF)
    else Some(EOF)
  }

  /** Where its output breaks off: behind the attachments where the input does. */
  function Written(members: seq<Member>, b: Break): Break {
    if Count(members, b) > FirstAttachments(members) then b
    else
      match b
      case BehindComma(k) => BehindMember(k)
      case InKey(k) => BehindMember(k)
      case BehindKey(k) => BehindColon(k)
      case InValue(k, _) => BehindColon(k)
      case _ => b
  }

  /** The first `k` members, seen from the one at `i`. */
  lemma {:induction false} SplitAt(members: seq<Member>, i: nat, k: nat, piece: Kinds)
    requires i < k <= |members|
    ensures FlattenMembers(false, members[..k]) + piece ==
            FlattenMembers(false, members[..i]) +
            (Sep(i > 0) + [Str(members[i].key)] +
             ([Colon] + Flatten(members[i].value) + (FlattenMembers(true, members[i + 1..k]) + piece)))
  {
    hide FlattenMembers, Flatten;
    var a, b := members[..i], [members[i]] + members[i + 1..k];
    assert members[..k] == a + b;
    MembersAppend(false, a, b);
    MembersCons(i > 0, members[i], members[i + 1..k], piece);
    assert FlattenMembers(false, a) + FlattenMembers(i > 0, b) + piece ==
           FlattenMembers(false, a) + (FlattenMembers(i > 0, b) + piece);
  }

  lemma {:induction false} PlainUpto(members: seq<Member>)
    requires PlainKeys(members)
    ensures var i := FirstAttachments(members);
            AllPlain(members[..i]) && (i < |members| ==> PlainKey(members[i].key))
    decreases |members|
  {
    hide PlainKey;
    if members != [] && members[0].key != ATTACHMENTS {
      PlainUpto(members[1..]);
      var i := FirstAttachments(members);
      assert members[..i] == [members[0]] + members[1..][..i - 1];
    }
  }

  lemma {:induction false} ReplacedShape(members: seq<Member>, v: Value)
    ensures var i, rm := FirstAttachments(members), Replaced(members, v);
            rm[..i] == members[..i] &&
            (forall k :: 0 <= k < |members| ==> rm[k].key == members[k].key) &&
            (i < |members| ==> rm[i] == Member(ATTACHMENTS, v) && rm[i + 1..] == members[i + 1..])
  {
    hide Replaced, FirstAttachments;
    ReplacedAt(members, v);
  }

  /** Behind the first `_attachments` the input is copied as it is, however it breaks off. */
  lemma {:induction false} CopyBehind(
      d: Dec, t: string, members: seq<Member>, k: nat, piece: Kinds, stubs: string, v: Value)
    requires AtTop(d, t) && !Lead(d) && FirstAttachments(members) < k <= |members| && IsStubs(stubs, v)
    requires d.rest == FlattenMembers(false, members[..k]) + piece
    ensures var c := CopyLoop(d, t, true, stubs);
            c.err.None? &&
            (PlainKeys(members) ==>
               KindsOf(c.out) == FlattenMembers(false, Replaced(members, v)[..k]) + piece)
  {
    hide KindsOf, CopyLoop, PlainKey, Flatten, FlattenMembers, MemberHead, IsLit, Replaced, PlainKeys;
    var i, rm := FirstAttachments(members), Replaced(members, v);
    ReplacedShape(members, v);
    SplitAt(members, i, k, piece);
    SplitAt(rm, i, k, piece);
    assert rm[i + 1..k] == rm[i + 1..][..k - i - 1] == members[i + 1..k];
    var more := FlattenMembers(true, members[i + 1..k]) + piece;
    var x := members[i];
    var out, d2, t2 := CopyPrefix(d, t, members[..i],
                                  Sep(i > 0) + [Str(x.key)] + ([Colon] + Flatten(x.value) + more), stubs);
    var raw, t3 := CopyStep(d2, t2, x, more, stubs);
    var tail := MemberHead(Lead(d2), x.key) + (stubs + t3);
    assert CopyLoop(d, t, true, stubs) == Copied(out + tail, None);
    if PlainKeys(members) {
      PlainUpto(members);
      WrittenReads(Lead(d2), rm[i], stubs, t3);
      assert KindsOf(out + tail) == FlattenMembers(false, members[..i]) + KindsOf(tail);
    }
  }

  /** What the copy makes of the tail of an input that breaks off before the first `_attachments` is complete. */
  lemma {:induction false} CopyTail(d: Dec, t: string, members: seq<Member>, b: Break, stubs: string)
    requires IsBreak(members, b) && !b.Blank? && AtTop(d, t) && d.rest == Piece(members, b)
    requires Lead(d) == (Count(members, b) > 0) && Count(members, b) <= FirstAttachments(members)
    ensures var c, k := CopyLoop(d, t, !Lead(d), stubs), Count(members, b);
            c.err == Outcome(members, b) && Starts(c.out) &&
            ((k < |members| ==> PlainKey(members[k].key)) ==>
               KindsOf(c.out) == Piece(members, Written(members, b)))
  {
    hide KindsOf, CopyLoop, PlainKey, Flatten, FlattenMembers, MemberHead, IsLit, ScanValue;
    NoKinds();
    match b
    case BehindMember(_) =>
      CopyEnd(d, t, stubs);
    case BehindComma(_) =>
      CopyComma(d, t, stubs);
    case InKey(_) =>
      CopyBrokenKey(d, t, stubs);
    case Complete =>
      CopyClose(d, t, stubs);
      KindsOfText(RBrace, "");
      assert "}" + "" == "}";
      PunctStarts();
    case _ =>
      CopyTailOfMember(d, t, members, b, stubs);
  }

  lemma {:induction false} CopyTailOfMember(d: Dec, t: string, members: seq<Member>, b: Break, stubs: string)
    requires IsBreak(members, b) && (b.BehindKey? || b.BehindColon? || b.InValue?)
    requires AtTop(d, t) && d.rest == Piece(members, b) && Lead(d) == (b.k > 0)
    ensures var c, x := CopyLoop(d, t, !Lead(d), stubs), members[b.k];
            c.err == Some(if b.InValue? then UnexpectedEOF else EOF) && Starts(c.out) &&
            (PlainKey(x.key) ==> KindsOf(c.out) == Sep(b.k > 0) + [Str(x.key), Colon])
  {
    hide KindsOf, CopyLoop, PlainKey, Flatten, MemberHead, IsLit, ScanValue;
    var key := members[b.k].key;
    var part: Kinds := if b.BehindKey? then [] else if b.BehindColon? then [Colon] else [Colon] + b.part;
    assert d.rest == Sep(Lead(d)) + [Str(key)] + part;
    NothingIncomplete();
    if b.InValue? {
      BrokenOffIncomplete(members[b.k].value, b.part);
    }
    assert part != [] ==> part[1..] == if b.InValue? then b.part else [];
    CopyBroken(d, t, key, part, stubs);
    HeadStarts(Lead(d), key);
    if PlainKey(key) {
      NoKinds();
      HeadReads(Lead(d), key, "");
      assert MemberHead(Lead(d), key) + "" == MemberHead(Lead(d), key);
    }
  }

  lemma {:induction false} NothingIncomplete()
    ensures ScanValue([]).Incomplete?
  {
  }

  lemma {:induction false} PunctStarts()
    ensures Starts("}")
  {
  }

  lemma {:induction false} HeadStarts(lead: bool, key: string)
    ensures Starts(MemberHead(lead, key))
  {
  }

  /** Input without a lexeme is copied as five characters that are no JSON at all. */
  lemma {:induction false} BlankInput(t: string, stubs: string)
    requires KindsOf(t) == []
    ensures CopyText(t, EOF, stubs) == Copied("<nil>", None) && KindsOf("<nil>") == [Bad]
  {
    hide KindsOf, After;
    var d := NewDec([], EOF);
    AfterToken(d, t);
    var t1 := After(t, 0);
    assert CopyLoop(d, t1, true, stubs) == Copied("", None) by {
      AfterToken(d, t1);
    }
    NilIsBad();
  }

  lemma {:induction false} NilIsBad()
    ensures KindsOf("<nil>") == [Bad]
  {
    var t := "<nil>";
    assert SpaceLen(t) == 0 && t[0..] == t;
    var n := LitLen(t);
    assert DigitsLen(t[..n]) == 0;
    assert LexHere(t) == Lexeme(Bad, 5);
    assert t[5..] == "";
    NoKinds();
  }

  lemma {:induction false} BreakOutcome(t: string, members: seq<Member>, b: Break, stubs: string, v: Value)
    requires BreaksAt(KindsOf(t), members, b) && IsStubs(stubs, v)
    ensures var c := CopyText(t, EOF, stubs);
            c.err == Outcome(members, b) &&
            (PlainKeys(members) ==>
               if b.Blank? then c.out == "<nil>"
               else BreaksAt(KindsOf(c.out), Replaced(members, v), Written(members, b)))
  {
    hide KindsOf, CopyLoop, CopyText, PlainKeys, PlainKey, FlattenMembers, Replaced, IsStubs, Flatten;
    if b.Blank? {
      BlankInput(t, stubs);
    } else {
      var k, piece := Count(members, b), Piece(members, b);
      var d, t1 := CopyOpens(t, FlattenMembers(false, members[..k]) + piece, stubs);
      BraceText(CopyLoop(d, t1, true, stubs).out);
      WrittenBreaks(members, b, v);
      if k > FirstAttachments(members) {
        CopyBehind(d, t1, members, k, piece, stubs, v);
      } else {
        CopyBefore(d, t1, members, b, stubs);
      }
    }
  }

  lemma {:induction false} CopyBefore(d: Dec, t: string, members: seq<Member>, b: Break, stubs: string)
    requires IsBreak(members, b) && !b.Blank? && AtTop(d, t) && !Lead(d)
    requires Count(members, b) <= FirstAttachments(members)
    requires d.rest == FlattenMembers(false, members[..Count(members, b)]) + Piece(members, b)
    ensures var c := CopyLoop(d, t, true, stubs);
            c.err == Outcome(members, b) &&
            (PlainKeys(members) ==>
               KindsOf(c.out) ==
               FlattenMembers(false, members[..Count(members, b)]) + Piece(members, Written(members, b)))
  {
    hide KindsOf, CopyLoop, PlainKeys, PlainKey, FlattenMembers, Flatten, MemberHead, Piece, Starts, Outcome;
    var i, k := FirstAttachments(members), Count(members, b);
    var out, d2, t2 := CopyPrefix(d, t, members[..k], Piece(members, b), stubs);
    CopyTail(d2, t2, members, b, stubs);
    if PlainKeys(members) {
      PlainUpto(members);
      assert AllPlain(members[..k]);
      assert k < i ==> members[k] in members[..i];
    }
  }

  /** The output's place is one of the rewritten document, with the same members before it. */
  lemma {:induction false} WrittenBreaks(members: seq<Member>, b: Break, v: Value)
    requires IsBreak(members, b) && !b.Blank?
    ensures var w, rm, k := Written(members, b), Replaced(members, v), Count(members, b);
            IsBreak(rm, w) && !w.Blank? && Count(rm, w) == k && Piece(rm, w) == Piece(members, w) &&
            (k <= FirstAttachments(members) ==> rm[..k] == members[..k])
  {
    hide Replaced, Flatten, FirstAttachments;
    var i, rm, k := FirstAttachments(members), Replaced(members, v), Count(members, b);
    ReplacedShape(members, v);
    if k <= i {
      assert rm[..k] == rm[..i][..k] && members[..k] == members[..i][..k];
    } else if k < |members| {
      assert rm[k] == rm[i + 1..][k - i - 1] == members[i + 1..][k - i - 1] == members[k];
    }
  }

  /**
   Which error a document that breaks off anywhere leads to: none behind a member or the comma
   after it, or once the first `_attachments` is complete; a bare EOF behind a key or its
   colon; and otherwise the unexpected end that the decoder reports inside a key or a value.
   A number that is cut short is one of those that end behind a member.
   */
  lemma {:induction false} TruncationExact(
      t: string, members: seq<Member>, stubs: string, v: Value, err: Option<Error>)
    requires Begins(KindsOf(t), members) && IsStubs(stubs, v)
    ensures CopyText(t, EOF, stubs).err == err <==>
            exists b, members' :: SameButNumber(members', members) && BreaksAt(KindsOf(t), members', b) &&
                                  Outcome(members', b) == err
  {
    hide KindsOf, CopyText, BreaksAt, Outcome, IsStubs, Begins, SameButNumber;
    var b, members1 := BeginsBreaks(KindsOf(t), members);
    BreakOutcome(t, members1, b, stubs, v);
    if b', members' :| SameButNumber(members', members) && BreaksAt(KindsOf(t), members', b') &&
                       Outcome(members', b') == err {
      BreakOutcome(t, members', b', stubs, v);
    }
  }

  lemma {:induction false} BreakLength(ks: Kinds, members: seq<Member>, b: Break)
    requires BreaksAt(ks, members, b)
    ensures if b.Complete? then ks == Flatten(JObj(members)) else |ks| < |Flatten(JObj(members))|
  {
    hide FlattenMembers, Flatten;
    var k := Count(members, b);
    FlattenObject(members);
    if b.Complete? || k == |members| {
      assert members[..k] == members;
    } else {
      MembersLength(members, k);
      MemberLength(members[k]);
    }
  }

  lemma {:induction false} FlattenObject(members: seq<Member>)
    ensures Flatten(JObj(members)) == [LBrace] + FlattenMembers(false, members) + [RBrace]
  {
    hide FlattenMembers;
  }

  lemma {:induction false} MemberLength(x: Member)
    ensures |FlattenMember(x)| == 2 + |Flatten(x.value)|
  {
  }

  /** Another number is as long, in lexemes. */
  lemma {:induction false} NumberLength(members: seq<Member>, members': seq<Member>)
    requires SameButNumber(members', members)
    ensures |Flatten(JObj(members'))| == |Flatten(JObj(members))|
    ensures SameKeys(members, members')
  {
    hide FlattenMembers;
    FlattenObject(members);
    FlattenObject(members');
    if members' != members {
      var k :| 0 <= k < |members| && members[k].value.JNum? && |members'| == |members| && members'[k].value.JNum? &&
               members' == members[k := Member(members[k].key, members'[k].value)];
      MembersLength(members, k);
      MembersLength(members', k);
      MemberLength(members[k]);
      MemberLength(members'[k]);
      assert members'[..k] == members[..k] && members'[k + 1..] == members[k + 1..];
    }
  }

  lemma {:induction false} MembersLength(members: seq<Member>, k: nat)
    requires k < |members|
    ensures |FlattenMembers(false, members)| ==
            |FlattenMembers(false, members[..k])| + |Sep(k > 0)| + |FlattenMember(members[k])| +
            |FlattenMembers(true, members[k + 1..])|
  {
    hide FlattenMembers, FlattenMember;
    assert members == members[..k] + members[k..] && members[k..] == [members[k]] + members[k + 1..];
    MembersAppend(false, members[..k], members[k..]);
    FlattenMembersCons(k > 0, members[k], members[k + 1..]);
  }

  predicate SameKeys(a: seq<Member>, b: seq<Member>) {
    |a| == |b| && forall i :: 0 <= i < |a| ==> a[i].key == b[i].key
  }

  lemma {:induction false} KeysDecide(a: seq<Member>, b: seq<Member>)
    requires SameKeys(a, b)
    ensures FirstAttachments(a) == FirstAttachments(b) && PlainKeys(a) == PlainKeys(b)
    decreases |a|
  {
    hide PlainKey;
    if a != [] {
      assert a[0].key == b[0].key;
      assert forall i :: 0 <= i < |a| - 1 ==> a[1..][i].key == b[1..][i].key;
      KeysDecide(a[1..], b[1..]);
    }
  }

  lemma {:induction false} ReplacedIndex(members: seq<Member>, v: Value)
    ensures forall k :: 0 <= k < |members| ==>
              Replaced(members, v)[k] == if k == FirstAttachments(members) then Member(ATTACHMENTS, v) else members[k]
  {
    hide Replaced, FirstAttachments;
    ReplacedAt(members, v);
  }

  /** Replacing one value does not change the number of lexemes of the rest. */
  lemma {:induction false} ReplacedNumber(members: seq<Member>, members': seq<Member>, v: Value)
    requires SameButNumber(members', members)
    ensures SameButNumber(Replaced(members', v), Replaced(members, v))
  {
    hide Replaced, FirstAttachments;
    if members' != members {
      var k :| 0 <= k < |members| && members[k].value.JNum? && |members'| == |members| && members'[k].value.JNum? &&
               members' == members[k := Member(members[k].key, members'[k].value)];
      var i, rm, rm' := FirstAttachments(members), Replaced(members, v), Replaced(members', v);
      KeysDecide(members, members');
      ReplacedIndex(members, v);
      ReplacedIndex(members', v);
      if k == i {
        assert rm' == rm;
      } else {
        assert rm' == rm[k := Member(rm[k].key, rm'[k].value)];
      }
    }
  }

  /**
   Of the documents that break off none is written whole: the output is the rewritten
   document if and only if the input was the document.
   */
  lemma {:induction false} OnlyWholeIsWhole(t: string, members: seq<Member>, stubs: string, v: Value)
    requires Begins(KindsOf(t), members) && IsStubs(stubs, v) && PlainKeys(members)
    ensures KindsOf(CopyText(t, EOF, stubs).out) == Flatten(JObj(Replaced(members, v))) <==>
            KindsOf(t) == Flatten(JObj(members))
  {
    hide KindsOf, CopyText, Flatten, Replaced, IsStubs, PlainKeys, FirstAttachments, SameButNumber, Begins, BreaksAt;
    var b, members' := BeginsBreaks(KindsOf(t), members);
    NumberLength(members, members');
    KeysDecide(members, members');
    BreakOutcome(t, members', b, stubs, v);
    BreakLength(KindsOf(t), members', b);
    ReplacedNumber(members, members', v);
    NumberLength(Replaced(members, v), Replaced(members', v));
    if b.Blank? {
      NilIsBad();
      FlattenObject(Replaced(members, v));
    } else {
      BreakLength(KindsOf(CopyText(t, EOF, stubs).out), Replaced(members', v), Written(members', b));
      WrittenComplete(members', b);
    }
  }

  lemma {:induction false} WrittenComplete(members: seq<Member>, b: Break)
    ensures Written(members, b).Complete? <==> b.Complete?
  {
  }

  /** The text of a document, cut at any character, is one of the texts considered here. */
  lemma {:induction false} CutDocumentBegins(t: string, m: nat, members: seq<Member>)
    requires KindsOf(t) == Flatten(JObj(members)) && m <= |t|
    ensures Begins(KindsOf(t[..m]), members)
  {
    hide KindsOf, Flatten;
    NothingBroken(JObj(members));
    LexCut.KindsOfPrefix(t, m);
  }

  // ----------------------------------------------------------------- malformed documents

  /** What the copy reports for a member that is missing or wrong; the end of the input is no error. */
  function MemberFault(lead: bool, tail: Kinds): Option<Error> {
    if tail == [] then None
    else if tail[0] == RBracket then Some(BadRequest(SyntaxError))
    else
      match KeyFault(lead, tail, EOF)
      case Some(e) => if e == EOF then None else Some(BadRequest(e))
      case None => ColonFault(tail[|Sep(lead)| + 1..], EOF)
  }

  /** The key that is written before its value is looked at. */
  function FaultKey(lead: bool, tail: Kinds): Option<string> {
    if tail == [] || tail[0] == RBracket || KeyFault(lead, tail, EOF).Some? then None
    else Some(tail[|Sep(lead)|].s)
  }

  predicate IsFault(lead: bool, tail: Kinds) {
    (tail != [] ==> tail[0] != RBrace) &&
    (tail == [] || tail[0] == RBracket || KeyFault(lead, tail, EOF).Some? ||
     ColonFault(tail[|Sep(lead)| + 1..], EOF).Some?)
  }

  lemma {:induction false} CopyFault(d: Dec, t: string, stubs: string)
    requires AtTop(d, t) && IsFault(Lead(d), d.rest)
    ensures CopyLoop(d, t, !Lead(d), stubs) ==
            Copied(match FaultKey(Lead(d), d.rest) case None => "" case Some(key) => MemberHead(Lead(d), key),
                   MemberFault(Lead(d), d.rest))
  {
    hide KindsOf, KindsAt, After, TokenStep, DecodeStep, RawValue, KeyFault, ColonFault, MemberHead;
    KindsAtEof(t);
    AfterToken(d, t);
    if d.rest == [] {
      CopyEnd(d, t, stubs);
    } else if d.rest[0] == RBracket {
      StrayBracket(d);
    } else if KeyFault(Lead(d), d.rest, EOF).Some? {
      KeyTokens(d);
    } else {
      CopyKeyFault(d, t, stubs);
    }
  }

  lemma {:induction false} KeyThenFault(d: Dec) returns (key: string, d1: Dec)
    requires AtMember(d) && KeyFault(Lead(d), d.rest, EOF).None? && d.end == EOF
    requires ColonFault(d.rest[|Sep(Lead(d))| + 1..], EOF).Some?
    ensures d.rest[|Sep(Lead(d))|] == Str(key) && TokenStep(d) == Step(Ok(Text(key)), d1) && |d1.rest| <= |d.rest|
    ensures DecodeStep(d1).res == Err(ColonFault(d.rest[|Sep(Lead(d))| + 1..], EOF).value)
  {
    hide TokenStep, DecodeStep, KeyFault, ColonFault;
    var rest;
    key, rest := KeyAt(Lead(d), d.rest, EOF);
    assert d.rest == Sep(Lead(d)) + [Str(key)] + rest;
    assert d.rest[|Sep(Lead(d))| + 1..] == rest && d.rest[|Sep(Lead(d))|] == Str(key);
    KeyReads(d, key, rest);
    d1 := At(d, rest, ObjectColon);
    ColonDecodes(d1);
  }

  lemma {:induction false} CopyKeyFault(d: Dec, t: string, stubs: string)
    requires AtTop(d, t) && KeyFault(Lead(d), d.rest, EOF).None?
    requires ColonFault(d.rest[|Sep(Lead(d))| + 1..], EOF).Some?
    ensures CopyLoop(d, t, !Lead(d), stubs) ==
            Copied(MemberHead(Lead(d), d.rest[|Sep(Lead(d))|].s), ColonFault(d.rest[|Sep(Lead(d))| + 1..], EOF))
  {
    hide KindsOf, KindsAt, After, TokenStep, DecodeStep, RawValue, KeyFault, ColonFault, Sep, KeyText;
    KindsAtEof(t);
    AfterToken(d, t);
    var key, d1 := KeyThenFault(d);
    AfterDecode(d1, After(t, |d.rest| - |d1.rest|));
  }

  lemma {:induction false} HeadKinds(lead: bool, key: string)
    requires PlainKey(key)
    ensures KindsOf(MemberHead(lead, key)) == Sep(lead) + [Str(key), Colon] && Starts(MemberHead(lead, key))
  {
    hide KindsOf, PlainKey;
    HeadReads(lead, key, "");
    NoKinds();
    assert MemberHead(lead, key) + "" == MemberHead(lead, key);
    assert Sep(lead) + [Str(key), Colon] + [] == Sep(lead) + [Str(key), Colon];
  }

  lemma {:induction false} StrayBracket(d: Dec)
    requires AtMember(d) && d.rest != [] && d.rest[0] == RBracket
    ensures TokenStep(d).res == Err(SyntaxError)
  {
  }

  /**
   Any text that goes wrong, or ends, behind complete members before the first `_attachments`:
   the error is that of the first fault, and what has been written are those members and
   perhaps a key.
   */
  lemma {:induction false} MalformedDocument(t: string, members: seq<Member>, tail: Kinds, stubs: string)
    requires KindsOf(t) == [LBrace] + (FlattenMembers(false, members) + tail) && NoAttachments(members)
    requires IsFault(members != [], tail)
    ensures var c, key := CopyText(t, EOF, stubs), FaultKey(members != [], tail);
            c.err == MemberFault(members != [], tail) &&
            (AllPlain(members) && (key.Some? ==> PlainKey(key.value)) ==>
               KindsOf(c.out) ==
               [LBrace] + (FlattenMembers(false, members) +
                           if key.Some? then Sep(members != []) + [Str(key.value), Colon] else []))
  {
    hide KindsOf, CopyLoop, CopyText, PlainKey, FlattenMembers, MemberFault, FaultKey, MemberHead, IsFault, Starts;
    var d, t1 := CopyOpens(t, FlattenMembers(false, members) + tail, stubs);
    var out, d2, t2 := CopyPrefix(d, t1, members, tail, stubs);
    CopyFault(d2, t2, stubs);
    var key := FaultKey(members != [], tail);
    var rest := if key.Some? then MemberHead(members != [], key.value) else "";
    if key.Some? && PlainKey(key.value) {
      HeadKinds(members != [], key.value);
    }
    BraceText(out + rest);
    NoKinds();
    NothingStarts();
    assert CopyText(t, EOF, stubs).out == "{" + (out + rest);
  }

  lemma {:induction false} NothingStarts()
    ensures Starts("")
  {
  }

  /** Text that is no object. */
  lemma {:induction false} NotAnObject(t: string, stubs: string)
    requires KindsOf(t) != [] && KindsOf(t)[0] != LBrace
    ensures var c, k := CopyText(t, EOF, stubs), KindsOf(t)[0];
            c.out == "" &&
            c.err == Some(if k == LBracket || k.Str? || k.Num? || k == True || k == False || k == Null
                          then BadRequest(UnexpectedToken)
                          else if k.Cut? then UnexpectedEOF
                          else SyntaxError)
  {
    hide KindsOf, After, CopyLoop, ScanItems, ScanMembers;
    AfterToken(NewDec(KindsOf(t), EOF), t);
  }

  // -------------------------------------------------------------- behind a complete object

  /** Behind the closing brace, at the next lexeme. */
  predicate AtTrailing(d: Dec, t: string) {
    d == NewDec(KindsOf(t), EOF)
  }

  predicate IsNumberOrName(k: Kind) {
    k.Num? || k == True || k == False || k == Null
  }

  /** What the copy reports for what follows; numbers and names are passed over. */
  function TrailingFault(ks: Kinds): Option<Error> {
    if ks == [] then None
    else if IsNumberOrName(ks[0]) then TrailingFault(ks[1..])
    else if ks[0] == LBrace || ks[0] == LBracket then Some(UnexpectedToken)
    else if ks[0].Cut? then Some(BadRequest(UnexpectedEOF))
    else Some(BadRequest(SyntaxError))
  }

  lemma {:induction false} CopyTrailing(d: Dec, t: string, first: bool, stubs: string)
    requires AtTrailing(d, t) && forall i :: 0 <= i < |d.rest| ==> !d.rest[i].Str?
    ensures CopyLoop(d, t, first, stubs) == Copied("", TrailingFault(d.rest))
    decreases |d.rest|
  {
    hide KindsOf, After;
    AfterToken(d, t);
    if d.rest != [] && IsNumberOrName(d.rest[0]) {
      ScalarPasses(d);
      CopyTrailing(TokenStep(d).dec, After(t, 1), first, stubs);
    } else if d.rest != [] && d.rest[0].Cut? {
      assert ScanValue(d.rest).Incomplete?;
    }
  }

  lemma {:induction false} ScalarPasses(d: Dec)
    requires d == NewDec(d.rest, EOF) && d.rest != [] && IsNumberOrName(d.rest[0])
    ensures TokenStep(d).res.Ok? && TokenStep(d).res.value.Scalar? && TokenStep(d).dec == NewDec(d.rest[1..], EOF)
  {
  }

  /** An object without attachments that something other than a string follows: it is copied, and the rest is not. */
  lemma {:induction false} TrailingText(t: string, members: seq<Member>, more: Kinds, stubs: string)
    requires KindsOf(t) == Flatten(JObj(members)) + more && NoAttachments(members)
    requires forall i :: 0 <= i < |more| ==> !more[i].Str?
    ensures var c := CopyText(t, EOF, stubs);
            c.err == TrailingFault(more) &&
            (AllPlain(members) ==> KindsOf(c.out) == Flatten(JObj(members)))
  {
    hide KindsOf, KindsAt, CopyLoop, CopyText, PlainKey, FlattenMembers, TrailingFault, Starts;
    var tail := [RBrace] + more;
    FlattenObject(members);
    assert KindsOf(t) == [LBrace] + (FlattenMembers(false, members) + tail);
    var d, t1 := CopyOpens(t, FlattenMembers(false, members) + tail, stubs);
    var out, d2, t2 := CopyPrefix(d, t1, members, tail, stubs);
    CloseThenTrailing(d2, t2, more, stubs);
    BraceText(out + "}");
    BraceKinds();
    PunctStarts();
    assert CopyText(t, EOF, stubs).out == "{" + (out + "}");
    assert [LBrace] + (FlattenMembers(false, members) + [RBrace]) == Flatten(JObj(members));
  }

  lemma {:induction false} CloseThenTrailing(d: Dec, t: string, more: Kinds, stubs: string)
    requires AtTop(d, t) && d.rest == [RBrace] + more && forall i :: 0 <= i < |more| ==> !more[i].Str?
    ensures CopyLoop(d, t, !Lead(d), stubs) == Copied("}", TrailingFault(more))
  {
    hide KindsOf, After, TrailingFault;
    AfterToken(d, t);
    assert d.rest[1..] == more;
    assert TokenStep(d) == Step(Ok(Delim('}')), NewDec(more, EOF));
    CopyTrailing(NewDec(more, EOF), After(t, 1), !Lead(d), stubs);
  }
}
