/**
 JSON values (sections 2 to 6 of RFC 8259), their lexemes, and the scanner that
 reads one balanced value off a lexeme stream.
 */
module Json {

  datatype Kind =
    | LBrace | RBrace | LBracket | RBracket | Colon | Comma
    | Str(s: string) | Num(text: string) | True | False | Null
    | Bad               // bytes that are no JSON token
    | Cut(str: bool)   // a string, or else a name or number, that the input breaks off in

  datatype Member = Member(key: string, value: Value)

  datatype Value =
    | JNull
    | JBool(b: bool)
    | JNum(text: string)
    | JStr(s: string)
    | JArr(items: seq<Value>)
    | JObj(members: seq<Member>)

  type Kinds = seq<Kind>

  predicate Whole(k: Kind) {
    !k.Bad? && !k.Cut?
  }

  predicate AllWhole(ks: Kinds) {
    forall i :: 0 <= i < |ks| ==> Whole(ks[i])
  }

  lemma {:induction false} AllWholeCons(k: Kind, ks: Kinds)
    requires AllWhole([k] + ks)
    ensures Whole(k) && AllWhole(ks)
  {
    assert ([k] + ks)[0] == k;
    assert forall i :: 0 <= i < |ks| ==> ([k] + ks)[i + 1] == ks[i];
  }

  predicate IsScalar(v: Value) {
    !v.JArr? && !v.JObj?
  }

  /** The comma that separates an item from the one before it. */
  function Sep(lead: bool): Kinds {
    if lead then [Comma] else []
  }

  function Flatten(v: Value): (ks: Kinds)
    ensures |ks| > 0
    ensures IsScalar(v) ==> |ks| == 1
    decreases v, 2
  {
    match v
    case JNull => [Null]
    case JBool(b) => [if b then True else False]
    case JNum(t) => [Num(t)]
    case JStr(s) => [Str(s)]
    case JArr(items) => [LBracket] + FlattenItems(false, items) + [RBracket]
    case JObj(members) => [LBrace] + FlattenMembers(false, members) + [RBrace]
  }

  /** The lexemes between the brackets; `lead` asks for a comma in front of the first item. */
  function FlattenItems(lead: bool, items: seq<Value>): Kinds
    decreases items, 0
  {
    if items == [] then []
    else Sep(lead) + Flatten(items[0]) + FlattenItems(true, items[1..])
  }

  function FlattenMember(m: Member): Kinds
    decreases m, 3
  {
    [Str(m.key), Colon] + Flatten(m.value)
  }

  function FlattenMembers(lead: bool, members: seq<Member>): Kinds
    decreases members, 0
  {
    if members == [] then []
    else Sep(lead) + FlattenMember(members[0]) + FlattenMembers(true, members[1..])
  }

  // ---------------------------------------------------------------- scanning

  datatype Scan<+T> =
    | Done(value: T, rest: Kinds)
    | Incomplete // the stream ended inside the value
    | Malformed

  function ScanValue(ks: Kinds): (r: Scan<Value>)
    ensures r.Done? ==> |r.rest| < |ks|
    decreases |ks|, 0
  {
    if ks == [] then Incomplete
    else
      match ks[0]
      case Null => Done(JNull, ks[1..])
      case True => Done(JBool(true), ks[1..])
      case False => Done(JBool(false), ks[1..])
      case Num(t) => Done(JNum(t), ks[1..])
      case Str(s) => Done(JStr(s), ks[1..])
      case LBracket => (
        match ScanItems(false, ks[1..])
        case Done(items, rest) => Done(JArr(items), rest)
        case Incomplete => Incomplete
        case Malformed => Malformed)
      case LBrace => (
        match ScanMembers(false, ks[1..])
        case Done(members, rest) => Done(JObj(members), rest)
        case Incomplete => Incomplete
        case Malformed => Malformed)
      case Cut(_) => Incomplete
      case _ => Malformed
  }

  function ScanItems(lead: bool, ks: Kinds): (r: Scan<seq<Value>>)
    ensures r.Done? ==> |r.rest| < |ks|
    decreases |ks|, 1
  {
    if ks == [] then Incomplete
    else if ks[0] == RBracket then Done([], ks[1..])
    else if lead && ks[0] != Comma then Malformed
    else
      match ScanValue(ks[|Sep(lead)|..])
      case Incomplete => Incomplete
      case Malformed => Malformed
      case Done(v, rest) =>
        match ScanItems(true, rest)
        case Done(vs, rest') => Done([v] + vs, rest')
        case Incomplete => Incomplete
        case Malformed => Malformed
  }

  function ScanMember(ks: Kinds): (r: Scan<Member>)
    ensures r.Done? ==> |r.rest| < |ks|
    decreases |ks|, 1
  {
    if ks == [] then Incomplete
    else if ks[0] == Cut(true) then Incomplete
    else if !ks[0].Str? then Malformed
    else if |ks| == 1 then Incomplete
    else if ks[1] != Colon then Malformed
    else
      match ScanValue(ks[2..])
      case Done(v, rest) => Done(Member(ks[0].s, v), rest)
      case Incomplete => Incomplete
      case Malformed => Malformed
  }

  function ScanMembers(lead: bool, ks: Kinds): (r: Scan<seq<Member>>)
    ensures r.Done? ==> |r.rest| < |ks|
    decreases |ks|, 2
  {
    if ks == [] then Incomplete
    else if ks[0] == RBrace then Done([], ks[1..])
    else if lead && ks[0] != Comma then Malformed
    else
      match ScanMember(ks[|Sep(lead)|..])
      case Incomplete => Incomplete
      case Malformed => Malformed
      case Done(m, rest) =>
        match ScanMembers(true, rest)
        case Done(ms, rest') => Done([m] + ms, rest')
        case Incomplete => Incomplete
        case Malformed => Malformed
  }

  lemma {:induction false} Regroup(a: Kinds, b: Kinds, c: Kinds, d: Kinds)
    ensures a + (b + (c + d)) == a + b + c + d
  {
  }

  // ------------------------------------------------- printer/scanner round trip

  lemma {:induction false} ScanFlatten(v: Value, rest: Kinds)
    ensures ScanValue(Flatten(v) + rest) == Done(v, rest)
    decreases v, 2
  {
    var ks := Flatten(v) + rest;
    match v
    case JArr(items) =>
      assert ks[1..] == FlattenItems(false, items) + ([RBracket] + rest);
      ScanFlattenItems(false, items, rest);
    case JObj(members) =>
      assert ks[1..] == FlattenMembers(false, members) + ([RBrace] + rest);
      ScanFlattenMembers(false, members, rest);
    case _ =>
      assert ks[1..] == rest;
  }

  lemma {:induction false} FlattenHead(v: Value)
    ensures Flatten(v)[0] !in {RBracket, RBrace, Comma, Colon} && Whole(Flatten(v)[0])
  {
  }

  lemma {:induction false} ScanFlattenItems(lead: bool, items: seq<Value>, rest: Kinds)
    ensures ScanItems(lead, FlattenItems(lead, items) + ([RBracket] + rest)) == Done(items, rest)
    decreases items, 0
  {
    var tail := [RBracket] + rest;
    var ks := FlattenItems(lead, items) + tail;
    if items == [] {
      assert ks == tail && ks[1..] == rest;
    } else {
      var v, more := items[0], FlattenItems(true, items[1..]) + tail;
      Regroup(Sep(lead), Flatten(v), FlattenItems(true, items[1..]), tail);
      assert ks[|Sep(lead)|..] == Flatten(v) + more;
      FlattenHead(v);
      assert !lead ==> ks[0] == Flatten(v)[0];
      ScanFlatten(v, more);
      ScanFlattenItems(true, items[1..], rest);
      assert items == [v] + items[1..];
    }
  }

  lemma {:induction false} ScanFlattenMember(m: Member, rest: Kinds)
    ensures ScanMember(FlattenMember(m) + rest) == Done(m, rest)
    decreases m, 3
  {
    var ks := FlattenMember(m) + rest;
    ScanFlatten(m.value, rest);
    assert ks[2..] == Flatten(m.value) + rest;
  }

  lemma {:induction false} ScanFlattenMembers(lead: bool, members: seq<Member>, rest: Kinds)
    ensures ScanMembers(lead, FlattenMembers(lead, members) + ([RBrace] + rest)) == Done(members, rest)
    decreases members, 0
  {
    var tail := [RBrace] + rest;
    var ks := FlattenMembers(lead, members) + tail;
    if members == [] {
      assert ks == tail && ks[1..] == rest;
    } else {
      var m, more := members[0], FlattenMembers(true, members[1..]) + tail;
      Regroup(Sep(lead), FlattenMember(m), FlattenMembers(true, members[1..]), tail);
      assert ks[|Sep(lead)|..] == FlattenMember(m) + more;
      assert !lead ==> ks[0] == Str(m.key);
      hide Flatten, FlattenMember, ScanMember;
      ScanFlattenMember(m, more);
      ScanFlattenMembers(true, members[1..], rest);
      assert members == [m] + members[1..];
    }
  }

  /** Whatever the scanner accepts is the text of the value it returns. */
  lemma {:induction false} ScanSound(ks: Kinds)
    requires ScanValue(ks).Done?
    ensures ks == Flatten(ScanValue(ks).value) + ScanValue(ks).rest
    decreases |ks|, 0
  {
    match ks[0]
    case LBracket => ScanItemsSound(false, ks[1..]);
    case LBrace => ScanMembersSound(false, ks[1..]);
    case _ =>
  }

  lemma {:induction false} ScanItemsSound(lead: bool, ks: Kinds)
    requires ScanItems(lead, ks).Done?
    ensures var r := ScanItems(lead, ks);
            ks == FlattenItems(lead, r.value) + ([RBracket] + r.rest)
    decreases |ks|, 1
  {
    if ks[0] == RBracket {
      assert FlattenItems(lead, []) == [];
    } else {
      var ks' := ks[|Sep(lead)|..];
      var v := ScanValue(ks');
      ScanSound(ks');
      ScanItemsSound(true, v.rest);
      var more := ScanItems(true, v.rest);
      FlattenItemsCons(lead, v.value, more.value);
      Regroup(Sep(lead), Flatten(v.value), FlattenItems(true, more.value), [RBracket] + more.rest);
      assert ks == Sep(lead) + ks';
    }
  }

  lemma {:induction false} FlattenItemsCons(lead: bool, v: Value, vs: seq<Value>)
    ensures FlattenItems(lead, [v] + vs) == Sep(lead) + Flatten(v) + FlattenItems(true, vs)
  {
    assert ([v] + vs)[1..] == vs;
  }

  lemma {:induction false} FlattenMembersCons(lead: bool, m: Member, ms: seq<Member>)
    ensures FlattenMembers(lead, [m] + ms) == Sep(lead) + FlattenMember(m) + FlattenMembers(true, ms)
  {
    assert ([m] + ms)[1..] == ms;
  }

  lemma {:induction false} ScanMemberSound(ks: Kinds)
    requires ScanMember(ks).Done?
    ensures ks == FlattenMember(ScanMember(ks).value) + ScanMember(ks).rest
    decreases |ks|, 1
  {
    ScanSound(ks[2..]);
    assert ks == [ks[0], ks[1]] + ks[2..];
  }

  lemma {:induction false} ScanMembersSound(lead: bool, ks: Kinds)
    requires ScanMembers(lead, ks).Done?
    ensures var r := ScanMembers(lead, ks);
            ks == FlattenMembers(lead, r.value) + ([RBrace] + r.rest)
    decreases |ks|, 2
  {
    if ks[0] == RBrace {
      assert FlattenMembers(lead, []) == [];
    } else {
      var ks' := ks[|Sep(lead)|..];
      var m := ScanMember(ks');
      ScanMemberSound(ks');
      ScanMembersSound(true, m.rest);
      var more := ScanMembers(true, m.rest);
      FlattenMembersCons(lead, m.value, more.value);
      Regroup(Sep(lead), FlattenMember(m.value), FlattenMembers(true, more.value), [RBrace] + more.rest);
      assert ks == Sep(lead) + ks';
    }
  }

  /** A stream starts with the text of a value exactly when the scanner accepts it. */
  lemma {:induction false} ScanExact(ks: Kinds, v: Value, rest: Kinds)
    ensures ScanValue(ks) == Done(v, rest) <==> ks == Flatten(v) + rest
  {
    if ks == Flatten(v) + rest {
      ScanFlatten(v, rest);
    }
    if ScanValue(ks) == Done(v, rest) {
      ScanSound(ks);
    }
  }

  // --------------------------------------------------------------- broken-off values

  /** What is left of a lexeme that breaks off; a number may have become another number. */
  predicate IsStump(x: Kind, k: Kind) {
    match k
    case Str(_) => x == Cut(true)
    case Num(_) => x == Cut(false) || x.Num?
    case True | False | Null => x == Cut(false)
    case _ => false
  }

  /** `part` is what lexemes `ks` become that break off before their end, perhaps inside a lexeme. */
  predicate BrokenOff(part: Kinds, ks: Kinds) {
    (part <= ks && part != ks) ||
    (part != [] && |part| <= |ks| &&
     var n := |part| - 1; part[..n] == ks[..n] && IsStump(part[n], ks[n]))
  }

  /** They break off in `a`, or in what follows it. */
  lemma {:induction false} BrokenOffIn(part: Kinds, a: Kinds, b: Kinds) returns (q: Kinds)
    requires BrokenOff(part, a + b) && b != []
    ensures if BrokenOff(part, a) then |part| <= |a| else part == a + q && BrokenOff(q, b)
  {
    q := [];
    if !BrokenOff(part, a) {
      var ab := a + b;
      assert forall i :: 0 <= i < |a| ==> ab[i] == a[i];
      assert forall i :: 0 <= i < |b| ==> ab[|a| + i] == b[i];
      NotBrokenOff(part, a, b);
      q := part[|a|..];
    }
  }

  lemma {:induction false} NotBrokenOff(part: Kinds, a: Kinds, b: Kinds)
    requires BrokenOff(part, a + b) && !BrokenOff(part, a)
    ensures |a| <= |part| && part[..|a|] == a
  {
    var ab := a + b;
    assert forall i :: 0 <= i < |a| ==> ab[i] == a[i];
    if |part| <= |a| && part != [] {
      var n := |part| - 1;
      assert part[..n] == a[..n];
      if part[n] == a[n] {
        assert part == a[..|part|];
      }
    }
  }

  lemma {:induction false} BrokenOffBehind(part: Kinds, open: Kind, rest: Kinds) returns (q: Kinds)
    requires BrokenOff(part, [open] + rest) && part != [] && rest != [] && (open == LBracket || open == LBrace)
    ensures part[0] == open && part[1..] == q && BrokenOff(q, rest)
  {
    q := BrokenOffIn(part, [open], rest);
  }

  /** A value that breaks off anywhere is incomplete, and never malformed, unless it is a number. */
  lemma {:induction false} BrokenOffIncomplete(v: Value, part: Kinds)
    requires BrokenOff(part, Flatten(v)) && (part == [] || !part[0].Num?)
    ensures ScanValue(part).Incomplete?
    decreases v, 2
  {
    if part != [] {
      hide ScanItems, ScanMembers, FlattenItems, FlattenMembers;
      if v.JArr? {
        var rest := FlattenItems(false, v.items) + [RBracket];
        assert Flatten(v) == [LBracket] + rest;
        var q := BrokenOffBehind(part, LBracket, rest);
        ItemsIncomplete(false, v.items, q);
      } else if v.JObj? {
        var rest := FlattenMembers(false, v.members) + [RBrace];
        assert Flatten(v) == [LBrace] + rest;
        var q := BrokenOffBehind(part, LBrace, rest);
        MembersIncomplete(false, v.members, q);
      }
    }
  }

  lemma {:induction false} ItemsIncomplete(lead: bool, items: seq<Value>, part: Kinds)
    requires BrokenOff(part, FlattenItems(lead, items) + [RBracket])
    ensures ScanItems(lead, part).Incomplete?
    decreases items, 0
  {
    if part != [] && items != [] {
      hide Flatten, ScanValue, IsStump, BrokenOff;
      var v, more := items[0], FlattenItems(true, items[1..]) + [RBracket];
      assert Sep(lead) + Flatten(v) + FlattenItems(true, items[1..]) + [RBracket] == Sep(lead) + (Flatten(v) + more);
      var q := BrokenOffSep(lead, part, Flatten(v) + more);
      FlattenHead(v);
      if !lead {
        BrokenOffHead(part, Flatten(v) + more);
      }
      var q2 := BrokenOffIn(q, Flatten(v), more);
      if BrokenOff(q, Flatten(v)) {
        NumberOrIncomplete(v, q);
      } else {
        ScanFlatten(v, q2);
        ItemsIncomplete(true, items[1..], q2);
      }
    }
  }

  /** The separator in front of something that breaks off. */
  lemma {:induction false} BrokenOffSep(lead: bool, part: Kinds, ks: Kinds) returns (q: Kinds)
    requires BrokenOff(part, Sep(lead) + ks) && part != [] && ks != []
    ensures part == Sep(lead) + q && BrokenOff(q, ks) && q == part[|Sep(lead)|..]
  {
    if lead {
      q := BrokenOffIn(part, [Comma], ks);
    } else {
      q := part;
      assert Sep(lead) + ks == ks;
    }
  }

  /** A container does not end where an item or a member breaks off. */
  lemma {:induction false} BrokenOffHead(part: Kinds, ks: Kinds)
    requires BrokenOff(part, ks) && part != [] && !ks[0].RBracket? && !ks[0].RBrace?
    ensures !part[0].RBracket? && !part[0].RBrace?
  {
  }

  lemma {:induction false} NumberOrIncomplete(v: Value, part: Kinds)
    requires BrokenOff(part, Flatten(v))
    ensures ScanValue(part).Incomplete? || (ScanValue(part).Done? && ScanValue(part).rest == [])
    decreases v, 3
  {
    hide ScanItems, ScanMembers;
    if part == [] || !part[0].Num? {
      BrokenOffIncomplete(v, part);
    } else {
      assert IsScalar(v);
    }
  }

  lemma {:induction false} MembersIncomplete(lead: bool, members: seq<Member>, part: Kinds)
    requires BrokenOff(part, FlattenMembers(lead, members) + [RBrace])
    ensures ScanMembers(lead, part).Incomplete?
    decreases members, 0
  {
    if part != [] && members != [] {
      hide Flatten, FlattenMember, ScanMember, IsStump, BrokenOff;
      var m, more := members[0], FlattenMembers(true, members[1..]) + [RBrace];
      assert Sep(lead) + FlattenMember(m) + FlattenMembers(true, members[1..]) + [RBrace] ==
             Sep(lead) + (FlattenMember(m) + more);
      var q := BrokenOffSep(lead, part, FlattenMember(m) + more);
      MemberHeadKind(m);
      if !lead {
        BrokenOffHead(part, FlattenMember(m) + more);
      }
      var q2 := BrokenOffIn(q, FlattenMember(m), more);
      if BrokenOff(q, FlattenMember(m)) {
        MemberIncomplete(m, q);
      } else {
        ScanFlattenMember(m, q2);
        MembersIncomplete(true, members[1..], q2);
      }
    }
  }

  lemma {:induction false} MemberHeadKind(m: Member)
    ensures FlattenMember(m) != [] && FlattenMember(m)[0] == Str(m.key)
  {
  }

  lemma {:induction false} MemberIncomplete(m: Member, part: Kinds)
    requires BrokenOff(part, FlattenMember(m))
    ensures ScanMember(part).Incomplete? || (ScanMember(part).Done? && ScanMember(part).rest == [])
    decreases m, 4
  {
    hide ScanValue, Flatten;
    var key := [Str(m.key), Colon];
    var q := BrokenOffIn(part, key, Flatten(m.value));
    if BrokenOff(part, key) {
      assert |part| == 0 || part[0] == Str(m.key) || part == [Cut(true)];
    } else {
      assert part[2..] == q;
      NumberOrIncomplete(m.value, q);
    }
  }
}
