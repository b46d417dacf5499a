/** The metadata that surrounds a row array: rowsMeta (rows.go) and changesMeta (changes.go). */
module Metadata {
  import opened Errors
  import opened Json
  import opened Lexer
  import opened Numerals
  import opened Decoding

  /** A sequence ID is known here by the value whose source text it is, if there was one. */
  datatype Meta =
    | NoMeta
    | RowsMeta(offset: int, totalRows: int, updateSeq: Option<Value>, warning: string, bookmark: string)
    | ChangesMeta(lastSeq: Option<Value>, pending: int)

  const EMPTY_ROWS_META := RowsMeta(0, 0, None, "", "")
  const EMPTY_CHANGES_META := ChangesMeta(None, 0)

  const MIN_INT64 := -0x8000_0000_0000_0000
  const MAX_INT64 := 0x7FFF_FFFF_FFFF_FFFF

  function DigitsValue(t: string): nat
    requires DigitsLen(t) == |t|
    decreases |t|
  {
    if t == "" then 0
    else
      DigitsPrefix(t, |t| - 1);
      DigitsAreDigits(t, |t| - 1);
      DigitsValue(t[..|t| - 1]) * 10 + (t[|t| - 1] as int - '0' as int)
  }

  lemma {:induction false} DigitsPrefix(t: string, n: nat)
    requires DigitsLen(t) == |t| && n <= |t|
    ensures DigitsLen(t[..n]) == n
  {
    if n > 0 {
      DigitsPrefix(t[1..], n - 1);
      assert t[..n][1..] == t[1..][..n - 1];
    }
  }

  lemma {:induction false} DigitsAreDigits(t: string, i: nat)
    requires i < DigitsLen(t)
    ensures '0' <= t[i] <= '9'
  {
    if i > 0 {
      DigitsAreDigits(t[1..], i - 1);
    }
  }

  /** A JSON number as an int64; fractions, exponents and overflow do not fit. */
  function ParseInt64(t: string): (r: Option<int>)
    ensures r.Some? ==> MIN_INT64 <= r.value <= MAX_INT64
  {
    var neg := t != "" && t[0] == '-';
    var u := if neg then t[1..] else t;
    if u == "" || DigitsLen(u) != |u| then None
    else
      var n: int := if neg then 0 - DigitsValue(u) else DigitsValue(u);
      if MIN_INT64 <= n <= MAX_INT64 then Some(n) else None
  }

  lemma {:induction false} DigitsLenExact(t: string)
    ensures DigitsLen(t) == |t| <==> AllDigits(t)
  {
    if t != "" {
      DigitsLenExact(t[1..]);
      assert AllDigits(t) <==> IsDigit(t[0]) && AllDigits(t[1..]) by {
        assert t == [t[0]] + t[1..];
      }
    }
  }

  lemma {:induction false} DigitsValueIsSum(t: string)
    requires AllDigits(t) && DigitsLen(t) == |t|
    ensures DigitsValue(t) == DigitSum(t)
    decreases |t|
  {
    if t != "" {
      var n := |t| - 1;
      DigitsPrefix(t, n);
      DigitsValueIsSum(t[..n]);
      SumSnoc(t[..n], t[n]);
      assert t == t[..n] + [t[n]];
    }
  }

  /** Exactly the decimal numerals of 64-bit integers are accepted, with their values. */
  lemma {:induction false} ParseInt64Exact(t: string, n: int)
    ensures ParseInt64(t) == Some(n) <==>
            IsNumeral(t, n) && -9_223_372_036_854_775_808 <= n <= 9_223_372_036_854_775_807
  {
    hide DigitsValue;
    var u := if t != "" && t[0] == '-' then t[1..] else t;
    DigitsLenExact(u);
    if AllDigits(u) {
      DigitsValueIsSum(u);
    }
  }

  /** Decoding into an int64 field; null leaves the field alone. */
  function StoreInt(field: int, v: Value): Result<int> {
    if v.JNull? then Ok(field)
    else if v.JNum? && ParseInt64(v.text).Some? then Ok(ParseInt64(v.text).value)
    else Err(TypeMismatch)
  }

  function StoreString(field: string, v: Value): Result<string> {
    if v.JNull? then Ok(field) else if v.JStr? then Ok(v.s) else Err(TypeMismatch)
  }

  function TrimLeft(t: string): string {
    if t != "" && t[0] == '\"' then TrimLeft(t[1..]) else t
  }

  function TrimRight(t: string): string {
    if t != "" && t[|t| - 1] == '\"' then TrimRight(t[..|t| - 1]) else t
  }

  predicate OnlyQuotes(t: string) {
    forall i :: 0 <= i < |t| ==> t[i] == '\"'
  }

  /** `s` between quotes, as many as there are on either side. */
  ghost predicate IsTrimmed(s: string, t: string) {
    (s == "" || (s[0] != '\"' && s[|s| - 1] != '\"')) &&
    exists a, b :: OnlyQuotes(a) && OnlyQuotes(b) && t == a + s + b
  }

  lemma {:induction false} TrimLeftTrims(t: string) returns (a: string)
    ensures OnlyQuotes(a) && t == a + TrimLeft(t) && (TrimLeft(t) != "" ==> TrimLeft(t)[0] != '\"')
  {
    a := "";
    if t != "" && t[0] == '\"' {
      a := TrimLeftTrims(t[1..]);
      assert t == [t[0]] + t[1..];
      a := [t[0]] + a;
    }
  }

  lemma {:induction false} TrimRightTrims(t: string) returns (b: string)
    ensures var s := TrimRight(t);
            OnlyQuotes(b) && t == s + b && (s != "" ==> s[|s| - 1] != '\"')
    decreases |t|
  {
    b := "";
    if t != "" && t[|t| - 1] == '\"' {
      var n := |t| - 1;
      b := TrimRightTrims(t[..n]);
      assert t == t[..n] + [t[n]];
      b := b + [t[n]];
    }
  }

  /** strings.Trim with a quote as its cutset. */
  lemma {:induction false} TrimTrims(t: string)
    ensures IsTrimmed(TrimRight(TrimLeft(t)), t)
  {
    var a := TrimLeftTrims(t);
    var u := TrimLeft(t);
    var b := TrimRightTrims(u);
    var s := TrimRight(u);
    assert t == a + s + b;
    assert s != "" ==> s[0] == u[0];
  }

  /** There is only one way to trim. */
  lemma {:induction false} TrimmedIsUnique(s: string, s': string, t: string)
    requires IsTrimmed(s, t) && IsTrimmed(s', t)
    ensures s == s'
  {
    var a, b :| OnlyQuotes(a) && OnlyQuotes(b) && t == a + s + b;
    var a', b' :| OnlyQuotes(a') && OnlyQuotes(b') && t == a' + s' + b';
    TrimmedBegins(a, s, b, a', s', b', t);
    TrimmedBegins(a', s', b', a, s, b, t);
    if s != "" && s' != "" {
      TrimmedEnds(a, s, b, a', s', b', t);
      TrimmedEnds(a', s', b', a, s, b, t);
      assert s == t[|a|..|t| - |b|] && s' == t[|a'|..|t| - |b'|];
    }
  }

  lemma {:induction false} TrimmedBegins(
      a: string, s: string, b: string, a': string, s': string, b': string, t: string)
    requires t == a + s + b == a' + s' + b' && OnlyQuotes(a) && OnlyQuotes(b) && OnlyQuotes(a') && OnlyQuotes(b')
    requires s != "" ==> s[0] != '\"'
    ensures s != "" ==> s' != "" && |a'| <= |a|
  {
    assert forall i :: 0 <= i < |a'| ==> t[i] == a'[i];
    QuotedEnd(a' + s', b', t);
    if s != "" {
      assert t[|a|] == s[0];
    }
  }

  lemma {:induction false} QuotedEnd(u: string, b: string, t: string)
    requires t == u + b && OnlyQuotes(b)
    ensures forall i :: |u| <= i < |t| ==> t[i] == '\"'
  {
    assert forall i :: |u| <= i < |t| ==> t[i] == b[i - |u|];
  }

  lemma {:induction false} TrimmedEnds(
      a: string, s: string, b: string, a': string, s': string, b': string, t: string)
    requires t == a + s + b == a' + s' + b' && OnlyQuotes(b')
    requires s != "" && s[|s| - 1] != '\"'
    ensures |b'| <= |b|
  {
    assert t[|t| - |b| - 1] == s[|s| - 1];
    QuotedEnd(a' + s', b', t);
  }

  /** sequenceID.UnmarshalJSON: the source text of any value, null included, stripped of quotes. */
  function SequenceID(source: string): string {
    TrimRight(TrimLeft(source))
  }

  function SequenceKey(m: Meta): string {
    if m.RowsMeta? then "update_seq" else "last_seq"
  }

  /** The value that the sequence ID was read from. */
  function SequenceOf(m: Meta): Option<Value> {
    match m
    case NoMeta => None
    case RowsMeta(_, _, id, _, _) => id
    case ChangesMeta(id, _) => id
  }

  /** Decodes one metadata member into its field; unknown members are consumed and dropped. */
  function Store(m: Meta, key: string, v: Value): Result<Meta> {
    match m
    case NoMeta => Ok(m)
    case RowsMeta(offset, totalRows, _, warning, bookmark) =>
      if key == "update_seq" then Ok(m.(updateSeq := Some(v)))
      else if key == "offset" then
        match StoreInt(offset, v)
        case Ok(n) => Ok(m.(offset := n))
        case Err(e) => Err(e)
      else if key == "total_rows" then
        match StoreInt(totalRows, v)
        case Ok(n) => Ok(m.(totalRows := n))
        case Err(e) => Err(e)
      else if key == "warning" then
        match StoreString(warning, v)
        case Ok(s) => Ok(m.(warning := s))
        case Err(e) => Err(e)
      else if key == "bookmark" then
        match StoreString(bookmark, v)
        case Ok(s) => Ok(m.(bookmark := s))
        case Err(e) => Err(e)
      else Ok(m)
    case ChangesMeta(_, pending) =>
      if key == "last_seq" then Ok(m.(lastSeq := Some(v)))
      else if key == "pending" then
        match StoreInt(pending, v)
        case Ok(n) => Ok(m.(pending := n))
        case Err(e) => Err(e)
      else Ok(m)
  }

  datatype MetaStep = MetaStep(err: Option<Error>, dec: Dec, meta: Meta)

  /** iter.parseMeta: without a metadata object nothing is consumed. */
  function ParseMeta(d: Dec, m: Meta, key: string): (s: MetaStep)
    ensures |s.dec.rest| <= |d.rest| && s.dec.end == d.end
    ensures s.meta.NoMeta? <==> m.NoMeta?
  {
    if m.NoMeta? then MetaStep(None, d, m)
    else
      var s := DecodeStep(d);
      match s.res
      case Err(e) => MetaStep(Some(e), s.dec, m)
      case Ok(v) =>
        match Store(m, key, v)
        case Err(e) => MetaStep(Some(e), s.dec, m)
        case Ok(m') => MetaStep(None, s.dec, m')
  }

  // ------------------------------------------------ what a run of members leaves

  function StoreAll(m: Meta, members: seq<Member>): Result<Meta>
    decreases |members|
  {
    if members == [] then Ok(m)
    else
      match Store(m, members[0].key, members[0].value)
      case Err(e) => Err(e)
      case Ok(m') => StoreAll(m', members[1..])
  }

  predicate FitsInt(v: Value) {
    v.JNull? || (v.JNum? && ParseInt64(v.text).Some?)
  }

  predicate FitsString(v: Value) {
    v.JNull? || v.JStr?
  }

  /** A member whose value its field accepts. */
  predicate Fits(m: Meta, x: Member) {
    match m
    case NoMeta => true
    case RowsMeta(_, _, _, _, _) =>
      (x.key == "offset" || x.key == "total_rows" ==> FitsInt(x.value)) &&
      (x.key == "warning" || x.key == "bookmark" ==> FitsString(x.value))
    case ChangesMeta(_, _) =>
      x.key == "pending" ==> FitsInt(x.value)
  }

  predicate SameSort(m: Meta, m': Meta) {
    (m.NoMeta? <==> m'.NoMeta?) && (m.RowsMeta? <==> m'.RowsMeta?)
  }

  lemma {:induction false} StoreFits(m: Meta, x: Member)
    ensures if Fits(m, x) then Store(m, x.key, x.value).Ok? else Store(m, x.key, x.value) == Err(TypeMismatch)
    ensures Store(m, x.key, x.value).Ok? ==> SameSort(m, Store(m, x.key, x.value).value)
  {
    hide ParseInt64;
  }

  /** The metadata of a response is accepted exactly when each member fits its field. */
  lemma {:induction false} StoreAllFits(m: Meta, members: seq<Member>)
    ensures StoreAll(m, members).Ok? <==> forall x :: x in members ==> Fits(m, x)
    ensures StoreAll(m, members).Ok? ==> SameSort(m, StoreAll(m, members).value)
    decreases |members|
  {
    hide Store;
    if members != [] {
      var x := members[0];
      StoreFits(m, x);
      assert members == [x] + members[1..];
      if Store(m, x.key, x.value).Ok? {
        var m' := Store(m, x.key, x.value).value;
        StoreAllFits(m', members[1..]);
        assert forall y :: Fits(m', y) <==> Fits(m, y);
      }
    }
  }

  lemma {:induction false} StoreAllAppend(m: Meta, a: seq<Member>, b: seq<Member>)
    ensures StoreAll(m, a + b) ==
            match StoreAll(m, a)
            case Err(e) => Err(e)
            case Ok(m') => StoreAll(m', b)
    decreases |a|
  {
    hide Store;
    if a == [] {
      assert a + b == b;
    } else {
      assert (a + b)[1..] == a[1..] + b;
      match Store(m, a[0].key, a[0].value)
      case Err(_) =>
      case Ok(m') => StoreAllAppend(m', a[1..], b);
    }
  }

  /** The value of the last member called `key`; a null is passed over when `skipNull` is set. */
  function LastValue(members: seq<Member>, key: string, skipNull: bool): (r: Option<Value>)
    ensures r.Some? && skipNull ==> !r.value.JNull?
    decreases |members|
  {
    if members == [] then None
    else
      var x := members[|members| - 1];
      if x.key == key && !(skipNull && x.value.JNull?) then Some(x.value)
      else LastValue(members[..|members| - 1], key, skipNull)
  }

  function IntOr(v: Option<Value>, default: int): int {
    if v.Some? && v.value.JNum? then
      match ParseInt64(v.value.text) case Some(n) => n case None => default
    else default
  }

  function StringOr(v: Option<Value>, default: string): string {
    if v.Some? && v.value.JStr? then v.value.s else default
  }

  function SequenceOr(v: Option<Value>, default: Option<Value>): Option<Value> {
    if v.Some? then v else default
  }

  /** Each field, stated by looking backwards for the last member that set it. */
  function Final(m: Meta, members: seq<Member>): Meta {
    match m
    case NoMeta => NoMeta
    case RowsMeta(offset, totalRows, updateSeq, warning, bookmark) =>
      RowsMeta(IntOr(LastValue(members, "offset", true), offset),
               IntOr(LastValue(members, "total_rows", true), totalRows),
               SequenceOr(LastValue(members, "update_seq", false), updateSeq),
               StringOr(LastValue(members, "warning", true), warning),
               StringOr(LastValue(members, "bookmark", true), bookmark))
    case ChangesMeta(lastSeq, pending) =>
      ChangesMeta(SequenceOr(LastValue(members, "last_seq", false), lastSeq),
                  IntOr(LastValue(members, "pending", true), pending))
  }

  lemma {:induction false} FinalSnoc(m: Meta, members: seq<Member>, x: Member)
    requires Store(Final(m, members), x.key, x.value).Ok?
    ensures Store(Final(m, members), x.key, x.value).value == Final(m, members + [x])
  {
    hide ParseInt64;
    var all := members + [x];
    assert all[|all| - 1] == x && all[..|all| - 1] == members;
  }

  /**
   Storing members one by one leaves each known field at its last non-null value. The
   sequence fields differ: they keep the last value even when that value is null.
   */
  lemma {:induction false} StoreAllIsFinal(m: Meta, members: seq<Member>)
    requires StoreAll(m, members).Ok?
    ensures StoreAll(m, members).value == Final(m, members)
    decreases |members|
  {
    hide Store, Final;
    if members == [] {
      FinalOfNone(m);
    } else {
      var x, before := members[|members| - 1], members[..|members| - 1];
      assert members == before + [x];
      StoreAllAppend(m, before, [x]);
      StoreAllIsFinal(m, before);
      var m1 := StoreAll(m, before).value;
      StoreAllOne(m1, x);
      FinalSnoc(m, before, x);
    }
  }

  lemma {:induction false} FinalOfNone(m: Meta)
    ensures Final(m, []) == m
  {
  }

  lemma {:induction false} StoreAllOne(m: Meta, x: Member)
    ensures StoreAll(m, [x]) == Store(m, x.key, x.value)
  {
    hide Store;
    assert [x][1..] == [];
  }

  /** A null update_seq is not skipped: the getter then reports the four letters of null. */
  lemma {:induction false} NullSequenceIsKept()
    ensures var members := [Member("update_seq", JStr("7")), Member("update_seq", JNull)];
            StoreAll(EMPTY_ROWS_META, members) == Ok(EMPTY_ROWS_META.(updateSeq := Some(JNull)))
    ensures SequenceID("null") == "null"
  {
    var first, second := Member("update_seq", JStr("7")), Member("update_seq", JNull);
    assert TrimLeft("null") == "null" && TrimRight("null") == "null";
    StoreAllOne(EMPTY_ROWS_META, first);
    StoreAllAppend(EMPTY_ROWS_META, [first], [second]);
    StoreAllOne(StoreAll(EMPTY_ROWS_META, [first]).value, second);
    assert [first, second] == [first] + [second];
  }

  /** A member changes the sequence ID exactly when it is called so. */
  lemma {:induction false} StoreSequence(m: Meta, key: string, v: Value)
    requires Store(m, key, v).Ok? && !m.NoMeta?
    ensures var m' := Store(m, key, v).value;
            SequenceKey(m') == SequenceKey(m) &&
            SequenceOf(m') == if key == SequenceKey(m) then Some(v) else SequenceOf(m)
  {
    hide ParseInt64;
  }
}
