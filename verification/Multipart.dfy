/**
 Uploading a document with its attachments (db.go): the stubs that are written into the
 document and the parts that follow it are made separately and must agree.
 */
module Multipart {
  import opened Errors
  import opened Json
  import opened Lexer
  import opened Numerals
  import Metadata
  import opened Stream
  import Rewriter
  import RT = RewriterTheorems
  import T = Truncation

  // ------------------------------------------------------------------ order of filenames

  /** The order of sort.Strings, which is also the order in which encoding/json writes map keys. */
  predicate Less(a: string, b: string) {
    if b == "" then false
    else if a == "" then true
    else if a[0] != b[0] then a[0] < b[0]
    else Less(a[1..], b[1..])
  }

  predicate Increasing(s: seq<string>) {
    forall i, j :: 0 <= i < j < |s| ==> Less(s[i], s[j])
  }

  lemma {:induction false} LessTransitive(a: string, b: string, c: string)
    requires Less(a, b) && Less(b, c)
    ensures Less(a, c)
    decreases |a|
  {
    if a != "" && a[0] == b[0] && b[0] == c[0] {
      LessTransitive(a[1..], b[1..], c[1..]);
    }
  }

  lemma {:induction false} LessTotal(a: string, b: string)
    ensures a == b || Less(a, b) || Less(b, a)
    ensures !(Less(a, b) && Less(b, a))
    ensures !Less(a, a)
    decreases |a|
  {
    if a != "" && b != "" {
      LessTotal(a[1..], b[1..]);
      LessTotal(a[1..], a[1..]);
      assert a == [a[0]] + a[1..] && b == [b[0]] + b[1..];
    } else if a != "" {
      LessTotal(a[1..], a[1..]);
    }
  }

  /** There is one increasing way to list a set of names. */
  lemma {:induction false} IncreasingIsUnique(s: seq<string>, t: seq<string>)
    requires Increasing(s) && Increasing(t)
    requires forall x :: x in s <==> x in t
    ensures s == t
    decreases |s|
  {
    if s != [] {
      ListsNonEmpty(s, t);
    }
    if t != [] {
      ListsNonEmpty(t, s);
      HeadsAgree(s, t);
      forall x
        ensures x in s[1..] <==> x in t[1..]
      {
        TailMembers(s, x);
        TailMembers(t, x);
      }
      IncreasingIsUnique(s[1..], t[1..]);
      assert s == [s[0]] + s[1..] && t == [t[0]] + t[1..];
    }
  }

  lemma {:induction false} ListsNonEmpty(s: seq<string>, t: seq<string>)
    requires s != [] && forall x :: x in s <==> x in t
    ensures t != []
  {
    assert s[0] in t;
  }

  lemma {:induction false} HeadsAgree(s: seq<string>, t: seq<string>)
    requires s != [] && t != [] && Increasing(s) && Increasing(t)
    requires forall x :: x in s <==> x in t
    ensures s[0] == t[0]
  {
    assert s[0] in t && t[0] in s;
    var i :| 0 <= i < |t| && t[i] == s[0];
    var j :| 0 <= j < |s| && s[j] == t[0];
    LessTotal(s[0], t[0]);
  }

  lemma {:induction false} TailMembers(s: seq<string>, x: string)
    requires s != [] && Increasing(s)
    ensures x in s[1..] <==> x in s && x != s[0]
  {
    LessTotal(s[0], s[0]);
    if x in s && x != s[0] {
      var i :| 0 <= i < |s| && s[i] == x;
      assert s[1..][i - 1] == x;
    }
    if x in s[1..] {
      var i :| 0 <= i < |s[1..]| && s[1..][i] == x;
      assert s[i + 1] == x && Less(s[0], s[i + 1]);
    }
  }

  /** Inserts a new name into an increasing list. */
  method Insert(name: string, sorted: seq<string>) returns (r: seq<string>)
    requires Increasing(sorted) && name !in sorted
    ensures Increasing(r) && forall x :: x in r <==> x == name || x in sorted
  {
    var i := 0;
    while i < |sorted| && Less(sorted[i], name)
      invariant 0 <= i <= |sorted|
      invariant forall j :: 0 <= j < i ==> Less(sorted[j], name)
    {
      i := i + 1;
    }
    r := sorted[..i] + [name] + sorted[i..];
    forall j | i <= j < |sorted|
      ensures Less(name, sorted[j])
    {
      LessTotal(name, sorted[i]);
      if i < j {
        LessTransitive(name, sorted[i], sorted[j]);
      }
    }
    assert sorted == sorted[..i] + sorted[i..];
  }

  /** The keys of a map, gathered in no particular order and then sorted. */
  method SortedNames(keys: set<string>) returns (names: seq<string>)
    ensures Increasing(names) && forall x :: x in names <==> x in keys
  {
    names := [];
    var left := keys;
    while left != {}
      invariant left <= keys && Increasing(names)
      invariant forall x :: x in names <==> x in keys && x !in left
      decreases left
    {
      var name :| name in left;
      names := Insert(name, names);
      left := left - {name};
    }
  }

  // --------------------------------------------------------------------- attachment sizes

  /** What reading to the end notices: EOF is how a reader ends. */
  function Noticed(err: Option<Error>): (r: Option<Error>)
    ensures r != Some(EOF)
  {
    if err == Some(EOF) then None else err
  }

  /**
   What an attachment is read from: something with Len, something with Stat, or a mere reader.
   `again` is what reading it reports once it is closed; a buffer is never closed, and a file
   then refuses everything.
   */
  datatype Content =
    | Buffer(data: string)
    | File(data: string, stat: Result<nat>, closed: bool)
    | Plain(data: string, readErr: Option<Error>, again: Option<Error>)

  /** Read to the end, but not closed. */
  function Drained(c: Content): Content {
    c.(data := "")
  }

  /** Read to the end and closed. */
  function Spent(c: Content): Content {
    match c
    case Buffer(_) => Buffer("")
    case File(_, _, _) => File("", Err(AlreadyClosed), true)
    case Plain(_, _, again) => Plain("", again, again)
  }

  class Attachment {
    const contentType: string
    var content: Content
    var size: int

    constructor (contentType: string, content: Content, size: int)
      ensures this.contentType == contentType && this.content == content && this.size == size
    {
      this.contentType, this.content, this.size := contentType, content, size;
    }
  }

  datatype Measured = Measured(size: int, content: Content)

  /** readerSize: by Len, else by Stat, else by reading everything into a buffer. */
  function ReaderSize(c: Content): Result<Measured> {
    match c
    case Buffer(data) => Ok(Measured(|data|, c))
    case File(_, stat, _) => (match stat case Ok(n) => Ok(Measured(n, c)) case Err(e) => Err(e))
    case Plain(data, readErr, _) =>
      (match Noticed(readErr) case None => Ok(Measured(|data|, Plain(data, None, None))) case Some(e) => Err(e))
  }

  function Measure(size: int, c: Content): Result<Measured> {
    if size > 0 then Ok(Measured(size, c)) else ReaderSize(c)
  }

  /** What reading the content to its end reports. */
  function ReadError(c: Content): Option<Error> {
    match c
    case Buffer(_) => None
    case File(_, _, closed) => if closed then Some(AlreadyClosed) else None
    case Plain(_, readErr, _) => Noticed(readErr)
  }

  /** The same bytes, and no error that was not there before, now or after closing. */
  predicate Keeps(c: Content, c': Content) {
    c'.data == c.data && (ReadError(c').Some? ==> ReadError(c') == ReadError(c)) &&
    (ReadError(Spent(c')).Some? ==> ReadError(Spent(c')) == ReadError(Spent(c)))
  }

  /** What the kinds of content report when they are read, and when they are read again once closed. */
  lemma {:induction false} ContentReports(c: Content)
    ensures c.Buffer? ==> ReadError(c).None? && Spent(c) == Buffer("")
    ensures c.File? ==> (ReadError(c) == if c.closed then Some(AlreadyClosed) else None) &&
                        ReadError(Spent(c)) == Some(AlreadyClosed) && Spent(c).data == ""
    ensures c.Plain? ==> (ReadError(c) == if c.readErr == Some(EOF) then None else c.readErr) &&
                         (ReadError(Spent(c)) == if c.again == Some(EOF) then None else c.again) && Spent(c).data == ""
    ensures Drained(c).data == "" && ReadError(Drained(c)) == ReadError(c)
  {
  }

  /** Measuring loses no content, and says exactly when the size is the number of bytes that follow. */
  lemma {:induction false} MeasureKeepsContent(size: int, c: Content)
    requires Measure(size, c).Ok?
    ensures var m := Measure(size, c).value;
            Keeps(c, m.content) &&
            (m.size == |c.data| <==>
             if size > 0 then size == |c.data|
             else c.File? ==> c.stat == Ok(|c.data|))
  {
  }

  lemma {:induction false} MeasureKeeps(size: int, c: Content)
    ensures Keeps(c, c) && (Measure(size, c).Ok? ==> Keeps(c, Measure(size, c).value.content))
  {
    if Measure(size, c).Ok? {
      MeasureKeepsContent(size, c);
    }
  }

  /** An attachment that is listed under two names is measured twice, to the same result. */
  lemma {:induction false} MeasureTwice(size: int, c: Content)
    requires Measure(size, c).Ok?
    ensures var m := Measure(size, c).value; Measure(m.size, m.content) == Ok(m)
  {
  }

  /** What a failed measuring leaves: a mere reader has been read. */
  function Unmeasured(size: int, c: Content): Content {
    if size <= 0 && c.Plain? then Drained(c) else c
  }

  method AttachmentSize(att: Attachment) returns (err: Option<Error>)
    modifies att
    ensures match Measure(old(att.size), old(att.content))
            case Err(e) =>
              err == Some(e) && att.size == old(att.size) &&
              att.content ==
              (var c := old(att.content); if att.size <= 0 && c.Plain? then Plain("", c.readErr, c.again) else c)
            case Ok(m) => err.None? && att.size == m.size && att.content == m.content
  {
    if att.size > 0 {
      return None;
    }
    match ReaderSize(att.content)
    case Err(e) =>
      att.content, err := Unmeasured(att.size, att.content), Some(e);
    case Ok(m) =>
      att.content, att.size, err := m.content, m.size, None;
  }

  datatype Stub = Stub(contentType: string, size: int)

  /** The sizes and contents of attachments at some moment. */
  type Sources = map<Attachment, Measured>

  ghost function Snapshot(atts: map<string, Attachment>): Sources
    reads atts.Values
  {
    map a | a in atts.Values :: Measured(a.size, a.content)
  }

  ghost predicate AllMeasured(was: Sources, now: Sources) {
    was.Keys == now.Keys && forall a :: a in was ==> Measure(was[a].size, was[a].content) == Ok(now[a])
  }

  ghost predicate AllKept(was: Sources, now: Sources) {
    was.Keys == now.Keys && forall a :: a in was ==> Keeps(was[a].content, now[a].content)
  }

  ghost predicate MaybeMeasured(was: Sources, a: Attachment, now: Measured) {
    a in was && (now == was[a] || Measure(was[a].size, was[a].content) == Ok(now))
  }

  /** Measures every attachment, in no particular order, and makes a stub for each name. */
  method AttachmentStubs(atts: map<string, Attachment>) returns (stubs: map<string, Stub>, err: Option<Error>)
    modifies atts.Values
    ensures err.None? ==>
              stubs.Keys == atts.Keys && AllMeasured(old(Snapshot(atts)), Snapshot(atts)) &&
              forall n :: n in atts ==> stubs[n] == Stub(atts[n].contentType, atts[n].size)
    ensures err.Some? ==>
              exists n :: n in atts && Measure(old(atts[n].size), old(atts[n].content)) == Err(err.value)
    ensures err.None? || err == Some(EOF) ==> AllKept(old(Snapshot(atts)), Snapshot(atts))
  {
    hide Measure, Keeps;
    ghost var was := Snapshot(atts);
    stubs, err := map[], None;
    var left := atts.Keys;
    while left != {}
      invariant left <= atts.Keys && stubs.Keys == atts.Keys - left && err.None?
      invariant forall a :: a in was ==> MaybeMeasured(was, a, Measured(a.size, a.content))
      invariant forall n :: n in stubs ==>
                  stubs[n] == Stub(atts[n].contentType, atts[n].size) &&
                  Measure(was[atts[n]].size, was[atts[n]].content) == Ok(Measured(atts[n].size, atts[n].content))
      decreases left
    {
      var name :| name in left;
      var att := atts[name];
      MeasureOnce(was, att, Measured(att.size, att.content));
      err := AttachmentSize(att);
      if err.Some? {
        if err == Some(EOF) {
          NotTheEnd(att.size, old(att.content));
          NotTheEnd(att.size, was[att].content);
          MeasuredKeep(was, Snapshot(atts));
        }
        return;
      }
      stubs := stubs[name := Stub(att.contentType, att.size)];
      left := left - {name};
    }
    MeasuredKeep(was, Snapshot(atts));
  }

  /** Measuring an attachment that is as it was or measured gives what measuring it first gives. */
  lemma {:induction false} MeasureOnce(was: Sources, a: Attachment, now: Measured)
    requires MaybeMeasured(was, a, now)
    ensures Measure(now.size, now.content) == Measure(was[a].size, was[a].content)
    ensures Measure(now.size, now.content).Err? ==> now == was[a]
  {
    if Measure(was[a].size, was[a].content) == Ok(now) {
      MeasureTwice(was[a].size, was[a].content);
    }
  }

  /** Reading everything never fails with EOF, so a measuring that does leaves the content alone. */
  lemma {:induction false} NotTheEnd(size: int, c: Content)
    ensures Measure(size, c) == Err(EOF) ==> Unmeasured(size, c) == c
  {
  }

  lemma {:induction false} MeasuredKeep(was: Sources, now: Sources)
    requires was.Keys == now.Keys && forall a :: a in was ==> MaybeMeasured(was, a, now[a])
    ensures AllKept(was, now)
  {
    hide Measure, Keeps;
    forall a | a in was ensures Keeps(was[a].content, now[a].content) {
      assert MaybeMeasured(was, a, now[a]);
      MeasureKeeps(was[a].size, was[a].content);
    }
  }

  // ------------------------------------------------------------------ stubs as JSON text

  function NatText(n: nat): (t: string)
    ensures t != ""
  {
    var digit := [('0' as int + n % 10) as char];
    if n < 10 then digit else NatText(n / 10) + digit
  }

  function IntText(n: int): string {
    if n < 0 then "-" + NatText(-n) else NatText(n)
  }

  lemma {:induction false} DigitsOfNat(n: nat)
    ensures var t := NatText(n);
            DigitsLen(t) == |t| && (t[0] == '0' ==> n == 0) && (n == 0 ==> |t| == 1)
  {
    if n >= 10 {
      var t := NatText(n / 10);
      DigitsOfNat(n / 10);
      DigitsSnoc(t, ('0' as int + n % 10) as char);
    }
  }

  lemma {:induction false} DigitsSnoc(t: string, c: char)
    requires DigitsLen(t) == |t| && '0' <= c <= '9'
    ensures DigitsLen(t + [c]) == |t| + 1
  {
    if t == "" {
      assert t + [c] == [c];
    } else {
      DigitsSnoc(t[1..], c);
      assert (t + [c])[1..] == t[1..] + [c];
    }
  }

  lemma {:induction false} NatTextIsSum(n: nat)
    ensures AllDigits(NatText(n)) && DigitSum(NatText(n)) == n
  {
    var c := ('0' as int + n % 10) as char;
    SumSnoc("", c);
    assert "" + [c] == [c];
    if n >= 10 {
      NatTextIsSum(n / 10);
      SumSnoc(NatText(n / 10), c);
    }
  }

  /** A number is written as its decimal numeral, without leading zeros. */
  lemma {:induction false} IntTextIsNumeral(n: int)
    ensures var t := IntText(n);
            IsNumeral(t, n) && (t[0] == '-' <==> n < 0) &&
            (|t| > 1 ==> t[0] != '0' && (t[0] == '-' ==> t[1] != '0'))
  {
    var m := if n < 0 then -n else n;
    DigitsOfNat(m);
    NatTextIsSum(m);
    assert n < 0 ==> IntText(n)[1..] == NatText(m);
  }

  /** What is written for a 64-bit integer is read as that integer. */
  lemma {:induction false} IntTextReads(n: int)
    ensures Metadata.ParseInt64(IntText(n)) == Some(n) <==>
            -9_223_372_036_854_775_808 <= n <= 9_223_372_036_854_775_807
  {
    IntTextIsNumeral(n);
    Metadata.ParseInt64Exact(IntText(n), n);
  }

  lemma {:induction false} IntTextIsNumber(n: int)
    ensures IsNumber(IntText(n))
  {
    var m := if n < 0 then -n else n;
    DigitsOfNat(m);
    var t := NatText(m);
    assert t[|t|..] == "";
    if n < 0 {
      assert IntText(n)[1..] == t;
    } else {
      assert '0' <= t[0] <= '9';
    }
  }

  function StubMembers(s: Stub): seq<Member> {
    [Member("content_type", JStr(s.contentType)),
     Member("length", JNum(IntText(s.size))),
     Member("follows", JBool(true))]
  }

  /** The members that stand for the attachments, in the order of `names`. */
  function StubsOf(names: seq<string>, stubs: map<string, Stub>): (r: seq<Member>)
    requires forall n :: n in names ==> n in stubs
    ensures |r| == |names|
  {
    seq(|names|, i requires 0 <= i < |names| => Member(names[i], JObj(StubMembers(stubs[names[i]]))))
  }

  ghost predicate Lists(names: seq<string>, keys: set<string>) {
    Increasing(names) && forall x :: x in names <==> x in keys
  }

  function EncodedStubs(names: seq<string>, stubs: map<string, Stub>): string
    requires forall n :: n in names ==> n in stubs
  {
    Print(JObj(StubsOf(names, stubs))) + "\n"
  }

  /** json.NewEncoder(w).Encode of a map: the keys in increasing order, and a newline. */
  method EncodeStubs(stubs: map<string, Stub>) returns (text: string, ghost names: seq<string>)
    ensures Lists(names, stubs.Keys) && text == EncodedStubs(names, stubs)
  {
    var sorted := SortedNames(stubs.Keys);
    names := sorted;
    text := EncodedStubs(sorted, stubs);
  }

  /** Copies one part and, unless that fails, closes the content. */
  method CopyPart(att: Attachment) returns (part: string, err: Option<Error>)
    modifies att`content
    ensures part == old(att.content.data) && err == ReadError(old(att.content))
    ensures att.content == if err.None? then Spent(old(att.content)) else Drained(old(att.content))
  {
    part := att.content.data;
    err := ReadError(att.content);
    att.content := if err.None? then Spent(att.content) else Drained(att.content);
  }

  /** Whether an attachment has been met before under another name. */
  predicate Met(names: seq<string>, atts: map<string, Attachment>, i: nat) {
    i < |names| && names[i] in atts && exists j :: 0 <= j < i && names[j] in atts && atts[names[j]] == atts[names[i]]
  }

  /** An attachment that is listed under another name as well. */
  predicate Shared(atts: map<string, Attachment>, n: string) {
    n in atts && exists m :: m in atts && m != n && atts[m] == atts[n]
  }

  lemma {:induction false} MetIsShared(names: seq<string>, atts: map<string, Attachment>, i: nat)
    requires Increasing(names) && Met(names, atts, i)
    ensures Shared(atts, names[i])
  {
    var j :| 0 <= j < i && names[j] in atts && atts[names[j]] == atts[names[i]];
    LessTotal(names[j], names[j]);
    assert Less(names[j], names[i]);
  }

  /** Some attachment cannot be read, or not once more. */
  ghost predicate CannotRead(atts: map<string, Attachment>, was: Sources, n: string, err: Option<Error>) {
    n in atts && atts[n] in was &&
    (ReadError(was[atts[n]].content) == err || (Shared(atts, n) && ReadError(Spent(was[atts[n]].content)) == err))
  }

  /** What the part of the i-th name holds: nothing is left of content that has been copied before. */
  ghost predicate PartFits(names: seq<string>, atts: map<string, Attachment>, was: Sources, i: nat, part: string) {
    i < |names| && names[i] in atts && atts[names[i]] in was &&
    part == if Met(names, atts, i) then "" else was[atts[names[i]]].content.data
  }

  /** The parts of all names, in their order. */
  ghost predicate Holds(names: seq<string>, atts: map<string, Attachment>, was: Sources, parts: seq<string>) {
    Lists(names, atts.Keys) && |parts| == |names| &&
    forall i :: 0 <= i < |names| ==> PartFits(names, atts, was, i, parts[i])
  }

  /**
   The attachments in increasing order of their names. A name whose attachment has been
   copied already gets what reading the spent content gives.
   */
  method CopyParts(atts: map<string, Attachment>) returns (names: seq<string>, parts: seq<string>, err: Option<Error>)
    modifies atts.Values
    ensures Lists(names, atts.Keys) && |parts| <= |names|
    ensures forall i :: 0 <= i < |parts| ==> PartFits(names, atts, old(Snapshot(atts)), i, parts[i])
    ensures err.None? ==> Holds(names, atts, old(Snapshot(atts)), parts)
    ensures err.Some? ==> exists n :: CannotRead(atts, old(Snapshot(atts)), n, err)
    ensures forall n :: n in atts ==> atts[n].size == old(atts[n].size)
  {
    hide Met, Shared, Increasing, Spent, ReadError, UsedBy, PartFits, CannotRead;
    names := SortedNames(atts.Keys);
    parts, err := [], None;
    ghost var was, done := Snapshot(atts), {};
    NoneUsed(names, atts);
    for i := 0 to |names|
      invariant |parts| == i && err.None? && done == UsedBy(names, atts, i)
      invariant forall j :: 0 <= j < i ==> PartFits(names, atts, was, j, parts[j])
      invariant forall a :: a in was ==>
                  a.size == was[a].size && a.content == if a in done then Spent(was[a].content) else was[a].content
    {
      var att := atts[names[i]];
      var part, e := CopyPart(att);
      PartIsRead(names, atts, was, i, part, e);
      parts, done := parts + [part], done + {att};
      if e.Some? {
        err := e;
        return;
      }
    }
  }

  /** One part is read from content that is as it was, or spent. */
  lemma {:induction false} PartIsRead(
      names: seq<string>, atts: map<string, Attachment>, was: Sources, i: nat, part: string, e: Option<Error>)
    requires i < |names| && names[i] in atts && atts[names[i]] in was && Increasing(names)
    requires var c := was[atts[names[i]]].content;
             var now := if atts[names[i]] in UsedBy(names, atts, i) then Spent(c) else c;
             part == now.data && e == ReadError(now)
    ensures PartFits(names, atts, was, i, part) && CannotRead(atts, was, names[i], e)
    ensures UsedBy(names, atts, i + 1) == UsedBy(names, atts, i) + {atts[names[i]]}
    ensures var c := was[atts[names[i]]].content; Spent(Spent(c)) == Spent(c)
  {
    hide Increasing, Shared;
    SpentTwice(was[atts[names[i]]].content);
    if Met(names, atts, i) {
      MetIsShared(names, atts, i);
    }
  }

  /** The attachments of the first `i` names. */
  ghost function UsedBy(names: seq<string>, atts: map<string, Attachment>, i: nat): set<Attachment>
    requires i <= |names|
  {
    set j | 0 <= j < i && names[j] in atts :: atts[names[j]]
  }

  lemma {:induction false} NoneUsed(names: seq<string>, atts: map<string, Attachment>)
    ensures UsedBy(names, atts, 0) == {}
  {
  }

  lemma {:induction false} SpentTwice(c: Content)
    ensures Spent(c).data == "" && Spent(Spent(c)) == Spent(c)
  {
  }

  /**
   The rewritten document as it comes out of the pipe: an EOF that the rewriter, or closing
   the input, reports is taken for the end of the document.
   */
  method CopyThroughPipe(r: Reader, stubs: string)
    returns (doc: string, err: Option<Error>)
    modifies r
    ensures var c := Rewriter.CopyText(old(r.unread), r.end, stubs);
            doc == c.out && err == Reported(old(r.unread), r.end, stubs, r.closeErr)
  {
    hide Rewriter.CopyText;
    doc, err := Rewriter.CopyWithAttachmentStubs(r, stubs);
    var e := r.Close();
    err := Noticed(if err.Some? then err else e);
  }

  /**
   The document part, with the stubs and their order if they could be made. What measuring
   reports goes through the pipe as well, while the input is closed unread.
   */
  method DocumentPart(r: Reader, atts: map<string, Attachment>)
    returns (doc: string, err: Option<Error>, ghost stubs: Option<map<string, Stub>>, ghost names: seq<string>)
    modifies r, atts.Values
    ensures err.None? || stubs.Some? ==> AllKept(old(Snapshot(atts)), Snapshot(atts))
    ensures stubs.None? ==>
              doc == "" && exists e :: CannotMeasure(atts, old(Snapshot(atts)), e) && err == Noticed(Some(e))
    ensures stubs.Some? ==>
              Stubbed(names, stubs.value, atts, old(Snapshot(atts))) &&
              doc == Rewriter.CopyText(old(r.unread), r.end, EncodedStubs(names, stubs.value)).out &&
              err == Reported(old(r.unread), r.end, EncodedStubs(names, stubs.value), r.closeErr)
  {
    hide Rewriter.CopyText, Print, Measure;
    ghost var was := Snapshot(atts);
    doc, names, stubs := "", [], None;
    var made;
    made, err := AttachmentStubs(atts);
    if err.Some? {
      assert CannotMeasure(atts, was, err.value);
      var _ := r.Close();
      err := Noticed(err);
      return;
    }
    StubsAgree(made, atts, was, Snapshot(atts));
    var text;
    text, names := EncodeStubs(made);
    stubs := Some(made);
    doc, err := CopyThroughPipe(r, text);
  }

  /** Measuring some attachment fails. */
  ghost predicate CannotMeasure(atts: map<string, Attachment>, was: Sources, err: Error) {
    exists n :: n in atts && atts[n] in was && Measure(was[atts[n]].size, was[atts[n]].content) == Err(err)
  }

  /** The size or the content of some attachment cannot be read. */
  ghost predicate Unreadable(atts: map<string, Attachment>, was: Sources, err: Error) {
    CannotMeasure(atts, was, err) || exists n :: CannotRead(atts, was, n, Some(err))
  }

  /**
   A stub gives the length of the content unless a size was given that differs or a file's
   size differs from what is left of it.
   */
  predicate Agrees(s: Stub, size: int, c: Content) {
    s.size == |c.data| <==> if size > 0 then size == |c.data| else c.File? ==> c.stat == Ok(|c.data|)
  }

  ghost predicate StubFits(stubs: map<string, Stub>, atts: map<string, Attachment>, was: Sources, n: string) {
    n in stubs && n in atts && atts[n] in was && stubs[n].contentType == atts[n].contentType &&
    Agrees(stubs[n], was[atts[n]].size, was[atts[n]].content)
  }

  /** A stub for each attachment, in increasing order of their names. */
  ghost predicate Stubbed(
      names: seq<string>, stubs: map<string, Stub>, atts: map<string, Attachment>, was: Sources) {
    stubs.Keys == atts.Keys && Lists(names, atts.Keys) && forall n :: n in atts ==> StubFits(stubs, atts, was, n)
  }

  lemma {:induction false} StubsAgree(
      stubs: map<string, Stub>, atts: map<string, Attachment>, was: Sources, now: Sources)
    requires stubs.Keys == atts.Keys && was.Keys == atts.Values && AllMeasured(was, now)
    requires forall n :: n in atts ==> stubs[n] == Stub(atts[n].contentType, now[atts[n]].size)
    ensures forall n :: n in atts ==> StubFits(stubs, atts, was, n)
  {
    hide Measure, Keeps;
    forall n | n in atts ensures StubFits(stubs, atts, was, n) {
      MeasureKeepsContent(was[atts[n]].size, was[atts[n]].content);
    }
  }

  /** Measuring between two moments does not change what there is to copy. */
  lemma {:induction false} PartsKept(
      names: seq<string>, atts: map<string, Attachment>, was: Sources, now: Sources, parts: seq<string>)
    requires AllKept(was, now) && Holds(names, atts, now, parts)
    ensures Holds(names, atts, was, parts)
  {
    hide Lists, Spent, ReadError;
    forall i | 0 <= i < |names| ensures PartFits(names, atts, was, i, parts[i]) {
      assert PartFits(names, atts, now, i, parts[i]);
    }
  }

  /** Nor what cannot be copied. */
  lemma {:induction false} ErrorKept(
      atts: map<string, Attachment>, was: Sources, now: Sources, n: string, err: Option<Error>)
    requires AllKept(was, now) && CannotRead(atts, now, n, err) && err.Some?
    ensures CannotRead(atts, was, n, err)
  {
    hide Spent, ReadError;
  }

  /**
   createMultipart: the document with its stubs, then one part for each attachment. Stubs and
   parts are ordered by different code, from maps without an order of their own.
   */
  method CreateMultipart(r: Reader, atts: map<string, Attachment>)
    returns (doc: string, parts: seq<string>, err: Option<Error>)
    modifies r, atts.Values
    ensures err.None? ==>
              Unstubbed(atts, old(Snapshot(atts)), doc, parts) ||
              exists names: seq<string>, stubs: map<string, Stub> ::
                Stubbed(names, stubs, atts, old(Snapshot(atts))) && Holds(names, atts, old(Snapshot(atts)), parts) &&
                Uploaded(old(r.unread), r.end, EncodedStubs(names, stubs), r.closeErr, doc)
    ensures err.Some? ==>
              Unreadable(atts, old(Snapshot(atts)), err.value) ||
              exists names: seq<string>, stubs: map<string, Stub> ::
                Stubbed(names, stubs, atts, old(Snapshot(atts))) &&
                Reported(old(r.unread), r.end, EncodedStubs(names, stubs), r.closeErr) == err
  {
    hide Rewriter.CopyText, Print, StubFits, CannotRead, CannotMeasure, PartFits, AllKept, Increasing;
    ghost var was := Snapshot(atts);
    parts := [];
    ghost var stubs, stubNames;
    doc, err, stubs, stubNames := DocumentPart(r, atts);
    if err.Some? {
      return;
    }
    ghost var now := Snapshot(atts);
    var names;
    names, parts, err := CopyParts(atts);
    if err.Some? {
      ghost var n :| CannotRead(atts, now, n, err);
      ErrorKept(atts, was, now, n, err);
    } else {
      PartsKept(names, atts, was, now, parts);
      if stubs.Some? {
        IncreasingIsUnique(names, stubNames);
      }
    }
  }

  /** newMultipartAttachments: the input is closed once more, and this time its error counts. */
  method NewMultipartAttachments(r: Reader, atts: map<string, Attachment>)
    returns (doc: string, parts: seq<string>, err: Option<Error>)
    modifies r, atts.Values
    ensures err.None? ==>
              r.closeErr.None? &&
              (Unstubbed(atts, old(Snapshot(atts)), doc, parts) ||
               exists names: seq<string>, stubs: map<string, Stub> ::
                 Stubbed(names, stubs, atts, old(Snapshot(atts))) && Holds(names, atts, old(Snapshot(atts)), parts) &&
                 Uploaded(old(r.unread), r.end, EncodedStubs(names, stubs), r.closeErr, doc))
    ensures err.Some? ==>
              r.closeErr == err || Unreadable(atts, old(Snapshot(atts)), err.value) ||
              exists names: seq<string>, stubs: map<string, Stub> ::
                Stubbed(names, stubs, atts, old(Snapshot(atts))) &&
                Reported(old(r.unread), r.end, EncodedStubs(names, stubs), r.closeErr) == err
  {
    doc, parts, err := CreateMultipart(r, atts);
    var e := r.Close();
    if err.None? {
      err := e;
    }
  }

  /** What goes out as the document is what the rewriter wrote, whether complete or up to a bare EOF. */
  predicate Uploaded(t: string, end: Error, stubs: string, closeErr: Option<Error>, doc: string) {
    doc == Rewriter.CopyText(t, end, stubs).out && Reported(t, end, stubs, closeErr).None?
  }

  /** What the pipe reports at the end of the document. */
  function Reported(t: string, end: Error, stubs: string, closeErr: Option<Error>): Option<Error> {
    var c := Rewriter.CopyText(t, end, stubs);
    Noticed(if c.err.Some? then c.err else closeErr)
  }

  /** The Stat of some file reports EOF, which leaves the document empty and is no error either. */
  ghost predicate Unstubbed(atts: map<string, Attachment>, was: Sources, doc: string, parts: seq<string>) {
    doc == "" && CannotMeasure(atts, was, EOF) && exists names :: Holds(names, atts, was, parts)
  }

  /** The encoded stubs are JSON for the listed attachments, whose numbers are well formed. */
  lemma {:induction false} EncodedStubsLex(names: seq<string>, stubs: map<string, Stub>)
    requires forall n :: n in names ==> n in stubs
    ensures KindsOf(EncodedStubs(names, stubs)) == Flatten(JObj(StubsOf(names, stubs)))
  {
    hide KindsOf, Print, Flatten;
    var v := JObj(StubsOf(names, stubs));
    StubsWritable(names, stubs);
    KindsOfPrint(v, "\n");
    assert KindsOf("\n") == [] by {
      NewlineKinds();
    }
  }

  lemma {:induction false} NewlineKinds()
    ensures KindsOf("\n") == []
  {
    assert SpaceLen("\n") == 1;
  }

  lemma {:induction false} StubsWritable(names: seq<string>, stubs: map<string, Stub>)
    requires forall n :: n in names ==> n in stubs
    ensures Writable(Flatten(JObj(StubsOf(names, stubs))))
  {
    StubsMembersWritable(false, names, stubs);
  }

  lemma {:induction false} StubsMembersWritable(lead: bool, names: seq<string>, stubs: map<string, Stub>)
    requires forall n :: n in names ==> n in stubs
    ensures Writable(FlattenMembers(lead, StubsOf(names, stubs)))
    decreases |names|
  {
    hide IsNumber;
    if names != [] {
      var ms := StubsOf(names, stubs);
      assert ms[1..] == StubsOf(names[1..], stubs);
      StubsMembersWritable(true, names[1..], stubs);
      assert names[0] in names;
      StubWritable(stubs[names[0]]);
      assert Writable(FlattenMember(ms[0]));
    }
  }

  lemma {:induction false} WritableCons(lead: bool, x: Member, ms: seq<Member>)
    requires Writable(Flatten(x.value)) && Writable(FlattenMembers(true, ms))
    ensures Writable(FlattenMembers(lead, [x] + ms))
  {
    hide IsNumber;
    FlattenMembersCons(lead, x, ms);
  }

  lemma {:induction false} StubWritable(s: Stub)
    ensures Writable(Flatten(JObj(StubMembers(s))))
  {
    hide IsNumber, IntText;
    IntTextIsNumber(s.size);
    var ms := StubMembers(s);
    assert FlattenMembers(true, []) == [];
    WritableCons(true, ms[2], []);
    WritableCons(true, ms[1], [ms[2]] + []);
    WritableCons(false, ms[0], [ms[1]] + ([ms[2]] + []));
    assert ms == [ms[0]] + ([ms[1]] + ([ms[2]] + []));
  }

  /**
   The uploaded document parses to the original with its first `_attachments` replaced by the
   stubs. The i-th is named like the i-th part and holds the content type, the decimal numeral
   of the size, and that the content follows.
   */
  lemma {:induction false} UploadedDocument(
      t: string, members: seq<Member>, names: seq<string>, stubs: map<string, Stub>)
    requires KindsOf(t) == Flatten(JObj(members)) && RT.PlainKeys(members)
    requires forall n :: n in names ==> n in stubs
    ensures var c := Rewriter.CopyText(t, EOF, EncodedStubs(names, stubs));
            c.err.None? &&
            KindsOf(c.out) == Flatten(JObj(RT.Replaced(members, JObj(StubsOf(names, stubs)))))
    ensures forall i :: 0 <= i < |names| ==>
              var s, x := stubs[names[i]], StubsOf(names, stubs)[i];
              x.key == names[i] && x.value.JObj? && |x.value.members| == 3 &&
              x.value.members[0] == Member("content_type", JStr(s.contentType)) &&
              x.value.members[1].key == "length" && x.value.members[1].value.JNum? &&
              IsNumeral(x.value.members[1].value.text, s.size) &&
              x.value.members[2] == Member("follows", JBool(true))
  {
    hide Rewriter.CopyText, KindsOf, Flatten, RT.PlainKeys, RT.Replaced, Print;
    forall i | 0 <= i < |names| ensures IsNumeral(IntText(stubs[names[i]].size), stubs[names[i]].size) {
      IntTextIsNumeral(stubs[names[i]].size);
    }
    EncodedStubsLex(names, stubs);
    RT.CopyExact(t, members, EncodedStubs(names, stubs), JObj(StubsOf(names, stubs)));
  }

  /**
   Which broken-off documents go out as if they were complete, wherever their text is cut: all
   but those that break off inside a key, or inside a value, before the first `_attachments`
   is complete. None of them goes out as the rewritten document.
   */
  lemma {:induction false} UploadedTruncated(
      t: string, m: nat, members: seq<Member>, names: seq<string>, stubs: map<string, Stub>)
    requires KindsOf(t) == Flatten(JObj(members)) && m <= |t| && forall n :: n in names ==> n in stubs
    ensures var c := Rewriter.CopyText(t[..m], EOF, EncodedStubs(names, stubs));
            (Noticed(c.err).None? <==>
             exists b, members' :: T.SameButNumber(members', members) && T.BreaksAt(KindsOf(t[..m]), members', b) &&
                                   (b.InKey? || b.InValue? ==> b.k > RT.FirstAttachments(members'))) &&
            (RT.PlainKeys(members) ==>
               (KindsOf(c.out) == Flatten(JObj(RT.Replaced(members, JObj(StubsOf(names, stubs))))) <==>
                KindsOf(t[..m]) == Flatten(JObj(members))))
  {
    hide Rewriter.CopyText, KindsOf, Flatten, RT.PlainKeys, RT.Replaced, Print, RT.FirstAttachments, T.BreaksAt,
      T.Begins, T.SameButNumber;
    var u, text, v := t[..m], EncodedStubs(names, stubs), JObj(StubsOf(names, stubs));
    EncodedStubsLex(names, stubs);
    T.CutDocumentBegins(t, m, members);
    var b, members' := T.BeginsBreaks(KindsOf(u), members);
    T.BreakOutcome(u, members', b, text, v);
    if b', ms :| T.SameButNumber(ms, members) && T.BreaksAt(KindsOf(u), ms, b') &&
                 (b'.InKey? || b'.InValue? ==> b'.k > RT.FirstAttachments(ms)) {
      T.BreakOutcome(u, ms, b', text, v);
    }
    if RT.PlainKeys(members) {
      T.OnlyWholeIsWhole(u, members, text, v);
    }
  }

  /** What goes out without an error was read to its EOF, whatever the input. */
  lemma {:induction false} UploadedIsRead(t: string, end: Error, stubs: string, closeErr: Option<Error>, doc: string)
    requires Uploaded(t, end, stubs, closeErr, doc)
    ensures end == EOF
  {
    hide Rewriter.CopyText;
    if end != EOF {
      RT.FailureIsReported(t, end, stubs);
    }
  }

  const KEY_ONLY := "{\"_id\":"

  lemma {:induction false} KeyOnlyKinds()
    ensures KindsOf(KEY_ONLY) == [LBrace, Str("_id"), Colon]
  {
    hide KindsOf;
    KindsOfText(Colon, "");
    KindsOfText(Str("_id"), ":");
    KindsOfText(LBrace, "\"_id\":");
    assert KindText(Str("_id")) == "\"_id\"";
    assert "\"_id\"" + ":" == "\"_id\":" && "{" + "\"_id\":" == KEY_ONLY;
    RT.NoKinds();
    assert ":" + "" == ":";
  }

  /** A document that ends behind its first key is uploaded as it is, whatever the stubs. */
  lemma {:induction false} KeyOnlyIsUploaded(stubs: string, closeErr: Option<Error>)
    ensures Uploaded(KEY_ONLY, EOF, stubs, closeErr, KEY_ONLY)
  {
    hide Rewriter.CopyText, Rewriter.CopyLoop, KindsOf;
    KeyOnlyKinds();
    var rest := [Str("_id"), Colon];
    assert [LBrace] + rest == [LBrace, Str("_id"), Colon];
    var d, t1 := RT.CopyOpens(KEY_ONLY, rest, stubs);
    assert rest == Sep(false) + [Str("_id")] + [Colon];
    T.NothingIncomplete();
    assert [Colon][1..] == [];
    T.CopyBroken(d, t1, "_id", [Colon], stubs);
    assert "{" + RT.MemberHead(false, "_id") == KEY_ONLY;
  }
}
