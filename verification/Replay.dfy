/** Bodies that were read once and can be read again (chttp/trace.go). */
module Replay {
  import opened Errors

  /** What a body will deliver: its bytes, then `readErr` (EOF if none), and `closeErr` on Close. */
  datatype Content = Content(data: string, readErr: Option<Error>, closeErr: Option<Error>)

  function EndOf(c: Content): Error {
    if c.readErr.Some? then c.readErr.value else EOF
  }

  datatype Chunk = Chunk(bytes: string, err: Option<Error>)

  function Min(a: nat, b: nat): nat {
    if a < b then a else b
  }

  /** One Read at `pos` into a buffer of `n` bytes. */
  function ReadAt(c: Content, pos: nat, n: nat): Chunk
    requires pos <= |c.data|
  {
    if pos == |c.data| then Chunk("", Some(EndOf(c)))
    else Chunk(c.data[pos..pos + Min(n, |c.data| - pos)], None)
  }

  /** A body as an object, whether it comes from the network or is a replay. */
  class Body {
    const content: Content
    var pos: nat
    var closed: bool

    constructor (content: Content)
      ensures this.content == content && pos == 0 && !closed
    {
      this.content, this.pos, this.closed := content, 0, false;
    }

    predicate Valid()
      reads this
    {
      pos <= |content.data|
    }

    method Read(n: nat) returns (r: Chunk)
      requires Valid()
      modifies `pos
      ensures Valid() && r == ReadAt(content, old(pos), n) && pos == old(pos) + |r.bytes|
    {
      // bytes.Reader, whose EOF replayReadCloser replaces by the error it replays
      if pos == |content.data| {
        var err := EOF;
        if content.readErr.Some? {
          err := content.readErr.value;
        }
        return Chunk("", Some(err));
      }
      var k := Min(n, |content.data| - pos);
      r := Chunk(content.data[pos..pos + k], None);
      pos := pos + k;
    }

    /** io.ReadAll, in whatever chunks: everything that is left, and the error unless it is EOF. */
    method ReadAll(chunk: nat) returns (data: string, err: Option<Error>)
      requires Valid() && chunk > 0
      modifies `pos
      ensures Valid() && data == content.data[old(pos)..]
      ensures err == if EndOf(content) == EOF then None else Some(EndOf(content))
    {
      hide ReadAt;
      data := "";
      while true
        invariant Valid() && old(pos) <= pos && data == content.data[old(pos)..pos]
        decreases |content.data| - pos
      {
        ghost var before := pos;
        var r := Read(chunk);
        ReadAdds(content, old(pos), before, chunk);
        data := data + r.bytes;
        if r.err.Some? {
          err := if r.err.value == EOF then None else r.err;
          return;
        }
      }
    }

    method Close() returns (err: Option<Error>)
      modifies `closed
      ensures closed && err == content.closeErr
    {
      closed := true;
      err := content.closeErr;
    }
  }

  /** One Read behind what has been read since `start`. */
  lemma {:induction false} ReadAdds(c: Content, start: nat, pos: nat, n: nat)
    requires start <= pos <= |c.data| && n > 0
    ensures var r := ReadAt(c, pos, n);
            pos + |r.bytes| <= |c.data| &&
            c.data[start..pos] + r.bytes == c.data[start..pos + |r.bytes|] &&
            if r.err.Some? then pos == |c.data| && r == Chunk("", Some(EndOf(c))) else r.bytes != ""
  {
  }

  /** newReplay: without errors to replay a plain reader does. */
  method NewReplay(data: string, readErr: Option<Error>, closeErr: Option<Error>) returns (b: Body)
    ensures fresh(b) && b.Valid() && b.pos == 0 && b.content == Content(data, readErr, closeErr)
  {
    if readErr.None? && closeErr.None? {
      b := new Body(Content(data, None, None));
    } else {
      b := new Body(Content(data, readErr, closeErr));
    }
  }

  class Message {
    var body: Body?

    constructor (body: Body?)
      ensures this.body == body
    {
      this.body := body;
    }
  }

  /** What is left of a body, as a body of its own. */
  function Rest(b: Body): Content
    requires b.Valid()
    reads b
  {
    b.content.(data := b.content.data[b.pos..])
  }

  /** Delivers the same bytes, the same end and the same result of Close. */
  predicate SameBody(a: Content, b: Content) {
    a.data == b.data && a.closeErr == b.closeErr &&
    (if a.readErr.Some? then a.readErr.value else EOF) == if b.readErr.Some? then b.readErr.value else EOF
  }

  /** httpRequestBody: the message and its clone each get a replay of what the body delivered. */
  method HttpRequestBody(r: Message, chunk: nat) returns (clone: Message)
    requires (r.body != null ==> r.body.Valid()) && chunk > 0
    modifies r, r.body
    ensures fresh(clone)
    ensures old(r.body) == null ==> r.body == null && clone.body == null
    ensures old(r.body) != null ==>
              r.body != null && clone.body != null && r.body != clone.body && fresh(r.body) && fresh(clone.body) &&
              r.body.Valid() && clone.body.Valid() && r.body.pos == 0 && clone.body.pos == 0 &&
              SameBody(r.body.content, old(Rest(r.body))) && SameBody(clone.body.content, old(Rest(r.body))) &&
              old(r.body).closed
  {
    clone := new Message(r.body);
    if r.body != null {
      var original := r.body;
      var data, readErr := original.ReadAll(chunk);
      var closeErr := original.Close();
      r.body := NewReplay(data, readErr, closeErr);
      clone.body := NewReplay(data, readErr, closeErr);
    }
  }

  /** httpResponseBody: a response always has a body. */
  method HttpResponseBody(r: Message, chunk: nat) returns (clone: Message)
    requires r.body != null && r.body.Valid() && chunk > 0
    modifies r, r.body
    ensures fresh(clone) && r.body != null && clone.body != null && r.body != clone.body
    ensures fresh(r.body) && fresh(clone.body)
    ensures r.body.Valid() && clone.body.Valid() && r.body.pos == 0 && clone.body.pos == 0
    ensures SameBody(r.body.content, old(Rest(r.body))) && SameBody(clone.body.content, old(Rest(r.body)))
    ensures old(r.body).closed
  {
    clone := HttpRequestBody(r, chunk);
  }

  // ---------------------------------------------------------------- a sequence of reads

  function Reads(c: Content, pos: nat, sizes: seq<nat>): (r: seq<Chunk>)
    requires pos <= |c.data|
    ensures |r| == |sizes|
    decreases |sizes|
  {
    if sizes == [] then []
    else
      var k := ReadAt(c, pos, sizes[0]);
      [k] + Reads(c, pos + |k.bytes|, sizes[1..])
  }

  function Sum(sizes: seq<nat>): nat
    decreases |sizes|
  {
    if sizes == [] then 0 else sizes[0] + Sum(sizes[1..])
  }

  function Joined(chunks: seq<Chunk>): string {
    if chunks == [] then "" else chunks[0].bytes + Joined(chunks[1..])
  }

  lemma {:induction false} JoinedCons(k: Chunk, rest: seq<Chunk>)
    ensures Joined([k] + rest) == k.bytes + Joined(rest)
  {
    assert ([k] + rest)[1..] == rest;
  }

  /** For every sequence of buffer sizes the bytes arrive in order and complete. */
  lemma {:induction false} ReadsDeliver(c: Content, pos: nat, sizes: seq<nat>)
    requires pos <= |c.data|
    ensures var end := pos + Sum(sizes);
            Joined(Reads(c, pos, sizes)) == c.data[pos..if end < |c.data| then end else |c.data|]
    decreases |sizes|
  {
    if sizes != [] {
      var k := ReadAt(c, pos, sizes[0]);
      var next := pos + |k.bytes|;
      ReadsDeliver(c, next, sizes[1..]);
      JoinedCons(k, Reads(c, next, sizes[1..]));
      var end := Min(pos + Sum(sizes), |c.data|);
      assert k.bytes == c.data[pos..next];
      Pieces(c.data, pos, next, end);
    }
  }

  lemma {:induction false} Pieces(t: string, a: nat, b: nat, c: nat)
    requires a <= b <= c <= |t|
    ensures t[a..b] + t[b..c] == t[a..c]
  {
  }

  /**
   A read fills the buffer as far as the bytes go, and reports the end, then and ever after,
   exactly when everything has been delivered: with the error to replay, or else EOF.
   */
  lemma {:induction false} ReadsEnd(c: Content, pos: nat, sizes: seq<nat>, i: nat)
    requires pos <= |c.data| && i < |sizes|
    ensures var start, n, k := pos + Sum(sizes[..i]), |c.data|, Reads(c, pos, sizes)[i];
            if start >= n then k == Chunk("", Some(if c.readErr.Some? then c.readErr.value else EOF))
            else k == Chunk(c.data[start..if start + sizes[i] < n then start + sizes[i] else n], None)
    decreases |sizes|
  {
    if i > 0 {
      var k := ReadAt(c, pos, sizes[0]);
      ReadsEnd(c, pos + |k.bytes|, sizes[1..], i - 1);
      assert sizes[..i][1..] == sizes[1..][..i - 1];
    }
  }

  /** Two bodies that deliver the same cannot be told apart by reading. */
  lemma {:induction false} SameReads(a: Content, b: Content, pos: nat, sizes: seq<nat>)
    requires SameBody(a, b) && pos <= |a.data|
    ensures Reads(a, pos, sizes) == Reads(b, pos, sizes)
    decreases |sizes|
  {
    if sizes != [] {
      SameReads(a, b, pos + |ReadAt(a, pos, sizes[0]).bytes|, sizes[1..]);
    }
  }
}
