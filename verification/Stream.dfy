/**
 Readers and the JSON decoder as objects. A decoder holds the characters it has read
 ahead; how far it reads ahead is left open, so every result holds for every split of
 the input between its buffer and the reader.
 */
module Stream {
  import opened Errors
  import opened Json
  import opened Lexer
  import opened Decoding
  import CancelableReader

  /** An io.ReadCloser with finite content, followed by `end` on every later read. */
  class Reader {
    var unread: string
    var taken: string // everything read so far, in order: what a tee would have seen
    var closes: nat
    var ended: bool // a read has reported `end`
    const end: Error
    const closeErr: Option<Error>

    constructor (content: string, end: Error, closeErr: Option<Error>)
      ensures unread == content && taken == "" && closes == 0 && !ended
      ensures this.end == end && this.closeErr == closeErr
    {
      this.unread, this.taken, this.closes, this.ended := content, "", 0, false;
      this.end, this.closeErr := end, closeErr;
    }

    /**
     What closing reports when only a cancelable reader uses this one: if a read has failed or
     met the end, that has closed the reader with its error already.
     */
    function Report(): (r: Option<Error>)
      reads this
      ensures ended ==> r == if end == EOF then None else Some(end)
      ensures !ended ==> r == if closeErr == Some(EOF) then None else closeErr
    {
      CancelableReader.CloseReport(if ended then Some(end) else None, closeErr)
    }

    method Read(n: nat) returns (p: string)
      requires n <= |unread|
      modifies `unread, `taken
      ensures p == old(unread)[..n] && unread == old(unread)[n..] && taken == old(taken) + p
    {
      p := unread[..n];
      unread, taken := unread[n..], taken + p;
    }

    /** A read behind the content. */
    method ReadEnd() returns (err: Error)
      requires unread == ""
      modifies `ended
      ensures ended && err == end
    {
      ended, err := true, end;
    }

    /** io.ReadAll: an error other than EOF is returned with what was read before it. */
    method ReadAll() returns (p: string, err: Option<Error>)
      modifies `unread, `taken, `ended
      ensures p == old(unread) && unread == "" && taken == old(taken) + p
      ensures err == if end == EOF then None else Some(end)
    {
      p := unread;
      unread, taken, ended := "", taken + p, true;
      err := if end == EOF then None else Some(end);
    }

    method Close() returns (err: Option<Error>)
      modifies `closes
      ensures closes == old(closes) + 1 && err == closeErr
    {
      closes := closes + 1;
      err := closeErr;
    }
  }

  lemma {:induction false} SplitText(buf: string, used: nat, unread: string)
    requires used <= |buf|
    ensures buf[..used] + (buf[used..] + unread) == buf + unread && (buf + unread)[used..] == buf[used..] + unread
  {
  }

  class Decoder {
    var buf: string
    var st: TokState
    var stack: seq<TokState>
    var failed: Option<Error>
    const src: Reader

    constructor (src: Reader)
      ensures this.src == src && buf == ""
      ensures View() == NewDec(KindsAt(src.unread, src.end), src.end)
    {
      this.src, this.buf, this.st, this.stack, this.failed := src, "", TopValue, [], None;
      new;
      assert buf + src.unread == src.unread;
    }

    /** The characters not consumed yet, wherever they are. */
    function Pending(): string
      reads this, src
    {
      buf + src.unread
    }

    function View(): Dec
      reads this, src
    {
      Dec(KindsAt(Pending(), src.end), src.end, st, stack, failed)
    }

    /** Reads ahead until the buffer holds `need` characters, or further. */
    method Refill(need: nat)
      requires need <= |Pending()|
      modifies `buf, src`unread, src`taken, src`ended
      ensures need <= |buf| && Pending() == old(Pending())
      ensures src.taken + src.unread == old(src.taken + src.unread) && |src.unread| <= |old(src.unread)|
    {
      var n: nat :| n <= |src.unread| && need <= |buf| + n;
      var chunk := src.Read(n);
      buf := buf + chunk;
      var further: bool := *;
      if further && src.unread == "" {
        var _ := src.ReadEnd();
      }
    }

    /** Takes over the state `d`, dropping the lexemes it has consumed. */
    method Become(d: Dec) returns (raw: string)
      requires IsRest(View(), d) && d.end == src.end
      modifies this, src`unread, src`taken, src`ended
      ensures View() == d
      ensures Pending() == After(old(Pending()), |old(View()).rest| - |d.rest|)
      ensures raw + Pending() == old(Pending())
      ensures src.taken + src.unread == old(src.taken + src.unread) && |src.unread| <= |old(src.unread)|
    {
      hide KindsOf, KindsAt, After;
      var text := Pending();
      var j := |KindsAt(text, src.end)| - |d.rest|;
      var left := After(text, j);
      KindsAtAfter(text, src.end, j);
      AfterIsSuffix(text, j);
      var used := |text| - |left|;
      Refill(used);
      raw := buf[..used];
      SplitText(buf, used, src.unread);
      buf, st, stack, failed := buf[used..], d.st, d.stack, d.failed;
    }

    method Token() returns (r: Result<Token>)
      modifies this, src`unread, src`taken, src`ended
      ensures Step(r, View()) == TokenStep(old(View()))
      ensures Pending() == After(old(Pending()), |old(View()).rest| - |View().rest|)
      ensures Suffix(Pending(), old(Pending()))
      ensures src.taken + src.unread == old(src.taken + src.unread) && |src.unread| <= |old(src.unread)|
    {
      hide TokenStep, KindsOf, KindsAt, After;
      var s := TokenStep(View());
      TokenIsRest(View());
      AfterSuffix(Pending(), |View().rest| - |s.dec.rest|);
      var _ := Become(s.dec);
      r := s.res;
    }

    /** `raw` is the source text that was consumed, as a json.RawMessage keeps it. */
    method Decode() returns (r: Result<Value>, raw: string)
      modifies this, src`unread, src`taken, src`ended
      ensures Step(r, View()) == DecodeStep(old(View()))
      ensures Pending() == After(old(Pending()), |old(View()).rest| - |View().rest|)
      ensures Suffix(Pending(), old(Pending()))
      ensures raw + Pending() == old(Pending())
      ensures src.taken + src.unread == old(src.taken + src.unread) && |src.unread| <= |old(src.unread)|
    {
      hide DecodeStep, KindsOf, KindsAt, After;
      var s := DecodeStep(View());
      DecodeIsRest(View());
      AfterSuffix(Pending(), |View().rest| - |s.dec.rest|);
      raw := Become(s.dec);
      r := s.res;
    }

    method HasMore() returns (more: bool)
      modifies this, src`unread, src`taken, src`ended
      ensures more == More(old(View())) && View() == old(View()) && Pending() == old(Pending())
      ensures src.taken + src.unread == old(src.taken + src.unread) && |src.unread| <= |old(src.unread)|
    {
      hide KindsOf, KindsAt, More;
      more := More(View());
      assert View().rest == View().rest[0..];
      var _ := Become(View());
    }
  }
}
