/**
 Reading the members of an object and the items of an array one token at a time:
 what the token machine accepts is exactly what `Flatten` writes.
 */
module Members {
  import opened Errors
  import opened Json
  import opened Decoding
  import opened Metadata
  import opened IterSpec

  /** Between two members of an object, before the comma or the closing brace. */
  predicate AtMember(d: Dec) {
    d.failed.None? && d.stack != [] && (d.st == ObjectStart || d.st == ObjectComma)
  }

  /** Between two items of an array. */
  predicate AtItem(d: Dec) {
    d.failed.None? && d.stack != [] && (d.st == ArrayStart || d.st == ArrayComma)
  }

  predicate Lead(d: Dec) {
    d.st == ObjectComma || d.st == ArrayComma
  }

  /** Has consumed a key and waits for its colon. */
  predicate AtColon(d: Dec) {
    d.failed.None? && d.stack != [] && d.st == ObjectColon
  }

  function At(d: Dec, rest: Kinds, st: TokState): Dec {
    d.(rest := rest, st := st)
  }

  lemma {:induction false} KeyReads(d: Dec, key: string, rest: Kinds)
    requires AtMember(d) && d.rest == Sep(Lead(d)) + [Str(key)] + rest
    ensures More(d) && TokenStep(d) == Step(Ok(Text(key)), At(d, rest, ObjectColon))
  {
    if Lead(d) {
      assert d.rest[1..] == [Str(key)] + rest;
      assert ([Str(key)] + rest)[1..] == rest;
    } else {
      assert d.rest[1..] == rest;
    }
  }

  lemma {:induction false} TokenSound(d: Dec)
    requires AtMember(d) && TokenStep(d).res.Ok? && More(d)
    ensures var s := TokenStep(d);
            s.res.value.Text? &&
            d.rest == Sep(Lead(d)) + [Str(s.res.value.s)] + s.dec.rest &&
            s.dec == At(d, s.dec.rest, ObjectColon)
  {
    hide DecodeStep;
    assert d.rest == [d.rest[0]] + d.rest[1..];
    if Lead(d) {
      var d1 := Skip(d, ObjectKey);
      assert d.rest[0] == Comma && TokenStep(d) == TokenStep(d1);
      KeyHere(d1);
      assert [Comma] + ([Str(TokenStep(d).res.value.s)] + TokenStep(d).dec.rest) == d.rest;
    } else {
      KeyHere(d);
    }
  }

  /** Where a key must stand, only a key does, and behind a comma no brace either. */
  lemma {:induction false} KeyHere(d: Dec)
    requires d.failed.None? && TokenStep(d).res.Ok? && (d.st == ObjectStart || d.st == ObjectKey)
    requires d.st == ObjectStart ==> More(d)
    ensures var s := TokenStep(d);
            s.res.value.Text? && d.rest == [Str(s.res.value.s)] + s.dec.rest &&
            s.dec == At(d, s.dec.rest, ObjectColon)
  {
    hide DecodeStep;
    assert d.rest == [d.rest[0]] + d.rest[1..];
  }

  lemma {:induction false} ValueReads(d: Dec, v: Value, rest: Kinds)
    requires AtColon(d) && d.rest == [Colon] + Flatten(v) + rest
    ensures DecodeStep(d) == Step(Ok(v), At(d, rest, ObjectComma))
  {
    assert d.rest[1..] == Flatten(v) + rest;
    ScanFlatten(v, rest);
  }

  lemma {:induction false} ValueSound(d: Dec)
    requires AtColon(d) && DecodeStep(d).res.Ok?
    ensures var s := DecodeStep(d);
            d.rest == [Colon] + Flatten(s.res.value) + s.dec.rest &&
            s.dec == At(d, s.dec.rest, ObjectComma)
  {
    assert d.rest == [Colon] + d.rest[1..];
    ScanSound(d.rest[1..]);
  }

  lemma {:induction false} ItemReads(d: Dec, v: Value, rest: Kinds)
    requires AtItem(d) && d.rest == Sep(Lead(d)) + Flatten(v) + rest
    ensures More(d) && DecodeStep(d) == Step(Ok(v), At(d, rest, ArrayComma))
  {
    hide ScanValue;
    FlattenHead(v);
    ScanFlatten(v, rest);
    if Lead(d) {
      assert d.rest[1..] == Flatten(v) + rest;
    } else {
      assert d.rest == Flatten(v) + rest;
    }
  }

  lemma {:induction false} ItemSound(d: Dec)
    requires AtItem(d) && DecodeStep(d).res.Ok?
    ensures var s := DecodeStep(d);
            d.rest == Sep(Lead(d)) + Flatten(s.res.value) + s.dec.rest &&
            s.dec == At(d, s.dec.rest, ArrayComma)
  {
    if Lead(d) {
      assert d.rest == [Comma] + d.rest[1..];
      ScanSound(d.rest[1..]);
    } else {
      ScanSound(d.rest);
    }
  }

  /** The state behind the closing bracket or brace of the innermost container. */
  function Closed(d: Dec, rest: Kinds): Dec
    requires d.stack != []
  {
    d.(rest := rest, st := ValueEnd(d.stack[|d.stack| - 1]), stack := d.stack[..|d.stack| - 1])
  }

  lemma {:induction false} CloseReads(d: Dec, rest: Kinds)
    requires AtItem(d) || AtMember(d)
    requires d.rest == [if AtItem(d) then RBracket else RBrace] + rest
    ensures !More(d)
    ensures ExpectDelim(d, if AtItem(d) then ']' else '}') == Try(None, Closed(d, rest))
  {
    assert d.rest[1..] == rest;
  }

  /** A container cannot be closed behind a comma. */
  lemma {:induction false} NoCloseAfterComma(d: Dec)
    requires AtItem(d) || AtMember(d)
    ensures d.rest != [] && d.rest[0] == Comma ==> ExpectDelim(d, if AtItem(d) then ']' else '}').err.Some?
  {
    hide ScanValue;
    if d.rest != [] && d.rest[0] == Comma && Lead(d) {
      assert TokenStep(d) == TokenStep(Skip(d, if AtItem(d) then ArrayValue else ObjectKey));
    }
  }

  lemma {:induction false} CloseSound(d: Dec)
    requires AtItem(d) || AtMember(d)
    requires ExpectDelim(d, if AtItem(d) then ']' else '}').err.None?
    ensures var t := ExpectDelim(d, if AtItem(d) then ']' else '}');
            d.rest == [if AtItem(d) then RBracket else RBrace] + t.dec.rest &&
            t.dec == Closed(d, t.dec.rest)
  {
    NoCloseAfterComma(d);
    assert d.rest == [d.rest[0]] + d.rest[1..];
  }

  /** Where `[` opens the array that is the value of the key just read. */
  function Opened(d: Dec, rest: Kinds, st: TokState): Dec {
    d.(rest := rest, st := st, stack := d.stack + [ObjectValue])
  }

  lemma {:induction false} ArrayOpenReads(d: Dec, rest: Kinds)
    requires AtColon(d) && d.rest == [Colon, LBracket] + rest
    ensures ExpectDelim(d, '[') == Try(None, Opened(d, rest, ArrayStart))
  {
    assert TokenStep(d) == TokenStep(Skip(d, ObjectValue));
    assert d.rest[1..] == [LBracket] + rest;
    assert ([LBracket] + rest)[1..] == rest;
  }

  lemma {:induction false} ArrayOpenSound(d: Dec)
    requires AtColon(d) && ExpectDelim(d, '[').err.None?
    ensures var t := ExpectDelim(d, '[');
            d.rest == [Colon, LBracket] + t.dec.rest && t.dec == Opened(d, t.dec.rest, ArrayStart)
  {
    assert d.rest[0] == Colon;
    assert TokenStep(d) == TokenStep(Skip(d, ObjectValue));
    assert d.rest == [Colon] + d.rest[1..];
    assert d.rest[1..] == [d.rest[1]] + d.rest[1..][1..];
  }

  // ----------------------------------------------------- one metadata member

  lemma {:induction false} MetaReads(d: Dec, m: Meta, x: Member, rest: Kinds)
    requires !m.NoMeta? && AtColon(d) && d.rest == [Colon] + Flatten(x.value) + rest
    ensures Store(m, x.key, x.value).Ok? ==>
              ParseMeta(d, m, x.key) ==
              MetaStep(None, At(d, rest, ObjectComma), Store(m, x.key, x.value).value)
  {
    hide DecodeStep, Store;
    ValueReads(d, x.value, rest);
  }

  lemma {:induction false} MetaSound(d: Dec, m: Meta, key: string) returns (v: Value)
    requires !m.NoMeta? && AtColon(d) && ParseMeta(d, m, key).err.None?
    ensures var p := ParseMeta(d, m, key);
            d.rest == [Colon] + Flatten(v) + p.dec.rest &&
            p.dec == At(d, p.dec.rest, ObjectComma) &&
            Store(m, key, v) == Ok(p.meta)
  {
    hide DecodeStep, Store;
    ValueSound(d);
    v := DecodeStep(d).res.value;
  }
}
